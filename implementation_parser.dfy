/** The implementation-section emitter: for each registered implementation, its header,
    its local variables and a `begin`/`end` block holding the assignments among its
    top-level statements. */
module ImplementationParser {
  import opened Common
  import opened Ast
  import opened Types
  import opened Text
  import opened UnitModel
  import opened UnitWriter

  /** A JavaScript template literal prints an absent return type as `undefined`. */
  function ReturnsText(r: Option<string>): string
  {
    match r
    case None => "undefined"
    case Some(t) => t
  }

  /** The header `<kind> <name>: <returns>;`. */
  function Header(impl: ImplementationDeclaration): string
  {
    ImplKindText(impl.kind) + " " + impl.name + ": " + ReturnsText(impl.returnType) + ";"
  }

  /** `body.getVariableDeclarations()`: the declarators of the top-level variable
      statements, in order; declarations nested in other statements are not included. */
  function VarDeclarations(body: seq<Statement>): seq<VarDecl>
  {
    if body == [] then []
    else VarDeclarations(body[..|body| - 1])
         + (match body[|body| - 1] case VarStmt(ds) => ds case _ => [])
  }

  function VarLine(v: VarDecl): string
  {
    v.name + ": " + v.typeText + ";"
  }

  function VarLines(vs: seq<VarDecl>, indent: nat): string
  {
    Flatten(vs, (v: VarDecl) => Line(indent, VarLine(v)))
  }

  /** The `var` block: absent when there are no variables. */
  function VarBlock(vs: seq<VarDecl>, indent: nat): string
  {
    if vs == [] then "" else Line(indent, "var") + VarLines(vs, indent + 1)
  }

  /** The assignment text `:<op> <right>;` that follows the target. */
  function AssignmentTail(op: string, right: string): string
  {
    " :" + op + " " + right + ";"
  }

  /** The runtime error of calling `getName()` on a node that has no such method. */
  const GetNameError := TypeError("left.getName is not a function")

  /** The guard of `writeExpression` calls `getName()` on every left side that is not a
      property access, so such a node without that method makes it throw. */
  predicate ExpressionThrows(e: Expression)
  {
    e.Binary? && e.left.Plain? && e.left.name.None?
  }

  predicate StatementThrows(st: Statement)
  {
    st.ExprStmt? && ExpressionThrows(st.expr)
  }

  /** Some top-level statement of the body throws when written. */
  predicate BodyThrows(sts: seq<Statement>)
  {
    exists i {:trigger StatementThrows(sts[i])} :: 0 <= i < |sts| && StatementThrows(sts[i])
  }

  /** Some registered implementation throws when written. */
  predicate SectionThrows(entries: seq<Entry<ImplementationDeclaration>>)
  {
    exists i {:trigger BodyThrows(entries[i].value.body)} :: 0 <= i < |entries| && BodyThrows(entries[i].value.body)
  }

  /** The member-name path of `writeExpression`: the name through `writeIdentated`, the
      tail through `write`, and a closing `writeLine()` that puts the indentation again
      before the newline. */
  function TargetText(target: string, op: string, right: string, indent: nat): string
  {
    Tabs(indent) + target + AssignmentTail(op, right) + Line(indent, "")
  }

  /** What `writeExpression` writes when it does not throw. A left side that is not a
      property access and whose `getName()` is not `this` gives one line with its source
      text. A property access prints only its member name (the receiver is dropped), and
      a non-property-access node named `this` prints `this`, both on the member-name
      path. Other expressions print nothing. */
  function ExpressionText(e: Expression, indent: nat): string
  {
    match e
    case OtherExpr(_) => ""
    case Binary(left, op, right) =>
      match left
      case PropAccess(_, member) => TargetText(member, op, right, indent)
      case Plain(text, Some(name)) =>
        if name == "this" then TargetText(name, op, right, indent)
        else Line(indent, text + AssignmentTail(op, right))
      case Plain(_, None) => ""
  }

  /** What `writeStatement` writes: only expression statements produce text. */
  function StatementText(st: Statement, indent: nat): string
  {
    match st
    case ExprStmt(e) => ExpressionText(e, indent)
    case VarStmt(_) => ""
    case Other(_, _) => ""
  }

  function StatementsText(sts: seq<Statement>, indent: nat): string
  {
    Flatten(sts, (st: Statement) => StatementText(st, indent))
  }

  /** The text of one implementation. */
  function ImplementationText(impl: ImplementationDeclaration, indent: nat): string
  {
    Line(indent, Header(impl))
    + VarBlock(VarDeclarations(impl.body), indent)
    + Line(indent, "begin")
    + StatementsText(impl.body, indent + 1)
    + Line(indent, "end")
  }

  /** The text of a whole registry, in registration order. */
  function ImplementationsText(entries: seq<Entry<ImplementationDeclaration>>, indent: nat): string
  {
    Flatten(entries, (e: Entry<ImplementationDeclaration>) => ImplementationText(e.value, indent))
  }

  /** The member-name path: four writes and a bare `writeLine()`. */
  method WriteTarget(u: UnitWriter, target: string, op: string, right: string)
    modifies u
    ensures u.content == old(u.content) + TargetText(target, op, right, old(u.currentIdentation))
    ensures u.currentIdentation == old(u.currentIdentation) && u.State() == old(u.State())
  {
    ghost var indent := u.currentIdentation;
    ghost var c := u.content;
    ConcatOne(target);
    ConcatOne(" :" + op + " ");
    ConcatOne(right);
    ConcatOne(";");
    u.WriteIdentated([target]);
    u.Write([" :" + op + " "]);
    u.Write([right]);
    u.Write([";"]);
    u.WriteLine();
    TargetTextAfter(c, target, op, right, indent);
  }

  lemma TargetTextAfter(c: string, target: string, op: string, right: string, indent: nat)
    ensures c + Tabs(indent) + target + (" :" + op + " ") + right + ";" + Line(indent, "")
         == c + TargetText(target, op, right, indent)
  {
  }

  method WriteExpression(u: UnitWriter, exp: Expression) returns (r: Outcome)
    modifies u
    ensures r == if ExpressionThrows(exp) then Fail(GetNameError) else Pass
    ensures r.Pass? ==> u.content == old(u.content) + ExpressionText(exp, old(u.currentIdentation))
    ensures r.Fail? ==> u.content == old(u.content)
    ensures u.currentIdentation == old(u.currentIdentation) && u.State() == old(u.State())
  {
    r := Pass;
    match exp {
      case OtherExpr(_) =>
      case Binary(left, op, right) =>
        if !left.PropAccess? && left.name.None? {
          return Fail(GetNameError);
        }
        if !left.PropAccess? && left.name.value != "this" {
          u.WriteLine(left.text + " :" + op + " " + right + ";");
        } else {
          var target := if left.PropAccess? then left.member else left.name.value;
          WriteTarget(u, target, op, right);
        }
    }
  }

  method WriteStatement(u: UnitWriter, st: Statement) returns (r: Outcome)
    modifies u
    ensures r == if StatementThrows(st) then Fail(GetNameError) else Pass
    ensures r.Pass? ==> u.content == old(u.content) + StatementText(st, old(u.currentIdentation))
    ensures r.Fail? ==> u.content == old(u.content)
    ensures u.currentIdentation == old(u.currentIdentation) && u.State() == old(u.State())
  {
    r := Pass;
    match st {
      case VarStmt(_) =>
      case ExprStmt(exp) =>
        r := WriteExpression(u, exp);
      case Other(_, _) =>
    }
  }

  /** The statements in order; the first one that throws ends the walk. */
  method ParseStatements(u: UnitWriter, statements: seq<Statement>) returns (r: Outcome)
    modifies u
    ensures r == if BodyThrows(statements) then Fail(GetNameError) else Pass
    ensures r.Pass? ==> u.content == old(u.content) + StatementsText(statements, old(u.currentIdentation))
    ensures u.currentIdentation == old(u.currentIdentation) && u.State() == old(u.State())
  {
    ghost var indent := u.currentIdentation;
    var i := 0;
    while i < |statements|
      invariant 0 <= i <= |statements|
      invariant forall j :: 0 <= j < i ==> !StatementThrows(statements[j])
      invariant u.content == old(u.content) + StatementsText(statements[..i], indent)
      invariant u.currentIdentation == indent && u.State() == old(u.State())
    {
      FlattenStepAfter(old(u.content), statements, i, (st: Statement) => StatementText(st, indent));
      r := WriteStatement(u, statements[i]);
      if r.Fail? {
        return;
      }
      i := i + 1;
    }
    assert statements[..i] == statements;
    r := Pass;
  }

  /** The `var` block of one implementation. */
  method WriteVars(u: UnitWriter, vars: seq<VarDecl>)
    modifies u
    ensures u.content == old(u.content) + VarBlock(vars, old(u.currentIdentation))
    ensures u.currentIdentation == old(u.currentIdentation) && u.State() == old(u.State())
  {
    if |vars| > 0 {
      ghost var indent := u.currentIdentation;
      u.WriteLine("var");
      u.AdjustIdentation();
      var i := 0;
      while i < |vars|
        invariant 0 <= i <= |vars|
        invariant u.content == old(u.content) + Line(indent, "var") + VarLines(vars[..i], indent + 1)
        invariant u.currentIdentation == indent + 1 && u.State() == old(u.State())
      {
        FlattenStepAfter(old(u.content) + Line(indent, "var"), vars, i,
                         (v: VarDecl) => Line(indent + 1, VarLine(v)));
        u.WriteLine(vars[i].name + ": " + vars[i].typeText + ";");
        i := i + 1;
      }
      assert vars[..i] == vars;
      Assoc(old(u.content), Line(indent, "var"), VarLines(vars, indent + 1));
      u.AdjustIdentation(-1);
    }
  }

  /** One iteration of `parse`. A statement that throws leaves the writer one level
      deeper, inside the `begin` block. */
  method WriteImplementation(u: UnitWriter, impl: ImplementationDeclaration) returns (r: Outcome)
    modifies u
    ensures r == if BodyThrows(impl.body) then Fail(GetNameError) else Pass
    ensures r.Pass? ==> u.content == old(u.content) + ImplementationText(impl, old(u.currentIdentation))
    ensures r.Pass? ==> u.currentIdentation == old(u.currentIdentation)
    ensures u.State() == old(u.State())
  {
    ghost var indent := u.currentIdentation;
    var returnText := if impl.returnType.Some? then impl.returnType.value else "undefined";
    u.WriteLine(ImplKindText(impl.kind) + " " + impl.name + ": " + returnText + ";");
    ghost var c1 := u.content;
    WriteVars(u, VarDeclarations(impl.body));
    ghost var c2 := u.content;
    u.WriteLine("begin");
    ghost var c3 := u.content;
    u.AdjustIdentation();
    r := ParseStatements(u, impl.body);
    if r.Fail? {
      return;
    }
    ghost var c4 := u.content;
    u.AdjustIdentation(-1);
    u.WriteLine("end");
    var h := Line(indent, Header(impl));
    var v := VarBlock(VarDeclarations(impl.body), indent);
    var b := Line(indent, "begin");
    var s := StatementsText(impl.body, indent + 1);
    var e := Line(indent, "end");
    assert c1 == old(u.content) + h;
    assert c2 == c1 + v;
    assert c3 == c2 + b;
    assert c4 == c3 + s;
    assert u.content == c4 + e;
    Assoc(old(u.content), h, v);
    Assoc(old(u.content), h + v, b);
    Assoc(old(u.content), h + v + b, s);
    Assoc(old(u.content), h + v + b + s, e);
  }

  /** `parse`: the implementations in registration order, until one throws. */
  method Parse(u: UnitWriter) returns (r: Outcome)
    modifies u
    ensures r == if SectionThrows(old(u.implementation)) then Fail(GetNameError) else Pass
    ensures r.Pass? ==> u.content == old(u.content) + ImplementationsText(old(u.implementation), old(u.currentIdentation))
    ensures r.Pass? ==> u.currentIdentation == old(u.currentIdentation)
    ensures u.State() == old(u.State())
  {
    ghost var indent := u.currentIdentation;
    ghost var entries := u.implementation;
    var i := 0;
    while i < |u.implementation|
      invariant 0 <= i <= |entries| && u.implementation == entries
      invariant !SectionThrows(entries[..i])
      invariant u.content == old(u.content) + ImplementationsText(entries[..i], indent)
      invariant u.currentIdentation == indent && u.State() == old(u.State())
    {
      FlattenStepAfter(old(u.content), entries, i,
                       (e: Entry<ImplementationDeclaration>) => ImplementationText(e.value, indent));
      SectionThrowsStep(entries, i);
      r := WriteImplementation(u, u.implementation[i].value);
      if r.Fail? {
        return;
      }
      i := i + 1;
    }
    assert entries[..i] == entries;
    r := Pass;
  }

  /** Whether a prefix of the section throws, one entry further. */
  lemma SectionThrowsStep(entries: seq<Entry<ImplementationDeclaration>>, i: nat)
    requires i < |entries|
    ensures SectionThrows(entries[..i + 1]) <==> SectionThrows(entries[..i]) || BodyThrows(entries[i].value.body)
    ensures SectionThrows(entries[..i + 1]) ==> SectionThrows(entries)
  {
    var p := entries[..i + 1];
    if SectionThrows(p) {
      var k :| 0 <= k < |p| && BodyThrows(p[k].value.body);
      assert p[k] == entries[k];
      if k < i {
        assert entries[..i][k] == p[k];
      }
    }
    if SectionThrows(entries[..i]) {
      var k :| 0 <= k < i && BodyThrows(entries[..i][k].value.body);
      assert p[k] == entries[..i][k];
    }
    if BodyThrows(entries[i].value.body) {
      assert p[i] == entries[i];
    }
  }

  // ---------------------------------------------------------------------------
  // Properties of the implementation section

  /** The section is the concatenation of the entries' texts in registration order. */
  lemma ImplementationsTextAppend(a: seq<Entry<ImplementationDeclaration>>,
                                  b: seq<Entry<ImplementationDeclaration>>, indent: nat)
    ensures ImplementationsText(a + b, indent) == ImplementationsText(a, indent) + ImplementationsText(b, indent)
  {
    FlattenAppend(a, b, (e: Entry<ImplementationDeclaration>) => ImplementationText(e.value, indent));
  }

  /** The statements that produce output: expression statements holding a binary expression. */
  predicate IsAssignment(st: Statement)
  {
    st.ExprStmt? && st.expr.Binary?
  }

  function Assignments(sts: seq<Statement>): seq<Statement>
  {
    if sts == [] then []
    else Assignments(sts[..|sts| - 1]) + (if IsAssignment(sts[|sts| - 1]) then [sts[|sts| - 1]] else [])
  }

  /** Variable statements, other statement kinds (with everything nested in them) and
      non-binary expressions print nothing: the statements' text is that of their
      binary-expression statements alone, in source order. */
  lemma {:induction false} OnlyAssignmentsPrinted(sts: seq<Statement>, indent: nat)
    ensures StatementsText(sts, indent) == StatementsText(Assignments(sts), indent)
  {
    if sts != [] {
      var init := sts[..|sts| - 1];
      var last := sts[|sts| - 1];
      var f := (st: Statement) => StatementText(st, indent);
      OnlyAssignmentsPrinted(init, indent);
      assert sts == init + [last];
      FlattenAppend(init, [last], f);
      FlattenAppend(Assignments(init), if IsAssignment(last) then [last] else [], f);
      assert Flatten([last], f) == f(last) by { assert [last][..0] == []; }
      if !IsAssignment(last) {
        assert StatementText(last, indent) == "";
        assert Flatten([], f) == "";
      }
    }
  }

  /** A variable is listed in the `var` block exactly when a top-level variable
      statement of the body declares it. */
  lemma {:induction false} VarDeclarationsMembers(body: seq<Statement>, v: VarDecl)
    ensures v in VarDeclarations(body) <==>
            exists i :: 0 <= i < |body| && body[i].VarStmt? && v in body[i].decls
  {
    if body != [] {
      var init := body[..|body| - 1];
      VarDeclarationsMembers(init, v);
      if exists i :: 0 <= i < |init| && init[i].VarStmt? && v in init[i].decls {
        var i :| 0 <= i < |init| && init[i].VarStmt? && v in init[i].decls;
        assert body[i] == init[i];
      }
      if exists i :: 0 <= i < |body| && body[i].VarStmt? && v in body[i].decls {
        var i :| 0 <= i < |body| && body[i].VarStmt? && v in body[i].decls;
        if i < |init| { assert init[i] == body[i]; }
      }
    }
  }

  /** The `var` block is written exactly when the body declares a variable. */
  lemma VarBlockPresent(vs: seq<VarDecl>, indent: nat)
    ensures VarBlock(vs, indent) != "" <==> vs != []
  {
    if vs != [] {
      assert |Line(indent, "var")| > 0;
    }
  }

  /** The two assignment paths write the same text exactly at indentation zero; at any
      deeper level the property-access path leaves the indentation before the newline. */
  lemma AssignmentPathsAgreeOnlyAtZero(receiver: string, member: string, name: string,
                                       op: string, right: string, indent: nat)
    requires name != "this"
    ensures ExpressionText(Binary(PropAccess(receiver, member), op, right), indent)
         == ExpressionText(Binary(Plain(member, Some(name)), op, right), indent)
        <==> indent == 0
  {
    var a := ExpressionText(Binary(PropAccess(receiver, member), op, right), indent);
    var b := ExpressionText(Binary(Plain(member, Some(name)), op, right), indent);
    assert |a| == |b| + indent;
    if indent == 0 {
      assert Tabs(0) == "";
      assert a == member + AssignmentTail(op, right) + "\n";
      assert b == member + AssignmentTail(op, right) + "\n";
    }
  }

  /** A left side that is not a property access but answers `getName()` with `this`
      takes the member-name path and prints exactly like an access to a member `this`. */
  lemma ThisNamedTargetLikeMember(text: string, receiver: string, op: string, right: string, indent: nat)
    ensures !ExpressionThrows(Binary(Plain(text, Some("this")), op, right))
    ensures ExpressionText(Binary(Plain(text, Some("this")), op, right), indent)
         == ExpressionText(Binary(PropAccess(receiver, "this"), op, right), indent)
  {
  }

  /** A left side without `getName` throws, whatever the rest of the assignment, and a
      body holding such an assignment throws wherever it stands. */
  lemma NamelessTargetThrows(text: string, op: string, right: string, before: seq<Statement>, after: seq<Statement>)
    ensures ExpressionThrows(Binary(Plain(text, None), op, right))
    ensures BodyThrows(before + [ExprStmt(Binary(Plain(text, None), op, right))] + after)
  {
    var body := before + [ExprStmt(Binary(Plain(text, None), op, right))] + after;
    assert StatementThrows(body[|before|]);
  }

  /** The receiver of a property-access target never reaches the output. */
  lemma ReceiverDropped(r1: string, r2: string, member: string, op: string, right: string, indent: nat)
    ensures ExpressionText(Binary(PropAccess(r1, member), op, right), indent)
         == ExpressionText(Binary(PropAccess(r2, member), op, right), indent)
  {
  }

  /** The argument and variable records of an entry are never printed: the text depends
      only on kind, name, return type and body. */
  lemma ArgsAndVarsNotPrinted(impl: ImplementationDeclaration, args: Option<map<string, string>>,
                              vars: Option<map<string, string>>, indent: nat)
    ensures ImplementationText(impl.(args := args, vars := vars), indent) == ImplementationText(impl, indent)
  {
  }
}
