/** The whole output of a unit: `writeContents`, which lays out the unit header, the
    interface with its `uses` clause and optional `type` block, and the optional
    implementation section. */
module UnitOutput {
  import opened Common
  import opened Text
  import opened UnitModel
  import opened UnitWriter
  import TypeParser
  import ImplementationParser

  /** Header, blank line, `interface`, and the `uses` clause one and two levels deeper.
      The clause is written with `writeIdentated` followed by `writeLine()`, so the
      indentation appears again before its newline. */
  function HeaderText(m: Model, indent: nat): string
  {
    Line(indent, UnitTypeText(m.unit.kind) + " " + m.unit.name + ";")
    + Line(indent, "")
    + Line(indent, "interface")
    + Line(indent + 1, "uses")
    + Tabs(indent + 2) + (Join(m.uses, ", ") + ";")
    + Line(indent + 2, "")
    + Line(indent + 1, "")
  }

  /** The `type` block, present only when some type is registered. */
  function TypeBlock(m: Model, indent: nat): string
  {
    if m.types == [] then ""
    else Line(indent + 1, "type") + TypeParser.TypesText(m.types, indent + 2) + Line(indent + 2, "")
  }

  /** The implementation section, present only when some implementation is registered. */
  function ImplementationBlock(m: Model, indent: nat): string
  {
    if m.implementation == [] then ""
    else Line(indent, "implementation") + ImplementationParser.ImplementationsText(m.implementation, indent + 1)
  }

  function ContentsText(m: Model, indent: nat): string
  {
    HeaderText(m, indent) + TypeBlock(m, indent) + ImplementationBlock(m, indent)
  }

  /** Writing the contents throws exactly when writing some implementation does; the
      header and the `type` block never throw. */
  predicate ContentsThrow(m: Model)
  {
    ImplementationParser.SectionThrows(m.implementation)
  }

  /** What `writeContents` gives for a writer in state `m` holding `content`. */
  function ContentsOf(m: Model, content: string, indent: nat): Translation
  {
    if ContentsThrow(m) then Failed(ImplementationParser.GetNameError)
    else Translated(content + ContentsText(m, indent))
  }

  /** The first part of `writeContents`, up to the end of the `uses` clause. */
  method WriteHeader(u: UnitWriter)
    modifies u
    ensures u.content == old(u.content) + HeaderText(old(u.State()), old(u.currentIdentation))
    ensures u.currentIdentation == old(u.currentIdentation) + 1 && u.State() == old(u.State())
  {
    ghost var c := old(u.content);
    ghost var indent := u.currentIdentation;
    ghost var m := u.State();
    ghost var p1 := Line(indent, UnitTypeText(m.unit.kind) + " " + m.unit.name + ";");
    ghost var p2 := Line(indent, "");
    ghost var p3 := Line(indent, "interface");
    ghost var p4 := Line(indent + 1, "uses");
    ghost var p5 := Tabs(indent + 2);
    ghost var p6 := Join(m.uses, ", ") + ";";
    ghost var p7 := Line(indent + 2, "");
    ghost var p8 := Line(indent + 1, "");
    u.WriteLine(UnitTypeText(u.unit.kind) + " " + u.unit.name + ";");
    u.WriteLine();
    Assoc(c, p1, p2);
    u.WriteLine("interface");
    Assoc(c, p1 + p2, p3);
    u.AdjustIdentation();
    u.WriteLine("uses");
    Assoc(c, p1 + p2 + p3, p4);
    u.AdjustIdentation();
    ConcatOne(Join(u.uses, ", ") + ";");
    u.WriteIdentated([Join(u.uses, ", ") + ";"]);
    Assoc(c, p1 + p2 + p3 + p4, p5);
    Assoc(c, p1 + p2 + p3 + p4 + p5, p6);
    u.WriteLine();
    Assoc(c, p1 + p2 + p3 + p4 + p5 + p6, p7);
    u.AdjustIdentation(-1);
    u.WriteLine();
    Assoc(c, p1 + p2 + p3 + p4 + p5 + p6 + p7, p8);
  }

  /** The `type` block of `writeContents`, written while inside the interface. */
  method WriteTypeBlock(u: UnitWriter)
    requires u.currentIdentation > 0
    modifies u
    ensures u.content == old(u.content) + TypeBlock(old(u.State()), old(u.currentIdentation) - 1)
    ensures u.currentIdentation == old(u.currentIdentation) && u.State() == old(u.State())
  {
    ghost var indent := u.currentIdentation - 1;
    ghost var m := u.State();
    if u.HasTypeDeclarations() {
      u.WriteLine("type");
      u.AdjustIdentation();
      TypeParser.Parse(u);
      u.WriteLine();
      u.AdjustIdentation(-1);
      Assoc(old(u.content), Line(indent + 1, "type"), TypeParser.TypesText(m.types, indent + 2));
      Assoc(old(u.content), Line(indent + 1, "type") + TypeParser.TypesText(m.types, indent + 2),
            Line(indent + 2, ""));
    }
  }

  /** The implementation section of `writeContents`, written at the unit's own level. */
  method WriteImplementationBlock(u: UnitWriter) returns (r: Outcome)
    modifies u
    ensures r == if ContentsThrow(old(u.State())) then Fail(ImplementationParser.GetNameError) else Pass
    ensures r.Pass? ==> u.content == old(u.content) + ImplementationBlock(old(u.State()), old(u.currentIdentation))
    ensures r.Pass? ==> u.currentIdentation == old(u.currentIdentation)
    ensures u.State() == old(u.State())
  {
    ghost var indent := u.currentIdentation;
    ghost var m := u.State();
    r := Pass;
    if u.HasImplementationDeclarations() {
      u.WriteLine("implementation");
      u.AdjustIdentation();
      r := ImplementationParser.Parse(u);
      if r.Fail? {
        return;
      }
      u.AdjustIdentation(-1);
      Assoc(old(u.content), Line(indent, "implementation"),
            ImplementationParser.ImplementationsText(m.implementation, indent + 1));
    }
  }

  /** `writeContents`: the text of the whole buffer, or the error an implementation threw. */
  method WriteContents(u: UnitWriter) returns (t: Translation)
    modifies u
    ensures t == ContentsOf(old(u.State()), old(u.content), old(u.currentIdentation))
    ensures t.Translated? ==> u.content == t.text && u.currentIdentation == old(u.currentIdentation)
    ensures u.State() == old(u.State())
  {
    ghost var indent := u.currentIdentation;
    ghost var m := u.State();
    WriteHeader(u);
    ghost var afterHeader := u.content;
    WriteTypeBlock(u);
    ghost var afterTypes := u.content;
    u.AdjustIdentation(-1);
    var r := WriteImplementationBlock(u);
    if r.Fail? {
      return Failed(r.error);
    }
    Assoc(old(u.content), HeaderText(m, indent), TypeBlock(m, indent));
    Assoc(old(u.content), HeaderText(m, indent) + TypeBlock(m, indent), ImplementationBlock(m, indent));
    t := Translated(u.content);
  }

  // ---------------------------------------------------------------------------
  // Properties of the layout

  /** Written into an empty buffer at indentation zero, the output begins with the unit
      line, a blank line, `interface`, and the `uses` clause, followed by a line holding
      two tabs and one holding one tab. */
  lemma HeaderAtZero(m: Model)
    ensures HeaderText(m, 0) ==
      (UnitTypeText(m.unit.kind) + " " + m.unit.name + ";") + "\n" + "\n" + "interface\n" + "\tuses\n"
      + "\t\t" + (Join(m.uses, ", ") + ";") + "\t\t\n" + "\t\n"
  {
    var head := UnitTypeText(m.unit.kind) + " " + m.unit.name + ";";
    LineAt(0, head, "", head + "\n");
    LineAt(0, "", "", "\n");
    LineAt(0, "interface", "", "interface\n");
    LineAt(1, "uses", "\t", "\tuses\n");
    LineAt(2, "", "\t\t", "\t\t\n");
    LineAt(1, "", "\t", "\t\n");
    assert Tabs(2) == "\t\t";
  }

  /** A line at a small, known indentation. */
  lemma LineAt(indent: nat, s: string, tabs: string, r: string)
    requires indent <= 2 && tabs == seq(indent, _ => '\t') && r == tabs + s + "\n"
    ensures Line(indent, s) == r
  {
    assert Tabs(indent) == tabs;
  }

  /** The `type` block is written exactly when a type is registered, and then it opens
      with the `type` line one level in. */
  lemma TypeBlockPresent(m: Model, indent: nat)
    ensures TypeBlock(m, indent) != "" <==> m.types != []
    ensures m.types != [] ==> StartsWith(TypeBlock(m, indent), Line(indent + 1, "type"))
  {
    if m.types != [] {
      var l := Line(indent + 1, "type");
      var rest := TypeParser.TypesText(m.types, indent + 2) + Line(indent + 2, "");
      Assoc(l, TypeParser.TypesText(m.types, indent + 2), Line(indent + 2, ""));
      assert TypeBlock(m, indent) == l + rest;
      assert (l + rest)[..|l|] == l;
    }
  }

  /** The implementation section is written exactly when an implementation is
      registered, and then it opens with `implementation` at the unit's own level. */
  lemma ImplementationBlockPresent(m: Model, indent: nat)
    ensures ImplementationBlock(m, indent) != "" <==> m.implementation != []
    ensures m.implementation != [] ==> StartsWith(ImplementationBlock(m, indent), Line(indent, "implementation"))
  {
    if m.implementation != [] {
      var l := Line(indent, "implementation");
      var rest := ImplementationParser.ImplementationsText(m.implementation, indent + 1);
      assert (l + rest)[..|l|] == l;
    }
  }

  /** The program body recorded by the function stage is never printed. */
  lemma BodyNotPrinted(m: Model, body: Option<seq<Ast.Statement>>, indent: nat)
    ensures ContentsText(m.(unit := m.unit.(body := body)), indent) == ContentsText(m, indent)
  {
  }
}
