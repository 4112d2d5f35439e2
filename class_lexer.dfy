/** The class stage: every class of the file becomes a `class` type entry carrying its
    member record, and every initialised property adds an assignment to the class's
    constructor implementation, which is created on first use. */
module ClassLexer {
  import opened Common
  import opened Ast
  import opened Types
  import opened UnitModel
  import opened UnitWriter
  import Text

  /** What the runtime throws when a class without `extends` asks for its parent's text. */
  const MissingParentError: Error := TypeError("Cannot read properties of undefined (reading 'getText')")

  /** The member record: property name to declared type text; a later property of the
      same name overwrites an earlier one. */
  function ClassMembers(ps: seq<Property>): map<string, string>
  {
    if ps == [] then map[]
    else ClassMembers(ps[..|ps| - 1])[ps[|ps| - 1].name := ps[|ps| - 1].typeText]
  }

  /** The statement `this.<name>=<init>;` as the front-end parses it. */
  function InitStatement(name: string, init: string): Statement
  {
    ExprStmt(Binary(PropAccess("this", name), "=", init))
  }

  /** The statements a class's properties add to its constructor, in declaration order. */
  function Initializers(ps: seq<Property>): seq<Statement>
  {
    if ps == [] then []
    else
      (match ps[0].initializer
       case None => []
       case Some(init) => [InitStatement(ps[0].name, init)])
      + Initializers(ps[1..])
  }

  /** The constructor entry of a class, as registered or as it would be created. */
  function ConstructorBase(m: Model, className: string): ImplementationDeclaration
  {
    match Get(m.implementation, ImplKey(ConstructorImpl, className))
    case Some(v) => v
    case None => NewImplementation(ConstructorImpl, className, [], None, [])
  }

  /** One property: an initialised one gets or creates the constructor of the class and
      appends its assignment to it. */
  function MemberStep(m: Model, className: string, p: Property): Model
  {
    match p.initializer
    case None => m
    case Some(init) =>
      var created := AddImplementation(m, ConstructorImpl, className, [], None, []);
      AppendStatement(created, ImplKey(ConstructorImpl, className), InitStatement(p.name, init))
  }

  /** The registry effect of `parseMembers`: the properties in order. */
  function MembersParsed(m: Model, className: string, ps: seq<Property>): Model
    decreases |ps|
  {
    if ps == [] then m else MembersParsed(MemberStep(m, className, ps[0]), className, ps[1..])
  }

  /** The type entry of a class with a parent. */
  function ClassType(c: ClassDecl): (d: Declaration)
    ensures d.Class? && d.name == c.name && d.parent == c.parent
    ensures d.members == Some(ClassMembers(c.properties))
  {
    Class(c.name, None, None, c.parent, Some(ClassMembers(c.properties)))
  }

  /** One class. The parent's text is read before the members are parsed, so a class
      without `extends` throws before anything of it is registered. */
  function ClassStep(m: Model, c: ClassDecl): Staged
  {
    if c.parent.None? then Staged(m, Fail(MissingParentError))
    else Staged(AddType(MembersParsed(m, c.name, c.properties), ClassType(c)), Pass)
  }

  /** The whole stage: the classes in order, stopping at the first one that throws. */
  function LexClasses(m: Model, cs: seq<ClassDecl>): Staged
    decreases |cs|
  {
    if cs == [] then Staged(m, Pass)
    else
      var s := ClassStep(m, cs[0]);
      if s.outcome.Fail? then s else LexClasses(s.model, cs[1..])
  }

  /** `ClassLexer.parseMembers(clazz, members)` */
  method ParseMembers(u: UnitWriter, className: string, ps: seq<Property>) returns (data: map<string, string>)
    modifies u
    ensures data == ClassMembers(ps)
    ensures u.State() == MembersParsed(old(u.State()), className, ps)
    ensures u.content == old(u.content) && u.currentIdentation == old(u.currentIdentation)
  {
    data := map[];
    var i := 0;
    while i < |ps|
      invariant 0 <= i <= |ps|
      invariant data == ClassMembers(ps[..i])
      invariant MembersParsed(u.State(), className, ps[i..]) == MembersParsed(old(u.State()), className, ps)
      invariant u.content == old(u.content) && u.currentIdentation == old(u.currentIdentation)
    {
      assert ps[..i + 1][..i] == ps[..i];
      assert ps[i..][1..] == ps[i + 1..];
      var member := ps[i];
      data := data[member.name := member.typeText];
      if member.initializer.Some? {
        var _ := u.AddImplementation(ConstructorImpl, className, [], None, []);
        u.AppendToBody(ImplKey(ConstructorImpl, className), InitStatement(member.name, member.initializer.value));
      }
      i := i + 1;
    }
    assert ps[..i] == ps;
  }

  /** `ClassLexer.lex()` */
  method Lex(u: UnitWriter, cs: seq<ClassDecl>) returns (r: Outcome)
    modifies u
    ensures Staged(u.State(), r) == LexClasses(old(u.State()), cs)
    ensures u.content == old(u.content) && u.currentIdentation == old(u.currentIdentation)
  {
    var i := 0;
    while i < |cs|
      invariant 0 <= i <= |cs|
      invariant LexClasses(u.State(), cs[i..]) == LexClasses(old(u.State()), cs)
      invariant u.content == old(u.content) && u.currentIdentation == old(u.currentIdentation)
    {
      assert cs[i..][1..] == cs[i + 1..];
      var clazz := cs[i];
      if clazz.parent.None? {
        return Fail(MissingParentError);
      }
      var members := ParseMembers(u, clazz.name, clazz.properties);
      u.AddType(Class(clazz.name, None, None, clazz.parent, Some(members)));
      i := i + 1;
    }
    r := Pass;
  }

  // ---------------------------------------------------------------------------
  // Properties of the class stage

  /** The member record has one key per distinct property name, holding the type of the
      last property of that name. */
  lemma {:induction false} ClassMembersSpec(ps: seq<Property>)
    ensures ClassMembers(ps).Keys == set p | p in ps :: p.name
    ensures forall i :: 0 <= i < |ps| && (forall j :: i < j < |ps| ==> ps[j].name != ps[i].name)
                        ==> ClassMembers(ps)[ps[i].name] == ps[i].typeText
  {
    if ps != [] {
      var init := ps[..|ps| - 1];
      ClassMembersSpec(init);
      assert forall p :: p in ps <==> p in init || p == ps[|ps| - 1];
      forall i | 0 <= i < |ps| - 1 && (forall j :: i < j < |ps| ==> ps[j].name != ps[i].name)
        ensures ClassMembers(ps)[ps[i].name] == ps[i].typeText
      {
        assert init[i] == ps[i];
        assert forall j :: i < j < |init| ==> init[j].name != init[i].name by {
          forall j | i < j < |init| ensures init[j].name != init[i].name { assert init[j] == ps[j]; }
        }
      }
    }
  }

  /** One property changes only the constructor entry of its class: an initialised one
      leaves it holding the registered or newly created entry with the assignment at the
      end of its body. */
  lemma MemberStepSpec(m: Model, className: string, p: Property, k: string)
    requires m.Valid()
    ensures var r := MemberStep(m, className, p);
      var key := ImplKey(ConstructorImpl, className);
      && r.Valid()
      && r.(implementation := m.implementation) == m
      && (k != key ==> Get(r.implementation, k) == Get(m.implementation, k))
      && (p.initializer.None? ==> r == m)
      && (p.initializer.Some? ==>
            Get(r.implementation, key) == Some(ConstructorBase(m, className).(
              body := ConstructorBase(m, className).body + [InitStatement(p.name, p.initializer.value)])))
  {
    if p.initializer.Some? {
      var key := ImplKey(ConstructorImpl, className);
      var st := InitStatement(p.name, p.initializer.value);
      var created := AddImplementation(m, ConstructorImpl, className, [], None, []);
      AddImplementationGetOrCreate(m, ConstructorImpl, className, [], None, [], k);
      AddImplementationGetOrCreate(m, ConstructorImpl, className, [], None, [], key);
      assert Get(created.implementation, key) == Some(ConstructorBase(m, className));
      AppendToBodySpec(created.implementation, key, st, k);
      AppendToBodySpec(created.implementation, key, st, key);
      AppendStatementValid(created, key, st);
      if k !in Keys(m.implementation) && k != key {
        assert k !in Keys(created.implementation) by {
          KeysAppend(m.implementation, Entry(key, NewImplementation(ConstructorImpl, className, [], None, [])));
        }
      }
    }
  }

  /** `parseMembers` changes nothing but the constructor entry of the class, and without
      initialised properties it changes nothing at all. */
  lemma {:induction false} MembersKeep(m: Model, className: string, ps: seq<Property>, k: string)
    requires m.Valid()
    ensures var r := MembersParsed(m, className, ps);
      && r.Valid()
      && r.(implementation := m.implementation) == m
      && (k != ImplKey(ConstructorImpl, className) ==> Get(r.implementation, k) == Get(m.implementation, k))
      && (Initializers(ps) == [] ==> r == m)
    decreases |ps|
  {
    if ps != [] {
      MemberStepSpec(m, className, ps[0], k);
      MembersKeep(MemberStep(m, className, ps[0]), className, ps[1..], k);
    }
  }

  /** `parseMembers` collects the assignments of all initialised properties, in order, at
      the end of the one constructor entry of the class, which it creates when the first
      initialised property is met. */
  lemma {:induction false} ConstructorCollects(m: Model, className: string, ps: seq<Property>)
    requires m.Valid()
    requires Initializers(ps) != []
    ensures var base := ConstructorBase(m, className);
      Get(MembersParsed(m, className, ps).implementation, ImplKey(ConstructorImpl, className))
      == Some(base.(body := base.body + Initializers(ps)))
    decreases |ps|
  {
    var key := ImplKey(ConstructorImpl, className);
    var base := ConstructorBase(m, className);
    if Get(m.implementation, key).Some? {
      CollectsInto(m, className, ps, base);
    } else {
      var s := MemberStep(m, className, ps[0]);
      assert MembersParsed(m, className, ps) == MembersParsed(s, className, ps[1..]);
      if ps[0].initializer.None? {
        assert s == m && Initializers(ps) == Initializers(ps[1..]);
        ConstructorCollects(s, className, ps[1..]);
      } else {
        var st := InitStatement(ps[0].name, ps[0].initializer.value);
        StepExtendsBase(m, className, ps[0]);
        SplitInitialised(ps);
        CollectsInto(s, className, ps[1..], base.(body := base.body + [st]));
        Text.Assoc(base.body, [st], Initializers(ps[1..]));
      }
    }
  }

  /** Once the constructor entry exists, `parseMembers` appends the assignments of the
      initialised properties to it, in order. */
  lemma {:induction false} CollectsInto(m: Model, className: string, ps: seq<Property>, base: ImplementationDeclaration)
    requires m.Valid()
    requires Get(m.implementation, ImplKey(ConstructorImpl, className)) == Some(base)
    ensures Get(MembersParsed(m, className, ps).implementation, ImplKey(ConstructorImpl, className))
         == Some(base.(body := base.body + Initializers(ps)))
    decreases |ps|
  {
    if ps == [] {
      assert base.body + [] == base.body;
    } else {
      var s := MemberStep(m, className, ps[0]);
      assert MembersParsed(m, className, ps) == MembersParsed(s, className, ps[1..]);
      if ps[0].initializer.None? {
        assert s == m && Initializers(ps) == Initializers(ps[1..]);
        CollectsInto(s, className, ps[1..], base);
      } else {
        var st := InitStatement(ps[0].name, ps[0].initializer.value);
        StepExtendsBase(m, className, ps[0]);
        assert ConstructorBase(m, className) == base;
        SplitInitialised(ps);
        CollectsInto(s, className, ps[1..], base.(body := base.body + [st]));
        Text.Assoc(base.body, [st], Initializers(ps[1..]));
      }
    }
  }

  lemma SplitInitialised(ps: seq<Property>)
    requires ps != [] && ps[0].initializer.Some?
    ensures Initializers(ps) == [InitStatement(ps[0].name, ps[0].initializer.value)] + Initializers(ps[1..])
  {
  }

  /** An initialised property extends the constructor entry of its class by one
      assignment and keeps the registries consistent. */
  lemma StepExtendsBase(m: Model, className: string, p: Property)
    requires m.Valid() && p.initializer.Some?
    ensures var s := MemberStep(m, className, p);
      var base := ConstructorBase(m, className);
      var b := base.(body := base.body + [InitStatement(p.name, p.initializer.value)]);
      && s.Valid()
      && Get(s.implementation, ImplKey(ConstructorImpl, className)) == Some(b)
      && ConstructorBase(s, className) == b
  {
    MemberStepSpec(m, className, p, ImplKey(ConstructorImpl, className));
  }

  /** A class without `extends` stops the stage before anything of it is registered:
      the classes before it stay, it and the ones after it are lost. */
  lemma ParentlessClassStops(m: Model, c: ClassDecl, rest: seq<ClassDecl>)
    requires c.parent.None?
    ensures LexClasses(m, [c] + rest) == Staged(m, Fail(MissingParentError))
  {
    assert ([c] + rest)[0] == c;
  }

  /** A class with a parent is registered under its normalised name followed by the
      parent's text, with its member record, once its constructor has been built. */
  lemma ClassRegistered(m: Model, c: ClassDecl)
    requires m.Valid() && c.parent.Some?
    ensures var s := ClassStep(m, c);
      var key := Text.Normalize(c.name) + c.parent.value;
      var built := MembersParsed(m, c.name, c.properties);
      && s.outcome == Pass
      && s.model.Valid()
      && key in Keys(s.model.types)
      && (key !in Keys(m.types) ==>
            Get(s.model.types, key) == Some(Class(Text.Normalize(c.name), None, None, c.parent, Some(ClassMembers(c.properties)))))
      && s.model.implementation == built.implementation
  {
    var built := MembersParsed(m, c.name, c.properties);
    MembersKeep(m, c.name, c.properties, "");
    var key := Text.Normalize(c.name) + c.parent.value;
    AddTypeFirstWins(built, ClassType(c), key);
    assert TypeKey(Normalized(ClassType(c))) == key;
  }

  /** Methods and static methods are read but never registered: a class's effect does
      not depend on them. */
  lemma MethodsIgnored(m: Model, c: ClassDecl, methods: seq<string>, staticMethods: seq<string>)
    ensures ClassStep(m, c) == ClassStep(m, ClassDecl(c.name, c.parent, c.properties, methods, staticMethods))
  {
  }

  /** The stage keeps the registries consistent and never touches `uses`. */
  lemma {:induction false} ClassesKeepValid(m: Model, cs: seq<ClassDecl>)
    requires m.Valid()
    ensures LexClasses(m, cs).model.Valid() && LexClasses(m, cs).model.uses == m.uses
    decreases |cs|
  {
    if cs != [] {
      var s := ClassStep(m, cs[0]);
      if cs[0].parent.Some? {
        ClassRegistered(m, cs[0]);
        MembersKeep(m, cs[0].name, cs[0].properties, "");
      }
      if s.outcome.Pass? {
        ClassesKeepValid(s.model, cs[1..]);
      }
    }
  }

  /** Two classes in a row: both steps pass when both have a parent. */
  lemma TwoClasses(m: Model, a: ClassDecl, b: ClassDecl)
    requires a.parent.Some? && b.parent.Some?
    ensures LexClasses(m, [a, b]) == ClassStep(ClassStep(m, a).model, b)
  {
    var s1 := ClassStep(m, a);
    var s2 := ClassStep(s1.model, b);
    assert [a, b][1..] == [b];
    assert [b][1..] == [];
    assert LexClasses(s2.model, []) == s2;
    assert LexClasses(s1.model, [b]) == s2;
  }

  /** The classes are handled one after the other: the stage on `a + b` is the stage on
      `a`, followed, when that passed, by the stage on `b` from where it left off. */
  lemma {:induction false} ClassesInOrder(m: Model, a: seq<ClassDecl>, b: seq<ClassDecl>)
    ensures var first := LexClasses(m, a);
      LexClasses(m, a + b) == if first.outcome.Fail? then first else LexClasses(first.model, b)
    decreases |a|
  {
    if a == [] {
      assert a + b == b;
    } else {
      assert (a + b)[0] == a[0] && (a + b)[1..] == a[1..] + b;
      var s := ClassStep(m, a[0]);
      if s.outcome.Pass? {
        ClassesInOrder(s.model, a[1..], b);
      }
    }
  }

  /** Two classes of the same name with different parents get two type entries. */
  lemma SameNameClassesTwoTypes(m: Model, a: ClassDecl, b: ClassDecl)
    requires m.Valid() && m.types == []
    requires a.name == b.name && a.parent.Some? && b.parent.Some? && a.parent != b.parent
    ensures LexClasses(m, [a, b]).outcome == Pass
    ensures |LexClasses(m, [a, b]).model.types| == 2
  {
    TwoClasses(m, a, b);
    var s1 := ClassStep(m, a);
    ClassRegistered(m, a);
    MembersKeep(m, a.name, a.properties, "");
    var n := Text.Normalize(a.name);
    var ka := n + a.parent.value;
    var kb := n + b.parent.value;
    assert ka != kb by {
      assert ka[|n|..] == a.parent.value && kb[|n|..] == b.parent.value;
    }
    var built1 := MembersParsed(m, a.name, a.properties);
    AddTypeFirstWins(built1, ClassType(a), ka);
    assert Keys(s1.model.types) == [ka];
    var built2 := MembersParsed(s1.model, b.name, b.properties);
    MembersKeep(s1.model, b.name, b.properties, "");
    AddTypeFirstWins(built2, ClassType(b), kb);
    assert TypeKey(Normalized(ClassType(b))) == kb;
  }

  /** Two classes of the same name share one constructor, which collects the
      initialisers of both, in order. */
  lemma SameNameClassesShareConstructor(m: Model, a: ClassDecl, b: ClassDecl)
    requires m.Valid() && m.implementation == []
    requires a.name == b.name && a.parent.Some? && b.parent.Some?
    requires Initializers(a.properties) + Initializers(b.properties) != []
    ensures Get(LexClasses(m, [a, b]).model.implementation, ImplKey(ConstructorImpl, a.name))
         == Some(NewImplementation(ConstructorImpl, a.name, [], None, Initializers(a.properties) + Initializers(b.properties)))
  {
    TwoClasses(m, a, b);
    var key := ImplKey(ConstructorImpl, a.name);
    var s1 := ClassStep(m, a);
    var s2 := ClassStep(s1.model, b);
    ClassRegistered(m, a);
    MembersKeep(m, a.name, a.properties, key);
    ClassRegistered(s1.model, b);
    var ia := Initializers(a.properties);
    var ib := Initializers(b.properties);
    var ctor := NewImplementation(ConstructorImpl, a.name, [], None, []);
    assert ConstructorBase(m, a.name) == ctor;
    var b1 := ConstructorBase(s1.model, b.name);
    if ia != [] {
      ConstructorCollects(m, a.name, a.properties);
      assert b1 == ctor.(body := ia);
    } else {
      assert s1.model.implementation == [];
      assert b1 == ctor;
      assert ctor.body + ia == ia;
    }
    assert b1 == ctor.(body := ia);
    MembersKeep(s1.model, b.name, b.properties, key);
    if ib != [] {
      ConstructorCollects(s1.model, b.name, b.properties);
    } else {
      assert ia + ib == ia;
    }
  }
}
