/** The translation of one file: the writer is created for the unit, the three stages
    run in their fixed order (imports, functions, classes), and, when none of them threw,
    the writer's contents are the translated text. */
module Pipeline {
  import opened Common
  import opened Ast
  import opened Types
  import opened Text
  import opened UnitModel
  import opened UnitWriter
  import ImportLexer
  import FunctionLexer
  import ClassLexer
  import UnitOutput
  import ImplementationParser

  /** The registry effect of `parse()`: a stage that throws ends it. */
  function ParseSpec(m: Model, file: SourceFile, relative: string -> string): Staged
  {
    var imported := ImportLexer.LexImports(m, file.imports, relative);
    if imported.outcome.Fail? then imported
    else ClassLexer.LexClasses(FunctionLexer.LexFunctions(imported.model, file.functions), file.classes)
  }

  /** `UnitWriter.parse()` */
  method Parse(u: UnitWriter, file: SourceFile, relative: string -> string) returns (r: Outcome)
    modifies u
    ensures Staged(u.State(), r) == ParseSpec(old(u.State()), file, relative)
    ensures u.content == old(u.content) && u.currentIdentation == old(u.currentIdentation)
  {
    r := ImportLexer.Lex(u, file.imports, relative);
    if r.Fail? {
      return;
    }
    FunctionLexer.Lex(u, file.functions);
    r := ClassLexer.Lex(u, file.classes);
  }

  /** What translating a file gives: the error a stage threw, or else what writing out
      the registries the stages filled gives, starting from an empty writer. */
  function TranslationOf(kind: UnitType, name: string, file: SourceFile, relative: string -> string): Translation
  {
    var s := ParseSpec(Empty(kind, name), file, relative);
    if s.outcome.Fail? then Failed(s.outcome.error) else UnitOutput.ContentsOf(s.model, "", 0)
  }

  /** One file through the writer: create it, set the unit type, parse, and take the
      contents. */
  method Transpile(kind: UnitType, name: string, file: SourceFile, relative: string -> string) returns (t: Translation)
    ensures t == TranslationOf(kind, name, file, relative)
  {
    var u := new UnitWriter(kind, name);
    var r := Parse(u, file, relative);
    if r.Fail? {
      return Failed(r.error);
    }
    t := UnitOutput.WriteContents(u);
  }

  // ---------------------------------------------------------------------------
  // Properties of the pipeline

  /** The stages keep the registries consistent. */
  lemma ParseKeepsValid(m: Model, file: SourceFile, relative: string -> string)
    requires m.Valid()
    ensures ParseSpec(m, file, relative).model.Valid()
  {
    ImportLexer.ImportsKeepValid(m, file.imports, relative);
    var imported := ImportLexer.LexImports(m, file.imports, relative);
    if imported.outcome.Pass? {
      FunctionLexer.FunctionsKeep(imported.model, file.functions, "");
      ClassLexer.ClassesKeepValid(FunctionLexer.LexFunctions(imported.model, file.functions), file.classes);
    }
  }

  /** Only the import stage writes `uses`: the clause is exactly what the imports made
      of it, whatever the functions and classes are. */
  lemma UsesOnlyFromImports(m: Model, file: SourceFile, relative: string -> string)
    requires m.Valid()
    ensures ParseSpec(m, file, relative).model.uses == ImportLexer.LexImports(m, file.imports, relative).model.uses
  {
    ImportLexer.ImportsKeepValid(m, file.imports, relative);
    var imported := ImportLexer.LexImports(m, file.imports, relative);
    if imported.outcome.Pass? {
      FunctionLexer.FunctionsKeep(imported.model, file.functions, "");
      ClassLexer.ClassesKeepValid(FunctionLexer.LexFunctions(imported.model, file.functions), file.classes);
    }
  }

  /** A rejected import ends the translation before any function or class is looked at:
      no type and no implementation is registered and no text is produced. */
  lemma ImportFailureStopsParse(kind: UnitType, name: string, file: SourceFile, relative: string -> string)
    requires ImportLexer.LexImports(Empty(kind, name), file.imports, relative).outcome.Fail?
    ensures var s := ParseSpec(Empty(kind, name), file, relative);
      s.outcome.Fail? && s.model.types == [] && s.model.implementation == []
    ensures TranslationOf(kind, name, file, relative).Failed?
  {
    ImportLexer.ImportsOnlyExtendUses(Empty(kind, name), file.imports, relative);
  }

  /** `TestThread = class (TThread)` */
  function SampleClass(): ClassDecl
  {
    ClassDecl("TestThread", Some("TThread"),
              [Property("sleepTime", "number", Some("1000")),
               Property("sleepMessage", "string", Some("\"Testing!\""))],
              ["execute"], [])
  }

  /** The sample unit: one system import and one class with two initialised fields. */
  function SampleUnit(): SourceFile
  {
    SourceFile(["@delphi/system/classes"], [], [SampleClass()])
  }

  lemma TestThreadNormalized()
    ensures Normalize("TestThread") == "TestThread"
  {
    var s := "TestThread";
    NormalizeAt(s);
    forall i | 0 <= i < |s|
      ensures Normalize(s)[i] == s[i]
    {
      if i > 0 { assert IsWordChar(s[i - 1]); }
    }
  }

  /** The model after the sample's import stage. */
  function SampleImported(): Model
  {
    Empty(Unit, "Unit").(uses := ["System.Classes"])
  }

  /** The expected constructor of the sample class. */
  function SampleConstructor(): ImplementationDeclaration
  {
    ImplementationDeclaration(ConstructorImpl, "TestThread", Some(map[]), None, Some(map[]),
      [ClassLexer.InitStatement("sleepTime", "1000"),
       ClassLexer.InitStatement("sleepMessage", "\"Testing!\"")])
  }

  /** The sample's imports add `System.Classes` and nothing else; it has no functions;
      its one class passes. */
  lemma SampleStages(relative: string -> string)
    ensures ParseSpec(Empty(Unit, "Unit"), SampleUnit(), relative) == ClassLexer.ClassStep(SampleImported(), SampleClass())
  {
    var m1 := SampleImported();
    ImportLexer.SystemClassesImport(Empty(Unit, "Unit"), relative);
    assert FunctionLexer.LexFunctions(m1, []) == m1;
    var s := ClassLexer.ClassStep(m1, SampleClass());
    assert [SampleClass()][1..] == [];
    assert ClassLexer.LexClasses(s.model, []) == s;
  }

  /** Parsing the sample's members builds exactly one implementation entry, its
      constructor, with both assignments. */
  lemma SampleMembers()
    ensures var built := ClassLexer.MembersParsed(SampleImported(), "TestThread", SampleClass().properties);
      && built.types == [] && built.uses == ["System.Classes"]
      && built.implementation == [Entry("constructor TestThread", SampleConstructor())]
  {
    var m1 := SampleImported();
    var ps := SampleClass().properties;
    var key := ImplKey(ConstructorImpl, "TestThread");
    assert key == "constructor TestThread";
    var st1 := ClassLexer.InitStatement("sleepTime", "1000");
    var st2 := ClassLexer.InitStatement("sleepMessage", "\"Testing!\"");
    var e := NewImplementation(ConstructorImpl, "TestThread", [], None, []);
    assert e == ImplementationDeclaration(ConstructorImpl, "TestThread", Some(map[]), None, Some(map[]), []);
    var c0 := AddImplementation(m1, ConstructorImpl, "TestThread", [], None, []);
    assert c0.implementation == [Entry(key, e)];
    var e1 := e.(body := e.body + [st1]);
    assert AppendToBody(c0.implementation, key, st1) == [Entry(key, e1)] + AppendToBody([], key, st1);
    var s1 := ClassLexer.MemberStep(m1, "TestThread", ps[0]);
    assert s1.implementation == [Entry(key, e1)];
    var c1 := AddImplementation(s1, ConstructorImpl, "TestThread", [], None, []);
    assert Keys(s1.implementation) == [key];
    assert c1 == s1;
    var e2 := e1.(body := e1.body + [st2]);
    assert AppendToBody(s1.implementation, key, st2) == [Entry(key, e2)] + AppendToBody([], key, st2);
    var s2 := ClassLexer.MemberStep(s1, "TestThread", ps[1]);
    assert s2.implementation == [Entry(key, e2)];
    assert e2 == SampleConstructor();
    assert ps[1..][1..] == [];
    assert ClassLexer.MembersParsed(m1, "TestThread", ps) == s2;
  }

  /** The registries of the sample unit: `System.Classes` in `uses`, one class entry
      keyed by the class name and its parent, and one constructor holding the two
      initialiser assignments in declaration order. */
  lemma SampleUnitRegistries(relative: string -> string)
    ensures var s := ParseSpec(Empty(Unit, "Unit"), SampleUnit(), relative);
      && s.outcome == Pass
      && s.model.uses == ["System.Classes"]
      && Keys(s.model.types) == ["TestThread" + "TThread"]
      && s.model.implementation == [Entry("constructor TestThread", SampleConstructor())]
  {
    SampleStages(relative);
    SampleMembers();
    var c := SampleClass();
    var built := ClassLexer.MembersParsed(SampleImported(), "TestThread", c.properties);
    TestThreadNormalized();
    var d := Normalized(ClassLexer.ClassType(c));
    assert d.Class? && d.name == "TestThread" && d.parent == Some("TThread");
    assert TypeKey(d) == "TestThread" + "TThread";
    KeysAppend(built.types, Entry(TypeKey(d), d));
  }

  /** The sample unit is written out without throwing: its constructor assigns only to
      property accesses. */
  lemma SampleTranslates(relative: string -> string)
    ensures TranslationOf(Unit, "Unit", SampleUnit(), relative).Translated?
  {
    SampleUnitRegistries(relative);
    SampleSectionQuiet();
    var s := ParseSpec(Empty(Unit, "Unit"), SampleUnit(), relative);
    assert !UnitOutput.ContentsThrow(s.model);
  }

  lemma SampleSectionQuiet()
    ensures !ImplementationParser.SectionThrows([Entry("constructor TestThread", SampleConstructor())])
  {
    var body := SampleConstructor().body;
    forall i | 0 <= i < |body| ensures !ImplementationParser.StatementThrows(body[i]) {
      assert body[i].expr.left.PropAccess?;
    }
  }

  /** A unit with one function `f` whose body is the assignment `x = 1` to a target that
      has no `getName` method. */
  function NamelessTargetUnit(): SourceFile
  {
    SourceFile([], [FunctionDecl(Some("f"), false, false, [], "void", [ExprStmt(Binary(Plain("x", None), "=", "1"))])], [])
  }

  /** Every stage of that unit passes and registers `function f`, and writing the unit out
      then throws the `getName` error. */
  lemma NamelessTargetFails(relative: string -> string)
    ensures ParseSpec(Empty(Unit, "Unit"), NamelessTargetUnit(), relative).outcome == Pass
    ensures TranslationOf(Unit, "Unit", NamelessTargetUnit(), relative) == Failed(ImplementationParser.GetNameError)
  {
    var file := NamelessTargetUnit();
    var m := Empty(Unit, "Unit");
    var fn := file.functions[0];
    assert ImportLexer.LexImports(m, [], relative) == Staged(m, Pass);
    var e := NewImplementation(FunctionImpl, "f", [], Some("void"), fn.body);
    var m1 := m.(implementation := [Entry(ImplKey(FunctionImpl, "f"), e)]);
    assert FunctionLexer.FunctionStep(m, fn) == m1;
    assert file.functions[1..] == [];
    assert FunctionLexer.LexFunctions(m, file.functions) == m1;
    assert ClassLexer.LexClasses(m1, []) == Staged(m1, Pass);
    assert ImplementationParser.StatementThrows(e.body[0]);
    assert ImplementationParser.BodyThrows(m1.implementation[0].value.body);
  }
}
