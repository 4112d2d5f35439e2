/** The import stage: every import declaration of the file becomes an entry of the
    `uses` clause. Imports of `@delphi/...` name a Delphi system unit; any other import
    is resolved to a relative `.pas` path, whose base name must not be a reserved word. */
module ImportLexer {
  import opened Common
  import opened Text
  import opened UnitModel
  import opened UnitWriter

  /** The module prefix that marks a Delphi system unit. */
  const SystemPrefix: string := "@delphi/"

  const PasExtension: string := ".pas"

  /** Words a unit may not be called, in the order the translator lists them. */
  const ReservedKeywords: seq<string> := ["unit", "for", "each", "except", "begin", "end", "types", "class"]

  /** The error thrown for an import whose unit name is reserved. */
  function ReservedKeywordError(name: string): (e: Error)
    ensures e.TranspilationError? && StartsWith(e.message, "`" + name + "`")
  {
    var e := TranspilationError("`" + name + "` is a reserved keyword.");
    assert e.message[..|"`" + name + "`"|] == "`" + name + "`";
    e
  }

  /** The test that sends an import down the system-unit path, with its extension
      clause as the translator writes it. */
  predicate IsSystemUnit(spec: string)
  {
    StartsWith(spec, SystemPrefix) && (!EndsWith(spec, ".ts") || !EndsWith(spec, ".pas"))
  }

  /** A system unit's name: the prefix removed, every `/` turned into `.`. */
  function SystemUnitName(spec: string): (r: string)
    requires StartsWith(spec, SystemPrefix)
    ensures |r| + |SystemPrefix| == |spec|
    ensures '/' !in r
  {
    var r := ReplaceChar(spec[|SystemPrefix|..], '/', '.');
    assert forall i :: 0 <= i < |r| ==> r[i] != '/';
    r
  }

  /** Index just past the last `/` of `s`, or 0 when there is none. */
  function LastSegmentStart(s: string): (i: nat)
    ensures i <= |s|
    ensures 0 < i ==> s[i - 1] == '/'
    ensures forall j :: i <= j < |s| ==> s[j] != '/'
  {
    if s == [] then 0
    else if s[|s| - 1] == '/' then |s|
    else
      var i := LastSegmentStart(s[..|s| - 1]);
      assert forall j :: i <= j < |s| - 1 ==> s[j] == s[..|s| - 1][j];
      i
  }

  /** `path.basename(resolved, ".pas")` for a POSIX path ending in `.pas`: the last
      segment without its extension; a segment that is nothing but the extension keeps
      it, and the bare extension as the whole path gives the empty name. */
  function Basename(resolved: string): (r: string)
    requires EndsWith(resolved, PasExtension)
    ensures '/' !in r
  {
    if resolved == PasExtension then ""
    else
      var seg := resolved[LastSegmentStart(resolved)..];
      assert forall j :: 0 <= j < |seg| ==> seg[j] != '/';
      if |seg| > |PasExtension| then seg[..|seg| - |PasExtension|] else seg
  }

  /** One import declaration, given by its module specifier; `relative` stands for the
      path arithmetic that makes the specifier relative to the input directory. */
  function ImportStep(m: Model, spec: string, relative: string -> string): Staged
  {
    if IsSystemUnit(spec) then Staged(AddUses(m, SystemUnitName(spec), None), Pass)
    else
      var resolved := relative(spec) + PasExtension;
      var name := Basename(resolved);
      if name in ReservedKeywords then Staged(m, Fail(ReservedKeywordError(name)))
      else Staged(AddUses(m, name, Some(resolved)), Pass)
  }

  /** The whole stage: the imports in order, stopping at the first one that throws. */
  function LexImports(m: Model, specs: seq<string>, relative: string -> string): Staged
    decreases |specs|
  {
    if specs == [] then Staged(m, Pass)
    else
      var s := ImportStep(m, specs[0], relative);
      if s.outcome.Fail? then s else LexImports(s.model, specs[1..], relative)
  }

  /** `ImportLexer.lex()` */
  method Lex(u: UnitWriter, imports: seq<string>, relative: string -> string) returns (r: Outcome)
    modifies u
    ensures Staged(u.State(), r) == LexImports(old(u.State()), imports, relative)
    ensures u.content == old(u.content) && u.currentIdentation == old(u.currentIdentation)
  {
    var i := 0;
    while i < |imports|
      invariant 0 <= i <= |imports|
      invariant LexImports(u.State(), imports[i..], relative) == LexImports(old(u.State()), imports, relative)
      invariant u.content == old(u.content) && u.currentIdentation == old(u.currentIdentation)
    {
      assert imports[i..][1..] == imports[i + 1..];
      var unitName := imports[i];
      if StartsWith(unitName, SystemPrefix) && (!EndsWith(unitName, ".ts") || !EndsWith(unitName, ".pas")) {
        u.AddUses(ReplaceChar(unitName[|SystemPrefix|..], '/', '.'), None);
      } else {
        var resolved := relative(unitName) + PasExtension;
        var resolvedName := Basename(resolved);
        if resolvedName in ReservedKeywords {
          return Fail(TranspilationError("`" + resolvedName + "` is a reserved keyword."));
        }
        u.AddUses(resolvedName, Some(resolved));
      }
      i := i + 1;
    }
    r := Pass;
  }

  // ---------------------------------------------------------------------------
  // Properties of the import stage

  /** No specifier ends in both `.ts` and `.pas`, so the extension clause of the
      system-unit test always holds: every `@delphi/` import is a system unit, whatever
      its extension. */
  lemma ExtensionClauseAlwaysHolds(spec: string)
    ensures !EndsWith(spec, ".ts") || !EndsWith(spec, ".pas")
    ensures IsSystemUnit(spec) <==> StartsWith(spec, SystemPrefix)
  {
    if EndsWith(spec, ".ts") {
      var n := |spec|;
      assert spec[n - 3] == '.' by { assert spec[n - 3..][0] == '.'; }
      assert !EndsWith(spec, ".pas") by {
        if 4 <= n { assert spec[n - 4..][1] == spec[n - 3]; }
      }
    }
  }

  /** A system unit is never checked against the reserved words and never fails. */
  lemma SystemImportPasses(m: Model, spec: string, relative: string -> string)
    requires StartsWith(spec, SystemPrefix)
    ensures ImportStep(m, spec, relative) == Staged(AddUses(m, SystemUnitName(spec), None), Pass)
  {
    ExtensionClauseAlwaysHolds(spec);
  }

  /** A resolved path whose last segment is a non-empty stem plus `.pas` has that stem
      as its base name. */
  lemma BasenameStem(dir: string, stem: string)
    requires dir == [] || dir[|dir| - 1] == '/'
    requires stem != [] && '/' !in stem
    ensures EndsWith(dir + stem + PasExtension, PasExtension)
    ensures Basename(dir + stem + PasExtension) == stem
  {
    var p := dir + stem + PasExtension;
    assert p[|p| - |PasExtension|..] == PasExtension;
    var k := LastSegmentStart(p);
    assert '/' !in PasExtension;
    forall j | |dir| <= j < |p|
      ensures p[j] != '/'
    {
      if j < |dir| + |stem| { assert p[j] == stem[j - |dir|]; } else { assert p[j] == PasExtension[j - |dir| - |stem|]; }
    }
    if dir != [] { assert p[|dir| - 1] == '/'; }
    assert k == |dir|;
    assert p[k..] == stem + PasExtension;
    assert p != PasExtension by { assert |p| > |PasExtension|; }
  }

  /** The stage keeps the registries consistent. */
  lemma {:induction false} ImportsKeepValid(m: Model, specs: seq<string>, relative: string -> string)
    requires m.Valid()
    ensures LexImports(m, specs, relative).model.Valid()
    decreases |specs|
  {
    if specs != [] {
      var spec := specs[0];
      if IsSystemUnit(spec) {
        AddUsesSpec(m, SystemUnitName(spec), None);
      } else {
        var resolved := relative(spec) + PasExtension;
        AddUsesSpec(m, Basename(resolved), Some(resolved));
      }
      var s := ImportStep(m, spec, relative);
      if s.outcome.Pass? {
        ImportsKeepValid(s.model, specs[1..], relative);
      }
    }
  }

  /** The stage only appends to `uses`: the earlier identifiers stay first and in order,
      and the unit, the types and the implementations are untouched. */
  lemma {:induction false} ImportsOnlyExtendUses(m: Model, specs: seq<string>, relative: string -> string)
    ensures var r := LexImports(m, specs, relative).model;
      |m.uses| <= |r.uses| && r.uses[..|m.uses|] == m.uses && r.(uses := m.uses) == m
    decreases |specs|
  {
    if specs != [] {
      var s := ImportStep(m, specs[0], relative);
      assert |m.uses| <= |s.model.uses| && s.model.uses[..|m.uses|] == m.uses && s.model.(uses := m.uses) == m;
      if s.outcome.Pass? {
        ImportsOnlyExtendUses(s.model, specs[1..], relative);
        var r := LexImports(s.model, specs[1..], relative).model;
        assert r.uses[..|m.uses|] == r.uses[..|s.model.uses|][..|m.uses|];
      }
    }
  }

  /** The only way the stage fails is a reserved unit name, and the error names it. */
  lemma {:induction false} ImportFailureIsReserved(m: Model, specs: seq<string>, relative: string -> string)
    ensures var r := LexImports(m, specs, relative);
      r.outcome.Fail? ==> exists k :: k in ReservedKeywords && r.outcome.error == ReservedKeywordError(k)
    decreases |specs|
  {
    if specs != [] {
      var s := ImportStep(m, specs[0], relative);
      if s.outcome.Pass? {
        ImportFailureIsReserved(s.model, specs[1..], relative);
      } else {
        var name := Basename(relative(specs[0]) + PasExtension);
        assert name in ReservedKeywords && s.outcome.error == ReservedKeywordError(name);
      }
    }
  }

  /** An import whose resolved name is reserved stops the stage at once: the imports
      before it stay registered, it and the ones after it are not. */
  lemma ReservedImportStops(m: Model, spec: string, rest: seq<string>, relative: string -> string)
    requires !StartsWith(spec, SystemPrefix)
    requires Basename(relative(spec) + PasExtension) in ReservedKeywords
    ensures LexImports(m, [spec] + rest, relative)
         == Staged(m, Fail(ReservedKeywordError(Basename(relative(spec) + PasExtension))))
  {
    assert ([spec] + rest)[0] == spec;
  }

  /** Imports are handled in declaration order: the stage over `a + b` is the stage over
      `a` followed, when that passes, by the stage over `b`. */
  lemma {:induction false} ImportsInOrder(m: Model, a: seq<string>, b: seq<string>, relative: string -> string)
    ensures var first := LexImports(m, a, relative);
      LexImports(m, a + b, relative)
      == if first.outcome.Fail? then first else LexImports(first.model, b, relative)
    decreases |a|
  {
    if a == [] {
      assert a + b == b;
    } else {
      assert (a + b)[0] == a[0] && (a + b)[1..] == a[1..] + b;
      var s := ImportStep(m, a[0], relative);
      if s.outcome.Pass? {
        ImportsInOrder(s.model, a[1..], b, relative);
      }
    }
  }

  /** `import "@delphi/system/classes"` adds `System.Classes`. */
  lemma SystemClassesImport(m: Model, relative: string -> string)
    requires "System.Classes" !in m.uses
    ensures LexImports(m, ["@delphi/system/classes"], relative)
         == Staged(m.(uses := m.uses + ["System.Classes"]), Pass)
  {
    var spec := "@delphi/system/classes";
    SystemClassesName();
    SystemImportPasses(m, spec, relative);
    NormalizeSystemClasses();
    assert ["@delphi/system/classes"][1..] == [];
  }

  lemma SystemClassesName()
    ensures StartsWith("@delphi/system/classes", SystemPrefix)
    ensures SystemUnitName("@delphi/system/classes") == "system.classes"
  {
    var spec := "@delphi/system/classes";
    assert spec[..|SystemPrefix|] == SystemPrefix;
    assert spec[|SystemPrefix|..] == "system/classes";
  }

  /** A non-system import that resolves to a plain, non-reserved stem in the input
      directory is registered as that stem with the path `<stem>.pas`. */
  lemma PlainImportStep(m: Model, spec: string, stem: string, relative: string -> string)
    requires !StartsWith(spec, SystemPrefix)
    requires relative(spec) == stem && stem != [] && '/' !in stem && stem !in ReservedKeywords
    ensures ImportStep(m, spec, relative) == Staged(AddUses(m, stem, Some(stem + PasExtension)), Pass)
  {
    BasenameStem("", stem);
    assert "" + stem + PasExtension == stem + PasExtension;
  }

  /** `import "./utils"`, resolving to `utils`, adds `Utils in 'utils.pas'`. */
  lemma UtilsImport(m: Model, relative: string -> string)
    requires relative("./utils") == "utils"
    requires "Utils in 'utils.pas'" !in m.uses
    ensures LexImports(m, ["./utils"], relative)
         == Staged(m.(uses := m.uses + ["Utils in 'utils.pas'"]), Pass)
  {
    var spec := "./utils";
    assert !StartsWith(spec, SystemPrefix) by { assert |spec| < |SystemPrefix|; }
    PlainImportStep(m, spec, "utils", relative);
    UtilsPath();
    UsesIdUtils();
    assert ["./utils"][1..] == [];
  }

  lemma UtilsPath()
    ensures "utils" + PasExtension == "utils.pas"
  {
  }

  /** `import "./class"` is rejected: `class` is a reserved word. */
  lemma ClassImportRejected(m: Model, relative: string -> string)
    requires relative("./class") == "class"
    ensures LexImports(m, ["./class"], relative)
         == Staged(m, Fail(ReservedKeywordError("class")))
  {
    var spec := "./class";
    assert !StartsWith(spec, SystemPrefix) by { assert |spec| < |SystemPrefix|; }
    BasenameStem("", "class");
    assert "class" in ReservedKeywords by { assert ReservedKeywords[7] == "class"; }
  }
}
