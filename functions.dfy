/** The function stage: every top-level function of the file. A named function is
    registered as an implementation, and also as a type when it is exported; an unnamed
    default export becomes the program body; any other unnamed function is skipped. */
module FunctionLexer {
  import opened Common
  import opened Ast
  import opened Types
  import opened UnitModel
  import opened UnitWriter

  /** The type entry an exported function registers: no privacy, no body. */
  function FunctionType(name: string): (d: Declaration)
    ensures d.Simple? && d.kind == Function && d.name == name
    ensures TypeKey(Normalized(d)) == Text.Normalize(name)
  {
    Simple(Function, name, None, None)
  }

  /** One function declaration. The return type is the one the front-end reports, so a
      function always has one. */
  function FunctionStep(m: Model, fn: FunctionDecl): Model
  {
    match fn.name
    case None => if fn.defaultExport then SetBody(m, fn.body) else m
    case Some(name) =>
      var typed := if fn.exported then AddType(m, FunctionType(name)) else m;
      AddImplementation(typed, FunctionImpl, name, fn.params, Some(fn.returnType), fn.body)
  }

  /** The whole stage: the functions in declaration order. */
  function LexFunctions(m: Model, fns: seq<FunctionDecl>): Model
    decreases |fns|
  {
    if fns == [] then m else LexFunctions(FunctionStep(m, fns[0]), fns[1..])
  }

  /** `FunctionLexer.lex()` */
  method Lex(u: UnitWriter, fns: seq<FunctionDecl>)
    modifies u
    ensures u.State() == LexFunctions(old(u.State()), fns)
    ensures u.content == old(u.content) && u.currentIdentation == old(u.currentIdentation)
  {
    var i := 0;
    while i < |fns|
      invariant 0 <= i <= |fns|
      invariant LexFunctions(u.State(), fns[i..]) == LexFunctions(old(u.State()), fns)
      invariant u.content == old(u.content) && u.currentIdentation == old(u.currentIdentation)
    {
      assert fns[i..][1..] == fns[i + 1..];
      var fn := fns[i];
      i := i + 1;
      if fn.name.None? {
        if fn.defaultExport {
          u.SetBody(fn.body);
        }
        continue;
      }
      var name := fn.name.value;
      if fn.exported {
        u.AddType(Simple(Function, name, None, None));
      }
      var _ := u.AddImplementation(FunctionImpl, name, fn.params, Some(fn.returnType), fn.body);
    }
  }

  // ---------------------------------------------------------------------------
  // Properties of the function stage

  /** One function keeps the registries consistent, leaves `uses` and the unit's kind and
      name alone, and never changes an entry registered before it. */
  lemma FunctionStepKeeps(m: Model, fn: FunctionDecl, k: string)
    requires m.Valid()
    ensures var r := FunctionStep(m, fn);
      && r.Valid()
      && r.uses == m.uses && r.unit.kind == m.unit.kind && r.unit.name == m.unit.name
      && (k in Keys(m.types) ==> k in Keys(r.types) && Get(r.types, k) == Get(m.types, k))
      && (k in Keys(m.implementation) ==> k in Keys(r.implementation) && Get(r.implementation, k) == Get(m.implementation, k))
  {
    if fn.name.Some? {
      var name := fn.name.value;
      var typed := if fn.exported then AddType(m, FunctionType(name)) else m;
      if fn.exported {
        AddTypeFirstWins(m, FunctionType(name), k);
      }
      AddImplementationGetOrCreate(typed, FunctionImpl, name, fn.params, Some(fn.returnType), fn.body, k);
    }
  }

  /** The same over the whole stage: it only adds entries, every entry registered before
      keeps its value, and `uses` is untouched. */
  lemma {:induction false} FunctionsKeep(m: Model, fns: seq<FunctionDecl>, k: string)
    requires m.Valid()
    ensures var r := LexFunctions(m, fns);
      && r.Valid()
      && r.uses == m.uses && r.unit.kind == m.unit.kind && r.unit.name == m.unit.name
      && (k in Keys(m.types) ==> k in Keys(r.types) && Get(r.types, k) == Get(m.types, k))
      && (k in Keys(m.implementation) ==> k in Keys(r.implementation) && Get(r.implementation, k) == Get(m.implementation, k))
    decreases |fns|
  {
    if fns != [] {
      FunctionStepKeeps(m, fns[0], k);
      FunctionsKeep(FunctionStep(m, fns[0]), fns[1..], k);
    }
  }

  /** A named function registers its implementation key, and its type when exported;
      a key new to the registry gets the entry built from this declaration. */
  lemma FunctionStepRegisters(m: Model, fn: FunctionDecl)
    requires m.Valid() && fn.name.Some?
    ensures var r := FunctionStep(m, fn);
      var key := ImplKey(FunctionImpl, fn.name.value);
      && key in Keys(r.implementation)
      && (fn.exported ==> Text.Normalize(fn.name.value) in Keys(r.types))
      && (key !in Keys(m.implementation) ==>
            Get(r.implementation, key) == Some(NewImplementation(FunctionImpl, fn.name.value, fn.params, Some(fn.returnType), fn.body)))
  {
    var name := fn.name.value;
    var key := ImplKey(FunctionImpl, name);
    var typed := if fn.exported then AddType(m, FunctionType(name)) else m;
    if fn.exported {
      AddTypeFirstWins(m, FunctionType(name), key);
      AddImplementationGetOrCreate(typed, FunctionImpl, name, fn.params, Some(fn.returnType), fn.body, Text.Normalize(name));
    }
    AddImplementationGetOrCreate(typed, FunctionImpl, name, fn.params, Some(fn.returnType), fn.body, key);
  }

  /** A function of another name leaves an unregistered implementation key unregistered. */
  lemma FunctionStepOtherKey(m: Model, fn: FunctionDecl, key: string)
    requires key !in Keys(m.implementation)
    requires fn.name.None? || ImplKey(FunctionImpl, fn.name.value) != key
    ensures key !in Keys(FunctionStep(m, fn).implementation)
  {
    if fn.name.Some? {
      var name := fn.name.value;
      var typed := if fn.exported then AddType(m, FunctionType(name)) else m;
      var e := Entry(ImplKey(FunctionImpl, name), NewImplementation(FunctionImpl, name, fn.params, Some(fn.returnType), fn.body));
      if ImplKey(FunctionImpl, name) !in Keys(typed.implementation) {
        KeysAppend(typed.implementation, e);
      }
    }
  }

  /** Different names give different implementation keys. */
  lemma ImplKeyInjective(a: string, b: string)
    requires a != b
    ensures ImplKey(FunctionImpl, a) != ImplKey(FunctionImpl, b)
  {
    var p := ImplKindText(FunctionImpl) + " ";
    assert (p + a)[|p|..] == a && (p + b)[|p|..] == b;
  }

  /** The first function of a given name fixes its implementation entry: the key
      `function <name>` then holds that declaration's parameters, return type and body,
      whatever later functions of the same name declare. */
  lemma {:induction false} FirstFunctionWins(m: Model, fns: seq<FunctionDecl>, i: nat)
    requires m.Valid()
    requires i < |fns| && fns[i].name.Some?
    requires forall j :: 0 <= j < i ==> fns[j].name != fns[i].name
    requires ImplKey(FunctionImpl, fns[i].name.value) !in Keys(m.implementation)
    ensures Get(LexFunctions(m, fns).implementation, ImplKey(FunctionImpl, fns[i].name.value))
         == Some(NewImplementation(FunctionImpl, fns[i].name.value, fns[i].params, Some(fns[i].returnType), fns[i].body))
    decreases i
  {
    var key := ImplKey(FunctionImpl, fns[i].name.value);
    var s := FunctionStep(m, fns[0]);
    FunctionStepKeeps(m, fns[0], key);
    if i == 0 {
      FunctionStepRegisters(m, fns[0]);
      FunctionsKeep(s, fns[1..], key);
    } else {
      if fns[0].name.Some? {
        ImplKeyInjective(fns[0].name.value, fns[i].name.value);
      }
      FunctionStepOtherKey(m, fns[0], key);
      assert fns[1..][i - 1] == fns[i];
      FirstFunctionWins(s, fns[1..], i - 1);
    }
  }

  /** Every named function ends up with an implementation entry, and an exported one
      also with a type entry under its normalised name. */
  lemma {:induction false} NamedFunctionRegistered(m: Model, fns: seq<FunctionDecl>, i: nat)
    requires m.Valid()
    requires i < |fns| && fns[i].name.Some?
    ensures var r := LexFunctions(m, fns);
      && ImplKey(FunctionImpl, fns[i].name.value) in Keys(r.implementation)
      && (fns[i].exported ==> Text.Normalize(fns[i].name.value) in Keys(r.types))
    decreases i
  {
    var s := FunctionStep(m, fns[0]);
    FunctionStepKeeps(m, fns[0], "");
    if i == 0 {
      FunctionStepRegisters(m, fns[0]);
      FunctionsKeep(s, fns[1..], ImplKey(FunctionImpl, fns[0].name.value));
      FunctionsKeep(s, fns[1..], Text.Normalize(fns[0].name.value));
    } else {
      assert fns[1..][i - 1] == fns[i];
      NamedFunctionRegistered(s, fns[1..], i - 1);
    }
  }

  /** An unnamed function registers nothing: as the default export it only replaces the
      program body, and otherwise it is skipped altogether. */
  lemma UnnamedFunctionRegistersNothing(m: Model, fn: FunctionDecl)
    requires fn.name.None?
    ensures var r := FunctionStep(m, fn);
      && r.uses == m.uses && r.types == m.types && r.implementation == m.implementation
      && r.unit.kind == m.unit.kind && r.unit.name == m.unit.name
      && r.unit.body == (if fn.defaultExport then Some(fn.body) else m.unit.body)
      && (!fn.defaultExport ==> r == m)
  {
  }

  /** The program body is the body of the last unnamed default export. */
  lemma {:induction false} ProgramBodyIsLastDefault(m: Model, fns: seq<FunctionDecl>, i: nat)
    requires i < |fns| && fns[i].name.None? && fns[i].defaultExport
    requires forall j :: i < j < |fns| ==> fns[j].name.Some? || !fns[j].defaultExport
    ensures LexFunctions(m, fns).unit.body == Some(fns[i].body)
    decreases |fns|
  {
    if i == 0 {
      assert FunctionStep(m, fns[0]).unit.body == Some(fns[0].body);
      NoDefaultKeepsBody(FunctionStep(m, fns[0]), fns[1..]);
    } else {
      ProgramBodyIsLastDefault(FunctionStep(m, fns[0]), fns[1..], i - 1);
    }
  }

  /** Without an unnamed default export the program body stays as it was. */
  lemma {:induction false} NoDefaultKeepsBody(m: Model, fns: seq<FunctionDecl>)
    requires forall j :: 0 <= j < |fns| ==> fns[j].name.Some? || !fns[j].defaultExport
    ensures LexFunctions(m, fns).unit.body == m.unit.body
    decreases |fns|
  {
    if fns != [] {
      var s := FunctionStep(m, fns[0]);
      assert s.unit.body == m.unit.body;
      NoDefaultKeepsBody(s, fns[1..]);
    }
  }
}
