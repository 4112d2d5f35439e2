/** The registries of a unit writer as values: the ordered `uses` list, the keyed type
    and implementation registries, and the unit data. The operations here state what
    the corresponding `UnitWriter` methods do to the writer's fields. */
module UnitModel {
  import opened Common
  import opened Ast
  import opened Types
  import opened Text

  datatype UnitType = Unit | Program

  function UnitTypeText(t: UnitType): string
  {
    match t
    case Unit => "unit"
    case Program => "program"
  }

  /** The unit data: its kind, its name and the program body, if one was set. */
  datatype UnitInfo = UnitInfo(kind: UnitType, name: string, body: Option<seq<Statement>>)

  /** One keyed registry entry; a registry is a sequence of entries in insertion order. */
  datatype Entry<V> = Entry(key: string, value: V)

  function Keys<V>(r: seq<Entry<V>>): (ks: seq<string>)
    ensures |ks| == |r|
    ensures forall i :: 0 <= i < |r| ==> ks[i] == r[i].key
  {
    seq(|r|, i requires 0 <= i < |r| => r[i].key)
  }

  /** The value stored under `k`, if any (the first one, should there be several). */
  function Get<V>(r: seq<Entry<V>>, k: string): (v: Option<V>)
    ensures v.Some? <==> k in Keys(r)
  {
    if r == [] then None
    else if r[0].key == k then Some(r[0].value)
    else (assert Keys(r) == [r[0].key] + Keys(r[1..]); Get(r[1..], k))
  }

  predicate Distinct(s: seq<string>)
  {
    forall i, j :: 0 <= i < j < |s| ==> s[i] != s[j]
  }

  datatype Model = Model(
    unit: UnitInfo,
    uses: seq<string>,
    types: seq<Entry<Declaration>>,
    implementation: seq<Entry<ImplementationDeclaration>>)
  {
    /** No identifier twice in `uses`, no key twice in either registry. */
    predicate Valid()
    {
      Distinct(uses) && Distinct(Keys(types)) && Distinct(Keys(implementation))
    }
  }

  /** The registries after a stage, and whether the stage ended normally or threw. */
  datatype Staged = Staged(model: Model, outcome: Outcome)

  /** A freshly created writer after `setUnitType(kind, name)`. */
  function Empty(kind: UnitType, name: string): (m: Model)
    ensures m.Valid()
  {
    Model(UnitInfo(kind, name, None), [], [], [])
  }

  /** The `uses` identifier of a unit: its normalised name, followed by its path in
      `in '<path>'` form when a path is given. */
  function UsesId(name: string, path: Option<string>): string
  {
    match path
    case None => Normalize(name)
    case Some(p) => Normalize(name) + " in '" + p + "'"
  }

  /** `addUses(name, path?)` */
  function AddUses(m: Model, name: string, path: Option<string>): Model
  {
    var id := UsesId(name, path);
    if id in m.uses then m else m.(uses := m.uses + [id])
  }

  /** The registry key of a type declaration whose name is already normalised: the name,
      followed for a class by its parent text (JavaScript prints a missing one as
      `undefined`). */
  function TypeKey(d: Declaration): string
  {
    d.name + (if d.Class? then (match d.parent case Some(p) => p case None => "undefined") else "")
  }

  /** The declaration with its name normalised, as `addType` rewrites `data.name`. */
  function Normalized(d: Declaration): (r: Declaration)
    ensures r.name == Normalize(d.name)
  {
    match d
    case Simple(k, n, p, b) => Simple(k, Normalize(n), p, b)
    case Class(n, p, b, e, ms) => Class(Normalize(n), p, b, e, ms)
  }

  /** `addType(data)`: the name is normalised first, then the first registration under
      a key wins. */
  function AddType(m: Model, d: Declaration): Model
  {
    var data := Normalized(d);
    var key := TypeKey(data);
    if key in Keys(m.types) then m else m.(types := m.types + [Entry(key, data)])
  }

  /** The registry key of an implementation. */
  function ImplKey(kind: ImplKind, name: string): string
  {
    ImplKindText(kind) + " " + name
  }

  /** The argument record built by `args.forEach(arg => parsedArgs[arg.getName()] = ...)`:
      later parameters of the same name overwrite earlier ones. */
  function ArgsMap(args: seq<Param>): map<string, string>
  {
    if args == [] then map[]
    else ArgsMap(args[..|args| - 1])[args[|args| - 1].name := args[|args| - 1].typeText]
  }

  /** The stored return type: a primitive mapped through the table, no return type kept absent. */
  function ReturnsOf(ret: Option<string>): Option<string>
  {
    match ret
    case None => None
    case Some(t) => Some(PascalType(t))
  }

  /** The entry `addImplementation` creates for a key not yet registered. */
  function NewImplementation(kind: ImplKind, name: string, args: seq<Param>,
                             ret: Option<string>, body: seq<Statement>): ImplementationDeclaration
  {
    ImplementationDeclaration(kind, name, Some(ArgsMap(args)), ReturnsOf(ret), Some(map[]), body)
  }

  /** `addImplementation(kind, name, args, ret, body)`: get-or-create under `kind + " " + name`. */
  function AddImplementation(m: Model, kind: ImplKind, name: string, args: seq<Param>,
                             ret: Option<string>, body: seq<Statement>): Model
  {
    var key := ImplKey(kind, name);
    if key in Keys(m.implementation) then m
    else m.(implementation := m.implementation + [Entry(key, NewImplementation(kind, name, args, ret, body))])
  }

  /** The registry with `st` appended to the body of every entry under `key`. */
  function AppendToBody(r: seq<Entry<ImplementationDeclaration>>, key: string, st: Statement)
    : seq<Entry<ImplementationDeclaration>>
  {
    if r == [] then []
    else [if r[0].key == key then Entry(key, r[0].value.(body := r[0].value.body + [st])) else r[0]]
         + AppendToBody(r[1..], key, st)
  }

  /** `impl.body.addStatements(st)` on the entry registered under `key`. */
  function AppendStatement(m: Model, key: string, st: Statement): Model
  {
    m.(implementation := AppendToBody(m.implementation, key, st))
  }

  /** `setBody(body)` */
  function SetBody(m: Model, body: seq<Statement>): Model
  {
    m.(unit := m.unit.(body := Some(body)))
  }

  // ---------------------------------------------------------------------------
  // Properties of the registries

  lemma {:induction false} GetAppend<V>(r: seq<Entry<V>>, e: Entry<V>, k: string)
    ensures Get(r + [e], k) == if k in Keys(r) then Get(r, k) else if e.key == k then Some(e.value) else None
  {
    if r != [] {
      assert (r + [e])[1..] == r[1..] + [e];
      assert Keys(r) == [r[0].key] + Keys(r[1..]);
      GetAppend(r[1..], e, k);
    }
  }

  lemma KeysAppend<V>(r: seq<Entry<V>>, e: Entry<V>)
    ensures Keys(r + [e]) == Keys(r) + [e.key]
  {
  }

  /** `addUses` adds its identifier at the end when it is new and changes nothing
      otherwise; afterwards the identifier occurs exactly once, the earlier entries keep
      their order, and nothing else of the unit changes. */
  lemma AddUsesSpec(m: Model, name: string, path: Option<string>)
    requires m.Valid()
    ensures var r := AddUses(m, name, path);
      && r.Valid()
      && UsesId(name, path) in r.uses
      && (UsesId(name, path) in m.uses ==> r.uses == m.uses)
      && (UsesId(name, path) !in m.uses ==> r.uses == m.uses + [UsesId(name, path)])
      && r.(uses := m.uses) == m
  {
  }

  /** The normalised name of a unit path given with slashes replaced by dots. */
  lemma UsesIdSystemClasses()
    ensures UsesId("system.classes", None) == "System.Classes"
  {
    NormalizeSystemClasses();
  }

  /** An identifier given a path reads `<Name> in '<path>'`. */
  lemma UsesIdUtils()
    ensures UsesId("utils", Some("utils.pas")) == "Utils in 'utils.pas'"
  {
    NormalizeAt("utils");
    assert Normalize("utils") == "Utils";
  }

  /** `addType` is first-write-wins: a key already registered leaves the registry as it
      was; a new key is stored at the end with the normalised name; every entry
      registered before keeps its value. */
  lemma AddTypeFirstWins(m: Model, d: Declaration, k: string)
    requires m.Valid()
    ensures var r := AddType(m, d);
      var data := Normalized(d);
      && r.Valid()
      && r.(types := m.types) == m
      && (TypeKey(data) in Keys(m.types) ==> r == m)
      && (TypeKey(data) !in Keys(m.types) ==> Keys(r.types) == Keys(m.types) + [TypeKey(data)])
      && Get(r.types, TypeKey(data)) == (if TypeKey(data) in Keys(m.types) then Get(m.types, TypeKey(data)) else Some(data))
      && (k in Keys(m.types) ==> Get(r.types, k) == Get(m.types, k))
  {
    var data := Normalized(d);
    if TypeKey(data) !in Keys(m.types) {
      GetAppend(m.types, Entry(TypeKey(data), data), TypeKey(data));
      GetAppend(m.types, Entry(TypeKey(data), data), k);
      KeysAppend(m.types, Entry(TypeKey(data), data));
    }
  }

  /** A class declaration with the given name and parent. */
  function ClassNamed(name: string, parent: Option<string>): Declaration
  {
    Class(name, None, None, parent, Some(map[]))
  }

  /** `Foo` with no parent and `Foo extends Bar` are two entries; a second
      `Foo extends Bar` is absorbed by the first. */
  lemma ClassKeysExample(m: Model)
    requires m.types == []
    ensures |AddType(AddType(m, ClassNamed("Foo", None)), ClassNamed("Foo", Some("Bar"))).types| == 2
    ensures |AddType(AddType(m, ClassNamed("Foo", Some("Bar"))), ClassNamed("Foo", Some("Bar"))).types| == 1
  {
    NormalizeAt("Foo");
    assert Normalize("Foo") == "Foo";
    assert "Fooundefined" != "FooBar";
    var data := Normalized(ClassNamed("Foo", Some("Bar")));
    assert data == ClassNamed("Foo", Some("Bar"));
    assert TypeKey(data) == "Foo" + "Bar" == "FooBar";
    var m1 := AddType(m, ClassNamed("Foo", Some("Bar")));
    assert m1.types == [Entry("FooBar", data)];
    assert Keys(m1.types) == ["FooBar"];
  }

  /** The key of a class is its name and parent written together without a separator,
      so an exported function `FooBar` and a class `Foo extends Bar` share a key and the
      one registered second is dropped. */
  lemma TypeKeyCollision(m: Model)
    requires m.types == []
    ensures var f := Simple(Function, "FooBar", None, None);
      AddType(AddType(m, f), ClassNamed("Foo", Some("Bar"))) == AddType(m, f)
  {
    NormalizeAt("Foo");
    assert Normalize("Foo") == "Foo";
    NormalizeAt("FooBar");
    assert Normalize("FooBar") == "FooBar";
    var f := Simple(Function, "FooBar", None, None);
    assert Normalized(f) == f;
    assert TypeKey(f) == "FooBar" + "" == "FooBar";
    var m1 := AddType(m, f);
    assert m1.types == [Entry("FooBar", f)];
    assert Keys(m1.types) == ["FooBar"];
    assert Normalized(ClassNamed("Foo", Some("Bar"))) == ClassNamed("Foo", Some("Bar"));
    assert TypeKey(ClassNamed("Foo", Some("Bar"))) == "FooBar";
  }

  /** The argument record has one key per distinct parameter name, holding the type of
      the last parameter of that name. */
  lemma {:induction false} ArgsMapSpec(args: seq<Param>)
    ensures ArgsMap(args).Keys == set p | p in args :: p.name
    ensures forall i :: 0 <= i < |args| && (forall j :: i < j < |args| ==> args[j].name != args[i].name)
                        ==> ArgsMap(args)[args[i].name] == args[i].typeText
  {
    if args != [] {
      var init := args[..|args| - 1];
      ArgsMapSpec(init);
      assert forall p :: p in args <==> p in init || p == args[|args| - 1];
      forall i | 0 <= i < |args| - 1 && (forall j :: i < j < |args| ==> args[j].name != args[i].name)
        ensures ArgsMap(args)[args[i].name] == args[i].typeText
      {
        assert init[i] == args[i];
        assert forall j :: i < j < |init| ==> init[j].name != init[i].name by {
          forall j | i < j < |init| ensures init[j].name != init[i].name { assert init[j] == args[j]; }
        }
      }
    }
  }

  /** `addImplementation` gets or creates: under a registered key it changes nothing;
      otherwise it stores, at the end, an entry with the arguments keyed by parameter
      name, no variables, the return type mapped through the primitive table and the
      given body. Entries registered before keep their values. */
  lemma AddImplementationGetOrCreate(m: Model, kind: ImplKind, name: string, args: seq<Param>,
                                     ret: Option<string>, body: seq<Statement>, k: string)
    requires m.Valid()
    ensures var r := AddImplementation(m, kind, name, args, ret, body);
      var key := ImplKey(kind, name);
      && r.Valid()
      && r.(implementation := m.implementation) == m
      && (key in Keys(m.implementation) ==> r == m)
      && (key !in Keys(m.implementation) ==>
            Get(r.implementation, key) == Some(NewImplementation(kind, name, args, ret, body)))
      && (key !in Keys(m.implementation) ==> Keys(r.implementation) == Keys(m.implementation) + [key])
      && (k in Keys(m.implementation) ==> Get(r.implementation, k) == Get(m.implementation, k))
  {
    var key := ImplKey(kind, name);
    if key !in Keys(m.implementation) {
      var e := Entry(key, NewImplementation(kind, name, args, ret, body));
      GetAppend(m.implementation, e, key);
      GetAppend(m.implementation, e, k);
      KeysAppend(m.implementation, e);
    }
  }

  /** A new entry keeps the kind, name and body it was given, records the parameters by
      name, has an empty variable record, and holds the return type looked up in
      `CommonTypes`, or the type's own text when the table has no such key, or none. */
  lemma NewImplementationFields(kind: ImplKind, name: string, args: seq<Param>,
                                ret: Option<string>, body: seq<Statement>)
    ensures var e := NewImplementation(kind, name, args, ret, body);
      && e.kind == kind && e.name == name && e.body == body
      && e.args.Some? && e.args.value.Keys == (set p | p in args :: p.name)
      && (forall i :: 0 <= i < |args| && (forall j :: i < j < |args| ==> args[j].name != args[i].name) ==>
            e.args.value[args[i].name] == args[i].typeText)
      && e.vars == Some(map[])
      && (ret.None? <==> e.returnType.None?)
      && (ret.Some? ==> e.returnType == Some(if ret.value in CommonTypes then CommonTypes[ret.value] else ret.value))
      && (ret == Some("number") ==> e.returnType == Some("Float"))
      && (ret == Some("void") ==> e.returnType == Some("void"))
  {
    ArgsMapSpec(args);
  }

  /** Appending to a body keeps every key in place and changes only the body of the
      entry under `key`, which gains `st` at its end. */
  lemma {:induction false} AppendToBodySpec(r: seq<Entry<ImplementationDeclaration>>, key: string,
                                            st: Statement, k: string)
    ensures Keys(AppendToBody(r, key, st)) == Keys(r)
    ensures Get(AppendToBody(r, key, st), k) ==
      (match Get(r, k)
       case None => None
       case Some(v) => Some(if k == key then v.(body := v.body + [st]) else v))
  {
    if r != [] {
      AppendToBodySpec(r[1..], key, st, k);
      assert Keys(r) == [r[0].key] + Keys(r[1..]);
      var a := AppendToBody(r, key, st);
      assert Keys(a) == [a[0].key] + Keys(a[1..]);
    }
  }

  lemma AppendStatementValid(m: Model, key: string, st: Statement)
    requires m.Valid()
    ensures AppendStatement(m, key, st).Valid()
  {
    AppendToBodySpec(m.implementation, key, st, key);
  }
}
