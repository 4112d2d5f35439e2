/** The unit writer: the per-file state the lexers fill and the emitters print from,
    together with the text buffer and the indentation counter every emitter writes
    through. */
module UnitWriter {
  import opened Common
  import opened Ast
  import opened Types
  import opened Text
  import opened UnitModel

  class UnitWriter {
    /** The output text written so far. */
    var content: string
    /** The indentation level; it never drops below zero. */
    var currentIdentation: nat
    /** The `uses` identifiers, in insertion order. */
    var uses: seq<string>
    /** The type registry, keyed by `TypeKey`, in insertion order. */
    var types: seq<Entry<Declaration>>
    /** The implementation registry, keyed by `ImplKey`, in insertion order. */
    var implementation: seq<Entry<ImplementationDeclaration>>
    /** Unit kind, name and program body. */
    var unit: UnitInfo

    /** The registries and unit data as one value. */
    function State(): Model
      reads this
    {
      Model(unit, uses, types, implementation)
    }

    /** Creation of the writer for one file followed by `setUnitType(type, name)`, which
        the orchestrator always calls first. */
    constructor (kind: UnitType, name: string)
      ensures content == "" && currentIdentation == 0
      ensures State() == Empty(kind, name)
    {
      content := "";
      currentIdentation := 0;
      uses := [];
      types := [];
      implementation := [];
      unit := UnitInfo(kind, name, None);
    }

    /** The unit is a program exactly when its header word is `program`. */
    predicate IsProgram()
      reads this
      ensures IsProgram() <==> UnitTypeText(unit.kind) == "program"
    {
      unit.kind == Program
    }

    method SetUnitType(kind: UnitType, name: string)
      modifies this
      ensures State() == old(State()).(unit := UnitInfo(kind, name, None))
      ensures content == old(content) && currentIdentation == old(currentIdentation)
    {
      unit := UnitInfo(kind, name, None);
    }

    method SetBody(body: seq<Statement>)
      modifies this
      ensures State() == UnitModel.SetBody(old(State()), body)
      ensures content == old(content) && currentIdentation == old(currentIdentation)
    {
      unit := unit.(body := Some(body));
    }

    method AddUses(name: string, path: Option<string>)
      modifies this
      ensures State() == UnitModel.AddUses(old(State()), name, path)
      ensures content == old(content) && currentIdentation == old(currentIdentation)
    {
      var normalized := Normalize(name);
      var unitId := if path.Some? then normalized + " in '" + path.value + "'" else normalized;
      if unitId in uses {
        return;
      }
      uses := uses + [unitId];
    }

    method AddType(data: Declaration)
      modifies this
      ensures State() == UnitModel.AddType(old(State()), data)
      ensures content == old(content) && currentIdentation == old(currentIdentation)
    {
      var named := Normalized(data);
      var index := named.name + (if named.Class? then (if named.parent.Some? then named.parent.value else "undefined") else "");
      if index in Keys(types) {
        return;
      }
      types := types + [Entry(index, named)];
    }

    method AddImplementation(kind: ImplKind, name: string, args: seq<Param>,
                             ret: Option<string>, body: seq<Statement>)
      returns (impl: ImplementationDeclaration)
      modifies this
      ensures State() == UnitModel.AddImplementation(old(State()), kind, name, args, ret, body)
      ensures Get(implementation, ImplKey(kind, name)) == Some(impl)
      ensures content == old(content) && currentIdentation == old(currentIdentation)
    {
      var index := ImplKindText(kind) + " " + name;
      var existing := Get(implementation, index);
      if existing.Some? {
        return existing.value;
      }
      var parsedArgs: map<string, string> := map[];
      var i := 0;
      while i < |args|
        invariant 0 <= i <= |args|
        invariant parsedArgs == ArgsMap(args[..i])
      {
        assert args[..i + 1][..i] == args[..i];
        parsedArgs := parsedArgs[args[i].name := args[i].typeText];
        i := i + 1;
      }
      assert args[..i] == args;
      var parsedReturn := if ret.Some? then Some(PascalType(ret.value)) else None;
      impl := ImplementationDeclaration(kind, name, Some(parsedArgs), parsedReturn, Some(map[]), body);
      GetAppend(implementation, Entry(index, impl), index);
      implementation := implementation + [Entry(index, impl)];
    }

    /** `impl.body.addStatements(st)` on the entry `addImplementation` returned for `key`. */
    method AppendToBody(key: string, st: Statement)
      modifies this
      ensures State() == AppendStatement(old(State()), key, st)
      ensures content == old(content) && currentIdentation == old(currentIdentation)
    {
      implementation := UnitModel.AppendToBody(implementation, key, st);
    }

    function HasTypeDeclarations(): (r: bool)
      reads this
      ensures r <==> types != []
    {
      |Keys(types)| > 0
    }

    function HasImplementationDeclarations(): (r: bool)
      reads this
      ensures r <==> implementation != []
    {
      |Keys(implementation)| > 0
    }

    function GetIdentationAsString(): (r: string)
      reads this
      ensures |r| == currentIdentation && forall i :: 0 <= i < |r| ==> r[i] == '\t'
    {
      TabsAreTabs(currentIdentation);
      Tabs(currentIdentation)
    }

    method Write(parts: seq<string>)
      modifies this
      ensures content == old(content) + Concat(parts)
      ensures currentIdentation == old(currentIdentation) && State() == old(State())
    {
      content := content + Concat(parts);
    }

    method WriteIdentated(parts: seq<string>)
      modifies this
      ensures content == old(content) + Tabs(currentIdentation) + Concat(parts)
      ensures currentIdentation == old(currentIdentation) && State() == old(State())
    {
      content := content + GetIdentationAsString() + Concat(parts);
    }

    method WriteLine(s: string := "")
      modifies this
      ensures content == old(content) + Line(currentIdentation, s)
      ensures currentIdentation == old(currentIdentation) && State() == old(State())
    {
      ConcatPair(s, "\n");
      WriteIdentated([s, "\n"]);
    }

    /** Adds `amount` to the indentation and clamps the result at zero. */
    method AdjustIdentation(amount: int := 1)
      modifies this
      ensures currentIdentation == (if old(currentIdentation) + amount < 0 then 0 else old(currentIdentation) + amount)
      ensures content == old(content) && State() == old(State())
    {
      var level := currentIdentation + amount;
      currentIdentation := if level < 0 then 0 else level;
    }
  }
}
