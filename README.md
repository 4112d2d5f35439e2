# ts2delphi translation core, in Dafny

ts2delphi translates one TypeScript file into a Delphi (Object Pascal) unit. The translation
goes through a `UnitWriter`, which collects three registries while the lexers run and then
writes them out as text:

- `uses`: the unit's `uses` clause, one entry per distinct import;
- `types`: the declarations of the interface's `type` section, keyed by name (plus the
  parent name for a class);
- `implementation`: the function, procedure and constructor bodies, keyed by
  `<kind> <name>`.

`parse()` runs three stages in a fixed order:

- the import lexer turns each import into a `uses` entry, and rejects a unit whose name
  is a reserved keyword;
- the function lexer registers every named function, and records an unnamed default
  export as the program body;
- the class lexer registers every class together with its property types, and collects
  the property initialisers into the class's constructor.

`writeContents()` then prints:

- the unit header;
- the `interface` with its `uses` clause;
- the `type` section, printed by the type emitter;
- the `implementation` section, printed by the implementation emitter.

The model keeps the program's own quirks:

- `writeLine()` after `writeIdentated` repeats the indentation before the newline, so
  such lines end in tabs;
- a function always has a return type, since the front-end reports one; a type that
  `CommonTypes` does not list prints as its own text (`void` stays `void`). Only a
  missing return type prints `undefined`, and that happens for every constructor the
  class stage registers, because it passes `null`;
- a property-access assignment prints only the member name, and its receiver is dropped;
- for any other left side of an assignment the guard calls `getName()` on the node.
  When the node's kind has no such method, the call throws a `TypeError` and the whole
  output is lost. When it answers `this`, the member-name path prints `this`. Otherwise
  the source text of the left side is printed with one `writeLine`. Which answer a node
  gives is part of the syntax tree the model takes as input;
- the first declaration under a key wins in every registry;
- a class with no `extends` clause stops the translation with the engine's `TypeError`.

Modules and files:

| file | module | models |
|---|---|---|
| `common.dfy` | `Common` | `Option`, the two error kinds, the pass/fail outcome of a stage |
| `ast.dfy` | `Ast` | the parts of the TypeScript syntax tree the stages read |
| `types.dfy` | `Types` | `src/transpiler/Types.ts`: declarations, implementation records, `CommonTypes` |
| `text.dfy` | `Text` | tabs, lines, joining, and the word-capitalising rewrite of names |
| `unit_model.dfy` | `UnitModel` | the registries as values, and their update rules |
| `unit_writer.dfy` | `UnitWriter` | the `UnitWriter` class: its fields and in-place methods |
| `type_parser.dfy` | `TypeParser` | `src/transpiler/parsers/Type.ts` |
| `implementation_parser.dfy` | `ImplementationParser` | `src/transpiler/parsers/Implementation.ts` |
| `unit_output.dfy` | `UnitOutput` | `writeContents` |
| `imports.dfy` | `ImportLexer` | `src/transpiler/lexers/Imports.ts` |
| `functions.dfy` | `FunctionLexer` | `src/transpiler/lexers/Functions.ts` |
| `class_lexer.dfy` | `ClassLexer` | `src/transpiler/lexers/Class.ts` |
| `pipeline.dfy` | `Pipeline` | `parse()` and the translation of one file |

How the model is built:

- Each JavaScript object used as a dictionary is a sequence of key/value entries in
  insertion order. This is the order `for…in` visits string keys. The invariant
  `Model.Valid` says that the keys are distinct.
- Each in-place operation of the writer is a method of the class `UnitWriter`. Each
  lexer and emitter is a method that changes the writer. Every one of them is proved
  equal to a function on values: `State()` before and after for the registries, and old
  content plus a text function for the output.
- The properties are lemmas about those functions.

Three behaviours of the code that are easy to misread:

- An import whose name starts with `@delphi/` is always a system unit. The extension
  test `!endsWith(".ts") || !endsWith(".pas")` can never be false.
- A class without `extends` does not get a type entry. `extend.getText()` throws first,
  and the translation stops.
- A type entry's key is its name plus, for a class, its parent. So an exported function
  `FooBar` and a class `Foo extends Bar` share a key, and the second one is dropped.

## Model

| member | source | states |
|---|---|---|
| UnitWriter.UnitWriter.constructor | src/UnitWriter.ts:19-39 | a new writer, once `setUnitType` has run, has empty content, indentation 0, empty registries, and the given unit kind and name with no body |
| UnitWriter.UnitWriter.IsProgram | src/UnitWriter.ts:77-79 | the unit is a program exactly when its header word is `program` |
| UnitWriter.UnitWriter.SetUnitType | src/UnitWriter.ts:197-203 | sets the kind and name, clears the body, and leaves the registries and output alone |
| UnitWriter.UnitWriter.SetBody | src/UnitWriter.ts:86-89 | records the program body and changes nothing else |
| UnitWriter.UnitWriter.AddUses | src/UnitWriter.ts:97-113 | the new state is the registry update `AddUses` of the old one, and the output is unchanged |
| UnitWriter.UnitWriter.AddType | src/UnitWriter.ts:121-141 | the new state is `AddType` of the old one: the name is normalised and a new key is appended |
| UnitWriter.UnitWriter.AddImplementation | src/UnitWriter.ts:151-189 | get-or-create: returns the stored entry under `<kind> <name>` when there is one, otherwise appends and returns a fresh entry built from the arguments |
| UnitWriter.UnitWriter.AppendToBody | src/transpiler/lexers/Class.ts:48-50 | appends one statement to the body of the entry under a key, and leaves every other entry alone |
| UnitWriter.UnitWriter.HasTypeDeclarations | src/UnitWriter.ts:209-211 | true exactly when some type is registered |
| UnitWriter.UnitWriter.HasImplementationDeclarations | src/UnitWriter.ts:217-219 | true exactly when some implementation is registered |
| UnitWriter.UnitWriter.GetIdentationAsString | src/UnitWriter.ts:237-239 | the result is as many tabs as the current indentation, and nothing but tabs |
| UnitWriter.UnitWriter.Write | src/UnitWriter.ts:246-249 | appends the pieces, joined without separators, with no indentation |
| UnitWriter.UnitWriter.WriteIdentated | src/UnitWriter.ts:256-259 | appends the indentation, then the pieces |
| UnitWriter.UnitWriter.WriteLine | src/UnitWriter.ts:226-231 | appends the indentation, the text and a newline; with no argument, an indented empty line |
| UnitWriter.UnitWriter.AdjustIdentation | src/UnitWriter.ts:266-273 | adds the amount to the indentation, floored at zero |
| UnitModel.AddUsesSpec | src/UnitWriter.ts:97-113 | the clause gains the normalised id, optionally `in '<path>'`, exactly when it is new; the old entries stay and stay distinct |
| UnitModel.UsesIdSystemClasses | src/UnitWriter.ts:100-104 | `system.classes` becomes `System.Classes` |
| UnitModel.UsesIdUtils | src/UnitWriter.ts:100-104 | `utils` with path `utils.pas` becomes `Utils in 'utils.pas'` |
| UnitModel.AddTypeFirstWins | src/UnitWriter.ts:121-141 | the entry under the normalised key is the first one registered; other keys are untouched; keys stay distinct |
| UnitModel.ClassKeysExample | src/UnitWriter.ts:130 | two classes of the same name with different parents get two entries; the same parent twice gives one |
| UnitModel.TypeKeyCollision | src/UnitWriter.ts:130-135 | a function `FooBar` and a class `Foo extends Bar` share the key `FooBar`, and only the first is kept |
| UnitModel.ArgsMapSpec | src/UnitWriter.ts:172-176 | the argument record's keys are the parameter names, and each maps to the type of its last occurrence |
| UnitModel.AddImplementationGetOrCreate | src/UnitWriter.ts:159-188 | an existing key is kept unchanged; a new key is appended last, with the fresh entry, and no other key appears; keys registered before keep their values; keys stay distinct |
| UnitModel.NewImplementationFields | src/UnitWriter.ts:168-186 | a fresh entry has an empty `vars` record, maps the return type through `CommonTypes`, and has no return type when none is given |
| UnitModel.AppendToBodySpec | src/transpiler/lexers/Class.ts:48-50 | the keys are unchanged; only the entry under the key gains the statement at the end of its body |
| UnitModel.AppendStatementValid | src/transpiler/lexers/Class.ts:48-50 | appending a statement keeps the registries valid |
| Text.NormalizeAt | src/UnitWriter.ts:125-127 | the rewrite keeps the length; it upper-cases exactly the first character of each run of word characters and copies every other character |
| Text.NormalizeIdempotent | src/UnitWriter.ts:125-127 | normalising twice is the same as normalising once |
| Text.NormalizeSystemClasses | src/UnitWriter.ts:100-102 | `system.classes` normalises to `System.Classes` |
| Types.PascalTypeSpec | src/transpiler/Types.ts:96-102 | a type is translated exactly when it is one of the five common type names, and then into one of the four Pascal names |
| Types.CommonTypesExact | src/transpiler/Types.ts:96-102 | the table's keys and values are exactly the listed ones |
| Types.PascalTypeIdempotent | src/transpiler/Types.ts:96-102 | translating a translated type changes nothing |
| Types.KindTextSpec | src/transpiler/Types.ts:42-51 | the kind word is one of the five declaration kinds, and it is `class` exactly for a class |
| TypeParser.WriteDeclarations | src/transpiler/parsers/Type.ts:36-49 | appends the group's text: nothing for an empty group, otherwise the privacy word and the names one level deeper |
| TypeParser.WriteEntry | src/transpiler/parsers/Type.ts:8-32 | appends one entry's header line and its public, private and protected groups one level deeper |
| TypeParser.Parse | src/transpiler/parsers/Type.ts:5-34 | appends the text of every type entry in registration order, and leaves the indentation and registries as they were |
| TypeParser.TypesTextAppend | src/transpiler/parsers/Type.ts:7-33 | the section's text is the concatenation of the entries' texts |
| TypeParser.WithPrivacyMembers | src/transpiler/parsers/Type.ts:23-25 | a declaration is in a group exactly when it is in the body with that group's privacy |
| TypeParser.WithPrivacyTagged | src/transpiler/parsers/Type.ts:23-25 | removing the untagged declarations leaves every group as it was |
| TypeParser.UntaggedNotPrinted | src/transpiler/parsers/Type.ts:22-30 | declarations without a privacy are not printed |
| TypeParser.ClassMembersNotPrinted | src/transpiler/parsers/Type.ts:10-30 | a class's `members` record never reaches the output; an entry with no body prints only its header |
| TypeParser.ParentShown | src/transpiler/parsers/Type.ts:10-15 | the parent appears in the header exactly for a class whose parent text is present and non-empty |
| ImplementationParser.WriteExpression | src/transpiler/parsers/Implementation.ts:45-71 | throws the `getName` error exactly when the left side is not a property access and has no `getName`, writing nothing; otherwise appends the text: one `writeLine` for a left side whose name is not `this`, else the member name (or `this`) through `writeIdentated`, `write` and a bare `writeLine()` |
| ImplementationParser.WriteStatement | src/transpiler/parsers/Implementation.ts:73-91 | only an expression statement prints or throws; variable and other statements append nothing |
| ImplementationParser.ParseStatements | src/transpiler/parsers/Implementation.ts:93-97 | throws exactly when some statement throws; otherwise appends the statements' texts in order |
| ImplementationParser.WriteVars | src/transpiler/parsers/Implementation.ts:19-32 | appends a `var` block one line per declared variable, or nothing when there is none |
| ImplementationParser.WriteImplementation | src/transpiler/parsers/Implementation.ts:12-42 | throws exactly when its body does; otherwise appends the header `<kind> <name>: <returns>;`, the `var` block, and `begin`, the statements one level deeper, then `end` |
| ImplementationParser.Parse | src/transpiler/parsers/Implementation.ts:7-43 | throws exactly when some registered body throws; otherwise appends the text of every implementation in registration order, and leaves the indentation and registries as they were |
| ImplementationParser.ImplementationsTextAppend | src/transpiler/parsers/Implementation.ts:12-42 | the section's text is the concatenation of the entries' texts |
| ImplementationParser.OnlyAssignmentsPrinted | src/transpiler/parsers/Implementation.ts:45-91 | the statements print exactly as their binary-expression statements alone |
| ImplementationParser.VarDeclarationsMembers | src/transpiler/parsers/Implementation.ts:19 | a variable is listed exactly when a top-level variable statement of the body declares it |
| ImplementationParser.VarBlockPresent | src/transpiler/parsers/Implementation.ts:22-32 | the `var` block is written exactly when there is a variable |
| ImplementationParser.AssignmentPathsAgreeOnlyAtZero | src/transpiler/parsers/Implementation.ts:56-68 | a property access and a left side named other than `this` print the same text exactly at indentation zero; deeper, the property path leaves tabs before the newline |
| ImplementationParser.ThisNamedTargetLikeMember | src/transpiler/parsers/Implementation.ts:56-68 | a left side that is not a property access but is named `this` does not throw, and prints exactly like an access to a member `this` |
| ImplementationParser.NamelessTargetThrows | src/transpiler/parsers/Implementation.ts:56-58 | a left side without `getName` throws, and a body holding such an assignment anywhere throws |
| ImplementationParser.SectionThrowsStep | src/transpiler/parsers/Implementation.ts:12-42 | a section prefix one entry longer throws exactly when the shorter prefix or the new entry's body throws |
| ImplementationParser.WriteTarget | src/transpiler/parsers/Implementation.ts:63-68 | appends the member-name path: the indentation, the name, ` :<op> <right>;`, and the indentation again before the newline |
| ImplementationParser.ReceiverDropped | src/transpiler/parsers/Implementation.ts:63-68 | the receiver of a property-access target does not affect the output |
| ImplementationParser.ArgsAndVarsNotPrinted | src/transpiler/parsers/Implementation.ts:16-19 | the stored `args` and `vars` records never reach the output |
| UnitOutput.WriteHeader | src/UnitWriter.ts:303-322 | appends the unit line, a blank line, `interface`, and the `uses` clause, and leaves the indentation one level deeper |
| UnitOutput.WriteTypeBlock | src/UnitWriter.ts:324-334 | appends the `type` block when there are types, and nothing otherwise |
| UnitOutput.WriteImplementationBlock | src/UnitWriter.ts:339-348 | throws exactly when some implementation throws; otherwise appends the implementation section when there are implementations, and nothing when there are none |
| UnitOutput.WriteContents | src/UnitWriter.ts:298-351 | fails with the `getName` error exactly when some implementation throws; otherwise returns the whole buffer, the old content followed by header, type block and implementation section, with the registries and indentation unchanged |
| UnitOutput.HeaderAtZero | src/UnitWriter.ts:303-322 | from indentation zero the header is the exact literal text, including the tab-only lines after the `uses` clause |
| UnitOutput.TypeBlockPresent | src/UnitWriter.ts:324-334 | the type block is non-empty exactly when a type is registered, and then starts with the `type` line |
| UnitOutput.ImplementationBlockPresent | src/UnitWriter.ts:339-348 | the implementation section is non-empty exactly when an implementation is registered, and then starts with `implementation` |
| UnitOutput.BodyNotPrinted | src/UnitWriter.ts:298-351 | the recorded program body does not affect the output |
| ImportLexer.Lex | src/transpiler/lexers/Imports.ts:9-45 | the new state and outcome are those of the import stage run on the old state |
| ImportLexer.ReservedKeywordError | src/transpiler/lexers/Imports.ts:37-39 | the error is a transpilation error whose message begins with the backquoted name |
| ImportLexer.ExtensionClauseAlwaysHolds | src/transpiler/lexers/Imports.ts:18 | the extension test always holds, so an import is a system unit exactly when it starts with `@delphi/` |
| ImportLexer.SystemImportPasses | src/transpiler/lexers/Imports.ts:18-24 | a system import never fails and adds the unit name with its prefix removed and slashes turned into dots |
| ImportLexer.SystemUnitName | src/transpiler/lexers/Imports.ts:20-24 | the unit name is the import with the prefix removed, and has no slash |
| ImportLexer.Basename | src/transpiler/lexers/Imports.ts:34 | the last path segment without `.pas`, with no slash in it |
| ImportLexer.LastSegmentStart | src/transpiler/lexers/Imports.ts:34 | the index just after the last slash, with no slash after it |
| ImportLexer.BasenameStem | src/transpiler/lexers/Imports.ts:27-34 | the basename of `dir/stem.pas` is `stem` |
| ImportLexer.PlainImportStep | src/transpiler/lexers/Imports.ts:27-42 | a relative import whose name is not reserved adds `stem in 'stem.pas'` and passes |
| ImportLexer.UtilsImport | src/transpiler/lexers/Imports.ts:27-42 | `./utils` adds `Utils in 'utils.pas'` |
| ImportLexer.ImportFailureIsReserved | src/transpiler/lexers/Imports.ts:37-39 | the stage fails only with the reserved-keyword error of a name in the keyword list |
| ImportLexer.ReservedImportStops | src/transpiler/lexers/Imports.ts:37-39 | a reserved name stops the stage at once, with the state as it was |
| ImportLexer.ClassImportRejected | src/transpiler/lexers/Imports.ts:37-39 | `./class` is rejected with the reserved-keyword error for `class` |
| ImportLexer.SystemClassesImport | src/transpiler/lexers/Imports.ts:20-24 | `@delphi/system/classes` adds `System.Classes` |
| ImportLexer.ImportsInOrder | src/transpiler/lexers/Imports.ts:11-44 | the imports are handled one after the other: running `a + b` is running `a`, then `b` when `a` passed |
| ImportLexer.ImportsOnlyExtendUses | src/transpiler/lexers/Imports.ts:11-44 | the old `uses` is a prefix of the new; types, implementations and unit are unchanged |
| ImportLexer.ImportsKeepValid | src/transpiler/lexers/Imports.ts:11-44 | the stage keeps the registries valid |
| FunctionLexer.Lex | src/transpiler/lexers/Functions.ts:6-39 | the new state is the function stage run on the old one; the output is unchanged |
| FunctionLexer.FunctionType | src/transpiler/lexers/Functions.ts:29-34 | an exported function registers a `function` entry under its normalised name |
| FunctionLexer.FunctionStepKeeps | src/transpiler/lexers/Functions.ts:8-38 | one function keeps the registries valid, leaves `uses` and the unit alone, and never changes an existing entry |
| FunctionLexer.FunctionsKeep | src/transpiler/lexers/Functions.ts:6-39 | the same over the whole stage |
| FunctionLexer.FunctionStepRegisters | src/transpiler/lexers/Functions.ts:28-37 | a named function registers its implementation key, and its type when exported |
| FunctionLexer.FunctionStepOtherKey | src/transpiler/lexers/Functions.ts:37 | a function of another name does not register a given implementation key |
| FunctionLexer.ImplKeyInjective | src/transpiler/lexers/Functions.ts:37 | different names give different implementation keys |
| FunctionLexer.FirstFunctionWins | src/transpiler/lexers/Functions.ts:37 | the first function of a name fixes its entry: its parameters, return type and body |
| FunctionLexer.NamedFunctionRegistered | src/transpiler/lexers/Functions.ts:23-37 | every named function has an implementation entry after the stage, and an exported one also has a type entry |
| FunctionLexer.UnnamedFunctionRegistersNothing | src/transpiler/lexers/Functions.ts:10-20 | an unnamed function registers no type or implementation; as the default export it only sets the body, and otherwise changes nothing |
| FunctionLexer.ProgramBodyIsLastDefault | src/transpiler/lexers/Functions.ts:10-20 | the program body is the body of the last unnamed default export |
| FunctionLexer.NoDefaultKeepsBody | src/transpiler/lexers/Functions.ts:10-20 | with no unnamed default export the body stays as it was |
| ClassLexer.Lex | src/transpiler/lexers/Class.ts:7-26 | the new state and outcome are those of the class stage run on the old state; the output is unchanged |
| ClassLexer.ParseMembers | src/transpiler/lexers/Class.ts:28-55 | returns the member record, and the state after each initialised property has gone into the constructor |
| ClassLexer.ClassType | src/transpiler/lexers/Class.ts:19-24 | the entry is a class with the class's name, parent and member record |
| ClassLexer.ClassMembersSpec | src/transpiler/lexers/Class.ts:32-34 | the record's keys are the property names, and each maps to the type text of its last occurrence |
| ClassLexer.MemberStepSpec | src/transpiler/lexers/Class.ts:37-50 | a property without initialiser changes nothing; one with an initialiser gets or creates the constructor and appends its assignment |
| ClassLexer.MembersKeep | src/transpiler/lexers/Class.ts:32-52 | parsing members keeps the registries valid, changes only the constructor's key, and keeps the types and `uses` |
| ClassLexer.ConstructorCollects | src/transpiler/lexers/Class.ts:37-50 | after the members, the constructor body is the earlier body followed by one `this.<name> = <init>` per initialised property, in order |
| ClassLexer.CollectsInto | src/transpiler/lexers/Class.ts:37-50 | an existing constructor receives the assignments in order |
| ClassLexer.StepExtendsBase | src/transpiler/lexers/Class.ts:41-50 | one initialised property leaves the constructor as its get-or-create base plus one assignment |
| ClassLexer.ParentlessClassStops | src/transpiler/lexers/Class.ts:11-22 | a class without `extends` stops the stage with the `TypeError`, and nothing of it is registered |
| ClassLexer.ClassRegistered | src/transpiler/lexers/Class.ts:19-24 | a class with a parent passes, and its key holds its class entry unless the key was already taken |
| ClassLexer.MethodsIgnored | src/transpiler/lexers/Class.ts:13-14 | the methods and static methods do not affect the stage |
| ClassLexer.ClassesKeepValid | src/transpiler/lexers/Class.ts:7-26 | the stage keeps the registries valid and `uses` unchanged |
| ClassLexer.ClassesInOrder | src/transpiler/lexers/Class.ts:9-25 | the stage on `a + b` is the stage on `a`, then, when that passed, the stage on `b` from where it left off |
| ClassLexer.TwoClasses | src/transpiler/lexers/Class.ts:9 | two classes are handled one after the other |
| ClassLexer.SameNameClassesTwoTypes | src/transpiler/lexers/Class.ts:19-24 | two classes of one name with different parents register two type entries |
| ClassLexer.SameNameClassesShareConstructor | src/transpiler/lexers/Class.ts:41-50 | two classes of one name share one constructor holding both classes' assignments |
| Pipeline.Parse | src/UnitWriter.ts:278-292 | the new state and outcome are the three stages run in order, stopping at a failed import |
| Pipeline.ParseKeepsValid | src/UnitWriter.ts:278-292 | parsing keeps the registries valid |
| Pipeline.UsesOnlyFromImports | src/UnitWriter.ts:278-292 | the `uses` clause is exactly what the import stage made of it |
| Pipeline.ImportFailureStopsParse | src/UnitWriter.ts:278-292 | a rejected import leaves no type and no implementation, and gives no text |
| Pipeline.Transpile | src/UnitWriter.ts:353-355 | a new writer, parsed and written out, gives the text of its registries, or the error a stage or the implementation emitter threw |
| Pipeline.SampleUnitRegistries | test/in/Unit.ts:1-14 | the sample unit yields `uses` = `System.Classes`, one type key `TestThreadTThread`, and one constructor with the two assignments in order |
| Pipeline.SampleTranslates | test/in/Unit.ts:1-14 | the sample unit is written out without throwing |
| Pipeline.NamelessTargetFails | src/transpiler/parsers/Implementation.ts:56-58 | a unit whose function assigns to a target without `getName` passes every stage, then its translation fails with the `getName` error |

## Left out

- File-system path resolution (`path.resolve` and `path.relative` against the input
  directory) is a parameter `relative`. `path.basename` is modelled for POSIX separators.
- `toLocaleUpperCase` is modelled for ASCII letters only, and `\w` as ASCII letters,
  digits and `_`.
- The type checker's answers (`getType().getText()`, `getReturnType()`) and an
  initialiser's text are data of the syntax tree. The statement text that `Class.ts`
  builds and re-parses is modelled as the assignment it parses to.
- Statements of a function body other than variable and expression statements keep
  their nested statements, but the emitter never prints them or anything inside them.
- `parse()` is `async`, but every stage is synchronous. Debug logging is left out.
- `for…in` over integer-like keys visits them first, in numeric order. The model keeps
  insertion order for every key.
- The fake function that `Class.ts` adds to the source file for each initialised
  property is left out. It is added after the function stage has run, so it is never
  translated.
- `getBodyOrThrow` on an unnamed default export without a body is left out, because
  the model's function declarations always have a body.
- Classes without a name, and keys that `CommonTypes` inherits from `Object.prototype`,
  are left out.
- UnitModel.AddType: a normalised type key that names an inherited `Object.prototype`
  member (`__proto__`, `__defineGetter__`, `__defineSetter__`, `__lookupGetter__`,
  `__lookupSetter__`) is found by the `!== undefined` test of src/UnitWriter.ts:133, so
  the code never registers such a type; the model's registry has no inherited members
  and registers it like any other key, and the type section then prints it.
- `src/Transpiler.ts`, which reads files, walks directories, picks the unit kind and
  writes the output, is not part of this model. `Transpile` starts where it creates the
  writer.
- ClassLexer.ClassMembers: the member record maps each name to its type text only.
  The `static` flag of the declared record type is never filled in by the code.
- UnitWriter.UnitWriter.AddImplementation returns the stored entry as a value. The
  caller in `Class.ts` that mutates the returned object is modelled as
  `AppendToBody` under the same key.
- ImplementationParser.WriteExpression: which node kinds have a `getName` method, and
  what it answers, is taken from the syntax tree (`Plain.name`). The library's node
  classes are not part of this model.
- ImplementationParser.ParseStatements and the other emitters do not state the partial
  text in the buffer when a statement throws. The throw escapes `writeContents`, so that
  text is never returned.
- ClassLexer.MissingParentError and ImplementationParser.GetNameError: the message text
  of each `TypeError` is the JavaScript engine's, not the program's.
