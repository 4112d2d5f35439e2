/** The abstract syntax the translation stages read: the parts of a TypeScript source
    file that the lexers and emitters look at, with every name, type text and
    initializer text already supplied as a string. */
module Ast {
  import opened Common

  /** A parameter: its name and its type as text. */
  datatype Param = Param(name: string, typeText: string)

  /** One declarator of a `let`/`const`/`var` statement. */
  datatype VarDecl = VarDecl(name: string, typeText: string)

  /** The left operand of a binary expression: a property access `receiver.member`, or
      any other expression (`Plain`), with its source text and what calling `getName()`
      on that node gives. `name` is `None` when the node's kind has no `getName` method,
      so that the call throws. */
  datatype Operand =
    | Plain(text: string, name: Option<string>)
    | PropAccess(receiver: string, member: string)

  datatype Expression =
    | Binary(left: Operand, op: string, right: string)
    | OtherExpr(kind: string)

  /** A statement. `Other` covers every other kind (loops, conditionals, returns, calls in
      statement position, blocks), with the statements nested inside it. */
  datatype Statement =
    | VarStmt(decls: seq<VarDecl>)
    | ExprStmt(expr: Expression)
    | Other(kind: string, nested: seq<Statement>)

  /** A top-level function declaration. `returnType` is the return type as the front-end
      reports it (inferred when not written). */
  datatype FunctionDecl = FunctionDecl(
    name: Option<string>,
    exported: bool,
    defaultExport: bool,
    params: seq<Param>,
    returnType: string,
    body: seq<Statement>)

  /** A class property: name, declared type text, and the initializer's text if any. */
  datatype Property = Property(name: string, typeText: string, initializer: Option<string>)

  /** A class declaration. `parent` is the text of the `extends` clause, absent when the
      class has none; methods are listed by name only, since nothing registers them. */
  datatype ClassDecl = ClassDecl(
    name: string,
    parent: Option<string>,
    properties: seq<Property>,
    methods: seq<string>,
    staticMethods: seq<string>)

  /** What the stages read from one file, in declaration order. */
  datatype SourceFile = SourceFile(
    imports: seq<string>,
    functions: seq<FunctionDecl>,
    classes: seq<ClassDecl>)
}
