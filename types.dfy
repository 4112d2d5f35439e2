/** The declaration records shared by the lexers, the unit writer and the emitters. */
module Types {
  import opened Common
  import opened Ast

  /** The optional visibility tag of a declaration. */
  datatype Privacy = Public | Private | Protected

  /** The kinds a non-class declaration can have. */
  datatype TypeKind = Struct | Var | Const | Function

  /** A type-section declaration, as a tagged variant. Every variant has a name, an
      optional privacy tag and an optional body of nested declarations; only the class
      variant has a parent text (the `extends` field) and a member map. The member map holds, for
      each property name, the declared type text, which is what the class stage stores. */
  datatype Declaration =
    | Simple(kind: TypeKind, name: string, privacy: Option<Privacy>, body: Option<seq<Declaration>>)
    | Class(name: string, privacy: Option<Privacy>, body: Option<seq<Declaration>>,
            parent: Option<string>, members: Option<map<string, string>>)

  /** The text of a declaration kind as it is printed in the type section. */
  function KindText(d: Declaration): string
  {
    match d
    case Class(_, _, _, _, _) => "class"
    case Simple(k, _, _, _) =>
      match k
      case Struct => "struct"
      case Var => "var"
      case Const => "const"
      case Function => "function"
  }

  /** The kinds of an implementation entry. */
  datatype ImplKind = ProcedureImpl | FunctionImpl | ConstructorImpl

  function ImplKindText(k: ImplKind): string
  {
    match k
    case ProcedureImpl => "procedure"
    case FunctionImpl => "function"
    case ConstructorImpl => "constructor"
  }

  /** An implementation entry: kind and name are always present; the argument and
      variable maps (name to type text) and the Pascal return type are optional. */
  datatype ImplementationDeclaration = ImplementationDeclaration(
    kind: ImplKind,
    name: string,
    args: Option<map<string, string>>,
    returnType: Option<string>,
    vars: Option<map<string, string>>,
    body: seq<Statement>)

  /** The table of TypeScript primitive type names with a Pascal counterpart. */
  const CommonTypes: map<string, string> :=
    map["string" := "String", "number" := "Float", "int" := "Integer",
        "boolean" := "Boolean", "bool" := "Boolean"]

  /** `CommonTypes[text] || text`: the Pascal name of a primitive, any other text unchanged. */
  function PascalType(text: string): string
  {
    if text in CommonTypes then CommonTypes[text] else text
  }

  /** Exactly the five primitive names are rewritten, each to a Pascal primitive; every
      other type text passes through unchanged. */
  lemma PascalTypeSpec(text: string)
    ensures text in {"string", "number", "int", "boolean", "bool"} <==> PascalType(text) != text
    ensures PascalType(text) in {"String", "Float", "Integer", "Boolean"} || PascalType(text) == text
  {
  }

  /** The kind text is `class` exactly for the class variant. */
  lemma KindTextSpec(d: Declaration)
    ensures KindText(d) in {"struct", "var", "const", "function", "class"}
    ensures KindText(d) == "class" <==> d.Class?
  {
  }

  /** The table is applied once: its outputs are not among its inputs, so applying it
      again changes nothing. */
  lemma PascalTypeIdempotent(text: string)
    ensures PascalType(PascalType(text)) == PascalType(text)
  {
  }

  /** The table has exactly these five keys. */
  lemma CommonTypesExact()
    ensures CommonTypes.Keys == {"string", "number", "int", "boolean", "bool"}
    ensures CommonTypes.Values == {"String", "Float", "Integer", "Boolean"}
  {
  }
}
