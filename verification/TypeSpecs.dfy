/** The types of the interface language (include/varlink/detail/member.hpp). */
module TypeSpecs {
  import opened Wrappers

  /** The variant `type_def`: a type name, an enum, a struct, or nothing yet. */
  datatype Type =
    | Invalid
    | Named(name: string)
    | Enum(values: seq<string>)
    | Struct(params: seq<Param>)

  datatype Param = Param(name: string, spec: TypeSpec)

  /** A type with its collected prefixes: `?`, `[string]` and `[]`. */
  datatype TypeSpec = TypeSpec(ty: Type, maybeType: bool, dictType: bool, arrayType: bool)

  function Bare(ty: Type): TypeSpec {
    TypeSpec(ty, false, false, false)
  }

  predicate Flagged(t: TypeSpec) {
    t.arrayType || t.dictType
  }

  datatype MemberKind = Undefined | TypeMember | ErrorMember | MethodMember

  datatype Member = Member(kind: MemberKind, name: string, description: string, data: TypeSpec)

  datatype Interface = Interface(name: string, documentation: string, members: seq<Member>)

  /** The first member with this name and kind; `Undefined` asks for any kind. */
  function FindMember(ms: seq<Member>, name: string, kind: MemberKind): (r: Option<Member>)
    ensures r.Some? ==> r.value in ms && r.value.name == name && (kind.Undefined? || r.value.kind == kind)
    ensures r.None? ==> forall m | m in ms && m.name == name :: !kind.Undefined? && m.kind != kind
  {
    if ms == [] then None
    else if ms[0].name == name && (ms[0].kind == kind || kind.Undefined?) then Some(ms[0])
    else FindMember(ms[1..], name, kind)
  }
}
