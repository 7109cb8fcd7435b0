/**
 The pretty-printer (source/member.cpp, and `operator<<` in source/interface.cpp:100-107):
 the text it writes as functions, and the appending loops that write it.
 */
module Printer {
  import opened TypeSpecs

  const DEFAULT_INDENT := 4

  function Spaces(n: nat): string {
    seq(n, _ => ' ')
  }

  /** Structs get one field per line when they are large or hold arrays or other structs. */
  predicate IsMultiline(ty: Type, indent: int) {
    && indent >= 0
    && ty.Struct?
    && (|ty.params| > 2 || exists p :: p in ty.params && (p.spec.arrayType || p.spec.ty.Struct?))
  }

  function Margin(ty: Type, indent: int, depth: nat): string {
    if IsMultiline(ty, indent) then Spaces(indent * (depth + 1)) else ""
  }

  function Separator(ty: Type, indent: int): string {
    if IsMultiline(ty, indent) then ",\n" else ", "
  }

  function Opening(ty: Type, indent: int): string {
    if IsMultiline(ty, indent) then "(\n" else "("
  }

  function Closing(ty: Type, indent: int, depth: nat): string {
    if IsMultiline(ty, indent) then "\n" + Spaces(indent * depth) + ")" else ")"
  }

  function Prefixes(t: TypeSpec): string {
    (if t.maybeType then "?" else "")
    + (if t.arrayType then "[]" else "")
    + (if t.dictType then "[string]" else "")
  }

  /** The text of a type; the prefixes of `t` itself are the caller's business. */
  function TypeText(ty: Type, indent: int, depth: nat): string
    decreases ty, 1, 0
  {
    match ty
    case Named(name) => name
    case Invalid => "()"
    case _ => Opening(ty, indent) + ItemsFrom(ty, 0, indent, depth) + Closing(ty, indent, depth)
  }

  function NumItems(ty: Type): nat
    requires ty.Enum? || ty.Struct?
  {
    if ty.Enum? then |ty.values| else |ty.params|
  }

  function ItemText(ty: Type, i: nat, indent: int, depth: nat): string
    requires (ty.Enum? || ty.Struct?) && i < NumItems(ty)
    decreases ty, 0, 0
  {
    if ty.Enum? then ty.values[i]
    else
      var p := ty.params[i];
      p.name + ": " + Prefixes(p.spec) + TypeText(p.spec.ty, indent, depth + 1)
  }

  /** Item `i` and the following ones, with a separator before every item but item 0. */
  function ItemsFrom(ty: Type, i: nat, indent: int, depth: nat): string
    requires (ty.Enum? || ty.Struct?) && i <= NumItems(ty)
    decreases ty, 0, 1 + NumItems(ty) - i
  {
    if i == NumItems(ty) then ""
    else
      (if i == 0 then "" else Separator(ty, indent))
      + (Margin(ty, indent, depth) + (ItemText(ty, i, indent, depth) + ItemsFrom(ty, i + 1, indent, depth)))
  }

  /** What the parser guarantees about methods, and the printer relies on. */
  predicate HasMethodTypes(m: Member) {
    m.kind.MethodMember? && m.data.ty.Struct? ==> |m.data.ty.params| >= 2
  }

  function MemberText(m: Member): string
    requires HasMethodTypes(m)
  {
    match m.kind
    case Undefined => ""
    case TypeMember => m.description + "type " + m.name + " " + TypeText(m.data.ty, DEFAULT_INDENT, 0) + "\n"
    case ErrorMember => m.description + "error " + m.name + " " + TypeText(m.data.ty, -1, 0) + "\n"
    case MethodMember =>
      m.description + "method " + m.name
      + if m.data.ty.Struct? then
          TypeText(m.data.ty.params[0].spec.ty, -1, 0) + " -> "
          + TypeText(m.data.ty.params[1].spec.ty, DEFAULT_INDENT, 0) + "\n"
        else "brokey " + m.name
  }

  function MembersText(ms: seq<Member>, i: nat): string
    requires i <= |ms| && forall m | m in ms :: HasMethodTypes(m)
    decreases |ms| - i
  {
    if i == |ms| then "" else "\n" + (MemberText(ms[i]) + MembersText(ms, i + 1))
  }

  function InterfaceText(i: Interface): string
    requires forall m | m in i.members :: HasMethodTypes(m)
  {
    i.documentation + "interface " + i.name + "\n" + MembersText(i.members, 0)
  }

  // ----- The loops -----

  /** One round of the loops of `to_string`. */
  lemma NextItem(s: string, ty: Type, i: nat, indent: int, depth: nat)
    requires (ty.Enum? || ty.Struct?) && i < NumItems(ty)
    ensures var separated := if i == 0 then s else s + Separator(ty, indent);
            separated + Margin(ty, indent, depth) + ItemText(ty, i, indent, depth) + ItemsFrom(ty, i + 1, indent, depth)
            == s + ItemsFrom(ty, i, indent, depth)
  {
    var sep := if i == 0 then "" else Separator(ty, indent);
    var separated := if i == 0 then s else s + Separator(ty, indent);
    assert separated == s + sep;
    Regroup(s, sep, Margin(ty, indent, depth), ItemText(ty, i, indent, depth), ItemsFrom(ty, i + 1, indent, depth));
  }

  lemma Regroup(a: string, b: string, c: string, d: string, e: string)
    ensures a + b + c + d + e == a + (b + (c + (d + e)))
  {
  }

  method ToString(elem: TypeSpec, indent: int, depth: nat) returns (s: string)
    ensures s == TypeText(elem.ty, indent, depth)
    decreases elem.ty, 1
  {
    if elem.ty.Named? {
      return elem.ty.name;
    }
    if elem.ty.Invalid? {
      return "()";
    }
    var ty := elem.ty;
    var spaces, sep := Margin(ty, indent, depth), Separator(ty, indent);
    s := Opening(ty, indent);
    var first := true;
    ghost var whole := s + ItemsFrom(ty, 0, indent, depth);
    for i := 0 to NumItems(ty)
      invariant first <==> i == 0
      invariant s + ItemsFrom(ty, i, indent, depth) == whole
    {
      NextItem(s, ty, i, indent, depth);
      var item := ItemToString(ty, i, indent, depth);
      if first { first := false; } else { s := s + sep; }
      s := s + spaces + item;
    }
    s := s + Closing(ty, indent, depth);
  }

  method ItemToString(ty: Type, i: nat, indent: int, depth: nat) returns (s: string)
    requires (ty.Enum? || ty.Struct?) && i < NumItems(ty)
    ensures s == ItemText(ty, i, indent, depth)
    decreases ty, 0
  {
    if ty.Enum? {
      return ty.values[i];
    }
    var p := ty.params[i];
    s := p.name + ": ";
    if p.spec.maybeType { s := s + "?"; }
    if p.spec.arrayType { s := s + "[]"; }
    if p.spec.dictType { s := s + "[string]"; }
    assert s == p.name + ": " + Prefixes(p.spec);
    var inner := ToString(p.spec, indent, depth + 1);
    s := s + inner;
  }

  method PrintMember(os: string, m: Member) returns (os': string)
    requires HasMethodTypes(m)
    ensures os' == os + MemberText(m)
  {
    var s := "";
    match m.kind {
      case Undefined =>
      case TypeMember =>
        var t := ToString(m.data, DEFAULT_INDENT, 0);
        s := m.description + "type " + m.name + " " + t + "\n";
      case ErrorMember =>
        var t := ToString(m.data, -1, 0);
        s := m.description + "error " + m.name + " " + t + "\n";
      case MethodMember =>
        s := m.description + "method " + m.name;
        if m.data.ty.Struct? {
          var parameters := ToString(m.data.ty.params[0].spec, -1, 0);
          var returned := ToString(m.data.ty.params[1].spec, DEFAULT_INDENT, 0);
          s := s + (parameters + " -> " + returned + "\n");
        } else {
          s := s + ("brokey " + m.name);
        }
    }
    os' := os + s;
  }

  method PrintInterface(os: string, i: Interface) returns (os': string)
    requires forall m | m in i.members :: HasMethodTypes(m)
    ensures os' == os + InterfaceText(i)
  {
    hide MemberText;
    var header := i.documentation + "interface " + i.name + "\n";
    var body := "";
    for k := 0 to |i.members|
      invariant body + MembersText(i.members, k) == MembersText(i.members, 0)
    {
      var next := PrintMember("\n", i.members[k]);
      assert MembersText(i.members, k) == next + MembersText(i.members, k + 1);
      body := body + next;
    }
    os' := os + (header + body);
  }
}
