/**
 What the recursive-descent scanner reads (include/varlink/detail/scanner.hpp and the
 constructor in source/interface.cpp), as functions on the text that is still unread.

 Positions are counted from the end of the description, so that they do not depend on
 the part already consumed.
 */
module Grammar {
  import opened Wrappers
  import opened TypeSpecs
  import opened Lexer

  /** The documentation captured since it was last taken: a stretch of the description. */
  datatype Doc = NoDoc | Span(from: nat, upto: nat)

  datatype Cursor = Cursor(rest: string, doc: Doc)

  datatype Read<T> = Read(value: T, next: Cursor)

  /** `NoMatch` and `Unexpected` are runtime errors, the other two invalid arguments. */
  datatype ParseError = NoMatch | Unexpected | DuplicateMember | NoMembers

  type Reading<T> = Result<Read<T>, ParseError>

  // ----- Tokens -----

  /** The captured stretch grows to the end of the last comment line in the skipped space. */
  function Capture(doc: Doc, rest: string, space: nat): Doc
    requires space <= |rest|
  {
    match LastComment(rest[..space])
    case None => doc
    case Some(last) =>
      var from := if doc.Span? then doc.from else |rest| - FirstComment(rest[..space]).value;
      Span(from, |rest| - last)
  }

  function SkipSpace(c: Cursor): (c': Cursor)
    ensures |c'.rest| <= |c.rest|
  {
    var n := SpaceLength(c.rest);
    Cursor(c.rest[n..], Capture(c.doc, c.rest, n))
  }

  /** At the end of the description every pattern reads the empty token. */
  function Expect(p: Pattern, c: Cursor): (r: Reading<string>)
    ensures r.Ok? ==> |r.value.next.rest| + |r.value.value| <= |c.rest|
    ensures r.Ok? && r.value.value == "" ==> r.value.next.rest == ""
  {
    var c' := SkipSpace(c);
    var n := MatchLength(p, c'.rest);
    if c'.rest == "" then Ok(Read("", c'))
    else if n > 0 then Ok(Read(c'.rest[..n], Cursor(c'.rest[n..], c'.doc)))
    else Err(NoMatch)
  }

  /** Where `expect` leaves the scanner; when it fails it has skipped the white space. */
  function AfterExpect(p: Pattern, c: Cursor): Cursor {
    match Expect(p, c)
    case Ok(read) => read.next
    case Err(_) => SkipSpace(c)
  }

  function ExpectKeyword(keyword: string, c: Cursor): (r: Reading<()>)
    ensures r.Ok? ==> |r.value.next.rest| + |keyword| <= |c.rest|
  {
    var token :- Expect(Keyword, c);
    if token.value == keyword then Ok(Read((), token.next)) else Err(Unexpected)
  }

  // ----- Types -----

  function ReadTypeSpec(c: Cursor, wasMaybe: bool): (r: Reading<TypeSpec>)
    ensures r.Ok? ==> |r.value.next.rest| <= |c.rest|
    decreases |c.rest|, 2
  {
    var token :- Expect(KeywordOrMember, c);
    if token.value == "?" then
      if wasMaybe then Err(Unexpected)
      else
        var t :- ReadTypeSpec(token.next, true);
        Ok(Read(t.value.(maybeType := true), t.next))
    else if token.value == "[string]" then
      var t :- ReadTypeSpec(token.next, false);
      Ok(Read(t.value.(dictType := true), t.next))
    else if token.value == "[]" then
      var t :- ReadTypeSpec(token.next, false);
      Ok(Read(t.value.(arrayType := true), t.next))
    else if token.value == "(" then
      var t :- ReadStructBody(token.next);
      Ok(Read(Bare(t.value), t.next))
    else Ok(Read(Bare(Named(token.value)), token.next))
  }

  function ReadStruct(c: Cursor): (r: Reading<Type>)
    ensures r.Ok? ==> |r.value.next.rest| < |c.rest|
  {
    var open :- ExpectKeyword("(", c);
    ReadStructBody(open.next)
  }

  /** Behind the opening bracket; the end of the description counts as a closing one. */
  function ReadStructBody(c: Cursor): (r: Reading<Type>)
    ensures r.Ok? ==> |r.value.next.rest| <= |c.rest|
    decreases |c.rest|, 1, 0
  {
    match Expect(ClosingBracket, c)
    case Ok(close) => Ok(Read(Struct([]), close.next))
    case Err(_) => ReadFields(SkipSpace(c), Invalid)
  }

  /** What is collected after one more field, and the keyword behind it. */
  datatype Field = Field(fields: Type, separator: string)

  /** The loop of `read_struct`: `fields` is `Invalid` until the first separator tells the kind. */
  function ReadFields(c: Cursor, fields: Type): (r: Reading<Type>)
    ensures r.Ok? ==> |r.value.next.rest| <= |c.rest|
    decreases |c.rest|, 0, 1
  {
    var field :- ReadField(c, fields);
    if field.value.separator == ")" then Ok(Read(field.value.fields, field.next))
    else ReadFields(field.next, field.value.fields)
  }

  function ReadField(c: Cursor, fields: Type): (r: Reading<Field>)
    ensures r.Ok? ==> |r.value.next.rest| < |c.rest|
    decreases |c.rest|, 0, 0
  {
    var name :- Expect(Identifier, c);
    var keyword :- Expect(Keyword, name.next);
    var known :- KindOf(fields, keyword.value);
    if known.Struct? && keyword.value == ":" then
      var spec :- ReadTypeSpec(keyword.next, false);
      var separator :- Expect(Keyword, spec.next);
      Ok(Read(Field(Struct(known.params + [Param(name.value, spec.value)]), separator.value), separator.next))
    else if known.Enum? && (keyword.value == "," || keyword.value == ")") then
      Ok(Read(Field(Enum(known.values + [name.value]), keyword.value), keyword.next))
    else Err(Unexpected)
  }

  lemma FieldsFromField(c: Cursor, fields: Type)
    ensures ReadFields(c, fields)
         == match ReadField(c, fields)
            case Err(e) => Err(e)
            case Ok(field) =>
              if field.value.separator == ")" then Ok(Read(field.value.fields, field.next))
              else ReadFields(field.next, field.value.fields)
  {
    hide ReadField;
  }

  function KindOf(fields: Type, keyword: string): Result<Type, ParseError> {
    if !fields.Invalid? then Ok(fields)
    else if keyword == ":" then Ok(Struct([]))
    else if keyword == "," then Ok(Enum([]))
    else Err(Unexpected)
  }

  // ----- Members and the interface -----

  function ReadMethodSpec(c: Cursor): (r: Reading<TypeSpec>)
    ensures r.Ok? ==> |r.value.next.rest| <= |c.rest|
  {
    var parameters :- ReadStruct(c);
    var arrow :- ExpectKeyword("->", parameters.next);
    var returned :- ReadStruct(arrow.next);
    Ok(Read(MethodType(Bare(parameters.value), Bare(returned.value)), returned.next))
  }

  function MethodType(parameters: TypeSpec, returned: TypeSpec): TypeSpec {
    Bare(Struct([Param("parameters", parameters), Param("return_value", returned)]))
  }

  function KindOfKeyword(keyword: string): Result<MemberKind, ParseError> {
    if keyword == "type" then Ok(TypeMember)
    else if keyword == "error" then Ok(ErrorMember)
    else if keyword == "method" then Ok(MethodMember)
    else if keyword == "" then Ok(Undefined)
    else Err(Unexpected)
  }

  /** The captured stretch as text of the description `desc`. */
  function DocText(desc: string, doc: Doc): string {
    if doc.Span? && doc.upto <= doc.from <= |desc| then desc[|desc| - doc.from..|desc| - doc.upto] else ""
  }

  /** Taking the documentation, which starts a new capture. */
  function TakeDoc(c: Cursor): Cursor {
    c.(doc := NoDoc)
  }

  function ReadMember(desc: string, c: Cursor): (r: Reading<Member>)
    ensures r.Ok? ==> |r.value.next.rest| <= |c.rest|
    ensures r.Ok? && !r.value.value.kind.Undefined? ==> |r.value.next.rest| < |c.rest|
  {
    var keyword :- Expect(Keyword, c);
    var kind :- KindOfKeyword(keyword.value);
    var name :- Expect(MemberName, keyword.next);
    var description := DocText(desc, name.next.doc);
    var data :- if kind.MethodMember? then ReadMethodSpec(TakeDoc(name.next)) else ReadTypeSpec(TakeDoc(name.next), false);
    Ok(Read(Member(kind, name.value, description, data.value), data.next))
  }

  predicate HasName(ms: seq<Member>, name: string) {
    exists m :: m in ms && m.name == name
  }

  /** The constructor's loop; at the end of the description a member reads as `Undefined`. */
  function ReadMembers(desc: string, c: Cursor, members: seq<Member>): Result<seq<Member>, ParseError>
    decreases |c.rest|
  {
    var m :- ReadMember(desc, c);
    if m.value.kind.Undefined? then Ok(members)
    else if HasName(members, m.value.name) then Err(DuplicateMember)
    else ReadMembers(desc, m.next, members + [m.value])
  }

  function ParseInterface(desc: string): Result<Interface, ParseError> {
    var keyword :- ExpectKeyword("interface", Cursor(desc, NoDoc));
    var name :- Expect(InterfaceName, keyword.next);
    var members :- ReadMembers(desc, TakeDoc(name.next), []);
    if members == [] then Err(NoMembers)
    else Ok(Interface(name.value, DocText(desc, name.next.doc), members))
  }
}
