/**
 The scanner itself: a position and a documentation view that every `expect` moves
 forward (include/varlink/detail/scanner.hpp), and the interface constructor's loop.
 Each method does what the functions of `Grammar` say.
 */
module Scanning {
  import opened Wrappers
  import opened TypeSpecs
  import opened Lexer
  import opened Grammar

  // ----- Searching documentation -----

  datatype Match = Match(at: nat, length: nat)

  /** The leftmost match of `(?:[^\n]*)#([^\n]*)\r?\n`. */
  function SearchDocstring(s: string): (r: Option<Match>)
    ensures r.Some? ==> 0 < r.value.length <= r.value.at + r.value.length <= |s|
  {
    match FirstComment(s)
    case Some(f) => FirstLineFits(s); Some(Match(f, LineLength(s[f..])))
    case None => None
  }

  lemma FirstLineFits(s: string)
    requires FirstComment(s).Some?
    ensures s[FirstComment(s).value..] != "" && LineLength(s[FirstComment(s).value..]) > 0
  {
  }

  // ----- Where comment lines end -----

  /** The `#` at `i` is on the line that ends in front of `e`. */
  predicate HashOnLine(s: string, i: nat, e: nat) {
    i < e <= |s| && s[i] == '#' && forall j | i <= j < e - 1 :: s[j] != '\n'
  }

  /** A newline-terminated line with a `#` in it ends in front of `e`. */
  ghost predicate CommentEnd(s: string, e: nat) {
    0 < e <= |s| && s[e - 1] == '\n' && exists i: nat :: HashOnLine(s, i, e)
  }

  lemma {:induction false} FirstLine(s: string)
    requires s != ""
    ensures forall j | 0 <= j < LineLength(s) - 1 :: s[j] != '\n'
    ensures LineLength(s) < |s| ==> s[LineLength(s) - 1] == '\n'
  {
    if s[0] != '\n' && |s| > 1 {
      FirstLine(s[1..]);
    }
  }

  /** The comment ends behind a line end `m` are the same when fewer characters are dropped. */
  lemma BehindLineEnd(s: string, z: nat, m: nat, e: nat)
    requires z <= m < e <= |s| && (m == 0 || s[m - 1] == '\n')
    ensures CommentEnd(s, e) <==> CommentEnd(s[z..], e - z)
  {
    if CommentEnd(s, e) {
      var i: nat :| HashOnLine(s, i, e);
      assert m <= i;
      assert HashOnLine(s[z..], i - z, e - z);
    }
    if CommentEnd(s[z..], e - z) {
      AheadOf(s, z, e - z);
    }
  }

  lemma AheadOf(s: string, z: nat, e: nat)
    requires z <= |s| && CommentEnd(s[z..], e)
    ensures CommentEnd(s, z + e)
  {
    var i: nat :| HashOnLine(s[z..], i, e);
    assert s[z + i] == '#' && s[z + e - 1] == '\n';
    forall j | z + i <= j < z + e - 1 ensures s[j] != '\n' {
      assert s[j] == s[z..][j - z];
    }
    assert HashOnLine(s, z + i, z + e);
  }

  lemma FirstLineEnd(s: string, e: nat)
    requires s != "" && e <= LineLength(s)
    ensures CommentEnd(s, e) <==> e == LineLength(s) && StartsWithComment(s)
  {
    hide LineLength;
    var n := LineLength(s);
    FirstLine(s);
    if CommentEnd(s, e) {
      var i: nat :| HashOnLine(s, i, e);
      assert e == n && s[..n][i] == '#';
    }
    if StartsWithComment(s) {
      var i :| 0 <= i < n && s[..n][i] == '#';
      assert HashOnLine(s, i, n);
    }
  }

  /** `LastComment` is the greatest comment end. */
  lemma {:induction false} LastIsGreatest(s: string)
    ensures match LastComment(s)
            case None => forall e: nat :: !CommentEnd(s, e)
            case Some(k) => CommentEnd(s, k) && forall e: nat | CommentEnd(s, e) :: e <= k
    decreases |s|
  {
    hide LineLength, CommentEnd, StartsWithComment;
    if s == "" {
      forall e: nat ensures !CommentEnd(s, e) { NoneIn(s, e); }
    } else {
      var n := LineLength(s);
      LastIsGreatest(s[n..]);
      FirstLine(s);
      forall e: nat ensures CommentEnd(s, e) ==> e <= |s| { NoneIn(s, e); }
      forall e: nat | e <= n ensures CommentEnd(s, e) <==> e == n && StartsWithComment(s) { FirstLineEnd(s, e); }
      forall e: nat | n < e <= |s| ensures CommentEnd(s, e) <==> CommentEnd(s[n..], e - n) { BehindLineEnd(s, n, n, e); }
      if LastComment(s[n..]).Some? {
        var k := LastComment(s[n..]).value;
        NoneIn(s[n..], k);
        assert CommentEnd(s, n + k);
      }
    }
  }

  lemma NoneIn(s: string, e: nat)
    ensures CommentEnd(s, e) ==> 0 < e <= |s|
  {
  }

  /** The first match of the search ends at the least comment end. */
  lemma {:induction false} FirstIsLeast(s: string)
    requires FirstComment(s).Some?
    ensures var m := FirstComment(s).value + LineLength(s[FirstComment(s).value..]);
            CommentEnd(s, m) && s[m - 1] == '\n' && forall e: nat | CommentEnd(s, e) :: m <= e
    decreases |s|
  {
    hide LineLength, CommentEnd, StartsWithComment;
    var n := LineLength(s);
    FirstLine(s);
    forall e: nat | e <= n ensures CommentEnd(s, e) <==> e == n && StartsWithComment(s) { FirstLineEnd(s, e); }
    forall e: nat ensures CommentEnd(s, e) ==> e <= |s| { NoneIn(s, e); }
    if StartsWithComment(s) {
      assert s[0..] == s;
      EndsWithNewline(s, n);
    } else {
      forall e: nat | n < e <= |s| ensures CommentEnd(s, e) <==> CommentEnd(s[n..], e - n) { BehindLineEnd(s, n, n, e); }
      FirstIsLeast(s[n..]);
      var f := FirstComment(s[n..]).value;
      assert s[n..][f..] == s[n + f..];
      var k := f + LineLength(s[n..][f..]);
      NoneIn(s[n..], k);
      assert CommentEnd(s, n + k);
      EndsWithNewline(s, n + k);
    }
  }

  lemma EndsWithNewline(s: string, e: nat)
    requires CommentEnd(s, e)
    ensures 0 < e <= |s| && s[e - 1] == '\n'
  {
  }

  /**
   Dropping as many characters as the match is long, rather than up to its end, loses no
   later comment: the next search ends where the last comment ends, or finds nothing more.
   */
  lemma {:induction false} DropMatchLength(s: string)
    requires FirstComment(s).Some?
    ensures var f := FirstComment(s).value;
            var z := LineLength(s[f..]);
            && f + z <= |s|
            && match LastComment(s[z..])
               case None => LastComment(s) == Some(f + z)
               case Some(k) => LastComment(s) == Some(z + k)
  {
    hide LineLength, StartsWithComment, LastComment, FirstComment, LeastEnd, GreatestEnd, NoEnd;
    var f := FirstComment(s).value;
    var z := LineLength(s[f..]);
    FirstEndIs(s);
    LastEndIs(s);
    match LastComment(s[z..])
    case None =>
      NoEndIs(s[z..]);
      NoneLeft(s, z, f + z, LastComment(s).value);
    case Some(k) =>
      LastEndIs(s[z..]);
      SomeLeft(s, z, f + z, LastComment(s).value, k);
  }

  ghost predicate LeastEnd(s: string, m: nat) {
    CommentEnd(s, m) && forall e: nat | CommentEnd(s, e) :: m <= e
  }

  ghost predicate GreatestEnd(s: string, k: nat) {
    CommentEnd(s, k) && forall e: nat | CommentEnd(s, e) :: e <= k
  }

  ghost predicate NoEnd(s: string) {
    forall e: nat :: !CommentEnd(s, e)
  }

  lemma FirstEndIs(s: string)
    requires FirstComment(s).Some?
    ensures var m := FirstComment(s).value + LineLength(s[FirstComment(s).value..]);
            m <= |s| && LeastEnd(s, m)
  {
    hide LineLength, CommentEnd, FirstComment;
    FirstIsLeast(s);
    NoneIn(s, FirstComment(s).value + LineLength(s[FirstComment(s).value..]));
  }

  lemma LastEndIs(s: string)
    requires LastComment(s).Some?
    ensures GreatestEnd(s, LastComment(s).value)
  {
    hide LineLength, CommentEnd, LastComment;
    LastIsGreatest(s);
  }

  lemma NoEndIs(s: string)
    requires LastComment(s).None?
    ensures NoEnd(s)
  {
    hide LineLength, CommentEnd, LastComment;
    LastIsGreatest(s);
  }

  lemma NoneLeft(s: string, z: nat, m: nat, last: nat)
    requires z <= m <= |s| && LeastEnd(s, m) && GreatestEnd(s, last) && NoEnd(s[z..])
    ensures last == m
  {
    hide CommentEnd;
    NoneIn(s, last);
    EndsWithNewline(s, m);
    if m < last {
      BehindLineEnd(s, z, m, last);
    }
  }

  lemma SomeLeft(s: string, z: nat, m: nat, last: nat, k: nat)
    requires z <= m <= |s| && LeastEnd(s, m) && GreatestEnd(s, last) && GreatestEnd(s[z..], k)
    ensures last == z + k
  {
    hide CommentEnd;
    NoneIn(s, last);
    EndsWithNewline(s, m);
    AheadOf(s, z, k);
    if m < last {
      BehindLineEnd(s, z, m, last);
    }
  }

  /** Every match found later ends behind the start of the first one. */
  lemma {:induction false} MatchEndsBehindFirst(s: string, j: nat)
    requires j <= |s| && FirstComment(s[j..]).Some? && FirstComment(s).Some?
    ensures FirstComment(s).value < j + FirstComment(s[j..]).value + LineLength(s[j..][FirstComment(s[j..]).value..])
  {
    hide LineLength, CommentEnd, StartsWithComment, LastComment, FirstComment;
    FirstIsLeast(s);
    FirstIsLeast(s[j..]);
    FirstLineFits(s);
    AheadOf(s, j, FirstComment(s[j..]).value + LineLength(s[j..][FirstComment(s[j..]).value..]));
  }

  // ----- The scanner -----

  /** A method's result and the state it leaves, against what `Grammar` reads. */
  ghost predicate Agrees<T>(r: Result<T, ParseError>, after: Cursor, spec: Reading<T>) {
    match spec
    case Ok(read) => r == Ok(read.value) && after == read.next
    case Err(e) => r == Err(e)
  }

  class Scanner {
    const desc: string
    var pos: nat
    /** The view `current_doc_` into the description; its length is 0 when nothing is captured. */
    var docBegin: nat
    var docLength: nat

    ghost predicate Valid()
      reads this
    {
      pos <= |desc| && (docLength > 0 ==> docBegin + docLength <= pos)
    }

    ghost function View(): Cursor
      requires Valid()
      reads this
    {
      Cursor(desc[pos..],
             if docLength == 0 then NoDoc else Span(|desc| - docBegin, |desc| - docBegin - docLength))
    }

    constructor (description: string)
      ensures Valid() && desc == description && View() == Cursor(description, NoDoc)
    {
      desc := description;
      pos, docBegin, docLength := 0, 0, 0;
    }

    /** The search loop over the white space `space` that starts at `pos`. */
    method CaptureDocstrings(space: string)
      requires Valid() && pos + |space| <= |desc|
      modifies this`docBegin, this`docLength
      ensures match LastComment(space)
              case None => docBegin == old(docBegin) && docLength == old(docLength)
              case Some(last) =>
                && docLength > 0 && docBegin + docLength == pos + last
                && docBegin == if old(docLength) > 0 then old(docBegin) else pos + FirstComment(space).value
    {
      hide LineLength, StartsWithComment, LastComment, FirstComment;
      var s, at := space, 0;
      var doc := SearchDocstring(s);
      assert space[0..] == space;
      while doc.Some?
        invariant at + |s| == |space| && s == space[at..]
        invariant doc == SearchDocstring(s)
        invariant at == 0 ==> docBegin == old(docBegin) && docLength == old(docLength)
        invariant at > 0 ==> docLength > 0 && LastComment(space).Some?
        invariant at > 0 ==> docBegin == if old(docLength) > 0 then old(docBegin) else pos + FirstComment(space).value
        invariant LastComment(s).Some? ==> LastComment(space) == Some(at + LastComment(s).value)
        invariant LastComment(s).None? && at > 0 ==> docBegin + docLength == pos + LastComment(space).value
        decreases |s|
      {
        var m := doc.value;
        DropMatchLength(s);
        MatchEndsBehindFirst(space, at);
        if docLength == 0 {
          docBegin, docLength := pos + at + m.at, m.length;
        } else {
          docLength := pos + at + m.at - docBegin + m.length;
        }
        assert s[m.length..] == space[at + m.length..];
        s, at := s[m.length..], at + m.length;
        doc := SearchDocstring(s);
      }
    }

    method ConsumeWhitespace()
      requires Valid()
      modifies this
      ensures Valid() && View() == SkipSpace(old(View()))
    {
      hide LastComment, FirstComment, SpaceLength;
      var n := SpaceLength(desc[pos..]);
      assert desc[pos..][..n] == desc[pos..pos + n];
      assert desc[pos..][n..] == desc[pos + n..];
      if n > 0 {
        CaptureDocstrings(desc[pos..pos + n]);
        pos := pos + n;
      } else {
        NoCommentInNothing();
      }
    }

    method ExpectToken(p: Pattern) returns (r: Result<string, ParseError>)
      requires Valid()
      modifies this
      ensures Valid() && Agrees(r, View(), Expect(p, old(View())))
      ensures View() == AfterExpect(p, old(View()))
      ensures pos >= old(pos) && (r.Ok? && r.value != "" ==> pos > old(pos))
    {
      hide SkipSpace, MatchLength;
      ConsumeWhitespace();
      if pos == |desc| {
        return Ok("");
      }
      var n := MatchLength(p, desc[pos..]);
      assert desc[pos..][..n] == desc[pos..pos + n] && desc[pos..][n..] == desc[pos + n..];
      if n > 0 {
        r := Ok(desc[pos..pos + n]);
        pos := pos + n;
      } else {
        r := Err(NoMatch);
      }
    }

    method ExpectKeywordToken(keyword: string) returns (r: Result<(), ParseError>)
      requires Valid()
      modifies this
      ensures Valid() && Agrees(r, View(), ExpectKeyword(keyword, old(View())))
      ensures pos >= old(pos) && (r.Ok? && keyword != "" ==> pos > old(pos))
    {
      hide Expect;
      var token :- ExpectToken(Keyword);
      r := if token == keyword then Ok(()) else Err(Unexpected);
    }

    /** `get_docstring`: hands out the captured documentation and forgets it. */
    method GetDocstring() returns (doc: string)
      requires Valid()
      modifies this
      ensures Valid() && View() == TakeDoc(old(View())) && pos == old(pos)
      ensures doc == DocText(desc, old(View()).doc)
    {
      doc := if docLength == 0 then "" else desc[docBegin..docBegin + docLength];
      docBegin, docLength := 0, 0;
    }

    method ReadStructFrom(readFirstBracket: bool) returns (r: Result<Type, ParseError>)
      requires Valid()
      modifies this
      ensures Valid() && pos >= old(pos)
      ensures Agrees(r, View(), if readFirstBracket then ReadStruct(old(View())) else ReadStructBody(old(View())))
      decreases |desc| - pos, if readFirstBracket then 2 else 1
    {
      hide Expect, SkipSpace, ReadTypeSpec, ReadField, ReadFields, View;
      if readFirstBracket {
        var _ :- ExpectKeywordToken("(");
      }
      ghost var spec := ReadStructBody(View());
      var closing := ExpectToken(ClosingBracket);
      if closing.Ok? {
        return Ok(Struct([]));
      }
      var fields := Invalid;
      var keyword := "";
      assert spec == ReadFields(View(), fields);
      while keyword != ")"
        invariant Valid() && pos >= old(pos)
        invariant spec == if keyword == ")" then Ok(Read(fields, View())) else ReadFields(View(), fields)
        decreases |desc| - pos, if keyword == ")" then 0 else 1
      {
        FieldsFromField(View(), fields);
        var next :- ReadOneField(fields);
        fields, keyword := next.fields, next.separator;
      }
      r := Ok(fields);
    }

    /** The body of the loop of `read_struct`: one field or one enum value. */
    method ReadOneField(known: Type) returns (r: Result<Field, ParseError>)
      requires Valid()
      modifies this
      ensures Valid() && pos >= old(pos) && (r.Ok? && r.value.separator != ")" ==> pos > old(pos))
      ensures Agrees(r, View(), ReadField(old(View()), known))
      decreases |desc| - pos, 0
    {
      hide Expect, ReadTypeSpec, View;
      var fields := known;
      var name :- ExpectToken(Identifier);
      var keyword :- ExpectToken(Keyword);
      if fields.Invalid? {
        if keyword == ":" {
          fields := Struct([]);
        } else if keyword == "," {
          fields := Enum([]);
        } else {
          return Err(Unexpected);
        }
      }
      if fields.Struct? && keyword == ":" {
        var t :- ReadTypeSpecFrom(false);
        fields := Struct(fields.params + [Param(name, t)]);
        keyword :- ExpectToken(Keyword);
      } else if fields.Enum? && (keyword == "," || keyword == ")") {
        fields := Enum(fields.values + [name]);
      } else {
        return Err(Unexpected);
      }
      r := Ok(Field(fields, keyword));
    }

    method ReadTypeSpecFrom(wasMaybe: bool) returns (r: Result<TypeSpec, ParseError>)
      requires Valid()
      modifies this
      ensures Valid() && pos >= old(pos)
      ensures Agrees(r, View(), ReadTypeSpec(old(View()), wasMaybe))
      decreases |desc| - pos, 2
    {
      hide Expect, ReadStructBody, View;
      var keyword :- ExpectToken(KeywordOrMember);
      if keyword == "?" {
        if wasMaybe {
          return Err(Unexpected);
        }
        var t :- ReadTypeSpecFrom(true);
        r := Ok(t.(maybeType := true));
      } else if keyword == "[string]" {
        var t :- ReadTypeSpecFrom(false);
        r := Ok(t.(dictType := true));
      } else if keyword == "[]" {
        var t :- ReadTypeSpecFrom(false);
        r := Ok(t.(arrayType := true));
      } else if keyword == "(" {
        var t :- ReadStructFrom(false);
        r := Ok(Bare(t));
      } else {
        r := Ok(Bare(Named(keyword)));
      }
    }

    method ReadMethodSpecFrom() returns (r: Result<TypeSpec, ParseError>)
      requires Valid()
      modifies this
      ensures Valid() && Agrees(r, View(), ReadMethodSpec(old(View())))
    {
      hide ReadStruct, ExpectKeyword, View;
      var parameters :- ReadStructFrom(true);
      var _ :- ExpectKeywordToken("->");
      var returned :- ReadStructFrom(true);
      r := Ok(MethodType(Bare(parameters), Bare(returned)));
    }

    method ReadMemberFrom() returns (r: Result<Member, ParseError>)
      requires Valid()
      modifies this
      ensures Valid() && Agrees(r, View(), ReadMember(desc, old(View())))
    {
      hide Expect, ReadTypeSpec, ReadMethodSpec, DocText, View;
      var keyword :- ExpectToken(Keyword);
      var kind;
      if keyword == "type" {
        kind := TypeMember;
      } else if keyword == "error" {
        kind := ErrorMember;
      } else if keyword == "method" {
        kind := MethodMember;
      } else if keyword != "" {
        return Err(Unexpected);
      } else {
        kind := Undefined;
      }
      var name :- ExpectToken(MemberName);
      var description := GetDocstring();
      var data;
      if kind.MethodMember? {
        data :- ReadMethodSpecFrom();
      } else {
        data :- ReadTypeSpecFrom(false);
      }
      r := Ok(Member(kind, name, description, data));
    }
  }

  lemma NoCommentInNothing()
    ensures LastComment("").None?
  {
  }

  /** The constructor of `varlink_interface` (source/interface.cpp:6-20). */
  method ReadInterface(description: string) returns (r: Result<Interface, ParseError>)
    ensures r == ParseInterface(description)
  {
    hide Expect, ReadMember, DocText;
    var scanner := new Scanner(description);
    var _ :- scanner.ExpectKeywordToken("interface");
    var name :- scanner.ExpectToken(InterfaceName);
    var documentation := scanner.GetDocstring();
    var members: seq<Member> := [];
    ghost var spec := ReadMembers(description, scanner.View(), []);
    var m :- scanner.ReadMemberFrom();
    while !m.kind.Undefined?
      invariant scanner.Valid() && scanner.desc == description && fresh(scanner)
      invariant spec == if m.kind.Undefined? then Ok(members)
                        else if HasName(members, m.name) then Err(DuplicateMember)
                        else ReadMembers(description, scanner.View(), members + [m])
      decreases |description| - scanner.pos, if m.kind.Undefined? then 0 else 1
    {
      if exists k | k in members :: k.name == m.name {
        return Err(DuplicateMember);
      }
      members := members + [m];
      m :- scanner.ReadMemberFrom();
    }
    r := if members == [] then Err(NoMembers) else Ok(Interface(name, documentation, members));
  }
}
