/**
 The round trip holds for no other interfaces: printing and parsing gives an interface
 back exactly when it is printable.
 */
module RoundTripExact {
  import opened Wrappers
  import opened TypeSpecs
  import opened Lexer
  import opened Grammar
  import opened Printer
  import opened TokenRoundTrip
  import opened TypeRoundTrip
  import opened InterfaceRoundTrip
  import opened ParserShape

  // ----- White space, line by line -----

  predicate EndsFirstLine(s: string) {
    s != "" && s[LineLength(s) - 1] == '\n'
  }

  lemma {:induction false} SpaceByLines(s: string)
    requires EndsFirstLine(s) && LineLength(s) <= SpaceLength(s)
    ensures SpaceLength(s) == LineLength(s) + SpaceLength(s[LineLength(s)..])
  {
    if IsBlank(s[0]) && s[0] != '\n' {
      assert s[1..][LineLength(s) - 1..] == s[LineLength(s)..];
      SpaceByLines(s[1..]);
    }
  }

  lemma {:induction false} ShortLineEnds(s: string)
    requires LineLength(s) < |s|
    ensures EndsFirstLine(s)
  {
    if s[0] != '\n' {
      ShortLineEnds(s[1..]);
    }
  }

  /** The first line of a prefix, when the prefix holds all of it. */
  lemma SameFirstLine(s: string, n: nat)
    requires n <= |s| && EndsFirstLine(s[..n])
    ensures LineLength(s) == LineLength(s[..n]) && EndsFirstLine(s)
  {
    assert s == s[..n] + s[n..];
    assert s[..n][LineLength(s[..n]) - 1] in s[..n];
    LineStable(s[..n], s[n..]);
  }

  /** White space minus its first line. */
  lemma CutLine(s: string, n: nat)
    requires n == SpaceLength(s) && EndsFirstLine(s[..n])
    ensures var line := LineLength(s[..n]);
            && line == LineLength(s) && line <= n
            && n - line == SpaceLength(s[line..])
            && s[..n][line..] == s[line..][..n - line]
            && s[..line] == s[..n][..line]
  {
    hide SpaceLength, LineLength;
    SameFirstLine(s, n);
    SpaceByLines(s);
  }

  lemma LastCommentCases(w: string)
    requires LastComment(w).Some?
    ensures EndsFirstLine(w)
    ensures var line, rest := LineLength(w), LastComment(w[LineLength(w)..]);
            LastComment(w).value == if rest.Some? then line + rest.value else line
  {
    hide LineLength;
    if LastComment(w[LineLength(w)..]).Some? {
      ShortLineEnds(w);
    }
  }

  lemma FirstCommentCases(w: string)
    requires FirstComment(w).Some?
    ensures EndsFirstLine(w)
    ensures if StartsWithComment(w) then FirstComment(w).value == 0
            else FirstComment(w[LineLength(w)..]).Some? && FirstComment(w).value == LineLength(w) + FirstComment(w[LineLength(w)..]).value
  {
    hide LineLength;
    if !StartsWithComment(w) {
      ShortLineEnds(w);
    }
  }

  /** Skipped space goes on behind the last comment as it would from there. */
  lemma {:induction false} AfterLastComment(s: string, n: nat)
    requires n == SpaceLength(s) && LastComment(s[..n]).Some?
    ensures var k := LastComment(s[..n]).value; k <= n && SpaceLength(s[k..]) == n - k
    decreases |s|
  {
    hide SpaceLength, LineLength, LastComment, FirstComment;
    var w := s[..n];
    LastCommentCases(w);
    CutLine(s, n);
    var line := LineLength(w);
    if LastComment(w[line..]).Some? {
      AfterLastComment(s[line..], n - line);
      var k := LastComment(w[line..]).value;
      assert s[line..][k..] == s[line + k..];
    }
  }

  /** A whole comment line, at the start of white space. */
  predicate CommentLine(s: string) {
    StartsWithComment(s) && LineLength(s) <= SpaceLength(s)
  }

  /** The captured stretch starts with a whole comment line. */
  lemma {:induction false} AtFirstComment(s: string, n: nat)
    requires n == SpaceLength(s) && FirstComment(s[..n]).Some?
    ensures var f := FirstComment(s[..n]).value;
            CommentLine(s[f..]) && f + LineLength(s[f..]) <= LastComment(s[..n]).value
    decreases |s|
  {
    hide SpaceLength, LineLength, LastComment, FirstComment, StartsWithComment;
    var w := s[..n];
    FirstCommentCases(w);
    LastCommentCases(w);
    CutLine(s, n);
    var line := LineLength(w);
    if StartsWithComment(w) {
      assert s[0..] == s;
      assert StartsWithComment(s) by { StartsAlike(s, w); }
    } else {
      AtFirstComment(s[line..], n - line);
      var f := FirstComment(w[line..]).value;
      assert s[line..][f..] == s[line + f..];
    }
  }

  lemma StartsAlike(s: string, w: string)
    requires StartsWithComment(w) && LineLength(s) == LineLength(w) && s != "" && s[..LineLength(w)] == w[..LineLength(w)]
    ensures StartsWithComment(s)
  {
    hide LineLength;
    var n := LineLength(w);
    assert s[n - 1] == s[..n][n - 1] && w[n - 1] == w[..n][n - 1];
  }

  /** Being a comment line depends on the line alone. */
  lemma {:induction false} CommentLineIsLocal(s: string, s': string)
    requires CommentLine(s) && LineLength(s) <= |s'| && s'[..LineLength(s)] == s[..LineLength(s)]
    ensures CommentLine(s') && LineLength(s') == LineLength(s)
    decreases |s|
  {
    var n := LineLength(s);
    assert s'[0] == s[0] && s'[n - 1] == s[n - 1] by { assert s'[..n][0] == s[0] && s'[..n][n - 1] == s[n - 1]; }
    SameLine(s, s');
    if s[0] != '#' {
      assert s[..n] == [s[0]] + s[1..][..n - 1];
      assert s'[1..][..n - 1] == s[1..][..n - 1] by { assert s'[1..][..n - 1] == s'[..n][1..] && s[1..][..n - 1] == s[..n][1..]; }
      if s[0] != '\n' {
        CommentLineIsLocal(s[1..], s'[1..]);
      }
    }
  }

  lemma {:induction false} SameLine(s: string, s': string)
    requires EndsFirstLine(s) && LineLength(s) <= |s'| && s'[..LineLength(s)] == s[..LineLength(s)]
    ensures LineLength(s') == LineLength(s)
  {
    var n := LineLength(s);
    assert s'[..n][0] == s'[0] && s[..n][0] == s[0];
    if s[0] != '\n' {
      assert s'[1..][..n - 1] == s'[..n][1..] && s[1..][..n - 1] == s[..n][1..];
      SameLine(s[1..], s'[1..]);
    }
  }

  lemma FirstCommentIsHere(s: string)
    requires CommentLine(s)
    ensures FirstComment(s[..SpaceLength(s)]) == Some(0)
  {
    var w := s[..SpaceLength(s)];
    assert w[..LineLength(s)] == s[..LineLength(s)];
    CommentLineIsLocal(s, w);
  }

  /** Space in front of a token does not reach into the token, if it ends with its line. */
  lemma {:induction false} SpaceStops(x: string, t: string)
    requires EndsLine(x) && t != "" && !IsBlank(t[0]) && t[0] != '#'
    ensures SpaceLength(x + t) <= |x|
    decreases |x|
  {
    if x == "" {
      assert x + t == t;
    } else if IsBlank(x[0]) {
      assert (x + t)[1..] == x[1..] + t;
      SpaceStops(x[1..], t);
    } else if x[0] == '#' {
      var n := LineLength(x);
      assert x[|x| - 1] in x;
      LineStable(x, t);
      assert (x + t)[n..] == x[n..] + t;
      SpaceStops(x[n..], t);
    }
  }

  lemma {:induction false} SpaceCut(d: string, t: string)
    requires SpaceLength(d + t) == |d| && EndsLine(d)
    ensures SpaceLength(d) == |d|
    decreases |d|
  {
    if d != "" {
      assert (d + t)[0] == d[0];
      if IsBlank(d[0]) {
        assert (d + t)[1..] == d[1..] + t;
        SpaceCut(d[1..], t);
      } else {
        var n := LineLength(d);
        assert d[|d| - 1] in d;
        LineStable(d, t);
        assert (d + t)[n..] == d[n..] + t;
        SpaceCut(d[n..], t);
      }
    }
  }

  // ----- Captured documentation that reads back as itself has nothing else in it -----

  /** The last `k` characters of `s`. */
  function Last(s: string, k: nat): (r: string)
    requires k <= |s|
    ensures |r| == k
  {
    s[|s| - k..]
  }

  lemma LastOfSuffix(s: string, r: string, k: nat)
    requires IsSuffix(r, s) && k <= |r|
    ensures Last(s, k) == Last(r, k)
  {
    assert r == s[|s| - |r|..];
  }

  /** `doc` is a stretch of `s` that starts with a comment line and ends with a line. */
  predicate Covers(s: string, doc: Doc) {
    && doc.Span? && doc.upto < doc.from <= |s|
    && CommentLine(Last(s, doc.from))
    && LineLength(Last(s, doc.from)) <= doc.from - doc.upto
    && Last(s, doc.upto + 1)[0] == '\n'
  }

  /** A fresh capture from white space at the start of `r`, where `r` is the end of `s`. */
  lemma FreshCapture(s: string, r: string, n: nat)
    requires IsSuffix(r, s) && n == SpaceLength(r) && LastComment(r[..n]).Some?
    ensures var doc := Capture(NoDoc, r, n);
            Covers(s, doc) && doc.upto >= |r| - n && doc.from == |r| - FirstComment(r[..n]).value
  {
    hide SpaceLength, FirstComment, LastComment, CommentLine, LineLength, Last, IsSuffix, Capture, Covers;
    var f, k := FirstComment(r[..n]).value, LastComment(r[..n]).value;
    CaptureIs(r, n);
    AtFirstComment(r, n);
    SuffixIsShort(r, s);
    LineStartsAt(s, r, f);
    LineEndsAt(s, r, n, k);
    CoversIs(s, |r| - f, |r| - k, r[f..]);
  }

  lemma CaptureIs(r: string, n: nat)
    requires n <= |r| && LastComment(r[..n]).Some?
    ensures Capture(NoDoc, r, n) == Span(|r| - FirstComment(r[..n]).value, |r| - LastComment(r[..n]).value)
  {
    hide FirstComment, LastComment;
  }

  lemma CoversIs(s: string, from: nat, upto: nat, line: string)
    requires upto < from <= |s| && Last(s, from) == line && CommentLine(line)
    requires LineLength(line) <= from - upto && Last(s, upto + 1)[0] == '\n'
    ensures Covers(s, Span(from, upto))
  {
    hide CommentLine, LineLength, Last;
  }

  lemma SuffixIsShort(r: string, s: string)
    requires IsSuffix(r, s)
    ensures |r| <= |s|
  {
  }

  lemma LineStartsAt(s: string, r: string, f: nat)
    requires IsSuffix(r, s) && f <= |r|
    ensures Last(s, |r| - f) == r[f..]
  {
    hide Last;
    LastOfSuffix(s, r, |r| - f);
    LastFrom(r, f);
  }

  lemma LastFrom(r: string, k: nat)
    requires k <= |r|
    ensures Last(r, |r| - k) == r[k..]
    ensures k < |r| ==> Last(r, |r| - k)[0] == r[k]
  {
  }

  /** A capture that goes on keeps its start and moves its end forward. */
  lemma ContinuedCapture(s: string, doc: Doc, r: string, n: nat)
    requires Covers(s, doc) && IsSuffix(r, s) && n == SpaceLength(r) && |r| <= doc.upto
    ensures var doc' := Capture(doc, r, n);
            && Covers(s, doc') && doc'.from == doc.from
            && (doc' == doc || (LastComment(r[..n]).Some? && doc'.upto == |r| - LastComment(r[..n]).value))
  {
    hide SpaceLength, FirstComment, LastComment, CommentLine, LineLength, Last, IsSuffix;
    match LastComment(r[..n]) {
      case None => assert Capture(doc, r, n) == doc;
      case Some(k) =>
        assert Capture(doc, r, n) == Span(doc.from, |r| - k);
        LineEndsAt(s, r, n, k);
    }
  }

  lemma LineEndsAt(s: string, r: string, n: nat, k: nat)
    requires IsSuffix(r, s) && n <= |r| && LastComment(r[..n]) == Some(k)
    ensures 0 < k <= n && Last(s, |r| - k + 1)[0] == '\n'
  {
    hide FirstComment, LastComment, Last;
    LastOfSuffix(s, r, |r| - k + 1);
    LastFrom(r, k - 1);
    LastCommentEndsLine(r[..n]);
    assert r[..n][k - 1] == r[k - 1];
  }

  /** The two tokens in front of which documentation is captured: a keyword and a name. */
  ghost predicate ReadsTwo(s: string, p: Pattern, c1: Cursor, c2: Cursor) {
    && Expect(Keyword, Cursor(s, NoDoc)).Ok? && Expect(Keyword, Cursor(s, NoDoc)).value.next == c1
    && Expect(p, c1).Ok? && Expect(p, c1).value.next == c2
  }

  lemma TwoTokens(s: string, p: Pattern, c1: Cursor, c2: Cursor)
    requires ReadsTwo(s, p, c1, c2)
    ensures c1.doc == Capture(NoDoc, s, SpaceLength(s))
    ensures IsSuffix(c1.rest, s) && |c1.rest| <= |s| - SpaceLength(s)
    ensures SpaceLength(s) < |s| ==> |c1.rest| < |s| - SpaceLength(s)
    ensures c2.doc == Capture(c1.doc, c1.rest, SpaceLength(c1.rest))
  {
    hide SpaceLength, Capture, Expect, IsSuffix;
    ExpectTakes(Keyword, Cursor(s, NoDoc));
    ExpectTakes(p, c1);
  }

  lemma ExpectTakes(p: Pattern, c: Cursor)
    requires Expect(p, c).Ok?
    ensures var next := Expect(p, c).value.next;
            && next.doc == Capture(c.doc, c.rest, SpaceLength(c.rest))
            && IsSuffix(next.rest, c.rest) && |next.rest| <= |c.rest| - SpaceLength(c.rest)
            && (SpaceLength(c.rest) < |c.rest| ==> |next.rest| < |c.rest| - SpaceLength(c.rest))
  {
    hide SpaceLength, Capture, MatchLength;
    var next := Expect(p, c).value.next;
    SuffixOf(c.rest[..|c.rest| - |next.rest|], next.rest, c.rest) by { AfterSkipped(p, c); }
  }

  lemma AfterSkipped(p: Pattern, c: Cursor)
    requires Expect(p, c).Ok?
    ensures var next := Expect(p, c).value.next;
            IsSuffix(c.rest[..|c.rest| - |next.rest|] + next.rest, c.rest)
  {
    hide SpaceLength, Capture, MatchLength;
    var c', next := SkipSpace(c), Expect(p, c).value.next;
    assert c.rest == c.rest[..|c.rest| - |c'.rest|] + c'.rest;
    assert c'.rest == c'.rest[..|c'.rest| - |next.rest|] + next.rest;
    assert c.rest == c.rest[..|c.rest| - |next.rest|] + next.rest;
  }

  lemma SecondCapture(s: string, p: Pattern, c1: Cursor, c2: Cursor)
    requires ReadsTwo(s, p, c1, c2) && c2.doc.Span?
    ensures Covers(s, c2.doc)
    ensures c1.doc.Span? ==> c2.doc.from == c1.doc.from
  {
    hide SpaceLength, LastComment, FirstComment, Covers, ReadsTwo;
    TwoTokens(s, p, c1, c2);
    assert IsSuffix(s, s);
    if c1.doc.Span? {
      FreshCapture(s, s, SpaceLength(s));
      ContinuedCapture(s, c1.doc, c1.rest, SpaceLength(c1.rest));
    } else {
      FreshCapture(s, c1.rest, SpaceLength(c1.rest));
    }
  }

  /** If the documentation captured in front of the name is all of `d`, then `d` is printable. */
  lemma DocIsPrintable(d: string, t: string, p: Pattern, c1: Cursor, c2: Cursor)
    requires t != "" && !IsBlank(t[0]) && t[0] != '#' && MatchLength(p, t) == 0
    requires ReadsTwo(d + t, p, c1, c2) && c2.doc.Span? && d != ""
    requires c2.doc.upto < c2.doc.from <= |d + t| && Last(d + t, c2.doc.from)[..c2.doc.from - c2.doc.upto] == d
    ensures PrintableDoc(d)
  {
    hide SpaceLength, LastComment, FirstComment, MatchLength, Covers, CommentLine, LineLength, StartsWithComment, ReadsTwo, Last;
    var s := d + t;
    var n := SpaceLength(s);
    SecondCapture(s, p, c1, c2);
    DocStartsAtOnce(d, t, c2.doc);
    TwoTokens(s, p, c1, c2);
    FreshCapture(s, s, n) by { assert IsSuffix(s, s); }
    assert c2.doc.from == |s| && c2.doc.upto == |t|;
    SpaceStops(d, t);
    if n < |d| {
      NameAtKeyword(d, t, c1);
      NoMatch(p, c1, t);
      assert false by { hide *; OkNotErr(d + t, p, c1, c2); }
    }
    assert LastComment(s[..n]) == Some(n);
    assert s[..n] == d;
    SpaceCut(d, t);
  }

  lemma OkNotErr(s: string, p: Pattern, c1: Cursor, c2: Cursor)
    requires ReadsTwo(s, p, c1, c2)
    ensures Expect(p, c1).Ok?
  {
    hide Expect;
  }

  lemma NoMatch(p: Pattern, c1: Cursor, t: string)
    requires SkipSpace(c1).rest == t && t != "" && MatchLength(p, t) == 0
    ensures Expect(p, c1).Err?
  {
    hide SkipSpace, MatchLength;
  }

  lemma DocStartsAtOnce(d: string, t: string, doc: Doc)
    requires Covers(d + t, doc) && Last(d + t, doc.from)[..doc.from - doc.upto] == d
    ensures EndsLine(d) && CommentLine(d + t) && FirstComment((d + t)[..SpaceLength(d + t)]) == Some(0)
  {
    hide SpaceLength, FirstComment, CommentLine, LineLength;
    var s := d + t;
    var u := Last(s, doc.from);
    assert d[|d| - 1] == u[|d| - 1] == s[|s| - doc.upto - 1];
    LineFits(u, d, s);
    CommentLineIsLocal(u, s);
    FirstCommentIsHere(s);
  }

  lemma LineFits(u: string, d: string, s: string)
    requires CommentLine(u) && LineLength(u) <= |d| <= |u| && u[..|d|] == d && |d| <= |s| && s[..|d|] == d
    ensures s[..LineLength(u)] == u[..LineLength(u)]
  {
    hide LineLength, CommentLine;
    var n := LineLength(u);
    assert s[..n] == d[..n] && u[..n] == d[..n];
  }

  /** A keyword inside `d` leaves the name to be read where the printed keyword stands. */
  lemma NameAtKeyword(d: string, t: string, c1: Cursor)
    requires IsSuffix(c1.rest, d + t) && c1.doc.Span? && c1.doc.upto > |t|
    requires var doc := Capture(c1.doc, c1.rest, SpaceLength(c1.rest)); doc.Span? && doc.upto == |t|
    requires t != "" && !IsBlank(t[0]) && t[0] != '#'
    ensures SkipSpace(c1).rest == t
  {
    hide SpaceLength, LastComment, FirstComment;
    var r := c1.rest;
    var n := SpaceLength(r);
    var k := LastComment(r[..n]).value;
    LastOfSuffix(d + t, r, |t|);
    LastFrom(r, k);
    assert Last(d + t, |t|) == t;
    AfterLastComment(r, n);
    NoSpaceHere(t);
  }

  lemma NoSpaceHere(t: string)
    requires t != "" && !IsBlank(t[0]) && t[0] != '#'
    ensures SpaceLength(t) == 0
  {
  }

  // ----- Members and the interface -----

  lemma EmptyLineSkipped(s: string)
    ensures SkipSpace(Cursor("\n" + s, NoDoc)) == SkipSpace(Cursor(s, NoDoc))
  {
    hide SpaceLength, FirstComment, LastComment;
    var n := SpaceLength(s);
    EmptyLineFirst(s);
    EmptyLineFirst(s[..n]);
    assert ("\n" + s)[1 + n..] == s[n..];
    assert ("\n" + s)[..1 + n] == "\n" + s[..n];
  }

  lemma SameExpect(p: Pattern, c: Cursor, c': Cursor)
    requires SkipSpace(c) == SkipSpace(c')
    ensures Expect(p, c) == Expect(p, c')
  {
    hide SkipSpace, MatchLength;
  }

  /** Captured text is the same, seen in the description or in the part still to be read. */
  lemma SliceOfSuffix(desc: string, s: string, doc: Doc, d: string)
    requires IsSuffix(s, desc) && doc.Span? && doc.upto < doc.from <= |s| && DocText(desc, doc) == d
    ensures |d| == doc.from - doc.upto && Last(s, doc.from)[..doc.from - doc.upto] == d
  {
    LastOfSuffix(desc, s, doc.from);
    assert desc[|desc| - doc.from..|desc| - doc.upto] == Last(desc, doc.from)[..doc.from - doc.upto];
  }

  /** Documentation that is read back in front of `t` is printable. */
  lemma ReadDocIsPrintable(desc: string, d: string, t: string, p: Pattern, c1: Cursor, c2: Cursor)
    requires t != "" && !IsBlank(t[0]) && t[0] != '#' && MatchLength(p, t) == 0
    requires ReadsTwo(d + t, p, c1, c2) && IsSuffix(d + t, desc) && DocText(desc, c2.doc) == d
    ensures PrintableDoc(d)
  {
    hide Expect, MatchLength, IsSuffix, ReadsTwo, Covers;
    if d != "" {
      SecondCapture(d + t, p, c1, c2);
      assert c2.doc.upto < c2.doc.from <= |d + t| by { CoversBounds(d + t, c2.doc); }
      SliceOfSuffix(desc, d + t, c2.doc, d);
      DocIsPrintable(d, t, p, c1, c2);
    }
  }

  lemma CoversBounds(s: string, doc: Doc)
    requires Covers(s, doc)
    ensures doc.upto < doc.from <= |s|
  {
    hide Last, CommentLine, LineLength;
  }

  lemma MemberDocIsPrintable(desc: string, m: Member, more: string)
    requires Complete(m) && IsSuffix(m.description + HeadText(m, more), desc)
    requires var r := ReadMember(desc, Cursor("\n" + ("\n" + (MemberText(m) + more)), NoDoc));
             r.Ok? && r.value.value.description == m.description
    ensures PrintableDoc(m.description)
  {
    hide Expect, SkipSpace, ReadTypeSpec, ReadMethodSpec, DocText, MemberText, DataText, MatchLength, IsSuffix, PrintableDoc;
    var s := m.description + HeadText(m, more);
    var c := Cursor("\n" + ("\n" + s), NoDoc);
    MemberTextIsHead(m, more);
    EmptyLineSkipped(s);
    EmptyLineSkipped("\n" + s);
    SameExpect(Keyword, c, Cursor(s, NoDoc));
    var c1 := Expect(Keyword, c).value.next;
    var c2 := Expect(MemberName, c1).value.next;
    KeywordIsToken(m.kind);
    var t := HeadText(m, more);
    assert t[0] == KeywordOf(m.kind)[0];
    LowerIsNoMemberName(t);
    ReadDocIsPrintable(desc, m.description, t, MemberName, c1, c2);
  }

  lemma LowerIsNoMemberName(t: string)
    requires t != "" && IsLower(t[0])
    ensures MatchLength(MemberName, t) == 0
  {
  }

  lemma {:induction false} MembersExtend(desc: string, c: Cursor, ms: seq<Member>)
    requires ReadMembers(desc, c, ms).Ok?
    ensures ms <= ReadMembers(desc, c, ms).value
    decreases |c.rest|
  {
    hide ReadMember;
    var m := ReadMember(desc, c).value;
    if !m.value.kind.Undefined? {
      MembersExtend(desc, m.next, ms + [m.value]);
    }
  }

  /** What `ReadMembers` gives back is what it reads next. */
  lemma NextIsRead(desc: string, c: Cursor, ms: seq<Member>, k: nat)
    requires k < |ms| && ReadMembers(desc, c, ms[..k]) == Ok(ms)
    ensures ReadMember(desc, c).Ok? && ReadMember(desc, c).value.value == ms[k] && !ms[k].kind.Undefined?
    ensures ReadMembers(desc, ReadMember(desc, c).value.next, ms[..k + 1]) == Ok(ms)
  {
    hide ReadMember;
    var m := ReadMember(desc, c).value;
    MembersExtend(desc, m.next, ms[..k] + [m.value]);
    assert (ms[..k] + [m.value])[k] == ms[k];
    assert ms[..k] + [ms[k]] == ms[..k + 1];
  }

  lemma ParsedIsComplete(m: Member)
    requires ParsedMember(m)
    ensures Complete(m)
  {
  }

  /** A member that reads back as itself is printable, or the cut-off last one. */
  lemma ReadMemberIsPrintable(desc: string, m: Member, more: string)
    requires ParsedMember(m) && IsSuffix(m.description + HeadText(m, more), desc)
    requires var r := ReadMember(desc, Cursor("\n" + ("\n" + (MemberText(m) + more)), NoDoc));
             && r.Ok? && r.value.value == m
             && (r.value.next.rest == "" ==> more == "")
    ensures PrintableMember(m) || (more == "" && CutOff(m))
  {
    hide ReadMember, IsSuffix, PrintableDoc, Printable, IsToken, MemberText;
    MemberDocIsPrintable(desc, m, more);
    MemberShape(desc, Cursor("\n" + ("\n" + (MemberText(m) + more)), NoDoc));
    EmptyNameIsNoType();
    var m' := m.(data := Bare(m.data.ty));
    if !m.kind.MethodMember? {
      assert MemberText(m') == MemberText(m) by { SameMemberText(m, m'); }
      assert HeadText(m', more) == HeadText(m, more);
      if m.data.ty == Named("") {
        ReadCutOffMember(desc, m');
      } else {
        ReadPrintedMember(desc, m', more);
      }
    }
  }

  lemma SameMemberText(m: Member, m': Member)
    requires m' == m.(data := m'.data) && m'.data.ty == m.data.ty && !m.kind.MethodMember?
    ensures MemberText(m') == MemberText(m)
  {
  }

  lemma {:induction false} MembersArePrintable(desc: string, ms: seq<Member>, k: nat)
    requires k <= |ms| && ParsedMembers(ms) && forall m | m in ms :: HasMethodTypes(m)
    requires IsSuffix("\n" + MembersText(ms, k), desc)
    requires ReadMembers(desc, Cursor("\n" + MembersText(ms, k), NoDoc), ms[..k]) == Ok(ms)
    ensures forall j | k <= j < |ms| :: PrintableMember(ms[j]) || (j == |ms| - 1 && CutOff(ms[j]))
    decreases |ms| - k
  {
    hide ReadMember, ReadMembers, MemberText, PrintableMember, CutOff, ParsedMember, IsSuffix;
    if k < |ms| {
      var m, more := ms[k], MembersText(ms, k + 1);
      var c := Cursor("\n" + MembersText(ms, k), NoDoc);
      assert m in ms;
      ParsedIsComplete(m);
      MemberSuffixes(desc, ms, k);
      NextIsRead(desc, c, ms, k);
      var next := ReadMember(desc, c).value.next;
      if next.rest == "" {
        NoMemberAtTheEnd(desc, next);
        assert k + 1 == |ms|;
      }
      assert MembersText(ms, k) == "\n" + (MemberText(m) + more);
      ReadMemberIsPrintable(desc, m, more);
      if PrintableMember(m) {
        ReadPrintedMember(desc, m, more);
        MembersArePrintable(desc, ms, k + 1);
      } else {
        assert k + 1 == |ms| by { OnlyLastIsEmpty(ms, k + 1); }
      }
    }
  }

  lemma OnlyLastIsEmpty(ms: seq<Member>, k: nat)
    requires k <= |ms| && (forall m | m in ms :: HasMethodTypes(m)) && MembersText(ms, k) == ""
    ensures k == |ms|
  {
    hide MemberText;
  }

  // ----- The header -----

  lemma WordIsNoInterfaceName(word: string, t: string)
    requires Letters(word) && t != "" && t[0] == ' '
    ensures MatchLength(InterfaceName, word + t) == 0
  {
    hide LabelRun;
    LabelRunOfWord(word[1..], t);
    assert (word + t)[1..] == word[1..] + t && (word + t)[|word|..] == t;
    assert LabelsRun(t) == 0;
  }

  lemma HeaderDocIsPrintable(i: Interface)
    requires forall m | m in i.members :: HasMethodTypes(m)
    requires ParseInterface(InterfaceText(i)).Ok? && ParseInterface(InterfaceText(i)).value.documentation == i.documentation
    ensures PrintableDoc(i.documentation)
  {
    hide Expect, SkipSpace, ReadMembers, DocText, MembersText, InterfaceText, MatchLength, IsSuffix, PrintableDoc;
    var desc := InterfaceText(i);
    var rest := " " + (i.name + ("\n" + MembersText(i.members, 0)));
    var t := "interface" + rest;
    HeaderText(i);
    assert IsSuffix(i.documentation + t, desc) by { WholeIsSuffix(desc); }
    WordIsNoInterfaceName("interface", rest);
    assert t[0] == 'i';
    var c1 := Expect(Keyword, Cursor(desc, NoDoc)).value.next;
    var c2 := Expect(InterfaceName, c1).value.next;
    ReadDocIsPrintable(desc, i.documentation, t, InterfaceName, c1, c2);
  }

  lemma WholeIsSuffix(s: string)
    ensures IsSuffix(s, s)
  {
  }

  /** The round trip holds exactly for the printable interfaces. */
  lemma RoundTripIffPrintable(i: Interface)
    requires forall m | m in i.members :: HasMethodTypes(m)
    ensures ParseInterface(InterfaceText(i)) == Ok(i) <==> PrintableInterface(i)
  {
    hide ParseInterface, ReadMembers, InterfaceText, MembersText, PrintableMember, CutOff, PrintableDoc, IsToken, ParsedMember, IsSuffix;
    if PrintableInterface(i) {
      RoundTrip(i);
    }
    if ParseInterface(InterfaceText(i)) == Ok(i) {
      ParsedInterface(InterfaceText(i));
      HeaderDocIsPrintable(i);
      ReadHeader(i);
      HeaderText(i);
      assert i.members[..0] == [];
      MembersArePrintable(InterfaceText(i), i.members, 0);
    }
  }

  /** Parsing, printing and parsing again is idempotent exactly on printable results. */
  lemma PrintAfterParse(text: string)
    requires ParseInterface(text).Ok?
    ensures forall m | m in ParseInterface(text).value.members :: HasMethodTypes(m)
    ensures var i := ParseInterface(text).value;
            ParseInterface(InterfaceText(i)) == ParseInterface(text) <==> PrintableInterface(i)
  {
    hide ParseInterface, InterfaceText, PrintableInterface, IsToken, ParsedMember;
    var i := ParseInterface(text).value;
    ParsedInterface(text);
    forall m | m in i.members ensures HasMethodTypes(m) { ParsedIsComplete(m); }
    RoundTripIffPrintable(i);
  }
}
