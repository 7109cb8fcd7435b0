/** Which documentation is captured between two calls of `get_docstring`. */
module DocCapture {
  import opened Lexer
  import opened Grammar

  /** The white space that one `expect` skips, with the text that was unread before. */
  datatype Space = Space(rest: string, length: nat)

  predicate IsSpace(sp: Space) {
    sp.length == SpaceLength(sp.rest)
  }

  predicate HasComment(sp: Space)
    requires IsSpace(sp)
  {
    LastComment(sp.rest[..sp.length]).Some?
  }

  /** Where the first comment line of the space begins, counted from the end of the description. */
  function FirstStart(sp: Space): nat
    requires IsSpace(sp) && HasComment(sp)
  {
    |sp.rest| - FirstComment(sp.rest[..sp.length]).value
  }

  /** Where its last comment line ends. */
  function LastEnd(sp: Space): nat
    requires IsSpace(sp) && HasComment(sp)
  {
    |sp.rest| - LastComment(sp.rest[..sp.length]).value
  }

  /** The scanner after any uses of `expect`, failing ones included. */
  function AfterExpects(ps: seq<Pattern>, c: Cursor): Cursor {
    if ps == [] then c else AfterExpect(ps[|ps| - 1], AfterExpects(ps[..|ps| - 1], c))
  }

  /** The spaces that they skip, in order. */
  function Spaces(ps: seq<Pattern>, c: Cursor): (spaces: seq<Space>)
    ensures |spaces| == |ps| && forall sp | sp in spaces :: IsSpace(sp)
  {
    if ps == [] then []
    else
      var before := AfterExpects(ps[..|ps| - 1], c);
      Spaces(ps[..|ps| - 1], c) + [Space(before.rest, SpaceLength(before.rest))]
  }

  /** `i` and `j` are the first and the last of the spaces with a comment. */
  predicate FirstAndLast(spaces: seq<Space>, i: nat, j: nat)
    requires forall sp | sp in spaces :: IsSpace(sp)
  {
    && i <= j < |spaces| && HasComment(spaces[i]) && HasComment(spaces[j])
    && (forall k | 0 <= k < i :: !HasComment(spaces[k]))
    && (forall k | j < k < |spaces| :: !HasComment(spaces[k]))
  }

  function Stretch(spaces: seq<Space>, i: nat, j: nat): (doc: Doc)
    requires (forall sp | sp in spaces :: IsSpace(sp)) && FirstAndLast(spaces, i, j)
    ensures doc.Span?
  {
    Span(FirstStart(spaces[i]), LastEnd(spaces[j]))
  }

  /** The stretch begins at the first and ends at the last comment line in any of the spaces. */
  ghost predicate CapturedFrom(spaces: seq<Space>, doc: Doc)
    requires forall sp | sp in spaces :: IsSpace(sp)
  {
    match doc
    case NoDoc => forall sp | sp in spaces :: !HasComment(sp)
    case Span(_, _) =>
      exists i: nat, j: nat :: FirstAndLast(spaces, i, j) && doc == Stretch(spaces, i, j)
  }

  lemma CaptureOne(c: Cursor)
    ensures var sp := Space(c.rest, SpaceLength(c.rest));
            SkipSpace(c).doc == if !HasComment(sp) then c.doc
                                else Span(if c.doc.Span? then c.doc.from else FirstStart(sp), LastEnd(sp))
  {
    hide SpaceLength, FirstComment, LastComment;
  }

  lemma CaptureMore(spaces: seq<Space>, doc: Doc, sp: Space, doc': Doc)
    requires (forall sp | sp in spaces :: IsSpace(sp)) && CapturedFrom(spaces, doc) && IsSpace(sp)
    requires doc' == if !HasComment(sp) then doc else Span(if doc.Span? then doc.from else FirstStart(sp), LastEnd(sp))
    ensures CapturedFrom(spaces + [sp], doc')
  {
    hide IsSpace, HasComment, FirstStart, LastEnd, FirstAndLast, Stretch;
    if doc.Span? {
      var i: nat, j: nat :| FirstAndLast(spaces, i, j) && doc == Stretch(spaces, i, j);
      FirstAndLastMore(spaces, sp, i, j);
    } else if HasComment(sp) {
      OnlyOne(spaces, sp);
    } else {
      assert forall s | s in spaces + [sp] :: s in spaces || s == sp;
    }
  }

  lemma FirstAndLastMore(spaces: seq<Space>, sp: Space, i: nat, j: nat)
    requires (forall sp | sp in spaces :: IsSpace(sp)) && IsSpace(sp) && FirstAndLast(spaces, i, j)
    ensures var more, j' := spaces + [sp], if HasComment(sp) then |spaces| else j;
            && FirstAndLast(more, i, j')
            && Stretch(more, i, j') == if HasComment(sp) then Stretch(spaces, i, j).(upto := LastEnd(sp)) else Stretch(spaces, i, j)
  {
    hide IsSpace, HasComment, FirstStart, LastEnd;
    var more := spaces + [sp];
    assert more[|spaces|] == sp && forall k | 0 <= k < |spaces| :: more[k] == spaces[k];
  }

  lemma OnlyOne(spaces: seq<Space>, sp: Space)
    requires (forall sp | sp in spaces :: IsSpace(sp) && !HasComment(sp)) && IsSpace(sp) && HasComment(sp)
    ensures FirstAndLast(spaces + [sp], |spaces|, |spaces|)
    ensures Stretch(spaces + [sp], |spaces|, |spaces|) == Span(FirstStart(sp), LastEnd(sp))
  {
    hide IsSpace, HasComment, FirstStart, LastEnd;
    forall k | 0 <= k < |spaces| ensures !HasComment((spaces + [sp])[k]) { assert spaces[k] in spaces; }
  }

  /**
   Between two calls of `get_docstring`, after any uses of `expect`, the documentation runs
   from the first newline-terminated comment line in any skipped space to the end of the last.
   */
  lemma {:induction false} CapturesFirstToLast(ps: seq<Pattern>, c: Cursor)
    requires c.doc.NoDoc?
    ensures CapturedFrom(Spaces(ps, c), AfterExpects(ps, c).doc)
  {
    hide Expect, SkipSpace, IsSpace, HasComment, FirstStart, LastEnd, CapturedFrom, SpaceLength;
    if ps == [] {
      NothingCaptured();
    } else {
      var before := ps[..|ps| - 1];
      var c1 := AfterExpects(before, c);
      CapturesFirstToLast(before, c);
      CaptureOne(c1);
      ExpectSkips(ps[|ps| - 1], c1);
      var sp := Space(c1.rest, SpaceLength(c1.rest));
      assert IsSpace(sp) by { SpaceIs(c1.rest); }
      CaptureMore(Spaces(before, c), c1.doc, sp, AfterExpects(ps, c).doc);
    }
  }

  lemma SpaceIs(rest: string)
    ensures IsSpace(Space(rest, SpaceLength(rest)))
  {
  }

  lemma NothingCaptured()
    ensures CapturedFrom([], NoDoc)
  {
  }

  lemma ExpectSkips(p: Pattern, c: Cursor)
    ensures AfterExpect(p, c).doc == SkipSpace(c).doc
    ensures |AfterExpect(p, c).rest| <= |c.rest| - SpaceLength(c.rest)
  {
    hide SpaceLength, Capture, MatchLength;
  }

  /** The spaces follow each other, so that the captured stretch lies within the text read. */
  lemma {:induction false} SpacesInOrder(ps: seq<Pattern>, c: Cursor, i: nat, j: nat)
    requires i <= j < |ps|
    ensures var spaces := Spaces(ps, c);
            && |spaces[i].rest| <= |c.rest|
            && |AfterExpects(ps, c).rest| <= |spaces[j].rest| - spaces[j].length
            && (i < j ==> |spaces[j].rest| <= |spaces[i].rest| - spaces[i].length)
    decreases |ps|
  {
    hide Expect, SpaceLength, AfterExpect;
    var before := ps[..|ps| - 1];
    var c1 := AfterExpects(before, c);
    ExpectSkips(ps[|ps| - 1], c1);
    if before != [] {
      SpacesInOrder(before, c, 0, |before| - 1);
      if j < |before| {
        SpacesInOrder(before, c, i, j);
      } else if i < j {
        SpacesInOrder(before, c, i, i);
      }
    }
  }

  /** What `get_docstring` then hands out is that stretch of the description. */
  lemma CapturedText(desc: string, ps: seq<Pattern>, c: Cursor)
    requires c.doc.NoDoc? && |c.rest| <= |desc| && AfterExpects(ps, c).doc.Span?
    ensures var doc := AfterExpects(ps, c).doc;
            doc.upto < doc.from <= |desc| && DocText(desc, doc) == desc[|desc| - doc.from..|desc| - doc.upto]
  {
    hide AfterExpects, Spaces, IsSpace, HasComment, FirstStart, LastEnd;
    CapturesFirstToLast(ps, c);
    var spaces, doc := Spaces(ps, c), AfterExpects(ps, c).doc;
    var i: nat, j: nat :| FirstAndLast(spaces, i, j) && doc == Stretch(spaces, i, j);
    SpacesInOrder(ps, c, i, j);
    WithinSpace(spaces[i]);
    WithinSpace(spaces[j]);
  }

  lemma WithinSpace(sp: Space)
    requires IsSpace(sp) && HasComment(sp)
    ensures |sp.rest| - sp.length <= LastEnd(sp) < FirstStart(sp) <= |sp.rest|
  {
    hide SpaceLength;
  }
}
