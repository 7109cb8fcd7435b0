/** Reading back a single token, and the white space in front of it. */
module TokenRoundTrip {
  import opened Wrappers
  import opened Lexer
  import opened Grammar

  /** `s` is exactly one token of the pattern. */
  predicate IsToken(p: Pattern, s: string) {
    s != "" && MatchLength(p, s) == |s|
  }

  /** What may follow a token without becoming part of it. */
  predicate Follows(p: Pattern, s: string, t: string) {
    s != "" && if p.InterfaceName? then t != "" && t[0] == '\n' else IsWord(s[0]) ==> AtBoundary(t)
  }

  predicate AllBlank(w: string) {
    forall k | 0 <= k < |w| :: IsBlank(w[k])
  }

  lemma {:induction false} LowerRunStable(s: string, t: string)
    requires LowerRun(s) == |s| && AtBoundary(t)
    ensures LowerRun(s + t) == |s|
  {
    if s == "" {
      assert s + t == t;
    } else {
      assert (s + t)[1..] == s[1..] + t;
      LowerRunStable(s[1..], t);
    }
  }

  lemma {:induction false} AlnumRunStable(s: string, t: string)
    requires AlnumRun(s) == |s| && AtBoundary(t)
    ensures AlnumRun(s + t) == |s|
  {
    if s == "" {
      assert s + t == t;
    } else {
      assert (s + t)[1..] == s[1..] + t;
      AlnumRunStable(s[1..], t);
    }
  }

  lemma {:induction false} IdentifierRunStable(s: string, t: string)
    requires IdentifierRun(s) == |s| && AtBoundary(t)
    ensures IdentifierRun(s + t) == |s|
  {
    if s == "" {
      assert s + t == t;
    } else if IsAlnum(s[0]) {
      assert (s + t)[1..] == s[1..] + t;
      IdentifierRunStable(s[1..], t);
    } else {
      assert (s + t)[2..] == s[2..] + t;
      IdentifierRunStable(s[2..], t);
    }
  }

  lemma {:induction false} DashRunStable(s: string, t: string)
    requires DashRun(s) < |s|
    ensures DashRun(s + t) == DashRun(s)
  {
    if s[0] == '-' {
      assert (s + t)[1..] == s[1..] + t;
      DashRunStable(s[1..], t);
    }
  }

  /** A label run that stops before the end of `s`, or at a newline behind it, stops there. */
  lemma {:induction false} LabelRunStable(s: string, t: string)
    requires t != "" && t[0] == '\n'
    requires LabelRun(s) == |s| || (LabelRun(s) < |s| && s[LabelRun(s)] == '.')
    ensures LabelRun(s + t) == LabelRun(s)
    decreases |s|
  {
    hide LabelRun, DashRun;
    var k := DashRun(s);
    if k < |s| && IsNameChar(s[k]) {
      LabelRunStep(s);
      DashRunStable(s, t);
      assert (s + t)[k] == s[k] && (s + t)[k + 1..] == s[k + 1..] + t;
      LabelRunStable(s[k + 1..], t);
      LabelRunStep(s + t);
    } else {
      LabelRunStop(s);
      assert (s + t)[0] == if s == "" then t[0] else s[0];
      NoDashes(s + t);
      LabelRunStop(s + t);
    }
  }

  lemma LabelRunStep(s: string)
    requires DashRun(s) < |s| && IsNameChar(s[DashRun(s)])
    ensures LabelRun(s) == DashRun(s) + 1 + LabelRun(s[DashRun(s) + 1..])
  {
    hide DashRun;
  }

  lemma LabelRunStop(s: string)
    requires !(DashRun(s) < |s| && IsNameChar(s[DashRun(s)]))
    ensures LabelRun(s) == 0
  {
    hide DashRun;
  }

  lemma NoDashes(s: string)
    requires s == "" || s[0] != '-'
    ensures DashRun(s) == 0
  {
  }

  lemma {:induction false} LabelsRunStable(s: string, t: string)
    requires t != "" && t[0] == '\n' && LabelsRun(s) == |s|
    ensures LabelsRun(s + t) == |s|
    decreases |s|
  {
    hide LabelRun;
    if s == "" {
      assert s + t == t;
    } else {
      var k := 2 + LabelRun(s[2..]);
      assert LabelsRun(s[k..]) == |s| - k;
      KeepFirstLabel(s, t, k);
      assert (s + t)[k..] == s[k..] + t;
      LabelsRunStable(s[k..], t);
    }
  }

  lemma KeepFirstLabel(s: string, t: string, k: nat)
    requires t != "" && t[0] == '\n' && |s| >= 2
    requires k == 2 + LabelRun(s[2..]) && LabelsRun(s[k..]) == |s| - k
    ensures LabelRun((s + t)[2..]) == k - 2
  {
    assert s[k..] == s[2..][k - 2..];
    LabelsAfterLabel(s[2..], s[k..]);
    assert (s + t)[2..] == s[2..] + t;
    LabelRunStable(s[2..], t);
  }

  lemma LabelsAfterLabel(s: string, u: string)
    requires u == s[LabelRun(s)..] && LabelsRun(u) == |u|
    ensures LabelRun(s) == |s| || s[LabelRun(s)] == '.'
  {
    assert u != "" ==> u[0] == s[LabelRun(s)];
  }

  lemma MatchStable(p: Pattern, s: string, t: string)
    requires IsToken(p, s) && Follows(p, s, t)
    ensures MatchLength(p, s + t) == |s|
  {
    match p
    case Keyword => KeywordStable(s, t);
    case MemberName => MemberNameStable(s, t);
    case KeywordOrMember =>
      if KeywordLength(s) > 0 {
        KeywordStable(s, t);
      } else {
        MemberNameStable(s, t);
      }
    case Identifier => IdentifierStable(s, t);
    case InterfaceName => InterfaceNameStable(s, t);
    case ClosingBracket =>
  }

  lemma MemberNameStable(s: string, t: string)
    requires s != "" && MemberNameLength(s) == |s| && AtBoundary(t)
    ensures MemberNameLength(s + t) == |s| && KeywordLength(s + t) == 0
  {
    assert (s + t)[1..] == s[1..] + t && (s + t)[|s|..] == t;
    AlnumRunStable(s[1..], t);
  }

  lemma {:induction false} IdentifierStable(s: string, t: string)
    requires s != "" && IdentifierLength(s) == |s| && AtBoundary(t)
    ensures IdentifierLength(s + t) == |s|
  {
    assert (s + t)[1..] == s[1..] + t && (s + t)[|s|..] == t;
    IdentifierRunStable(s[1..], t);
  }

  lemma InterfaceNameStable(s: string, t: string)
    requires s != "" && InterfaceNameLength(s) == |s| && t != "" && t[0] == '\n'
    ensures InterfaceNameLength(s + t) == |s|
  {
    hide LabelRun, LabelsRun;
    var n := 1 + LabelRun(s[1..]);
    FirstLabelStable(s, t, n);
    OtherLabelsStable(s, t, n);
    assert (s + t)[0] == s[0];
  }

  lemma FirstLabelStable(s: string, t: string, n: nat)
    requires s != "" && n == 1 + LabelRun(s[1..]) && LabelsRun(s[n..]) == |s| - n
    requires t != "" && t[0] == '\n'
    ensures LabelRun((s + t)[1..]) == n - 1
  {
    hide LabelRun, LabelsRun;
    var u := s[1..];
    assert s[n..] == u[LabelRun(u)..];
    LabelsAfterLabel(u, s[n..]);
    LabelRunStable(u, t);
    assert (s + t)[1..] == u + t;
  }

  lemma OtherLabelsStable(s: string, t: string, n: nat)
    requires n <= |s| && LabelsRun(s[n..]) == |s| - n
    requires t != "" && t[0] == '\n'
    ensures LabelsRun((s + t)[n..]) == |s| - n
  {
    LabelsRunStable(s[n..], t);
    assert (s + t)[n..] == s[n..] + t;
  }

  lemma KeywordStable(s: string, t: string)
    requires IsToken(Keyword, s) && Follows(Keyword, s, t)
    ensures KeywordLength(s + t) == |s|
  {
    if IsLower(s[0]) {
      LowerRunStable(s, t);
      assert (s + t)[|s|..] == t;
    } else if s[0] == '[' && |s| == 8 {
      assert (s + t)[1] == s[1];
    }
  }

  // ----- White space -----

  lemma {:induction false} BlankIsSpace(w: string, t: string)
    requires AllBlank(w) && t != "" && !IsBlank(t[0]) && t[0] != '#'
    ensures SpaceLength(w + t) == |w|
  {
    if w == "" {
      assert w + t == t;
    } else {
      assert (w + t)[1..] == w[1..] + t;
      BlankIsSpace(w[1..], t);
    }
  }

  lemma {:induction false} BlankHasNoComment(w: string)
    requires AllBlank(w)
    ensures LastComment(w) == None
    decreases |w|
  {
    if w != "" {
      BlankHasNoComment(w[LineLength(w)..]);
    }
  }

  lemma SkipBlank(w: string, t: string, doc: Doc)
    requires AllBlank(w) && t != "" && !IsBlank(t[0]) && t[0] != '#'
    ensures SkipSpace(Cursor(w + t, doc)) == Cursor(t, doc)
  {
    BlankIsSpace(w, t);
    assert (w + t)[|w|..] == t && (w + t)[..|w|] == w;
    BlankHasNoComment(w);
  }

  lemma TokenStart(p: Pattern, s: string)
    requires IsToken(p, s)
    ensures !IsBlank(s[0]) && s[0] != '#'
  {
  }

  /** A token behind blanks is read as itself and leaves what follows it. */
  lemma ReadToken(p: Pattern, w: string, s: string, t: string, doc: Doc)
    requires AllBlank(w) && IsToken(p, s) && Follows(p, s, t)
    ensures Expect(p, Cursor(w + (s + t), doc)) == Ok(Read(s, Cursor(t, doc)))
  {
    TokenStart(p, s);
    SkipBlank(w, s + t, doc);
    MatchStable(p, s, t);
    assert (s + t)[..|s|] == s && (s + t)[|s|..] == t;
  }

  lemma SymbolIsToken(s: string)
    requires s in ["?", "[]", "[string]", "(", ")", ",", ":"]
    ensures IsToken(Keyword, s) && IsToken(KeywordOrMember, s) && !IsWord(s[0])
  {
    hide LowerRun, AlnumRun;
    var brackets := ":,(){}";
    assert brackets[0] == ':' && brackets[1] == ',' && brackets[2] == '(' && brackets[3] == ')';
    if s == "[string]" {
      assert s[1] == 's';
    }
    assert s[0] in "?[(),:" && (s[0] in brackets <==> s[0] !in "?[");
  }

  lemma {:induction false} LowerWord(s: string)
    requires s != "" && forall k | 0 <= k < |s| :: IsLower(s[k])
    ensures LowerRun(s) == |s| && IsToken(Keyword, s)
  {
    if |s| > 1 {
      LowerWord(s[1..]);
    }
  }
}
