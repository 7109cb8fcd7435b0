/** The tokens of the interface language by their characters. */
module TokenShapes {
  import opened Lexer
  import opened TokenRoundTrip

  const LOWER := "abcdefghijklmnopqrstuvwxyz"
  const UPPER := "ABCDEFGHIJKLMNOPQRSTUVWXYZ"
  const DIGITS := "0123456789"

  predicate Letter(c: char) { c in LOWER || c in UPPER }

  predicate LetterOrDigit(c: char) { Letter(c) || c in DIGITS }

  // ----- Classes of characters -----

  lemma LowerIs(c: char)
    ensures IsLower(c) <==> c in LOWER
  {
    if IsLower(c) {
      assert LOWER[c as int - 'a' as int] == c;
    }
  }

  lemma UpperIs(c: char)
    ensures IsUpper(c) <==> c in UPPER
  {
    if IsUpper(c) {
      assert UPPER[c as int - 'A' as int] == c;
    }
  }

  lemma DigitIs(c: char)
    ensures IsDigit(c) <==> c in DIGITS
  {
    if IsDigit(c) {
      assert DIGITS[c as int - '0' as int] == c;
    }
  }

  lemma ClassesAre(c: char)
    ensures IsAlnum(c) <==> LetterOrDigit(c)
    ensures (IsLower(c) || IsUpper(c)) <==> Letter(c)
    ensures IsNameChar(c) <==> c in LOWER || c in DIGITS
    ensures IsWord(c) <==> LetterOrDigit(c) || c == '_'
  {
    hide IsLower, IsUpper, IsDigit;
    LowerIs(c);
    UpperIs(c);
    DigitIs(c);
  }

  // ----- Identifiers and member names -----

  predicate IdentifierChars(s: string) {
    forall k | 0 <= k < |s| :: IsAlnum(s[k]) || (s[k] == '_' && k + 1 < |s| && IsAlnum(s[k + 1]))
  }

  lemma {:induction false} IdentifierRunIs(s: string)
    ensures IdentifierRun(s) == |s| <==> IdentifierChars(s)
  {
    hide IsAlnum;
    if s != "" {
      if IsAlnum(s[0]) {
        IdentifierRunIs(s[1..]);
        assert forall k | 0 <= k < |s| - 1 :: s[1..][k] == s[k + 1];
      } else if s[0] == '_' && |s| > 1 && IsAlnum(s[1]) {
        IdentifierRunIs(s[2..]);
        assert forall k | 0 <= k < |s| - 2 :: s[2..][k] == s[k + 2];
      }
    }
  }

  /**
   An identifier starts with a letter, goes on with letters, digits and underscores, has no
   two underscores in a row and does not end with one.
   */
  lemma IdentifierIs(s: string)
    ensures IsToken(Identifier, s)
       <==> s != "" && Letter(s[0])
            && (forall k | 0 <= k < |s| :: LetterOrDigit(s[k]) || s[k] == '_')
            && (forall k | 0 <= k < |s| - 1 :: s[k] != '_' || s[k + 1] != '_')
            && s[|s| - 1] != '_'
  {
    hide IdentifierRun, IsAlnum, IsLower, IsUpper, LetterOrDigit, Letter;
    forall c: char ensures (IsAlnum(c) <==> LetterOrDigit(c)) && ((IsLower(c) || IsUpper(c)) <==> Letter(c)) { ClassesAre(c); }
    if s != "" {
      IdentifierRunIs(s[1..]);
      LetterIsAlnum(s[0]);
      assert forall k | 0 <= k < |s| - 1 :: s[1..][k] == s[k + 1];
      NoUnderscore('_');
      assert s[|s|..] == "";
    }
  }

  lemma LetterIsAlnum(c: char)
    ensures (IsLower(c) || IsUpper(c)) ==> IsAlnum(c)
  {
  }

  lemma NoUnderscore(c: char)
    requires c == '_'
    ensures !IsAlnum(c) && !IsLower(c) && !IsUpper(c)
  {
  }

  lemma {:induction false} AlnumRunIs(s: string)
    ensures AlnumRun(s) == |s| <==> forall k | 0 <= k < |s| :: IsAlnum(s[k])
  {
    hide IsAlnum;
    if s != "" {
      AlnumRunIs(s[1..]);
      assert forall k | 0 <= k < |s| - 1 :: s[1..][k] == s[k + 1];
    }
  }

  /** The name of a member starts with an upper-case letter and goes on with letters and digits. */
  lemma MemberNameIs(s: string)
    ensures IsToken(MemberName, s)
       <==> s != "" && s[0] in UPPER && forall k | 0 <= k < |s| :: LetterOrDigit(s[k])
  {
    hide AlnumRun, IsAlnum, IsUpper, LetterOrDigit;
    forall c: char ensures (IsAlnum(c) <==> LetterOrDigit(c)) && (IsUpper(c) <==> c in UPPER) { ClassesAre(c); UpperIs(c); }
    if s != "" {
      AlnumRunIs(s[1..]);
      assert IsUpper(s[0]) ==> IsAlnum(s[0]) by { LetterIsAlnum(s[0]); }
      assert forall k | 0 <= k < |s| - 1 :: s[1..][k] == s[k + 1];
      assert s[|s|..] == "";
    }
  }

  // ----- Keywords -----

  predicate Symbol(s: string) {
    s in [":", ",", "(", ")", "{", "}", "->", "[]", "?", "[string]"]
  }

  lemma {:induction false} LowerRunIs(s: string)
    ensures LowerRun(s) == |s| <==> forall k | 0 <= k < |s| :: IsLower(s[k])
  {
    hide IsLower;
    if s != "" {
      LowerRunIs(s[1..]);
      assert forall k | 0 <= k < |s| - 1 :: s[1..][k] == s[k + 1];
    }
  }

  /** A keyword is a word of lower-case letters or one of ten symbols. */
  lemma KeywordIs(s: string)
    ensures IsToken(Keyword, s)
       <==> (s != "" && forall k | 0 <= k < |s| :: s[k] in LOWER) || Symbol(s)
  {
    hide LowerRun, IsLower;
    forall c: char ensures IsLower(c) <==> c in LOWER { LowerIs(c); }
    if s != "" {
      LowerRunIs(s);
      if IsLower(s[0]) {
        NoSymbolIsLower(s);
        assert s[|s|..] == "";
      } else {
        SymbolIs(s);
      }
    }
  }

  lemma NoSymbolIsLower(s: string)
    ensures Symbol(s) ==> s != "" && !IsLower(s[0])
  {
  }

  lemma SymbolIs(s: string)
    requires s != "" && !IsLower(s[0])
    ensures KeywordLength(s) == |s| <==> Symbol(s)
  {
    hide LowerRun, IsLower;
    var brackets := ":,(){}";
    assert s[0] in brackets <==> (s[0] == ':' || s[0] == ',' || s[0] == '(' || s[0] == ')' || s[0] == '{' || s[0] == '}') by {
      assert brackets[0] == ':' && brackets[1] == ',' && brackets[2] == '(' && brackets[3] == ')' && brackets[4] == '{' && brackets[5] == '}';
    }
    if |s| == 1 {
      assert s == [s[0]];
    } else if |s| == 2 {
      assert s == [s[0], s[1]];
    } else {
      if "[string]" <= s && |s| == 8 {
        assert s == "[string]";
      }
      assert Symbol(s) ==> s == "[string]" && s[1] == 's';
    }
  }

  /** What `read_type_spec` reads is a keyword or the name of a member. */
  lemma KeywordOrMemberIs(s: string)
    ensures IsToken(KeywordOrMember, s) <==> IsToken(Keyword, s) || IsToken(MemberName, s)
  {
    hide LowerRun, AlnumRun;
    if IsToken(MemberName, s) {
      UpperIsNoKeyword(s);
    }
  }

  lemma UpperIsNoKeyword(s: string)
    requires s != "" && IsUpper(s[0])
    ensures KeywordLength(s) == 0
  {
  }

  lemma ClosingBracketIs(s: string)
    ensures IsToken(ClosingBracket, s) <==> s == ")"
  {
  }

  /** A word ends where no letter, digit or underscore follows. */
  lemma WordsEnd(p: Pattern, s: string)
    requires p.Keyword? || p.MemberName? || p.KeywordOrMember? || p.Identifier?
    ensures var n := MatchLength(p, s);
            n > 0 && LetterOrDigit(s[n - 1]) && n < |s| ==> !LetterOrDigit(s[n]) && s[n] != '_'
  {
    hide LowerRun, AlnumRun, IdentifierRun, LetterOrDigit, IsAlnum;
    var n := MatchLength(p, s);
    if n > 0 && LetterOrDigit(s[n - 1]) && n < |s| {
      ClassesAre(s[n]);
      ClassesAre(s[n - 1]);
      if (p.Keyword? || p.KeywordOrMember?) && KeywordLength(s) > 0 && !IsLower(s[0]) {
        SymbolEnd(s);
      }
    }
  }

  lemma SymbolEnd(s: string)
    requires s != "" && !IsLower(s[0]) && KeywordLength(s) > 0
    ensures !IsAlnum(s[KeywordLength(s) - 1])
  {
  }

  // ----- Names of interfaces -----

  lemma Behind(s: string, n: nat, k: nat)
    requires n <= |s| && k < |s| - n
    ensures s[n..][k] == s[n + k]
  {
  }

  /** A label run has dashes, letters and digits, and ends with a letter or digit ... */
  lemma {:induction false} LabelRunChars(s: string, i: nat)
    requires i < LabelRun(s)
    ensures IsNameChar(s[i]) || s[i] == '-'
    ensures i == LabelRun(s) - 1 ==> IsNameChar(s[i])
    decreases |s|
  {
    hide LabelRun, DashRun, IsNameChar;
    var k := DashRun(s);
    DashesAre(s);
    if k < |s| && IsNameChar(s[k]) {
      LabelRunStep(s);
      if i > k {
        LabelRunChars(s[k + 1..], i - k - 1);
        Behind(s, k + 1, i - k - 1);
      }
    } else {
      LabelRunStop(s);
    }
  }

  /** ... and stops only where dashes lead to something else. */
  lemma {:induction false} LabelRunEnds(s: string)
    ensures var n := LabelRun(s);
            var m := n + DashRun(s[n..]); m == |s| || !IsNameChar(s[m])
    decreases |s|
  {
    hide LabelRun, DashRun, IsNameChar;
    var k := DashRun(s);
    if k < |s| && IsNameChar(s[k]) {
      var rest := s[k + 1..];
      var n := LabelRun(rest);
      LabelRunStep(s);
      LabelRunEnds(rest);
      assert rest[n..] == s[k + 1 + n..];
      var m := n + DashRun(rest[n..]);
      if m < |rest| {
        Behind(s, k + 1, m);
      }
    } else {
      LabelRunStop(s);
      assert s[0..] == s;
    }
  }

  lemma {:induction false} DashesAre(s: string)
    ensures forall k | 0 <= k < DashRun(s) :: s[k] == '-'
    ensures DashRun(s) < |s| ==> s[DashRun(s)] != '-'
  {
    if s != "" && s[0] == '-' {
      DashesAre(s[1..]);
      assert forall k | 0 <= k < |s| - 1 :: s[1..][k] == s[k + 1];
    }
  }

  /** Letters, digits, dashes and dots; beside each dot and at the end a letter or digit. */
  predicate LabelChars(s: string) {
    && (forall k | 0 <= k < |s| :: IsNameChar(s[k]) || s[k] == '-' || s[k] == '.')
    && (forall k | 0 <= k < |s| && s[k] == '.' :: k + 1 < |s| && IsNameChar(s[k + 1]))
    && (forall k | 0 < k < |s| && s[k] == '.' :: IsNameChar(s[k - 1]))
    && (s != "" ==> IsNameChar(s[|s| - 1]))
  }

  /** The label run of such a text ends at the first dot. */
  lemma LabelUpToDot(s: string)
    requires LabelChars(s)
    ensures LabelRun(s) == |s| || s[LabelRun(s)] == '.'
  {
    hide LabelRun, DashRun, IsNameChar;
    var n := LabelRun(s);
    LabelRunEnds(s);
    DashesAre(s[n..]);
    var d := DashRun(s[n..]);
    forall k | n <= k < n + d ensures s[k] == '-' { Behind(s, n, k - n); }
    if n + d < |s| {
      Behind(s, n, d);
    }
    DashesThenDot(s, n, d);
  }

  lemma DashesThenDot(s: string, n: nat, d: nat)
    requires LabelChars(s) && n + d <= |s| && forall k | n <= k < n + d :: s[k] == '-'
    requires n + d < |s| ==> !IsNameChar(s[n + d]) && s[n + d] != '-'
    ensures n < |s| ==> d == 0
  {
    hide IsNameChar;
    assert d > 0 ==> s[n + d - 1] == '-';
    assert 0 < n + d < |s| && s[n + d] == '.' ==> IsNameChar(s[n + d - 1]);
    DashIsNoNameChar();
  }

  lemma DashIsNoNameChar()
    ensures !IsNameChar('-') && !IsNameChar('.')
  {
  }

  lemma {:induction false} LabelsRunIs(s: string)
    ensures LabelsRun(s) == |s| <==> LabelChars(s) && (s != "" ==> s[0] == '.')
    decreases |s|
  {
    hide LabelRun, LabelsRun, IsNameChar;
    if s == "" || s[0] != '.' || |s| < 2 || !IsNameChar(s[1]) {
      NoLabels(s);
    } else {
      var n := LabelRun(s[2..]);
      var rest := s[2 + n..];
      FirstLabel(s);
      assert s[2..][n..] == rest;
      LabelsRunIs(rest);
      if LabelChars(s) {
        TailOfLabels(s, 2);
        LabelUpToDot(s[2..]);
        TailOfLabels(s, 2 + n);
      }
      if LabelsRun(rest) == |rest| {
        forall k | 0 <= k < n ensures (IsNameChar(s[2..][k]) || s[2..][k] == '-') && (k == n - 1 ==> IsNameChar(s[2..][k])) {
          LabelRunChars(s[2..], k);
        }
        GrowLabels(s, n);
      }
    }
  }

  lemma NoLabels(s: string)
    requires s == "" || s[0] != '.' || |s| < 2 || !IsNameChar(s[1])
    ensures LabelsRun(s) == 0
  {
  }

  lemma {:induction false} FirstLabel(s: string)
    requires |s| >= 2 && s[0] == '.' && IsNameChar(s[1])
    ensures var k := 2 + LabelRun(s[2..]); LabelsRun(s) == k + LabelsRun(s[k..])
  {
    hide LabelRun;
  }

  lemma TailOfLabels(s: string, n: nat)
    requires LabelChars(s) && n <= |s|
    ensures LabelChars(s[n..])
  {
    hide IsNameChar;
    assert forall k | 0 <= k < |s| - n :: s[n..][k] == s[n + k];
  }

  lemma GrowLabels(s: string, n: nat)
    requires |s| >= 2 + n && s[0] == '.' && IsNameChar(s[1])
    requires forall k | 0 <= k < n :: IsNameChar(s[2..][k]) || s[2..][k] == '-'
    requires n > 0 ==> IsNameChar(s[2..][n - 1])
    requires LabelChars(s[2 + n..]) && (s[2 + n..] != "" ==> s[2 + n..][0] == '.')
    ensures LabelChars(s)
  {
    hide IsNameChar;
    DashIsNoNameChar();
    forall k | 0 <= k < |s|
      ensures IsNameChar(s[k]) || s[k] == '-' || s[k] == '.'
      ensures s[k] == '.' ==> k + 1 < |s| && IsNameChar(s[k + 1])
      ensures k > 0 && s[k] == '.' ==> IsNameChar(s[k - 1])
    {
      assert k >= 2 + n ==> s[k] == s[2 + n..][k - 2 - n];
      assert k >= 2 + n && k + 1 < |s| ==> s[k + 1] == s[2 + n..][k + 1 - 2 - n];
      assert k > 2 + n ==> s[k - 1] == s[2 + n..][k - 1 - 2 - n];
      assert k >= 2 ==> s[k] == s[2..][k - 2];
      assert k >= 3 ==> s[k - 1] == s[2..][k - 3];
    }
    if s[2 + n..] != "" {
      Behind(s, 2 + n, |s| - 1 - 2 - n);
    } else if n > 0 {
      Behind(s, 2, n - 1);
    }
  }

  /**
   The name of an interface starts with a lower-case letter, and has lower-case letters,
   digits, dashes and at least one dot; beside each dot and at the end is a letter or digit.
   */
  lemma InterfaceNameIs(s: string)
    ensures IsToken(InterfaceName, s)
       <==> s != "" && s[0] in LOWER && '.' in s
            && (forall k | 0 <= k < |s| :: s[k] in LOWER || s[k] in DIGITS || s[k] == '-' || s[k] == '.')
            && (forall k | 0 < k < |s| && s[k] == '.' ::
                  k + 1 < |s| && (s[k + 1] in LOWER || s[k + 1] in DIGITS) && (s[k - 1] in LOWER || s[k - 1] in DIGITS))
            && (s[|s| - 1] in LOWER || s[|s| - 1] in DIGITS)
  {
    hide LabelRun, LabelsRun, IsNameChar, IsLower;
    forall c: char ensures (IsNameChar(c) <==> c in LOWER || c in DIGITS) && (IsLower(c) <==> c in LOWER) { ClassesAre(c); LowerIs(c); }
    DashIsNoNameChar();
    if s != "" && IsLower(s[0]) {
      assert IsNameChar(s[0]) by { LowerIsName(s[0]); }
      InterfaceNameParts(s);
    }
  }

  lemma LowerIsName(c: char)
    requires IsLower(c)
    ensures IsNameChar(c)
  {
  }

  lemma InterfaceNameParts(s: string)
    requires s != "" && IsLower(s[0])
    ensures IsToken(InterfaceName, s) <==> '.' in s && LabelChars(s)
  {
    hide LabelRun, LabelsRun, IsNameChar, IsLower;
    var n := 1 + LabelRun(s[1..]);
    LowerIsName(s[0]);
    DashIsNoNameChar();
    forall k | 0 <= k < n - 1 ensures (IsNameChar(s[1..][k]) || s[1..][k] == '-') && (k == n - 2 ==> IsNameChar(s[1..][k])) {
      LabelRunChars(s[1..], k);
    }
    forall k | 0 < k < n ensures IsNameChar(s[k]) || s[k] == '-' { Behind(s, 1, k - 1); }
    LabelsRunIs(s[n..]);
    if LabelChars(s) && '.' in s {
      TailOfLabels(s, 1);
      LabelUpToDot(s[1..]);
      TailOfLabels(s, n);
      NoDotBefore(s, n);
    }
    if IsToken(InterfaceName, s) {
      assert s[n] == '.';
      GrowName(s, n);
    }
  }

  lemma NoDotBefore(s: string, n: nat)
    requires 0 < n <= |s| && '.' in s && IsNameChar(s[0])
    requires forall k | 0 < k < n :: IsNameChar(s[k]) || s[k] == '-'
    ensures n < |s|
  {
  }

  lemma GrowName(s: string, n: nat)
    requires 0 < n < |s| && IsNameChar(s[0])
    requires forall k | 0 <= k < n - 1 :: IsNameChar(s[1..][k]) || s[1..][k] == '-'
    requires n > 1 ==> IsNameChar(s[1..][n - 2])
    requires LabelChars(s[n..]) && s[n] == '.'
    ensures LabelChars(s)
  {
    hide IsNameChar;
    DashIsNoNameChar();
    forall k | 0 <= k < |s|
      ensures IsNameChar(s[k]) || s[k] == '-' || s[k] == '.'
      ensures s[k] == '.' ==> k + 1 < |s| && IsNameChar(s[k + 1])
      ensures k > 0 && s[k] == '.' ==> IsNameChar(s[k - 1])
    {
      assert k >= n ==> s[k] == s[n..][k - n];
      assert k >= n && k + 1 < |s| ==> s[k + 1] == s[n..][k + 1 - n];
      assert k > n ==> s[k - 1] == s[n..][k - 1 - n];
      assert 0 < k < n ==> s[k] == s[1..][k - 1];
      assert k == n && n > 1 ==> s[k - 1] == s[1..][n - 2];
    }
    assert s[|s| - 1] == s[n..][|s| - n - 1];
  }

  // ----- White space -----

  /** A `#` before position `k`, or at it, on the same line. */
  predicate InComment(s: string, k: nat) {
    exists i: nat :: i <= k < |s| && HashReaches(s, i, k)
  }

  predicate HashReaches(s: string, i: nat, k: nat) {
    i <= k <= |s| && i < |s| && s[i] == '#' && forall j | i <= j < k :: s[j] != '\n'
  }

  lemma {:induction false} LineIs(s: string)
    ensures forall j | 0 <= j < LineLength(s) - 1 :: s[j] != '\n'
    ensures LineLength(s) < |s| ==> LineLength(s) > 0 && s[LineLength(s) - 1] == '\n'
  {
    if s != "" && s[0] != '\n' {
      LineIs(s[1..]);
      assert forall k | 0 <= k < |s| - 1 :: s[1..][k] == s[k + 1];
    }
  }

  /** Skipped white space is blanks, tabs, newlines and comments ... */
  lemma {:induction false} SpaceIsSpace(s: string, k: nat)
    requires k < SpaceLength(s)
    ensures s[k] == ' ' || s[k] == '\t' || s[k] == '\n' || InComment(s, k)
    decreases |s|
  {
    hide SpaceLength, LineLength;
    SpaceStep(s);
    if s[0] == '#' && k < LineLength(s) {
      LineIs(s);
      assert HashReaches(s, 0, k);
    } else if k > 0 {
      var n := if s[0] == '#' then LineLength(s) else 1;
      SpaceIsSpace(s[n..], k - n);
      if InComment(s[n..], k - n) {
        var i: nat :| i <= k - n < |s[n..]| && HashReaches(s[n..], i, k - n);
        ShiftHash(s, n, i, k - n);
      }
    }
  }

  lemma ShiftHash(s: string, n: nat, i: nat, k: nat)
    requires n <= |s| && HashReaches(s[n..], i, k)
    ensures HashReaches(s, n + i, n + k)
  {
    forall j | n + i <= j < n + k ensures s[j] != '\n' { assert s[j] == s[n..][j - n]; }
  }

  lemma SpaceStep(s: string)
    ensures s == "" ==> SpaceLength(s) == 0
    ensures s != "" && IsBlank(s[0]) ==> SpaceLength(s) == 1 + SpaceLength(s[1..])
    ensures s != "" && !IsBlank(s[0]) && s[0] == '#' ==> SpaceLength(s) == LineLength(s) + SpaceLength(s[LineLength(s)..])
    ensures s != "" && !IsBlank(s[0]) && s[0] != '#' ==> SpaceLength(s) == 0
  {
    hide LineLength;
  }

  /** ... and ends only where none of them goes on. */
  lemma {:induction false} SpaceEnds(s: string)
    ensures var n := SpaceLength(s);
            n < |s| ==> s[n] != ' ' && s[n] != '\t' && s[n] != '\n' && !InComment(s, n)
    decreases |s|
  {
    hide SpaceLength, LineLength;
    SpaceStep(s);
    var n := SpaceLength(s);
    if n < |s| {
      LineIs(s);
      forall i: nat | i <= n ensures !HashReaches(s, i, n) {
        if n == 0 {
        } else {
          var m := if IsBlank(s[0]) then 1 else LineLength(s);
          SpaceEnds(s[m..]);
          assert s[m..][n - m] == s[n];
          NoHashAcross(s, m, i, n);
        }
      }
      if n > 0 {
        var m := if IsBlank(s[0]) then 1 else LineLength(s);
        SpaceEnds(s[m..]);
        assert s[m..][n - m] == s[n];
      }
    }
  }

  lemma NoHashAcross(s: string, m: nat, i: nat, n: nat)
    requires 0 < m <= n < |s| && i <= n && !InComment(s[m..], n - m)
    requires (m == 1 && s[0] != '#') || s[m - 1] == '\n'
    ensures !HashReaches(s, i, n)
  {
    if HashReaches(s, i, n) && i >= m {
      forall j | i - m <= j < n - m ensures s[m..][j] != '\n' { assert s[m..][j] == s[m + j]; }
      assert s[m..][i - m] == s[i];
      assert HashReaches(s[m..], i - m, n - m);
    }
  }
}
