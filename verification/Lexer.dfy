/**
 The token patterns of the scanner (include/varlink/detail/scanner.hpp:232-238) as
 recognisers: each gives the length of the match at the start of the text, or 0.
 */
module Lexer {
  import opened Wrappers

  predicate IsLower(c: char) { 'a' <= c <= 'z' }

  predicate IsUpper(c: char) { 'A' <= c <= 'Z' }

  predicate IsDigit(c: char) { '0' <= c <= '9' }

  predicate IsAlnum(c: char) { IsLower(c) || IsUpper(c) || IsDigit(c) }

  /** The characters on which the word boundary `\b` is defined. */
  predicate IsWord(c: char) { IsAlnum(c) || c == '_' }

  predicate IsBlank(c: char) { c == ' ' || c == '\t' || c == '\n' }

  /** `\b` after a word character: the text ends here or goes on with a non-word character. */
  predicate AtBoundary(s: string) {
    s == "" || !IsWord(s[0])
  }

  datatype Pattern = Keyword | MemberName | KeywordOrMember | Identifier | InterfaceName | ClosingBracket

  // ----- Runs of characters -----

  function LowerRun(s: string): (n: nat)
    ensures n <= |s|
  {
    if s == "" || !IsLower(s[0]) then 0 else 1 + LowerRun(s[1..])
  }

  function AlnumRun(s: string): (n: nat)
    ensures n <= |s|
  {
    if s == "" || !IsAlnum(s[0]) then 0 else 1 + AlnumRun(s[1..])
  }

  /** `(_?[A-Za-z0-9])*` */
  function IdentifierRun(s: string): (n: nat)
    ensures n <= |s|
  {
    if s == "" then 0
    else if IsAlnum(s[0]) then 1 + IdentifierRun(s[1..])
    else if s[0] == '_' && |s| > 1 && IsAlnum(s[1]) then 2 + IdentifierRun(s[2..])
    else 0
  }

  function DashRun(s: string): (n: nat)
    ensures n <= |s|
    ensures n < |s| ==> s[n] != '-'
  {
    if s == "" || s[0] != '-' then 0 else 1 + DashRun(s[1..])
  }

  predicate IsNameChar(c: char) { IsLower(c) || IsDigit(c) }

  /** `(-*[a-z0-9])*` */
  function LabelRun(s: string): (n: nat)
    ensures n <= |s|
    decreases |s|
  {
    var k := DashRun(s);
    if k < |s| && IsNameChar(s[k]) then k + 1 + LabelRun(s[k + 1..]) else 0
  }

  /** `(\.[a-z0-9](-*[a-z0-9])*)*` */
  function LabelsRun(s: string): (n: nat)
    ensures n <= |s|
    decreases |s|
  {
    if |s| >= 2 && s[0] == '.' && IsNameChar(s[1]) then
      var k := 2 + LabelRun(s[2..]);
      k + LabelsRun(s[k..])
    else 0
  }

  // ----- The patterns -----

  function KeywordLength(s: string): (n: nat)
    ensures n <= |s|
  {
    if s == "" then 0
    else if IsLower(s[0]) then
      var n := LowerRun(s);
      if AtBoundary(s[n..]) then n else 0
    else if s[0] in ":,(){}" then 1
    else if "->" <= s then 2
    else if "[]" <= s then 2
    else if s[0] == '?' then 1
    else if "[string]" <= s then 8
    else 0
  }

  function MemberNameLength(s: string): (n: nat)
    ensures n <= |s|
  {
    if s == "" || !IsUpper(s[0]) then 0
    else
      var n := 1 + AlnumRun(s[1..]);
      if AtBoundary(s[n..]) then n else 0
  }

  function IdentifierLength(s: string): (n: nat)
    ensures n <= |s|
  {
    if s == "" || !(IsLower(s[0]) || IsUpper(s[0])) then 0
    else
      var n := 1 + IdentifierRun(s[1..]);
      if AtBoundary(s[n..]) then n else 0
  }

  function InterfaceNameLength(s: string): (n: nat)
    ensures n <= |s|
  {
    if s == "" || !IsLower(s[0]) then 0
    else
      var n := 1 + LabelRun(s[1..]);
      var m := LabelsRun(s[n..]);
      if m > 0 then n + m else 0
  }

  /** The first pattern that matches something wins. */
  function MatchLength(p: Pattern, s: string): (n: nat)
    ensures n <= |s|
  {
    match p
    case Keyword => KeywordLength(s)
    case MemberName => MemberNameLength(s)
    case KeywordOrMember => if KeywordLength(s) > 0 then KeywordLength(s) else MemberNameLength(s)
    case Identifier => IdentifierLength(s)
    case InterfaceName => InterfaceNameLength(s)
    case ClosingBracket => if s != "" && s[0] == ')' then 1 else 0
  }

  // ----- White space and comments -----

  /** The offset just behind the first newline, or the length of the text. */
  function LineLength(s: string): (n: nat)
    ensures n <= |s| && (s != "" ==> n > 0)
  {
    if s == "" then 0
    else if s[0] == '\n' then 1
    else 1 + LineLength(s[1..])
  }

  /** `([ \t\n]|#[^\n]*(\n|$))*` */
  function SpaceLength(s: string): (n: nat)
    ensures n <= |s|
    ensures n < |s| ==> !IsBlank(s[n]) && s[n] != '#'
    decreases |s|
  {
    if s == "" then 0
    else if IsBlank(s[0]) then 1 + SpaceLength(s[1..])
    else if s[0] == '#' then
      var n := LineLength(s);
      n + SpaceLength(s[n..])
    else 0
  }

  /** The first line of the text ends with a newline and has a `#` in it. */
  predicate StartsWithComment(s: string) {
    && s != ""
    && s[LineLength(s) - 1] == '\n'
    && '#' in s[..LineLength(s)]
  }

  /** Where the first newline-terminated comment line begins. */
  function FirstComment(s: string): (r: Option<nat>)
    ensures r.Some? ==> r.value < |s|
    decreases |s|
  {
    if s == "" then None
    else if StartsWithComment(s) then Some(0)
    else
      match FirstComment(s[LineLength(s)..])
      case Some(k) => Some(LineLength(s) + k)
      case None => None
  }

  /** Where the last newline-terminated comment line ends. */
  function LastComment(s: string): (r: Option<nat>)
    ensures r.Some? <==> FirstComment(s).Some?
    ensures r.Some? ==> FirstComment(s).value < r.value <= |s|
    decreases |s|
  {
    if s == "" then None
    else
      match LastComment(s[LineLength(s)..])
      case Some(k) => Some(LineLength(s) + k)
      case None => if StartsWithComment(s) then Some(LineLength(s)) else None
  }
}
