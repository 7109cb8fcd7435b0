/** The layout of a printed type is only white space: its tokens do not depend on it. */
module Layout {
  import opened TypeSpecs
  import opened Lexer
  import opened Printer
  import opened TokenRoundTrip
  import opened TypeRoundTrip

  // ----- Tokens -----

  /** An identifier, which keywords and names are, or a symbol. */
  function NextLength(s: string): (n: nat)
    ensures n <= |s|
  {
    if IdentifierLength(s) > 0 then IdentifierLength(s) else KeywordLength(s)
  }

  /** The tokens of a text; what is not a token ends the sequence. */
  function Tokens(s: string): seq<string>
    decreases |s|
  {
    var t := s[SpaceLength(s)..];
    var n := NextLength(t);
    if t == "" then [] else if n == 0 then [t] else [t[..n]] + Tokens(t[n..])
  }

  predicate IsAnyToken(s: string) {
    s != "" && NextLength(s) == |s|
  }

  lemma {:induction false} AlnumIsIdentifier(s: string)
    requires AlnumRun(s) == |s|
    ensures IdentifierRun(s) == |s|
  {
    if s != "" {
      AlnumIsIdentifier(s[1..]);
    }
  }

  lemma {:induction false} LowerIsAlnum(s: string)
    requires LowerRun(s) == |s|
    ensures AlnumRun(s) == |s|
  {
    if s != "" {
      LowerIsAlnum(s[1..]);
    }
  }

  lemma AnyTokenOf(p: Pattern, s: string)
    requires IsToken(p, s) && (p.Keyword? || p.KeywordOrMember? || p.Identifier?)
    ensures IsAnyToken(s)
  {
    hide IdentifierRun, LowerRun, AlnumRun;
    if p.Identifier? {
    } else if KeywordLength(s) > 0 {
      if IsLower(s[0]) {
        LowerWordIsIdentifier(s);
      }
    } else {
      AlnumIsIdentifier(s[1..]);
    }
  }

  lemma LowerWordIsIdentifier(s: string)
    requires s != "" && LowerRun(s) == |s|
    ensures IdentifierLength(s) == |s|
  {
    LowerIsAlnum(s[1..]);
    AlnumIsIdentifier(s[1..]);
  }

  lemma AnyTokenStable(s: string, t: string)
    requires IsAnyToken(s) && (IsWord(s[0]) ==> AtBoundary(t))
    ensures NextLength(s + t) == |s| && !IsBlank(s[0]) && s[0] != '#'
  {
    hide IdentifierRun, LowerRun;
    assert (s + t)[0] == s[0];
    if IdentifierLength(s) > 0 {
      IdentifierStable(s, t);
    } else {
      SymbolStable(s, t);
    }
  }

  lemma SymbolStable(s: string, t: string)
    requires s != "" && IdentifierLength(s) == 0 && KeywordLength(s) == |s| && (IsWord(s[0]) ==> AtBoundary(t))
    ensures !IsLower(s[0]) && !IsUpper(s[0]) && KeywordLength(s + t) == |s|
  {
    if IsLower(s[0]) {
      LowerWordIsIdentifier(s);
    }
    KeywordStable(s, t);
  }

  /** The first token of a text. */
  lemma TokenFirst(w: string, s: string, t: string)
    requires AllBlank(w) && IsAnyToken(s) && (IsWord(s[0]) ==> AtBoundary(t))
    ensures Tokens(w + (s + t)) == [s] + Tokens(t)
  {
    hide NextLength, SpaceLength;
    AnyTokenStable(s, t);
    BlankIsSpace(w, s + t);
    assert (w + (s + t))[|w|..] == s + t;
    assert (s + t)[..|s|] == s && (s + t)[|s|..] == t;
  }

  // ----- The tokens of a type -----

  function TypeTokens(ty: Type): seq<string>
    decreases ty, 2
  {
    match ty
    case Named(name) => [name]
    case Invalid => ["(", ")"]
    case _ => ["("] + BodyTokens(ty)
  }

  function BodyTokens(ty: Type): seq<string>
    requires ty.Enum? || ty.Struct?
    decreases ty, 1
  {
    if NumItems(ty) == 0 then [")"] else ItemTokens(ty, 0) + TailTokens(ty, 1)
  }

  function ItemTokens(ty: Type, i: nat): seq<string>
    requires (ty.Enum? || ty.Struct?) && i < NumItems(ty)
    decreases ty, 0, 0
  {
    if ty.Enum? then [ty.values[i]]
    else
      var p := ty.params[i];
      [p.name, ":"] + (PrefixTokens(p.spec) + TypeTokens(p.spec.ty))
  }

  /** What follows item `i - 1`. */
  function TailTokens(ty: Type, i: nat): seq<string>
    requires (ty.Enum? || ty.Struct?) && i <= NumItems(ty)
    decreases ty, 0, 1 + NumItems(ty) - i
  {
    if i == NumItems(ty) then [")"] else [","] + (ItemTokens(ty, i) + TailTokens(ty, i + 1))
  }

  function PrefixTokens(t: TypeSpec): seq<string> {
    (if t.maybeType then ["?"] else [])
    + (if t.arrayType then ["[]"] else [])
    + (if t.dictType then ["[string]"] else [])
  }

  lemma SymbolFirst(w: string, s: string, t: string)
    requires AllBlank(w) && s in ["?", "[]", "[string]", "(", ")", ",", ":"]
    ensures Tokens(w + (s + t)) == [s] + Tokens(t)
  {
    hide Tokens, IsToken, IsAnyToken;
    SymbolIsToken(s);
    AnyTokenOf(Keyword, s);
    TokenFirst(w, s, t);
  }

  /** One prefix, if it is there. */
  lemma TokensOfPrefix(flagged: bool, prefix: string, w: string, text: string, tokens: seq<string>)
    requires AllBlank(w) && prefix in ["?", "[]", "[string]"] && Tokens(w + text) == tokens && Tokens(text) == tokens
    ensures Tokens(w + if flagged then prefix + text else text) == (if flagged then [prefix] else []) + tokens
  {
    hide Tokens, AllBlank;
    if flagged {
      SymbolFirst(w, prefix, text);
    }
  }

  lemma TokensOfPrefixes(t: TypeSpec, w: string, text: string, tokens: seq<string>)
    requires AllBlank(w) && Tokens(w + text) == tokens && Tokens(text) == tokens
    ensures Tokens(w + if t.maybeType then "?" + ArrayText(t, text) else ArrayText(t, text)) == PrefixTokens(t) + tokens
  {
    hide Tokens, AllBlank;
    var dict, arr := DictText(t, text), ArrayText(t, text);
    var dictTokens := (if t.dictType then ["[string]"] else []) + tokens;
    var arrTokens := (if t.arrayType then ["[]"] else []) + dictTokens;
    assert AllBlank("") by { NoBlanks(); }
    assert "" + text == text && "" + dict == dict && "" + arr == arr;
    TokensOfPrefix(t.dictType, "[string]", "", text, tokens);
    TokensOfPrefix(t.dictType, "[string]", w, text, tokens);
    TokensOfPrefix(t.arrayType, "[]", "", dict, dictTokens);
    TokensOfPrefix(t.arrayType, "[]", w, dict, dictTokens);
    TokensOfPrefix(t.maybeType, "?", w, arr, arrTokens);
    assert PrefixTokens(t) + tokens == (if t.maybeType then ["?"] else []) + arrTokens;
  }

  lemma NoBlanks()
    ensures AllBlank("")
  {
  }

  lemma {:induction false} TokensOfItem(ty: Type, i: nat, w: string, indent: int, depth: nat, tail: string)
    requires (ty.Enum? || ty.Struct?) && Printable(ty) && i < NumItems(ty) && AllBlank(w) && AtBoundary(tail)
    ensures Tokens(w + (ItemText(ty, i, indent, depth) + tail)) == ItemTokens(ty, i) + Tokens(tail)
    decreases ty, 0, 0
  {
    hide Tokens, IsToken, IsAnyToken, TypeText, Prefixes;
    if ty.Enum? {
      assert ty.values[i] in ty.values;
      IdentifierFirst(w, ty.values[i], tail);
    } else {
      var p := ty.params[i];
      assert p in ty.params;
      var text := Prefixes(p.spec) + TypeText(p.spec.ty, indent, depth + 1);
      FieldText(ty, i, indent, depth, tail);
      IdentifierFirst(w, p.name, ":" + (" " + (text + tail)));
      SymbolFirst("", ":", " " + (text + tail));
      assert "" + (":" + (" " + (text + tail))) == ":" + (" " + (text + tail));
      TokensOfPrefixed(p.spec, " ", indent, depth + 1, tail);
      assert [p.name] + ([":"] + ((PrefixTokens(p.spec) + TypeTokens(p.spec.ty)) + Tokens(tail))) == ItemTokens(ty, i) + Tokens(tail);
    }
  }

  lemma IdentifierFirst(w: string, name: string, t: string)
    requires AllBlank(w) && IsToken(Identifier, name) && AtBoundary(t)
    ensures Tokens(w + (name + t)) == [name] + Tokens(t)
  {
    hide Tokens, IsToken, IsAnyToken;
    AnyTokenOf(Identifier, name);
    TokenFirst(w, name, t) by { hide *; NotEmpty(name); }
  }

  lemma NotEmpty(s: string)
    requires IsAnyToken(s)
    ensures s != ""
  {
  }

  lemma {:induction false} TokensOfPrefixed(t: TypeSpec, w: string, indent: int, depth: nat, rest: string)
    requires Printable(t.ty) && AllBlank(w) && AtBoundary(rest)
    ensures Tokens(w + ((Prefixes(t) + TypeText(t.ty, indent, depth)) + rest)) == (PrefixTokens(t) + TypeTokens(t.ty)) + Tokens(rest)
    decreases t, 2, 0
  {
    hide Tokens, TypeText, Prefixes, ArrayText, PrefixTokens, TypeTokens, AllBlank;
    var text := TypeText(t.ty, indent, depth) + rest;
    TokensOfType(t.ty, w, indent, depth, rest);
    TokensOfType(t.ty, "", indent, depth, rest) by { NoBlanks(); }
    assert "" + text == text;
    TokensOfPrefixes(t, w, text, TypeTokens(t.ty) + Tokens(rest));
    PrefixedText(t, TypeText(t.ty, indent, depth), rest);
  }

  lemma {:induction false} TokensOfTail(ty: Type, i: nat, indent: int, depth: nat, rest: string)
    requires (ty.Enum? || ty.Struct?) && Printable(ty) && 0 < i <= NumItems(ty)
    ensures Tokens(Tail(ty, i, indent, depth, rest)) == TailTokens(ty, i) + Tokens(rest)
    decreases ty, 0, 1 + NumItems(ty) - i
  {
    hide Tokens, Gap, ItemText, Tail, LastGap, Printable, ItemTokens;
    if i == NumItems(ty) {
      TailAtEnd(ty, indent, depth, rest);
      SymbolFirst(LastGap(ty, indent, depth), ")", rest);
    } else {
      var tail := Tail(ty, i + 1, indent, depth, rest);
      var more := Gap(ty, indent, depth, i) + (ItemText(ty, i, indent, depth) + tail);
      TailOfItem(ty, i, indent, depth, rest);
      SymbolFirst("", ",", more);
      assert "" + ("," + more) == "," + more;
      GapIsBlank(ty, indent, depth, i);
      TailStart(ty, i + 1, indent, depth, rest);
      TokensOfItem(ty, i, Gap(ty, indent, depth, i), indent, depth, tail);
      TokensOfTail(ty, i + 1, indent, depth, rest);
      assert [","] + (ItemTokens(ty, i) + (TailTokens(ty, i + 1) + Tokens(rest))) == TailTokens(ty, i) + Tokens(rest);
    }
  }

  lemma {:induction false} TokensOfBody(ty: Type, indent: int, depth: nat, rest: string)
    requires (ty.Enum? || ty.Struct?) && Printable(ty)
    ensures Tokens(BodyText(ty, indent, depth, rest)) == BodyTokens(ty) + Tokens(rest)
    decreases ty, 0, 2 + NumItems(ty)
  {
    hide Tokens, Gap, Tail, ItemText, ItemTokens, TailTokens, Printable;
    if NumItems(ty) == 0 {
      SymbolFirst("", ")", rest);
      assert "" + (")" + rest) == ")" + rest;
    } else {
      var tail := Tail(ty, 1, indent, depth, rest);
      GapIsBlank(ty, indent, depth, 0);
      TailStart(ty, 1, indent, depth, rest);
      TokensOfItem(ty, 0, Gap(ty, indent, depth, 0), indent, depth, tail);
      TokensOfTail(ty, 1, indent, depth, rest);
      assert ItemTokens(ty, 0) + (TailTokens(ty, 1) + Tokens(rest)) == BodyTokens(ty) + Tokens(rest);
    }
  }

  lemma NameFirst(w: string, name: string, t: string)
    requires AllBlank(w) && IsTypeName(name) && AtBoundary(t)
    ensures Tokens(w + (name + t)) == [name] + Tokens(t)
  {
    hide Tokens, IsToken, IsAnyToken;
    AnyTokenOf(KeywordOrMember, name);
    TokenFirst(w, name, t) by { hide *; NotEmpty(name); }
  }

  /** The tokens of a printed type are the same for every indent, depth and layout. */
  lemma {:induction false} TokensOfType(ty: Type, w: string, indent: int, depth: nat, rest: string)
    requires Printable(ty) && AllBlank(w) && AtBoundary(rest)
    ensures Tokens(w + (TypeText(ty, indent, depth) + rest)) == TypeTokens(ty) + Tokens(rest)
    decreases ty, 1, 0
  {
    hide Tokens, AllBlank;
    if ty.Named? {
      NameFirst(w, ty.name, rest);
    } else {
      TokensOfBrackets(ty, w, indent, depth, rest);
    }
  }

  lemma {:induction false} TokensOfBrackets(ty: Type, w: string, indent: int, depth: nat, rest: string)
    requires (ty.Enum? || ty.Struct?) && Printable(ty) && AllBlank(w)
    ensures Tokens(w + (TypeText(ty, indent, depth) + rest)) == TypeTokens(ty) + Tokens(rest)
    decreases ty, 0, 3 + NumItems(ty)
  {
    hide Tokens, AllBlank, BodyText, BodyTokens, TypeText, Printable;
    TypeTextIsBody(ty, indent, depth, rest);
    SymbolFirst(w, "(", BodyText(ty, indent, depth, rest));
    TokensOfBody(ty, indent, depth, rest);
    Together("(", BodyTokens(ty), Tokens(rest));
  }

  lemma Together(a: string, b: seq<string>, c: seq<string>)
    ensures [a] + (b + c) == ([a] + b) + c
  {
  }

  lemma LayoutIsInvisible(ty: Type, indent: int, depth: nat, indent': int, depth': nat)
    requires Printable(ty)
    ensures Tokens(TypeText(ty, indent, depth)) == Tokens(TypeText(ty, indent', depth'))
  {
    hide Tokens, TypeText, Printable;
    TokensOfType(ty, "", indent, depth, "");
    TokensOfType(ty, "", indent', depth', "");
    assert "" + (TypeText(ty, indent, depth) + "") == TypeText(ty, indent, depth);
    assert "" + (TypeText(ty, indent', depth') + "") == TypeText(ty, indent', depth');
  }
}
