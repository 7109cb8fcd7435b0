/** Reading back a printed type gives the same type, whatever its layout. */
module TypeRoundTrip {
  import opened Wrappers
  import opened TypeSpecs
  import opened Lexer
  import opened Grammar
  import opened Printer
  import opened TokenRoundTrip

  /** A token that `read_type_spec` takes for the name of a type. */
  predicate IsTypeName(s: string) {
    IsToken(KeywordOrMember, s) && s !in ["?", "[]", "[string]", "("]
  }

  /** Types the language has a notation for, with any prefixes inside. */
  predicate Printable(ty: Type) {
    match ty
    case Invalid => false
    case Named(name) => IsTypeName(name)
    case Enum(values) => |values| >= 2 && forall v | v in values :: IsToken(Identifier, v)
    case Struct(params) => forall p | p in params :: IsToken(Identifier, p.name) && Printable(p.spec.ty)
  }

  lemma LayoutIsBlank(ty: Type, indent: int, depth: nat)
    ensures AllBlank(Margin(ty, indent, depth)) && AllBlank("\n" + Margin(ty, indent, depth))
    ensures AllBlank(" " + Margin(ty, indent, depth))
    ensures indent >= 0 ==> AllBlank("\n" + Spaces(indent * depth))
  {
  }

  /** The blanks behind the opening bracket or behind a separating comma. */
  function Gap(ty: Type, indent: int, depth: nat, i: nat): string {
    (if IsMultiline(ty, indent) then "\n" else if i == 0 then "" else " ") + Margin(ty, indent, depth)
  }

  lemma GapIsBlank(ty: Type, indent: int, depth: nat, i: nat)
    ensures AllBlank(Gap(ty, indent, depth, i))
  {
    LayoutIsBlank(ty, indent, depth);
  }

  /** What is left behind item `i - 1`: the other items, the closing bracket and the rest. */
  function Tail(ty: Type, i: nat, indent: int, depth: nat, rest: string): string
    requires (ty.Enum? || ty.Struct?) && i <= NumItems(ty)
  {
    ItemsFrom(ty, i, indent, depth) + (Closing(ty, indent, depth) + rest)
  }

  lemma TailOfItem(ty: Type, i: nat, indent: int, depth: nat, rest: string)
    requires (ty.Enum? || ty.Struct?) && 0 < i < NumItems(ty)
    ensures Tail(ty, i, indent, depth, rest)
         == "," + (Gap(ty, indent, depth, i) + (ItemText(ty, i, indent, depth) + Tail(ty, i + 1, indent, depth, rest)))
  {
    var blank := if IsMultiline(ty, indent) then "\n" else " ";
    assert Separator(ty, indent) == "," + blank;
    Reassociate(",", blank, Margin(ty, indent, depth), ItemText(ty, i, indent, depth),
                ItemsFrom(ty, i + 1, indent, depth), Closing(ty, indent, depth) + rest);
  }

  lemma Reassociate(a: string, b: string, c: string, d: string, e: string, f: string)
    ensures ((a + b) + (c + (d + e))) + f == a + ((b + c) + (d + (e + f)))
  {
  }

  lemma {:induction false} TypeTextOpens(ty: Type, indent: int, depth: nat, rest: string)
    requires (ty.Enum? || ty.Struct?) && NumItems(ty) > 0
    ensures TypeText(ty, indent, depth) + rest
         == "(" + (Gap(ty, indent, depth, 0) + (ItemText(ty, 0, indent, depth) + Tail(ty, 1, indent, depth, rest)))
  {
    hide IsMultiline, Margin, ItemText, Closing, TypeText, ItemsFrom;
    var blank := if IsMultiline(ty, indent) then "\n" else "";
    assert Opening(ty, indent) == "(" + blank;
    TypeTextIs(ty, indent, depth);
    FirstItem(ty, indent, depth);
    Reassociate("(", blank, Margin(ty, indent, depth), ItemText(ty, 0, indent, depth),
                ItemsFrom(ty, 1, indent, depth), Closing(ty, indent, depth) + rest);
    Reassociate3(Opening(ty, indent), ItemsFrom(ty, 0, indent, depth), Closing(ty, indent, depth), rest);
  }

  lemma TypeTextIs(ty: Type, indent: int, depth: nat)
    requires ty.Enum? || ty.Struct?
    ensures TypeText(ty, indent, depth) == Opening(ty, indent) + ItemsFrom(ty, 0, indent, depth) + Closing(ty, indent, depth)
  {
    hide IsMultiline, ItemsFrom;
  }

  lemma FirstItem(ty: Type, indent: int, depth: nat)
    requires (ty.Enum? || ty.Struct?) && NumItems(ty) > 0
    ensures ItemsFrom(ty, 0, indent, depth)
         == Margin(ty, indent, depth) + (ItemText(ty, 0, indent, depth) + ItemsFrom(ty, 1, indent, depth))
  {
    hide IsMultiline, Margin, ItemText;
    var items := Margin(ty, indent, depth) + (ItemText(ty, 0, indent, depth) + ItemsFrom(ty, 1, indent, depth));
    assert ItemsFrom(ty, 0, indent, depth) == "" + items;
  }

  lemma Reassociate3(a: string, b: string, c: string, d: string)
    ensures (a + b + c) + d == (a + b) + (c + d)
  {
  }

  lemma TailStart(ty: Type, i: nat, indent: int, depth: nat, rest: string)
    requires (ty.Enum? || ty.Struct?) && 0 < i <= NumItems(ty)
    ensures AtBoundary(Tail(ty, i, indent, depth, rest))
  {
    if i < NumItems(ty) {
      TailOfItem(ty, i, indent, depth, rest);
    }
  }

  /** The blanks in front of the closing bracket. */
  function LastGap(ty: Type, indent: int, depth: nat): string {
    if IsMultiline(ty, indent) then "\n" + Spaces(indent * depth) else ""
  }

  lemma TailAtEnd(ty: Type, indent: int, depth: nat, rest: string)
    requires ty.Enum? || ty.Struct?
    ensures Tail(ty, NumItems(ty), indent, depth, rest) == LastGap(ty, indent, depth) + (")" + rest)
    ensures AllBlank(LastGap(ty, indent, depth))
  {
    LayoutIsBlank(ty, indent, depth);
  }

  /** What is left behind the token after item `i - 1`. */
  function AfterSeparator(ty: Type, i: nat, indent: int, depth: nat, rest: string): string
    requires (ty.Enum? || ty.Struct?) && 0 < i <= NumItems(ty)
  {
    if i < NumItems(ty) then
      Gap(ty, indent, depth, i) + (ItemText(ty, i, indent, depth) + Tail(ty, i + 1, indent, depth, rest))
    else rest
  }

  /** The token behind an item: a comma, or the closing bracket. */
  lemma ReadSeparator(ty: Type, i: nat, indent: int, depth: nat, rest: string, doc: Doc)
    requires (ty.Enum? || ty.Struct?) && 0 < i <= NumItems(ty)
    ensures Expect(Keyword, Cursor(Tail(ty, i, indent, depth, rest), doc))
         == Ok(Read(if i < NumItems(ty) then "," else ")", Cursor(AfterSeparator(ty, i, indent, depth, rest), doc)))
  {
    hide Expect, ItemsFrom, Gap, LastGap, ItemText, IsToken, Closing;
    SymbolIsToken(",");
    SymbolIsToken(")");
    if i < NumItems(ty) {
      TailOfItem(ty, i, indent, depth, rest);
      var more := AfterSeparator(ty, i, indent, depth, rest);
      ReadToken(Keyword, "", ",", more, doc);
      assert "" + ("," + more) == "," + more;
    } else {
      TailAtEnd(ty, indent, depth, rest);
      ReadToken(Keyword, LastGap(ty, indent, depth), ")", rest, doc);
    }
  }

  /** The fields collected before item `i` is read. */
  function Collected(ty: Type, i: nat): Type
    requires (ty.Enum? || ty.Struct?) && i <= NumItems(ty)
  {
    if i == 0 then Invalid
    else if ty.Enum? then Enum(ty.values[..i]) else Struct(ty.params[..i])
  }

  lemma CollectedGrows(ty: Type, i: nat)
    requires (ty.Enum? || ty.Struct?) && i < NumItems(ty)
    ensures ty.Enum? ==> Collected(ty, i + 1) == Enum((if i == 0 then [] else ty.values[..i]) + [ty.values[i]])
    ensures ty.Struct? ==> Collected(ty, i + 1) == Struct((if i == 0 then [] else ty.params[..i]) + [ty.params[i]])
    ensures Collected(ty, NumItems(ty)) == ty
  {
    if ty.Enum? {
      assert ty.values[..|ty.values|] == ty.values;
      assert ty.values[..i + 1] == ty.values[..i] + [ty.values[i]];
    } else {
      assert ty.params[..|ty.params|] == ty.params;
      assert ty.params[..i + 1] == ty.params[..i] + [ty.params[i]];
    }
  }

  /** One round of the loop of `read_struct` for an enum value. */
  lemma EnumRound(ty: Type, i: nat, c: Cursor, c1: Cursor, c2: Cursor)
    requires ty.Enum? && NumItems(ty) >= 2 && i < NumItems(ty)
    requires Expect(Identifier, c) == Ok(Read(ty.values[i], c1))
    requires Expect(Keyword, c1) == Ok(Read(if i + 1 < NumItems(ty) then "," else ")", c2))
    ensures ReadFields(c, Collected(ty, i))
         == if i + 1 < NumItems(ty) then ReadFields(c2, Collected(ty, i + 1)) else Ok(Read(ty, c2))
  {
    hide Expect;
    CollectedGrows(ty, i);
  }

  /** One round of the loop for a struct field. */
  lemma StructRound(ty: Type, i: nat, c: Cursor, c1: Cursor, c2: Cursor, c3: Cursor, c4: Cursor)
    requires ty.Struct? && i < NumItems(ty)
    requires Expect(Identifier, c) == Ok(Read(ty.params[i].name, c1))
    requires Expect(Keyword, c1) == Ok(Read(":", c2))
    requires ReadTypeSpec(c2, false) == Ok(Read(ty.params[i].spec, c3))
    requires Expect(Keyword, c3) == Ok(Read(if i + 1 < NumItems(ty) then "," else ")", c4))
    ensures ReadFields(c, Collected(ty, i))
         == if i + 1 < NumItems(ty) then ReadFields(c4, Collected(ty, i + 1)) else Ok(Read(ty, c4))
  {
    hide Expect, ReadTypeSpec;
    CollectedGrows(ty, i);
  }

  lemma {:induction false} ReadEnumItems(ty: Type, i: nat, w: string, indent: int, depth: nat, rest: string, doc: Doc)
    requires ty.Enum? && Printable(ty) && i < NumItems(ty) && AllBlank(w)
    ensures ReadFields(Cursor(w + (ItemText(ty, i, indent, depth) + Tail(ty, i + 1, indent, depth, rest)), doc), Collected(ty, i))
         == Ok(Read(ty, Cursor(rest, doc)))
    decreases NumItems(ty) - i
  {
    hide Expect, ReadFields, Gap, Tail;
    var tail := Tail(ty, i + 1, indent, depth, rest);
    assert IsToken(Identifier, ty.values[i]) by { assert ty.values[i] in ty.values; }
    TailStart(ty, i + 1, indent, depth, rest);
    ReadToken(Identifier, w, ty.values[i], tail, doc);
    ReadSeparator(ty, i + 1, indent, depth, rest, doc);
    EnumRound(ty, i, Cursor(w + (ty.values[i] + tail), doc), Cursor(tail, doc), Cursor(AfterSeparator(ty, i + 1, indent, depth, rest), doc));
    if i + 1 < NumItems(ty) {
      GapIsBlank(ty, indent, depth, i + 1);
      ReadEnumItems(ty, i + 1, Gap(ty, indent, depth, i + 1), indent, depth, rest, doc);
    }
  }

  lemma {:induction false} ReadStructItems(ty: Type, i: nat, w: string, indent: int, depth: nat, rest: string, doc: Doc)
    requires ty.Struct? && Printable(ty) && i < NumItems(ty) && AllBlank(w)
    ensures ReadFields(Cursor(w + (ItemText(ty, i, indent, depth) + Tail(ty, i + 1, indent, depth, rest)), doc), Collected(ty, i))
         == Ok(Read(ty, Cursor(rest, doc)))
    decreases ty, NumItems(ty) - i, 0
  {
    hide Expect, ReadFields, ReadTypeSpec, Gap, Tail, TypeText, Prefixes, ItemText, IsToken;
    var p := ty.params[i];
    assert p in ty.params;
    var tail := Tail(ty, i + 1, indent, depth, rest);
    var text := Prefixes(p.spec) + TypeText(p.spec.ty, indent, depth + 1);
    var c := Cursor(w + (ItemText(ty, i, indent, depth) + tail), doc);
    FieldText(ty, i, indent, depth, tail);
    ReadToken(Identifier, w, p.name, ":" + (" " + (text + tail)), doc) by { NameThenColon(p.name, " " + (text + tail)); }
    ReadColon(" " + (text + tail), doc);
    TailStart(ty, i + 1, indent, depth, rest);
    ReadPrefixed(p.spec, " ", indent, depth + 1, tail, doc);
    ReadSeparator(ty, i + 1, indent, depth, rest, doc);
    StructRound(ty, i, c, Cursor(":" + (" " + (text + tail)), doc), Cursor(" " + (text + tail), doc), Cursor(tail, doc),
                Cursor(AfterSeparator(ty, i + 1, indent, depth, rest), doc));
    if i + 1 < NumItems(ty) {
      GapIsBlank(ty, indent, depth, i + 1);
      ReadStructItems(ty, i + 1, Gap(ty, indent, depth, i + 1), indent, depth, rest, doc);
    }
  }

  lemma FieldText(ty: Type, i: nat, indent: int, depth: nat, tail: string)
    requires ty.Struct? && i < NumItems(ty)
    ensures var p := ty.params[i];
            ItemText(ty, i, indent, depth) + tail
            == p.name + (":" + (" " + ((Prefixes(p.spec) + TypeText(p.spec.ty, indent, depth + 1)) + tail)))
  {
    hide Prefixes, TypeText;
    var p := ty.params[i];
    var text := Prefixes(p.spec) + TypeText(p.spec.ty, indent, depth + 1);
    assert ItemText(ty, i, indent, depth) == p.name + (":" + (" " + text));
  }

  lemma NameThenColon(name: string, t: string)
    requires IsToken(Identifier, name)
    ensures Follows(Identifier, name, ":" + t)
  {
  }

  lemma ReadColon(t: string, doc: Doc)
    ensures Expect(Keyword, Cursor(":" + t, doc)) == Ok(Read(":", Cursor(t, doc)))
  {
    hide Expect, IsToken;
    SymbolIsToken(":");
    ReadToken(Keyword, "", ":", t, doc);
    assert "" + (":" + t) == ":" + t;
  }

  /** Inside the brackets. */
  lemma ReadBody(ty: Type, indent: int, depth: nat, rest: string, doc: Doc)
    requires (ty.Enum? || ty.Struct?) && Printable(ty) && NumItems(ty) > 0
    ensures ReadStructBody(Cursor(Gap(ty, indent, depth, 0) + (ItemText(ty, 0, indent, depth) + Tail(ty, 1, indent, depth, rest)), doc))
         == Ok(Read(ty, Cursor(rest, doc)))
    decreases ty, NumItems(ty) + 1
  {
    hide Expect, SkipSpace, Gap, Tail, ItemText, ReadFields;
    var items := ItemText(ty, 0, indent, depth) + Tail(ty, 1, indent, depth, rest);
    GapIsBlank(ty, indent, depth, 0);
    ItemStart(ty, indent, depth);
    NotClosing(Gap(ty, indent, depth, 0), items, doc);
    assert "" + items == items;
    if ty.Enum? {
      ReadEnumItems(ty, 0, "", indent, depth, rest, doc);
    } else {
      ReadStructItems(ty, 0, "", indent, depth, rest, doc);
    }
  }

  lemma NotClosing(w: string, items: string, doc: Doc)
    requires AllBlank(w) && items != "" && !IsBlank(items[0]) && items[0] != '#' && items[0] != ')'
    ensures Expect(ClosingBracket, Cursor(w + items, doc)) == Err(NoMatch)
    ensures SkipSpace(Cursor(w + items, doc)) == Cursor(items, doc)
  {
    hide SpaceLength, LastComment, FirstComment;
    SkipBlank(w, items, doc);
  }

  lemma ItemStart(ty: Type, indent: int, depth: nat)
    requires (ty.Enum? || ty.Struct?) && Printable(ty) && NumItems(ty) > 0
    ensures var item := ItemText(ty, 0, indent, depth);
            item != "" && !IsBlank(item[0]) && item[0] != '#' && item[0] != ')'
  {
    var name := if ty.Enum? then ty.values[0] else ty.params[0].name;
    assert IsToken(Identifier, name) by {
      if ty.Enum? { assert name in ty.values; } else { assert ty.params[0] in ty.params; }
    }
    assert ItemText(ty, 0, indent, depth)[0] == name[0];
  }

  lemma ReadOpening(p: Pattern, w: string, t: string, doc: Doc)
    requires (p.Keyword? || p.KeywordOrMember?) && AllBlank(w)
    ensures Expect(p, Cursor(w + ("(" + t), doc)) == Ok(Read("(", Cursor(t, doc)))
  {
    hide Expect, IsToken;
    SymbolIsToken("(");
    ReadToken(p, w, "(", t, doc);
  }

  lemma ReadEmptyBody(rest: string, doc: Doc)
    ensures ReadStructBody(Cursor(")" + rest, doc)) == Ok(Read(Struct([]), Cursor(rest, doc)))
  {
    hide Expect;
    ReadToken(ClosingBracket, "", ")", rest, doc);
    assert "" + (")" + rest) == ")" + rest;
  }

  /** What follows the opening bracket of a printed struct or enum. */
  function BodyText(ty: Type, indent: int, depth: nat, rest: string): string
    requires ty.Enum? || ty.Struct?
  {
    if NumItems(ty) == 0 then ")" + rest
    else Gap(ty, indent, depth, 0) + (ItemText(ty, 0, indent, depth) + Tail(ty, 1, indent, depth, rest))
  }

  lemma {:induction false} TypeTextIsBody(ty: Type, indent: int, depth: nat, rest: string)
    requires ty.Enum? || ty.Struct?
    ensures TypeText(ty, indent, depth) + rest == "(" + BodyText(ty, indent, depth, rest)
  {
    if NumItems(ty) == 0 {
      assert TypeText(ty, indent, depth) == "()";
    } else {
      TypeTextOpens(ty, indent, depth, rest);
    }
  }

  lemma ReadAnyBody(ty: Type, indent: int, depth: nat, rest: string, doc: Doc)
    requires (ty.Enum? || ty.Struct?) && Printable(ty)
    ensures ReadStructBody(Cursor(BodyText(ty, indent, depth, rest), doc)) == Ok(Read(ty, Cursor(rest, doc)))
    decreases ty, NumItems(ty) + 2
  {
    hide Expect, ReadStructBody;
    if NumItems(ty) == 0 {
      ReadEmptyBody(rest, doc);
    } else {
      ReadBody(ty, indent, depth, rest, doc);
    }
  }

  /** A type without its prefixes. */
  lemma ReadType(ty: Type, w: string, indent: int, depth: nat, rest: string, doc: Doc, wasMaybe: bool)
    requires Printable(ty) && AllBlank(w) && AtBoundary(rest)
    ensures ReadTypeSpec(Cursor(w + (TypeText(ty, indent, depth) + rest), doc), wasMaybe)
         == Ok(Read(Bare(ty), Cursor(rest, doc)))
    decreases ty, if ty.Enum? || ty.Struct? then NumItems(ty) + 3 else 3
  {
    hide Expect, ReadStructBody, BodyText;
    if ty.Named? {
      ReadToken(KeywordOrMember, w, ty.name, rest, doc);
    } else {
      TypeTextIsBody(ty, indent, depth, rest);
      ReadOpening(KeywordOrMember, w, BodyText(ty, indent, depth, rest), doc);
      ReadAnyBody(ty, indent, depth, rest, doc);
    }
  }

  /** One prefix in front of a type text. */
  lemma ReadPrefix(prefix: string, w: string, text: string, t: TypeSpec, c: Cursor, wasMaybe: bool)
    requires prefix in ["?", "[]", "[string]"] && AllBlank(w)
    requires prefix == "?" ==> !wasMaybe
    requires ReadTypeSpec(Cursor(text, c.doc), prefix == "?") == Ok(Read(t, c))
    ensures ReadTypeSpec(Cursor(w + (prefix + text), c.doc), wasMaybe)
         == Ok(Read(if prefix == "?" then t.(maybeType := true)
                    else if prefix == "[]" then t.(arrayType := true) else t.(dictType := true), c))
  {
    hide Expect, IsToken;
    SymbolIsToken(prefix);
    ReadToken(KeywordOrMember, w, prefix, text, c.doc);
  }

  function DictText(t: TypeSpec, base: string): string {
    if t.dictType then "[string]" + base else base
  }

  function ArrayText(t: TypeSpec, base: string): string {
    if t.arrayType then "[]" + DictText(t, base) else DictText(t, base)
  }

  lemma ReadDictPart(t: TypeSpec, w: string, indent: int, depth: nat, rest: string, doc: Doc, wasMaybe: bool)
    requires Printable(t.ty) && AllBlank(w) && AtBoundary(rest)
    ensures ReadTypeSpec(Cursor(w + DictText(t, TypeText(t.ty, indent, depth) + rest), doc), wasMaybe)
         == Ok(Read(TypeSpec(t.ty, false, t.dictType, false), Cursor(rest, doc)))
    decreases t, 4
  {
    hide ReadTypeSpec, TypeText;
    var base := TypeText(t.ty, indent, depth) + rest;
    if t.dictType {
      assert "" + base == base;
      ReadType(t.ty, "", indent, depth, rest, doc, false);
      ReadPrefix("[string]", w, base, Bare(t.ty), Cursor(rest, doc), wasMaybe);
    } else {
      ReadType(t.ty, w, indent, depth, rest, doc, wasMaybe);
    }
  }

  lemma ReadArrayPart(t: TypeSpec, w: string, indent: int, depth: nat, rest: string, doc: Doc, wasMaybe: bool)
    requires Printable(t.ty) && AllBlank(w) && AtBoundary(rest)
    ensures ReadTypeSpec(Cursor(w + ArrayText(t, TypeText(t.ty, indent, depth) + rest), doc), wasMaybe)
         == Ok(Read(TypeSpec(t.ty, false, t.dictType, t.arrayType), Cursor(rest, doc)))
    decreases t, 5
  {
    hide ReadTypeSpec, TypeText, DictText;
    var dict := DictText(t, TypeText(t.ty, indent, depth) + rest);
    if t.arrayType {
      assert "" + dict == dict;
      ReadDictPart(t, "", indent, depth, rest, doc, false);
      ReadPrefix("[]", w, dict, TypeSpec(t.ty, false, t.dictType, false), Cursor(rest, doc), wasMaybe);
    } else {
      ReadDictPart(t, w, indent, depth, rest, doc, wasMaybe);
    }
  }

  lemma PrefixedText(t: TypeSpec, text: string, rest: string)
    ensures (Prefixes(t) + text) + rest == if t.maybeType then "?" + ArrayText(t, text + rest) else ArrayText(t, text + rest)
  {
  }

  /** A type with its prefixes, as it stands behind a field name. */
  lemma ReadPrefixed(t: TypeSpec, w: string, indent: int, depth: nat, rest: string, doc: Doc)
    requires Printable(t.ty) && AllBlank(w) && AtBoundary(rest)
    ensures ReadTypeSpec(Cursor(w + ((Prefixes(t) + TypeText(t.ty, indent, depth)) + rest), doc), false)
         == Ok(Read(t, Cursor(rest, doc)))
    decreases t, 6
  {
    hide ReadTypeSpec, TypeText, ArrayText, Prefixes;
    var arr := ArrayText(t, TypeText(t.ty, indent, depth) + rest);
    PrefixedText(t, TypeText(t.ty, indent, depth), rest);
    if t.maybeType {
      assert "" + arr == arr;
      ReadArrayPart(t, "", indent, depth, rest, doc, true);
      ReadPrefix("?", w, arr, TypeSpec(t.ty, false, t.dictType, t.arrayType), Cursor(rest, doc), false);
    } else {
      ReadArrayPart(t, w, indent, depth, rest, doc, false);
    }
  }

  /** `read_struct` on a printed struct or enum, as in a method. */
  lemma ReadBracketed(ty: Type, w: string, indent: int, rest: string, doc: Doc)
    requires (ty.Enum? || ty.Struct?) && Printable(ty) && AllBlank(w)
    ensures ReadStruct(Cursor(w + (TypeText(ty, indent, 0) + rest), doc)) == Ok(Read(ty, Cursor(rest, doc)))
  {
    hide Expect, ReadStructBody, BodyText;
    TypeTextIsBody(ty, indent, 0, rest);
    ReadOpening(Keyword, w, BodyText(ty, indent, 0, rest), doc);
    ReadAnyBody(ty, indent, 0, rest, doc);
  }
}
