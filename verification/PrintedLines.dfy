/** What the printed text of a type looks like: its lines, their margins and its separators. */
module PrintedLines {
  import opened TypeSpecs
  import opened Printer

  function Blanks(n: nat): (s: string)
    ensures |s| == n && forall k | 0 <= k < n :: s[k] == ' '
  {
    if n == 0 then "" else " " + Blanks(n - 1)
  }

  function Join(parts: seq<string>, sep: string): string {
    if parts == [] then ""
    else if |parts| == 1 then parts[0]
    else parts[0] + sep + Join(parts[1..], sep)
  }

  /** More than two fields, or a field that is an array or a struct. */
  predicate NeedsLines(ty: Type) {
    && ty.Struct?
    && (|ty.params| >= 3 || exists k | 0 <= k < |ty.params| :: ty.params[k].spec.arrayType || ty.params[k].spec.ty.Struct?)
  }

  lemma NeedsLinesIs(ty: Type, indent: int)
    ensures IsMultiline(ty, indent) <==> indent >= 0 && NeedsLines(ty)
  {
    if ty.Struct? {
      assert forall k | 0 <= k < |ty.params| :: ty.params[k] in ty.params;
    }
  }

  // ----- The text as a list of items -----

  /** An enum value, or a field with its type, one level deeper. */
  function Item(ty: Type, i: nat, indent: int, depth: nat): string
    requires (ty.Enum? && i < |ty.values|) || (ty.Struct? && i < |ty.params|)
  {
    match ty
    case Enum(values) => values[i]
    case Struct(params) =>
      params[i].name + ": " + WithPrefixes(params[i].spec, TypeText(params[i].spec.ty, indent, depth + 1))
  }

  function WithPrefixes(t: TypeSpec, text: string): string {
    match (t.maybeType, t.arrayType, t.dictType)
    case (false, false, false) => text
    case (false, false, true) => "[string]" + text
    case (false, true, false) => "[]" + text
    case (false, true, true) => "[][string]" + text
    case (true, false, false) => "?" + text
    case (true, false, true) => "?[string]" + text
    case (true, true, false) => "?[]" + text
    case (true, true, true) => "?[][string]" + text
  }

  function Size(ty: Type): nat {
    match ty
    case Enum(values) => |values|
    case Struct(params) => |params|
    case _ => 0
  }

  function Items(ty: Type, indent: int, depth: nat, margin: nat): (items: seq<string>)
    ensures |items| == Size(ty)
  {
    seq(Size(ty), i requires 0 <= i < Size(ty) => Blanks(margin) + Item(ty, i, indent, depth))
  }

  lemma {:induction false} SpacesAre(n: nat)
    ensures Spaces(n) == Blanks(n)
  {
  }

  lemma ItemIs(ty: Type, i: nat, indent: int, depth: nat)
    requires (ty.Enum? || ty.Struct?) && i < NumItems(ty)
    ensures ItemText(ty, i, indent, depth) == Item(ty, i, indent, depth)
  {
    hide TypeText;
    if ty.Struct? {
      var p := ty.params[i];
      PrefixesAre(p.spec, TypeText(p.spec.ty, indent, depth + 1));
      var text := Prefixes(p.spec) + TypeText(p.spec.ty, indent, depth + 1);
      assert p.name + ": " + Prefixes(p.spec) + TypeText(p.spec.ty, indent, depth + 1) == p.name + ": " + text;
    }
  }

  lemma PrefixesAre(t: TypeSpec, text: string)
    ensures Prefixes(t) + text == WithPrefixes(t, text)
  {
    assert "[]" + "[string]" == "[][string]";
    assert "?" + "[]" == "?[]" && "?" + "[string]" == "?[string]" && "?[]" + "[string]" == "?[][string]";
  }

  /** The items from `i` on, behind their separators. */
  lemma {:induction false} ItemsAre(ty: Type, i: nat, indent: int, depth: nat, margin: nat)
    requires (ty.Enum? || ty.Struct?) && i <= NumItems(ty)
    requires Margin(ty, indent, depth) == Blanks(margin)
    ensures var items, sep := Items(ty, indent, depth, margin), Separator(ty, indent);
            ItemsFrom(ty, i, indent, depth) == (if 0 < i < NumItems(ty) then sep else "") + Join(items[i..], sep)
    decreases NumItems(ty) - i
  {
    hide ItemText, Item, Margin, Separator, Blanks, TypeText, ItemsFrom;
    var items, sep := Items(ty, indent, depth, margin), Separator(ty, indent);
    if i == NumItems(ty) {
      NoItems(ty, indent, depth);
      assert items[i..] == [];
    } else {
      ItemStep(ty, i, indent, depth);
      ItemIs(ty, i, indent, depth);
      ItemsAre(ty, i + 1, indent, depth, margin);
      assert items[i..] == [items[i]] + items[i + 1..];
      assert i + 1 == NumItems(ty) ==> items[i + 1..] == [] && items[i..] == [items[i]];
      assert items[i] == Margin(ty, indent, depth) + ItemText(ty, i, indent, depth);
      JoinStep(items[i..], sep);
      assert items[i..][1..] == items[i + 1..] && items[i..][0] == items[i];
      var rest := if i + 1 == NumItems(ty) then "" else sep + Join(items[i + 1..], sep);
      assert (if i == 0 then "" else sep) + (Margin(ty, indent, depth) + (ItemText(ty, i, indent, depth) + rest))
          == (if i == 0 then "" else sep) + (items[i] + rest);
    }
  }

  lemma JoinStep(parts: seq<string>, sep: string)
    requires parts != []
    ensures Join(parts, sep) == parts[0] + if |parts| == 1 then "" else sep + Join(parts[1..], sep)
  {
  }

  lemma NoItems(ty: Type, indent: int, depth: nat)
    requires ty.Enum? || ty.Struct?
    ensures ItemsFrom(ty, NumItems(ty), indent, depth) == ""
  {
  }

  lemma ItemStep(ty: Type, i: nat, indent: int, depth: nat)
    requires (ty.Enum? || ty.Struct?) && i < NumItems(ty)
    ensures ItemsFrom(ty, i, indent, depth)
         == (if i == 0 then "" else Separator(ty, indent))
            + (Margin(ty, indent, depth) + (ItemText(ty, i, indent, depth) + ItemsFrom(ty, i + 1, indent, depth)))
  {
    hide ItemText, Margin, Separator;
  }

  /**
   A struct that needs lines, with an indent: each field stands on a line of its own, `indent`
   blanks deeper than the closing bracket. Everything else stands between two brackets on one
   line, as far as its own level goes.
   */
  lemma {:induction false} TypeLines(ty: Type, indent: int, depth: nat)
    requires ty.Enum? || ty.Struct?
    ensures if indent >= 0 && NeedsLines(ty) then
              TypeText(ty, indent, depth)
              == "(\n" + Join(Items(ty, indent, depth, indent * (depth + 1)), ",\n") + ("\n" + Blanks(indent * depth) + ")")
            else
              TypeText(ty, indent, depth) == "(" + Join(Items(ty, indent, depth, 0), ", ") + ")"
  {
    hide IsMultiline, NeedsLines, ItemsFrom, Items, TypeText, Blanks, Join, Spaces;
    NeedsLinesIs(ty, indent);
    if IsMultiline(ty, indent) {
      NotNegative(indent, depth);
      IndentedLines(ty, indent, depth, indent * (depth + 1), indent * depth);
    } else {
      PlainLine(ty, indent, depth);
    }
  }

  lemma NotNegative(indent: int, depth: nat)
    requires indent >= 0
    ensures indent * depth >= 0 && indent * (depth + 1) >= 0
  {
  }

  lemma {:induction false} IndentedLines(ty: Type, indent: int, depth: nat, inner: nat, outer: nat)
    requires (ty.Enum? || ty.Struct?) && IsMultiline(ty, indent) && inner == indent * (depth + 1) && outer == indent * depth
    ensures TypeText(ty, indent, depth) == "(\n" + Join(Items(ty, indent, depth, inner), ",\n") + ("\n" + Blanks(outer) + ")")
  {
    hide IsMultiline, ItemsFrom, Items, TypeText, Blanks, Join, Spaces;
    TypeTextParts(ty, indent, depth);
    SpacesAre(inner);
    SpacesAre(outer);
    ItemsAre(ty, 0, indent, depth, inner);
    var items := Items(ty, indent, depth, inner);
    assert items[0..] == items;
    assert "" + Join(items, ",\n") == Join(items, ",\n");
  }

  lemma {:induction false} PlainLine(ty: Type, indent: int, depth: nat)
    requires (ty.Enum? || ty.Struct?) && !IsMultiline(ty, indent)
    ensures TypeText(ty, indent, depth) == "(" + Join(Items(ty, indent, depth, 0), ", ") + ")"
  {
    hide IsMultiline, ItemsFrom, Items, TypeText, Join, Spaces;
    TypeTextParts(ty, indent, depth);
    ItemsAre(ty, 0, indent, depth, 0);
    var items := Items(ty, indent, depth, 0);
    assert items[0..] == items;
    assert "" + Join(items, ", ") == Join(items, ", ");
  }

  lemma TypeTextParts(ty: Type, indent: int, depth: nat)
    requires ty.Enum? || ty.Struct?
    ensures TypeText(ty, indent, depth) == Opening(ty, indent) + ItemsFrom(ty, 0, indent, depth) + Closing(ty, indent, depth)
  {
    hide IsMultiline, ItemsFrom;
  }

  // ----- Where there are newlines -----

  predicate OneLine(s: string) {
    '\n' !in s
  }

  /** No name in the type has a newline in it. */
  predicate PlainNames(ty: Type) {
    match ty
    case Invalid => true
    case Named(name) => OneLine(name)
    case Enum(values) => forall v | v in values :: OneLine(v)
    case Struct(params) => forall p | p in params :: OneLine(p.name) && PlainNames(p.spec.ty)
  }

  /** The type needs lines, or a type inside it does. */
  predicate HasLines(ty: Type) {
    ty.Struct? && (NeedsLines(ty) || exists p | p in ty.params :: HasLines(p.spec.ty))
  }

  lemma OneLineParts(a: string, b: string)
    ensures OneLine(a + b) <==> OneLine(a) && OneLine(b)
  {
  }

  lemma {:induction false} JoinLines(parts: seq<string>, sep: string)
    requires OneLine(sep)
    ensures OneLine(Join(parts, sep)) <==> forall i | 0 <= i < |parts| :: OneLine(parts[i])
  {
    hide OneLine;
    if parts == [] {
      NothingIsOneLine();
    } else if |parts| > 1 {
      var rest := parts[1..];
      JoinLines(rest, sep);
      OneLineParts(parts[0], sep);
      OneLineParts(parts[0] + sep, Join(rest, sep));
      assert forall i | 0 <= i < |rest| :: rest[i] == parts[i + 1];
      assert forall i | 1 <= i < |parts| :: parts[i] == rest[i - 1];
    }
  }

  lemma NothingIsOneLine()
    ensures OneLine("") && OneLine("(") && OneLine(")") && OneLine(", ") && !OneLine("(\n")
  {
    assert "(\n"[1] == '\n';
  }

  lemma BracketsOneLine(text: string)
    ensures OneLine("(" + text + ")") <==> OneLine(text)
  {
    hide OneLine;
    NothingIsOneLine();
    OneLineParts("(", text);
    OneLineParts("(" + text, ")");
  }

  lemma {:induction false} NewlineIff(ty: Type, indent: int, depth: nat)
    requires PlainNames(ty)
    ensures '\n' in TypeText(ty, indent, depth) <==> indent >= 0 && HasLines(ty)
    decreases ty, 1
  {
    hide TypeText, Join, Items, NeedsLines, Blanks;
    if ty.Enum? || ty.Struct? {
      TypeLines(ty, indent, depth);
      if indent >= 0 && NeedsLines(ty) {
        var rest := Join(Items(ty, indent, depth, indent * (depth + 1)), ",\n") + ("\n" + Blanks(indent * depth) + ")");
        NothingIsOneLine();
        OneLineParts("(\n", rest);
        assert TypeText(ty, indent, depth) == "(\n" + rest;
        NeedsIsHas(ty);
      } else {
        NewlineInItems(ty, indent, depth);
        BracketsOneLine(Join(Items(ty, indent, depth, 0), ", "));
      }
    } else {
      NoBrackets(ty, indent, depth);
    }
  }

  lemma NeedsIsHas(ty: Type)
    ensures NeedsLines(ty) ==> HasLines(ty)
  {
  }

  lemma {:induction false} NewlineInItems(ty: Type, indent: int, depth: nat)
    requires (ty.Enum? || ty.Struct?) && PlainNames(ty) && !(indent >= 0 && NeedsLines(ty))
    ensures OneLine(Join(Items(ty, indent, depth, 0), ", ")) <==> !(indent >= 0 && HasLines(ty))
    decreases ty, 0
  {
    hide TypeText, Join, Items, NeedsLines, Blanks, OneLine;
    var items := Items(ty, indent, depth, 0);
    NothingIsOneLine();
    JoinLines(items, ", ");
    forall i | 0 <= i < Size(ty) ensures OneLine(items[i]) <==> !(ty.Struct? && indent >= 0 && HasLines(ty.params[i].spec.ty)) {
      if ty.Struct? {
        assert ty.params[i] in ty.params;
        NewlineIff(ty.params[i].spec.ty, indent, depth + 1);
        IsOneLine(TypeText(ty.params[i].spec.ty, indent, depth + 1));
      } else {
        assert ty.values[i] in ty.values;
      }
      ItemLine(ty, i, indent, depth);
    }
    if ty.Struct? {
      HasLinesAt(ty);
    }
  }

  lemma IsOneLine(s: string)
    ensures OneLine(s) <==> '\n' !in s
  {
  }

  lemma HasLinesAt(ty: Type)
    requires ty.Struct?
    ensures HasLines(ty) <==> NeedsLines(ty) || exists i :: 0 <= i < |ty.params| && HasLines(ty.params[i].spec.ty)
  {
    hide NeedsLines;
    assert forall i | 0 <= i < |ty.params| :: ty.params[i] in ty.params;
  }

  lemma NoBrackets(ty: Type, indent: int, depth: nat)
    requires ty.Named? || ty.Invalid?
    ensures TypeText(ty, indent, depth) == if ty.Named? then ty.name else "()"
  {
  }

  lemma ItemLine(ty: Type, i: nat, indent: int, depth: nat)
    requires (ty.Enum? || ty.Struct?) && i < Size(ty)
    requires ty.Enum? ==> OneLine(ty.values[i])
    requires ty.Struct? ==> OneLine(ty.params[i].name)
    ensures OneLine(Items(ty, indent, depth, 0)[i]) <==> ty.Enum? || OneLine(TypeText(ty.params[i].spec.ty, indent, depth + 1))
  {
    hide TypeText;
    assert Blanks(0) == "";
  }

  // ----- Members -----

  /** Types are printed with an indent of four ... */
  lemma TypeMemberLines(name: string, doc: string, ty: Type)
    ensures MemberText(Member(TypeMember, name, doc, Bare(ty))) == doc + ("type " + name + " " + TypeText(ty, 4, 0) + "\n")
  {
    hide TypeText;
    Regroup4(doc, "type ", name, " ", TypeText(ty, 4, 0), "\n");
  }

  /** ... and errors on one line. */
  lemma ErrorMemberLines(name: string, doc: string, ty: Type)
    ensures MemberText(Member(ErrorMember, name, doc, Bare(ty))) == doc + ("error " + name + " " + TypeText(ty, -1, 0) + "\n")
  {
    hide TypeText;
    Regroup4(doc, "error ", name, " ", TypeText(ty, -1, 0), "\n");
  }

  /** The parameters of a method are printed on one line, its results with an indent of four. */
  lemma MethodMemberLines(name: string, doc: string, p: Type, r: Type)
    ensures var params := [Param("parameters", Bare(p)), Param("return_value", Bare(r))];
            MemberText(Member(MethodMember, name, doc, Bare(Struct(params))))
            == doc + ("method " + name + (TypeText(p, -1, 0) + " -> " + TypeText(r, 4, 0) + "\n"))
  {
    hide TypeText;
    Together(doc, "method ", name, TypeText(p, -1, 0) + " -> " + TypeText(r, 4, 0) + "\n");
  }

  lemma Regroup4(a: string, b: string, c: string, d: string, e: string, f: string)
    ensures a + b + c + d + e + f == a + (b + c + d + e + f)
  {
  }

  lemma Together(a: string, b: string, c: string, d: string)
    ensures a + b + c + d == a + (b + c + d)
  {
  }

  // ----- An example -----

  /** Three fields take three lines. */
  lemma ThreeFields()
    ensures var params := [Param("a", Bare(Named("int"))), Param("b", Bare(Named("bool"))), Param("c", TypeSpec(Named("T"), true, false, false))];
            TypeText(Struct(params), 4, 0) == "(\n" + ("    a: int,\n" + ("    b: bool,\n" + ("    c: ?T" + ("\n" + ")"))))
  {
    hide TypeText, Join, Items;
    var ty := Struct([Param("a", Bare(Named("int"))), Param("b", Bare(Named("bool"))), Param("c", TypeSpec(Named("T"), true, false, false))]);
    TypeLines(ty, 4, 0);
    NoBrackets(Named("int"), 4, 1);
    NoBrackets(Named("bool"), 4, 1);
    NoBrackets(Named("T"), 4, 1);
    var items := Items(ty, 4, 0, 4);
    assert Blanks(4) == "    " && Blanks(0) == "";
    ItemsOfThree(ty);
    JoinStep(items, ",\n");
    JoinStep(items[1..], ",\n");
    JoinStep(items[2..], ",\n");
    assert items[1..][1..] == items[2..] && items[1..][0] == items[1] && items[2..][0] == items[2];
    assert "    a: int" + ",\n" == "    a: int,\n" && "    b: bool" + ",\n" == "    b: bool,\n";
    RegroupLines("(\n", "    a: int", ",\n", "    b: bool", "    c: ?T", "\n", ")");
  }

  lemma RegroupLines(o: string, a: string, sep: string, b: string, c: string, nl: string, close: string)
    ensures o + (a + (sep + (b + (sep + (c + ""))))) + (nl + "" + close) == o + ((a + sep) + ((b + sep) + (c + (nl + close))))
  {
  }

  lemma ItemsOfThree(ty: Type)
    requires ty == Struct([Param("a", Bare(Named("int"))), Param("b", Bare(Named("bool"))), Param("c", TypeSpec(Named("T"), true, false, false))])
    ensures Items(ty, 4, 0, 4) == ["    a: int", "    b: bool", "    c: ?T"]
  {
    hide TypeText;
    NoBrackets(Named("int"), 4, 1);
    NoBrackets(Named("bool"), 4, 1);
    NoBrackets(Named("T"), 4, 1);
    assert Blanks(4) == "    ";
    assert Blanks(4) + ("a" + ": " + "int") == "    a: int";
    assert Blanks(4) + ("b" + ": " + "bool") == "    b: bool";
    assert Blanks(4) + ("c" + ": " + ("?" + "T")) == "    c: ?T";
  }
}
