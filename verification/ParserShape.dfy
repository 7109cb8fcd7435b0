/** What every successfully parsed description looks like. */
module ParserShape {
  import opened Wrappers
  import opened TypeSpecs
  import opened Lexer
  import opened Grammar
  import opened TokenRoundTrip
  import opened TypeRoundTrip
  import opened InterfaceRoundTrip

  // ----- A matched text is a token by itself -----

  lemma {:induction false} LowerRunCut(s: string, n: nat)
    requires n <= LowerRun(s)
    ensures LowerRun(s[..n]) == n
  {
    if n > 0 {
      assert s[..n][1..] == s[1..][..n - 1];
      LowerRunCut(s[1..], n - 1);
    }
  }

  lemma {:induction false} AlnumRunCut(s: string, n: nat)
    requires n <= AlnumRun(s)
    ensures AlnumRun(s[..n]) == n
  {
    if n > 0 {
      assert s[..n][1..] == s[1..][..n - 1];
      AlnumRunCut(s[1..], n - 1);
    }
  }

  lemma {:induction false} IdentifierRunCut(s: string)
    ensures IdentifierRun(s[..IdentifierRun(s)]) == IdentifierRun(s)
  {
    var n := IdentifierRun(s);
    if n > 0 {
      var k := if IsAlnum(s[0]) then 1 else 2;
      assert s[..n][k..] == s[k..][..n - k];
      IdentifierRunCut(s[k..]);
    }
  }

  lemma {:induction false} DashRunCut(s: string, n: nat)
    requires DashRun(s) < n <= |s|
    ensures DashRun(s[..n]) == DashRun(s)
  {
    if s[0] == '-' {
      assert s[..n][1..] == s[1..][..n - 1];
      DashRunCut(s[1..], n - 1);
    }
  }

  /** Cut where the run ends or behind it, a label run stays the same. */
  lemma {:induction false} LabelRunCut(s: string, n: nat)
    requires n == LabelRun(s) || (LabelRun(s) < n <= |s| && s[LabelRun(s)] == '.')
    ensures LabelRun(s[..n]) == LabelRun(s)
    decreases |s|
  {
    hide LabelRun, DashRun;
    var k := DashRun(s);
    var t := s[..n];
    if k < |s| && IsNameChar(s[k]) {
      LabelRunStep(s);
      DashRunCut(s, n);
      assert t[k] == s[k] && t[k + 1..] == s[k + 1..][..n - k - 1];
      LabelRunCut(s[k + 1..], n - k - 1);
      LabelRunStep(t);
    } else {
      LabelRunStop(s);
      NoDashes(t);
      LabelRunStop(t);
    }
  }

  lemma {:induction false} LabelsRunCut(s: string)
    ensures LabelsRun(s[..LabelsRun(s)]) == LabelsRun(s)
    decreases |s|
  {
    hide LabelRun;
    var n := LabelsRun(s);
    if n > 0 {
      var k := 2 + LabelRun(s[2..]);
      var t := s[..n];
      assert n == k + LabelsRun(s[k..]);
      CutFirstLabel(s, n, k);
      LabelsRunCut(s[k..]);
      assert t[k..] == s[k..][..n - k];
    }
  }

  lemma CutFirstLabel(s: string, n: nat, k: nat)
    requires 2 <= k <= n <= |s| && k == 2 + LabelRun(s[2..]) && n == k + LabelsRun(s[k..])
    ensures LabelRun(s[..n][2..]) == k - 2
  {
    hide LabelRun, LabelsRun;
    assert s[..n][2..] == s[2..][..n - 2];
    assert s[k..] == s[2..][k - 2..];
    LabelsBegin(s[2..], k - 2);
    LabelRunCut(s[2..], n - 2);
  }

  lemma LabelsBegin(s: string, k: nat)
    requires k <= |s|
    ensures LabelsRun(s[k..]) > 0 ==> k < |s| && s[k] == '.'
  {
  }

  lemma InterfaceNameCut(s: string)
    requires InterfaceNameLength(s) > 0
    ensures IsToken(InterfaceName, s[..InterfaceNameLength(s)])
  {
    hide LabelRun, LabelsRun;
    var n, total := 1 + LabelRun(s[1..]), InterfaceNameLength(s);
    var token := s[..total];
    LabelsBegin(s[1..], n - 1);
    assert s[1..][n - 1..] == s[n..];
    LabelRunCut(s[1..], total - 1);
    assert token[1..] == s[1..][..total - 1];
    LabelsRunCut(s[n..]);
    assert token[n..] == s[n..][..total - n];
  }

  lemma KeywordCut(s: string)
    requires KeywordLength(s) > 0
    ensures IsToken(Keyword, s[..KeywordLength(s)]) && IsToken(KeywordOrMember, s[..KeywordLength(s)])
  {
    var n := KeywordLength(s);
    var token := s[..n];
    if IsLower(s[0]) {
      LowerRunCut(s, n);
      assert token[n..] == "";
    } else {
      assert token[0] == s[0];
    }
  }

  lemma MemberNameCut(s: string)
    requires MemberNameLength(s) > 0
    ensures IsToken(MemberName, s[..MemberNameLength(s)]) && IsToken(KeywordOrMember, s[..MemberNameLength(s)])
  {
    var n := MemberNameLength(s);
    AlnumRunCut(s[1..], n - 1);
    assert s[..n][1..] == s[1..][..n - 1];
  }

  lemma IdentifierCut(s: string)
    requires IdentifierLength(s) > 0
    ensures IsToken(Identifier, s[..IdentifierLength(s)])
  {
    var n := IdentifierLength(s);
    IdentifierRunCut(s[1..]);
    assert s[..n][1..] == s[1..][..n - 1];
  }

  /** `expect` yields a token of its pattern, or nothing at the end of the description. */
  lemma ExpectYieldsToken(p: Pattern, c: Cursor)
    requires Expect(p, c).Ok?
    ensures Expect(p, c).value.value == "" || IsToken(p, Expect(p, c).value.value)
    ensures Expect(p, c).value.value == "" <==> SkipSpace(c).rest == ""
  {
    var s := SkipSpace(c).rest;
    if s != "" {
      TokenCut(p, s);
    }
  }

  lemma TokenCut(p: Pattern, s: string)
    requires MatchLength(p, s) > 0
    ensures IsToken(p, s[..MatchLength(p, s)])
  {
    hide KeywordLength, MemberNameLength, IdentifierLength, InterfaceNameLength;
    match p
    case Keyword => KeywordCut(s);
    case MemberName => MemberNameCut(s);
    case KeywordOrMember => if KeywordLength(s) > 0 { KeywordCut(s); } else { MemberNameCut(s); }
    case Identifier => IdentifierCut(s);
    case InterfaceName => InterfaceNameCut(s);
    case ClosingBracket =>
  }

  // ----- Types -----

  /** A complete type, or the empty name that the end of the description reads as. */
  predicate ParsedType(ty: Type, c: Cursor) {
    Printable(ty) || (ty == Named("") && c.rest == "")
  }

  /** What the loop of `read_struct` has collected when it goes round again. */
  predicate Collecting(fields: Type) {
    match fields
    case Invalid => true
    case Named(_) => false
    case Enum(values) => values != [] && forall v | v in values :: IsToken(Identifier, v)
    case Struct(params) => params != [] && Printable(fields)
  }

  lemma AtTheEnd(p: Pattern, c: Cursor)
    requires c.rest == ""
    ensures Expect(p, c) == Ok(Read("", c))
  {
    assert c.rest[0..] == "" && c.rest[..0] == "";
  }

  lemma NoFieldsAtTheEnd(c: Cursor, fields: Type)
    requires SkipSpace(c).rest == ""
    ensures ReadFields(c, fields).Err?
  {
    hide SkipSpace;
    var c' := SkipSpace(c);
    assert Expect(Identifier, c) == Ok(Read("", c'));
    AtTheEnd(Keyword, c');
  }

  lemma {:induction false} TypeShape(c: Cursor, wasMaybe: bool)
    requires ReadTypeSpec(c, wasMaybe).Ok?
    ensures var r := ReadTypeSpec(c, wasMaybe).value; ParsedType(r.value.ty, r.next)
    decreases |c.rest|, 1
  {
    hide Expect, IsToken;
    ExpectYieldsToken(KeywordOrMember, c);
    var token := Expect(KeywordOrMember, c).value;
    if token.value == "?" {
      TypeShape(token.next, true);
    } else if token.value == "[string]" || token.value == "[]" {
      TypeShape(token.next, false);
    } else if token.value == "(" {
      BodyShape(token.next);
    }
  }

  lemma {:induction false} BodyShape(c: Cursor)
    requires ReadStructBody(c).Ok?
    ensures Bracketed(ReadStructBody(c).value.value)
    decreases |c.rest|, 0, 1
  {
    hide Expect, SkipSpace;
    if Expect(ClosingBracket, c).Err? {
      FieldsShape(SkipSpace(c), Invalid);
    }
  }

  lemma {:induction false} FieldsShape(c: Cursor, fields: Type)
    requires ReadFields(c, fields).Ok? && Collecting(fields)
    ensures Bracketed(ReadFields(c, fields).value.value)
    decreases |c.rest|, 0, 0
  {
    hide Expect, SkipSpace, IsToken, ReadTypeSpec;
    if SkipSpace(c).rest == "" {
      NoFieldsAtTheEnd(c, fields);
    }
    ExpectYieldsToken(Identifier, c);
    var name := Expect(Identifier, c).value;
    var keyword := Expect(Keyword, name.next).value;
    var known := KindOf(fields, keyword.value).value;
    if known.Struct? && keyword.value == ":" {
      var spec := ReadTypeSpec(keyword.next, false).value;
      TypeShape(keyword.next, false);
      var separator := Expect(Keyword, spec.next).value;
      if spec.next.rest == "" {
        AtTheEnd(Keyword, spec.next);
        NothingToSkip(spec.next);
        NoFieldsAtTheEnd(separator.next, Struct(known.params + [Param(name.value, spec.value)]));
      }
      var more := Struct(known.params + [Param(name.value, spec.value)]);
      assert Printable(spec.value.ty) && Collecting(more);
      if separator.value != ")" {
        FieldsShape(separator.next, more);
      }
    } else {
      var more := Enum(known.values + [name.value]);
      assert Collecting(more);
      if keyword.value != ")" {
        FieldsShape(keyword.next, more);
      }
    }
  }

  lemma NothingToSkip(c: Cursor)
    requires c.rest == ""
    ensures SkipSpace(c).rest == ""
  {
  }

  // ----- Members -----

  predicate ParsedMember(m: Member) {
    && !m.kind.Undefined?
    && (m.name == "" || IsToken(MemberName, m.name))
    && if m.kind.MethodMember? then
         && m.data.ty.Struct? && |m.data.ty.params| == 2
         && var parameters, returned := m.data.ty.params[0].spec, m.data.ty.params[1].spec;
            && m.data == MethodType(Bare(parameters.ty), Bare(returned.ty))
            && Bracketed(parameters.ty) && Bracketed(returned.ty)
       else
         Printable(m.data.ty) || m.data.ty == Named("")
  }

  lemma StructShape(c: Cursor)
    requires ReadStruct(c).Ok?
    ensures Bracketed(ReadStruct(c).value.value)
  {
    hide ExpectKeyword, ReadStructBody;
    BodyShape(ExpectKeyword("(", c).value.next);
  }

  lemma MemberShape(desc: string, c: Cursor)
    requires ReadMember(desc, c).Ok? && !ReadMember(desc, c).value.value.kind.Undefined?
    ensures var r := ReadMember(desc, c).value;
            && ParsedMember(r.value)
            && (r.value.data.ty == Named("") || r.value.name == "" ==> r.next.rest == "" && r.value.data.ty == Named(""))
  {
    hide Expect, SkipSpace, IsToken, ReadTypeSpec, ReadStruct, Printable, Bracketed;
    var keyword := Expect(Keyword, c).value;
    var kind := KindOfKeyword(keyword.value).value;
    ExpectYieldsToken(MemberName, keyword.next);
    var name := Expect(MemberName, keyword.next).value;
    if kind.MethodMember? {
      var parameters := ReadStruct(TakeDoc(name.next)).value;
      var arrow := ExpectKeyword("->", parameters.next).value;
      StructShape(TakeDoc(name.next));
      StructShape(arrow.next);
      if name.value == "" {
        AtTheEnd(Keyword, TakeDoc(name.next));
      }
    } else {
      TypeShape(TakeDoc(name.next), false);
      EmptyNameIsNoType();
      if name.value == "" {
        TypeAtTheEnd(TakeDoc(name.next));
      }
    }
  }

  lemma TypeAtTheEnd(c: Cursor)
    requires c.rest == ""
    ensures ReadTypeSpec(c, false) == Ok(Read(Bare(Named("")), c))
  {
    hide Expect;
    AtTheEnd(KeywordOrMember, c);
  }

  lemma EmptyNameIsNoType()
    ensures !Printable(Named(""))
  {
  }

  predicate ParsedMembers(ms: seq<Member>) {
    && UniqueNames(ms)
    && forall m | m in ms :: ParsedMember(m)
  }

  lemma {:induction false} MembersShape(desc: string, c: Cursor, ms: seq<Member>)
    requires ReadMembers(desc, c, ms).Ok? && ParsedMembers(ms)
    ensures ParsedMembers(ReadMembers(desc, c, ms).value)
    ensures ms <= ReadMembers(desc, c, ms).value
    decreases |c.rest|
  {
    hide ReadMember, ParsedMember;
    var m := ReadMember(desc, c).value;
    if !m.value.kind.Undefined? {
      MemberShape(desc, c);
      assert UniqueNames(ms + [m.value]) by {
        forall k | 0 <= k < |ms| ensures ms[k].name != m.value.name { assert ms[k] in ms; }
      }
      MembersShape(desc, m.next, ms + [m.value]);
    }
  }

  /**
   Every parsed interface has a proper name, at least one member, unique member names, and
   members of proper shape: no invalid type anywhere, enums of at least two values, methods
   of exactly a parameter and a return type.
   */
  lemma ParsedInterface(desc: string)
    requires ParseInterface(desc).Ok?
    ensures var i := ParseInterface(desc).value;
            IsToken(InterfaceName, i.name) && i.members != [] && ParsedMembers(i.members)
  {
    hide Expect, ReadMember, ParsedMember, IsToken;
    var keyword := ExpectKeyword("interface", Cursor(desc, NoDoc)).value;
    ExpectYieldsToken(InterfaceName, keyword.next);
    var name := Expect(InterfaceName, keyword.next).value;
    MembersShape(desc, TakeDoc(name.next), []);
    if name.value == "" {
      NoMemberAtTheEnd(desc, TakeDoc(name.next));
    }
  }

  lemma NoMemberAtTheEnd(desc: string, c: Cursor)
    requires c.rest == ""
    ensures ReadMember(desc, c).Ok? && ReadMember(desc, c).value.value.kind.Undefined?
    ensures forall ms :: ReadMembers(desc, c, ms) == Ok(ms)
  {
    hide Expect;
    AtTheEnd(Keyword, c);
    AtTheEnd(MemberName, c);
    TypeAtTheEnd(TakeDoc(c));
  }
}
