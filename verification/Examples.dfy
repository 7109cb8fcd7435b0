/** Descriptions that show what the exact conditions exclude. */
module Examples {
  import opened Wrappers
  import opened JsonValues
  import opened TypeSpecs
  import opened Validator
  import opened Lexer
  import opened Grammar
  import opened Printer
  import opened TokenRoundTrip
  import opened TypeRoundTrip
  import opened InterfaceRoundTrip
  import opened RoundTripExact

  lemma OneLetterName(s: string)
    requires |s| == 1 && IsUpper(s[0])
    ensures IsToken(MemberName, s) && IsTypeName(s)
  {
    assert s[1..] == "";
  }

  lemma TestName()
    ensures IsToken(InterfaceName, "org.test")
  {
    hide LabelRun, LabelsRun;
    assert "org.test" == "org" + ("." + "test");
    DottedName("org", "test");
  }

  // ----- A cycle of aliases -----

  const CYCLE := "interface org.test\n" + ("\n" + ("type A B\n" + ("\n" + "type B A\n")))

  const CYCLIC := Interface("org.test", "", [Member(TypeMember, "A", "", Bare(Named("B"))), Member(TypeMember, "B", "", Bare(Named("A")))])

  lemma CyclicIsPrintable()
    ensures PrintableInterface(CYCLIC)
  {
    hide IsToken;
    OneLetterName("A");
    OneLetterName("B");
    TestName();
  }

  lemma AliasText(name: string, target: string)
    ensures MemberText(Member(TypeMember, name, "", Bare(Named(target)))) == "type " + name + " " + target + "\n"
  {
    assert "" + "type " == "type ";
  }

  lemma CyclicText()
    ensures forall m | m in CYCLIC.members :: HasMethodTypes(m)
    ensures InterfaceText(CYCLIC) == CYCLE
  {
    hide MemberText;
    var ms := CYCLIC.members;
    AliasText("A", "B");
    AliasText("B", "A");
    assert "type " + "A" + " " + "B" + "\n" == "type A B\n";
    assert "type " + "B" + " " + "A" + "\n" == "type B A\n";
    assert MembersText(ms, 2) == "";
    assert MembersText(ms, 1) == "\n" + "type B A\n";
    assert MembersText(ms, 0) == "\n" + ("type A B\n" + ("\n" + "type B A\n"));
    Header(MembersText(ms, 0));
  }

  lemma Header(body: string)
    ensures "" + "interface " + "org.test" + "\n" + body == "interface org.test\n" + body
  {
    assert "" + "interface " + "org.test" + "\n" == "interface org.test\n";
  }

  /** This description parses, and `validate` does not come back on its types. */
  lemma CycleParses()
    ensures ParseInterface(CYCLE) == Ok(CYCLIC)
    ensures !Terminates(CYCLIC.members, Null, Bare(Named("A")), "<root>", false)
  {
    CyclicIsPrintable();
    CyclicText();
    RoundTrip(CYCLIC) by { hide *; CyclicIsPrintable(); }
    hide ParseInterface, ValidateIn;
    forall k: nat ensures !Stops(CYCLIC.members, Null, "A", k) && !Stops(CYCLIC.members, Null, "B", k) {
      NeverStops(k);
    }
    forall depth: nat ensures ValidateIn(depth, CYCLIC.members, Null, Bare(Named("A")), "<root>", false).TooDeep? {
      CycleDiverges(depth, CYCLIC.members, "A", "<root>");
    }
  }

  lemma Aliases()
    ensures AliasOf(CYCLIC.members, "A") == Some("B") && AliasOf(CYCLIC.members, "B") == Some("A")
  {
  }

  lemma {:induction false} NeverStops(k: nat)
    ensures !Stops(CYCLIC.members, Null, "A", k) && !Stops(CYCLIC.members, Null, "B", k)
  {
    hide AliasOf;
    Aliases();
    if k > 0 {
      NeverStops(k - 1);
    }
  }

  // ----- A prefix that is not printed -----

  const FLAGGED := "interface" + (" " + ("org.test" + "\ntype A []int\n"))

  const ARRAY_ALIAS := Interface("org.test", "", [Member(TypeMember, "A", "", TypeSpec(Named("int"), false, false, true))])

  lemma ReadFlagged(desc: string)
    ensures ReadMember(desc, Cursor("\ntype A []int\n", NoDoc))
         == Ok(Read(Member(TypeMember, "A", "", TypeSpec(Named("int"), false, false, true)), Cursor("\n", NoDoc)))
  {
    hide Expect, IsToken, ReadTypeSpec;
    KeywordIsToken(TypeMember);
    OneLetterName("A");
    SplitFlagged();
    ReadToken(Keyword, "\n", "type", " A []int\n", NoDoc) by { StartsLower("type"); }
    ReadToken(MemberName, " ", "A", " []int\n", NoDoc) by { NotEmptyName("A"); }
    LowerWord("int");
    ReadName("", "int", "\n");
    ReadPrefix("[]", " ", "int\n", Bare(Named("int")), Cursor("\n", NoDoc), false);
  }

  lemma StartsLower(s: string)
    requires s == "type"
    ensures IsLower(s[0])
  {
  }

  lemma NotEmptyName(s: string)
    requires s == "A"
    ensures s != ""
  {
  }

  lemma SplitFlagged()
    ensures "\ntype A []int\n" == "\n" + ("type" + " A []int\n")
    ensures " A []int\n" == " " + ("A" + " []int\n")
    ensures " []int\n" == " " + ("[]" + "int\n") && "int\n" == "" + ("int" + "\n")
  {
  }

  lemma ReadName(w: string, name: string, t: string)
    requires AllBlank(w) && IsToken(Keyword, name) && IsLower(name[0]) && AtBoundary(t)
    ensures ReadTypeSpec(Cursor(w + (name + t), NoDoc), false) == Ok(Read(Bare(Named(name)), Cursor(t, NoDoc)))
  {
    hide Expect;
    ReadToken(KeywordOrMember, w, name, t, NoDoc);
  }

  lemma ReadFlaggedMembers(desc: string)
    ensures ReadMembers(desc, TakeDoc(Cursor("\ntype A []int\n", NoDoc)), []) == Ok(ARRAY_ALIAS.members)
  {
    hide Expect, ReadMember, DocText;
    ReadFlagged(desc);
    ReadEnd(desc, "\n");
    assert [] + ARRAY_ALIAS.members == ARRAY_ALIAS.members;
  }

  lemma ReadFlaggedInterface()
    ensures ParseInterface(FLAGGED) == Ok(ARRAY_ALIAS)
  {
    hide Expect, IsToken, ReadMembers, ParseInterface;
    LowerWord("interface");
    TestName();
    assert FLAGGED == "" + FLAGGED;
    var c1, c2 := Cursor(" " + ("org.test" + "\ntype A []int\n"), NoDoc), Cursor("\ntype A []int\n", NoDoc);
    ReadToken(Keyword, "", "interface", c1.rest, NoDoc);
    ReadToken(InterfaceName, " ", "org.test", c2.rest, NoDoc);
    ReadFlaggedMembers(FLAGGED);
    ParseParts(FLAGGED, c1, "org.test", c2, ARRAY_ALIAS.members);
  }

  /** An interface from what its parts read as. */
  lemma ParseParts(desc: string, c1: Cursor, name: string, c2: Cursor, ms: seq<Member>)
    requires Expect(Keyword, Cursor(desc, NoDoc)) == Ok(Read("interface", c1))
    requires Expect(InterfaceName, c1) == Ok(Read(name, c2))
    requires ReadMembers(desc, TakeDoc(c2), []) == Ok(ms) && ms != []
    ensures ParseInterface(desc) == Ok(Interface(name, DocText(desc, c2.doc), ms))
  {
    hide Expect, ReadMembers, DocText;
  }

  lemma ArrayAliasIsNotPrintable()
    ensures !PrintableInterface(ARRAY_ALIAS)
  {
    hide IsToken, PrintableDoc, Printable;
    assert !PrintableMember(ARRAY_ALIAS.members[0]) && !CutOff(ARRAY_ALIAS.members[0]);
  }

  /** The `[]` is read and not printed, so reading the printed interface gives another one. */
  lemma FlaggedIsNotPrintable()
    ensures ParseInterface(FLAGGED) == Ok(ARRAY_ALIAS) && !PrintableInterface(ARRAY_ALIAS)
    ensures forall m | m in ARRAY_ALIAS.members :: HasMethodTypes(m)
    ensures ParseInterface(InterfaceText(ARRAY_ALIAS)) != Ok(ARRAY_ALIAS)
  {
    hide ParseInterface, InterfaceText, PrintableInterface;
    ReadFlaggedInterface();
    ArrayAliasIsNotPrintable();
    PrintAfterParse(FLAGGED);
  }

  // ----- Comments on both sides of a keyword -----

  const BODY := "\ntype A int\n"

  const AROUND := "# Hi\n" + ("interface" + (" # Hi\n" + ("org.test" + BODY)))

  const AROUND_DOC := "# Hi\n" + ("interface" + " # Hi\n")

  const AROUND_INTERFACE := Interface("org.test", AROUND_DOC, [Member(TypeMember, "A", "", Bare(Named("int")))])

  lemma BehindKeyword(t: string, from: nat, upto: nat)
    requires t != "" && !IsBlank(t[0]) && t[0] != '#'
    ensures SkipSpace(Cursor(" # Hi\n" + t, Span(from, upto))) == Cursor(t, Span(from, |t|))
  {
    var w := " # Hi\n";
    hide SpaceLength, LastComment;
    BlankBefore("# Hi\n" + t);
    CommentIsPrintable();
    CaptureDoc("# Hi\n", t);
    assert w + t == " " + ("# Hi\n" + t) && |w| == 6;
    assert (w + t)[6..] == t && (w + t)[..6] == w;
    LastOfComment();
  }

  lemma BlankBefore(s: string)
    ensures SpaceLength(" " + s) == 1 + SpaceLength(s)
  {
    assert (" " + s)[1..] == s;
  }

  lemma LastOfComment()
    ensures LastComment(" # Hi\n") == Some(6)
  {
    var w := " # Hi\n";
    assert LineLength(w) == 6;
    assert w[6..] == "" && w[..6] == w && w[1] == '#';
    assert LastComment("") == None;
  }

  lemma ReadPlain(desc: string)
    ensures ReadMember(desc, Cursor(BODY, NoDoc))
         == Ok(Read(Member(TypeMember, "A", "", Bare(Named("int"))), Cursor("\n", NoDoc)))
  {
    hide Expect, IsToken, ReadTypeSpec;
    KeywordIsToken(TypeMember);
    OneLetterName("A");
    assert BODY == "\n" + ("type" + " A int\n") && " A int\n" == " " + ("A" + " int\n") && " int\n" == " " + ("int" + "\n");
    ReadToken(Keyword, "\n", "type", " A int\n", NoDoc) by { StartsLower("type"); }
    ReadToken(MemberName, " ", "A", " int\n", NoDoc) by { NotEmptyName("A"); }
    LowerWord("int");
    ReadName(" ", "int", "\n");
  }

  lemma ReadPlainMembers(desc: string)
    ensures ReadMembers(desc, TakeDoc(Cursor(BODY, NoDoc)), []) == Ok(AROUND_INTERFACE.members)
  {
    hide Expect, ReadMember, DocText;
    ReadPlain(desc);
    ReadEnd(desc, "\n");
    assert [] + AROUND_INTERFACE.members == AROUND_INTERFACE.members;
  }

  lemma AroundDocText()
    ensures DocText(AROUND, Span(|AROUND|, |BODY| + 8)) == AROUND_DOC
  {
    assert AROUND == AROUND_DOC + ("org.test" + BODY);
  }

  lemma FirstTokenAround(t2: string)
    requires t2 != "" && !IsBlank(t2[0]) && t2[0] != '#'
    ensures var rest := " # Hi\n" + t2;
            Expect(Keyword, Cursor("# Hi\n" + ("interface" + rest), NoDoc))
            == Ok(Read("interface", Cursor(rest, Span(14 + |rest|, 9 + |rest|))))
  {
    hide Expect, SkipSpace, IsToken, PrintableDoc;
    var rest := " # Hi\n" + t2;
    var t1 := "interface" + rest;
    LowerWord("interface");
    CommentIsPrintable();
    CaptureDoc("# Hi\n", t1) by { assert t1[0] == 'i'; }
    ReadTokenAt(Keyword, Cursor("# Hi\n" + t1, NoDoc), "interface", rest, Span(14 + |rest|, 9 + |rest|));
  }

  lemma SecondTokenAround(from: nat, upto: nat)
    ensures Expect(InterfaceName, Cursor(" # Hi\n" + ("org.test" + BODY), Span(from, upto)))
         == Ok(Read("org.test", Cursor(BODY, Span(from, |BODY| + 8))))
  {
    hide Expect, SkipSpace, IsToken;
    var t := "org.test" + BODY;
    TestName();
    BehindKeyword(t, from, upto) by { assert t[0] == 'o'; }
    ReadTokenAt(InterfaceName, Cursor(" # Hi\n" + t, Span(from, upto)), "org.test", BODY, Span(from, |BODY| + 8));
  }

  lemma ReadAround()
    ensures ParseInterface(AROUND) == Ok(AROUND_INTERFACE)
  {
    hide Expect, ReadMembers, DocText, ParseInterface;
    var t2 := "org.test" + BODY;
    var rest := " # Hi\n" + t2;
    FirstTokenAround(t2) by { assert t2[0] == 'o'; }
    SecondTokenAround(14 + |rest|, 9 + |rest|);
    AroundDocText();
    ReadPlainMembers(AROUND);
    ParseParts(AROUND, Cursor(rest, Span(14 + |rest|, 9 + |rest|)), "org.test", Cursor(BODY, Span(14 + |rest|, |BODY| + 8)), AROUND_INTERFACE.members);
  }

  lemma AroundDocIsNotPrintable()
    ensures !PrintableDoc(AROUND_DOC)
  {
    hide SpaceLength, FirstComment, LastComment;
    CommentIsPrintable();
    var t := "interface" + " # Hi\n";
    assert t[0] == 'i';
    CaptureDoc("# Hi\n", t);
    assert SpaceLength(AROUND_DOC) == 5;
  }

  /** The documentation has the keyword in it, and is not read back as a whole. */
  lemma AroundIsNotPrintable()
    ensures ParseInterface(AROUND) == Ok(AROUND_INTERFACE) && !PrintableInterface(AROUND_INTERFACE)
    ensures forall m | m in AROUND_INTERFACE.members :: HasMethodTypes(m)
    ensures ParseInterface(InterfaceText(AROUND_INTERFACE)) != Ok(AROUND_INTERFACE)
  {
    hide ParseInterface, InterfaceText, PrintableDoc, PrintableMembers, IsToken;
    ReadAround();
    AroundDocIsNotPrintable();
    PrintAfterParse(AROUND);
  }
}
