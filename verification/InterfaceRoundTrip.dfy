/** Reading back a printed interface gives the same interface, documentation included. */
module InterfaceRoundTrip {
  import opened Wrappers
  import opened TypeSpecs
  import opened Lexer
  import opened Grammar
  import opened Printer
  import opened TokenRoundTrip
  import opened TypeRoundTrip

  /** Nothing, or whole comment and blank lines of which the first and the last are comments. */
  predicate PrintableDoc(d: string) {
    d == "" || (SpaceLength(d) == |d| && FirstComment(d) == Some(0) && LastComment(d) == Some(|d|))
  }

  predicate PrintableMember(m: Member) {
    && IsToken(MemberName, m.name)
    && PrintableDoc(m.description)
    && (match m.kind
        case Undefined => false
        case TypeMember => m.data == Bare(m.data.ty) && Printable(m.data.ty)
        case ErrorMember => m.data == Bare(m.data.ty) && Printable(m.data.ty)
        case MethodMember =>
          && m.data.ty.Struct? && |m.data.ty.params| == 2
          && var parameters, returned := m.data.ty.params[0].spec, m.data.ty.params[1].spec;
             && m.data == MethodType(Bare(parameters.ty), Bare(returned.ty))
             && Bracketed(parameters.ty) && Bracketed(returned.ty))
  }

  predicate Bracketed(ty: Type) {
    (ty.Enum? || ty.Struct?) && Printable(ty)
  }

  predicate UniqueNames(ms: seq<Member>) {
    forall j, k | 0 <= j < k < |ms| :: ms[j].name != ms[k].name
  }

  /** What a description that stops short makes of its last member: no type, perhaps no name. */
  predicate CutOff(m: Member) {
    && (m.kind.TypeMember? || m.kind.ErrorMember?)
    && (m.name == "" || IsToken(MemberName, m.name))
    && PrintableDoc(m.description)
    && m.data == Bare(Named(""))
  }

  predicate PrintableMembers(ms: seq<Member>) {
    && UniqueNames(ms)
    && forall k | 0 <= k < |ms| :: PrintableMember(ms[k]) || (k == |ms| - 1 && CutOff(ms[k]))
  }

  predicate PrintableInterface(i: Interface) {
    && IsToken(InterfaceName, i.name)
    && PrintableDoc(i.documentation)
    && i.members != []
    && PrintableMembers(i.members)
  }

  // ----- Documentation -----

  lemma {:induction false} LineStable(d: string, t: string)
    requires '\n' in d
    ensures LineLength(d + t) == LineLength(d) && d[LineLength(d) - 1] == '\n'
  {
    if d[0] != '\n' {
      assert (d + t)[1..] == d[1..] + t;
      LineStable(d[1..], t);
    }
  }

  predicate EndsLine(d: string) {
    d == "" || d[|d| - 1] == '\n'
  }

  lemma {:induction false} DocIsSpace(d: string, t: string)
    requires SpaceLength(d) == |d| && EndsLine(d)
    requires t != "" && !IsBlank(t[0]) && t[0] != '#'
    ensures SpaceLength(d + t) == |d|
    decreases |d|
  {
    if d == "" {
      assert d + t == t;
    } else if IsBlank(d[0]) {
      assert (d + t)[1..] == d[1..] + t;
      DocIsSpace(d[1..], t);
    } else {
      var n := LineLength(d);
      assert d[|d| - 1] in d;
      LineStable(d, t);
      assert (d + t)[n..] == d[n..] + t;
      DocIsSpace(d[n..], t);
    }
  }

  lemma {:induction false} LastCommentEndsLine(s: string)
    requires LastComment(s).Some?
    ensures s[LastComment(s).value - 1] == '\n'
    decreases |s|
  {
    if LastComment(s[LineLength(s)..]).Some? {
      LastCommentEndsLine(s[LineLength(s)..]);
    }
  }

  lemma EmptyLineFirst(s: string)
    ensures SpaceLength("\n" + s) == 1 + SpaceLength(s)
    ensures FirstComment("\n" + s) == match FirstComment(s) { case None => None case Some(k) => Some(1 + k) }
    ensures LastComment("\n" + s) == match LastComment(s) { case None => None case Some(k) => Some(1 + k) }
  {
    EmptyLineIsSpace(s);
    EmptyLineNoComment(s);
  }

  lemma EmptyLineIsSpace(s: string)
    ensures SpaceLength("\n" + s) == 1 + SpaceLength(s)
  {
    assert ("\n" + s)[1..] == s;
  }

  lemma {:induction false} EmptyLineNoComment(s: string)
    ensures FirstComment("\n" + s) == match FirstComment(s) { case None => None case Some(k) => Some(1 + k) }
    ensures LastComment("\n" + s) == match LastComment(s) { case None => None case Some(k) => Some(1 + k) }
  {
    hide LineLength, StartsWithComment;
    EmptyLine(s);
    var u := "\n" + s;
    assert FirstComment(u) == match FirstComment(s) { case None => None case Some(k) => Some(1 + k) } by { hide LastComment; }
    assert LastComment(u) == match LastComment(s) { case None => None case Some(k) => Some(1 + k) } by { hide FirstComment; }
  }

  lemma EmptyLine(s: string)
    ensures LineLength("\n" + s) == 1 && ("\n" + s)[1..] == s && !StartsWithComment("\n" + s)
  {
    var u := "\n" + s;
    assert u[0] == '\n' && LineLength(u) == 1;
    assert u[..1] == "\n";
  }

  function DocOf(d: string, t: string): Doc {
    if d == "" then NoDoc else Span(|d| + |t|, |t|)
  }

  /** The stretch captured from the white space `w` in front of `t`. */
  function CapturedIn(w: string, t: string): Doc {
    match LastComment(w)
    case None => NoDoc
    case Some(last) => Span(|w| + |t| - FirstComment(w).value, |w| + |t| - last)
  }

  lemma SkipSpaceIs(w: string, t: string)
    requires SpaceLength(w + t) == |w|
    ensures SkipSpace(Cursor(w + t, NoDoc)) == Cursor(t, CapturedIn(w, t))
  {
    hide SpaceLength, FirstComment, LastComment;
    var s := w + t;
    assert s[|w|..] == t;
    assert Capture(NoDoc, s, |w|) == CapturedIn(w, t) by {
      assert s[..|w|] == w;
    }
  }

  /** Documentation in front of a token is captured exactly. */
  lemma CaptureDoc(d: string, t: string)
    requires PrintableDoc(d) && t != "" && !IsBlank(t[0]) && t[0] != '#'
    ensures SpaceLength(d + t) == |d|
    ensures SkipSpace(Cursor(d + t, NoDoc)) == Cursor(t, DocOf(d, t))
  {
    hide SkipSpace, SpaceLength, FirstComment, LastComment;
    DocFacts(d);
    DocIsSpace(d, t);
    SkipSpaceIs(d, t);
  }

  lemma DocFacts(d: string)
    requires PrintableDoc(d)
    ensures SpaceLength(d) == |d| && EndsLine(d)
    ensures d == "" ==> LastComment(d).None?
  {
    hide FirstComment;
    if d != "" {
      LastCommentEndsLine(d);
    }
  }

  lemma DocEnds(d: string)
    requires PrintableDoc(d)
    ensures FirstComment(d) == if d == "" then None else Some(0)
    ensures LastComment(d) == if d == "" then None else Some(|d|)
  {
    hide SpaceLength, LineLength;
  }

  /** ... also behind two line ends. */
  lemma {:induction false} CaptureDocBelow(d: string, t: string)
    requires PrintableDoc(d) && t != "" && !IsBlank(t[0]) && t[0] != '#'
    ensures SkipSpace(Cursor("\n" + ("\n" + (d + t)), NoDoc)) == Cursor(t, DocOf(d, t))
  {
    hide SpaceLength, FirstComment, LastComment, SkipSpace;
    CaptureDoc(d, t);
    DocEnds(d);
    EmptyLineFirst(d + t);
    EmptyLineFirst("\n" + (d + t));
    EmptyLineFirst(d);
    EmptyLineFirst("\n" + d);
    CommentsBelow(d, t);
  }

  lemma CommentsBelow(d: string, t: string)
    requires SpaceLength("\n" + ("\n" + (d + t))) == |d| + 2
    requires FirstComment("\n" + ("\n" + d)) == if d == "" then None else Some(2)
    requires LastComment("\n" + ("\n" + d)) == if d == "" then None else Some(|d| + 2)
    ensures SkipSpace(Cursor("\n" + ("\n" + (d + t)), NoDoc)) == Cursor(t, DocOf(d, t))
  {
    hide SpaceLength, FirstComment, LastComment, SkipSpace;
    assert "\n" + ("\n" + (d + t)) == ("\n" + ("\n" + d)) + t;
    SkipSpaceIs("\n" + ("\n" + d), t);
  }

  predicate IsSuffix(t: string, s: string) {
    |t| <= |s| && s[|s| - |t|..] == t
  }

  lemma SuffixOf(t: string, u: string, s: string)
    requires IsSuffix(t + u, s)
    ensures IsSuffix(u, s)
  {
    assert u == (t + u)[|t|..];
  }

  lemma DocTextIs(desc: string, d: string, t: string)
    requires IsSuffix(d + t, desc)
    ensures DocText(desc, DocOf(d, t)) == d
  {
    var n := |desc| - |d + t|;
    assert desc[n..] == d + t;
    assert desc[n..n + |d|] == (d + t)[..|d|];
  }

  lemma ReadTokenAt(p: Pattern, c: Cursor, s: string, t: string, doc: Doc)
    requires SkipSpace(c) == Cursor(s + t, doc) && IsToken(p, s) && Follows(p, s, t)
    ensures Expect(p, c) == Ok(Read(s, Cursor(t, doc)))
  {
    hide SkipSpace, MatchLength;
    MatchStable(p, s, t);
    assert (s + t)[..|s|] == s && (s + t)[|s|..] == t && s + t != "";
  }

  // ----- Members -----

  function KeywordOf(kind: MemberKind): string
    requires !kind.Undefined?
  {
    match kind
    case TypeMember => "type"
    case ErrorMember => "error"
    case MethodMember => "method"
  }

  /** The text behind the name of a member, followed by `more`. */
  function DataText(m: Member, more: string): string
    requires Complete(m)
  {
    match m.kind
    case TypeMember => " " + (TypeText(m.data.ty, DEFAULT_INDENT, 0) + ("\n" + more))
    case ErrorMember => " " + (TypeText(m.data.ty, -1, 0) + ("\n" + more))
    case MethodMember =>
      TypeText(m.data.ty.params[0].spec.ty, -1, 0)
      + (" " + ("->" + (" " + (TypeText(m.data.ty.params[1].spec.ty, DEFAULT_INDENT, 0) + ("\n" + more)))))
  }

  predicate Complete(m: Member) {
    !m.kind.Undefined? && (m.kind.MethodMember? ==> m.data.ty.Struct? && |m.data.ty.params| >= 2)
  }

  function HeadText(m: Member, more: string): string
    requires Complete(m)
  {
    KeywordOf(m.kind) + (" " + (m.name + DataText(m, more)))
  }

  lemma MemberTextIsHead(m: Member, more: string)
    requires Complete(m)
    ensures MemberText(m) + more == m.description + HeadText(m, more)
  {
    hide TypeText;
    match m.kind
    case TypeMember =>
      assert "type " == "type" + " ";
      PlainTextIsHead(m.description, "type", m.name, TypeText(m.data.ty, DEFAULT_INDENT, 0), more);
    case ErrorMember =>
      assert "error " == "error" + " ";
      PlainTextIsHead(m.description, "error", m.name, TypeText(m.data.ty, -1, 0), more);
    case MethodMember =>
      var p, r := TypeText(m.data.ty.params[0].spec.ty, -1, 0), TypeText(m.data.ty.params[1].spec.ty, DEFAULT_INDENT, 0);
      assert " -> " == " " + ("->" + " ");
      assert "method " == "method" + " ";
      RegroupMethod(m.description, "method", m.name, p, " ", "->", r, "\n", more);
  }

  lemma PlainTextIsHead(description: string, keyword: string, name: string, text: string, more: string)
    ensures (description + (keyword + " ") + name + " " + text + "\n") + more
         == description + (keyword + (" " + (name + (" " + (text + ("\n" + more))))))
  {
    Regroup6(description, keyword + " ", name, " ", text, "\n", more);
  }

  lemma Regroup6(a: string, b: string, c: string, d: string, e: string, f: string, g: string)
    ensures (a + b + c + d + e + f) + g == a + (b + (c + (d + (e + (f + g)))))
  {
  }

  lemma RegroupMethod(a: string, b: string, c: string, p: string, s: string, arrow: string, r: string, nl: string, more: string)
    ensures (a + (b + s) + c + (p + (s + (arrow + s)) + r + nl)) + more
         == a + (b + (s + (c + (p + (s + (arrow + (s + (r + (nl + more)))))))))
  {
    assert (p + (s + (arrow + s)) + r + nl) + more == p + (s + (arrow + (s + (r + (nl + more)))));
  }

  lemma ReadData(m: Member, more: string)
    requires PrintableMember(m)
    ensures var c := Cursor(DataText(m, more), NoDoc);
            (if m.kind.MethodMember? then ReadMethodSpec(c) else ReadTypeSpec(c, false)) == Ok(Read(m.data, Cursor("\n" + more, NoDoc)))
  {
    hide ReadTypeSpec, ReadStruct, TypeText;
    match m.kind
    case TypeMember => ReadType(m.data.ty, " ", DEFAULT_INDENT, 0, "\n" + more, NoDoc, false);
    case ErrorMember => ReadType(m.data.ty, " ", -1, 0, "\n" + more, NoDoc, false);
    case MethodMember => ReadMethodData(m, more);
  }

  lemma ReadMethodData(m: Member, more: string)
    requires PrintableMember(m) && m.kind.MethodMember?
    ensures ReadMethodSpec(Cursor(DataText(m, more), NoDoc)) == Ok(Read(m.data, Cursor("\n" + more, NoDoc)))
  {
    hide ReadMethodSpec, TypeText, Printable;
    MethodAsWritten(m.data.ty.params[0].spec.ty, m.data.ty.params[1].spec.ty, more);
  }

  /** `(parameters) -> (returned)`: the first brackets are the parameters, the second the result. */
  lemma MethodAsWritten(p: Type, r: Type, more: string)
    requires Bracketed(p) && Bracketed(r)
    ensures ReadMethodSpec(Cursor(TypeText(p, -1, 0) + (" " + ("->" + (" " + (TypeText(r, 4, 0) + ("\n" + more))))), NoDoc))
         == Ok(Read(Bare(Struct([Param("parameters", Bare(p)), Param("return_value", Bare(r))])), Cursor("\n" + more, NoDoc)))
  {
    hide Expect, ReadStruct, TypeText, Printable;
    var result := " " + (TypeText(r, 4, 0) + ("\n" + more));
    var arrow := " " + ("->" + result);
    ReadBracketed(p, "", -1, arrow, NoDoc);
    assert "" + (TypeText(p, -1, 0) + arrow) == TypeText(p, -1, 0) + arrow;
    ReadToken(Keyword, " ", "->", result, NoDoc) by { assert "->"[0] == '-'; }
    ReadBracketed(r, " ", 4, "\n" + more, NoDoc);
  }

  lemma KeywordIsToken(kind: MemberKind)
    requires !kind.Undefined?
    ensures IsToken(Keyword, KeywordOf(kind)) && IsLower(KeywordOf(kind)[0])
    ensures KindOfKeyword(KeywordOf(kind)) == Ok(kind)
  {
    LowerWord(KeywordOf(kind));
  }

  /** A printed member behind the line end of the previous one. */
  lemma ReadPrintedMember(desc: string, m: Member, more: string)
    requires PrintableMember(m) && HasMethodTypes(m)
    requires IsSuffix(m.description + HeadText(m, more), desc)
    ensures ReadMember(desc, Cursor("\n" + ("\n" + (MemberText(m) + more)), NoDoc)) == Ok(Read(m, Cursor("\n" + more, NoDoc)))
  {
    hide Expect, ReadTypeSpec, ReadMethodSpec, SkipSpace, DataText, MemberText, Printable, IsToken, PrintableDoc;
    MemberTextIsHead(m, more);
    KeywordIsToken(m.kind);
    var keyword, afterKeyword := KeywordOf(m.kind), " " + (m.name + DataText(m, more));
    var doc := DocOf(m.description, HeadText(m, more));
    CaptureDocBelow(m.description, HeadText(m, more));
    ReadTokenAt(Keyword, Cursor("\n" + ("\n" + (MemberText(m) + more)), NoDoc), keyword, afterKeyword, doc);
    DataStart(m, more);
    ReadToken(MemberName, " ", m.name, DataText(m, more), doc);
    DocTextIs(desc, m.description, HeadText(m, more));
    ReadData(m, more);
  }

  lemma DataStart(m: Member, more: string)
    requires PrintableMember(m)
    ensures Follows(MemberName, m.name, DataText(m, more))
  {
    if m.kind.MethodMember? {
      var p := m.data.ty.params[0].spec.ty;
      TypeTextIsBody(p, -1, 0, "");
      assert TypeText(p, -1, 0) + "" == TypeText(p, -1, 0);
    }
  }

  // ----- The interface -----

  /** A member that was cut off at the end of the description is cut off again. */
  lemma ReadCutOffMember(desc: string, m: Member)
    requires CutOff(m) && IsSuffix(m.description + HeadText(m, ""), desc)
    ensures ReadMember(desc, Cursor("\n" + ("\n" + (MemberText(m) + "")), NoDoc)) == Ok(Read(m, Cursor("", NoDoc)))
  {
    hide Expect, ReadTypeSpec, SkipSpace, MemberText, IsToken, PrintableDoc;
    MemberTextIsHead(m, "");
    KeywordIsToken(m.kind);
    var keyword, afterKeyword := KeywordOf(m.kind), " " + (m.name + " \n");
    assert DataText(m, "") == " \n";
    var doc := DocOf(m.description, HeadText(m, ""));
    CaptureDocBelow(m.description, HeadText(m, ""));
    ReadTokenAt(Keyword, Cursor("\n" + ("\n" + (MemberText(m) + "")), NoDoc), keyword, afterKeyword, doc);
    DocTextIs(desc, m.description, HeadText(m, ""));
    if m.name == "" {
      assert afterKeyword == "  \n";
      ReadOnlyBlanks("  \n", doc);
      ReadOnlyBlanks("", NoDoc);
    } else {
      ReadToken(MemberName, " ", m.name, " \n", doc);
      ReadOnlyBlanks(" \n", NoDoc);
    }
  }

  lemma {:induction false} AllSpace(w: string)
    requires AllBlank(w)
    ensures SpaceLength(w) == |w|
  {
    if w != "" {
      AllSpace(w[1..]);
    }
  }

  lemma ReadOnlyBlanks(w: string, doc: Doc)
    requires AllBlank(w)
    ensures forall p :: Expect(p, Cursor(w, doc)) == Ok(Read("", Cursor("", doc)))
    ensures ReadTypeSpec(Cursor(w, doc), false) == Ok(Read(Bare(Named("")), Cursor("", doc)))
  {
    hide SpaceLength, LastComment;
    AllSpace(w);
    BlankHasNoComment(w);
    assert w[|w|..] == "" && w[..|w|] == w;
    assert SkipSpace(Cursor(w, doc)) == Cursor("", doc);
  }

  lemma ReadEnd(desc: string, w: string)
    requires AllBlank(w)
    ensures forall ms :: ReadMembers(desc, Cursor(w, NoDoc), ms) == Ok(ms)
  {
    hide Expect, ReadTypeSpec;
    ReadOnlyBlanks(w, NoDoc);
    ReadOnlyBlanks("", NoDoc);
  }

  lemma {:induction false} ReadPrintedMembers(desc: string, ms: seq<Member>, k: nat)
    requires k <= |ms| && PrintableMembers(ms) && forall m | m in ms :: HasMethodTypes(m)
    requires IsSuffix("\n" + MembersText(ms, k), desc)
    ensures ReadMembers(desc, Cursor("\n" + MembersText(ms, k), NoDoc), ms[..k]) == Ok(ms)
    decreases |ms| - k
  {
    hide ReadMember, MemberText, PrintableMember, CutOff;
    if k == |ms| {
      assert ms[..k] == ms;
      assert "\n" + MembersText(ms, k) == "\n";
      ReadEnd(desc, "\n");
    } else {
      var m, more := ms[k], MembersText(ms, k + 1);
      PrintableIsComplete(m);
      MemberSuffixes(desc, ms, k);
      assert !HasName(ms[..k], m.name);
      assert ms[..k] + [m] == ms[..k + 1];
      assert MembersText(ms, k) == "\n" + (MemberText(m) + more);
      if PrintableMember(m) {
        ReadPrintedMember(desc, m, more);
        ReadPrintedMembers(desc, ms, k + 1);
      } else {
        assert ms[..k + 1] == ms;
        ReadCutOffMember(desc, m);
        ReadEnd(desc, "");
      }
    }
  }

  lemma PrintableIsComplete(m: Member)
    requires PrintableMember(m) || CutOff(m)
    ensures Complete(m)
  {
  }

  lemma MemberSuffixes(desc: string, ms: seq<Member>, k: nat)
    requires k < |ms| && (forall m | m in ms :: HasMethodTypes(m)) && Complete(ms[k])
    requires IsSuffix("\n" + MembersText(ms, k), desc)
    ensures IsSuffix(ms[k].description + HeadText(ms[k], MembersText(ms, k + 1)), desc)
    ensures IsSuffix("\n" + MembersText(ms, k + 1), desc)
  {
    hide MemberText, DataText;
    var m, more := ms[k], MembersText(ms, k + 1);
    MemberTextIsHead(m, more);
    assert "\n" + MembersText(ms, k) == "\n\n" + (MemberText(m) + more);
    SuffixOf("\n\n", MemberText(m) + more, desc);
    var t := MemberText(m);
    MemberEndsLine(m);
    assert t + more == t[..|t| - 1] + ("\n" + more);
    SuffixOf(t[..|t| - 1], "\n" + more, desc);
  }

  lemma MemberEndsLine(m: Member)
    requires Complete(m)
    ensures MemberText(m) != "" && MemberText(m)[|MemberText(m)| - 1] == '\n'
  {
    hide TypeText;
  }

  /** The header reads back, and leaves the members to be read. */
  lemma ReadHeader(i: Interface)
    requires IsToken(InterfaceName, i.name) && PrintableDoc(i.documentation)
    requires forall m | m in i.members :: HasMethodTypes(m)
    ensures ParseInterface(InterfaceText(i))
         == match ReadMembers(InterfaceText(i), Cursor("\n" + MembersText(i.members, 0), NoDoc), [])
            case Err(e) => Err(e)
            case Ok(ms) => if ms == [] then Err(NoMembers) else Ok(Interface(i.name, i.documentation, ms))
  {
    hide Expect, SkipSpace, ReadMembers, MembersText, InterfaceText, IsToken, PrintableDoc, LowerRun;
    var desc := InterfaceText(i);
    var body := "\n" + MembersText(i.members, 0);
    var header := "interface" + (" " + (i.name + body));
    HeaderText(i);
    LowerWord("interface");
    CaptureDoc(i.documentation, header) by { assert header[0] == 'i'; }
    var doc := DocOf(i.documentation, header);
    ReadTokenAt(Keyword, Cursor(desc, NoDoc), "interface", " " + (i.name + body), doc);
    ReadToken(InterfaceName, " ", i.name, body, doc) by { NameBeforeLineEnd(i.name, body); }
    DocTextIs(desc, i.documentation, header);
  }

  /** Printing a printable interface and parsing the text gives the interface back. */
  lemma RoundTrip(i: Interface)
    requires PrintableInterface(i)
    ensures forall m | m in i.members :: HasMethodTypes(m)
    ensures ParseInterface(InterfaceText(i)) == Ok(i)
  {
    hide MembersText, InterfaceText, ParseInterface, PrintableMember, CutOff, IsToken, PrintableDoc;
    forall m | m in i.members ensures HasMethodTypes(m) {
      var k :| 0 <= k < |i.members| && i.members[k] == m;
      PrintableIsComplete(m);
    }
    ReadHeader(i);
    HeaderText(i);
    ReadPrintedMembers(InterfaceText(i), i.members, 0);
    assert i.members[..0] == [];
  }

  lemma NameBeforeLineEnd(name: string, body: string)
    requires IsToken(InterfaceName, name) && body != "" && body[0] == '\n'
    ensures Follows(InterfaceName, name, body)
  {
  }

  lemma HeaderText(i: Interface)
    requires forall m | m in i.members :: HasMethodTypes(m)
    ensures InterfaceText(i) == i.documentation + ("interface" + (" " + (i.name + ("\n" + MembersText(i.members, 0)))))
    ensures IsSuffix("\n" + MembersText(i.members, 0), InterfaceText(i))
  {
    hide MembersText;
    assert "interface " == "interface" + " ";
    var members := MembersText(i.members, 0);
    RegroupHeader(i.documentation, "interface", " ", i.name, "\n", members);
    assert IsSuffix(InterfaceText(i), InterfaceText(i));
    SuffixOf(i.documentation + ("interface" + (" " + i.name)), "\n" + members, InterfaceText(i));
  }

  lemma RegroupHeader(a: string, b: string, c: string, d: string, e: string, f: string)
    ensures a + (b + c) + d + e + f == a + (b + (c + (d + (e + f)))) == (a + (b + (c + d))) + (e + f)
  {
  }

  // ----- An example -----

  predicate Letters(s: string) {
    s != "" && forall k | 0 <= k < |s| :: IsLower(s[k])
  }

  /** Two words with a dot between them are the name of an interface. */
  lemma DottedName(a: string, b: string)
    requires Letters(a) && Letters(b)
    ensures IsToken(InterfaceName, a + ("." + b))
  {
    hide LabelRun, LabelsRun;
    var s, t := a + ("." + b), "." + b;
    LabelRunOfWord(a[1..], t);
    assert s[1..] == a[1..] + t && s[|a|..] == t;
    OneLabel(b);
  }

  lemma OneLabel(b: string)
    requires Letters(b)
    ensures LabelsRun("." + b) == |b| + 1
  {
    hide LabelRun;
    var t := "." + b;
    LabelRunOfWord(b[1..], "");
    assert t[2..] == b[1..] + "" && t[|t|..] == "";
  }

  /** Letters before something else are a run. */
  lemma {:induction false} LabelRunOfWord(s: string, t: string)
    requires (forall k | 0 <= k < |s| :: IsLower(s[k])) && (t == "" || (t[0] != '-' && !IsNameChar(t[0])))
    ensures LabelRun(s + t) == |s|
  {
    if s == "" {
      assert s + t == t && DashRun(t) == 0;
    } else {
      assert (s + t)[0] == s[0] && (s + t)[1..] == s[1..] + t;
      assert DashRun(s + t) == 0;
      LabelRunOfWord(s[1..], t);
    }
  }

  lemma NamesExample()
    ensures IsToken(MemberName, "Ping") && IsToken(Identifier, "n") && IsTypeName("int")
  {
    hide LabelRun, LabelsRun;
    LowerWord("int");
    assert "Ping"[1..] == "ing" && "ing"[1..] == "ng" && "ng"[1..] == "g" && "g"[1..] == "";
    assert "Ping"[4..] == "" && "n"[1..] == "";
  }

  lemma CommentIsPrintable()
    ensures PrintableDoc("# Hi\n")
  {
    var d := "# Hi\n";
    assert LineLength(d) == 5;
    assert d[5..] == "" && d[..5] == d;
    assert '#' == d[0];
    assert StartsWithComment(d);
    assert LastComment("") == None;
  }

  /** A printable interface: `# Hi`, `interface org.test`, `# Hi`, `method Ping(n: ?[]int) -> ()`. */
  lemma PingIsPrintable()
    ensures var parameters := Struct([Param("n", TypeSpec(Named("int"), true, false, true))]);
            var ping := Member(MethodMember, "Ping", "# Hi\n", MethodType(Bare(parameters), Bare(Struct([]))));
            PrintableInterface(Interface("org.test", "# Hi\n", [ping]))
  {
    hide IsToken, PrintableDoc;
    assert "org.test" == "org" + ("." + "test");
    DottedName("org", "test");
    NamesExample();
    CommentIsPrintable();
  }
}
