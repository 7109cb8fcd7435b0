/**
 One direction of a connection: a writer that serialises whole messages through a strand
 and writes them in arbitrary pieces, the bytes on their way, and the reader's buffer.
 A message travels as its text followed by a NUL (include/varlink/json_connection.hpp).
 */
module Transport {
  import opened Wrappers
  import opened ManualStrands

  const NUL: char := '\0'

  /** `dump` and `parse` of the JSON library, which is not part of this model. */
  datatype Codec<!M> = Codec(dump: M -> string, parse: string -> Option<M>)

  /** The dumped message has no NUL in it, and parses to itself. */
  predicate Faithful<M(==)>(codec: Codec<M>, m: M) {
    NUL !in codec.dump(m) && codec.parse(codec.dump(m)) == Some(m)
  }

  function Frame(text: string): string {
    text + [NUL]
  }

  /** The text and one zero byte. */
  lemma FrameIs(text: string)
    ensures |Frame(text)| == |text| + 1 && Frame(text)[..|text|] == text && Frame(text)[|text|] as int == 0
  {
  }

  function Frames<M>(codec: Codec<M>, ms: seq<M>): string {
    if ms == [] then "" else Frame(codec.dump(ms[0])) + Frames(codec, ms[1..])
  }

  /** Where the first NUL stands. */
  function FirstNul(s: string): (r: Option<nat>)
    ensures r.Some? ==> r.value < |s| && s[r.value] == NUL && NUL !in s[..r.value]
    ensures r.None? ==> NUL !in s
  {
    if s == "" then None
    else if s[0] == NUL then Some(0)
    else
      match FirstNul(s[1..])
      case Some(k) => assert s[..k + 1] == [s[0]] + s[1..][..k]; Some(k + 1)
      case None => None
  }

  // ----- The writer -----

  /** The write strand, and the bytes of the running write that are still to be written. */
  datatype Writer<M> = Writer(strand: Strand<M>, unsent: string)

  function IdleWriter<M>(): Writer<M> {
    Writer(Strand([], false), "")
  }

  /** The job that a strand turn starts writes its message's frame. */
  function Begin<M>(codec: Codec<M>, turn: Turn<M>, unsent: string): Writer<M> {
    match turn.run
    case Some(m) => Writer(turn.strand, Frame(codec.dump(m)))
    case None => Writer(turn.strand, unsent)
  }

  function Sent<M>(codec: Codec<M>, w: Writer<M>, m: M): Writer<M> {
    Begin(codec, Pushed(w.strand, m), w.unsent)
  }

  /** `n` bytes were written; the last of them completes the write and calls `next()`. */
  function Wrote<M>(codec: Codec<M>, w: Writer<M>, n: nat): Writer<M>
    requires n <= |w.unsent|
  {
    if n < |w.unsent| then Writer(w.strand, w.unsent[n..]) else Begin(codec, Nexted(w.strand), "")
  }

  predicate WriterOk<M>(w: Writer<M>) {
    && (w.strand.executing <==> w.unsent != "")
    && (!w.strand.executing ==> w.strand.queue == [])
  }

  /** Everything the writer has still to write. */
  function Pending<M>(codec: Codec<M>, w: Writer<M>): string {
    w.unsent + Frames(codec, w.strand.queue)
  }

  lemma {:induction false} FramesAppend<M>(codec: Codec<M>, ms: seq<M>, ms': seq<M>)
    ensures Frames(codec, ms + ms') == Frames(codec, ms) + Frames(codec, ms')
  {
    if ms == [] {
      assert ms + ms' == ms';
    } else {
      assert (ms + ms')[1..] == ms[1..] + ms';
      FramesAppend(codec, ms[1..], ms');
    }
  }

  lemma OneFrame<M>(codec: Codec<M>, m: M)
    ensures Frames(codec, [m]) == Frame(codec.dump(m))
  {
    assert Frames(codec, [m]) == Frame(codec.dump(m)) + "";
  }

  lemma SendAppends<M>(codec: Codec<M>, w: Writer<M>, m: M)
    requires WriterOk(w)
    ensures WriterOk(Sent(codec, w, m))
    ensures Pending(codec, Sent(codec, w, m)) == Pending(codec, w) + Frame(codec.dump(m))
  {
    OneFrame(codec, m);
    if w.strand.executing {
      FramesAppend(codec, w.strand.queue, [m]);
      assert w.unsent + (Frames(codec, w.strand.queue) + Frame(codec.dump(m))) == Pending(codec, w) + Frame(codec.dump(m));
    } else {
      assert w.strand.queue + [m] == [m];
      assert Pending(codec, w) == "";
    }
  }

  lemma WriteRemoves<M>(codec: Codec<M>, w: Writer<M>, n: nat)
    requires WriterOk(w) && 0 < n <= |w.unsent|
    ensures WriterOk(Wrote(codec, w, n))
    ensures w.unsent[..n] + Pending(codec, Wrote(codec, w, n)) == Pending(codec, w)
  {
    if n < |w.unsent| {
      assert w.unsent == w.unsent[..n] + w.unsent[n..];
    } else {
      assert w.unsent[..n] == w.unsent;
      if w.strand.queue != [] {
        assert Frames(codec, w.strand.queue) == Frame(codec.dump(w.strand.queue[0])) + Frames(codec, w.strand.queue[1..]);
      }
    }
  }

  // ----- The link -----

  datatype Link<M> = Link(writer: Writer<M>, pipe: string, buf: string)

  function IdleLink<M>(): Link<M> {
    Link(IdleWriter(), "", "")
  }

  function LinkSend<M>(codec: Codec<M>, l: Link<M>, m: M): Link<M> {
    l.(writer := Sent(codec, l.writer, m))
  }

  predicate CanWrite<M>(l: Link<M>, n: nat) {
    0 < n <= |l.writer.unsent|
  }

  function LinkWrite<M>(codec: Codec<M>, l: Link<M>, n: nat): Link<M>
    requires CanWrite(l, n)
  {
    l.(writer := Wrote(codec, l.writer, n), pipe := l.pipe + l.writer.unsent[..n])
  }

  /** A read is issued only when no complete message is buffered, and gets at least one byte. */
  predicate CanRead<M>(l: Link<M>, capacity: nat, n: nat) {
    FirstNul(l.buf).None? && 0 < n <= |l.pipe| && |l.buf| + n <= capacity
  }

  function LinkRead<M>(l: Link<M>, n: nat): Link<M>
    requires n <= |l.pipe|
  {
    l.(pipe := l.pipe[n..], buf := l.buf + l.pipe[..n])
  }

  predicate CanTake<M>(l: Link<M>) {
    FirstNul(l.buf).Some?
  }

  /** The text of the first buffered message, which is consumed. */
  function FrontText<M>(l: Link<M>): string
    requires CanTake(l)
  {
    l.buf[..FirstNul(l.buf).value]
  }

  function LinkTake<M>(l: Link<M>): Link<M>
    requires CanTake(l)
  {
    l.(buf := l.buf[FirstNul(l.buf).value + 1..])
  }

  /** Everything on its way, from the reader's buffer back to the writer's queue, is `ms`. */
  predicate Carries<M>(codec: Codec<M>, l: Link<M>, ms: seq<M>) {
    && WriterOk(l.writer)
    && l.buf + (l.pipe + Pending(codec, l.writer)) == Frames(codec, ms)
  }

  lemma SendCarries<M>(codec: Codec<M>, l: Link<M>, ms: seq<M>, m: M)
    requires Carries(codec, l, ms)
    ensures Carries(codec, LinkSend(codec, l, m), ms + [m])
  {
    hide Sent, Pending;
    SendAppends(codec, l.writer, m);
    FramesAppend(codec, ms, [m]);
    OneFrame(codec, m);
    Associate(l.buf, l.pipe, Pending(codec, l.writer), Frame(codec.dump(m)));
  }

  lemma Associate(a: string, b: string, c: string, d: string)
    ensures (a + (b + c)) + d == a + (b + (c + d))
    ensures (a + b) + (c + d) == a + ((b + c) + d)
  {
  }

  lemma WriteCarries<M>(codec: Codec<M>, l: Link<M>, ms: seq<M>, n: nat)
    requires Carries(codec, l, ms) && CanWrite(l, n)
    ensures Carries(codec, LinkWrite(codec, l, n), ms)
  {
    hide Wrote, Pending;
    WriteRemoves(codec, l.writer, n);
    assert l.pipe + Pending(codec, l.writer) == (l.pipe + l.writer.unsent[..n]) + Pending(codec, Wrote(codec, l.writer, n));
  }

  lemma ReadCarries<M>(codec: Codec<M>, l: Link<M>, ms: seq<M>, n: nat)
    requires Carries(codec, l, ms) && n <= |l.pipe|
    ensures Carries(codec, LinkRead(l, n), ms)
  {
    hide Pending;
    assert l.pipe == l.pipe[..n] + l.pipe[n..];
    Associate(l.buf, l.pipe[..n], l.pipe[n..], Pending(codec, l.writer));
  }

  lemma {:induction false} FirstNulOfFrame(text: string, rest: string)
    requires NUL !in text
    ensures FirstNul(Frame(text) + rest) == Some(|text|)
  {
    var s := Frame(text) + rest;
    if text != "" {
      assert s[1..] == Frame(text[1..]) + rest;
      FirstNulOfFrame(text[1..], rest);
    }
  }

  /** In a prefix of frames, the first NUL ends the first frame. */
  lemma FrontIsFirst<M>(codec: Codec<M>, buf: string, rest: string, ms: seq<M>)
    requires (ms != [] ==> Faithful(codec, ms[0])) && buf + rest == Frames(codec, ms) && FirstNul(buf).Some?
    ensures ms != []
    ensures var k := FirstNul(buf).value;
            k == |codec.dump(ms[0])| && buf[..k] == codec.dump(ms[0]) && buf[k + 1..] + rest == Frames(codec, ms[1..])
  {
    hide Frames, FirstNul;
    FramesStart(codec, ms);
    assert buf + rest != "";
    SplitAtFrame(buf, rest, codec.dump(ms[0]), Frames(codec, ms[1..]));
  }

  lemma SplitAtFrame(buf: string, rest: string, text: string, later: string)
    requires NUL !in text && buf + rest == Frame(text) + later && FirstNul(buf).Some?
    ensures var k := FirstNul(buf).value; k == |text| && buf[..k] == text && buf[k + 1..] + rest == later
  {
    hide FirstNul;
    var k := FirstNul(buf).value;
    FirstNulOfFrame(text, later);
    FirstNulOfFrame(buf[..k], buf[k + 1..] + rest);
    assert Frame(buf[..k]) + (buf[k + 1..] + rest) == buf + rest;
    SameSplit(buf[..k], buf[k + 1..] + rest, text, later);
  }

  lemma SameSplit(a: string, b: string, c: string, d: string)
    requires |a| == |c| && Frame(a) + b == Frame(c) + d
    ensures a == c && b == d
  {
    assert (Frame(a) + b)[..|a|] == a && (Frame(c) + d)[..|c|] == c;
    assert (Frame(a) + b)[|a| + 1..] == b && (Frame(c) + d)[|c| + 1..] == d;
  }

  lemma FramesStart<M>(codec: Codec<M>, ms: seq<M>)
    ensures ms == [] ==> Frames(codec, ms) == ""
    ensures ms != [] ==> Frames(codec, ms) == Frame(codec.dump(ms[0])) + Frames(codec, ms[1..])
  {
  }

  /** What is taken is the first message on its way, and it parses. */
  lemma TakeCarries<M>(codec: Codec<M>, l: Link<M>, ms: seq<M>)
    requires (ms != [] ==> Faithful(codec, ms[0])) && Carries(codec, l, ms) && CanTake(l)
    ensures ms != [] && codec.parse(FrontText(l)) == Some(ms[0])
    ensures Carries(codec, LinkTake(l), ms[1..])
  {
    FrontIsFirst(codec, l.buf, l.pipe + Pending(codec, l.writer), ms);
  }

  /** A buffer without a NUL holds less than the first frame, so there is room for the rest. */
  lemma RoomToRead<M>(codec: Codec<M>, l: Link<M>, ms: seq<M>)
    requires Carries(codec, l, ms) && ms != [] && !CanTake(l)
    ensures |l.buf| < |Frame(codec.dump(ms[0]))|
  {
    hide Frames, Pending;
    FramesStart(codec, ms);
    var text := codec.dump(ms[0]);
    var all := Frames(codec, ms);
    assert all[|text|] == NUL;
    if |text| < |l.buf| {
      NulInside(l.buf, l.pipe + Pending(codec, l.writer), |text|);
    }
  }

  lemma NulInside(buf: string, rest: string, k: nat)
    requires k < |buf| && (buf + rest)[k] == NUL
    ensures NUL in buf
  {
    assert buf[k] == NUL;
  }

  /** With messages on their way and nothing left to write, there is something to read or take. */
  lemma SomethingArrives<M>(codec: Codec<M>, l: Link<M>, ms: seq<M>)
    requires Carries(codec, l, ms) && ms != [] && l.writer.unsent == ""
    ensures CanTake(l) || |l.pipe| > 0
  {
    if !CanTake(l) {
      RoomToRead(codec, l, ms);
      FramesStart(codec, ms);
    }
  }

  lemma NothingOnItsWay<M>(codec: Codec<M>, l: Link<M>)
    requires Carries(codec, l, [])
    ensures l == IdleLink()
  {
    assert Frames(codec, []) == "";
    assert |l.buf + (l.pipe + Pending(codec, l.writer))| == 0;
  }

  // ----- Runs of a link -----

  datatype LinkOp<M> = SendOp(m: M) | WriteOp(n: nat) | ReadOp(n: nat) | TakeOp

  /** A link with what was given to it and what came out of it. */
  datatype Traffic<M> = Traffic(link: Link<M>, sent: seq<M>, taken: seq<Option<M>>)

  predicate Possible<M>(capacity: nat, t: Traffic<M>, op: LinkOp<M>) {
    match op
    case SendOp(_) => true
    case WriteOp(n) => CanWrite(t.link, n)
    case ReadOp(n) => CanRead(t.link, capacity, n)
    case TakeOp => CanTake(t.link)
  }

  function Step<M>(codec: Codec<M>, capacity: nat, t: Traffic<M>, op: LinkOp<M>): Traffic<M>
    requires Possible(capacity, t, op)
  {
    match op
    case SendOp(m) => t.(link := LinkSend(codec, t.link, m), sent := t.sent + [m])
    case WriteOp(n) => t.(link := LinkWrite(codec, t.link, n))
    case ReadOp(n) => t.(link := LinkRead(t.link, n))
    case TakeOp => t.(link := LinkTake(t.link), taken := t.taken + [codec.parse(FrontText(t.link))])
  }

  /** A run of sends, partial writes, partial reads and takes, if each is possible in its turn. */
  function RunLink<M>(codec: Codec<M>, capacity: nat, ops: seq<LinkOp<M>>): Option<Traffic<M>> {
    if ops == [] then Some(Traffic(IdleLink(), [], []))
    else
      match RunLink(codec, capacity, ops[..|ops| - 1])
      case None => None
      case Some(t) =>
        var op := ops[|ops| - 1];
        if Possible(capacity, t, op) then Some(Step(codec, capacity, t, op)) else None
  }

  /** What is taken is what was sent, in order, each message once, none garbled. */
  ghost predicate Delivered<M>(codec: Codec<M>, t: Traffic<M>) {
    && |t.taken| <= |t.sent|
    && (forall k | 0 <= k < |t.taken| :: t.taken[k] == Some(t.sent[k]))
    && Carries(codec, t.link, t.sent[|t.taken|..])
  }

  lemma StepDelivers<M>(codec: Codec<M>, capacity: nat, t: Traffic<M>, op: LinkOp<M>)
    requires (forall m | m in t.sent :: Faithful(codec, m)) && Delivered(codec, t) && Possible(capacity, t, op)
    ensures Delivered(codec, Step(codec, capacity, t, op))
  {
    hide Carries, CanWrite, CanRead, CanTake, LinkSend, LinkWrite, LinkRead, LinkTake, Faithful, FrontText;
    var ms := t.sent[|t.taken|..];
    match op {
      case SendOp(m) =>
        SendCarries(codec, t.link, ms, m);
        assert (t.sent + [m])[|t.taken|..] == ms + [m];
      case WriteOp(n) => WriteCarries(codec, t.link, ms, n);
      case ReadOp(n) => CanReadFits(t.link, capacity, n); ReadCarries(codec, t.link, ms, n);
      case TakeOp =>
        TakeCarries(codec, t.link, ms);
        assert t.sent[|t.taken| + 1..] == ms[1..];
    }
  }

  lemma StepSends<M>(codec: Codec<M>, capacity: nat, t: Traffic<M>, op: LinkOp<M>)
    requires Possible(capacity, t, op)
    ensures t.sent <= Step(codec, capacity, t, op).sent
    ensures forall m | m in t.sent :: m in Step(codec, capacity, t, op).sent
  {
    hide CanWrite, CanRead, CanTake, LinkSend, LinkWrite, LinkRead, LinkTake, FrontText;
  }

  lemma CanReadFits<M>(l: Link<M>, capacity: nat, n: nat)
    requires CanRead(l, capacity, n)
    ensures n <= |l.pipe|
  {
  }

  /**
   Whatever the partial writes and reads, the messages delivered are always a prefix of the
   messages sent; and they are all of them once no byte is left to write, read or take.
   */
  lemma {:induction false} TransportIsFaithful<M>(codec: Codec<M>, capacity: nat, ops: seq<LinkOp<M>>)
    requires RunLink(codec, capacity, ops).Some?
    requires forall m | m in RunLink(codec, capacity, ops).value.sent :: Faithful(codec, m)
    ensures var t := RunLink(codec, capacity, ops).value;
            && Delivered(codec, t)
            && (t.link.writer.unsent == "" && t.link.pipe == "" && !CanTake(t.link) ==> |t.taken| == |t.sent|)
  {
    hide Faithful, Step, Possible;
    var t := RunLink(codec, capacity, ops).value;
    if ops == [] {
      assert Frames(codec, t.sent[|t.taken|..]) == "";
    } else {
      var before := RunLink(codec, capacity, ops[..|ops| - 1]).value;
      StepSends(codec, capacity, before, ops[|ops| - 1]);
      TransportIsFaithful(codec, capacity, ops[..|ops| - 1]);
      StepDelivers(codec, capacity, RunLink(codec, capacity, ops[..|ops| - 1]).value, ops[|ops| - 1]);
    }
    if t.link.writer.unsent == "" && |t.taken| < |t.sent| {
      SomethingArrives(codec, t.link, t.sent[|t.taken|..]);
    }
  }

  // ----- A codec -----

  /** Where `m` stands first in `ms`, or the length of `ms`. */
  function IndexIn<M(==)>(ms: seq<M>, m: M): (k: nat)
    ensures k <= |ms| && (k < |ms| ==> ms[k] == m)
    ensures m in ms ==> k < |ms|
  {
    if ms == [] || ms[0] == m then 0 else 1 + IndexIn(ms[1..], m)
  }

  /** A codec for the messages of a list, which dumps each as its position. */
  function TableCodec<M(==)>(ms: seq<M>): Codec<M> {
    Codec(m => seq(IndexIn(ms, m), _ => '1'), text => if |text| < |ms| then Some(ms[|text|]) else None)
  }

  /** Finitely many messages always have a codec that is faithful to them. */
  lemma TableCodecIsFaithful<M>(ms: seq<M>)
    ensures forall m | m in ms :: Faithful(TableCodec(ms), m)
  {
  }
}
