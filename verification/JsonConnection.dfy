/**
 The connection (include/varlink/json_connection.hpp): messages framed by NUL, written
 through a strand in whatever pieces the socket takes, and read in whatever pieces it
 gives into a fixed buffer that is compacted in place.
 */
module JsonConnections {
  import opened Wrappers
  import opened ManualStrands
  import opened Transport

  /**
   The outcome of a receive: a message; text that does not parse; no more bytes from the
   socket; or a full buffer without a NUL, on which `receive` reads nothing for ever.
   */
  datatype Received<M> = Message(m: M) | Malformed | EndOfInput | Spinning

  function Parsed<M>(codec: Codec<M>, text: string): Received<M> {
    match codec.parse(text)
    case Some(m) => Message(m)
    case None => Malformed
  }

  /** What the bytes of a stream hold for a reader with a buffer of this capacity. */
  datatype Arrival = Arrived(text: string) | Missing | Overlong

  function NextFrame(stream: string, capacity: nat): Arrival {
    match FirstNul(stream)
    case Some(k) => if k < capacity then Arrived(stream[..k]) else Overlong
    case None => if |stream| < capacity then Missing else Overlong
  }

  lemma {:induction false} FirstNulOfPrefix(a: string, b: string)
    ensures FirstNul(a).Some? ==> FirstNul(a + b) == FirstNul(a)
    ensures FirstNul(a).None? ==> FirstNul(a + b) == match FirstNul(b) { case Some(k) => Some(|a| + k) case None => None }
  {
    if a == "" {
      assert a + b == b;
    } else {
      assert (a + b)[1..] == a[1..] + b;
      FirstNulOfPrefix(a[1..], b);
    }
  }

  /** Whole frames, and a part of the last one when `unsent` is left of it. */
  ghost function OnWire<M>(codec: Codec<M>, framed: seq<M>, unsent: string): string
    requires unsent != "" ==> framed != [] && |unsent| <= |Frame(codec.dump(framed[|framed| - 1]))|
  {
    if unsent == "" then Frames(codec, framed)
    else
      var last := Frame(codec.dump(framed[|framed| - 1]));
      Frames(codec, framed[..|framed| - 1]) + last[..|last| - |unsent|]
  }

  /** `rest` is the end of the last frame. */
  ghost predicate EndsLastFrame<M>(codec: Codec<M>, framed: seq<M>, rest: string) {
    rest != "" ==>
      && framed != []
      && var last := Frame(codec.dump(framed[|framed| - 1]));
         |rest| <= |last| && rest == last[|last| - |rest|..]
  }

  lemma WriteOnWire<M>(codec: Codec<M>, framed: seq<M>, unsent: string, n: nat)
    requires EndsLastFrame(codec, framed, unsent) && 0 < n <= |unsent|
    ensures EndsLastFrame(codec, framed, unsent[n..])
    ensures OnWire(codec, framed, unsent) + unsent[..n] == OnWire(codec, framed, unsent[n..])
  {
    var before, m := framed[..|framed| - 1], framed[|framed| - 1];
    var last := Frame(codec.dump(m));
    var k := |last| - |unsent|;
    assert last[..k] + unsent[..n] == last[..k + n];
    assert unsent[n..] == last[k + n..];
    if n == |unsent| {
      FramesAppend(codec, before, [m]);
      OneFrame(codec, m);
      assert framed == before + [m];
      assert last[..k + n] == last;
    }
    assert (Frames(codec, before) + last[..k]) + unsent[..n] == Frames(codec, before) + (last[..k] + unsent[..n]);
  }

  /**
   The frames on the wire and in progress after a message was sent past a running write: in
   front of the running frame if nothing of it was written yet; behind it if nothing runs, or
   if the new frame completes it and what is left then serves as the new one.
   */
  ghost function FramedAfter<M>(codec: Codec<M>, framed: seq<M>, unsent: string, m: M): Option<seq<M>>
    requires EndsLastFrame(codec, framed, unsent)
  {
    if unsent == "" || unsent == Frame(codec.dump(m)) then Some(framed + [m])
    else
      var before, last := framed[..|framed| - 1], framed[|framed| - 1];
      if unsent == Frame(codec.dump(last)) then Some(before + [m, last]) else None
  }

  lemma SendOnWire<M>(codec: Codec<M>, framed: seq<M>, unsent: string, m: M)
    requires EndsLastFrame(codec, framed, unsent) && FramedAfter(codec, framed, unsent, m).Some?
    ensures var after := FramedAfter(codec, framed, unsent, m).value;
            EndsLastFrame(codec, after, unsent)
            && OnWire(codec, framed, unsent) + Frame(codec.dump(m)) == OnWire(codec, after, unsent)
  {
    hide Frame, Frames;
    var frame := Frame(codec.dump(m));
    OneFrame(codec, m);
    FramesAppend(codec, framed, [m]);
    if unsent != "" {
      var before, last := framed[..|framed| - 1], framed[|framed| - 1];
      var running := Frame(codec.dump(last));
      OneFrame(codec, last);
      FramesAppend(codec, before, [last]);
      FramesAppend(codec, before, [m]);
      assert framed == before + [last];
      if unsent == frame {
        assert running == running[..|running| - |unsent|] + unsent;
        assert (framed + [m])[..|framed|] == framed && frame[..0] == "";
      } else {
        assert (before + [m, last])[..|before| + 1] == before + [m] && running[..0] == "";
      }
    }
  }

  /**
   Exactly then what goes over the wire is whole frames, with the new one behind or in front
   of the running one.
   */
  lemma SendKeepsFramesIff<M>(codec: Codec<M>, framed: seq<M>, unsent: string, m: M)
    requires EndsLastFrame(codec, framed, unsent)
    requires NUL !in codec.dump(m) && (framed != [] ==> NUL !in codec.dump(framed[|framed| - 1]))
    ensures var wire := OnWire(codec, framed, unsent) + Frame(codec.dump(m)) + unsent;
            (wire == Frames(codec, framed + [m])
             || (framed != [] && wire == Frames(codec, framed[..|framed| - 1] + [m, framed[|framed| - 1]])))
            <==> FramedAfter(codec, framed, unsent, m).Some?
  {
    hide OnWire, Frames, FramedAfter;
    if FramedAfter(codec, framed, unsent, m).Some? {
      SendOnWire(codec, framed, unsent, m);
      WholeOnWire(codec, FramedAfter(codec, framed, unsent, m).value, unsent);
      FramedAfterIs(codec, framed, unsent, m);
    } else {
      RunningFrame(codec, framed, unsent, m);
      BrokenFrames(codec, framed, unsent, m);
    }
  }

  lemma RunningFrame<M>(codec: Codec<M>, framed: seq<M>, unsent: string, m: M)
    requires EndsLastFrame(codec, framed, unsent) && FramedAfter(codec, framed, unsent, m).None?
    ensures framed != []
  {
    hide Frame;
  }

  lemma FramedAfterIs<M>(codec: Codec<M>, framed: seq<M>, unsent: string, m: M)
    requires EndsLastFrame(codec, framed, unsent) && FramedAfter(codec, framed, unsent, m).Some?
    ensures var after := FramedAfter(codec, framed, unsent, m).value;
            after == framed + [m] || (framed != [] && after == framed[..|framed| - 1] + [m, framed[|framed| - 1]])
  {
    hide Frame;
  }

  lemma WholeOnWire<M>(codec: Codec<M>, framed: seq<M>, unsent: string)
    requires EndsLastFrame(codec, framed, unsent)
    ensures OnWire(codec, framed, unsent) + unsent == Frames(codec, framed)
  {
    hide Frame, Frames;
    if unsent != "" {
      var before, m := framed[..|framed| - 1], framed[|framed| - 1];
      var last := Frame(codec.dump(m));
      OneFrame(codec, m);
      FramesAppend(codec, before, [m]);
      assert framed == before + [m];
      assert last == last[..|last| - |unsent|] + unsent;
      Together(Frames(codec, before), last[..|last| - |unsent|], unsent);
    }
  }

  lemma Together(a: string, b: string, c: string)
    ensures (a + b) + c == a + (b + c)
  {
  }

  /** Where a frame lands inside another one, the first NUL ends neither message. */
  lemma BrokenFrames<M>(codec: Codec<M>, framed: seq<M>, unsent: string, m: M)
    requires EndsLastFrame(codec, framed, unsent) && FramedAfter(codec, framed, unsent, m).None?
    requires NUL !in codec.dump(m) && NUL !in codec.dump(framed[|framed| - 1])
    ensures var wire := OnWire(codec, framed, unsent) + Frame(codec.dump(m)) + unsent;
            wire != Frames(codec, framed + [m]) && wire != Frames(codec, framed[..|framed| - 1] + [m, framed[|framed| - 1]])
  {
    hide Frames;
    var before, last := framed[..|framed| - 1], framed[|framed| - 1];
    var a, b := codec.dump(last), codec.dump(m);
    var k := |a| + 1 - |unsent|;
    assert Frame(a)[..k] == a[..k] && k > 0;
    TwoFrames(codec, before, last, m);
    TwoFrames(codec, before, m, last);
    assert framed + [m] == before + [last, m];
    var inside := Frame(a[..k] + b) + unsent;
    assert OnWire(codec, framed, unsent) + Frame(b) + unsent == Frames(codec, before) + inside;
    FirstNulOfFrame(a[..k] + b, unsent);
    FirstNulOfFrame(a, Frame(b));
    FirstNulOfFrame(b, Frame(a));
    if inside == Frame(a) + Frame(b) {
      SameSplit(a[..k] + b, unsent, a, Frame(b));
    }
    SamePrefix(Frames(codec, before), inside, Frame(a) + Frame(b));
    SamePrefix(Frames(codec, before), inside, Frame(b) + Frame(a));
  }

  lemma SamePrefix(p: string, a: string, b: string)
    ensures p + a == p + b <==> a == b
  {
    assert (p + a)[|p|..] == a && (p + b)[|p|..] == b;
  }

  lemma TwoFrames<M>(codec: Codec<M>, before: seq<M>, a: M, b: M)
    ensures Frames(codec, before + [a, b]) == Frames(codec, before) + (Frame(codec.dump(a)) + Frame(codec.dump(b)))
  {
    hide Frame, Frames;
    OneFrame(codec, a);
    OneFrame(codec, b);
    assert [a] + [b] == [a, b];
    FramesAppend(codec, [a], [b]);
    FramesAppend(codec, before, [a, b]);
  }

  lemma NothingUnsent<M>(codec: Codec<M>, framed: seq<M>)
    ensures OnWire(codec, framed, "") == Frames(codec, framed) && EndsLastFrame(codec, framed, "")
  {
  }

  /** What a buffer tells about the stream that it is the beginning of. */
  lemma NextFrameInBuffer(buffered: string, left: string, capacity: nat)
    requires |buffered| <= capacity
    ensures match FirstNul(buffered)
            case Some(k) =>
              NextFrame(buffered + left, capacity) == Arrived(buffered[..k]) && (buffered + left)[k + 1..] == buffered[k + 1..] + left
            case None =>
              && (|buffered| == capacity ==> NextFrame(buffered + left, capacity).Overlong?)
              && (|buffered| < capacity && left == "" ==> NextFrame(buffered + left, capacity).Missing?)
  {
    FirstNulOfPrefix(buffered, left);
    match FirstNul(buffered)
    case None => assert left == "" ==> buffered + left == buffered;
    case Some(k) => assert (buffered + left)[..k] == buffered[..k] && (buffered + left)[k + 1..] == buffered[k + 1..] + left;
  }

  class JsonConnection<M> {
    const codec: Codec<M>
    const readbuf: array<char>
    const writeStrand: ManualStrand<M>
    var readEnd: nat
    /** The bytes of the running `async_write` that are still to be written. */
    var unsent: string

    /** The socket: bytes that have arrived for us, and all bytes written to it. */
    var incoming: string
    var outgoing: string

    /** The messages whose frames were begun on the wire, and those sent without the strand. */
    ghost var framed: seq<M>
    ghost var synced: seq<M>
    /** A write has reported an error, or a synchronous send has broken into one. */
    ghost var broken: bool

    ghost predicate Valid()
      reads this, writeStrand
    {
      && readEnd <= readbuf.Length
      && writeStrand.Valid()
      && WriterOk(WriterView())
      && |writeStrand.started| == writeStrand.nexts + (if writeStrand.executing then 1 else 0)
      && WireIntact()
    }

    /**
     Unless a write is broken, on the wire are whole frames, in the order in which the
     messages were pushed, followed by a part of the one frame in progress.
     */
    ghost predicate WireIntact()
      reads this, writeStrand
    {
      && (synced == [] ==> framed == writeStrand.started)
      && EndsLastFrame(codec, framed, unsent)
      && (!broken ==> outgoing == OnWire(codec, framed, unsent))
    }

    function WriterView(): Writer<M>
      reads this, writeStrand
    {
      Writer(writeStrand.View(), unsent)
    }

    function Buffered(): string
      requires readEnd <= readbuf.Length
      reads this, readbuf
    {
      readbuf[..readEnd]
    }

    constructor (codec: Codec<M>, capacity: nat)
      ensures Valid() && fresh(readbuf) && fresh(writeStrand)
      ensures this.codec == codec && readbuf.Length == capacity && Buffered() == "" && WriterView() == IdleWriter()
      ensures incoming == outgoing == "" && framed == synced == [] && !broken
    {
      this.codec := codec;
      readbuf := new char[capacity];
      writeStrand := new ManualStrand();
      readEnd, unsent, incoming, outgoing, framed, synced, broken := 0, "", "", "", [], [], false;
    }

    // ----- Writing -----

    method AsyncSend(m: M)
      requires Valid()
      modifies this`unsent, this`framed, writeStrand
      ensures Valid() && WriterView() == Sent(codec, old(WriterView()), m)
      ensures writeStrand.pushed == old(writeStrand.pushed) + [m]
      ensures old(framed) <= framed
    {
      var run := writeStrand.Push(m);
      if run.Some? {
        BeginWrite(run.value);
      }
    }

    /** The job on the write strand: starts to write the dumped message and its NUL. */
    method BeginWrite(m: M)
      requires unsent == "" && (!broken ==> outgoing == Frames(codec, framed))
      modifies this`unsent, this`framed
      ensures framed == old(framed) + [m] && unsent == Frame(codec.dump(m))
      ensures EndsLastFrame(codec, framed, unsent) && (!broken ==> outgoing == OnWire(codec, framed, unsent))
    {
      framed := framed + [m];
      unsent := Frame(codec.dump(m));
      assert framed[..|framed| - 1] == old(framed);
    }

    /** The running write is over: the one `next()` that every write makes. */
    method NextWrite()
      requires readEnd <= readbuf.Length && unsent == ""
      requires writeStrand.Valid() && writeStrand.executing && |writeStrand.started| == writeStrand.nexts + 1
      requires (synced == [] ==> framed == writeStrand.started) && (!broken ==> outgoing == Frames(codec, framed))
      modifies this`unsent, this`framed, writeStrand
      ensures Valid() && WriterView() == Begin(codec, Nexted(old(writeStrand.View())), "")
      ensures writeStrand.pushed == old(writeStrand.pushed) && writeStrand.nexts == old(writeStrand.nexts) + 1
      ensures old(framed) <= framed
    {
      hide OnWire, EndsLastFrame, Frames;
      NothingUnsent(codec, framed);
      var run := writeStrand.Next();
      if run.Some? {
        BeginWrite(run.value);
      }
    }

    /** The socket took `n` more bytes of the running write; the last ones complete it. */
    method OnWritten(n: nat) returns (done: bool)
      requires Valid() && 0 < n <= |unsent|
      modifies this`unsent, this`outgoing, this`framed, writeStrand
      ensures Valid() && WriterView() == Wrote(codec, old(WriterView()), n)
      ensures outgoing == old(outgoing) + old(unsent)[..n]
      ensures done <==> n == |old(unsent)|
      ensures writeStrand.pushed == old(writeStrand.pushed) && old(framed) <= framed
      ensures writeStrand.nexts == old(writeStrand.nexts) + if done then 1 else 0
    {
      hide OnWire, EndsLastFrame, Frames;
      WriteOnWire(codec, framed, unsent, n);
      outgoing := outgoing + unsent[..n];
      done := n == |unsent|;
      unsent := unsent[n..];
      if done {
        NothingUnsent(codec, framed);
        NextWrite();
      }
    }

    /** The running write fails: its last bytes are dropped, and the next write begins. */
    method OnWriteFailed()
      requires Valid() && unsent != ""
      modifies this`unsent, this`framed, this`broken, writeStrand
      ensures Valid() && broken && WriterView() == Begin(codec, Nexted(old(writeStrand.View())), "")
      ensures writeStrand.pushed == old(writeStrand.pushed) && writeStrand.nexts == old(writeStrand.nexts) + 1
      ensures old(framed) <= framed
    {
      hide OnWire, EndsLastFrame, Frames;
      broken, unsent := true, "";
      NextWrite();
    }

    /**
     The synchronous send loop, which writes past the strand. While a write is running, its
     frame may land inside the other one.
     */
    method Send(m: M)
      requires Valid()
      modifies this`outgoing, this`framed, this`synced, this`broken
      ensures Valid() && outgoing == old(outgoing) + Frame(codec.dump(m))
      ensures synced == old(synced) + [m]
      ensures match FramedAfter(codec, old(framed), unsent, m)
              case Some(after) => framed == after && broken == old(broken)
              case None => framed == old(framed) && broken
    {
      var data := Frame(codec.dump(m));
      var sent := 0;
      while sent < |data|
        invariant sent <= |data| && outgoing == old(outgoing) + data[..sent]
        invariant framed == old(framed) && synced == old(synced) && broken == old(broken)
      {
        var n: nat :| 0 < n <= |data| - sent;
        outgoing := outgoing + data[sent..sent + n];
        assert data[..sent + n] == data[..sent] + data[sent..sent + n];
        sent := sent + n;
      }
      assert data[..sent] == data;
      NoteSend(m);
    }

    /** What the wire holds now. */
    ghost method NoteSend(m: M)
      requires writeStrand.Valid() && readEnd <= readbuf.Length && WriterOk(WriterView())
      requires |writeStrand.started| == writeStrand.nexts + (if writeStrand.executing then 1 else 0)
      requires (synced == [] ==> framed == writeStrand.started) && EndsLastFrame(codec, framed, unsent)
      requires !broken ==> outgoing == OnWire(codec, framed, unsent) + Frame(codec.dump(m))
      modifies this`framed, this`synced, this`broken
      ensures Valid() && synced == old(synced) + [m]
      ensures match FramedAfter(codec, old(framed), unsent, m)
              case Some(after) => framed == after && broken == old(broken)
              case None => framed == old(framed) && broken
    {
      hide OnWire, EndsLastFrame, FramedAfter, Frame;
      synced := synced + [m];
      match FramedAfter(codec, framed, unsent, m) {
        case Some(after) =>
          SendOnWire(codec, framed, unsent, m);
          framed := after;
        case None => broken := true;
      }
    }

    // ----- Reading -----

    method FindNul() returns (end: nat)
      requires readEnd <= readbuf.Length
      ensures end <= readEnd
      ensures FirstNul(Buffered()) == if end < readEnd then Some(end) else None
    {
      end := 0;
      while end < readEnd && readbuf[end] != NUL
        invariant end <= readEnd && NUL !in readbuf[..end]
      {
        end := end + 1;
      }
      FirstNulIs(Buffered(), end);
    }

    /** Moves the bytes from `from` on to the front of the buffer, in place. */
    method MoveToFront(from: nat)
      requires from <= readEnd <= readbuf.Length
      modifies this`readEnd, readbuf
      ensures readEnd <= readbuf.Length && Buffered() == old(Buffered())[from..]
    {
      var i := 0;
      while from + i < readEnd
        invariant from + i <= readEnd == old(readEnd)
        invariant forall j | 0 <= j < i :: readbuf[j] == old(readbuf[from + j])
        invariant forall j | i <= j < readEnd :: readbuf[j] == old(readbuf[j])
      {
        readbuf[i] := readbuf[from + i];
        i := i + 1;
      }
      readEnd := i;
      assert forall j | 0 <= j < i :: readbuf[..readEnd][j] == old(readbuf[..readEnd])[from..][j];
    }

    /** Takes the first complete message out of the buffer, even when it does not parse. */
    method ReadNextMessage() returns (r: Option<Received<M>>)
      requires Valid()
      modifies this`readEnd, readbuf
      ensures Valid()
      ensures match FirstNul(old(Buffered()))
              case None => r == None && Buffered() == old(Buffered())
              case Some(k) => r == Some(Parsed(codec, old(Buffered())[..k])) && Buffered() == old(Buffered())[k + 1..]
    {
      var end := FindNul();
      if end == readEnd {
        return None;
      }
      var message := readbuf[..end];
      assert message == old(Buffered())[..end];
      MoveToFront(end + 1);
      r := Some(Parsed(codec, message));
    }

    /** Puts `n` bytes from the socket behind the buffered ones. */
    method Fill(n: nat)
      requires Valid() && n <= |incoming| && readEnd + n <= readbuf.Length
      modifies this`readEnd, this`incoming, readbuf
      ensures Valid() && Buffered() == old(Buffered()) + old(incoming)[..n] && incoming == old(incoming)[n..]
    {
      var i := 0;
      while i < n
        invariant i <= n && readEnd == old(readEnd) && incoming == old(incoming)
        invariant readbuf[..readEnd] == old(readbuf[..readEnd])
        invariant readbuf[readEnd..readEnd + i] == incoming[..i]
      {
        readbuf[readEnd + i] := incoming[i];
        assert readbuf[readEnd..readEnd + i + 1] == readbuf[readEnd..readEnd + i] + [incoming[i]];
        i := i + 1;
      }
      readEnd, incoming := readEnd + n, incoming[n..];
      assert readbuf[..readEnd] == readbuf[..readEnd - n] + readbuf[readEnd - n..readEnd];
    }

    /** A message that is taken out of the buffer is the next one of the stream. */
    method TakeNext(ghost stream: string) returns (r: Option<Received<M>>)
      requires Valid() && Buffered() + incoming == stream
      modifies this`readEnd, readbuf
      ensures Valid()
      ensures r.None? ==> Buffered() + incoming == stream && FirstNul(Buffered()).None?
      ensures r.Some? ==> NextFrame(stream, readbuf.Length).Arrived?
      ensures r.Some? ==> var text := NextFrame(stream, readbuf.Length).text;
                          r == Some(Parsed(codec, text)) && |text| < |stream| && Buffered() + incoming == stream[|text| + 1..]
    {
      hide NextFrame, FirstNul, WireIntact;
      NextFrameInBuffer(Buffered(), incoming, readbuf.Length);
      r := ReadNextMessage();
    }

    /**
     The synchronous receive. However the socket cuts the stream into reads, the result and
     what is left of the stream depend on the stream alone.
     */
    method Receive() returns (r: Received<M>)
      requires Valid()
      modifies this`readEnd, this`incoming, readbuf
      ensures Valid()
      ensures var stream, rest := old(Buffered() + incoming), Buffered() + incoming;
              match NextFrame(stream, readbuf.Length)
              case Arrived(text) => r == Parsed(codec, text) && rest == stream[|text| + 1..]
              case Missing => r == EndOfInput && rest == stream
              case Overlong => r == Spinning && rest == stream && FirstNul(Buffered()).None? && readEnd == readbuf.Length
    {
      hide NextFrame, FirstNul, WireIntact;
      ghost var stream := Buffered() + incoming;
      var j := TakeNext(stream);
      while j.None?
        invariant Valid()
        invariant j.None? ==> Buffered() + incoming == stream && FirstNul(Buffered()).None?
        invariant j.Some? ==> NextFrame(stream, readbuf.Length).Arrived?
        invariant j.Some? ==> var text := NextFrame(stream, readbuf.Length).text;
                              j == Some(Parsed(codec, text)) && |text| < |stream| && Buffered() + incoming == stream[|text| + 1..]
        decreases if j.None? then 1 + |incoming| else 0
      {
        if readEnd == readbuf.Length || incoming == "" {
          NextFrameInBuffer(Buffered(), incoming, readbuf.Length);
          return if readEnd == readbuf.Length then Spinning else EndOfInput;
        }
        var n: nat :| 0 < n <= |incoming| && readEnd + n <= readbuf.Length;
        assert (Buffered() + incoming[..n]) + incoming[n..] == stream;
        Fill(n);
        j := TakeNext(stream);
      }
      r := j.value;
    }

    /** `async_receive`: a buffered message is handed out, otherwise a read is issued. */
    method AsyncReceive() returns (r: Option<Received<M>>)
      requires Valid()
      modifies this`readEnd, readbuf
      ensures Valid()
      ensures match FirstNul(old(Buffered()))
              case None => r == None && Buffered() == old(Buffered())
              case Some(k) => r == Some(Parsed(codec, old(Buffered())[..k])) && Buffered() == old(Buffered())[k + 1..]
    {
      r := ReadNextMessage();
    }

    /** The completion of a read of `n` bytes; without a complete message it receives again. */
    method OnRead(n: nat) returns (r: Option<Received<M>>)
      requires Valid() && n <= |incoming| && readEnd + n <= readbuf.Length
      modifies this`readEnd, this`incoming, readbuf
      ensures Valid() && incoming == old(incoming)[n..]
      ensures var buffered := old(Buffered()) + old(incoming)[..n];
              match FirstNul(buffered)
              case None => r == None && Buffered() == buffered
              case Some(k) => r == Some(Parsed(codec, buffered[..k])) && Buffered() == buffered[k + 1..]
    {
      Fill(n);
      r := ReadNextMessage();
      if r.None? {
        r := AsyncReceive();
      }
    }
  }

  lemma FirstNulIs(s: string, k: nat)
    requires k <= |s| && NUL !in s[..k] && (k < |s| ==> s[k] == NUL)
    ensures FirstNul(s) == if k < |s| then Some(k) else None
  {
    assert s == s[..k] + s[k..];
    FirstNulOfPrefix(s[..k], s[k..]);
  }

  // ----- Repeated receives -----

  /** The pieces of a stream between its NULs, and what is left behind the last NUL. */
  datatype Split = Split(texts: seq<string>, rest: string)

  function SplitAtNuls(stream: string): Split
    decreases |stream|
  {
    match FirstNul(stream)
    case None => Split([], stream)
    case Some(k) =>
      var later := SplitAtNuls(stream[k + 1..]);
      Split([stream[..k]] + later.texts, later.rest)
  }

  /** The stream that is left after `n` successful receives. */
  function AfterReceives(stream: string, capacity: nat, n: nat): Option<string> {
    if n == 0 then Some(stream)
    else
      match NextFrame(stream, capacity)
      case Arrived(text) => AfterReceives(stream[|text| + 1..], capacity, n - 1)
      case _ => None
  }

  lemma SplitStep(stream: string, capacity: nat)
    ensures match FirstNul(stream)
            case None => SplitAtNuls(stream) == Split([], stream)
            case Some(k) =>
              && SplitAtNuls(stream) == Split([stream[..k]] + SplitAtNuls(stream[k + 1..]).texts, SplitAtNuls(stream[k + 1..]).rest)
              && (k < capacity ==> NextFrame(stream, capacity) == Arrived(stream[..k]))
  {
  }

  /** Every piece, and what is left, fits the buffer together with its NUL. */
  predicate Fits(split: Split, capacity: nat) {
    (forall text | text in split.texts :: |text| < capacity) && |split.rest| < capacity
  }

  /** Receives return the pieces of the stream one by one, if they fit the buffer. */
  lemma {:induction false} ReceivesSplitTheStream(stream: string, capacity: nat, n: nat)
    requires n <= |SplitAtNuls(stream).texts| && Fits(SplitAtNuls(stream), capacity)
    ensures AfterReceives(stream, capacity, n).Some?
    ensures var left := AfterReceives(stream, capacity, n).value;
            && SplitAtNuls(left) == Split(SplitAtNuls(stream).texts[n..], SplitAtNuls(stream).rest)
            && NextFrame(left, capacity)
               == if n < |SplitAtNuls(stream).texts| then Arrived(SplitAtNuls(stream).texts[n]) else Missing
    decreases n
  {
    hide SplitAtNuls, FirstNul, NextFrame;
    SplitStep(stream, capacity);
    var all := SplitAtNuls(stream);
    if FirstNul(stream).Some? {
      var k := FirstNul(stream).value;
      var later := SplitAtNuls(stream[k + 1..]);
      assert all.texts[0] in all.texts;
      if n > 0 {
        assert Fits(later, capacity);
        ReceivesSplitTheStream(stream[k + 1..], capacity, n - 1);
        assert later.texts[n - 1..] == all.texts[n..];
      }
    } else {
      NothingMissing(stream, capacity);
    }
  }

  lemma NothingMissing(stream: string, capacity: nat)
    requires FirstNul(stream).None? && |stream| < capacity
    ensures NextFrame(stream, capacity) == Missing
  {
  }

  /**
   A reader is stuck exactly when the frame it is in the middle of is longer than its buffer:
   then there is no room for the rest of it, and no later bytes change that.
   */
  lemma StuckIffFrameTooLong(stream: string, capacity: nat, more: string)
    ensures NextFrame(stream, capacity).Overlong? <==> capacity <= |stream| && NUL !in stream[..capacity]
    ensures NextFrame(stream, capacity).Overlong? ==> NextFrame(stream + more, capacity).Overlong?
  {
    FirstNulOfPrefix(stream, more);
    if capacity <= |stream| {
      assert stream == stream[..capacity] + stream[capacity..];
      FirstNulOfPrefix(stream[..capacity], stream[capacity..]);
    }
  }
}
