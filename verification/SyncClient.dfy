/**
 The synchronous call (include/varlink/async_client.hpp:148-166): the request is sent at
 once, and each invocation of the returned function receives one reply, until the last.
 */
module SyncClients {
  import opened JsonValues
  import opened Messages
  import opened Transport
  import opened JsonConnections
  import Protocol

  /** Nothing any more; the parameters of a reply; an error reply; or a failed receive. */
  datatype CallResult = Nothing | Answer(parameters: Json) | RemoteError(reply: Json) | Failure(received: Received<Json>)

  function ParametersOf(reply: Json): Json {
    if Contains(reply, "parameters") then At(reply, "parameters") else Null
  }

  function ResultOf(reply: Json): CallResult {
    if HasError(reply) then RemoteError(reply) else Answer(ParametersOf(reply))
  }

  /** The captured mode after a reply; `Oneway` stands for a call that is over. */
  function ModeAfter(mode: CallMode, reply: Json): CallMode {
    if HasError(reply) || !mode.More? || !ReplyContinues(reply) then Oneway else mode
  }

  /** One invocation, in terms of the stream of bytes from the server. */
  datatype Invocation = Invocation(result: CallResult, mode: CallMode, stream: string)

  function Invoked(codec: Codec<Json>, capacity: nat, mode: CallMode, stream: string): Invocation {
    if mode.Oneway? then Invocation(Nothing, mode, stream)
    else
      match NextFrame(stream, capacity)
      case Missing => Invocation(Failure(EndOfInput), mode, stream)
      case Overlong => Invocation(Failure(Spinning), mode, stream)
      case Arrived(text) =>
        match codec.parse(text)
        case None => Invocation(Failure(Malformed), mode, stream[|text| + 1..])
        case Some(reply) => Invocation(ResultOf(reply), ModeAfter(mode, reply), stream[|text| + 1..])
  }

  class SyncCall {
    const connection: JsonConnection<Json>
    var mode: CallMode

    ghost predicate Valid()
      reads this, connection, connection.writeStrand
    {
      connection.Valid()
    }

    ghost function Stream(): string
      requires Valid()
      reads this, connection, connection.writeStrand, connection.readbuf
    {
      connection.Buffered() + connection.incoming
    }

    constructor (connection: JsonConnection<Json>, message: Message)
      requires connection.Valid()
      modifies connection`outgoing, connection`framed, connection`synced, connection`broken
      ensures Valid() && this.connection == connection && mode == message.mode
      ensures connection.outgoing == old(connection.outgoing) + Frame(connection.codec.dump(message.json))
    {
      this.connection, mode := connection, message.mode;
      new;
      connection.Send(message.json);
    }

    method Invoke() returns (result: CallResult)
      requires Valid()
      modifies this`mode, connection`readEnd, connection`incoming, connection.readbuf
      ensures Valid()
      ensures Invocation(result, mode, Stream()) == Invoked(connection.codec, connection.readbuf.Length, old(mode), old(Stream()))
    {
      hide NextFrame, FirstNul, HasError, ReplyContinues, ParametersOf, Frames;
      if mode.Oneway? {
        return Nothing;
      }
      var r := connection.Receive();
      if !r.Message? {
        return Failure(r);
      }
      var reply := r.m;
      if HasError(reply) {
        mode := Oneway;
        return RemoteError(reply);
      }
      if !mode.More? || !ReplyContinues(reply) {
        mode := Oneway;
      }
      result := Answer(ParametersOf(reply));
    }
  }

  // ----- A whole call -----

  /** The results of `n` invocations, and the mode and stream they leave. */
  datatype Invocations = Invocations(results: seq<CallResult>, mode: CallMode, stream: string)

  function InvokedTimes(codec: Codec<Json>, capacity: nat, mode: CallMode, stream: string, n: nat): Invocations
    decreases n
  {
    if n == 0 then Invocations([], mode, stream)
    else
      var first := Invoked(codec, capacity, mode, stream);
      var rest := InvokedTimes(codec, capacity, first.mode, first.stream, n - 1);
      Invocations([first.result] + rest.results, rest.mode, rest.stream)
  }

  lemma NextFrameOfFrames(codec: Codec<Json>, capacity: nat, ms: seq<Json>)
    requires ms != [] && Faithful(codec, ms[0]) && |Frame(codec.dump(ms[0]))| <= capacity
    ensures NextFrame(Frames(codec, ms), capacity) == Arrived(codec.dump(ms[0]))
    ensures Frames(codec, ms)[|codec.dump(ms[0])| + 1..] == Frames(codec, ms[1..])
  {
    hide FirstNul;
    var text := codec.dump(ms[0]);
    FramesStart(codec, ms);
    FirstNulOfFrame(text, Frames(codec, ms[1..]));
    assert (Frame(text) + Frames(codec, ms[1..]))[..|text|] == text;
  }

  lemma {:induction false} OverStaysOver(codec: Codec<Json>, capacity: nat, stream: string, n: nat)
    ensures InvokedTimes(codec, capacity, Oneway, stream, n) == Invocations(seq(n, _ => Nothing), Oneway, stream)
  {
    if n > 0 {
      OverStaysOver(codec, capacity, stream, n - 1);
      assert [Nothing] + seq(n - 1, _ => Nothing) == seq(n, _ => Nothing);
    }
  }

  function Results(group: seq<Json>): seq<CallResult> {
    seq(|group|, k requires 0 <= k < |group| => ResultOf(group[k]))
  }

  /**
   Invoking the function as often as the call has replies gives exactly these replies, and
   leaves the replies to later calls in the stream; further invocations give nothing and
   read nothing.
   */
  lemma {:induction false} CallReadsItsGroup(codec: Codec<Json>, capacity: nat, mode: CallMode, group: seq<Json>, later: seq<Json>, extra: nat)
    requires !mode.Oneway? && Protocol.WellBehaved(mode, group)
    requires forall r | r in group :: Faithful(codec, r) && |Frame(codec.dump(r))| <= capacity
    ensures InvokedTimes(codec, capacity, mode, Frames(codec, group + later), |group| + extra)
         == Invocations(Results(group) + seq(extra, _ => Nothing), Oneway, Frames(codec, later))
    decreases |group|
  {
    hide NextFrame, Frames, HasError, ReplyContinues;
    var ms := group + later;
    assert group[0] in group && ms[0] == group[0];
    NextFrameOfFrames(codec, capacity, ms);
    assert ms[1..] == group[1..] + later;
    var first := Invoked(codec, capacity, mode, Frames(codec, ms));
    assert first == Invocation(ResultOf(group[0]), ModeAfter(mode, group[0]), Frames(codec, ms[1..]));
    if |group| == 1 {
      assert group[1..] + later == later;
      OverStaysOver(codec, capacity, Frames(codec, later), extra);
      assert [ResultOf(group[0])] + seq(extra, _ => Nothing) == Results(group) + seq(extra, _ => Nothing);
    } else {
      assert ReplyContinues(group[0]) && !HasError(group[0]);
      CallReadsItsGroup(codec, capacity, mode, group[1..], later, extra);
      assert [ResultOf(group[0])] + (Results(group[1..]) + seq(extra, _ => Nothing)) == Results(group) + seq(extra, _ => Nothing);
    }
  }

  /** What the k-th invocation gives: the parameters of the k-th reply, or its error; at last nothing. */
  lemma InvocationsGive(codec: Codec<Json>, capacity: nat, mode: CallMode, group: seq<Json>, later: seq<Json>, extra: nat, k: nat)
    requires !mode.Oneway? && Protocol.WellBehaved(mode, group) && k < |group| + extra
    requires forall r | r in group :: Faithful(codec, r) && |Frame(codec.dump(r))| <= capacity
    ensures var results := InvokedTimes(codec, capacity, mode, Frames(codec, group + later), |group| + extra).results;
            && |results| == |group| + extra
            && (if k >= |group| then results[k] == Nothing
                else
                  group[k].Object?
                  && match Get(group[k], "error")
                     case Some(_) => results[k] == RemoteError(group[k])
                     case None => results[k] == Answer(match Get(group[k], "parameters") case Some(p) => p case None => Null))
  {
    hide Get, Frames, NextFrame, InvokedTimes;
    CallReadsItsGroup(codec, capacity, mode, group, later, extra);
    if k < |group| {
      assert group[k] in group && Results(group)[k] == ResultOf(group[k]);
    }
  }
}
