/** A oneway call that fails: its error reply reaches the handler of the next call. */
module Mispairing {
  import opened Wrappers
  import opened JsonValues
  import opened Messages
  import opened ManualStrands
  import opened Transport
  import opened AsyncClients
  import opened ServerSessions
  import opened Protocol
  import opened Progress

  /** A oneway call that is answered with `error`, and behind it a call that waits. */
  ghost predicate FailedThenWaiting(w: Work, error: Json) {
    && Proper(w) && FramesFit(w)
    && |w.calls| >= 2 && IsOneway(w, 0) && !IsOneway(w, 1)
    && w.plan[0] == [error] && error.Object? && HasError(error)
  }

  lemma RunOn(w: Work, steps: seq<Step>, s: System, step: Step)
    requires Run(w, steps) == Some(s) && Enabled(w, s, step)
    ensures Run(w, steps + [step]) == Some(Apply(w, s, step))
  {
    hide Enabled, Apply;
    assert (steps + [step])[..|steps|] == steps;
  }

  /** Writing a whole frame empties the writer into the pipe. */
  lemma WriteWhole(codec: Codec<Json>, l: Link<Json>, j: Json)
    requires l == Link(Writer(Strand([], true), Frame(codec.dump(j))), "", "")
    ensures CanWrite(l, |l.writer.unsent|)
    ensures LinkWrite(codec, l, |l.writer.unsent|) == Link(IdleWriter(), Frame(codec.dump(j)), "")
  {
  }

  lemma ReadWhole(codec: Codec<Json>, l: Link<Json>, j: Json, capacity: nat)
    requires l.pipe == Frame(codec.dump(j)) && l.buf == "" && |l.pipe| <= capacity
    ensures CanRead(l, capacity, |l.pipe|) && LinkRead(l, |l.pipe|) == l.(pipe := "", buf := l.pipe)
  {
  }

  lemma {:induction false} TakeWhole(codec: Codec<Json>, l: Link<Json>, j: Json)
    requires Faithful(codec, j) && l.buf == Frame(codec.dump(j))
    ensures CanTake(l) && codec.parse(FrontText(l)) == Some(j) && LinkTake(l) == l.(buf := "")
  {
    var text := codec.dump(j);
    FirstNulOfFrame(text, "");
    assert Frame(text) + "" == Frame(text) && Frame(text)[..|text|] == text && Frame(text)[|text| + 1..] == "";
  }

  lemma SendIdle(codec: Codec<Json>, l: Link<Json>, j: Json)
    requires l.writer == IdleWriter()
    ensures LinkSend(codec, l, j) == l.(writer := Writer(Strand([], true), Frame(codec.dump(j))))
  {
  }

  lemma OneAnswer(w: Work, error: Json)
    requires FailedThenWaiting(w, error)
    ensures Answers(w, 0) == [error] && Faithful(w.codec, error) && Size(w.codec, error) <= w.capacity
    ensures !ReplyContinues(error)
  {
    hide Faithful, Size, FromJson, HasError, ReplyContinues;
    assert WellBehaved(w.calls[0].mode, w.plan[0]);
    assert [error][..0] == [] && Objects([]) == [];
    assert error in Answers(w, 0);
  }

  /** Both calls are pushed and the first request is written. */
  lemma UpToWritten(w: Work, error: Json) returns (steps: seq<Step>, s: System)
    requires FailedThenWaiting(w, error)
    ensures Run(w, steps) == Some(s)
    ensures s == System(2, Client(Strand([], true), Sending(1)),
                        Link(Writer(Strand([], true), Frame(w.codec.dump(w.calls[1].json))), Frame(w.codec.dump(w.calls[0].json)), ""),
                        0, Reading, IdleLink(), [], [])
  {
    hide Faithful, FromJson, WellBehaved, FramesFit, LinkWrite, LinkSend, CanWrite, Run;
    var codec, frame := w.codec, Frame(w.codec.dump(w.calls[0].json));
    steps, s := [], Init();
    NoSteps(w);
    SendIdle(codec, s.c2s, w.calls[0].json);
    RunOn(w, steps, s, PushCall);
    steps, s := steps + [PushCall], Apply(w, s, PushCall);
    assert s == System(1, Client(Strand([], true), Sending(0)), Link(Writer(Strand([], true), frame), "", ""), 0, Reading, IdleLink(), [], []);
    RunOn(w, steps, s, PushCall);
    steps, s := steps + [PushCall], Apply(w, s, PushCall);
    WriteWhole(codec, s.c2s, w.calls[0].json);
    RunOn(w, steps, s, ClientWrites(|frame|));
    SendIdle(codec, LinkWrite(codec, s.c2s, |frame|), w.calls[1].json);
    steps, s := steps + [ClientWrites(|frame|)], Apply(w, s, ClientWrites(|frame|));
  }

  lemma NoSteps(w: Work)
    ensures Run(w, []) == Some(Init())
  {
  }

  /** The server has served the failing oneway call and sent its error reply. */
  lemma UpToReplied(w: Work, error: Json) returns (steps: seq<Step>, s: System)
    requires FailedThenWaiting(w, error)
    ensures Run(w, steps) == Some(s)
    ensures s == System(2, Client(Strand([], true), Sending(1)),
                        Link(Writer(Strand([], true), Frame(w.codec.dump(w.calls[1].json))), "", ""),
                        1, Reading, Link(Writer(Strand([], true), Frame(w.codec.dump(error))), "", ""), [Reply(0, error)], [])
  {
    hide Faithful, FromJson, LinkRead, LinkTake, LinkSend, FrontText, CanRead, CanTake, Run, HasError, ReplyContinues;
    var codec, frame := w.codec, Frame(w.codec.dump(w.calls[0].json));
    steps, s := UpToWritten(w, error);
    assert WellBehaved(w.calls[0].mode, w.plan[0]);
    ReadWhole(codec, s.c2s, w.calls[0].json, w.capacity);
    RunOn(w, steps, s, ServerReads(|frame|));
    steps, s := steps + [ServerReads(|frame|)], Apply(w, s, ServerReads(|frame|));
    TakeWhole(codec, s.c2s, w.calls[0].json);
    RunOn(w, steps, s, ServerServes);
    steps, s := steps + [ServerServes], Apply(w, s, ServerServes);
    SendIdle(codec, s.s2c, error);
    RunOn(w, steps, s, ServerReplies);
    steps, s := steps + [ServerReplies], Apply(w, s, ServerReplies);
  }

  /**
   There is a run in which the handler of the second call receives the error reply of the
   first, a oneway call, and takes it for the end of its own call.
   */
  lemma FailedOnewayAnswersNextCall(w: Work, error: Json) returns (steps: seq<Step>)
    requires FailedThenWaiting(w, error)
    ensures Run(w, steps).Some?
    ensures var s := Run(w, steps).value;
            s.emitted == [Reply(0, error)] && s.received == [Reply(1, error)] && (s.client.phase.Idle? || s.client.phase == Sending(2))
  {
    hide Faithful, FromJson, WellBehaved, LinkWrite, LinkRead, LinkTake, LinkSend, FrontText, CanWrite, CanRead, CanTake, Run, HasError, ReplyContinues;
    var codec := w.codec;
    var frame, second := Frame(codec.dump(error)), Frame(codec.dump(w.calls[1].json));
    var s;
    OneAnswer(w, error);
    steps, s := UpToReplied(w, error);
    WriteWhole(codec, s.s2c, error);
    RunOn(w, steps, s, ServerWrites(|frame|));
    steps, s := steps + [ServerWrites(|frame|)], Apply(w, s, ServerWrites(|frame|));
    WriteWhole(codec, s.c2s, w.calls[1].json);
    RunOn(w, steps, s, ClientWrites(|second|));
    steps, s := steps + [ClientWrites(|second|)], Apply(w, s, ClientWrites(|second|));
    assert s.client == Client(Strand([], true), Awaiting(1));
    ReadWhole(codec, s.s2c, error, w.capacity);
    RunOn(w, steps, s, ClientReads(|frame|));
    steps, s := steps + [ClientReads(|frame|)], Apply(w, s, ClientReads(|frame|));
    TakeWhole(codec, s.s2c, error);
    RunOn(w, steps, s, ClientReceives);
    steps, s := steps + [ClientReceives], Apply(w, s, ClientReceives);
  }
}
