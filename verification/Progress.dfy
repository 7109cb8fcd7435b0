/** Every run of a finite workload ends, and it ends with every call answered. */
module Progress {
  import opened Wrappers
  import opened JsonValues
  import opened Messages
  import opened ManualStrands
  import opened Transport
  import opened AsyncClients
  import opened ServerSessions
  import opened Protocol
  import opened Pairing

  // ----- A measure that every step lowers -----

  function Size(codec: Codec<Json>, j: Json): nat {
    |Frame(codec.dump(j))|
  }

  /** Bytes weigh less the further they have come. */
  function LinkWeight(codec: Codec<Json>, l: Link<Json>): nat {
    3 * |Pending(codec, l.writer)| + 2 * |l.pipe| + |l.buf|
  }

  function Unstarted(w: Work, i: nat): nat
    requires i <= |w.calls|
    decreases |w.calls| - i
  {
    if i == |w.calls| then 0 else 3 * Size(w.codec, w.calls[i].json) + Unstarted(w, i + 1)
  }

  function GroupCost(codec: Codec<Json>, group: seq<Json>): nat {
    if group == [] then 1 else 1 + 3 * Size(codec, group[0]) + GroupCost(codec, group[1..])
  }

  function Unserved(w: Work, i: nat): nat
    requires i <= |w.plan|
    decreases |w.plan| - i
  {
    if i == |w.plan| then 0 else GroupCost(w.codec, w.plan[i]) + Unserved(w, i + 1)
  }

  function OpenCost(w: Work, s: System): nat {
    if s.session.Replying? && 0 < s.served <= |w.plan| && s.session.sent <= |w.plan[s.served - 1]| then
      GroupCost(w.codec, w.plan[s.served - 1][s.session.sent..])
    else 0
  }

  function ClientCost(w: Work, s: System): nat
    requires 0 <= StartedCalls(s) <= |w.calls| && s.pushed <= |w.calls|
  {
    |w.calls| - s.pushed + Unstarted(w, StartedCalls(s)) + LinkWeight(w.codec, s.c2s)
  }

  function ServerCost(w: Work, s: System): nat
    requires s.served <= |w.plan|
  {
    Unserved(w, s.served) + OpenCost(w, s) + LinkWeight(w.codec, s.s2c)
  }

  ghost predicate Bounded(w: Work, s: System) {
    0 <= StartedCalls(s) <= |w.calls| && s.pushed <= |w.calls| && s.served <= |w.plan|
  }

  function Measure(w: Work, s: System): nat
    requires Bounded(w, s)
  {
    ClientCost(w, s) + ServerCost(w, s)
  }

  lemma SendWeighs(codec: Codec<Json>, l: Link<Json>, m: Json)
    requires WriterOk(l.writer)
    ensures LinkWeight(codec, LinkSend(codec, l, m)) == LinkWeight(codec, l) + 3 * Size(codec, m)
  {
    hide Sent, Pending;
    SendAppends(codec, l.writer, m);
  }

  lemma WriteLightens(codec: Codec<Json>, l: Link<Json>, n: nat)
    requires WriterOk(l.writer) && CanWrite(l, n)
    ensures LinkWeight(codec, LinkWrite(codec, l, n)) < LinkWeight(codec, l)
  {
    hide Wrote, Pending;
    WriteRemoves(codec, l.writer, n);
  }

  lemma ReadLightens(codec: Codec<Json>, l: Link<Json>, capacity: nat, n: nat)
    requires CanRead(l, capacity, n)
    ensures LinkWeight(codec, LinkRead(l, n)) < LinkWeight(codec, l)
  {
    hide Pending;
  }

  lemma TakeLightens(codec: Codec<Json>, l: Link<Json>)
    requires CanTake(l)
    ensures LinkWeight(codec, LinkTake(l)) < LinkWeight(codec, l)
  {
    hide Pending;
  }

  /** Starting a call moves its cost to the connection. */
  lemma ProceedWeighs(w: Work, s: System, s': System, turn: Turn<nat>)
    requires WriterOk(s.c2s.writer) && s.pushed <= |w.calls| && 0 <= StartedCalls(s)
    requires turn == Executed(s.client.strand.queue) && |s.client.strand.queue| <= s.pushed
    requires forall k | 0 <= k < |s.client.strand.queue| :: s.client.strand.queue[k] == StartedCalls(s) + k
    requires s' == Proceed(w, s, Continued(turn, Idle))
    ensures 0 <= StartedCalls(s') <= |w.calls| && ClientCost(w, s') == ClientCost(w, s)
    ensures s'.pushed == s.pushed && s'.served == s.served && ServerCostSame(w, s, s')
  {
    hide LinkWeight, LinkSend, GroupCost;
    if s.client.strand.queue != [] {
      assert s.client.strand.queue[0] == StartedCalls(s);
      SendWeighs(w.codec, s.c2s, w.calls[StartedCalls(s)].json);
    }
  }

  predicate ServerCostSame(w: Work, s: System, s': System) {
    s'.served == s.served && s'.session == s.session && s'.s2c == s.s2c
  }

  lemma SameServerCost(w: Work, s: System, s': System)
    requires ServerCostSame(w, s, s') && s.served <= |w.plan|
    ensures ServerCost(w, s') == ServerCost(w, s)
  {
    hide LinkWeight, GroupCost;
  }

  lemma InvBounds(w: Work, s: System)
    requires |w.plan| == |w.calls| && Inv(w, s)
    ensures Bounded(w, s) && WriterOk(s.c2s.writer) && WriterOk(s.s2c.writer)
  {
    hide Stream, FirstAnsweredOneway, Requests, Contents;
  }

  ghost predicate Lowers(w: Work, s: System, step: Step)
    requires Proper(w) && Inv(w, s) && Enabled(w, s, step)
  {
    InvBounds(w, s);
    StepKeepsInv(w, s, step);
    InvBounds(w, Apply(w, s, step));
    Measure(w, Apply(w, s, step)) < Measure(w, s)
  }

  lemma ClientStepLowers(w: Work, s: System, step: Step)
    requires Proper(w) && Inv(w, s) && Enabled(w, s, step)
    requires step.PushCall? || step.ClientWrites? || step.ServerReads?
    ensures Lowers(w, s, step)
  {
    hide LinkWeight, GroupCost, PairInv, SessionInv, ReplyInv, Carries, WellBehaved, FromJson, LinkWrite, LinkSend, Requests, CanRead, CanWrite, LinkRead;
    InvBounds(w, s);
    var s' := Apply(w, s, step);
    match step {
      case PushCall =>
        if !s.client.strand.executing {
          var between := s.(pushed := s.pushed + 1, client := Client(Strand([s.pushed], true), Idle));
          assert s.client.strand.queue + [s.pushed] == [s.pushed];
          ProceedWeighs(w, between, s', Executed([s.pushed]));
        }
        SameServerCost(w, s, s');
      case ClientWrites(n) =>
        WriteLightens(w.codec, s.c2s, n);
        WriteKeepsOk(w.codec, s.c2s, n);
        var next := s.(c2s := LinkWrite(w.codec, s.c2s, n));
        assert StartedCalls(next) == StartedCalls(s) && ClientCost(w, next) < ClientCost(w, s);
        assert n <= |s.c2s.writer.unsent| by { WriteIsWithin(s.c2s, n); }
        if n == |s.c2s.writer.unsent| {
          if w.calls[s.client.phase.call].mode.Oneway? {
            ProceedWeighs(w, next, s', Nexted(s.client.strand));
          } else {
            assert s' == next.(client := s'.client) && StartedCalls(s') == StartedCalls(next);
          }
        }
        SameServerCost(w, s, s');
      case ServerReads(n) =>
        ReadLightens(w.codec, s.c2s, w.capacity, n);
        SameServerCost(w, s, s');
    }
  }

  lemma WriteIsWithin(l: Link<Json>, n: nat)
    requires CanWrite(l, n)
    ensures n <= |l.writer.unsent|
  {
  }

  lemma WriteKeepsOk(codec: Codec<Json>, l: Link<Json>, n: nat)
    requires WriterOk(l.writer) && CanWrite(l, n)
    ensures WriterOk(LinkWrite(codec, l, n).writer)
  {
    WriteRemoves(codec, l.writer, n);
  }

  lemma GroupCostStep(codec: Codec<Json>, group: seq<Json>, k: nat)
    requires k < |group|
    ensures GroupCost(codec, group[k..]) == 1 + 3 * Size(codec, group[k]) + GroupCost(codec, group[k + 1..])
    ensures GroupCost(codec, group[k + 1..]) > 0
  {
    assert group[k..][1..] == group[k + 1..];
  }

  lemma ServesLowers(w: Work, s: System)
    requires Proper(w) && Inv(w, s) && Enabled(w, s, ServerServes)
    ensures Lowers(w, s, ServerServes)
  {
    hide LinkWeight, GroupCost, PairInv, ReplyInv, Carries, WellBehaved, FromJson, Requests, CanTake, LinkTake, FrontText, Stream;
    InvBounds(w, s);
    TakeLightens(w.codec, s.c2s);
    ServerServesKeepsInv(w, s);
    var s' := Apply(w, s, ServerServes);
    assert w.plan[s.served][0..] == w.plan[s.served];
    assert Unserved(w, s.served) == GroupCost(w.codec, w.plan[s.served]) + Unserved(w, s.served + 1);
    assert s'.session == Replying(0) && s'.served == s.served + 1;
  }

  lemma RepliesLowers(w: Work, s: System)
    requires Proper(w) && Inv(w, s) && Enabled(w, s, ServerReplies)
    ensures Lowers(w, s, ServerReplies)
  {
    hide LinkWeight, PairInv, Carries, WellBehaved, FromJson, Requests, Contents, LinkSend, Stream, ReplyContinues;
    InvBounds(w, s);
    var s' := Apply(w, s, ServerReplies);
    var group, k := w.plan[s.served - 1], s.session.sent;
    GroupCostStep(w.codec, group, k);
    FinalIsLast(w, s.served - 1, k);
    if group[k].Object? {
      SendWeighs(w.codec, s.s2c, group[k]);
    }
  }

  lemma ReceiveStepLowers(w: Work, s: System, step: Step)
    requires Proper(w) && Inv(w, s) && Enabled(w, s, step)
    requires step.ServerWrites? || step.ClientReads? || step.ClientReceives?
    ensures Lowers(w, s, step)
  {
    hide LinkWeight, GroupCost, PairInv, SessionInv, Carries, WellBehaved, FromJson, Requests, Contents, LinkWrite, LinkSend, LinkRead, LinkTake, FrontText, CanTake, CanRead, CanWrite, GoesOn, Unserved;
    InvBounds(w, s);
    var s' := Apply(w, s, step);
    match step {
      case ServerWrites(n) => WriteLightens(w.codec, s.s2c, n);
      case ClientReads(n) => ReadLightens(w.codec, s.s2c, w.capacity, n);
      case ClientReceives =>
        TakeLightens(w.codec, s.s2c);
        var mode := w.calls[s.client.phase.call].mode;
        var taken := s.(s2c := LinkTake(s.s2c));
        match w.codec.parse(FrontText(s.s2c)) {
          case Some(j) =>
            var next := taken.(received := s.received + [Reply(s.client.phase.call, j)]);
            if !GoesOn(mode, false, j) {
              ProceedWeighs(w, next, s', Nexted(s.client.strand));
              SameServerCost(w, next, s');
            }
          case None =>
            if !GoesOn(mode, true, Null) {
              ProceedWeighs(w, taken, s', Nexted(s.client.strand));
              SameServerCost(w, taken, s');
            }
        }
    }
  }

  lemma StepLowersMeasure(w: Work, s: System, step: Step)
    requires Proper(w) && Inv(w, s) && Enabled(w, s, step)
    ensures Lowers(w, s, step)
  {
    hide Inv, Proper, Lowers, Apply;
    match step
    case ServerServes => ServesLowers(w, s);
    case ServerReplies => RepliesLowers(w, s);
    case PushCall => ClientStepLowers(w, s, step);
    case ClientWrites(n) => ClientStepLowers(w, s, step);
    case ServerReads(n) => ClientStepLowers(w, s, step);
    case _ => ReceiveStepLowers(w, s, step);
  }

  function Budget(w: Work): nat
    requires |w.plan| == |w.calls|
  {
    Measure(w, Init())
  }

  /** No run is longer than a bound that the workload fixes. */
  lemma {:induction false} RunsAreBounded(w: Work, steps: seq<Step>)
    requires Proper(w) && Run(w, steps).Some?
    ensures Bounded(w, Run(w, steps).value) && |steps| + Measure(w, Run(w, steps).value) <= Budget(w)
  {
    hide Inv, Apply, Enabled, Measure;
    RunsKeepInv(w, steps);
    InvBounds(w, Run(w, steps).value);
    if steps != [] {
      var before := steps[..|steps| - 1];
      RunsAreBounded(w, before);
      RunsKeepInv(w, before);
      StepLowersMeasure(w, Run(w, before).value, steps[|steps| - 1]);
    }
  }

  // ----- A call that waits has a reply to come -----

  /** Replies after which the waiting call is over, whatever call they answer. */
  function FinalReplies(rs: seq<Reply>): nat {
    if rs == [] then 0
    else FinalReplies(rs[..|rs| - 1]) + if ReplyContinues(rs[|rs| - 1].json) then 0 else 1
  }

  /** The calls that wait for a reply, among the first `n`. */
  function Waiting(w: Work, n: nat): nat {
    if n == 0 then 0 else Waiting(w, n - 1) + if IsOneway(w, n - 1) then 0 else 1
  }

  predicate HoldsCall(s: System, i: nat) {
    !s.client.phase.Idle? && s.client.phase.call == i
  }

  /** The waiting calls that are over. */
  function FinishedWaiting(w: Work, s: System): int {
    if StartedCalls(s) < 0 then 0
    else Waiting(w, StartedCalls(s)) - if s.client.phase.Idle? || IsOneway(w, s.client.phase.call) then 0 else 1
  }

  /** Each final reply ended a waiting call, and no waiting call ended without a reply. */
  ghost predicate AnswerInv(w: Work, s: System) {
    && FinalReplies(s.received) <= FinishedWaiting(w, s)
    && forall i: nat | i < StartedCalls(s) && !IsOneway(w, i) && !HoldsCall(s, i) :: exists r :: r in s.received && r.call == i
  }

  lemma {:induction false} FinalRepliesAppend(a: seq<Reply>, b: seq<Reply>)
    ensures FinalReplies(a + b) == FinalReplies(a) + FinalReplies(b)
  {
    if b == [] {
      assert a + b == a;
    } else {
      assert (a + b)[..|a + b| - 1] == a + b[..|b| - 1];
      FinalRepliesAppend(a, b[..|b| - 1]);
    }
  }

  lemma {:induction false} SameFinalReplies(a: seq<Reply>, b: seq<Reply>)
    requires |a| == |b| && forall d | 0 <= d < |a| :: a[d].json == b[d].json
    ensures FinalReplies(a) == FinalReplies(b)
  {
    hide ReplyContinues;
    if a != [] {
      SameFinalReplies(a[..|a| - 1], b[..|b| - 1]);
    }
  }

  lemma LastIsFinal(w: Work, i: nat)
    requires Proper(w) && i < |w.calls| && !IsOneway(w, i)
    ensures FinalReplies(Tagged(i, Answers(w, i))) >= 1
  {
    hide Faithful, FromJson, WellBehaved, Answers, ReplyContinues, HasError;
    WaitingAnswers(w, i);
    FinalIsLast(w, i, |w.plan[i]| - 1);
  }

  /** Every waiting call has a final reply in the stream. */
  lemma {:induction false} StreamFinals(w: Work, n: nat)
    requires Proper(w) && n <= |w.calls|
    ensures FinalReplies(Stream(w, n)) >= Waiting(w, n)
  {
    hide Faithful, FromJson, WellBehaved, Tagged, ReplyContinues;
    if n > 0 {
      StreamFinals(w, n - 1);
      FinalRepliesAppend(Stream(w, n - 1), Tagged(n - 1, Answers(w, n - 1)));
      if !IsOneway(w, n - 1) {
        LastIsFinal(w, n - 1);
      }
    }
  }

  /** What a step does to the client: nothing, or it ends a call, or it receives a reply. */
  ghost predicate ClientMoved(w: Work, s: System, s': System) {
    if s'.received == s.received then
      || (StartedCalls(s') == StartedCalls(s) && SameCall(s, s'))
      || ((s.client.phase.Idle? || IsOneway(w, s.client.phase.call)) && OverOrNext(s, s'))
    else
      && s.client.phase.Awaiting?
      && exists j :: s'.received == s.received + [Reply(s.client.phase.call, j)]
           && if ReplyContinues(j) && s'.client == s.client then StartedCalls(s') == StartedCalls(s) else OverOrNext(s, s')
  }

  predicate SameCall(s: System, s': System) {
    if s.client.phase.Idle? then s'.client.phase.Idle? else !s'.client.phase.Idle? && s'.client.phase.call == s.client.phase.call
  }

  lemma ProceedMoves(w: Work, s: System, turn: Turn<nat>)
    requires turn == Executed(s.client.strand.queue)
    ensures OverOrNext(s, Proceed(w, s, Continued(turn, Idle)))
    ensures Proceed(w, s, Continued(turn, Idle)).received == s.received
  {
    hide LinkSend;
  }

  lemma StepMovesClient(w: Work, s: System, step: Step)
    requires Enabled(w, s, step) && ClientInv(w, s)
    requires step.ClientReceives? ==> w.codec.parse(FrontText(s.s2c)).Some?
    ensures ClientMoved(w, s, Apply(w, s, step))
  {
    hide LinkSend, LinkWrite, LinkRead, LinkTake, FrontText, CanWrite, CanRead, CanTake, ReplyContinues, HasError;
    match step
    case PushCall =>
      if !s.client.strand.executing {
        var between := s.(pushed := s.pushed + 1, client := Client(Strand([s.pushed], true), Idle));
        assert s.client.strand.queue + [s.pushed] == [s.pushed];
        ProceedMoves(w, between, Executed([s.pushed]));
      }
    case ClientWrites(n) =>
      if n >= |s.c2s.writer.unsent| && IsOneway(w, s.client.phase.call) {
        ProceedMoves(w, s.(c2s := LinkWrite(w.codec, s.c2s, n)), Nexted(s.client.strand));
      }
    case ClientReceives =>
      var j := w.codec.parse(FrontText(s.s2c)).value;
      var middle := s.(s2c := LinkTake(s.s2c), received := s.received + [Reply(s.client.phase.call, j)]);
      if !GoesOn(w.calls[s.client.phase.call].mode, false, j) {
        ProceedMoves(w, middle, Nexted(s.client.strand));
      }
    case _ =>
  }

  /** The next reply on its way to a waiting client parses. */
  lemma ReplyParses(w: Work, s: System)
    requires Proper(w) && Inv(w, s) && Enabled(w, s, ClientReceives)
    ensures w.codec.parse(FrontText(s.s2c)).Some?
  {
    hide Faithful, FromJson, WellBehaved, FrontText, SessionInv, ReplyInv, Inv, CanTake;
    InvServed(w, s);
    EmittedIsFaithful(w, s, |s.received|);
    TakeNextReply(w, s);
  }

  lemma InvServed(w: Work, s: System)
    requires |w.plan| == |w.calls| && Inv(w, s)
    ensures SessionInv(w, s) && ReplyInv(w, s) && s.served <= StartedCalls(s) <= |w.calls|
  {
    hide Stream, FirstAnsweredOneway, Requests, Contents, Carries;
  }

  lemma MoveKeepsAnswers(w: Work, s: System, s': System)
    requires ClientInv(w, s) && ClientInv(w, s') && AnswerInv(w, s) && ClientMoved(w, s, s')
    requires 0 <= StartedCalls(s) && 0 <= StartedCalls(s')
    ensures AnswerInv(w, s')
  {
    hide ReplyContinues;
    if s'.received != s.received {
      var j :| s'.received == s.received + [Reply(s.client.phase.call, j)]
               && if ReplyContinues(j) && s'.client == s.client then StartedCalls(s') == StartedCalls(s) else OverOrNext(s, s');
      FinalRepliesAppend(s.received, [Reply(s.client.phase.call, j)]);
      assert s'.received[|s.received|] == Reply(s.client.phase.call, j);
    }
    forall i: nat | i < StartedCalls(s') && !IsOneway(w, i) && !HoldsCall(s', i)
      ensures exists r :: r in s'.received && r.call == i
    {
      if HoldsCall(s, i) {
        assert s'.received[|s.received|].call == i;
      } else {
        assert i < StartedCalls(s);
        var r :| r in s.received && r.call == i;
        assert r in s'.received;
      }
    }
  }

  lemma {:induction false} RunsKeepAnswers(w: Work, steps: seq<Step>)
    requires Proper(w) && Run(w, steps).Some?
    ensures AnswerInv(w, Run(w, steps).value)
  {
    hide Inv, Apply, Enabled, AnswerInv, ClientMoved, Proper;
    if steps == [] {
      InitAnswers(w);
    } else {
      var before := steps[..|steps| - 1];
      RunsKeepAnswers(w, before);
      RunsKeepInv(w, before);
      RunsKeepInv(w, steps);
      StepKeepsAnswers(w, Run(w, before).value, steps[|steps| - 1]);
    }
  }

  lemma InitAnswers(w: Work)
    ensures AnswerInv(w, Init())
  {
  }

  lemma StepKeepsAnswers(w: Work, s: System, step: Step)
    requires Proper(w) && Inv(w, s) && AnswerInv(w, s) && Enabled(w, s, step) && Inv(w, Apply(w, s, step))
    ensures AnswerInv(w, Apply(w, s, step))
  {
    hide Apply, Enabled, AnswerInv, ClientMoved, WellBehaved, FromJson, Faithful, ClientInv, RequestInv, SessionInv, ReplyInv, PairInv;
    if step.ClientReceives? {
      ReplyParses(w, s);
    }
    InvBounds(w, s);
    InvBounds(w, Apply(w, s, step));
    StepMovesClient(w, s, step);
    MoveKeepsAnswers(w, s, Apply(w, s, step));
  }

  /** A client that waits while everything was served has a reply on its way. */
  lemma ReplyToCome(w: Work, s: System)
    requires Proper(w) && Inv(w, s) && AnswerInv(w, s)
    requires s.client.phase.Awaiting? && s.session.Reading? && s.served == StartedCalls(s)
    ensures |s.received| < |s.emitted|
  {
    hide Faithful, FromJson, WellBehaved, Carries, Stream, FirstAnsweredOneway, PairInv, Requests, Contents;
    StreamFinals(w, s.served);
    if |s.received| == |s.emitted| {
      SameFinalReplies(s.received, s.emitted);
    }
  }

  // ----- No deadlock -----

  /** Every frame fits the reader's buffer, together with its NUL. */
  ghost predicate FramesFit(w: Work) {
    && (forall i | 0 <= i < |w.calls| :: Size(w.codec, w.calls[i].json) <= w.capacity)
    && (forall i, r | 0 <= i < |w.plan| && r in Answers(w, i) :: Size(w.codec, r) <= w.capacity)
  }

  /** All calls are pushed, served and over, both strands are idle, and no request is under way. */
  ghost predicate Finished(w: Work, s: System)
    requires |w.plan| == |w.calls|
  {
    && s.pushed == s.served == |w.calls|
    && s.client == Client(Strand([], false), Idle)
    && s.session.Reading?
    && s.c2s == IdleLink() && s.s2c.writer == IdleWriter()
    && s.emitted == Stream(w, |w.calls|)
  }

  /** Moreover the handlers have the whole reply stream. */
  ghost predicate Done(w: Work, s: System)
    requires |w.plan| == |w.calls|
  {
    Finished(w, s) && s.s2c == IdleLink() && s.received == s.emitted
  }

  ghost predicate SomeStep(w: Work, s: System) {
    exists step :: Enabled(w, s, step)
  }

  /** A reader that is told to read can, as long as something is on its way to it. */
  lemma ReaderCanMove(codec: Codec<Json>, l: Link<Json>, ms: seq<Json>, capacity: nat)
    requires Carries(codec, l, ms) && ms != [] && l.writer.unsent == "" && Size(codec, ms[0]) <= capacity
    ensures CanTake(l) || CanRead(l, capacity, 1)
  {
    hide Frames, Pending;
    SomethingArrives(codec, l, ms);
    if !CanTake(l) {
      RoomToRead(codec, l, ms);
    }
  }

  lemma SessionMoves(w: Work, s: System)
    requires Proper(w) && FramesFit(w) && Inv(w, s) && !s.client.phase.Sending? && s.served < StartedCalls(s)
    ensures SomeStep(w, s)
  {
    hide Faithful, FromJson, WellBehaved, Carries, Stream, PairInv, Contents, CanTake, CanRead, Size;
    if s.session.Replying? {
      assert Enabled(w, s, ServerReplies);
    } else {
      var ms := Requests(w.calls[s.served..StartedCalls(s)]);
      assert ms[0] == w.calls[s.served].json;
      ReaderCanMove(w.codec, s.c2s, ms, w.capacity);
      assert Enabled(w, s, ServerServes) || Enabled(w, s, ServerReads(1));
    }
  }

  lemma RepliesMove(w: Work, s: System)
    requires Proper(w) && FramesFit(w) && Inv(w, s) && s.client.phase.Awaiting? && |s.received| < |s.emitted|
    ensures SomeStep(w, s)
  {
    hide Faithful, FromJson, WellBehaved, Carries, Requests, Stream, CanTake, CanRead, Size;
    if s.s2c.writer.unsent != "" {
      assert Enabled(w, s, ServerWrites(1));
    } else {
      var d := |s.received|;
      var ms := Contents(s.emitted[d..]);
      assert ms[0] == s.emitted[d].json;
      EmittedFits(w, s, d);
      ReaderCanMove(w.codec, s.s2c, ms, w.capacity);
      assert Enabled(w, s, ClientReceives) || Enabled(w, s, ClientReads(1));
    }
  }

  lemma EmittedFits(w: Work, s: System, d: nat)
    requires Proper(w) && FramesFit(w) && Inv(w, s) && d < |s.emitted|
    ensures Size(w.codec, s.emitted[d].json) <= w.capacity
  {
    hide Faithful, FromJson, WellBehaved, Carries, Requests, Stream, Size, PairInv;
    EmittedInStream(w, s);
    StreamCalls(w, s.served, d);
  }

  /** Some step is possible exactly until all calls are over. */
  lemma NoDeadlock(w: Work, s: System)
    requires Proper(w) && FramesFit(w) && Inv(w, s) && AnswerInv(w, s)
    ensures SomeStep(w, s) <==> !Finished(w, s)
  {
    hide Faithful, FromJson, WellBehaved, FramesFit, Inv, AnswerInv, SomeStep, Finished;
    if Finished(w, s) {
      FinishedIsEnd(w, s);
    } else {
      MovesUnlessFinished(w, s);
    }
  }

  lemma MovesUnlessFinished(w: Work, s: System)
    requires Proper(w) && FramesFit(w) && Inv(w, s) && AnswerInv(w, s) && !Finished(w, s)
    ensures SomeStep(w, s)
  {
    hide Faithful, FromJson, WellBehaved, FramesFit, AnswerInv, Finished, SomeStep, PairInv, ReplyInv, SessionInv, Carries, Requests;
    if s.pushed < |w.calls| {
      OneStep(w, s, PushCall);
    } else if s.client.phase.Sending? {
      OneStep(w, s, ClientWrites(|s.c2s.writer.unsent|));
    } else if s.session.Replying? {
      ServiceMoves(w, s);
    } else if s.served < StartedCalls(s) {
      SessionMoves(w, s);
    } else if s.client.phase.Awaiting? {
      SessionReads(w, s);
      ReplyToCome(w, s);
      RepliesMove(w, s);
    } else if s.s2c.writer.unsent != "" {
      OneStep(w, s, ServerWrites(1));
    } else {
      SessionReads(w, s);
      IdleIsFinished(w, s);
    }
  }

  lemma OneStep(w: Work, s: System, step: Step)
    requires Enabled(w, s, step)
    ensures SomeStep(w, s)
  {
    hide Enabled;
  }

  lemma ServiceMoves(w: Work, s: System)
    requires Proper(w) && Inv(w, s) && s.session.Replying?
    ensures SomeStep(w, s)
  {
    hide Faithful, FromJson, WellBehaved, PairInv, ReplyInv, ClientInv, RequestInv, Stream;
    OneStep(w, s, ServerReplies);
  }

  /** The session is never closed, because all requests are messages. */
  lemma SessionReads(w: Work, s: System)
    requires Proper(w) && Inv(w, s)
    ensures s.session.Reading? || s.session.Replying?
  {
    hide Faithful, FromJson, WellBehaved, PairInv, ReplyInv, ClientInv, RequestInv, Stream;
  }

  lemma IdleIsFinished(w: Work, s: System)
    requires Proper(w) && Inv(w, s)
    requires s.pushed == |w.calls| && s.client.phase.Idle? && s.session.Reading? && s.served == StartedCalls(s) && s.s2c.writer.unsent == ""
    ensures Finished(w, s)
  {
    hide Faithful, FromJson, WellBehaved, Stream, Carries, FirstAnsweredOneway, Contents;
    var n := StartedCalls(s);
    assert s.client.strand.queue == [] && n == |w.calls|;
    assert Requests(w.calls[n..n]) == [];
    NothingOnItsWay(w.codec, s.c2s);
    WriterIsIdle(w.codec, s.s2c, Contents(s.emitted[|s.received|..]));
  }

  lemma FinishedIsEnd(w: Work, s: System)
    requires |w.plan| == |w.calls| && Finished(w, s)
    ensures !SomeStep(w, s)
  {
    hide Stream;
    forall step ensures !Enabled(w, s, step) {
    }
  }

  /** When no oneway call fails, the handlers have the whole stream in the end. */
  lemma FinishedIsDone(w: Work, s: System)
    requires Proper(w) && NoOnewayFails(w) && Inv(w, s) && Finished(w, s)
    ensures Done(w, s)
  {
    hide Faithful, FromJson, WellBehaved, Stream, Carries, Requests;
    var n := StartedCalls(s);
    assert FirstAnsweredOneway(w, n) == n;
    assert s.emitted[|s.received|..] == [] && Contents([]) == [];
    NothingOnItsWay(w.codec, s.s2c);
  }

  /**
   A finite workload always comes to its end: no run is longer than a bound, and a run that
   cannot go on has all calls over and both strands idle. When no oneway call fails, every
   handler then has exactly the replies produced for its call.
   */
  lemma RunsEndWithEveryCallAnswered(w: Work, steps: seq<Step>)
    requires Proper(w) && FramesFit(w) && Run(w, steps).Some?
    ensures |steps| <= Budget(w)
    ensures var s := Run(w, steps).value;
            && (!SomeStep(w, s) <==> Finished(w, s))
            && (!SomeStep(w, s) && NoOnewayFails(w) ==> Done(w, s) && forall i | 0 <= i < |w.calls| :: For(s.received, i) == Answers(w, i))
  {
    hide Inv, Measure, Enabled, Apply, Stream, For, Faithful, FromJson, WellBehaved, FramesFit, AnswerInv;
    var s := Run(w, steps).value;
    RunsAreBounded(w, steps);
    RunsKeepInv(w, steps);
    RunsKeepAnswers(w, steps);
    NoDeadlock(w, s);
    if !SomeStep(w, s) && NoOnewayFails(w) {
      FinishedIsDone(w, s);
      forall i | 0 <= i < |w.calls| ensures For(s.received, i) == Answers(w, i) {
        ForStream(w, |w.calls|, i);
      }
    }
  }

  // ----- Workloads exist -----

  lemma {:induction false} InConcat(groups: seq<seq<Json>>, i: nat, r: Json)
    requires i < |groups| && r in groups[i]
    ensures r in Concat(groups)
  {
    if i < |groups| - 1 {
      InConcat(groups[..|groups| - 1], i, r);
    }
  }

  lemma {:induction false} InObjects(replies: seq<Json>, r: Json)
    requires r in Objects(replies)
    ensures r in replies
  {
    var last := |replies| - 1;
    if replies[last] != r {
      InObjects(replies[..last], r);
    }
  }

  /** All messages of a workload. */
  function AllJson(calls: seq<Message>, plan: seq<seq<Json>>): seq<Json> {
    Requests(calls) + Concat(plan)
  }

  /** Any calls with well-behaved replies make a proper workload, with a codec for their messages. */
  lemma SomeCodecIsProper(calls: seq<Message>, plan: seq<seq<Json>>, capacity: nat)
    requires |plan| == |calls|
    requires forall i | 0 <= i < |calls| :: FromJson(calls[i].json) == Ok(calls[i])
    requires forall i | 0 <= i < |calls| :: WellBehaved(calls[i].mode, plan[i])
    ensures var w := Work(TableCodec(AllJson(calls, plan)), capacity, calls, plan);
            Proper(w) && (capacity > |AllJson(calls, plan)| ==> FramesFit(w))
  {
    hide FromJson, WellBehaved, Concat, Faithful;
    var all := AllJson(calls, plan);
    TableCodecIsFaithful(all);
    forall i | 0 <= i < |calls| ensures calls[i].json in all {
      assert Requests(calls)[i] == calls[i].json;
    }
    forall i, r | 0 <= i < |plan| && r in Objects(plan[i]) ensures r in all {
      InObjects(plan[i], r);
      InConcat(plan, i, r);
    }
    TableFramesAreShort(all);
  }

  lemma TableFramesAreShort(all: seq<Json>)
    ensures forall m :: Size(TableCodec(all), m) <= |all| + 1
  {
    forall m ensures Size(TableCodec(all), m) <= |all| + 1 {
      assert |TableCodec(all).dump(m)| == IndexIn(all, m);
    }
  }
}
