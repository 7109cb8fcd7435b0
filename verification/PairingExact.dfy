/** Exactly which workloads keep replies and handlers together, in all their runs. */
module PairingExact {
  import opened Wrappers
  import opened Messages
  import opened Transport
  import opened AsyncClients
  import opened Protocol
  import opened Pairing
  import opened Progress

  /** A oneway call that is answered, that is, fails, is followed by oneway calls only. */
  predicate OnlyLastOnewaysFail(w: Work)
    requires |w.plan| == |w.calls|
  {
    forall i, j | 0 <= i < j < |w.calls| && IsOneway(w, i) && Answers(w, i) != [] :: IsOneway(w, j)
  }

  /** Each reply that was received went to the handler of the call that it answers. */
  predicate Paired(s: System) {
    s.received <= s.emitted
  }

  // ----- The condition suffices -----

  lemma EmittedGrows(w: Work, s: System, step: Step)
    requires Enabled(w, s, step)
    ensures s.emitted <= Apply(w, s, step).emitted
    ensures !step.ClientReceives? ==> Apply(w, s, step).received == s.received
    ensures step.ClientReceives? ==> Apply(w, s, step).emitted == s.emitted
  {
    hide LinkSend, LinkWrite, LinkRead, LinkTake, FrontText, CanWrite, CanRead, CanTake, ReplyContinues, GoesOn;
  }

  /** The reply that a waiting client receives next answers its call. */
  lemma NextReplyIsOurs(w: Work, s: System)
    requires Proper(w) && OnlyLastOnewaysFail(w) && Inv(w, s)
    requires s.client.phase.Awaiting? && |s.received| < |s.emitted|
    ensures s.emitted[|s.received|].call == s.client.phase.call
  {
    hide Faithful, FromJson, WellBehaved, Carries, Requests, Contents, Stream;
    var n, d := StartedCalls(s), |s.received|;
    assert FirstAnsweredOneway(w, n) == n;
    EmittedInStream(w, s);
    StreamAt(w, n - 1, n, d);
    assert s.emitted[d] == Stream(w, n)[d];
  }

  lemma StepKeepsPaired(w: Work, s: System, step: Step)
    requires Proper(w) && OnlyLastOnewaysFail(w) && Inv(w, s) && Enabled(w, s, step) && Inv(w, Apply(w, s, step))
    requires Paired(s)
    ensures Paired(Apply(w, s, step))
  {
    hide Proper, OnlyLastOnewaysFail, Inv, Apply, Enabled, ClientMoved;
    var s' := Apply(w, s, step);
    EmittedGrows(w, s, step);
    if step.ClientReceives? {
      assert ClientInv(w, s) by { InvParts(w, s); }
      ReplyParses(w, s);
      StepMovesClient(w, s, step);
      InvParts(w, s');
      ReceivedNext(w, s, s') by { AwaitsReply(w, s, step); }
    }
  }

  lemma AwaitsReply(w: Work, s: System, step: Step)
    requires Enabled(w, s, step) && step.ClientReceives? && ClientMoved(w, s, Apply(w, s, step))
    ensures s.client.phase.Awaiting?
  {
    hide Apply;
  }

  lemma InvParts(w: Work, s: System)
    requires Proper(w) && Inv(w, s)
    ensures |w.plan| == |w.calls| && ClientInv(w, s) && ReplyInv(w, s)
  {
    hide Stream, Requests, Contents, Carries, FirstAnsweredOneway;
  }

  lemma ReceivedNext(w: Work, s: System, s': System)
    requires Proper(w) && OnlyLastOnewaysFail(w) && Inv(w, s) && Paired(s)
    requires s.client.phase.Awaiting? && ClientMoved(w, s, s') && s'.emitted == s.emitted && ReplyInv(w, s')
    ensures Paired(s')
  {
    hide Proper, OnlyLastOnewaysFail, Inv, ReplyContinues, Carries, Contents;
    if s'.received != s.received {
      var d := |s.received|;
      assert d < |s.emitted| && s'.received[d].json == s.emitted[d].json;
      NextReplyIsOurs(w, s);
      assert s'.received[d] == s.emitted[d];
    }
  }

  lemma {:induction false} RunsKeepPaired(w: Work, steps: seq<Step>)
    requires Proper(w) && OnlyLastOnewaysFail(w) && Run(w, steps).Some?
    ensures Paired(Run(w, steps).value)
  {
    hide Proper, OnlyLastOnewaysFail, Inv, Apply, Enabled;
    if steps != [] {
      var before := steps[..|steps| - 1];
      RunsKeepPaired(w, before);
      RunsKeepInv(w, before);
      RunsKeepInv(w, steps);
      StepKeepsPaired(w, Run(w, before).value, steps[|steps| - 1]);
    }
  }

  // ----- The condition is needed -----

  /** Every run can be continued to its end. */
  lemma RunToTheEnd(w: Work, steps: seq<Step>) returns (all: seq<Step>)
    requires Proper(w) && Run(w, steps).Some?
    ensures steps <= all && Run(w, all).Some? && !SomeStep(w, Run(w, all).value)
    decreases Budget(w) - |steps|
  {
    hide Apply, Enabled, Measure, WellBehaved, FromJson, Faithful;
    var s := Run(w, steps).value;
    if SomeStep(w, s) {
      var step :| Enabled(w, s, step);
      assert (steps + [step])[..|steps|] == steps;
      RunsAreBounded(w, steps + [step]);
      all := RunToTheEnd(w, steps + [step]);
    } else {
      all := steps;
    }
  }

  /** When all calls are over, a waiting call behind a failed oneway call has got another's reply. */
  lemma EndIsMispaired(w: Work, s: System, i: nat, j: nat)
    requires Proper(w) && Inv(w, s) && AnswerInv(w, s) && Finished(w, s)
    requires i < j < |w.calls| && IsOneway(w, i) && Answers(w, i) != [] && !IsOneway(w, j)
    ensures !Paired(s)
  {
    hide Faithful, FromJson, WellBehaved, Carries, Requests, Contents, Stream, FinalReplies, PairInv;
    var n := |w.calls|;
    var b := FirstAnsweredOneway(w, n);
    var r :| r in s.received && r.call == j;
    StreamGrows(w, b, n);
    FirstAnsweredReply(w, b, n);
    if |s.received| <= |Stream(w, b)| {
      var d :| 0 <= d < |s.received| && s.received[d] == r;
      StreamCalls(w, b, d);
      assert s.emitted[d] == Stream(w, b)[d] != s.received[d];
    } else {
      var d := |Stream(w, b)|;
      assert IsOneway(w, s.emitted[d].call) && !IsOneway(w, s.received[d].call);
      assert s.emitted[d] != s.received[d];
    }
  }

  /** A run to the end, when some waiting call comes behind a failed oneway call. */
  lemma SomeRunMispairs(w: Work) returns (steps: seq<Step>)
    requires Proper(w) && FramesFit(w) && !OnlyLastOnewaysFail(w)
    ensures Run(w, steps).Some? && !Paired(Run(w, steps).value)
  {
    hide Apply, Enabled, Inv, AnswerInv, Finished, FramesFit, WellBehaved, FromJson, Faithful, Paired;
    assert Run(w, []) == Some(Init());
    steps := RunToTheEnd(w, []);
    var s := Run(w, steps).value;
    RunsKeepInv(w, steps);
    RunsKeepAnswers(w, steps);
    NoDeadlock(w, s);
    var i, j :| 0 <= i < j < |w.calls| && IsOneway(w, i) && Answers(w, i) != [] && !IsOneway(w, j);
    EndIsMispaired(w, s, i, j);
  }

  /**
   All replies reach the handlers of the calls that they answer, in every run, exactly if a
   oneway call that fails is never followed by a call that waits for a reply.
   */
  lemma AlwaysPairedIff(w: Work)
    requires Proper(w) && FramesFit(w)
    ensures (forall steps | Run(w, steps).Some? :: Paired(Run(w, steps).value)) <==> OnlyLastOnewaysFail(w)
  {
    hide Run, Paired, FramesFit, OnlyLastOnewaysFail, Faithful, FromJson, WellBehaved;
    if OnlyLastOnewaysFail(w) {
      forall steps | Run(w, steps).Some? ensures Paired(Run(w, steps).value) {
        RunsKeepPaired(w, steps);
      }
    } else {
      var steps := SomeRunMispairs(w);
    }
  }

  /** Then each handler has at any time a prefix of the replies to its own call, and no others. */
  lemma HandlersGetTheirOwn(w: Work, steps: seq<Step>, i: nat)
    requires Proper(w) && OnlyLastOnewaysFail(w) && Run(w, steps).Some? && i < |w.calls|
    ensures var s := Run(w, steps).value;
            For(s.received, i) <= For(s.emitted, i) <= Answers(w, i)
  {
    hide Faithful, FromJson, WellBehaved, Carries, Stream, Run, OnlyLastOnewaysFail, FirstAnsweredOneway;
    var s := Run(w, steps).value;
    RunsKeepInv(w, steps);
    RunsKeepPaired(w, steps);
    EmittedInStream(w, s);
    ForPrefix(s.received, s.emitted, i);
    ForPrefix(s.emitted, Stream(w, StartedCalls(s)), i);
    ForStream(w, StartedCalls(s), i);
  }
}
