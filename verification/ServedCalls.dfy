/** Client, connection, session and service together: the replies are those of the service. */
module ServedCalls {
  import opened Wrappers
  import opened JsonValues
  import opened Messages
  import opened Transport
  import opened AsyncClients
  import opened Services
  import opened Protocol
  import opened Progress
  import opened PairingExact
  import Mispairing
  import SyncClients

  /** How the reply function is used for each call. */
  function ServicePlan(entries: seq<Entry>, dump: Json -> string, calls: seq<Message>): (plan: seq<seq<Json>>)
    requires forall e | e in entries :: Usable(e)
    ensures |plan| == |calls|
  {
    seq(|calls|, i requires 0 <= i < |calls| => Replies(entries, dump, calls[i]))
  }

  /** The calls of a client, served by these interfaces. */
  ghost predicate Serves(entries: seq<Entry>, dump: Json -> string, w: Work)
    requires forall e | e in entries :: Usable(e)
  {
    w.plan == ServicePlan(entries, dump, w.calls)
  }

  // ----- Which served workloads are proper -----

  /** The call's parameters can be checked, and its callback goes well if it runs. */
  predicate EndsWell(entries: seq<Entry>, m: Message)
    requires forall e | e in entries :: Usable(e)
  {
    match RunOf(entries, m)
    case None => !ParametersDiverge(entries, m)
    case Some(run) => GoesWell(run, m.mode)
  }

  /**
   The calls that a service answers make a proper workload, for some codec, exactly if all of
   them end well, the oneway calls among them included.
   */
  lemma ServedWorkIsProperIff(entries: seq<Entry>, dump: Json -> string, calls: seq<Message>, capacity: nat)
    requires forall e | e in entries :: Usable(e)
    requires forall i | 0 <= i < |calls| :: FromJson(calls[i].json) == Ok(calls[i])
    ensures var plan := ServicePlan(entries, dump, calls);
            Proper(Work(TableCodec(AllJson(calls, plan)), capacity, calls, plan))
            <==> forall i | 0 <= i < |calls| :: EndsWell(entries, calls[i])
  {
    hide FromJson, WellBehaved, Usable, EndsWell, Faithful, Replies, Answers, AllJson, TableCodec;
    var plan := ServicePlan(entries, dump, calls);
    forall i | 0 <= i < |calls| ensures WellBehaved(calls[i].mode, plan[i]) <==> EndsWell(entries, calls[i]) {
      WellBehavedIff(entries, dump, calls[i]);
      EndsWellIs(entries, calls[i]);
    }
    if forall i | 0 <= i < |calls| :: EndsWell(entries, calls[i]) {
      SomeCodecIsProper(calls, plan, capacity);
    }
  }

  lemma EndsWellIs(entries: seq<Entry>, m: Message)
    requires forall e | e in entries :: Usable(e)
    ensures EndsWell(entries, m)
       <==> match RunOf(entries, m)
            case None => !ParametersDiverge(entries, m)
            case Some(run) => GoesWell(run, m.mode)
  {
    hide RunOf, ParametersDiverge, GoesWell, Usable;
  }

  /** A callback that returns without using the reply function hangs its session, oneway or not. */
  lemma SilenceDoesNotEndWell(entries: seq<Entry>, dump: Json -> string, m: Message)
    requires (forall e | e in entries :: Usable(e)) && Replies(entries, dump, m) == []
    ensures !EndsWell(entries, m)
  {
    hide RunOf, ParametersDiverge, GoesWell, Usable, Replies;
    WellBehavedIff(entries, dump, m);
  }

  // ----- Which served calls keep replies and handlers together -----

  /** A oneway call that fails is followed by oneway calls only. */
  predicate FailuresComeLast(entries: seq<Entry>, calls: seq<Message>)
    requires forall e | e in entries :: Usable(e)
  {
    forall i, j | 0 <= i < j < |calls| && calls[i].mode.Oneway? && Fails(entries, calls[i]) :: calls[j].mode.Oneway?
  }

  lemma OnewayIsAnsweredIffFails(entries: seq<Entry>, dump: Json -> string, w: Work, i: nat)
    requires (forall e | e in entries :: Usable(e)) && Serves(entries, dump, w) && i < |w.calls| && IsOneway(w, i)
    ensures Answers(w, i) != [] <==> Fails(entries, w.calls[i])
  {
    hide Replies, Usable, Fails, HasError;
    OnewaySendsOnlyErrors(entries, dump, w.calls[i]);
  }

  lemma FailuresAreAnswered(entries: seq<Entry>, dump: Json -> string, w: Work)
    requires (forall e | e in entries :: Usable(e)) && Serves(entries, dump, w) && |w.plan| == |w.calls|
    ensures OnlyLastOnewaysFail(w) <==> FailuresComeLast(entries, w.calls)
  {
    hide Answers, Usable, Fails, Serves;
    forall i: nat | i < |w.calls| && IsOneway(w, i) ensures Answers(w, i) != [] <==> Fails(entries, w.calls[i]) {
      OnewayIsAnsweredIffFails(entries, dump, w, i);
    }
  }

  /**
   For a service: all replies reach the handlers of the calls that they answer, in every run,
   exactly if a oneway call that fails is never followed by a call that waits for a reply.
   */
  lemma ServedCallsArePairedIff(entries: seq<Entry>, dump: Json -> string, w: Work)
    requires (forall e | e in entries :: Usable(e)) && Serves(entries, dump, w)
    requires Proper(w) && FramesFit(w)
    ensures (forall steps | Run(w, steps).Some? :: Paired(Run(w, steps).value)) <==> FailuresComeLast(entries, w.calls)
  {
    hide Usable, Serves, OnlyLastOnewaysFail, FailuresComeLast, Faithful, FromJson, WellBehaved, FramesFit, Run, Paired;
    FailuresAreAnswered(entries, dump, w);
    AlwaysPairedIff(w);
  }

  // ----- What the handlers receive -----

  /** A reply to a call: an error, or a value of the return type of the method called. */
  ghost predicate AnswersCall(entries: seq<Entry>, m: Message, r: Json) {
    || HasError(r)
    || (MethodOf(entries, m).Some?
        && var (ms, method_) := MethodOf(entries, m).value;
           IsMethod(method_) && IsCallbackReply(ms, ReturnType(method_), m.mode, r))
  }

  lemma RepliesAnswer(entries: seq<Entry>, dump: Json -> string, m: Message, r: Json)
    requires (forall e | e in entries :: Usable(e)) && r in Objects(Replies(entries, dump, m))
    ensures AnswersCall(entries, m, r)
  {
    hide Replies, Usable, Objects, IsCallbackReply, HasError, IsMethod;
    InObjects(Replies(entries, dump, m), r);
    var k :| 0 <= k < |Replies(entries, dump, m)| && Replies(entries, dump, m)[k] == r;
    RepliesAreTyped(entries, dump, m, k);
  }

  /**
   In every run, each reply answers the call for which it was sent; and if no failing oneway
   call comes before a call that waits, each reply that a handler receives answers its call.
   */
  lemma HandlersGetTypedReplies(entries: seq<Entry>, dump: Json -> string, w: Work, steps: seq<Step>, d: nat)
    requires (forall e | e in entries :: Usable(e)) && Serves(entries, dump, w)
    requires Proper(w) && Run(w, steps).Some? && d < |Run(w, steps).value.received|
    ensures var s := Run(w, steps).value;
            && d < |s.emitted| && s.received[d].call < |w.calls| && s.emitted[d].call < |w.calls|
            && s.received[d].json == s.emitted[d].json
            && AnswersCall(entries, w.calls[s.emitted[d].call], s.received[d].json)
            && (FailuresComeLast(entries, w.calls) ==> AnswersCall(entries, w.calls[s.received[d].call], s.received[d].json))
  {
    hide Faithful, FromJson, WellBehaved, Stream, Run, OnlyLastOnewaysFail, FailuresComeLast, AnswersCall, Usable, Replies, Objects, Carries;
    var s := Run(w, steps).value;
    RunsKeepInv(w, steps);
    ReceivedCalls(w, steps, d);
    EmittedAnswers(w, s, d);
    RepliesAnswer(entries, dump, w.calls[s.emitted[d].call], s.emitted[d].json);
    FailuresAreAnswered(entries, dump, w);
    if FailuresComeLast(entries, w.calls) {
      RunsKeepPaired(w, steps);
    }
  }

  lemma EmittedAnswers(w: Work, s: System, d: nat)
    requires Proper(w) && Inv(w, s) && d < |s.emitted|
    ensures s.emitted[d].call < |w.calls| && s.emitted[d].json in Answers(w, s.emitted[d].call)
  {
    hide Faithful, FromJson, WellBehaved, Stream, PairInv, ReplyInv, Carries;
    EmittedInStream(w, s);
    StreamCalls(w, s.served, d);
  }

  lemma {:induction false} ReceivedCalls(w: Work, steps: seq<Step>, d: nat)
    requires Proper(w) && Run(w, steps).Some? && d < |Run(w, steps).value.received|
    ensures Run(w, steps).value.received[d].call < |w.calls|
  {
    hide Proper, Inv, Apply, Enabled, ClientMoved;
    var before := steps[..|steps| - 1];
    var s, step := Run(w, before).value, steps[|steps| - 1];
    if d < |s.received| {
      ReceivedCalls(w, before, d);
      ReceivedGrows(w, s, step);
    } else {
      RunsKeepInv(w, before);
      ReceivedCall(w, s, step, d);
    }
  }

  lemma ReceivedGrows(w: Work, s: System, step: Step)
    requires Enabled(w, s, step)
    ensures s.received <= Apply(w, s, step).received
  {
    hide LinkSend, LinkWrite, LinkRead, LinkTake, FrontText, CanWrite, CanRead, CanTake, ReplyContinues, GoesOn;
  }

  lemma ReceivedCall(w: Work, s: System, step: Step, d: nat)
    requires Enabled(w, s, step) && |s.received| <= d < |Apply(w, s, step).received|
    ensures Apply(w, s, step).received[d].call < |w.calls|
  {
    hide LinkSend, LinkWrite, LinkRead, LinkTake, FrontText, CanWrite, CanRead, CanTake, ReplyContinues, GoesOn;
  }

  /**
   A synchronous call whose callback goes well gives, invocation by invocation, exactly the
   parameters that the callback sent, and leaves the replies to later calls.
   */
  lemma SyncCallGetsWhatWasSent(entries: seq<Entry>, dump: Json -> string, codec: Codec<Json>, capacity: nat, m: Message, later: seq<Json>, k: nat)
    requires (forall e | e in entries :: Usable(e)) && !m.mode.Oneway?
    requires RunOf(entries, m).Some? && GoesWell(RunOf(entries, m).value, m.mode) && !Fails(entries, m)
    requires forall r | r in Replies(entries, dump, m) :: Faithful(codec, r) && |Frame(codec.dump(r))| <= capacity
    requires k < Accepted(RunOf(entries, m).value.ms, RunOf(entries, m).value.returned, m.mode, RunOf(entries, m).value.behaviour.sends)
    ensures var run := RunOf(entries, m).value;
            var n := Accepted(run.ms, run.returned, m.mode, run.behaviour.sends);
            var all := SyncClients.InvokedTimes(codec, capacity, m.mode, Frames(codec, Replies(entries, dump, m) + later), n);
            && |all.results| == n && all.results[k] == SyncClients.Answer(Object(run.behaviour.sends[k].parameters))
            && all.stream == Frames(codec, later)
  {
    hide Usable, Replies, RunOf, GoesWell, WellBehaved, Faithful, Frames, Frame, RunCallback, ErrorReplies, Accepted, Ending, SyncClients.InvokedTimes, Get, ParametersDiverge;
    var run := RunOf(entries, m).value;
    var o := RunCallback(run.ms, run.returned, m.mode, run.behaviour);
    WellBehavedIff(entries, dump, m);
    RepliesOfRun(entries, dump, m);
    CallbackTerminals(run.ms, run.returned, m.mode, run.behaviour);
    LastIsError(dump, m, o);
    SyncClients.InvocationsGive(codec, capacity, m.mode, o.replies, later, 0, k);
    SyncClients.CallReadsItsGroup(codec, capacity, m.mode, o.replies, later, 0);
    NoErrorField(o.replies[k]);
  }

  lemma NoErrorField(reply: Json)
    requires reply.Object? && !HasError(reply)
    ensures Get(reply, "error") == None
  {
  }

  // ----- A failing oneway call -----

  /**
   For any service: a oneway call to an interface that the service does not have, followed by
   any call that waits and ends well. There is a run in which the handler of the second call
   receives the `InterfaceNotFound` of the first.
   */
  lemma UnknownInterfaceAnswersNextCall(entries: seq<Entry>, dump: Json -> string, w: Work) returns (steps: seq<Step>)
    requires (forall e | e in entries :: Usable(e)) && Serves(entries, dump, w)
    requires Proper(w) && FramesFit(w) && |w.calls| >= 2 && IsOneway(w, 0) && !IsOneway(w, 1)
    requires FindInterface(entries, InterfaceName(FullName(w.calls[0]))).None?
    ensures var error := ErrorReply("org.varlink.service.InterfaceNotFound",
                                    Object([Field("interface", Str(InterfaceName(FullName(w.calls[0]))))]));
            && Run(w, steps).Some?
            && Run(w, steps).value.emitted == [Reply(0, error)]
            && Run(w, steps).value.received == [Reply(1, error)]
  {
    hide Faithful, FromJson, WellBehaved, FramesFit, Run, InterfaceName, FullName, FindInterface, HasError, Usable;
    var params := Object([Field("interface", Str(InterfaceName(FullName(w.calls[0]))))]);
    var error := ErrorReply("org.varlink.service.InterfaceNotFound", params);
    assert Replies(entries, dump, w.calls[0]) == [error] by { OnlyError(entries, dump, w.calls[0]); }
    ReplyShapes(params, false, "org.varlink.service.InterfaceNotFound");
    steps := Mispairing.FailedOnewayAnswersNextCall(w, error);
  }

  lemma OnlyError(entries: seq<Entry>, dump: Json -> string, m: Message)
    requires (forall e | e in entries :: Usable(e)) && FindInterface(entries, InterfaceName(FullName(m))).None?
    ensures Replies(entries, dump, m)
         == [ErrorReply("org.varlink.service.InterfaceNotFound", Object([Field("interface", Str(InterfaceName(FullName(m))))]))]
  {
    hide InterfaceName, FullName, FindInterface, Usable;
  }
}
