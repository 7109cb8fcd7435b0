/**
 Client and server session connected by two byte streams. The steps interleave freely:
 calls are pushed at any time, writes and reads move any number of bytes, and the service
 replies when it likes.
 */
module Protocol {
  import opened Wrappers
  import opened JsonValues
  import opened Messages
  import opened ManualStrands
  import opened Transport
  import opened AsyncClients
  import opened ServerSessions

  /**
   The calls in the order in which they are pushed, and for each the arguments with which the
   service will use the reply function: objects, or `null` for a oneway call that succeeds.
   */
  datatype Work = Work(codec: Codec<Json>, capacity: nat, calls: seq<Message>, plan: seq<seq<Json>>)

  /**
   The reply function is used with continuing replies only in `more` mode, and then exactly
   once with a final one. Only a oneway call is answered with something other than an object.
   */
  predicate WellBehaved(mode: CallMode, group: seq<Json>) {
    && group != [] && !ReplyContinues(group[|group| - 1])
    && (forall k | 0 <= k < |group| - 1 :: mode.More? && ReplyContinues(group[k]) && !HasError(group[k]))
    && (!mode.Oneway? ==> forall r | r in group :: r.Object?)
  }

  /** The replies that go over the connection: all but `null`. */
  function Objects(replies: seq<Json>): seq<Json> {
    if replies == [] then []
    else
      var last := replies[|replies| - 1];
      Objects(replies[..|replies| - 1]) + if last.Object? then [last] else []
  }

  /** What goes over the connection in answer to call `i`. */
  function Answers(w: Work, i: nat): seq<Json>
    requires i < |w.plan|
  {
    Objects(w.plan[i])
  }

  ghost predicate Proper(w: Work) {
    && |w.plan| == |w.calls|
    && (forall i | 0 <= i < |w.calls| :: FromJson(w.calls[i].json) == Ok(w.calls[i]))
    && (forall i | 0 <= i < |w.calls| :: WellBehaved(w.calls[i].mode, w.plan[i]))
    && (forall i | 0 <= i < |w.calls| :: Faithful(w.codec, w.calls[i].json))
    && (forall i, r | 0 <= i < |w.calls| && r in Answers(w, i) :: Faithful(w.codec, r))
  }

  predicate IsOneway(w: Work, i: nat) {
    i < |w.calls| && w.calls[i].mode.Oneway?
  }

  /** A reply together with the call it answers, or whose handler got it. */
  datatype Reply = Reply(call: nat, json: Json)

  datatype System = System(
    pushed: nat,
    client: Client<nat>,
    c2s: Link<Json>,
    served: nat,
    session: Session,
    s2c: Link<Json>,
    emitted: seq<Reply>,
    received: seq<Reply>)

  function Init(): System {
    System(0, IdleClient(), IdleLink(), 0, Reading, IdleLink(), [], [])
  }

  datatype Step =
    | PushCall
    | ClientWrites(n: nat)
    | ServerReads(n: nat)
    | ServerServes
    | ServerReplies
    | ServerWrites(n: nat)
    | ClientReads(n: nat)
    | ClientReceives

  predicate Enabled(w: Work, s: System, step: Step) {
    match step
    case PushCall => s.pushed < |w.calls|
    case ClientWrites(n) => CanWrite(s.c2s, n) && s.client.phase.Sending? && s.client.phase.call < |w.calls|
    case ServerReads(n) => s.session.Reading? && CanRead(s.c2s, w.capacity, n)
    case ServerServes => s.session.Reading? && CanTake(s.c2s)
    case ServerReplies => s.session.Replying? && 0 < s.served <= |w.plan| && s.session.sent < |w.plan[s.served - 1]|
    case ServerWrites(n) => CanWrite(s.s2c, n)
    case ClientReads(n) => s.client.phase.Awaiting? && CanRead(s.s2c, w.capacity, n)
    case ClientReceives => s.client.phase.Awaiting? && CanTake(s.s2c) && s.client.phase.call < |w.calls|
  }

  /** The client goes on; a call that starts hands its request to the connection. */
  function Proceed(w: Work, s: System, turn: ClientTurn<nat>): System {
    match turn.send
    case Some(i) =>
      s.(client := turn.client, c2s := if i < |w.calls| then LinkSend(w.codec, s.c2s, w.calls[i].json) else s.c2s)
    case None => s.(client := turn.client)
  }

  function Served(w: Work, s: System): System
    requires CanTake(s.c2s)
  {
    var session := AfterRequest(w.codec.parse(FrontText(s.c2s)));
    s.(c2s := LinkTake(s.c2s), session := session, served := s.served + if session.Closed? then 0 else 1)
  }

  /** The next use of the reply function; objects go out, and a final one makes the session read again. */
  function Replied(w: Work, s: System): System
    requires s.session.Replying? && 0 < s.served <= |w.plan| && s.session.sent < |w.plan[s.served - 1]|
  {
    var r := w.plan[s.served - 1][s.session.sent];
    var next := s.(session := AfterReply(s.session, r));
    if r.Object? then next.(s2c := LinkSend(w.codec, s.s2c, r), emitted := s.emitted + [Reply(s.served - 1, r)])
    else next
  }

  function Received(w: Work, s: System): System
    requires s.client.phase.Awaiting? && CanTake(s.s2c) && s.client.phase.call < |w.calls|
  {
    var call := s.client.phase.call;
    var next := s.(s2c := LinkTake(s.s2c));
    match w.codec.parse(FrontText(s.s2c))
    case Some(j) =>
      Proceed(w, next.(received := s.received + [Reply(call, j)]), ReplyReceived(s.client, w.calls[call].mode, false, j))
    case None => Proceed(w, next, ReplyReceived(s.client, w.calls[call].mode, true, Null))
  }

  /** The service has not replied finally to the last request, and never will. */
  predicate SessionHangs(w: Work, s: System) {
    s.session.Replying? && 0 < s.served <= |w.plan| && s.session.sent >= |w.plan[s.served - 1]|
  }

  function Apply(w: Work, s: System, step: Step): System
    requires Enabled(w, s, step)
  {
    match step
    case PushCall => Proceed(w, s.(pushed := s.pushed + 1), CallPushed(s.client, s.pushed))
    case ClientWrites(n) =>
      var next := s.(c2s := LinkWrite(w.codec, s.c2s, n));
      if n < |s.c2s.writer.unsent| then next
      else Proceed(w, next, RequestSent(s.client, w.calls[s.client.phase.call].mode))
    case ServerReads(n) => s.(c2s := LinkRead(s.c2s, n))
    case ServerServes => Served(w, s)
    case ServerReplies => Replied(w, s)
    case ServerWrites(n) => s.(s2c := LinkWrite(w.codec, s.s2c, n))
    case ClientReads(n) => s.(s2c := LinkRead(s.s2c, n))
    case ClientReceives => Received(w, s)
  }

  /** The state after a run, if every step was enabled in its turn. */
  function Run(w: Work, steps: seq<Step>): Option<System> {
    if steps == [] then Some(Init())
    else
      match Run(w, steps[..|steps| - 1])
      case None => None
      case Some(s) =>
        var step := steps[|steps| - 1];
        if Enabled(w, s, step) then Some(Apply(w, s, step)) else None
  }

  /** Bytes are read only by a side that receives, and has no complete message in its buffer. */
  lemma ReadsOnlyWhenReceiving(w: Work, s: System, step: Step)
    requires Enabled(w, s, step)
    ensures step.ServerReads? ==> s.session == Reading && NUL !in s.c2s.buf && |s.c2s.buf| < w.capacity
    ensures step.ClientReads? ==> s.client.phase.Awaiting? && NUL !in s.s2c.buf && |s.s2c.buf| < w.capacity
  {
  }

  // ----- The replies in the order of the calls -----

  function Tagged(i: nat, group: seq<Json>): seq<Reply> {
    seq(|group|, k requires 0 <= k < |group| => Reply(i, group[k]))
  }

  /** The reply groups of the first `i` calls, one after the other. */
  function Stream(w: Work, i: nat): seq<Reply>
    requires i <= |w.plan|
  {
    if i == 0 then [] else Stream(w, i - 1) + Tagged(i - 1, Answers(w, i - 1))
  }

  lemma {:induction false} StreamGrows(w: Work, i: nat, j: nat)
    requires i <= j <= |w.plan|
    ensures Stream(w, i) <= Stream(w, j)
    decreases j
  {
    if i < j {
      StreamGrows(w, i, j - 1);
    }
  }

  /** The entries that belong to group `i`. */
  lemma StreamAt(w: Work, i: nat, j: nat, d: nat)
    requires i < j <= |w.plan| && |Stream(w, i)| <= d < |Stream(w, i + 1)|
    ensures |Stream(w, i + 1)| == |Stream(w, i)| + |Answers(w, i)| && d < |Stream(w, j)|
    ensures Stream(w, j)[d] == Reply(i, Answers(w, i)[d - |Stream(w, i)|])
  {
    StreamGrows(w, i + 1, j);
    assert Stream(w, i + 1)[d] == Tagged(i, Answers(w, i))[d - |Stream(w, i)|];
  }

  lemma {:induction false} StreamCalls(w: Work, i: nat, d: nat)
    requires i <= |w.plan| && d < |Stream(w, i)|
    ensures Stream(w, i)[d].call < i && Stream(w, i)[d].json in Answers(w, Stream(w, i)[d].call)
  {
    if d < |Stream(w, i - 1)| {
      StreamCalls(w, i - 1, d);
    } else {
      assert Stream(w, i)[d] == Tagged(i - 1, Answers(w, i - 1))[d - |Stream(w, i - 1)|];
    }
  }

  function Contents(rs: seq<Reply>): seq<Json> {
    seq(|rs|, k requires 0 <= k < |rs| => rs[k].json)
  }

  function Requests(calls: seq<Message>): seq<Json> {
    seq(|calls|, k requires 0 <= k < |calls| => calls[k].json)
  }

  // ----- Invariants -----

  /** How many calls have started. */
  function StartedCalls(s: System): int {
    s.pushed - |s.client.strand.queue|
  }

  /** The call strand: calls start in the order they are pushed, and the last one started is current. */
  ghost predicate ClientInv(w: Work, s: System) {
    && s.pushed <= |w.calls| && |s.client.strand.queue| <= s.pushed
    && ClientOk(s.client)
    && (forall k | 0 <= k < |s.client.strand.queue| :: s.client.strand.queue[k] == StartedCalls(s) + k)
    && (!s.client.phase.Idle? ==> StartedCalls(s) > 0 && s.client.phase.call == StartedCalls(s) - 1)
    && (s.client.phase.Awaiting? ==> !IsOneway(w, s.client.phase.call))
    && s.c2s.writer.strand.queue == []
    && (s.c2s.writer.unsent != "" <==> s.client.phase.Sending?)
  }

  /** The requests on their way are those of the started calls that were not served yet. */
  ghost predicate RequestInv(w: Work, s: System) {
    && 0 <= s.served <= StartedCalls(s) <= |w.calls|
    && Carries(w.codec, s.c2s, Requests(w.calls[s.served..StartedCalls(s)]))
  }

  /** No multiplexing: what the session sent is whole groups in request order, then the open one. */
  ghost predicate SessionInv(w: Work, s: System)
    requires |w.plan| == |w.calls|
  {
    && s.served <= |w.plan|
    && (match s.session
        case Reading => s.emitted == Stream(w, s.served)
        case Replying(k) =>
          && 0 < s.served && k < |w.plan[s.served - 1]|
          && s.emitted == Stream(w, s.served - 1) + Tagged(s.served - 1, Objects(w.plan[s.served - 1][..k]))
        case Closed => false)
  }

  /** The replies on their way are those sent and not received yet. */
  ghost predicate ReplyInv(w: Work, s: System) {
    && |s.received| <= |s.emitted|
    && (forall d | 0 <= d < |s.received| :: s.received[d].json == s.emitted[d].json)
    && (forall d | 0 <= d < |s.received| :: !IsOneway(w, s.received[d].call))
    && Carries(w.codec, s.s2c, Contents(s.emitted[|s.received|..]))
  }

  /** The first oneway call, among the first `n`, that gets a reply all the same; or `n`. */
  function FirstAnsweredOneway(w: Work, n: nat): (b: nat)
    requires n <= |w.calls| == |w.plan|
    ensures b <= n
    ensures b < n ==> IsOneway(w, b) && Answers(w, b) != []
    ensures forall i | 0 <= i < b :: !(IsOneway(w, i) && Answers(w, i) != [])
  {
    if n == 0 then 0
    else
      var b := FirstAnsweredOneway(w, n - 1);
      if b < n - 1 then b else if IsOneway(w, n - 1) && Answers(w, n - 1) != [] then n - 1 else n
  }

  /**
   Up to the first reply to a oneway call, the handlers have received the reply stream itself:
   every reply went to the handler of the call it answers, and every earlier call is complete.
   */
  ghost predicate PairInv(w: Work, s: System)
    requires |w.plan| == |w.calls| && 0 <= StartedCalls(s) <= |w.calls|
  {
    var n := StartedCalls(s);
    var b := FirstAnsweredOneway(w, n);
    if b < n then
      Stream(w, b) <= s.received
    else
      && s.received <= Stream(w, n)
      && (match s.client.phase
          case Idle => |s.received| == |Stream(w, n)|
          case Sending(_) => n > 0 && |s.received| == |Stream(w, n - 1)|
          case Awaiting(_) => n > 0 && |Stream(w, n - 1)| <= |s.received| < |Stream(w, n)|)
  }

  ghost predicate Inv(w: Work, s: System)
    requires |w.plan| == |w.calls|
  {
    ClientInv(w, s) && RequestInv(w, s) && SessionInv(w, s) && ReplyInv(w, s) && PairInv(w, s)
  }

  // ----- The client goes on to the next call -----

  /** Afterwards there is no call, or the next one has started. */
  predicate OverOrNext(s: System, s': System) {
    || (s'.client.phase.Idle? && StartedCalls(s') == StartedCalls(s))
    || (s'.client.phase.Sending? && StartedCalls(s') == StartedCalls(s) + 1)
  }

  /** What the strand does when a call is pushed or over, in terms of the counts. */
  lemma ProceedKeeps(w: Work, s: System, s': System, turn: Turn<nat>)
    requires Proper(w) && s.c2s.writer == IdleWriter() && s.pushed <= |w.calls|
    requires turn == Executed(s.client.strand.queue) && |s.client.strand.queue| <= s.pushed
    requires forall k | 0 <= k < |s.client.strand.queue| :: s.client.strand.queue[k] == StartedCalls(s) + k
    requires 0 <= s.served <= StartedCalls(s) && Carries(w.codec, s.c2s, Requests(w.calls[s.served..StartedCalls(s)]))
    requires s' == Proceed(w, s, Continued(turn, Idle))
    ensures ClientInv(w, s') && RequestInv(w, s')
    ensures s' == s.(client := s'.client, c2s := s'.c2s)
    ensures OverOrNext(s, s')
  {
    hide Carries, Requests, Faithful, FromJson, WellBehaved;
    var n := StartedCalls(s);
    if s.client.strand.queue != [] {
      assert s.client.strand.queue[0] == n;
      SendCarries(w.codec, s.c2s, Requests(w.calls[s.served..n]), w.calls[n].json);
      RequestsGrow(w.calls, s.served, n);
      assert Sent(w.codec, s.c2s.writer, w.calls[n].json) == Writer(Strand([], true), Frame(w.codec.dump(w.calls[n].json)));
    }
  }

  lemma WriterIsIdle(codec: Codec<Json>, l: Link<Json>, ms: seq<Json>)
    requires Carries(codec, l, ms) && l.writer.unsent == ""
    ensures l.writer == IdleWriter()
  {
  }

  lemma RequestsGrow(calls: seq<Message>, i: nat, n: nat)
    requires i <= n < |calls|
    ensures Requests(calls[i..n + 1]) == Requests(calls[i..n]) + [calls[n].json]
  {
    assert calls[i..n + 1] == calls[i..n] + [calls[n]];
  }

  lemma FirstAnsweredStep(w: Work, n: nat)
    requires n < |w.calls| == |w.plan|
    ensures var b := FirstAnsweredOneway(w, n);
            FirstAnsweredOneway(w, n + 1) == if b < n then b else if IsOneway(w, n) && Answers(w, n) != [] then n else n + 1
  {
  }

  /** All calls so far complete: pairing carries over to the next one. */
  lemma CompleteThenPaired(w: Work, s: System, s': System)
    requires |w.plan| == |w.calls| && 0 <= StartedCalls(s) <= StartedCalls(s') <= |w.calls|
    requires s'.received == s.received
    requires var n := StartedCalls(s);
             if FirstAnsweredOneway(w, n) < n then Stream(w, FirstAnsweredOneway(w, n)) <= s.received
             else s.received == Stream(w, n)
    requires OverOrNext(s, s')
    ensures PairInv(w, s')
  {
    var n := StartedCalls(s);
    if StartedCalls(s') == n + 1 {
      FirstAnsweredStep(w, n);
      StreamGrows(w, n, n + 1);
    }
  }

  // ----- Every step keeps the invariants -----

  lemma InitInv(w: Work)
    requires Proper(w)
    ensures Inv(w, Init())
  {
    hide Faithful, FromJson, WellBehaved;
    assert Requests(w.calls[0..0]) == [] && Frames(w.codec, []) == "";
    assert Contents([]) == [];
  }

  lemma PushKeepsInv(w: Work, s: System)
    requires Proper(w) && Inv(w, s) && Enabled(w, s, PushCall)
    ensures Inv(w, Apply(w, s, PushCall))
  {
    hide Faithful, FromJson, WellBehaved, Carries, Requests, Contents, Stream, FirstAnsweredOneway;
    var s' := Apply(w, s, PushCall);
    if s.client.strand.executing {
      assert StartedCalls(s') == StartedCalls(s);
    } else {
      var between := s.(pushed := s.pushed + 1, client := Client(Strand([s.pushed], true), Idle));
      assert s.client.strand.queue + [s.pushed] == [s.pushed];
      WriterIsIdle(w.codec, s.c2s, Requests(w.calls[s.served..StartedCalls(s)]));
      ProceedKeeps(w, between, s', Executed([s.pushed]));
      CompleteThenPaired(w, s, s');
    }
  }

  lemma ClientWritesKeepsInv(w: Work, s: System, n: nat)
    requires Proper(w) && Inv(w, s) && Enabled(w, s, ClientWrites(n))
    ensures Inv(w, Apply(w, s, ClientWrites(n)))
  {
    hide Faithful, FromJson, WellBehaved, Answers, Carries, Requests, Contents, Stream, FirstAnsweredOneway;
    var s' := Apply(w, s, ClientWrites(n));
    var requests := Requests(w.calls[s.served..StartedCalls(s)]);
    WriteCarries(w.codec, s.c2s, requests, n);
    var next := s.(c2s := LinkWrite(w.codec, s.c2s, n));
    if n == |s.c2s.writer.unsent| {
      assert next.c2s.writer == IdleWriter();
      var i := s.client.phase.call;
      if !IsOneway(w, i) {
        WaitingAnswers(w, i);
      }
      GroupEnd(w, i);
      if w.calls[i].mode.Oneway? {
        ProceedKeeps(w, next, s', Nexted(s.client.strand));
        SentIsComplete(w, s);
        CompleteThenPaired(w, s, s');
      }
    }
  }

  lemma GroupEnd(w: Work, i: nat)
    requires i < |w.plan|
    ensures |Stream(w, i + 1)| == |Stream(w, i)| + |Answers(w, i)|
    ensures Answers(w, i) == [] ==> Stream(w, i + 1) == Stream(w, i)
  {
    hide WellBehaved, Answers;
    assert Stream(w, i + 1) == Stream(w, i) + Tagged(i, Answers(w, i));
  }

  lemma {:induction false} ObjectsOfObjects(replies: seq<Json>)
    requires forall r | r in replies :: r.Object?
    ensures Objects(replies) == replies
  {
    if replies != [] {
      ObjectsOfObjects(replies[..|replies| - 1]);
    }
  }

  /** The replies to a call that waits all go over the connection, and there is at least one. */
  lemma WaitingAnswers(w: Work, i: nat)
    requires Proper(w) && i < |w.calls| && !IsOneway(w, i)
    ensures Answers(w, i) == w.plan[i] != []
  {
    hide Faithful, FromJson, ReplyContinues, HasError;
    assert WellBehaved(w.calls[i].mode, w.plan[i]);
    ObjectsOfObjects(w.plan[i]);
  }

  lemma {:induction false} ObjectsPrefix(group: seq<Json>, k: nat)
    requires k <= |group|
    ensures Objects(group[..k]) <= Objects(group)
  {
    if k < |group| {
      var before := group[..|group| - 1];
      assert before[..k] == group[..k];
      ObjectsPrefix(before, k);
    } else {
      assert group[..k] == group;
    }
  }

  lemma ObjectsStep(group: seq<Json>, k: nat)
    requires k < |group|
    ensures Objects(group[..k + 1]) == Objects(group[..k]) + if group[k].Object? then [group[k]] else []
  {
    assert group[..k + 1][..k] == group[..k];
  }

  /** A oneway call whose request is being written is complete, unless it gets a reply. */
  lemma SentIsComplete(w: Work, s: System)
    requires Proper(w) && Inv(w, s) && s.client.phase.Sending? && IsOneway(w, s.client.phase.call)
    ensures var n := StartedCalls(s);
            FirstAnsweredOneway(w, n) == n ==> s.received == Stream(w, n)
  {
    hide Faithful, FromJson, WellBehaved, Carries, FirstAnsweredOneway, Stream;
    var n := StartedCalls(s);
    GroupEnd(w, n - 1);
    StreamGrows(w, n - 1, n);
  }

  lemma ServerReadsKeepsInv(w: Work, s: System, n: nat)
    requires Proper(w) && Inv(w, s) && Enabled(w, s, ServerReads(n))
    ensures Inv(w, Apply(w, s, ServerReads(n)))
  {
    hide Faithful, FromJson, WellBehaved, Carries, Requests, Contents, Stream, FirstAnsweredOneway;
    ReadCarries(w.codec, s.c2s, Requests(w.calls[s.served..StartedCalls(s)]), n);
  }

  lemma ServerServesKeepsInv(w: Work, s: System)
    requires Proper(w) && Inv(w, s) && Enabled(w, s, ServerServes)
    ensures Inv(w, Apply(w, s, ServerServes)) && Apply(w, s, ServerServes).served == s.served + 1
  {
    hide Faithful, FromJson, ReplyContinues, HasError, Carries, Contents, Stream, FirstAnsweredOneway, FrontText, LinkTake;
    var n := StartedCalls(s);
    TakeCarries(w.codec, s.c2s, Requests(w.calls[s.served..n]));
    TakeKeepsWriter(s.c2s);
    assert Requests(w.calls[s.served..n])[0] == w.calls[s.served].json;
    assert Requests(w.calls[s.served..n])[1..] == Requests(w.calls[s.served + 1..n]);
    assert WellBehaved(w.calls[s.served].mode, w.plan[s.served]);
    assert w.plan[s.served][..0] == [] && Tagged(s.served, []) == [];
    var s' := Apply(w, s, ServerServes);
    assert s'.emitted == Stream(w, s'.served - 1) + Tagged(s'.served - 1, Objects(w.plan[s'.served - 1][..0]));
  }

  lemma TakeKeepsWriter(l: Link<Json>)
    requires CanTake(l)
    ensures LinkTake(l).writer == l.writer
  {
  }

  lemma ServerRepliesKeepsInv(w: Work, s: System)
    requires Proper(w) && Inv(w, s) && Enabled(w, s, ServerReplies)
    ensures Inv(w, Apply(w, s, ServerReplies))
  {
    hide Faithful, FromJson, WellBehaved, Carries, Requests, Contents, FirstAnsweredOneway, LinkSend, ReplyContinues, Stream, ReplyInv, PairInv;
    var s' := Apply(w, s, ServerReplies);
    var i, k := s.served - 1, s.session.sent;
    var group := w.plan[i];
    FinalIsLast(w, i, k);
    ObjectsStep(group, k);
    StreamStep(w, i);
    assert group[..|group|] == group;
    if group[k].Object? {
      EmitKeepsReplies(w, s, s', Reply(i, group[k]));
      TaggedStep(i, Objects(group[..k]), group[k]);
    } else {
      SameReplies(w, s, s');
    }
    SamePairing(w, s, s');
  }

  lemma TaggedStep(i: nat, group: seq<Json>, r: Json)
    ensures Tagged(i, group + [r]) == Tagged(i, group) + [Reply(i, r)]
  {
  }

  lemma StreamStep(w: Work, i: nat)
    requires i < |w.plan|
    ensures Stream(w, i + 1) == Stream(w, i) + Tagged(i, Objects(w.plan[i]))
  {
  }

  /** A reply that goes out is the last one on its way. */
  lemma EmitKeepsReplies(w: Work, s: System, s': System, r: Reply)
    requires ReplyInv(w, s)
    requires s'.received == s.received && s'.emitted == s.emitted + [r] && s'.s2c == LinkSend(w.codec, s.s2c, r.json)
    ensures ReplyInv(w, s')
  {
    hide Carries, LinkSend;
    var d := |s.received|;
    SendCarries(w.codec, s.s2c, Contents(s.emitted[d..]), r.json);
    assert s'.emitted[d..] == s.emitted[d..] + [r];
    assert Contents(s'.emitted[d..]) == Contents(s.emitted[d..]) + [r.json];
  }

  lemma SameReplies(w: Work, s: System, s': System)
    requires ReplyInv(w, s) && s'.received == s.received && s'.emitted == s.emitted && s'.s2c == s.s2c
    ensures ReplyInv(w, s')
  {
    hide Carries, Contents;
  }

  lemma SamePairing(w: Work, s: System, s': System)
    requires |w.plan| == |w.calls| && 0 <= StartedCalls(s) <= |w.calls| && PairInv(w, s)
    requires s'.pushed == s.pushed && s'.client == s.client && s'.received == s.received
    ensures PairInv(w, s')
  {
    hide Stream, FirstAnsweredOneway;
  }

  /** In a group, the last reply is the one that does not continue. */
  lemma FinalIsLast(w: Work, i: nat, k: nat)
    requires Proper(w) && i < |w.plan| && k < |w.plan[i]|
    ensures ReplyContinues(w.plan[i][k]) <==> k + 1 < |w.plan[i]|
    ensures k + 1 < |w.plan[i]| ==> w.calls[i].mode.More? && !HasError(w.plan[i][k])
  {
    hide Faithful, FromJson, ReplyContinues, HasError;
    assert WellBehaved(w.calls[i].mode, w.plan[i]);
  }

  lemma ServerWritesKeepsInv(w: Work, s: System, n: nat)
    requires Proper(w) && Inv(w, s) && Enabled(w, s, ServerWrites(n))
    ensures Inv(w, Apply(w, s, ServerWrites(n)))
  {
    hide Faithful, FromJson, WellBehaved, Carries, Requests, Contents, Stream, FirstAnsweredOneway, LinkWrite;
    WriteCarries(w.codec, s.s2c, Contents(s.emitted[|s.received|..]), n);
  }

  lemma ClientReadsKeepsInv(w: Work, s: System, n: nat)
    requires Proper(w) && Inv(w, s) && Enabled(w, s, ClientReads(n))
    ensures Inv(w, Apply(w, s, ClientReads(n)))
  {
    hide Faithful, FromJson, WellBehaved, Carries, Requests, Contents, Stream, FirstAnsweredOneway;
    ReadCarries(w.codec, s.s2c, Contents(s.emitted[|s.received|..]), n);
  }

  lemma TaggedPrefix(i: nat, a: seq<Json>, b: seq<Json>)
    requires a <= b
    ensures Tagged(i, a) <= Tagged(i, b)
  {
  }

  /** The session never sends more than the groups of the started calls. */
  lemma EmittedInStream(w: Work, s: System)
    requires Proper(w) && SessionInv(w, s) && s.served <= StartedCalls(s) <= |w.calls|
    ensures s.emitted <= Stream(w, s.served) <= Stream(w, StartedCalls(s))
  {
    hide Faithful, FromJson, WellBehaved;
    StreamGrows(w, s.served, StartedCalls(s));
    if s.session.Replying? {
      var i, k := s.served - 1, s.session.sent;
      ObjectsPrefix(w.plan[i], k);
      TaggedPrefix(i, Objects(w.plan[i][..k]), Answers(w, i));
      assert Stream(w, s.served) == Stream(w, i) + Tagged(i, Answers(w, i));
    }
  }

  lemma EmittedIsFaithful(w: Work, s: System, d: nat)
    requires Proper(w) && SessionInv(w, s) && s.served <= StartedCalls(s) <= |w.calls|
    ensures d < |s.emitted| ==> Faithful(w.codec, s.emitted[d].json)
  {
    hide Faithful, FromJson, WellBehaved, Stream;
    EmittedInStream(w, s);
    if d < |s.emitted| {
      StreamCalls(w, s.served, d);
    }
  }

  /** What a client takes off the connection is the next reply that was sent. */
  lemma TakeNextReply(w: Work, s: System)
    requires ReplyInv(w, s) && CanTake(s.s2c) && (|s.received| < |s.emitted| ==> Faithful(w.codec, s.emitted[|s.received|].json))
    ensures |s.received| < |s.emitted| && w.codec.parse(FrontText(s.s2c)) == Some(s.emitted[|s.received|].json)
    ensures Carries(w.codec, LinkTake(s.s2c), Contents(s.emitted[|s.received| + 1..]))
  {
    hide Faithful, Carries, FrontText, LinkTake, CanTake;
    var d := |s.received|;
    var rest := Contents(s.emitted[d..]);
    assert d < |s.emitted| ==> rest[0] == s.emitted[d].json && rest[1..] == Contents(s.emitted[d + 1..]);
    TakeCarries(w.codec, s.s2c, rest);
  }

  lemma ClientReceivesKeepsInv(w: Work, s: System)
    requires Proper(w) && Inv(w, s) && Enabled(w, s, ClientReceives)
    ensures Inv(w, Apply(w, s, ClientReceives))
    ensures |Apply(w, s, ClientReceives).received| == |s.received| + 1
  {
    hide Faithful, FromJson, WellBehaved, Carries, Requests, Contents, Stream, FirstAnsweredOneway, FrontText, LinkTake, GoesOn, PairInv;
    var s' := Apply(w, s, ClientReceives);
    var n, d := StartedCalls(s), |s.received|;
    var call, mode := s.client.phase.call, w.calls[s.client.phase.call].mode;
    EmittedIsFaithful(w, s, d);
    TakeNextReply(w, s);
    var j := s.emitted[d].json;
    var middle := s.(s2c := LinkTake(s.s2c), received := s.received + [Reply(call, j)]);
    if !GoesOn(mode, false, j) {
      WriterIsIdle(w.codec, s.c2s, Requests(w.calls[s.served..n]));
      ProceedKeeps(w, middle, s', Nexted(s.client.strand));
    }
    ReceiveKeepsPairing(w, s, s', j);
  }

  lemma ReceiveKeepsPairing(w: Work, s: System, s': System, j: Json)
    requires Proper(w) && Inv(w, s) && s.client.phase.Awaiting? && |s.received| < |s.emitted| && j == s.emitted[|s.received|].json
    requires 0 <= StartedCalls(s) <= StartedCalls(s') <= |w.calls|
    requires s'.received == s.received + [Reply(s.client.phase.call, j)]
    requires if GoesOn(w.calls[s.client.phase.call].mode, false, j) then s'.client == s.client && StartedCalls(s') == StartedCalls(s)
             else OverOrNext(s, s')
    ensures PairInv(w, s')
  {
    hide Faithful, FromJson, WellBehaved, Carries, Requests, Contents, Stream, FirstAnsweredOneway, ReplyContinues, HasError;
    var n, d := StartedCalls(s), |s.received|;
    var b := FirstAnsweredOneway(w, n);
    var call := n - 1;
    if b < n {
      if StartedCalls(s') == n + 1 {
        FirstAnsweredStep(w, n);
      }
    } else {
      EmittedInStream(w, s);
      StreamAt(w, call, n, d);
      WaitingAnswers(w, call);
      assert s'.received == Stream(w, n)[..d + 1];
      var k := d - |Stream(w, call)|;
      FinalIsLast(w, call, k);
      if !GoesOn(w.calls[call].mode, false, j) {
        assert d + 1 == |Stream(w, n)|;
        assert s'.received == Stream(w, n);
        CompleteThenPaired(w, s.(received := s'.received), s');
      }
    }
  }

  lemma StepKeepsInv(w: Work, s: System, step: Step)
    requires Proper(w) && Inv(w, s) && Enabled(w, s, step)
    ensures Inv(w, Apply(w, s, step))
  {
    hide Inv, Proper, Apply;
    match step
    case PushCall => PushKeepsInv(w, s);
    case ClientWrites(n) => ClientWritesKeepsInv(w, s, n);
    case ServerReads(n) => ServerReadsKeepsInv(w, s, n);
    case ServerServes => ServerServesKeepsInv(w, s);
    case ServerReplies => ServerRepliesKeepsInv(w, s);
    case ServerWrites(n) => ServerWritesKeepsInv(w, s, n);
    case ClientReads(n) => ClientReadsKeepsInv(w, s, n);
    case ClientReceives => ClientReceivesKeepsInv(w, s);
  }

  lemma {:induction false} RunsKeepInv(w: Work, steps: seq<Step>)
    requires Proper(w) && Run(w, steps).Some?
    ensures Inv(w, Run(w, steps).value)
  {
    hide Inv, Apply, Enabled;
    if steps == [] {
      InitInv(w);
    } else {
      RunsKeepInv(w, steps[..|steps| - 1]);
      StepKeepsInv(w, Run(w, steps[..|steps| - 1]).value, steps[|steps| - 1]);
    }
  }

  // ----- A call that is never answered finally -----

  /** From then on the session serves and sends nothing, whatever happens. */
  lemma HangsForEver(w: Work, s: System, step: Step)
    requires SessionHangs(w, s) && Enabled(w, s, step)
    ensures var s' := Apply(w, s, step);
            SessionHangs(w, s') && s'.served == s.served && s'.emitted == s.emitted
  {
    hide LinkSend, LinkWrite, LinkRead, LinkTake, FrontText, CanWrite, CanRead, CanTake, ReplyContinues, HasError;
  }

  /** A request whose callback never uses the reply function hangs the session. */
  lemma SilentCallbackHangs(w: Work, s: System)
    requires Enabled(w, s, ServerServes) && s.served < |w.plan| && w.plan[s.served] == []
    ensures Apply(w, s, ServerServes).session.Closed? || SessionHangs(w, Apply(w, s, ServerServes))
  {
    hide LinkTake, FrontText, CanTake, FromJson;
  }
}
