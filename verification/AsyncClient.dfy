/**
 The asynchronous client (include/varlink/async_client.hpp:168-229): a call holds the call
 strand from the moment its request is handed to the connection until its last reply.
 */
module AsyncClients {
  import opened Wrappers
  import opened JsonValues
  import opened Messages
  import opened ManualStrands
  import opened Transport
  import opened JsonConnections

  // ----- The client as a value -----

  /** Without a call; writing the request of the current call; waiting for its replies. */
  datatype Phase<T> = Idle | Sending(call: T) | Awaiting(call: T)

  datatype Client<T> = Client(strand: Strand<T>, phase: Phase<T>)

  /** A new state, and the call whose request now goes to the connection. */
  datatype ClientTurn<T> = ClientTurn(client: Client<T>, send: Option<T>)

  function IdleClient<T>(): Client<T> {
    Client(Strand([], false), Idle)
  }

  /** What a strand turn does: the job it starts sends its request. */
  function Continued<T>(turn: Turn<T>, phase: Phase<T>): ClientTurn<T> {
    match turn.run
    case Some(call) => ClientTurn(Client(turn.strand, Sending(call)), Some(call))
    case None => ClientTurn(Client(turn.strand, phase), None)
  }

  function CallPushed<T>(c: Client<T>, call: T): ClientTurn<T> {
    Continued(Pushed(c.strand, call), c.phase)
  }

  /** The request is written; a oneway call is over then. */
  function RequestSent<T>(c: Client<T>, mode: CallMode): ClientTurn<T>
    requires c.phase.Sending?
  {
    if mode.Oneway? then Continued(Nexted(c.strand), Idle)
    else ClientTurn(c.(phase := Awaiting(c.phase.call)), None)
  }

  /** More replies follow this one. */
  predicate GoesOn(mode: CallMode, failed: bool, reply: Json) {
    mode.More? && !failed && !SetsErrorCode(reply) && ReplyContinues(reply)
  }

  function ReplyReceived<T>(c: Client<T>, mode: CallMode, failed: bool, reply: Json): ClientTurn<T>
    requires c.phase.Awaiting?
  {
    if GoesOn(mode, failed, reply) then ClientTurn(c, None) else Continued(Nexted(c.strand), Idle)
  }

  /** Exactly: in `more` mode, `continues` is true, and no error is named, or the name is `no_error`. */
  lemma GoesOnIff(mode: CallMode, reply: Json)
    ensures GoesOn(mode, false, reply)
       <==> && mode == More && reply.Object?
            && Get(reply, "continues") == Some(Bool(true))
            && (Get(reply, "error") == None || Get(reply, "error") == Some(Str("no_error")))
  {
    hide Get;
  }

  predicate ClientOk<T>(c: Client<T>) {
    && (c.strand.executing <==> !c.phase.Idle?)
    && (!c.strand.executing ==> c.strand.queue == [])
  }

  // ----- The class -----

  /** A call and the handler that waits for its replies. */
  datatype PendingCall = PendingCall(handler: nat, message: Message)

  /** What a handler is told: its oneway request is sent, sending it failed, or a receive is over. */
  datatype News = RequestWritten | SendFailed | Incoming(received: Received<Json>)

  /** One invocation of a handler; `continues` announces another one. */
  datatype Handled = Handled(handler: nat, news: News, continues: bool)

  /** The handlers that were invoked for the last time, in order. */
  function Completed(handled: seq<Handled>): seq<nat> {
    if handled == [] then []
    else
      var last := handled[|handled| - 1];
      Completed(handled[..|handled| - 1]) + if last.continues then [] else [last.handler]
  }

  function Handlers(calls: seq<PendingCall>): seq<nat> {
    seq(|calls|, k requires 0 <= k < |calls| => calls[k].handler)
  }

  lemma CompletedStep(handled: seq<Handled>, last: Handled)
    ensures Completed(handled + [last]) == Completed(handled) + if last.continues then [] else [last.handler]
  {
    assert (handled + [last])[..|handled|] == handled;
  }

  class AsyncClient {
    const connection: JsonConnection<Json>
    const callStrand: ManualStrand<PendingCall>
    var phase: Phase<PendingCall>

    /** All invocations of handlers, in order. */
    ghost var handled: seq<Handled>

    ghost predicate Valid()
      reads this, connection, connection.writeStrand, callStrand
    {
      Running() && CompletedUpTo(callStrand.nexts)
    }

    /** All but what the handlers were told. */
    ghost predicate Running()
      reads this`phase, connection, connection.writeStrand, callStrand
    {
      && callStrand as object != connection.writeStrand as object
      && connection.Valid()
      && callStrand.Valid()
      && ClientOk(View())
      && |callStrand.started| == callStrand.nexts + (if callStrand.executing then 1 else 0)
      && (!phase.Idle? ==> phase.call == callStrand.started[callStrand.nexts])
      && OneRequestAtATime()
    }

    /** The first `n` calls were completed by their handlers, exactly once and in push order. */
    ghost predicate CompletedUpTo(n: nat)
      reads this`handled, callStrand
    {
      n <= |callStrand.started| && Completed(handled) == Handlers(callStrand.started[..n])
    }

    /** Only the request of the sending call is ever with the writer. */
    ghost predicate OneRequestAtATime()
      reads this`phase, connection, connection.writeStrand
    {
      connection.writeStrand.queue == [] && (connection.unsent != "" <==> phase.Sending?)
    }

    function View(): Client<PendingCall>
      reads this`phase, callStrand
    {
      Client(callStrand.View(), phase)
    }

    constructor (codec: Codec<Json>, capacity: nat)
      ensures Valid() && View() == IdleClient() && handled == []
      ensures connection.codec == codec && fresh(connection) && fresh(callStrand)
    {
      connection := new JsonConnection(codec, capacity);
      callStrand := new ManualStrand();
      phase, handled := Idle, [];
    }

    method AsyncCall(call: PendingCall)
      requires Valid()
      modifies this`phase, callStrand, connection`unsent, connection`framed, connection.writeStrand
      ensures Valid() && View() == CallPushed(old(View()), call).client
      ensures connection.WriterView() == match CallPushed(old(View()), call).send
                                         case Some(started) => Sent(connection.codec, old(connection.WriterView()), started.message.json)
                                         case None => old(connection.WriterView())
      ensures callStrand.pushed == old(callStrand.pushed) + [call]
      ensures handled == old(handled)
    {
      var run := callStrand.Push(call);
      if run.Some? {
        StartCall(run.value);
      }
    }

    /** The job on the call strand. */
    method StartCall(call: PendingCall)
      requires connection.Valid() && connection.WriterView() == IdleWriter()
      modifies this`phase, connection`unsent, connection`framed, connection.writeStrand
      ensures connection.Valid() && phase == Sending(call) && OneRequestAtATime()
      ensures connection.WriterView() == Sent(connection.codec, IdleWriter(), call.message.json)
    {
      connection.AsyncSend(call.message.json);
      phase := Sending(call);
    }

    /** The call is over: the one `next()` that every call makes. It invokes no handler. */
    method NextCall()
      requires connection.Valid() && connection.WriterView() == IdleWriter()
      requires callStrand.Valid() && callStrand.executing && |callStrand.started| == callStrand.nexts + 1
      requires callStrand as object != connection.writeStrand as object
      modifies this`phase, callStrand, connection`unsent, connection`framed, connection.writeStrand
      ensures Running() && ClientTurn(View(), if phase.Sending? then Some(phase.call) else None) == Continued(Nexted(old(callStrand.View())), Idle)
      ensures connection.WriterView() == match Continued<PendingCall>(Nexted(old(callStrand.View())), Idle).send
                                         case Some(started) => Sent(connection.codec, IdleWriter(), started.message.json)
                                         case None => IdleWriter()
      ensures callStrand.pushed == old(callStrand.pushed) && callStrand.nexts == old(callStrand.nexts) + 1
      ensures old(callStrand.started) <= callStrand.started
    {
      phase := Idle;
      var run := callStrand.Next();
      if run.Some? {
        StartCall(run.value);
      }
    }

    /** The handler of the call with number `n` is invoked. */
    method Tell(ghost n: nat, call: PendingCall, news: News, continues: bool)
      requires CompletedUpTo(n) && n < |callStrand.started| && callStrand.started[n] == call
      modifies this`handled
      ensures handled == old(handled) + [Handled(call.handler, news, continues)]
      ensures CompletedUpTo(if continues then n else n + 1)
    {
      CompletedStep(handled, Handled(call.handler, news, continues));
      handled := handled + [Handled(call.handler, news, continues)];
      assert callStrand.started[..n + 1] == callStrand.started[..n] + [call];
    }

    /** The socket took bytes of the request; the last of them ends the send. */
    method OnWritten(n: nat)
      requires Valid() && 0 < n <= |connection.unsent|
      modifies this`phase, this`handled, callStrand, connection`unsent, connection`outgoing, connection`framed, connection.writeStrand
      ensures Valid() && callStrand.pushed == old(callStrand.pushed)
      ensures handled == old(handled) + if n == |old(connection.unsent)| && old(phase).call.message.mode.Oneway?
                                        then [Handled(old(phase).call.handler, RequestWritten, false)] else []
      ensures connection.outgoing == old(connection.outgoing) + old(connection.unsent)[..n]
      ensures n < |old(connection.unsent)| ==> View() == old(View())
      ensures n == |old(connection.unsent)| ==> View() == RequestSent(old(View()), old(phase).call.message.mode).client
    {
      hide Sent, Completed, Handlers;
      var done := connection.OnWritten(n);
      if done {
        if phase.call.message.mode.Oneway? {
          EndCall(RequestWritten);
        } else {
          phase := Awaiting(phase.call);
        }
      }
    }

    /** The call ends with its send: the next one starts, and then the handler is told. */
    method EndCall(news: News)
      requires RequestDone() && connection.WriterView() == IdleWriter()
      modifies this`phase, this`handled, callStrand, connection`unsent, connection`framed, connection.writeStrand
      ensures Valid() && callStrand.pushed == old(callStrand.pushed)
      ensures View() == Continued(Nexted(old(callStrand.View())), Idle).client
      ensures handled == old(handled) + [Handled(old(phase).call.handler, news, false)]
    {
      hide Sent, Completed, Handlers;
      var call := phase.call;
      ghost var n, started := callStrand.nexts, callStrand.started;
      NextCall();
      assert callStrand.started[..n] == started[..n] && callStrand.started[n] == started[n];
      Tell(n, call, news, false);
    }

    /** A call is current whose request is not with the writer any more. */
    ghost predicate RequestDone()
      reads this, connection, connection.writeStrand, callStrand
    {
      && callStrand as object != connection.writeStrand as object
      && connection.Valid() && callStrand.Valid() && callStrand.executing
      && |callStrand.started| == callStrand.nexts + 1
      && !phase.Idle? && phase.call == callStrand.started[callStrand.nexts]
      && CompletedUpTo(callStrand.nexts)
    }

    /** Writing the request failed: the next call is due, and the handler is told. */
    method OnSendFailed()
      requires Valid() && phase.Sending?
      modifies this`phase, this`handled, callStrand, connection`unsent, connection`framed, connection`broken, connection.writeStrand
      ensures Valid() && callStrand.pushed == old(callStrand.pushed)
      ensures View() == Continued(Nexted(old(callStrand.View())), Idle).client
      ensures handled == old(handled) + [Handled(old(phase).call.handler, SendFailed, false)]
    {
      connection.OnWriteFailed();
      EndCall(SendFailed);
    }

    /** A receive completed: the handler runs, and either the next reply or the next call is due. */
    method OnReceived(r: Received<Json>)
      requires Valid() && phase.Awaiting?
      modifies this`phase, this`handled, callStrand, connection`unsent, connection`framed, connection.writeStrand
      ensures Valid() && callStrand.pushed == old(callStrand.pushed)
      ensures var call := old(phase).call;
              var reply := if r.Message? then r.m else Null;
              && View() == ReplyReceived(old(View()), call.message.mode, !r.Message?, reply).client
              && handled == old(handled) + [Handled(call.handler, Incoming(r), GoesOn(call.message.mode, !r.Message?, reply))]
    {
      hide Sent, Completed, Handlers;
      var call := phase.call;
      var reply := if r.Message? then r.m else Null;
      var failed := !r.Message? || SetsErrorCode(reply);
      var continues := call.message.mode.More? && !failed && ReplyContinues(reply);
      ghost var n, started := callStrand.nexts, callStrand.started;
      Tell(n, call, Incoming(r), continues);
      if !continues {
        NextCall();
        assert callStrand.started[..n + 1] == started[..n + 1];
      }
    }
  }
}
