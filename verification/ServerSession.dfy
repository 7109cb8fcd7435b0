/**
 A server session (include/varlink/server_session.hpp): it reads a request, hands it to the
 service, sends the replies, and reads again when a reply does not continue.
 */
module ServerSessions {
  import opened Wrappers
  import opened JsonValues
  import opened Messages
  import opened ManualStrands
  import opened Transport
  import opened JsonConnections

  // ----- The session as a value -----

  /** Reading a request; sending replies, of which `sent` are out; or not reading any more. */
  datatype Session = Reading | Replying(sent: nat) | Closed

  /** Only a well-formed message reaches the service; anything else ends the session. */
  function AfterRequest(received: Option<Json>): Session {
    if received.Some? && FromJson(received.value).Ok? then Replying(0) else Closed
  }

  /** Objects are sent; a reply that does not continue makes the session read again. */
  function AfterReply(s: Session, reply: Json): Session
    requires s.Replying?
  {
    if ReplyContinues(reply) then Replying(s.sent + 1) else Reading
  }

  // ----- The class -----

  function Concat(groups: seq<seq<Json>>): seq<Json> {
    if groups == [] then [] else Concat(groups[..|groups| - 1]) + groups[|groups| - 1]
  }

  lemma ConcatGrows(groups: seq<seq<Json>>, reply: Json)
    requires groups != []
    ensures var last := |groups| - 1;
            Concat(groups[last := groups[last] + [reply]]) == Concat(groups) + [reply]
  {
    var last := |groups| - 1;
    var more := groups[last := groups[last] + [reply]];
    assert more[..last] == groups[..last];
    assert Concat(groups[..last]) + (groups[last] + [reply]) == (Concat(groups[..last]) + groups[last]) + [reply];
  }

  class ServerSession {
    const connection: JsonConnection<Json>
    /** Receives that were issued and have not completed. */
    var receives: nat
    var sendFailed: bool

    /** The requests handed to the service, with the replies to each that were sent so far. */
    ghost var requests: seq<Message>
    ghost var groups: seq<seq<Json>>
    /** The service is still working on the last request, and has sent `replied` replies. */
    ghost var open: bool
    ghost var replied: nat
    /** A callback has used its reply function again after its final reply. */
    ghost var overrun: bool

    ghost predicate Valid()
      reads this, connection, connection.writeStrand
    {
      && connection.Valid()
      && |groups| == |requests|
      && (open ==> requests != [] && replied == |groups[|groups| - 1]|)
      // The write queue gets whole groups in request order, and then the open one.
      && (!overrun ==> connection.writeStrand.pushed == Concat(groups))
      // One receive or one open group, never both: no request is read while replies are due.
      && (!overrun ==> receives + (if open then 1 else 0) <= 1)
    }

    ghost function View(): Session
      reads this
    {
      if open then Replying(replied) else if receives > 0 then Reading else Closed
    }

    constructor (codec: Codec<Json>, capacity: nat)
      ensures Valid() && receives == 0 && !open && !sendFailed && !overrun && requests == [] && groups == []
      ensures connection.codec == codec && fresh(connection) && fresh(connection.writeStrand)
    {
      connection := new JsonConnection(codec, capacity);
      receives, sendFailed, requests, groups, open, replied, overrun := 0, false, [], [], false, 0, false;
    }

    /** Issues the next receive. */
    method Start()
      requires Valid() && (overrun || (receives == 0 && !open))
      modifies this`receives
      ensures Valid() && receives == old(receives) + 1
    {
      receives := receives + 1;
    }

    /** A receive completed; only a well-formed message reaches the service. */
    method OnReceived(r: Received<Json>) returns (call: Option<Message>)
      requires Valid() && receives > 0
      modifies this`receives, this`requests, this`groups, this`open, this`replied
      ensures Valid() && receives == old(receives) - 1
      ensures !overrun ==> View() == AfterRequest(if r.Message? then Some(r.m) else None)
      ensures call == if r.Message? && FromJson(r.m).Ok? then Some(FromJson(r.m).value) else None
      ensures match call
              case Some(message) => open && replied == 0 && requests == old(requests) + [message] && groups == old(groups) + [[]]
              case None => open == old(open) && requests == old(requests) && groups == old(groups)
    {
      receives := receives - 1;
      call := None;
      if r.Message? {
        var message := FromJson(r.m);
        if message.Ok? {
          call := Some(message.value);
          requests, groups, open, replied := requests + [message.value], groups + [[]], true, 0;
          assert groups[..|groups| - 1] == old(groups);
        }
      }
    }

    /**
     The reply function given to the service. After the final reply of a group it sends all
     the same, and receives once more: the session then reads while replies are due. `null`
     stands for the answer to a oneway call.
     */
    method SendReply(reply: Json) returns (failed: bool)
      requires Valid()
      modifies this`receives, this`groups, this`open, this`replied, this`overrun, connection`unsent, connection`framed, connection.writeStrand
      ensures Valid() && failed == sendFailed
      ensures failed ==> groups == old(groups) && receives == old(receives) && View() == old(View()) && overrun == old(overrun)
      ensures !failed ==>
                && overrun == (old(overrun) || !old(open))
                && receives == old(receives) + (if ReplyContinues(reply) then 0 else 1)
                && connection.WriterView() == if reply.Object? then Sent(connection.codec, old(connection.WriterView()), reply)
                                              else old(connection.WriterView())
      ensures !failed && !old(open) ==> groups == old(groups) && !open
      ensures !failed && old(open) ==>
                && View() == AfterReply(old(View()), reply)
                && var last := |groups| - 1;
                   groups == old(groups)[last := old(groups)[last] + if reply.Object? then [reply] else []]
    {
      hide Concat, Sent, Get;
      if sendFailed {
        return true;
      }
      if !open {
        overrun := true;
      }
      if reply.Object? {
        AsyncSendReply(reply);
      } else if open {
        assert groups[|groups| - 1] + [] == groups[|groups| - 1];
      }
      if !ReplyContinues(reply) {
        open := false;
        Start();
      }
      failed := false;
    }

    method AsyncSendReply(reply: Json)
      requires Valid() && (open || overrun)
      modifies this`groups, this`replied, connection`unsent, connection`framed, connection.writeStrand
      ensures Valid()
      ensures connection.WriterView() == Sent(connection.codec, old(connection.WriterView()), reply)
      ensures !open ==> groups == old(groups)
      ensures open ==> replied == old(replied) + 1
                       && var last := |groups| - 1;
                          groups == old(groups)[last := old(groups)[last] + [reply]]
    {
      hide Concat;
      connection.AsyncSend(reply);
      if open {
        ConcatGrows(groups, reply);
        groups := groups[|groups| - 1 := groups[|groups| - 1] + [reply]];
        replied := replied + 1;
      }
    }

    /** A write failed: nothing is sent from now on but what is already queued. */
    method OnWriteFailed()
      requires Valid() && connection.unsent != ""
      modifies this`sendFailed, connection`unsent, connection`framed, connection`broken, connection.writeStrand
      ensures Valid() && sendFailed && View() == old(View())
      ensures connection.WriterView() == Begin(connection.codec, Nexted(old(connection.writeStrand.View())), "")
    {
      connection.OnWriteFailed();
      sendFailed := true;
    }

    /** The socket took bytes of a reply. */
    method OnWritten(n: nat)
      requires Valid() && 0 < n <= |connection.unsent|
      modifies connection`unsent, connection`outgoing, connection`framed, connection.writeStrand
      ensures Valid() && connection.WriterView() == Wrote(connection.codec, old(connection.WriterView()), n)
      ensures connection.outgoing == old(connection.outgoing) + old(connection.unsent)[..n]
    {
      var _ := connection.OnWritten(n);
    }
  }
}
