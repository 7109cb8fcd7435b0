/** Which handler gets which reply. */
module Pairing {
  import opened JsonValues
  import opened Messages
  import opened Transport
  import opened Protocol

  /** What the handler of call `i` got, out of a sequence of replies. */
  function For(rs: seq<Reply>, i: nat): seq<Json> {
    if rs == [] then []
    else
      var last := rs[|rs| - 1];
      For(rs[..|rs| - 1], i) + if last.call == i then [last.json] else []
  }

  lemma {:induction false} ForAppend(rs: seq<Reply>, rs': seq<Reply>, i: nat)
    ensures For(rs + rs', i) == For(rs, i) + For(rs', i)
  {
    if rs' == [] {
      assert rs + rs' == rs;
    } else {
      assert (rs + rs')[..|rs + rs'| - 1] == rs + rs'[..|rs'| - 1];
      ForAppend(rs, rs'[..|rs'| - 1], i);
    }
  }

  lemma ForPrefix(rs: seq<Reply>, rs': seq<Reply>, i: nat)
    requires rs <= rs'
    ensures For(rs, i) <= For(rs', i)
  {
    assert rs' == rs + rs'[|rs|..];
    ForAppend(rs, rs'[|rs|..], i);
  }

  lemma {:induction false} ForTagged(j: nat, group: seq<Json>, i: nat)
    ensures For(Tagged(j, group), i) == if i == j then group else []
  {
    if group != [] {
      var n := |group| - 1;
      assert Tagged(j, group)[..n] == Tagged(j, group[..n]);
      ForTagged(j, group[..n], i);
      assert group == group[..n] + [group[n]];
    }
  }

  lemma ForNothing(i: nat)
    ensures For([], i) == []
  {
  }

  lemma {:induction false} ForStream(w: Work, n: nat, i: nat)
    requires n <= |w.plan|
    ensures For(Stream(w, n), i) == if i < n then Answers(w, i) else []
  {
    hide For, Tagged, Answers;
    if n == 0 {
      ForNothing(i);
    } else {
      ForStream(w, n - 1, i);
      ForAppend(Stream(w, n - 1), Tagged(n - 1, Answers(w, n - 1)), i);
      ForTagged(n - 1, Answers(w, n - 1), i);
    }
  }

  /** A reply to a oneway call is among those that were taken off the connection. */
  predicate OnewayReplyDelivered(w: Work, s: System)
    requires |s.received| <= |s.emitted|
  {
    exists d :: 0 <= d < |s.received| && IsOneway(w, s.emitted[d].call)
  }

  lemma BeforeFirstAnswered(w: Work, b: nat, n: nat, d: nat)
    requires n <= |w.calls| == |w.plan| && b == FirstAnsweredOneway(w, n) && d < |Stream(w, b)|
    ensures !IsOneway(w, Stream(w, b)[d].call)
  {
    StreamCalls(w, b, d);
  }

  lemma FirstAnsweredReply(w: Work, b: nat, n: nat)
    requires b < n <= |w.plan| && Answers(w, b) != []
    ensures |Stream(w, b)| < |Stream(w, n)| && Stream(w, n)[|Stream(w, b)|].call == b
  {
    GroupEnd(w, b);
    StreamAt(w, b, n, |Stream(w, b)|);
  }

  /**
   In every reachable state, each reply went to the handler of the call that it answers, in
   order and without gaps, exactly if no reply to a oneway call was taken off the connection.
   */
  lemma PairedIffNoOnewayReply(w: Work, steps: seq<Step>)
    requires Proper(w) && Run(w, steps).Some?
    ensures var s := Run(w, steps).value;
            && |s.received| <= |s.emitted|
            && (s.received <= s.emitted <==> !OnewayReplyDelivered(w, s))
  {
    hide Faithful, FromJson, WellBehaved, Carries, Stream, FirstAnsweredOneway, Run;
    var s := Run(w, steps).value;
    RunsKeepInv(w, steps);
    EmittedInStream(w, s);
    var n := StartedCalls(s);
    var b := FirstAnsweredOneway(w, n);
    if |s.received| <= |Stream(w, b)| {
      StreamGrows(w, b, n);
      assert s.received == Stream(w, n)[..|s.received|];
      assert s.emitted == Stream(w, n)[..|s.emitted|];
      forall d | 0 <= d < |s.received| ensures !IsOneway(w, s.emitted[d].call) {
        BeforeFirstAnswered(w, b, n, d);
        assert s.emitted[d] == Stream(w, b)[d];
      }
    } else {
      assert b < n;
      var d := |Stream(w, b)|;
      FirstAnsweredReply(w, b, n);
      assert s.emitted[d] == Stream(w, n)[d];
      assert IsOneway(w, s.emitted[d].call) && !IsOneway(w, s.received[d].call);
      assert s.received[d] != s.emitted[d];
    }
  }

  /** No oneway call fails, so none gets a reply over the connection. */
  ghost predicate NoOnewayFails(w: Work)
    requires |w.plan| == |w.calls|
  {
    forall i | 0 <= i < |w.calls| && IsOneway(w, i) :: Answers(w, i) == []
  }

  /**
   End to end: when no oneway call fails, the handler of every call has received a prefix of
   the reply group produced for that call and nothing else; and for every call that is over
   it has received the whole group.
   */
  lemma HandlersGetTheirGroups(w: Work, steps: seq<Step>, i: nat)
    requires Proper(w) && NoOnewayFails(w) && Run(w, steps).Some? && i < |w.calls|
    ensures var s := Run(w, steps).value;
            && For(s.received, i) <= For(s.emitted, i) <= Answers(w, i)
            && (i < StartedCalls(s) && (s.client.phase.Idle? || i != s.client.phase.call) ==> For(s.received, i) == Answers(w, i))
  {
    hide Faithful, FromJson, WellBehaved, Carries, Stream, FirstAnsweredOneway, Run;
    var s := Run(w, steps).value;
    var n := StartedCalls(s);
    RunsKeepInv(w, steps);
    EmittedInStream(w, s);
    assert FirstAnsweredOneway(w, n) == n;
    assert s.received <= s.emitted by {
      assert s.received == Stream(w, n)[..|s.received|] && s.emitted == Stream(w, n)[..|s.emitted|];
    }
    ForPrefix(s.received, s.emitted, i);
    ForPrefix(s.emitted, Stream(w, n), i);
    ForStream(w, n, i);
    if i < n && (s.client.phase.Idle? || i != s.client.phase.call) {
      var m := if s.client.phase.Idle? then n else n - 1;
      StreamGrows(w, m, n);
      assert Stream(w, m) <= s.received;
      ForPrefix(Stream(w, m), s.received, i);
      ForStream(w, m, i);
    }
  }
}
