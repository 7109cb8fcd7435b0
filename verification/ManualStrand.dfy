/**
 The strand that runs one job at a time until the job's owner calls `next()`
 (include/varlink/detail/manual_strand.hpp).

 `execute` calls the job it takes from the queue as its very last action, so the model's
 methods return that job to the caller, who runs it.
 */
module ManualStrands {
  import opened Wrappers

  // ----- The strand as a value -----

  datatype Strand<T> = Strand(queue: seq<T>, executing: bool)

  /** A new state, and the job that starts to run, if one does. */
  datatype Turn<T> = Turn(strand: Strand<T>, run: Option<T>)

  function Executed<T>(queue: seq<T>): Turn<T> {
    if queue == [] then Turn(Strand([], false), None)
    else Turn(Strand(queue[1..], true), Some(queue[0]))
  }

  function Pushed<T>(s: Strand<T>, job: T): Turn<T> {
    if s.executing then Turn(Strand(s.queue + [job], true), None) else Executed(s.queue + [job])
  }

  function Nexted<T>(s: Strand<T>): Turn<T> {
    Executed(s.queue)
  }

  // ----- Runs -----

  datatype Op<T> = Push(job: T) | Next

  /** The state after a run of calls, with the jobs pushed and started and the `next()` calls. */
  datatype History<T> = History(strand: Strand<T>, pushed: seq<T>, started: seq<T>, nexts: nat)

  function Begun<T>(): History<T> {
    History(Strand([], false), [], [], 0)
  }

  function Started<T>(turn: Turn<T>): seq<T> {
    match turn.run
    case Some(job) => [job]
    case None => []
  }

  function ApplyOp<T>(h: History<T>, op: Op<T>): History<T> {
    match op
    case Push(job) =>
      var turn := Pushed(h.strand, job);
      History(turn.strand, h.pushed + [job], h.started + Started(turn), h.nexts)
    case Next =>
      var turn := Nexted(h.strand);
      History(turn.strand, h.pushed, h.started + Started(turn), h.nexts + 1)
  }

  function RunOps<T>(ops: seq<Op<T>>): History<T> {
    if ops == [] then Begun() else ApplyOp(RunOps(ops[..|ops| - 1]), ops[|ops| - 1])
  }

  /** First in, first out, each job once; and an idle strand has nothing queued. */
  predicate InOrder<T(==)>(h: History<T>) {
    && h.started + h.strand.queue == h.pushed
    && (!h.strand.executing ==> h.strand.queue == [])
  }

  /** Every `next()` is for a job that was started before and had none yet. */
  ghost predicate OneNextEach<T(!new)>(ops: seq<Op<T>>) {
    forall k | 0 <= k <= |ops| :: RunOps(ops[..k]).nexts <= |RunOps(ops[..k]).started|
  }

  lemma {:induction false} RunsAreInOrder<T(!new)>(ops: seq<Op<T>>)
    ensures InOrder(RunOps(ops))
  {
    if ops != [] {
      RunsAreInOrder(ops[..|ops| - 1]);
    }
  }

  /** At most one job is unfinished, and the strand is executing exactly while one is. */
  lemma {:induction false} OneJobAtATime<T(!new)>(ops: seq<Op<T>>)
    requires OneNextEach(ops)
    ensures var h := RunOps(ops); |h.started| == h.nexts + if h.strand.executing then 1 else 0
  {
    if ops != [] {
      var before := ops[..|ops| - 1];
      forall k | 0 <= k <= |before| ensures RunOps(before[..k]).nexts <= |RunOps(before[..k]).started| {
        assert before[..k] == ops[..k];
      }
      OneJobAtATime(before);
      RunsAreInOrder(before);
      assert ops[..|ops|] == ops;
    }
  }

  // ----- The class -----

  class ManualStrand<T> {
    var queue: seq<T>
    var executing: bool

    /** What was pushed, what was started, and the number of `next()` calls so far. */
    ghost var pushed: seq<T>
    ghost var started: seq<T>
    ghost var nexts: nat

    ghost predicate Valid()
      reads this
    {
      && started + queue == pushed
      && (!executing ==> queue == [])
    }

    function View(): Strand<T>
      reads this
    {
      Strand(queue, executing)
    }

    constructor ()
      ensures Valid() && View() == Strand([], false) && pushed == started == [] && nexts == 0
    {
      queue, executing, pushed, started, nexts := [], false, [], [], 0;
    }

    method Push(job: T) returns (run: Option<T>)
      requires Valid()
      modifies this
      ensures Valid() && Turn(View(), run) == Pushed(old(View()), job)
      ensures pushed == old(pushed) + [job] && nexts == old(nexts)
      ensures started == old(started) + Started(Turn(View(), run))
    {
      queue := queue + [job];
      pushed := pushed + [job];
      run := None;
      if !executing {
        executing := true;
        run := Execute();
      }
    }

    method Next() returns (run: Option<T>)
      requires Valid()
      modifies this
      ensures Valid() && Turn(View(), run) == Nexted(old(View()))
      ensures pushed == old(pushed) && nexts == old(nexts) + 1
      ensures started == old(started) + Started(Turn(View(), run))
    {
      nexts := nexts + 1;
      run := Execute();
    }

    method Execute() returns (run: Option<T>)
      requires started + queue == pushed && (queue != [] ==> executing)
      modifies this`queue, this`executing, this`started
      ensures Valid() && Turn(View(), run) == Executed(old(queue))
      ensures started == old(started) + Started(Turn(View(), run))
    {
      if queue == [] {
        executing := false;
        return None;
      }
      var job := queue[0];
      queue := queue[1..];
      started := started + [job];
      run := Some(job);
    }
  }

  // ----- Jobs that call back into the strand -----

  /** A job that pushes other jobs and calls `next()` while it runs. */
  datatype Job = Job(script: seq<Action>)

  datatype Action = PushJob(job: Job) | CallNext

  /** Exactly one `next()` in the script, and so in every job it pushes. */
  predicate Disciplined(job: Job) {
    Nexts(job.script) == 1 && forall a | a in job.script && a.PushJob? :: Disciplined(a.job)
  }

  predicate PushesDisciplined(script: seq<Action>) {
    forall a | a in script && a.PushJob? :: Disciplined(a.job)
  }

  function Nexts(script: seq<Action>): nat {
    if script == [] then 0 else (if script[0].CallNext? then 1 else 0) + Nexts(script[1..])
  }

  function Weight(job: Job): nat
    decreases job, 1
  {
    1 + ScriptWeight(job.script)
  }

  function ScriptWeight(script: seq<Action>): nat
    decreases script
  {
    if script == [] then 0 else 1 + ActionWeight(script[0]) + ScriptWeight(script[1..])
  }

  function ActionWeight(action: Action): nat
    decreases action
  {
    match action
    case PushJob(job) => Weight(job)
    case CallNext => 0
  }

  function QueueWeight(queue: seq<Job>): nat {
    if queue == [] then 0 else Weight(queue[0]) + QueueWeight(queue[1..])
  }

  lemma {:induction false} QueueGrows(queue: seq<Job>, job: Job)
    ensures QueueWeight(queue + [job]) == QueueWeight(queue) + Weight(job)
  {
    if queue == [] {
      assert queue + [job] == [job];
    } else {
      assert (queue + [job])[1..] == queue[1..] + [job];
      QueueGrows(queue[1..], job);
    }
  }

  /**
   Runs the rest of a job's script, with every nested job run inside the call that starts
   it, as the C++ code does. When each job calls `next()` exactly once, all of this ends with
   an idle strand on which every pushed job was started in push order and finished.
   */
  method RunScript(strand: ManualStrand<Job>, script: seq<Action>)
    requires strand.Valid() && PushesDisciplined(script) && forall j | j in strand.queue :: Disciplined(j)
    requires Nexts(script) == if strand.executing then 1 else 0
    requires |strand.started| == strand.nexts + Nexts(script)
    modifies strand
    ensures strand.Valid() && !strand.executing && strand.queue == []
    ensures strand.started == strand.pushed && |strand.started| == strand.nexts
    ensures old(strand.pushed) <= strand.pushed
    decreases QueueWeight(strand.queue) + ScriptWeight(script)
  {
    if script == [] {
      return;
    }
    var action := script[0];
    assert action in script;
    ghost var queue := strand.queue;
    var run;
    match action {
      case PushJob(job) =>
        QueueGrows(queue, job);
        run := strand.Push(job);
        assert run.Some? ==> run == Some(job) && strand.queue == [];
      case CallNext =>
        run := strand.Next();
        assert run.Some? ==> run == Some(queue[0]) && strand.queue == queue[1..];
    }
    assert run.Some? ==> Disciplined(run.value);
    assert ScriptWeight(script) == 1 + ActionWeight(action) + ScriptWeight(script[1..]);
    assert run.Some? ==> Weight(run.value) == 1 + ScriptWeight(run.value.script);
    assert QueueWeight(strand.queue) + (if run.Some? then Weight(run.value) else 0) <= QueueWeight(queue) + ActionWeight(action);
    if run.Some? {
      RunScript(strand, run.value.script);
    }
    RunScript(strand, script[1..]);
  }
}
