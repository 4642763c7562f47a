/**
  The bounded persistence queue and its worker loop.  Producers push, evict or close under a mutex;
  the worker takes a semaphore permit and pops in two separate steps, so that any producer step may
  fall between them.  Closing drops what is pending.
*/
module PersistenceQueue {
  import opened Wrappers
  import opened QueueHistory

  datatype Request<M> = Request(key: string, metadata: M)

  datatype Stats = Stats(enqueued: nat, evicted: nat, persisted: nat, failed: nat, retryExhausted: nat, staleDropped: nat)

  datatype Queue<M> = Queue(core: Bounded<Request<M>>, stats: Stats)

  datatype EnqueueResult = EnqueueResult(accepted: bool, evictedOldestKey: Option<string>, queueLen: nat)

  datatype Outcome = Persisted | StaleDropped | FailedOutright

  // ---------------------------------------------------------------- operations on the queue value

  function Enqueued<M>(q: Queue<M>, x: Request<M>): Queue<M> {
    if q.core.closed then q
    else
      Queue(Push(q.core, x),
            q.stats.(enqueued := q.stats.enqueued + 1,
                     evicted := q.stats.evicted + if |q.core.pending| == q.core.capacity then 1 else 0))
  }

  function Closed<M>(q: Queue<M>): Queue<M> {
    if q.core.closed then q else q.(core := q.core.(closed := true, pending := [], permits := q.core.permits + 1))
  }

  function Noted(s: Stats, o: Outcome): Stats {
    match o
    case Persisted => s.(persisted := s.persisted + 1)
    case StaleDropped => s.(retryExhausted := s.retryExhausted + 1, staleDropped := s.staleDropped + 1)
    case FailedOutright => s.(failed := s.failed + 1)
  }

  /** The shared queue, updated in place under its mutex. */
  class SharedQueue<M> {
    const capacity: nat
    var pending: seq<Request<M>>
    var closed: bool
    var permits: nat
    var stats: Stats

    constructor (requested: nat)
      ensures View() == Queue(Bounded(if requested == 0 then 1 else requested, [], false, 0), Stats(0, 0, 0, 0, 0, 0))
    {
      capacity := if requested == 0 then 1 else requested;
      pending, closed, permits, stats := [], false, 0, Stats(0, 0, 0, 0, 0, 0);
    }

    ghost function View(): Queue<M>
      reads this
    {
      Queue(Core(), stats)
    }

    ghost function Core(): Bounded<Request<M>>
      reads this
    {
      Bounded(capacity, pending, closed, permits)
    }

    method Enqueue(x: Request<M>) returns (r: EnqueueResult)
      requires 0 < capacity
      modifies this
      ensures View() == Enqueued(old(View()), x)
      ensures r.accepted == !old(closed) && r.queueLen == |pending|
      ensures r.evictedOldestKey ==
              if !old(closed) && |old(pending)| == capacity then Some(old(pending)[0].key) else None
    {
      if closed {
        return EnqueueResult(false, None, |pending|);
      }
      var evicted: Option<string> := None;
      if |pending| == capacity {
        stats := stats.(evicted := stats.evicted + 1);
        evicted := Some(pending[0].key);
        pending := pending[1..];
      } else {
        stats := stats.(enqueued := stats.enqueued + 1);
        permits := permits + 1;
      }
      pending := pending + [x];
      if evicted.Some? {
        stats := stats.(enqueued := stats.enqueued + 1);
      }
      r := EnqueueResult(true, evicted, |pending|);
    }

    method Close() returns (dropped: nat)
      modifies this
      ensures View() == Closed(old(View()))
      ensures dropped == if old(closed) then 0 else |old(pending)|
    {
      if closed {
        return 0;
      }
      closed := true;
      dropped := |pending|;
      pending := [];
      permits := permits + 1;
    }

    /** `acquire` followed by `forget`, once a permit is free. */
    method AcquirePermit()
      requires 0 < permits
      modifies this`permits
      ensures Core() == TakePermit(old(Core())) && stats == old(stats)
    {
      permits := permits - 1;
    }

    method PopRequest() returns (r: Option<Request<M>>)
      modifies this`pending
      ensures Core() == WithoutOldest(old(Core())) && stats == old(stats)
      ensures r == if old(pending) == [] then None else Some(old(pending)[0])
    {
      if |pending| == 0 {
        return None;
      }
      r := Some(pending[0]);
      pending := pending[1..];
    }

    method IsClosed() returns (r: bool)
      ensures r <==> Drained(Core())
    {
      r := closed && |pending| == 0;
    }

    method NoteOutcome(o: Outcome)
      modifies this`stats
      ensures stats == Noted(old(stats), o)
    {
      match o
      case Persisted => stats := stats.(persisted := stats.persisted + 1);
      case StaleDropped =>
        stats := stats.(retryExhausted := stats.retryExhausted + 1);
        stats := stats.(staleDropped := stats.staleDropped + 1);
      case FailedOutright => stats := stats.(failed := stats.failed + 1);
    }
  }

  // ---------------------------------------------------------------- producers and the worker loop

  /** Where the worker loop stands. */
  datatype Pc<M> = Waiting | Holding | PoppedNone | Busy(request: Request<M>) | Stopped

  /** The queue, the worker, and four histories: requests accepted, requests that left the queue (in
      that order), requests finished, and requests dropped by close. */
  datatype State<M> = State(
    q: Queue<M>,
    pc: Pc<M>,
    accepted: seq<Request<M>>,
    left: seq<(Request<M>, Fate)>,
    finished: seq<(Request<M>, Outcome)>,
    dropped: seq<Request<M>>)

  datatype Step<M> = Enqueue(x: Request<M>) | Close | Acquire | Pop | Check | Finish(outcome: Outcome)

  ghost predicate Init<M>(s: State<M>) {
    && 0 < s.q.core.capacity && s.q == Queue(Bounded(s.q.core.capacity, [], false, 0), Stats(0, 0, 0, 0, 0, 0))
    && s == State(s.q, Waiting, [], [], [], [])
  }

  predicate WorkerStep<M>(step: Step<M>) {
    !step.Enqueue? && !step.Close?
  }

  predicate Enabled<M>(s: State<M>, step: Step<M>) {
    match step
    case Enqueue(x) => true
    case Close => true
    case Acquire => s.pc.Waiting? && 0 < s.q.core.permits
    case Pop => s.pc.Holding?
    case Check => s.pc.PoppedNone?
    case Finish(o) => s.pc.Busy?
  }

  function After<M>(s: State<M>, step: Step<M>): State<M>
    requires Enabled(s, step)
  {
    match step
    case Enqueue(x) =>
      s.(q := Enqueued(s.q, x), accepted := if s.q.core.closed then s.accepted else s.accepted + [x],
         left := if !s.q.core.closed && |s.q.core.pending| == s.q.core.capacity && s.q.core.pending != [] then s.left + [(s.q.core.pending[0], Evicted)]
                 else s.left)
    case Close => s.(q := Closed(s.q), dropped := s.dropped + if s.q.core.closed then [] else s.q.core.pending)
    case Acquire => s.(q := s.q.(core := TakePermit(s.q.core)), pc := Holding)
    case Pop =>
      if s.q.core.pending == [] then s.(pc := PoppedNone)
      else s.(q := s.q.(core := WithoutOldest(s.q.core)), pc := Busy(s.q.core.pending[0]), left := s.left + [(s.q.core.pending[0], Taken)])
    case Check => s.(pc := if Drained(s.q.core) then Stopped else Waiting)
    case Finish(o) =>
      s.(q := s.q.(stats := Noted(s.q.stats, o)), pc := Waiting, finished := s.finished + [(s.pc.request, o)])
  }

  ghost predicate IsRun<M(!new)>(run: seq<State<M>>, steps: seq<Step<M>>) {
    && |run| == |steps| + 1
    && Init(run[0])
    && (forall i :: 0 <= i < |steps| ==> StepAt(run, steps, i))
  }

  ghost predicate StepAt<M>(run: seq<State<M>>, steps: seq<Step<M>>, i: nat)
    requires |run| == |steps| + 1 && i < |steps|
  {
    Enabled(run[i], steps[i]) && run[i + 1] == After(run[i], steps[i])
  }

  // ---------------------------------------------------------------- views of the histories

  function InFlight<M>(pc: Pc<M>): seq<Request<M>> {
    if pc.Busy? then [pc.request] else []
  }

  function CountOutcome<M>(h: seq<(Request<M>, Outcome)>, o: Outcome): nat {
    if h == [] then 0 else CountOutcome(h[..|h| - 1], o) + if h[|h| - 1].1 == o then 1 else 0
  }

  lemma CountAppend<M>(h: seq<(Request<M>, Outcome)>, e: (Request<M>, Outcome), o: Outcome)
    ensures CountOutcome(h + [e], o) == CountOutcome(h, o) + if e.1 == o then 1 else 0
  {
    assert (h + [e])[..|h|] == h;
  }

  lemma {:induction false} CountsCover<M>(h: seq<(Request<M>, Outcome)>)
    ensures |h| == CountOutcome(h, Persisted) + CountOutcome(h, StaleDropped) + CountOutcome(h, FailedOutright)
  {
    if h != [] {
      CountsCover(h[..|h| - 1]);
    }
  }

  // ---------------------------------------------------------------- the invariant

  function Held<M>(pc: Pc<M>): nat {
    if pc.Holding? then 1 else 0
  }

  ghost predicate PermitsOk<M>(s: State<M>) {
    && 0 < s.q.core.capacity && |s.q.core.pending| <= s.q.core.capacity
    && (!s.q.core.closed ==> s.q.core.permits + Held(s.pc) == |s.q.core.pending|)
    && (s.q.core.closed ==> s.q.core.pending == [] && (s.pc.Waiting? || s.pc.Busy? ==> 0 < s.q.core.permits))
    && (s.pc.PoppedNone? || s.pc.Stopped? ==> s.q.core.closed)
  }

  ghost predicate HistoryOk<M>(s: State<M>) {
    && s.accepted == Items(s.left) + s.q.core.pending + s.dropped
    && (!s.q.core.closed ==> s.dropped == [])
    && TakenItems(s.left) == Items(s.finished) + InFlight(s.pc)
  }

  ghost predicate StatsOk<M>(s: State<M>) {
    && s.q.stats.enqueued == |s.accepted|
    && s.q.stats.evicted + |TakenItems(s.left)| == |s.left|
    && s.q.stats.persisted == CountOutcome(s.finished, Persisted)
    && s.q.stats.failed == CountOutcome(s.finished, FailedOutright)
    && s.q.stats.staleDropped == s.q.stats.retryExhausted == CountOutcome(s.finished, StaleDropped)
  }

  lemma EnqueueKeepsHistory<M>(s: State<M>, x: Request<M>)
    requires PermitsOk(s) && HistoryOk(s) && StatsOk(s) && !s.q.core.closed
    ensures HistoryOk(After(s, Enqueue(x))) && StatsOk(After(s, Enqueue(x)))
  {
    var t := After(s, Enqueue(x));
    if |s.q.core.pending| == s.q.core.capacity {
      HeadLeaves(s.left, s.q.core.pending, s.dropped, Evicted);
      assert Items(t.left) + s.q.core.pending[1..] + [x] == Items(t.left) + (s.q.core.pending[1..] + [x]);
    } else {
      assert Items(s.left) + s.q.core.pending + [x] == Items(s.left) + (s.q.core.pending + [x]);
    }
  }

  lemma FinishKeepsHistory<M>(s: State<M>, o: Outcome)
    requires PermitsOk(s) && HistoryOk(s) && StatsOk(s) && s.pc.Busy?
    ensures HistoryOk(After(s, Finish(o))) && StatsOk(After(s, Finish(o)))
  {
    var e := (s.pc.request, o);
    ItemsAppend(s.finished, e);
    CountAppend(s.finished, e, Persisted);
    CountAppend(s.finished, e, StaleDropped);
    CountAppend(s.finished, e, FailedOutright);
  }

  lemma StepKeepsPermits<M>(s: State<M>, step: Step<M>)
    requires PermitsOk(s) && Enabled(s, step)
    ensures PermitsOk(After(s, step))
  {
  }

  lemma StepKeepsHistory<M>(s: State<M>, step: Step<M>)
    requires PermitsOk(s) && HistoryOk(s) && StatsOk(s) && Enabled(s, step)
    ensures HistoryOk(After(s, step)) && StatsOk(After(s, step))
  {
    match step
    case Enqueue(x) =>
      if !s.q.core.closed {
        EnqueueKeepsHistory(s, x);
      }
    case Pop =>
      if s.q.core.pending != [] {
        HeadLeaves(s.left, s.q.core.pending, s.dropped, Taken);
      }
    case Finish(o) => FinishKeepsHistory(s, o);
    case _ =>
  }

  lemma {:induction false} InvHolds<M(!new)>(run: seq<State<M>>, steps: seq<Step<M>>, i: nat)
    requires IsRun(run, steps) && i < |run|
    ensures PermitsOk(run[i]) && HistoryOk(run[i]) && StatsOk(run[i])
  {
    if i > 0 {
      InvHolds(run, steps, i - 1);
      assert StepAt(run, steps, i - 1);
      StepKeepsPermits(run[i - 1], steps[i - 1]);
      StepKeepsHistory(run[i - 1], steps[i - 1]);
    }
  }

  // ---------------------------------------------------------------- no lost wakeup

  /** In every interleaving: while open, free and held permits together count the pending requests,
      so a waiting worker with work has a permit; a pop returns nothing only after close, so the
      `continue` branch is never taken; after close a waiting worker always has a permit. */
  lemma NoLostWakeup<M(!new)>(run: seq<State<M>>, steps: seq<Step<M>>, i: nat)
    requires IsRun(run, steps) && i < |run|
    ensures var s := run[i];
            && (!s.q.core.closed ==> s.q.core.permits + Held(s.pc) == |s.q.core.pending|)
            && (s.pc.Holding? && s.q.core.pending == [] ==> s.q.core.closed)
            && (s.pc.PoppedNone? ==> After(s, Check).pc.Stopped?)
            && (s.pc.Waiting? && (s.q.core.closed || s.q.core.pending != []) ==> Enabled(s, Acquire))
  {
    InvHolds(run, steps, i);
  }

  /** Worker steps left once the queue is closed. */
  function Rank<M>(pc: Pc<M>): nat {
    match pc
    case Busy(_) => 4
    case Waiting => 3
    case Holding => 2
    case PoppedNone => 1
    case Stopped => 0
  }

  function WorkerSteps<M>(steps: seq<Step<M>>): nat {
    if steps == [] then 0 else WorkerSteps(steps[..|steps| - 1]) + if WorkerStep(steps[|steps| - 1]) then 1 else 0
  }

  /** A worker of a closed queue can always move until it stops. */
  lemma NeverBlockedAfterClose<M(!new)>(run: seq<State<M>>, steps: seq<Step<M>>, i: nat)
    requires IsRun(run, steps) && i < |run| && run[i].q.core.closed && !run[i].pc.Stopped?
    ensures exists step :: WorkerStep(step) && Enabled(run[i], step)
  {
    InvHolds(run, steps, i);
    var step := match run[i].pc
      case Waiting => Acquire
      case Holding => Pop
      case PoppedNone => Check
      case _ => Finish(Persisted);
    assert WorkerStep(step) && Enabled(run[i], step);
  }

  lemma WorkerStepsNext<M>(steps: seq<Step<M>>, i: nat, j: nat)
    requires i < j <= |steps|
    ensures WorkerSteps(steps[i..j]) == WorkerSteps(steps[i..j - 1]) + if WorkerStep(steps[j - 1]) then 1 else 0
  {
    assert steps[i..j][..j - i - 1] == steps[i..j - 1];
  }

  lemma ClosedStepRanks<M>(s: State<M>, step: Step<M>)
    requires PermitsOk(s) && s.q.core.closed && Enabled(s, step)
    ensures var t := After(s, step);
            t.q.core.closed && (if WorkerStep(step) then 1 else 0) + Rank(t.pc) <= Rank(s.pc)
  {
  }

  lemma ClosedRunRanks<M(!new)>(run: seq<State<M>>, steps: seq<Step<M>>, i: nat)
    requires IsRun(run, steps) && i < |steps| && run[i].q.core.closed
    ensures run[i + 1].q.core.closed && (if WorkerStep(steps[i]) then 1 else 0) + Rank(run[i + 1].pc) <= Rank(run[i].pc)
  {
    InvHolds(run, steps, i);
    assert StepAt(run, steps, i);
    ClosedStepRanks(run[i], steps[i]);
  }

  /** After close the worker stops within four of its own steps, whatever producers do meanwhile. */
  lemma {:induction false} StopsAfterClose<M(!new)>(run: seq<State<M>>, steps: seq<Step<M>>, i: nat, j: nat)
    requires IsRun(run, steps) && i <= j < |run| && run[i].q.core.closed
    ensures run[j].q.core.closed && WorkerSteps(steps[i..j]) + Rank(run[j].pc) <= Rank(run[i].pc) <= 4
    decreases j
  {
    if i < j {
      StopsAfterClose(run, steps, i, j - 1);
      WorkerStepsNext(steps, i, j);
      ClosedRunRanks(run, steps, j - 1);
    }
  }

  /** What `is_closed` tells the worker: once closed and empty, the queue stays so, and no request is accepted,
      taken, evicted or dropped any more. */
  lemma {:induction false} DrainedForever<M(!new)>(run: seq<State<M>>, steps: seq<Step<M>>, i: nat, j: nat)
    requires IsRun(run, steps) && i <= j < |run| && Drained(run[i].q.core)
    ensures Drained(run[j].q.core) && run[j].accepted == run[i].accepted && run[j].left == run[i].left && run[j].dropped == run[i].dropped
    decreases j
  {
    if i < j {
      DrainedForever(run, steps, i, j - 1);
      assert StepAt(run, steps, j - 1);
    }
  }

  // ---------------------------------------------------------------- history and conservation

  /** Enqueuing on an open queue puts the request last, costs the oldest one its place only if `capacity` are pending, and
      changes nothing once the queue is closed. */
  lemma EnqueueEvictsWhenFull<M(!new)>(run: seq<State<M>>, steps: seq<Step<M>>, i: nat)
    requires IsRun(run, steps) && i < |steps| && steps[i].Enqueue?
    ensures var b, b' := run[i].q.core, run[i + 1].q.core;
            if b.closed then run[i + 1] == run[i]
            else if |b.pending| < b.capacity then b' == b.(pending := b.pending + [steps[i].x], permits := b.permits + 1)
            else |b.pending| == b.capacity > 0 && b' == b.(pending := b.pending[1..] + [steps[i].x])
  {
    InvHolds(run, steps, i);
    assert StepAt(run, steps, i);
  }

  /** While open, pending is exactly the newest part of the accepted history, at most `capacity`
      long; requests leave in the order they were accepted. */
  lemma PendingIsNewest<M(!new)>(run: seq<State<M>>, steps: seq<Step<M>>, i: nat)
    requires IsRun(run, steps) && i < |run| && !run[i].q.core.closed
    ensures var s := run[i];
            && |s.left| <= |s.accepted| && |s.q.core.pending| <= s.q.core.capacity
            && s.q.core.pending == s.accepted[|s.left|..] && Items(s.left) == s.accepted[..|s.left|]
  {
    InvHolds(run, steps, i);
    var s := run[i];
    assert s.accepted == Items(s.left) + s.q.core.pending;
  }

  /** Every accepted request is accounted for exactly once, in every state. */
  lemma Conservation<M(!new)>(run: seq<State<M>>, steps: seq<Step<M>>, i: nat)
    requires IsRun(run, steps) && i < |run|
    ensures var s, st := run[i], run[i].q.stats;
            && st.enqueued == st.evicted + |s.q.core.pending| + |InFlight(s.pc)| + st.persisted + st.failed + st.staleDropped + |s.dropped|
            && st.retryExhausted == st.staleDropped
            && (s.pc.Stopped? ==> st.enqueued == st.evicted + st.persisted + st.failed + st.staleDropped + |s.dropped|)
  {
    InvHolds(run, steps, i);
    var s := run[i];
    CountsCover(s.finished);
    assert |TakenItems(s.left)| == |s.finished| + |InFlight(s.pc)|;
    assert |s.accepted| == |s.left| + |s.q.core.pending| + |s.dropped|;
  }
}
