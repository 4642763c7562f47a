/**
  The bounded product queue and its processing loop.  It differs from the persistence queue on
  shutdown: closing keeps what is pending, and the loop's `select!` has a shutdown branch that
  closes the queue and then pops without holding a permit.
*/
module ProductQueue {
  import opened Wrappers
  import opened QueueHistory

  datatype Item<D> = Item(filename: string, data: D)

  datatype Queue<D> = Queue(core: Bounded<Item<D>>, enqueued: nat, evicted: nat, completed: nat, failed: nat)

  datatype EnqueueResult = EnqueueResult(accepted: bool, evictedOldestFilename: Option<string>, queueLen: nat)

  // ---------------------------------------------------------------- operations on the queue value

  function Enqueued<D>(q: Queue<D>, x: Item<D>): Queue<D> {
    if q.core.closed then q
    else
      q.(core := Push(q.core, x), enqueued := q.enqueued + 1,
         evicted := q.evicted + if |q.core.pending| == q.core.capacity then 1 else 0)
  }

  function Closed<D>(q: Queue<D>): Queue<D> {
    if q.core.closed then q else q.(core := q.core.(closed := true, permits := q.core.permits + 1))
  }

  /** The shared queue, updated in place. */
  class ProductProducer<D> {
    const capacity: nat
    var pending: seq<Item<D>>
    var closed: bool
    var permits: nat
    var enqueued: nat
    var evicted: nat
    var completed: nat
    var failed: nat

    constructor (requested: nat)
      ensures View() == Queue(Bounded(if requested == 0 then 1 else requested, [], false, 0), 0, 0, 0, 0)
    {
      capacity := if requested == 0 then 1 else requested;
      pending, closed, permits := [], false, 0;
      enqueued, evicted, completed, failed := 0, 0, 0, 0;
    }

    ghost function View(): Queue<D>
      reads this
    {
      Queue(Core(), enqueued, evicted, completed, failed)
    }

    ghost function Core(): Bounded<Item<D>>
      reads this
    {
      Bounded(capacity, pending, closed, permits)
    }

    method Enqueue(x: Item<D>) returns (r: EnqueueResult)
      requires 0 < capacity
      modifies this
      ensures View() == Enqueued(old(View()), x)
      ensures r.accepted == !old(closed) && r.queueLen == |pending|
      ensures r.evictedOldestFilename ==
              if !old(closed) && |old(pending)| == capacity then Some(old(pending)[0].filename) else None
    {
      if closed {
        return EnqueueResult(false, None, |pending|);
      }
      var oldest: Option<string> := None;
      if |pending| == capacity {
        evicted := evicted + 1;
        oldest := Some(pending[0].filename);
        pending := pending[1..];
      } else {
        permits := permits + 1;
      }
      enqueued := enqueued + 1;
      pending := pending + [x];
      r := EnqueueResult(true, oldest, |pending|);
    }

    method Close()
      modifies this
      ensures View() == Closed(old(View()))
    {
      if !closed {
        closed := true;
        permits := permits + 1;
      }
    }

    method Pop() returns (r: Option<Item<D>>)
      modifies this`pending
      ensures View() == old(View()).(core := WithoutOldest(old(Core())))
      ensures r == if old(pending) == [] then None else Some(old(pending)[0])
    {
      if |pending| == 0 {
        return None;
      }
      r := Some(pending[0]);
      pending := pending[1..];
    }

    method IsClosed() returns (r: bool)
      ensures r <==> Drained(Core())
    {
      r := closed && |pending| == 0;
    }
  }

  // ---------------------------------------------------------------- producers and the processing loop

  /** Where the loop stands; Popping remembers whether a permit was taken. */
  datatype Pc<D> = Selecting | Popping(permit: bool) | PoppedNone | Busy(item: Item<D>) | Stopped

  /** The queue, the loop, and three histories: items accepted, items that left the queue, items finished. */
  datatype State<D> = State(
    q: Queue<D>,
    pc: Pc<D>,
    accepted: seq<Item<D>>,
    left: seq<(Item<D>, Fate)>,
    finished: seq<(Item<D>, bool)>)

  datatype Step<D> = Enqueue(x: Item<D>) | Close | Shutdown | Acquire | Pop | Check | Finish(ok: bool)

  ghost predicate Init<D>(s: State<D>) {
    && 0 < s.q.core.capacity && s.q == Queue(Bounded(s.q.core.capacity, [], false, 0), 0, 0, 0, 0)
    && s == State(s.q, Selecting, [], [], [])
  }

  predicate LoopStep<D>(step: Step<D>) {
    !step.Enqueue? && !step.Close?
  }

  predicate Enabled<D>(s: State<D>, step: Step<D>) {
    match step
    case Enqueue(x) => true
    case Close => true
    case Shutdown => s.pc.Selecting?
    case Acquire => s.pc.Selecting? && 0 < s.q.core.permits
    case Pop => s.pc.Popping?
    case Check => s.pc.PoppedNone?
    case Finish(ok) => s.pc.Busy?
  }

  function After<D>(s: State<D>, step: Step<D>): State<D>
    requires Enabled(s, step)
  {
    match step
    case Enqueue(x) =>
      s.(q := Enqueued(s.q, x), accepted := if s.q.core.closed then s.accepted else s.accepted + [x],
         left := if !s.q.core.closed && |s.q.core.pending| == s.q.core.capacity && s.q.core.pending != [] then s.left + [(s.q.core.pending[0], Evicted)]
                 else s.left)
    case Close => s.(q := Closed(s.q))
    case Shutdown => s.(q := Closed(s.q), pc := Popping(false))
    case Acquire => s.(q := s.q.(core := TakePermit(s.q.core)), pc := Popping(true))
    case Pop =>
      if s.q.core.pending == [] then s.(pc := PoppedNone)
      else s.(q := s.q.(core := WithoutOldest(s.q.core)), pc := Busy(s.q.core.pending[0]), left := s.left + [(s.q.core.pending[0], Taken)])
    case Check => s.(pc := if Drained(s.q.core) then Stopped else Selecting)
    case Finish(ok) =>
      s.(q := if ok then s.q.(completed := s.q.completed + 1) else s.q.(failed := s.q.failed + 1),
         pc := Selecting, finished := s.finished + [(s.pc.item, ok)])
  }

  ghost predicate IsRun<D(!new)>(run: seq<State<D>>, steps: seq<Step<D>>) {
    && |run| == |steps| + 1
    && Init(run[0])
    && (forall i :: 0 <= i < |steps| ==> StepAt(run, steps, i))
  }

  ghost predicate StepAt<D>(run: seq<State<D>>, steps: seq<Step<D>>, i: nat)
    requires |run| == |steps| + 1 && i < |steps|
  {
    Enabled(run[i], steps[i]) && run[i + 1] == After(run[i], steps[i])
  }

  // ---------------------------------------------------------------- the invariant

  function Held<D>(pc: Pc<D>): nat {
    if pc.Popping? && pc.permit then 1 else 0
  }

  function InFlight<D>(pc: Pc<D>): seq<Item<D>> {
    if pc.Busy? then [pc.item] else []
  }

  /** How many items were finished without an error. */
  function Completed<D>(finished: seq<(Item<D>, bool)>): nat {
    if finished == [] then 0 else Completed(finished[..|finished| - 1]) + if finished[|finished| - 1].1 then 1 else 0
  }

  ghost predicate PermitsOk<D>(s: State<D>) {
    && 0 < s.q.core.capacity && |s.q.core.pending| <= s.q.core.capacity
    && (!s.q.core.closed ==> s.q.core.permits + Held(s.pc) == |s.q.core.pending| && s.pc != Popping(false))
    && (s.q.core.closed && !s.pc.PoppedNone? && !s.pc.Stopped? ==> s.q.core.permits + Held(s.pc) > |s.q.core.pending|)
    && (s.pc.PoppedNone? || s.pc.Stopped? ==> s.q.core.closed && s.q.core.pending == [])
  }

  ghost predicate HistoryOk<D>(s: State<D>) {
    && s.accepted == Items(s.left) + s.q.core.pending
    && TakenItems(s.left) == Items(s.finished) + InFlight(s.pc)
    && s.q.enqueued == |s.accepted|
    && s.q.evicted + |TakenItems(s.left)| == |s.left|
    && s.q.completed == Completed(s.finished) && s.q.completed + s.q.failed == |s.finished|
  }

  lemma StepKeepsPermits<D>(s: State<D>, step: Step<D>)
    requires PermitsOk(s) && Enabled(s, step)
    ensures PermitsOk(After(s, step))
  {
  }

  lemma StepKeepsHistory<D>(s: State<D>, step: Step<D>)
    requires PermitsOk(s) && HistoryOk(s) && Enabled(s, step)
    ensures HistoryOk(After(s, step))
  {
    match step
    case Enqueue(x) =>
      if !s.q.core.closed {
        EnqueueKeepsHistory(s, x);
      }
    case Pop =>
      if s.q.core.pending != [] {
        PopKeepsHistory(s);
      }
    case Finish(ok) =>
      ItemsAppend(s.finished, (s.pc.item, ok));
      assert (s.finished + [(s.pc.item, ok)])[..|s.finished|] == s.finished;
    case _ =>
  }

  lemma PopKeepsHistory<D>(s: State<D>)
    requires PermitsOk(s) && HistoryOk(s) && s.pc.Popping? && s.q.core.pending != []
    ensures HistoryOk(After(s, Pop))
  {
    var t := After(s, Pop);
    HeadLeaves(s.left, s.q.core.pending, [], Taken);
    assert s.accepted == Items(s.left) + s.q.core.pending + [];
    assert Items(t.left) + s.q.core.pending[1..] + [] == Items(t.left) + s.q.core.pending[1..];
  }

  lemma EnqueueKeepsHistory<D>(s: State<D>, x: Item<D>)
    requires PermitsOk(s) && HistoryOk(s) && !s.q.core.closed
    ensures HistoryOk(After(s, Enqueue(x)))
  {
    var t := After(s, Enqueue(x));
    if |s.q.core.pending| == s.q.core.capacity {
      HeadLeaves(s.left, s.q.core.pending, [x], Evicted);
      assert Items(t.left) + s.q.core.pending[1..] + [x] == Items(t.left) + (s.q.core.pending[1..] + [x]);
    } else {
      assert Items(s.left) + s.q.core.pending + [x] == Items(s.left) + (s.q.core.pending + [x]);
    }
  }

  lemma {:induction false} InvHolds<D(!new)>(run: seq<State<D>>, steps: seq<Step<D>>, i: nat)
    requires IsRun(run, steps) && i < |run|
    ensures PermitsOk(run[i]) && HistoryOk(run[i])
  {
    if i > 0 {
      InvHolds(run, steps, i - 1);
      assert StepAt(run, steps, i - 1);
      StepKeepsPermits(run[i - 1], steps[i - 1]);
      StepKeepsHistory(run[i - 1], steps[i - 1]);
    }
  }

  // ---------------------------------------------------------------- draining

  /** While open, free and held permits count the pending items.  After close, pops without a permit
      included, permits stay above the pending length, so the loop always has one to wait for; and
      an empty pop ends the loop. */
  lemma NoLostWakeup<D(!new)>(run: seq<State<D>>, steps: seq<Step<D>>, i: nat)
    requires IsRun(run, steps) && i < |run|
    ensures var s := run[i];
            && (!s.q.core.closed ==> s.q.core.permits + Held(s.pc) == |s.q.core.pending|)
            && (s.q.core.closed && (s.pc.Selecting? || s.pc.Busy?) ==> s.q.core.permits > |s.q.core.pending|)
            && (s.pc.Selecting? && (s.q.core.closed || s.q.core.pending != []) ==> Enabled(s, Acquire))
            && (s.pc.PoppedNone? ==> After(s, Check).pc.Stopped?)
  {
    InvHolds(run, steps, i);
  }

  /** Loop steps left once the queue is closed: pending length first, then the place in the loop. */
  function Rank<D>(s: State<D>): nat {
    match s.pc
    case Busy(_) => 3 * |s.q.core.pending| + 4
    case Selecting => 3 * |s.q.core.pending| + 3
    case Popping(_) => 3 * |s.q.core.pending| + 2
    case PoppedNone => 1
    case Stopped => 0
  }

  /** Items processed, in process and pending, in this order. */
  function Through<D>(s: State<D>): seq<Item<D>> {
    Items(s.finished) + InFlight(s.pc) + s.q.core.pending
  }

  function LoopSteps<D>(steps: seq<Step<D>>): nat {
    if steps == [] then 0 else LoopSteps(steps[..|steps| - 1]) + if LoopStep(steps[|steps| - 1]) then 1 else 0
  }

  /** After close the loop ends within a number of its steps that the pending length bounds, and
      everything then pending is processed, in order; nothing more is evicted or accepted. */
  lemma {:induction false} DrainsAfterClose<D(!new)>(run: seq<State<D>>, steps: seq<Step<D>>, i: nat, j: nat)
    requires IsRun(run, steps) && i <= j < |run| && run[i].q.core.closed
    ensures run[j].q.core.closed && run[j].accepted == run[i].accepted && run[j].q.evicted == run[i].q.evicted
    ensures LoopSteps(steps[i..j]) + Rank(run[j]) <= Rank(run[i])
    ensures Through(run[j]) == Through(run[i])
    decreases j
  {
    if i < j {
      DrainsAfterClose(run, steps, i, j - 1);
      LoopStepsNext(steps, i, j);
      ClosedRunDrains(run, steps, j - 1);
    }
  }

  lemma ClosedRunDrains<D(!new)>(run: seq<State<D>>, steps: seq<Step<D>>, i: nat)
    requires IsRun(run, steps) && i < |steps| && run[i].q.core.closed
    ensures run[i + 1].q.core.closed && run[i + 1].accepted == run[i].accepted && run[i + 1].q.evicted == run[i].q.evicted
    ensures (if LoopStep(steps[i]) then 1 else 0) + Rank(run[i + 1]) <= Rank(run[i])
    ensures Through(run[i + 1]) == Through(run[i])
  {
    InvHolds(run, steps, i);
    assert StepAt(run, steps, i);
    ClosedStepMovesItems(run[i], steps[i]);
    ClosedStepRanks(run[i], steps[i]);
  }

  lemma LoopStepsNext<D>(steps: seq<Step<D>>, i: nat, j: nat)
    requires i < j <= |steps|
    ensures LoopSteps(steps[i..j]) == LoopSteps(steps[i..j - 1]) + if LoopStep(steps[j - 1]) then 1 else 0
  {
    assert steps[i..j][..j - i - 1] == steps[i..j - 1];
  }

  lemma ClosedStepRanks<D>(s: State<D>, step: Step<D>)
    requires s.q.core.closed && PermitsOk(s) && Enabled(s, step)
    ensures var t := After(s, step);
            && t.q.core.closed && t.accepted == s.accepted && t.q.evicted == s.q.evicted
            && (if LoopStep(step) then 1 else 0) + Rank(t) <= Rank(s)
  {
  }

  lemma ClosedStepMovesItems<D>(s: State<D>, step: Step<D>)
    requires s.q.core.closed && PermitsOk(s) && Enabled(s, step)
    ensures Through(After(s, step)) == Through(s)
  {
    if step.Finish? {
      ItemsAppend(s.finished, (s.pc.item, step.ok));
    }
  }

  /** What `is_closed` tells the loop: once closed and empty, the queue stays so, and no item is accepted, taken or
      evicted any more. */
  lemma {:induction false} DrainedForever<D(!new)>(run: seq<State<D>>, steps: seq<Step<D>>, i: nat, j: nat)
    requires IsRun(run, steps) && i <= j < |run| && Drained(run[i].q.core)
    ensures Drained(run[j].q.core) && run[j].accepted == run[i].accepted && run[j].left == run[i].left && run[j].q.evicted == run[i].q.evicted
    decreases j
  {
    if i < j {
      DrainedForever(run, steps, i, j - 1);
      assert StepAt(run, steps, j - 1);
    }
  }

  /** Enqueuing on an open queue puts the item last, costs the oldest one its place only if `capacity` are pending, and
      changes nothing once the queue is closed. */
  lemma EnqueueEvictsWhenFull<D(!new)>(run: seq<State<D>>, steps: seq<Step<D>>, i: nat)
    requires IsRun(run, steps) && i < |steps| && steps[i].Enqueue?
    ensures var b, b' := run[i].q.core, run[i + 1].q.core;
            if b.closed then run[i + 1] == run[i]
            else if |b.pending| < b.capacity then b' == b.(pending := b.pending + [steps[i].x], permits := b.permits + 1)
            else |b.pending| == b.capacity > 0 && b' == b.(pending := b.pending[1..] + [steps[i].x])
  {
    InvHolds(run, steps, i);
    assert StepAt(run, steps, i);
  }

  /** At loop exit the queue is empty, every accepted item was evicted, completed or failed, and the
      items processed after a close are exactly those that were in flight or pending at it. */
  lemma ExitConservation<D(!new)>(run: seq<State<D>>, steps: seq<Step<D>>, i: nat, j: nat)
    requires IsRun(run, steps) && i <= j < |run| && run[i].q.core.closed && run[j].pc.Stopped?
    ensures run[j].q.enqueued == run[j].q.evicted + run[j].q.completed + run[j].q.failed
    ensures run[j].q.completed == Completed(run[j].finished)
    ensures run[j].q.core.pending == []
    ensures Items(run[j].finished) == Items(run[i].finished) + InFlight(run[i].pc) + run[i].q.core.pending
  {
    InvHolds(run, steps, j);
    DrainsAfterClose(run, steps, i, j);
    var s := run[j];
    assert Items(s.finished) + InFlight(s.pc) + s.q.core.pending == Items(s.finished);
    assert |TakenItems(s.left)| == |s.finished|;
    assert |s.accepted| == |s.left|;
  }
}
