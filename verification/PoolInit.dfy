/**
  Lazy, single-flight creation of the Postgres pool: double-checked locking over an async
  initialization lock, concurrent with resets after connection errors.  Pools are numbered by the
  connect that made them.
*/
module PoolInit {
  import opened Wrappers

  datatype Cell = Cell(pool: Option<nat>, reconnectPending: bool)

  function ResetCell(c: Cell): Cell {
    if c.pool.Some? then Cell(None, true) else c
  }

  function InstallCell(c: Cell, p: nat): Cell {
    if c.pool.Some? then c else Cell(Some(p), false)
  }

  /** The shared pool option and reconnect flag, changed under the pool mutex. */
  class Sink {
    var pool: Option<nat>
    var reconnectPending: bool

    constructor ()
      ensures View() == Cell(None, false)
    {
      pool, reconnectPending := None, false;
    }

    ghost function View(): Cell
      reads this
    {
      Cell(pool, reconnectPending)
    }

    /** The last section of `ensure_pool`; `reconnected` is whether the reconnect is logged. */
    method Install(p: nat) returns (used: nat, reconnected: bool)
      modifies this
      ensures View() == InstallCell(old(View()), p)
      ensures Some(used) == pool == (if old(pool).Some? then old(pool) else Some(p))
      ensures reconnectPending == (old(pool).Some? && old(reconnectPending))
      ensures reconnected == (old(pool).None? && old(reconnectPending))
    {
      if pool.Some? {
        return pool.value, false;
      }
      pool := Some(p);
      reconnected := reconnectPending;
      reconnectPending := false;
      used := p;
    }

    /** `handle_runtime_error` */
    method HandleRuntimeError(shouldReset: bool)
      modifies this
      ensures View() == if shouldReset then ResetCell(old(View())) else old(View())
    {
      if shouldReset && pool.Some? {
        pool := None;
        reconnectPending := true;
      }
    }
  }

  // ---------------------------------------------------------------- callers and resets

  /** Where one call of `ensure_pool` stands. */
  datatype Pc = Entered | WantsLock | HasLock | Connecting | Connected(pool: nat) | Returned(pool: nat)

  datatype State = State(cell: Cell, lock: Option<nat>, calls: map<nat, Pc>, nextPool: nat)

  datatype Step =
    | Call(id: nat)
    | FirstCheck(id: nat)
    | TakeLock(id: nat)
    | SecondCheck(id: nat)
    | ConnectDone(id: nat)
    | InstallPool(id: nat)
    | Abandon(id: nat)
    | Reset

  ghost predicate Init(s: State) {
    s.cell == Cell(None, false) && s.lock == None && s.calls == map[]
  }

  predicate At(s: State, id: nat, pc: Pc) {
    id in s.calls && s.calls[id] == pc
  }

  predicate Enabled(s: State, step: Step) {
    match step
    case Call(id) => id !in s.calls
    case FirstCheck(id) => At(s, id, Entered)
    case TakeLock(id) => At(s, id, WantsLock) && s.lock.None?
    case SecondCheck(id) => At(s, id, HasLock)
    case ConnectDone(id) => At(s, id, Connecting)
    case InstallPool(id) => id in s.calls && s.calls[id].Connected?
    case Abandon(id) => id in s.calls
    case Reset => true
  }

  function Release(s: State, id: nat): Option<nat> {
    if s.lock == Some(id) then None else s.lock
  }

  /** Abandon is a failed connect or a call dropped at any await point: its lock guard is released. */
  function After(s: State, step: Step): State
    requires Enabled(s, step)
  {
    match step
    case Call(id) => s.(calls := s.calls[id := Entered])
    case FirstCheck(id) =>
      s.(calls := s.calls[id := if s.cell.pool.Some? then Returned(s.cell.pool.value) else WantsLock])
    case TakeLock(id) => s.(lock := Some(id), calls := s.calls[id := HasLock])
    case SecondCheck(id) =>
      if s.cell.pool.Some? then s.(lock := Release(s, id), calls := s.calls[id := Returned(s.cell.pool.value)])
      else s.(calls := s.calls[id := Connecting])
    case ConnectDone(id) => s.(calls := s.calls[id := Connected(s.nextPool)], nextPool := s.nextPool + 1)
    case InstallPool(id) =>
      var cell := InstallCell(s.cell, s.calls[id].pool);
      s.(cell := cell, lock := Release(s, id), calls := s.calls[id := Returned(if cell.pool.Some? then cell.pool.value else 0)])
    case Abandon(id) => s.(lock := Release(s, id), calls := s.calls - {id})
    case Reset => s.(cell := ResetCell(s.cell))
  }

  ghost predicate IsRun(run: seq<State>, steps: seq<Step>) {
    && |run| == |steps| + 1
    && Init(run[0])
    && (forall i :: 0 <= i < |steps| ==> Enabled(run[i], steps[i]) && run[i + 1] == After(run[i], steps[i]))
  }

  // ---------------------------------------------------------------- the invariant

  predicate Inside(pc: Pc) {
    pc.HasLock? || pc.Connecting? || pc.Connected?
  }

  ghost predicate Inv(s: State) {
    && (forall id :: id in s.calls && Inside(s.calls[id]) ==> s.lock == Some(id))
    && (forall id :: id in s.calls && (s.calls[id].Connecting? || s.calls[id].Connected?) ==> s.cell.pool.None?)
    && (s.lock.Some? ==> s.lock.value in s.calls && Inside(s.calls[s.lock.value]))
    && (s.cell.reconnectPending ==> s.cell.pool.None?)
    && (forall id :: id in s.calls && s.calls[id].Connected? ==> s.calls[id].pool < s.nextPool)
  }

  lemma StepKeepsInv(s: State, step: Step)
    requires Inv(s) && Enabled(s, step)
    ensures Inv(After(s, step))
  {
  }

  lemma {:induction false} InvHolds(run: seq<State>, steps: seq<Step>, i: nat)
    requires IsRun(run, steps) && i < |run|
    ensures Inv(run[i])
  {
    if i > 0 {
      InvHolds(run, steps, i - 1);
      StepKeepsInv(run[i - 1], steps[i - 1]);
    }
  }

  /** In every interleaving at most one connect is running or waiting to be installed, no pool is
      installed meanwhile, so the third check never finds an existing one. */
  lemma SingleFlight(run: seq<State>, steps: seq<Step>, i: nat, a: nat, b: nat)
    requires IsRun(run, steps) && i < |run| && a in run[i].calls && b in run[i].calls
    requires run[i].calls[a].Connecting? || run[i].calls[a].Connected?
    ensures run[i].calls[b].Connecting? || run[i].calls[b].Connected? ==> a == b
    ensures run[i].cell.pool.None?
    ensures run[i].calls[a].Connected? ==>
              At(After(run[i], InstallPool(a)), a, Returned(run[i].calls[a].pool)) &&
              After(run[i], InstallPool(a)).cell.pool == Some(run[i].calls[a].pool)
  {
    InvHolds(run, steps, i);
  }

  /** A call returns with the pool that is in place at that moment, and no longer holds the lock. */
  lemma ReturnsPoolInPlace(run: seq<State>, steps: seq<Step>, i: nat, id: nat, p: nat)
    requires IsRun(run, steps) && i < |steps| && At(run[i + 1], id, Returned(p)) && !At(run[i], id, Returned(p))
    ensures run[i + 1].cell.pool == Some(p) && run[i + 1].lock != Some(id)
    ensures run[i].cell.pool == Some(p) || (run[i].cell.pool == None && At(run[i], id, Connected(p)))
  {
    InvHolds(run, steps, i);
  }

  /** No lock is left behind: a call that waits for it can take it, or a call that holds it can move on. */
  lemma NeverStuck(run: seq<State>, steps: seq<Step>, i: nat, id: nat)
    requires IsRun(run, steps) && i < |run| && At(run[i], id, WantsLock)
    ensures if run[i].lock.None? then Enabled(run[i], TakeLock(id))
            else var holder := run[i].lock.value;
                 Enabled(run[i], SecondCheck(holder)) || Enabled(run[i], ConnectDone(holder)) || Enabled(run[i], InstallPool(holder))
  {
    InvHolds(run, steps, i);
  }

  /** An installed pool stays until a reset. */
  lemma {:induction false} ReplacedOnlyAfterReset(run: seq<State>, steps: seq<Step>, i: nat, j: nat)
    requires IsRun(run, steps) && i <= j < |run| && run[i].cell.pool.Some?
    requires forall k :: i <= k < j ==> !steps[k].Reset?
    ensures run[j].cell.pool == run[i].cell.pool
    decreases j
  {
    if i < j {
      ReplacedOnlyAfterReset(run, steps, i, j - 1);
      InvHolds(run, steps, j - 1);
    }
  }

  /** How many of the first `n` steps reached the last section of `ensure_pool` with a new pool. */
  function Installs(steps: seq<Step>, n: nat): nat
    requires n <= |steps|
  {
    if n == 0 then 0 else Installs(steps, n - 1) + if steps[n - 1].InstallPool? then 1 else 0
  }

  /** How many of the first `n` steps reset an installed pool. */
  function Resets(run: seq<State>, steps: seq<Step>, n: nat): nat
    requires n <= |steps| && |run| == |steps| + 1
  {
    if n == 0 then 0 else Resets(run, steps, n - 1) + if steps[n - 1].Reset? && run[n - 1].cell.pool.Some? then 1 else 0
  }

  /** Every connect that reaches the last section installs its pool: such steps are resets of an installed pool plus
      the pool in place.  A pending reconnect means that a pool was reset and none is in place. */
  lemma {:induction false} InstallsMatchResets(run: seq<State>, steps: seq<Step>, n: nat)
    requires IsRun(run, steps) && n <= |steps|
    ensures Installs(steps, n) == Resets(run, steps, n) + if run[n].cell.pool.Some? then 1 else 0
    ensures run[n].cell.reconnectPending <==> run[n].cell.pool.None? && Resets(run, steps, n) > 0
  {
    if n > 0 {
      InstallsMatchResets(run, steps, n - 1);
      InvHolds(run, steps, n - 1);
    }
  }
}
