/**
  The delivery half of the alert worker: any number of workers claim due rows of
  `alerting.delivery_attempts` under a lease, deliver outside any lock, and finalize with a
  conditional UPDATE whose fencing token is `claimed_at`.

  Time is in microseconds.  `now` is the database clock; a worker's own clock may differ from it
  by at most `skew`.  Row ids are indices into `rows`, so "ORDER BY id" is index order.
*/
module DeliveryProtocol {
  import opened Wrappers
  import opened ClaimLog

  const MICROS := 1_000_000

  datatype Status = Pending | InProgress | RetryPending | Delivered | Failed

  datatype Row = Row(attemptNo: int, status: Status, claimedAt: Option<int>, nextRetryAt: Option<int>)

  /** What a worker remembers of a row it claimed. */
  datatype Claim = Claim(id: nat, token: int, attemptNo: int)

  /** The parameters of the finalizing UPDATE. */
  datatype Update = Update(id: nat, token: int, attemptNo: int, status: Status, nextRetryAt: Option<int>)

  /** How a delivery ended; Undeliverable is a missing event, a missing or a disabled contact point. */
  datatype Outcome = Success | Retryable | Terminal | Undeliverable

  datatype Config = Config(lease: int, maxAttempts: int, batch: int, skew: int)

  /** The start-up checks of the worker. */
  predicate ValidConfig(c: Config) {
    0 < c.maxAttempts && 0 < c.batch && 0 < c.lease && 0 <= c.skew
  }

  /** Clocks closer together than the lease. */
  predicate ClocksWithinLease(c: Config) {
    ValidConfig(c) && c.skew < c.lease
  }

  /** Clocks closer together than the shortest backoff, or no retries at all. */
  predicate ClocksWithinBackoff(c: Config) {
    ValidConfig(c) && (c.maxAttempts == 1 || c.skew < 5_000_000)
  }

  function BackoffSeconds(attemptNo: int): (r: int)
    ensures 5 <= r <= 90
  {
    if attemptNo == 0 || attemptNo == 1 then 5
    else if attemptNo == 2 then 15
    else if attemptNo == 3 then 45
    else 90
  }

  predicate Terminal?(r: Row) {
    r.status.Delivered? || r.status.Failed?
  }

  // ---------------------------------------------------------------- the SQL statements

  /** The WHERE clause of the claiming statement. */
  predicate Due(r: Row, now: int, cutoff: int) {
    || ((r.status.Pending? || r.status.RetryPending?) && (r.nextRetryAt.None? || r.nextRetryAt.value <= now))
    || (r.status.InProgress? && r.claimedAt.Some? && r.claimedAt.value <= cutoff)
  }

  /** Ids the claiming statement may pick: due rows in id order, at most `limit` of them.  Rows
      locked by other transactions are skipped, so a selection need not contain every due row. */
  ghost predicate Selection(rows: seq<Row>, ids: seq<nat>, limit: int, now: int, cutoff: int) {
    && |ids| <= limit
    && (forall i, j :: 0 <= i < j < |ids| ==> ids[i] < ids[j])
    && (forall i :: 0 <= i < |ids| ==> ids[i] < |rows| && Due(rows[ids[i]], now, cutoff))
  }

  function ClaimRows(rows: seq<Row>, ids: seq<nat>, now: int): seq<Row> {
    seq(|rows|, i requires 0 <= i < |rows| =>
      if i in ids then rows[i].(status := InProgress, claimedAt := Some(now)) else rows[i])
  }

  function ClaimsOf(rows: seq<Row>, ids: seq<nat>, now: int): seq<Claim>
    requires forall i :: 0 <= i < |ids| ==> ids[i] < |rows|
  {
    seq(|ids|, i requires 0 <= i < |ids| => Claim(ids[i], now, rows[ids[i]].attemptNo))
  }

  /** The WHERE clause of the finalizing statement. */
  predicate Matches(rows: seq<Row>, u: Update) {
    u.id < |rows| && rows[u.id].claimedAt == Some(u.token) && rows[u.id].status.InProgress?
  }

  function ApplyUpdate(rows: seq<Row>, u: Update): seq<Row> {
    if Matches(rows, u) then
      rows[u.id := Row(u.attemptNo, u.status,
                       if u.status.Delivered? then rows[u.id].claimedAt else None, u.nextRetryAt)]
    else rows
  }

  /** The table, with its two statements run against the stored rows. */
  class DeliveryTable {
    var rows: seq<Row>

    constructor ()
      ensures rows == []
    {
      rows := [];
    }

    /** `claim_due_delivery_attempts`: the first `limit` due rows in id order that no other
        transaction holds locked. */
    method ClaimDue(limit: int, now: int, cutoff: int, locked: set<nat>) returns (claims: seq<Claim>, ghost ids: seq<nat>)
      requires 0 <= limit
      modifies this
      ensures Selection(old(rows), ids, limit, now, cutoff)
      ensures claims == ClaimsOf(old(rows), ids, now)
      ensures rows == ClaimRows(old(rows), ids, now)
      ensures forall i :: 0 <= i < |ids| ==> ids[i] !in locked
      ensures forall k :: 0 <= k < |old(rows)| && k !in locked && Due(old(rows)[k], now, cutoff) && k !in ids
                ==> |ids| == limit && (forall i :: 0 <= i < |ids| ==> ids[i] < k)
    {
      claims, ids := [], [];
      var k := 0;
      while k < |rows| && |claims| < limit
        invariant 0 <= k <= |rows| == |old(rows)|
        invariant rows == ClaimRows(old(rows), ids, now)
        invariant forall i :: 0 <= i < |ids| ==> ids[i] < k
        invariant Selection(old(rows), ids, limit, now, cutoff)
        invariant claims == ClaimsOf(old(rows), ids, now)
        invariant forall i :: 0 <= i < |ids| ==> ids[i] !in locked
        invariant forall j :: 0 <= j < k && j !in locked && Due(old(rows)[j], now, cutoff) ==> j in ids
      {
        if k !in locked && Due(rows[k], now, cutoff) {
          claims := claims + [Claim(k, now, rows[k].attemptNo)];
          rows := rows[k := rows[k].(status := InProgress, claimedAt := Some(now))];
          ids := ids + [k];
        }
        k := k + 1;
      }
    }

    /** `update_delivery_attempt`: true iff a row was affected. */
    method UpdateDeliveryAttempt(u: Update) returns (finalized: bool)
      modifies this
      ensures finalized == Matches(old(rows), u)
      ensures rows == ApplyUpdate(old(rows), u)
    {
      finalized := u.id < |rows| && rows[u.id].claimedAt == Some(u.token) && rows[u.id].status == InProgress;
      if finalized {
        var keep := if u.status == Delivered then rows[u.id].claimedAt else None;
        rows := rows[u.id := Row(u.attemptNo, u.status, keep, u.nextRetryAt)];
      }
    }
  }

  /** What the worker decides after a delivery, with its own clock at `workerNow`. */
  function Finalization(c: Claim, o: Outcome, maxAttempts: int, workerNow: int): Update {
    var next := c.attemptNo + 1;
    match o
    case Success => Update(c.id, c.token, next, Delivered, None)
    case Retryable =>
      if next >= maxAttempts then Update(c.id, c.token, next, Failed, None)
      else Update(c.id, c.token, next, RetryPending, Some(workerNow + BackoffSeconds(next) * MICROS))
    case Terminal => Update(c.id, c.token, next, Failed, None)
    case Undeliverable => Update(c.id, c.token, next, Failed, None)
  }

  // ---------------------------------------------------------------- the protocol

  /** Claims still to be worked off, and the decided but not yet executed UPDATE for the first. */
  datatype Worker = Worker(queue: seq<Claim>, decision: Option<Update>)

  datatype State = State(now: int, rows: seq<Row>, log: seq<seq<LogEntry>>, workers: map<nat, Worker>)

  datatype Step =
    | InsertAttempts(count: nat)
    | ClaimBatch(worker: nat, ids: seq<nat>, workerNow: int)
    | Decide(worker: nat, outcome: Outcome, workerNow: int)
    | Finalize(worker: nat)
    | Crash(worker: nat)
    | Tick(later: int)

  ghost predicate Init(s: State) {
    s.rows == [] && s.log == [] && s.workers == map[]
  }

  predicate ClockOk(c: Config, now: int, workerNow: int) {
    now - c.skew <= workerNow <= now + c.skew
  }

  ghost predicate Enabled(c: Config, s: State, step: Step) {
    match step
    case InsertAttempts(count) => true
    case ClaimBatch(w, ids, workerNow) =>
      && ClockOk(c, s.now, workerNow)
      && (w in s.workers ==> s.workers[w].queue == [])
      && Selection(s.rows, ids, c.batch, s.now, workerNow - c.lease)
    case Decide(w, outcome, workerNow) =>
      && ClockOk(c, s.now, workerNow)
      && w in s.workers && s.workers[w].queue != [] && s.workers[w].decision.None?
    case Finalize(w) => w in s.workers && s.workers[w].queue != [] && s.workers[w].decision.Some?
    case Crash(w) => w in s.workers
    case Tick(later) => s.now <= later
  }

  /** The state after an enabled step; Crash is also any early return of an iteration. */
  ghost function After(c: Config, s: State, step: Step): State
    requires Enabled(c, s, step)
  {
    match step
    case InsertAttempts(count) =>
      s.(rows := s.rows + seq(count, i => Row(0, Pending, None, None)), log := s.log + seq(count, i => []))
    case ClaimBatch(w, ids, workerNow) =>
      s.(rows := ClaimRows(s.rows, ids, s.now),
         log := LogClaims(s.log, ids, LogEntry(s.now, w)),
         workers := s.workers[w := Worker(ClaimsOf(s.rows, ids, s.now), None)])
    case Decide(w, outcome, workerNow) =>
      s.(workers := s.workers[w := s.workers[w].(decision :=
           Some(Finalization(s.workers[w].queue[0], outcome, c.maxAttempts, workerNow)))])
    case Finalize(w) =>
      s.(rows := ApplyUpdate(s.rows, s.workers[w].decision.value),
         workers := s.workers[w := Worker(s.workers[w].queue[1..], None)])
    case Crash(w) => s.(workers := s.workers - {w})
    case Tick(later) => s.(now := later)
  }

  /** Every interleaving: states `run`, joined by `steps`. */
  ghost predicate IsRun(c: Config, run: seq<State>, steps: seq<Step>) {
    && |run| == |steps| + 1
    && Init(run[0])
    && (forall i :: 0 <= i < |steps| ==> Enabled(c, run[i], steps[i]) && run[i + 1] == After(c, run[i], steps[i]))
  }

  // ---------------------------------------------------------------- what can be claimed, in clock readings

  /** A worker may claim a row by itself exactly if the row is new, or its retry time has come, or it is in progress
      and a lease has passed on the worker's clock since it was claimed. */
  lemma ClaimableExactly(c: Config, s: State, w: nat, id: nat, workerNow: int)
    requires ValidConfig(c) && id < |s.rows| && w !in s.workers
    ensures Enabled(c, s, ClaimBatch(w, [id], workerNow)) <==>
              && s.now - c.skew <= workerNow <= s.now + c.skew
              && var r := s.rows[id];
                 match r.status
                 case Pending => r.nextRetryAt.None? || r.nextRetryAt.value <= s.now
                 case RetryPending => r.nextRetryAt.None? || r.nextRetryAt.value <= s.now
                 case InProgress => r.claimedAt.Some? && r.claimedAt.value + c.lease <= workerNow
                 case Delivered => false
                 case Failed => false
  {
    assert [id][0] == id;
  }

  // ---------------------------------------------------------------- limits, whatever the clocks say

  /** Attempt numbers within the limit, in rows, in claims and in decisions. */
  ghost predicate Limited(c: Config, s: State) {
    && (forall id :: 0 <= id < |s.rows| ==> RowLimited(c, s.rows[id]))
    && (forall w :: w in s.workers ==> WorkerLimited(c, s.workers[w]))
  }

  predicate RowLimited(c: Config, r: Row) {
    0 <= r.attemptNo <= c.maxAttempts && (!Terminal?(r) ==> r.attemptNo < c.maxAttempts)
  }

  ghost predicate WorkerLimited(c: Config, wk: Worker) {
    && (forall i :: 0 <= i < |wk.queue| ==> 0 <= wk.queue[i].attemptNo < c.maxAttempts)
    && (wk.decision.Some? ==> wk.queue != [] && DecisionOk(c, wk.queue[0], wk.decision.value))
  }

  /** A decided update belongs to the claim at the head of the queue. */
  predicate DecisionOk(c: Config, head: Claim, u: Update) {
    && u.id == head.id && u.token == head.token && u.attemptNo == head.attemptNo + 1
    && match u.status
       case RetryPending => u.attemptNo < c.maxAttempts
       case Delivered => true
       case Failed => true
       case _ => false
  }

  lemma StepKeepsLimited(c: Config, s: State, step: Step)
    requires 0 < c.maxAttempts && Limited(c, s) && Enabled(c, s, step)
    ensures Limited(c, After(c, s, step))
  {
    var t := After(c, s, step);
    forall id | 0 <= id < |t.rows| ensures RowLimited(c, t.rows[id]) {
      StepKeepsRowLimited(c, s, step, id);
    }
    forall w | w in t.workers ensures WorkerLimited(c, t.workers[w]) {
      StepKeepsWorkerLimited(c, s, step, w);
    }
  }

  lemma StepKeepsRowLimited(c: Config, s: State, step: Step, id: nat)
    requires 0 < c.maxAttempts && Limited(c, s) && Enabled(c, s, step) && id < |After(c, s, step).rows|
    ensures RowLimited(c, After(c, s, step).rows[id])
  {
    assert id < |s.rows| ==> RowLimited(c, s.rows[id]);
    assert step.Finalize? ==> WorkerLimited(c, s.workers[step.worker]);
  }

  lemma StepKeepsWorkerLimited(c: Config, s: State, step: Step, w: nat)
    requires 0 < c.maxAttempts && Limited(c, s) && Enabled(c, s, step) && w in After(c, s, step).workers
    ensures WorkerLimited(c, After(c, s, step).workers[w])
  {
    if w in s.workers {
      assert WorkerLimited(c, s.workers[w]);
    }
    if step.ClaimBatch? && step.worker == w {
      ClaimsLimited(c, s, step.ids);
    }
  }

  lemma ClaimsLimited(c: Config, s: State, ids: seq<nat>)
    requires Limited(c, s) && forall i :: 0 <= i < |ids| ==> ids[i] < |s.rows| && !Terminal?(s.rows[ids[i]])
    ensures WorkerLimited(c, Worker(ClaimsOf(s.rows, ids, s.now), None))
  {
    forall i | 0 <= i < |ids| ensures 0 <= s.rows[ids[i]].attemptNo < c.maxAttempts {
      assert RowLimited(c, s.rows[ids[i]]);
    }
  }

  lemma {:induction false} LimitedHolds(c: Config, run: seq<State>, steps: seq<Step>, i: nat)
    requires 0 < c.maxAttempts && IsRun(c, run, steps) && i < |run|
    ensures Limited(c, run[i])
  {
    if i > 0 {
      LimitedHolds(c, run, steps, i - 1);
      StepKeepsLimited(c, run[i - 1], steps[i - 1]);
    }
  }

  /** In every reachable state, under any clocks, `attempt_no` never passes the limit and reaches it only in
      delivered or failed rows. */
  lemma AttemptsWithinLimit(c: Config, run: seq<State>, steps: seq<Step>, i: nat, id: nat)
    requires 0 < c.maxAttempts && IsRun(c, run, steps) && i < |run| && id < |run[i].rows|
    ensures 0 <= run[i].rows[id].attemptNo <= c.maxAttempts
    ensures run[i].rows[id].attemptNo == c.maxAttempts ==> Terminal?(run[i].rows[id])
  {
    LimitedHolds(c, run, steps, i);
    assert RowLimited(c, run[i].rows[id]);
  }

  /** Delivered and failed rows never change again, whatever the workers still hold and whatever the
      clocks say. */
  lemma {:induction false} TerminalRowsNeverChange(c: Config, run: seq<State>, steps: seq<Step>, i: nat, j: nat, id: nat)
    requires IsRun(c, run, steps) && i <= j < |run|
    requires id < |run[i].rows| && Terminal?(run[i].rows[id])
    ensures id < |run[j].rows| && run[j].rows[id] == run[i].rows[id]
    decreases j
  {
    if i < j {
      TerminalRowsNeverChange(c, run, steps, i, j - 1, id);
      StepKeepsTerminal(c, run[j - 1], steps[j - 1], id);
    }
  }

  lemma StepKeepsTerminal(c: Config, s: State, step: Step, id: nat)
    requires Enabled(c, s, step) && id < |s.rows| && Terminal?(s.rows[id])
    ensures var t := After(c, s, step); id < |t.rows| && t.rows[id] == s.rows[id]
  {
  }

  // ---------------------------------------------------------------- rows and claims, whatever the clocks say

  /** One row against its claim history. */
  ghost predicate RowOk(now: int, r: Row, l: seq<LogEntry>) {
    && Ordered(l)
    && (l != [] ==> Last(l).token <= now)
    && (r.status.Pending? <==> l == [])
    && (r.status.InProgress? || r.status.Delivered? ==> l != [] && r.claimedAt == Some(Last(l).token))
    && (r.status.Pending? || r.status.RetryPending? || r.status.Failed? ==> r.claimedAt.None?)
  }

  /** A worker's claims are in the history, in row order. */
  ghost predicate Held(s: State, w: nat)
    requires |s.log| == |s.rows| && w in s.workers
  {
    var q := s.workers[w].queue;
    && (forall i :: 0 <= i < |q| ==> q[i].id < |s.rows| && LogEntry(q[i].token, w) in s.log[q[i].id])
    && (forall i, j :: 0 <= i < j < |q| ==> q[i].id < q[j].id)
  }

  ghost predicate Base(c: Config, s: State) {
    && |s.log| == |s.rows|
    && (forall id :: 0 <= id < |s.rows| ==> RowOk(s.now, s.rows[id], s.log[id]))
    && (forall w :: w in s.workers ==> Held(s, w))
    && Limited(c, s)
  }

  lemma ClaimKeepsRow(c: Config, s: State, w: nat, ids: seq<nat>, workerNow: int, id: nat)
    requires Base(c, s) && Enabled(c, s, ClaimBatch(w, ids, workerNow)) && id < |s.rows|
    ensures var t := After(c, s, ClaimBatch(w, ids, workerNow)); RowOk(t.now, t.rows[id], t.log[id])
  {
    assert RowOk(s.now, s.rows[id], s.log[id]);
    if id in ids {
      ClaimedRowOk(s.now, s.rows[id], s.log[id], w);
    }
  }

  lemma ClaimedRowOk(now: int, r: Row, l: seq<LogEntry>, w: nat)
    requires RowOk(now, r, l)
    ensures RowOk(now, r.(status := InProgress, claimedAt := Some(now)), l + [LogEntry(now, w)])
  {
  }

  lemma ClaimKeepsHeld(c: Config, s: State, w: nat, ids: seq<nat>, workerNow: int, w': nat)
    requires Base(c, s) && Enabled(c, s, ClaimBatch(w, ids, workerNow)) && w' in After(c, s, ClaimBatch(w, ids, workerNow)).workers
    ensures Held(After(c, s, ClaimBatch(w, ids, workerNow)), w')
  {
    var t := After(c, s, ClaimBatch(w, ids, workerNow));
    if w' == w {
      forall i | 0 <= i < |ids| ensures LogEntry(s.now, w) in t.log[ids[i]] {
        assert ids[i] in ids;
      }
    } else {
      assert Held(s, w');
    }
  }

  lemma ClaimKeepsBase(c: Config, s: State, w: nat, ids: seq<nat>, workerNow: int)
    requires 0 < c.maxAttempts && Base(c, s) && Enabled(c, s, ClaimBatch(w, ids, workerNow))
    ensures Base(c, After(c, s, ClaimBatch(w, ids, workerNow)))
  {
    var t := After(c, s, ClaimBatch(w, ids, workerNow));
    forall id | 0 <= id < |t.rows| ensures RowOk(t.now, t.rows[id], t.log[id]) {
      ClaimKeepsRow(c, s, w, ids, workerNow, id);
    }
    forall w' | w' in t.workers ensures Held(t, w') {
      ClaimKeepsHeld(c, s, w, ids, workerNow, w');
    }
    StepKeepsLimited(c, s, ClaimBatch(w, ids, workerNow));
  }

  lemma OtherStepKeepsRow(c: Config, s: State, step: Step, id: nat)
    requires Base(c, s) && Enabled(c, s, step) && !step.ClaimBatch? && id < |After(c, s, step).rows|
    ensures var t := After(c, s, step); |t.log| == |t.rows| && RowOk(t.now, t.rows[id], t.log[id])
  {
    assert step.Finalize? ==> WorkerLimited(c, s.workers[step.worker]);
    assert id < |s.rows| ==> RowOk(s.now, s.rows[id], s.log[id]);
  }

  lemma OtherStepsKeepBase(c: Config, s: State, step: Step)
    requires 0 < c.maxAttempts && Base(c, s) && Enabled(c, s, step) && !step.ClaimBatch?
    ensures Base(c, After(c, s, step))
  {
    var t := After(c, s, step);
    forall id | 0 <= id < |t.rows| ensures RowOk(t.now, t.rows[id], t.log[id]) {
      OtherStepKeepsRow(c, s, step, id);
    }
    forall w | w in t.workers ensures Held(t, w) {
      assert Held(s, w);
    }
    StepKeepsLimited(c, s, step);
  }

  lemma StepKeepsBase(c: Config, s: State, step: Step)
    requires 0 < c.maxAttempts && Base(c, s) && Enabled(c, s, step)
    ensures Base(c, After(c, s, step))
  {
    match step
    case ClaimBatch(w, ids, workerNow) => ClaimKeepsBase(c, s, w, ids, workerNow);
    case _ => OtherStepsKeepBase(c, s, step);
  }

  lemma {:induction false} BaseHolds(c: Config, run: seq<State>, steps: seq<Step>, i: nat)
    requires 0 < c.maxAttempts && IsRun(c, run, steps) && i < |run|
    ensures Base(c, run[i])
  {
    if i > 0 {
      BaseHolds(c, run, steps, i - 1);
      StepKeepsBase(c, run[i - 1], steps[i - 1]);
    }
  }

  // ---------------------------------------------------------------- the newest claim, with clocks within the lease

  /** A claim with the newest token of its row is the newest claim, and its row has not moved on. */
  predicate NewestOk(r: Row, l: seq<LogEntry>, w: nat, cl: Claim)
    requires l != []
  {
    cl.token == Last(l).token ==> Last(l).worker == w && r.status.InProgress? && r.attemptNo == cl.attemptNo
  }

  ghost predicate Newest(s: State)
    requires |s.log| == |s.rows| && forall w :: w in s.workers ==> Held(s, w)
  {
    forall w :: w in s.workers ==> WorkerNewest(s, w)
  }

  ghost predicate WorkerNewest(s: State, w: nat)
    requires |s.log| == |s.rows| && w in s.workers && Held(s, w)
  {
    var q := s.workers[w].queue;
    forall i :: 0 <= i < |q| ==> NewestOk(s.rows[q[i].id], s.log[q[i].id], w, q[i])
  }

  ghost predicate Inv(c: Config, s: State) {
    Base(c, s) && Newest(s)
  }

  /** A new claim on the same row makes an older one stale instead of wrong: a lapsed lease gives it an older
      token, and after a retry nobody holds the last token any more. */
  lemma OldClaimStaysNewest(c: Config, now: int, workerNow: int, r: Row, l: seq<LogEntry>, w: nat, cl: Claim, e: LogEntry)
    requires ClocksWithinLease(c) && RowOk(now, r, l) && LogEntry(cl.token, w) in l && NewestOk(r, l, w, cl) && ClockOk(c, now, workerNow)
    requires Due(r, now, workerNow - c.lease) && e.token == now
    ensures NewestOk(r.(status := InProgress, claimedAt := Some(now)), l + [e], w, cl)
  {
    TokensAtMostLast(l, LogEntry(cl.token, w));
  }

  lemma ClaimKeepsNewest(c: Config, s: State, w: nat, ids: seq<nat>, workerNow: int, w': nat)
    requires ClocksWithinLease(c) && Inv(c, s) && Enabled(c, s, ClaimBatch(w, ids, workerNow))
    requires w' in After(c, s, ClaimBatch(w, ids, workerNow)).workers && Held(After(c, s, ClaimBatch(w, ids, workerNow)), w')
    ensures WorkerNewest(After(c, s, ClaimBatch(w, ids, workerNow)), w')
  {
    var t := After(c, s, ClaimBatch(w, ids, workerNow));
    var q := t.workers[w'].queue;
    forall i | 0 <= i < |q| ensures NewestOk(t.rows[q[i].id], t.log[q[i].id], w', q[i]) {
      var id := q[i].id;
      if w' == w {
        assert ids[i] in ids;
      } else {
        assert Held(s, w') && WorkerNewest(s, w') && RowOk(s.now, s.rows[id], s.log[id]);
        if id in ids {
          OldClaimStaysNewest(c, s.now, workerNow, s.rows[id], s.log[id], w', q[i], LogEntry(s.now, w));
        }
      }
    }
  }

  /** Nobody but the worker itself, and it only once, holds the claim it finalizes. */
  lemma FinalizeKeepsNewest(c: Config, s: State, w: nat, w': nat)
    requires Inv(c, s) && Enabled(c, s, Finalize(w)) && w' in s.workers && Held(After(c, s, Finalize(w)), w')
    ensures WorkerNewest(After(c, s, Finalize(w)), w')
  {
    var t := After(c, s, Finalize(w));
    var q, head := t.workers[w'].queue, s.workers[w].queue[0];
    assert WorkerNewest(s, w') && WorkerNewest(s, w) && WorkerLimited(c, s.workers[w]);
    forall i | 0 <= i < |q| ensures NewestOk(t.rows[q[i].id], t.log[q[i].id], w', q[i]) {
      var k := if w' == w then i + 1 else i;
      assert q[i] == s.workers[w'].queue[k];
      if q[i].id == head.id {
        assert RowOk(s.now, s.rows[head.id], s.log[head.id]);
      }
    }
  }

  lemma StepKeepsInv(c: Config, s: State, step: Step)
    requires ClocksWithinLease(c) && Inv(c, s) && Enabled(c, s, step)
    ensures Inv(c, After(c, s, step))
  {
    StepKeepsBase(c, s, step);
    var t := After(c, s, step);
    forall w | w in t.workers ensures WorkerNewest(t, w) {
      match step
      case ClaimBatch(v, ids, workerNow) => ClaimKeepsNewest(c, s, v, ids, workerNow, w);
      case Finalize(v) => FinalizeKeepsNewest(c, s, v, w);
      case _ => assert WorkerNewest(s, w);
    }
  }

  lemma {:induction false} InvHolds(c: Config, run: seq<State>, steps: seq<Step>, i: nat)
    requires ClocksWithinLease(c) && IsRun(c, run, steps) && i < |run|
    ensures Inv(c, run[i])
  {
    if i > 0 {
      InvHolds(c, run, steps, i - 1);
      StepKeepsInv(c, run[i - 1], steps[i - 1]);
    }
  }

  // ---------------------------------------------------------------- retries, with clocks within the backoff

  /** A retry, recorded or decided, becomes due strictly after the claim it follows. */
  ghost predicate RetriesLater(c: Config, s: State)
    requires Base(c, s)
  {
    && (forall id :: 0 <= id < |s.rows| ==> RetryLater(s.rows[id], s.log[id]))
    && (forall w :: w in s.workers && s.workers[w].decision.Some? ==> DecisionLater(s.workers[w].decision.value))
  }

  predicate RetryLater(r: Row, l: seq<LogEntry>) {
    r.status.RetryPending? && l != [] ==> r.nextRetryAt.Some? && Last(l).token < r.nextRetryAt.value
  }

  predicate DecisionLater(u: Update) {
    u.status.RetryPending? ==> u.nextRetryAt.Some? && u.token < u.nextRetryAt.value
  }

  lemma DecideKeepsLater(c: Config, s: State, w: nat, o: Outcome, workerNow: int)
    requires ClocksWithinBackoff(c) && Base(c, s) && Enabled(c, s, Decide(w, o, workerNow))
    ensures DecisionLater(Finalization(s.workers[w].queue[0], o, c.maxAttempts, workerNow))
  {
    var head := s.workers[w].queue[0];
    assert Held(s, w) && WorkerLimited(c, s.workers[w]);
    assert RowOk(s.now, s.rows[head.id], s.log[head.id]);
    TokensAtMostLast(s.log[head.id], LogEntry(head.token, w));
  }

  lemma StepKeepsLater(c: Config, s: State, step: Step)
    requires ClocksWithinBackoff(c) && Base(c, s) && RetriesLater(c, s) && Enabled(c, s, step) && Base(c, After(c, s, step))
    ensures RetriesLater(c, After(c, s, step))
  {
    var t := After(c, s, step);
    if step.Decide? {
      DecideKeepsLater(c, s, step.worker, step.outcome, step.workerNow);
    }
    forall id | 0 <= id < |t.rows| ensures RetryLater(t.rows[id], t.log[id]) {
      assert id < |s.rows| ==> RetryLater(s.rows[id], s.log[id]) && RowOk(s.now, s.rows[id], s.log[id]);
    }
  }

  lemma {:induction false} LaterHolds(c: Config, run: seq<State>, steps: seq<Step>, i: nat)
    requires ClocksWithinBackoff(c) && IsRun(c, run, steps) && i < |run|
    ensures Base(c, run[i]) && RetriesLater(c, run[i])
  {
    BaseHolds(c, run, steps, i);
    if i > 0 {
      LaterHolds(c, run, steps, i - 1);
      StepKeepsLater(c, run[i - 1], steps[i - 1]);
    }
  }

  // ---------------------------------------------------------------- attempt numbers

  predicate Current(r: Row, token: int) {
    r.status.InProgress? && r.claimedAt == Some(token)
  }

  /** While a remembered claim is current its attempt number is the row's. */
  ghost predicate SameNumbers(s: State)
    requires |s.log| == |s.rows| && forall w :: w in s.workers ==> Held(s, w)
  {
    forall w :: w in s.workers ==> WorkerSameNumbers(s, w)
  }

  ghost predicate WorkerSameNumbers(s: State, w: nat)
    requires |s.log| == |s.rows| && w in s.workers && Held(s, w)
  {
    var q := s.workers[w].queue;
    forall i :: 0 <= i < |q| ==> (Current(s.rows[q[i].id], q[i].token) ==> s.rows[q[i].id].attemptNo == q[i].attemptNo)
  }

  /** A re-claimed row keeps its attempt number, and a retry is claimed under a newer token. */
  lemma OldClaimSameNumber(now: int, r: Row, l: seq<LogEntry>, cutoff: int, w: nat, cl: Claim)
    requires RowOk(now, r, l) && RetryLater(r, l) && LogEntry(cl.token, w) in l && Due(r, now, cutoff)
    requires Current(r, cl.token) ==> r.attemptNo == cl.attemptNo
    ensures cl.token == now ==> r.attemptNo == cl.attemptNo
  {
    TokensAtMostLast(l, LogEntry(cl.token, w));
  }

  lemma ClaimKeepsNumbers(c: Config, s: State, w: nat, ids: seq<nat>, workerNow: int, w': nat)
    requires Base(c, s) && RetriesLater(c, s) && SameNumbers(s) && Enabled(c, s, ClaimBatch(w, ids, workerNow))
    requires w' in After(c, s, ClaimBatch(w, ids, workerNow)).workers && Held(After(c, s, ClaimBatch(w, ids, workerNow)), w')
    ensures WorkerSameNumbers(After(c, s, ClaimBatch(w, ids, workerNow)), w')
  {
    var t := After(c, s, ClaimBatch(w, ids, workerNow));
    var q := t.workers[w'].queue;
    forall i | 0 <= i < |q| && Current(t.rows[q[i].id], q[i].token) ensures t.rows[q[i].id].attemptNo == q[i].attemptNo {
      var id := q[i].id;
      if w' == w {
        assert ids[i] in ids;
      } else {
        assert Held(s, w') && WorkerSameNumbers(s, w');
        if id in ids {
          OldClaimSameNumber(s.now, s.rows[id], s.log[id], workerNow - c.lease, w', q[i]);
        }
      }
    }
  }

  lemma FinalizeKeepsNumbers(c: Config, s: State, w: nat, w': nat)
    requires Base(c, s) && SameNumbers(s) && Enabled(c, s, Finalize(w)) && w' in s.workers && Held(After(c, s, Finalize(w)), w')
    ensures WorkerSameNumbers(After(c, s, Finalize(w)), w')
  {
    var t := After(c, s, Finalize(w));
    var q := t.workers[w'].queue;
    assert WorkerSameNumbers(s, w') && WorkerLimited(c, s.workers[w]);
    forall i | 0 <= i < |q| && Current(t.rows[q[i].id], q[i].token) ensures t.rows[q[i].id].attemptNo == q[i].attemptNo {
      var k := if w' == w then i + 1 else i;
      assert q[i] == s.workers[w'].queue[k];
    }
  }

  lemma StepKeepsNumbers(c: Config, s: State, step: Step)
    requires Base(c, s) && RetriesLater(c, s) && SameNumbers(s) && Enabled(c, s, step) && Base(c, After(c, s, step))
    ensures SameNumbers(After(c, s, step))
  {
    var t := After(c, s, step);
    forall w | w in t.workers ensures WorkerSameNumbers(t, w) {
      match step
      case ClaimBatch(v, ids, workerNow) => ClaimKeepsNumbers(c, s, v, ids, workerNow, w);
      case Finalize(v) => FinalizeKeepsNumbers(c, s, v, w);
      case _ => assert WorkerSameNumbers(s, w);
    }
  }

  lemma NewestHaveSameNumbers(c: Config, s: State)
    requires Inv(c, s)
    ensures SameNumbers(s)
  {
    forall w | w in s.workers ensures WorkerSameNumbers(s, w) {
      var q := s.workers[w].queue;
      assert WorkerNewest(s, w);
      forall i | 0 <= i < |q| && Current(s.rows[q[i].id], q[i].token) ensures s.rows[q[i].id].attemptNo == q[i].attemptNo {
        assert RowOk(s.now, s.rows[q[i].id], s.log[q[i].id]);
      }
    }
  }

  /** Either bound on the clocks is enough for attempt numbers. */
  lemma {:induction false} NumbersHold(c: Config, run: seq<State>, steps: seq<Step>, i: nat)
    requires (ClocksWithinLease(c) || ClocksWithinBackoff(c)) && IsRun(c, run, steps) && i < |run|
    ensures Base(c, run[i]) && SameNumbers(run[i])
  {
    BaseHolds(c, run, steps, i);
    if ClocksWithinLease(c) {
      InvHolds(c, run, steps, i);
      NewestHaveSameNumbers(c, run[i]);
    } else if i > 0 {
      NumbersHold(c, run, steps, i - 1);
      LaterHolds(c, run, steps, i - 1);
      StepKeepsNumbers(c, run[i - 1], steps[i - 1]);
    }
  }

  // ---------------------------------------------------------------- fencing

  /** A finalization takes effect exactly when its worker is the row's latest claimant and nobody
      has finalized that claim; then it changes that one row, and otherwise nothing. */
  lemma Fencing(c: Config, run: seq<State>, steps: seq<Step>, i: nat, w: nat)
    requires ClocksWithinLease(c) && IsRun(c, run, steps) && i < |steps| && steps[i] == Finalize(w)
    ensures var s, u := run[i], run[i].workers[w].decision.value;
            && u.id < |s.rows| == |run[i + 1].rows| == |s.log| && s.log[u.id] != []
            && (run[i + 1].rows != s.rows <==>
                  s.rows[u.id].status.InProgress? && Last(s.log[u.id]) == LogEntry(u.token, w))
            && (forall id :: 0 <= id < |s.rows| && id != u.id ==> run[i + 1].rows[id] == s.rows[id])
            && (Last(s.log[u.id]).worker != w ==> run[i + 1].rows == s.rows)
  {
    InvHolds(c, run, steps, i);
    var s, u := run[i], run[i].workers[w].decision.value;
    assert WorkerNewest(s, w) && WorkerLimited(c, s.workers[w]);
    assert RowOk(s.now, s.rows[u.id], s.log[u.id]);
    if Matches(s.rows, u) {
      assert run[i + 1].rows[u.id].status != s.rows[u.id].status;
    }
  }

  // ---------------------------------------------------------------- what the lease is for

  /** Until its lease, less the skew, has passed, a held claim is the row's newest and the row is in progress under it. */
  predicate Exclusive(c: Config, now: int, r: Row, l: seq<LogEntry>, w: nat, cl: Claim) {
    now < cl.token + c.lease - c.skew ==> Current(r, cl.token) && l != [] && Last(l) == LogEntry(cl.token, w)
  }

  ghost predicate WorkerExclusive(c: Config, s: State, w: nat)
    requires |s.log| == |s.rows| && w in s.workers && Held(s, w)
  {
    var q := s.workers[w].queue;
    forall i :: 0 <= i < |q| ==> Exclusive(c, s.now, s.rows[q[i].id], s.log[q[i].id], w, q[i])
  }

  ghost predicate AllExclusive(c: Config, s: State)
    requires Base(c, s)
  {
    forall w :: w in s.workers ==> WorkerExclusive(c, s, w)
  }

  lemma ClaimKeepsExclusive(c: Config, s: State, w: nat, ids: seq<nat>, workerNow: int, w': nat)
    requires Base(c, s) && AllExclusive(c, s) && Enabled(c, s, ClaimBatch(w, ids, workerNow))
    requires w' in After(c, s, ClaimBatch(w, ids, workerNow)).workers && Held(After(c, s, ClaimBatch(w, ids, workerNow)), w')
    ensures WorkerExclusive(c, After(c, s, ClaimBatch(w, ids, workerNow)), w')
  {
    var t := After(c, s, ClaimBatch(w, ids, workerNow));
    var q := t.workers[w'].queue;
    forall i | 0 <= i < |q| ensures Exclusive(c, t.now, t.rows[q[i].id], t.log[q[i].id], w', q[i]) {
      if w' == w {
        assert ids[i] in ids;
      } else {
        assert WorkerExclusive(c, s, w');
        assert Exclusive(c, s.now, s.rows[q[i].id], s.log[q[i].id], w', q[i]);
      }
    }
  }

  lemma FinalizeKeepsExclusive(c: Config, s: State, w: nat, w': nat)
    requires Inv(c, s) && AllExclusive(c, s) && Enabled(c, s, Finalize(w)) && w' in s.workers && Held(After(c, s, Finalize(w)), w')
    ensures WorkerExclusive(c, After(c, s, Finalize(w)), w')
  {
    var t := After(c, s, Finalize(w));
    var q, head := t.workers[w'].queue, s.workers[w].queue[0];
    assert WorkerExclusive(c, s, w') && WorkerNewest(s, w) && WorkerLimited(c, s.workers[w]) && Held(s, w');
    forall i | 0 <= i < |q| ensures Exclusive(c, t.now, t.rows[q[i].id], t.log[q[i].id], w', q[i]) {
      var k := if w' == w then i + 1 else i;
      assert q[i] == s.workers[w'].queue[k];
      assert Exclusive(c, s.now, s.rows[q[i].id], s.log[q[i].id], w', q[i]);
      if q[i].id == head.id {
        assert NewestOk(s.rows[head.id], s.log[head.id], w, head);
      }
    }
  }

  lemma StepKeepsExclusive(c: Config, s: State, step: Step)
    requires Inv(c, s) && AllExclusive(c, s) && Enabled(c, s, step) && Base(c, After(c, s, step))
    ensures AllExclusive(c, After(c, s, step))
  {
    var t := After(c, s, step);
    forall w | w in t.workers ensures WorkerExclusive(c, t, w) {
      match step
      case ClaimBatch(v, ids, workerNow) => ClaimKeepsExclusive(c, s, v, ids, workerNow, w);
      case Finalize(v) => FinalizeKeepsExclusive(c, s, v, w);
      case _ => assert WorkerExclusive(c, s, w);
    }
  }

  lemma {:induction false} ExclusiveHolds(c: Config, run: seq<State>, steps: seq<Step>, i: nat)
    requires ClocksWithinLease(c) && IsRun(c, run, steps) && i < |run|
    ensures Inv(c, run[i]) && AllExclusive(c, run[i])
  {
    InvHolds(c, run, steps, i);
    if i > 0 {
      ExclusiveHolds(c, run, steps, i - 1);
      StepKeepsExclusive(c, run[i - 1], steps[i - 1]);
    }
  }

  /** What the lease is for: in every interleaving a claim that a worker holds is the row's newest, with the row in
      progress under it and its attempt number unchanged, as long as less than the lease minus the skew has passed. */
  lemma LeaseIsExclusive(c: Config, run: seq<State>, steps: seq<Step>, i: nat, w: nat, k: nat)
    requires ClocksWithinLease(c) && IsRun(c, run, steps) && i < |run| && w in run[i].workers && k < |run[i].workers[w].queue|
    ensures var s, cl := run[i], run[i].workers[w].queue[k];
            && cl.id < |s.rows| == |s.log|
            && (s.now < cl.token + c.lease - c.skew ==>
                && Current(s.rows[cl.id], cl.token) && s.rows[cl.id].attemptNo == cl.attemptNo
                && s.log[cl.id] != [] && Last(s.log[cl.id]) == LogEntry(cl.token, w))
  {
    ExclusiveHolds(c, run, steps, i);
    var s, cl := run[i], run[i].workers[w].queue[k];
    assert Held(s, w) && WorkerExclusive(c, s, w) && WorkerNewest(s, w);
    assert Exclusive(c, s.now, s.rows[cl.id], s.log[cl.id], w, cl);
    assert s.log[cl.id] != [] ==> NewestOk(s.rows[cl.id], s.log[cl.id], w, cl);
  }

  /** And the moment is exact: from then on, and not before, some worker's clock lets it claim the row. */
  lemma LeaseEndsExactly(c: Config, now: int, r: Row, token: int)
    requires ValidConfig(c) && Current(r, token)
    ensures (exists workerNow :: ClockOk(c, now, workerNow) && Due(r, now, workerNow - c.lease)) <==> token + c.lease - c.skew <= now
  {
    assert ClockOk(c, now, now + c.skew);
    assert Due(r, now, now + c.skew - c.lease) <==> token <= now + c.skew - c.lease;
  }

  // ---------------------------------------------------------------- attempt lifecycle

  ghost predicate EffectiveFor(s: State, step: Step, id: nat) {
    && step.Finalize? && step.worker in s.workers && s.workers[step.worker].decision.Some?
    && s.workers[step.worker].decision.value.id == id
    && Matches(s.rows, s.workers[step.worker].decision.value)
  }

  /** How many of the first `n` steps finalized row `id`. */
  ghost function Finalizations(run: seq<State>, steps: seq<Step>, id: nat, n: nat): nat
    requires n <= |steps| && |run| == |steps| + 1
  {
    if n == 0 then 0
    else Finalizations(run, steps, id, n - 1) + if EffectiveFor(run[n - 1], steps[n - 1], id) then 1 else 0
  }

  lemma StepCountsFinalization(c: Config, s: State, step: Step, id: nat)
    requires Base(c, s) && SameNumbers(s) && Enabled(c, s, step) && id < |s.rows|
    ensures var t := After(c, s, step);
            && |s.rows| <= |t.rows|
            && t.rows[id].attemptNo == s.rows[id].attemptNo + (if EffectiveFor(s, step, id) then 1 else 0)
  {
    if step.Finalize? {
      assert WorkerSameNumbers(s, step.worker) && WorkerLimited(c, s.workers[step.worker]);
    }
  }

  /** In every reachable state `attempt_no` is the number of effective finalizations of the row. */
  lemma {:induction false} AttemptLifecycle(c: Config, run: seq<State>, steps: seq<Step>, n: nat, id: nat)
    requires (ClocksWithinLease(c) || ClocksWithinBackoff(c)) && IsRun(c, run, steps) && n <= |steps|
    ensures id < |run[n].rows| ==> run[n].rows[id].attemptNo == Finalizations(run, steps, id, n)
    ensures id >= |run[n].rows| ==> Finalizations(run, steps, id, n) == 0
  {
    if n > 0 {
      AttemptLifecycle(c, run, steps, n - 1, id);
      NumbersHold(c, run, steps, n - 1);
      if id < |run[n - 1].rows| {
        StepCountsFinalization(c, run[n - 1], steps[n - 1], id);
      } else {
        NoEffectYet(c, run[n - 1], steps[n - 1], id);
      }
    }
  }

  lemma NoEffectYet(c: Config, s: State, step: Step, id: nat)
    requires Base(c, s) && Enabled(c, s, step) && id >= |s.rows|
    ensures !EffectiveFor(s, step, id)
    ensures var t := After(c, s, step); id < |t.rows| ==> t.rows[id].attemptNo == 0
  {
  }

  // ---------------------------------------------------------------- outcomes

  /** The step ends or loses the decision that `w` holds. */
  predicate EndsDecision(step: Step, w: nat) {
    step == Finalize(w) || step == Crash(w)
  }

  /** A decision a worker holds was made by that worker in an earlier step, for the claim that is still at the
      head of its queue. */
  lemma {:induction false} DecisionOrigin(c: Config, run: seq<State>, steps: seq<Step>, i: nat, w: nat)
    returns (d: nat, o: Outcome, workerNow: int)
    requires IsRun(c, run, steps) && i < |run| && w in run[i].workers && run[i].workers[w].decision.Some?
    ensures d < i && steps[d] == Decide(w, o, workerNow) && Enabled(c, run[d], steps[d])
    ensures run[d].workers[w].queue == run[i].workers[w].queue
    ensures forall k :: d <= k < i ==> !EndsDecision(steps[k], w)
    ensures run[i].workers[w].decision.value == Finalization(run[d].workers[w].queue[0], o, c.maxAttempts, workerNow)
  {
    var step := steps[i - 1];
    if step.Decide? && step.worker == w {
      d, o, workerNow := i - 1, step.outcome, step.workerNow;
    } else {
      d, o, workerNow := DecisionOrigin(c, run, steps, i - 1, w);
    }
  }

  /** What an effective finalization leaves in its row, by the outcome of a delivery: delivered after success,
      waiting for a retry after a retryable failure below the limit, failed otherwise.  The wait, from the worker's
      clock, is 5, 15, 45 and then always 90 seconds. */
  ghost predicate Records(c: Config, o: Outcome, workerNow: int, r: Row) {
    && (r.status.Delivered? <==> o.Success?)
    && (r.status.RetryPending? <==> o.Retryable? && r.attemptNo < c.maxAttempts)
    && (r.status.Failed? <==> o.Terminal? || o.Undeliverable? || (o.Retryable? && r.attemptNo == c.maxAttempts))
    && (!r.status.RetryPending? ==> r.nextRetryAt.None?)
    && (r.status.RetryPending? ==>
          r.nextRetryAt == Some(workerNow + if r.attemptNo == 1 then 5_000_000 else if r.attemptNo == 2 then 15_000_000
                                            else if r.attemptNo == 3 then 45_000_000 else 90_000_000))
  }

  /** In every interleaving a finalization that takes effect records the outcome of the delivery that its
      worker made for this row under this claim, with the attempt number that follows the row's. */
  lemma OutcomeIsRecorded(c: Config, run: seq<State>, steps: seq<Step>, i: nat, w: nat)
    returns (d: nat, o: Outcome, workerNow: int)
    requires (ClocksWithinLease(c) || ClocksWithinBackoff(c)) && IsRun(c, run, steps)
    requires i < |steps| && steps[i] == Finalize(w) && run[i + 1].rows != run[i].rows
    ensures d < i && steps[d] == Decide(w, o, workerNow) && ClockOk(c, run[d].now, workerNow)
    ensures w in run[d].workers && run[d].workers[w].queue == run[i].workers[w].queue
    ensures forall k :: d <= k < i ==> !EndsDecision(steps[k], w)
    ensures var id := run[i].workers[w].queue[0].id;
            && EffectiveFor(run[i], steps[i], id)
            && id < |run[i].rows| && id < |run[i + 1].rows|
            && run[i + 1].rows[id].attemptNo == run[i].rows[id].attemptNo + 1
            && Records(c, o, workerNow, run[i + 1].rows[id])
  {
    d, o, workerNow := DecisionOrigin(c, run, steps, i, w);
    NumbersHold(c, run, steps, i);
    var s, id := run[i], run[i].workers[w].queue[0].id;
    assert WorkerSameNumbers(s, w) && WorkerLimited(c, s.workers[w]) && RowLimited(c, s.rows[id]);
  }

  lemma {:induction false} AttemptNoGrows(c: Config, run: seq<State>, steps: seq<Step>, i: nat, j: nat, id: nat)
    requires (ClocksWithinLease(c) || ClocksWithinBackoff(c)) && IsRun(c, run, steps) && i <= j < |run| && id < |run[i].rows|
    ensures id < |run[j].rows| && run[i].rows[id].attemptNo <= run[j].rows[id].attemptNo
    decreases j
  {
    if i < j {
      AttemptNoGrows(c, run, steps, i, j - 1, id);
      NumbersHold(c, run, steps, j - 1);
      StepNeverLowers(c, run[j - 1], steps[j - 1], id);
    }
  }

  lemma StepNeverLowers(c: Config, s: State, step: Step, id: nat)
    requires Base(c, s) && SameNumbers(s) && Enabled(c, s, step) && id < |s.rows|
    ensures id < |After(c, s, step).rows| && s.rows[id].attemptNo <= After(c, s, step).rows[id].attemptNo
  {
    StepCountsFinalization(c, s, step, id);
  }

  /** Along every interleaving the waits between the attempts of one row never shrink: two states in which the
      row waits for a retry after effective finalizations by `v` and later by `w`. */
  lemma WaitsNeverShrink(c: Config, run: seq<State>, steps: seq<Step>, i: nat, v: nat, j: nat, w: nat, id: nat)
    returns (first: nat, firstNow: int, later: nat, laterNow: int)
    requires (ClocksWithinLease(c) || ClocksWithinBackoff(c)) && IsRun(c, run, steps)
    requires i < j < |steps| && steps[i] == Finalize(v) && steps[j] == Finalize(w)
    requires EffectiveFor(run[i], steps[i], id) && EffectiveFor(run[j], steps[j], id)
    requires id < |run[i + 1].rows| && run[i + 1].rows[id].status.RetryPending?
    requires id < |run[j + 1].rows| && run[j + 1].rows[id].status.RetryPending?
    ensures first < i && steps[first] == Decide(v, Retryable, firstNow) && later < j && steps[later] == Decide(w, Retryable, laterNow)
    ensures var x, y := run[i + 1].rows[id].nextRetryAt, run[j + 1].rows[id].nextRetryAt;
            x.Some? && y.Some? && 5_000_000 <= x.value - firstNow <= y.value - laterNow <= 90_000_000
  {
    var o, o';
    EffectiveChanges(c, run, steps, i, v, id);
    EffectiveChanges(c, run, steps, j, w, id);
    first, o, firstNow := OutcomeIsRecorded(c, run, steps, i, v);
    later, o', laterNow := OutcomeIsRecorded(c, run, steps, j, w);
    AttemptNoGrows(c, run, steps, i + 1, j + 1, id);
    AttemptsWithinLimit(c, run, steps, i, id);
  }

  lemma EffectiveChanges(c: Config, run: seq<State>, steps: seq<Step>, i: nat, w: nat, id: nat)
    requires 0 < c.maxAttempts && IsRun(c, run, steps) && i < |steps| && steps[i] == Finalize(w) && EffectiveFor(run[i], steps[i], id)
    ensures run[i + 1].rows != run[i].rows && run[i].workers[w].queue[0].id == id
  {
    LimitedHolds(c, run, steps, i);
    assert WorkerLimited(c, run[i].workers[w]);
    assert run[i + 1].rows[id].status != run[i].rows[id].status;
  }

  // ---------------------------------------------------------------- tokens

  ghost predicate AllIncreasing(s: State) {
    forall id :: 0 <= id < |s.log| ==> Increasing(s.log[id])
  }

  lemma DueTokenIsOld(c: Config, s: State, workerNow: int, id: nat)
    requires ClocksWithinLease(c) && Base(c, s) && RetriesLater(c, s) && id < |s.rows| && ClockOk(c, s.now, workerNow)
    requires Due(s.rows[id], s.now, workerNow - c.lease)
    ensures s.log[id] != [] ==> Last(s.log[id]).token < s.now
  {
    assert RowOk(s.now, s.rows[id], s.log[id]) && RetryLater(s.rows[id], s.log[id]);
  }

  lemma StepKeepsIncreasing(c: Config, s: State, step: Step)
    requires ClocksWithinLease(c) && Base(c, s) && RetriesLater(c, s) && AllIncreasing(s) && Enabled(c, s, step)
    ensures AllIncreasing(After(c, s, step))
  {
    if step.ClaimBatch? {
      var t := After(c, s, step);
      forall id | 0 <= id < |t.log| ensures Increasing(t.log[id]) {
        if id in step.ids {
          DueTokenIsOld(c, s, step.workerNow, id);
          IncreasingAppend(s.log[id], LogEntry(s.now, step.worker));
        }
      }
    }
  }

  lemma {:induction false} IncreasingHolds(c: Config, run: seq<State>, steps: seq<Step>, i: nat)
    requires ClocksWithinLease(c) && ClocksWithinBackoff(c) && IsRun(c, run, steps) && i < |run|
    ensures AllIncreasing(run[i])
  {
    if i > 0 {
      IncreasingHolds(c, run, steps, i - 1);
      LaterHolds(c, run, steps, i - 1);
      StepKeepsIncreasing(c, run[i - 1], steps[i - 1]);
    }
  }

  /** In every interleaving the claim tokens of one row strictly increase, and a claim in the table
      is the newest of them. */
  lemma TokensStrictlyIncrease(c: Config, run: seq<State>, steps: seq<Step>, i: nat, id: nat)
    requires ClocksWithinLease(c) && ClocksWithinBackoff(c) && IsRun(c, run, steps) && i < |run| && id < |run[i].rows|
    ensures |run[i].log| == |run[i].rows|
    ensures forall j, k :: 0 <= j < k < |run[i].log[id]| ==> run[i].log[id][j].token < run[i].log[id][k].token
    ensures run[i].rows[id].claimedAt.Some? ==>
              run[i].log[id] != [] && run[i].rows[id].claimedAt.value == Last(run[i].log[id]).token
  {
    BaseHolds(c, run, steps, i);
    IncreasingHolds(c, run, steps, i);
    assert RowOk(run[i].now, run[i].rows[id], run[i].log[id]);
  }

  // ---------------------------------------------------------------- the clock bound is needed

  /** Claiming the only row of the table. */
  lemma ClaimOnlyRow(c: Config, s: State, w: nat, workerNow: int)
    requires |s.rows| == |s.log| == 1 && 1 <= c.batch && ClockOk(c, s.now, workerNow) && w !in s.workers
    requires Due(s.rows[0], s.now, workerNow - c.lease)
    ensures Enabled(c, s, ClaimBatch(w, [0], workerNow))
    ensures After(c, s, ClaimBatch(w, [0], workerNow)) ==
            State(s.now, [s.rows[0].(status := InProgress, claimedAt := Some(s.now))], [s.log[0] + [LogEntry(s.now, w)]],
                  s.workers[w := Worker([Claim(0, s.now, s.rows[0].attemptNo)], None)])
  {
    assert ClaimsOf(s.rows, [0], s.now) == [Claim(0, s.now, s.rows[0].attemptNo)];
  }

  /** One more step of a run. */
  lemma Extended(c: Config, run: seq<State>, steps: seq<Step>, step: Step) returns (run': seq<State>, steps': seq<Step>)
    requires IsRun(c, run, steps) && Enabled(c, run[|steps|], step)
    ensures run' == run + [After(c, run[|steps|], step)] && steps' == steps + [step]
    ensures IsRun(c, run', steps')
  {
    run', steps' := run + [After(c, run[|steps|], step)], steps + [step];
  }

  lemma OneClaim(c: Config) returns (run: seq<State>, steps: seq<Step>)
    requires 0 < c.batch && 0 <= c.skew
    ensures IsRun(c, run, steps) && |steps| == 2 && !steps[0].Finalize? && !steps[1].Finalize?
    ensures run[2] == State(0, [Row(0, InProgress, Some(0), None)], [[LogEntry(0, 1)]], map[1 := Worker([Claim(0, 0, 0)], None)])
  {
    run, steps := [State(0, [], [], map[])], [];
    run, steps := Extended(c, run, steps, InsertAttempts(1));
    assert run[1].log == [[]] && [] + [LogEntry(0, 1)] == [LogEntry(0, 1)];
    ClaimOnlyRow(c, run[1], 1, 0);
    run, steps := Extended(c, run, steps, ClaimBatch(1, [0], 0));
  }

  /** With clocks a lease or more apart two workers can hold the same row under the same token. */
  lemma TwoClaims(c: Config) returns (run: seq<State>, steps: seq<Step>)
    requires 0 < c.batch && 0 < c.lease <= c.skew
    ensures IsRun(c, run, steps) && |steps| == 3 && forall k :: 0 <= k < 3 ==> !steps[k].Finalize?
    ensures run[3] == State(0, [Row(0, InProgress, Some(0), None)], [[LogEntry(0, 1), LogEntry(0, 2)]],
                            map[1 := Worker([Claim(0, 0, 0)], None), 2 := Worker([Claim(0, 0, 0)], None)])
  {
    run, steps := OneClaim(c);
    ClaimOnlyRow(c, run[2], 2, c.lease);
    run, steps := Extended(c, run, steps, ClaimBatch(2, [0], c.lease));
    assert [LogEntry(0, 1)] + [LogEntry(0, 2)] == [LogEntry(0, 1), LogEntry(0, 2)];
    assert run[3].workers == map[1 := Worker([Claim(0, 0, 0)], None), 2 := Worker([Claim(0, 0, 0)], None)];
  }

  /** Then the stale worker's finalization goes through: worker 2 is the latest claimant of row 0, worker 1
      finalizes it. */
  lemma SkewOfOneLeaseBreaksFencing(c: Config) returns (run: seq<State>, steps: seq<Step>)
    requires 0 < c.maxAttempts && 0 < c.batch && 0 < c.lease <= c.skew
    ensures IsRun(c, run, steps) && |steps| == 5 && steps[4] == Finalize(1)
    ensures |run[4].log| == 1 && run[4].log[0] == [LogEntry(0, 1), LogEntry(0, 2)]
    ensures |run[4].rows| == |run[5].rows| == 1 && run[4].rows[0].status == InProgress && run[5].rows[0].status == Delivered
  {
    run, steps := TwoClaims(c);
    run, steps := Extended(c, run, steps, Decide(1, Success, 0));
    run, steps := Extended(c, run, steps, Finalize(1));
  }

  /** With a worker clock behind by the shortest backoff or more, a retry can be due at once and be
      claimed again under the same token. */
  lemma SkewOfBackoffRepeatsToken(c: Config) returns (run: seq<State>, steps: seq<Step>)
    requires 1 < c.maxAttempts && 0 < c.batch && 5_000_000 <= c.skew
    ensures IsRun(c, run, steps) && |steps| == 5
    ensures |run[5].log| == 1 && run[5].log[0] == [LogEntry(0, 1), LogEntry(0, 2)]
  {
    var behind := -5_000_000;
    run, steps := OneClaim(c);
    run, steps := Extended(c, run, steps, Decide(1, Retryable, behind));
    run, steps := Extended(c, run, steps, Finalize(1));
    assert run[4].rows == [Row(1, RetryPending, None, Some(0))];
    ClaimOnlyRow(c, run[4], 2, 0);
    run, steps := Extended(c, run, steps, ClaimBatch(2, [0], 0));
    assert [LogEntry(0, 1)] + [LogEntry(0, 2)] == [LogEntry(0, 1), LogEntry(0, 2)];
  }

  /** With clocks apart by the shortest backoff as well, the first of them can fail and a third worker claim the
      retry under that token again, while the second still holds its decision. */
  lemma ClaimedOverRetry(c: Config) returns (run: seq<State>, steps: seq<Step>)
    requires 1 < c.maxAttempts && 0 < c.batch && 0 < c.lease <= c.skew && 5_000_000 <= c.skew
    ensures IsRun(c, run, steps) && |steps| == 7 && steps[5] == Finalize(1)
    ensures forall k :: 0 <= k < 7 && k != 5 ==> !steps[k].Finalize?
    ensures EffectiveFor(run[5], steps[5], 0)
    ensures run[7].rows == [Row(1, InProgress, Some(0), Some(0))]
    ensures 2 in run[7].workers && run[7].workers[2] == Worker([Claim(0, 0, 0)], Some(Update(0, 0, 1, Delivered, None)))
  {
    var behind := -5_000_000;
    run, steps := TwoClaims(c);
    run, steps := Extended(c, run, steps, Decide(1, Retryable, behind));
    run, steps := Extended(c, run, steps, Decide(2, Success, 0));
    run, steps := Extended(c, run, steps, Finalize(1));
    assert run[6].rows == [Row(1, RetryPending, None, Some(0))];
    ClaimOnlyRow(c, run[6], 3, 0);
    run, steps := Extended(c, run, steps, ClaimBatch(3, [0], 0));
  }

  /** Then that stale decision takes effect and sets the attempt number back: two finalizations, one attempt
      counted. */
  lemma SkewOfBothLosesAttempt(c: Config) returns (run: seq<State>, steps: seq<Step>)
    requires 1 < c.maxAttempts && 0 < c.batch && 0 < c.lease <= c.skew && 5_000_000 <= c.skew
    ensures IsRun(c, run, steps) && |steps| == 8
    ensures |run[8].rows| == 1 && run[8].rows[0].attemptNo == 1 && Finalizations(run, steps, 0, 8) == 2
  {
    run, steps := ClaimedOverRetry(c);
    run, steps := Extended(c, run, steps, Finalize(2));
    NoFinalizeNoCount(run, steps, 0, 5);
    assert EffectiveFor(run[7], steps[7], 0);
    assert Finalizations(run, steps, 0, 6) == 1;
    assert Finalizations(run, steps, 0, 7) == 1;
  }

  lemma {:induction false} NoFinalizeNoCount(run: seq<State>, steps: seq<Step>, id: nat, n: nat)
    requires n <= |steps| && |run| == |steps| + 1 && forall k :: 0 <= k < n ==> !steps[k].Finalize?
    ensures Finalizations(run, steps, id, n) == 0
  {
    if n > 0 {
      NoFinalizeNoCount(run, steps, id, n - 1);
    }
  }

  ghost predicate AttemptsCounted(c: Config) {
    forall run: seq<State>, steps: seq<Step>, n: nat, id: nat ::
      IsRun(c, run, steps) && n <= |steps| && id < |run[n].rows| ==> run[n].rows[id].attemptNo == Finalizations(run, steps, id, n)
  }

  /** Attempt numbers count finalizations in every interleaving exactly when the clocks are closer than the lease
      or than the shortest backoff, or there are no retries. */
  lemma LifecycleBoundIsExact(c: Config)
    requires ValidConfig(c)
    ensures AttemptsCounted(c) <==> c.skew < c.lease || c.maxAttempts == 1 || c.skew < 5_000_000
  {
    if ClocksWithinLease(c) || ClocksWithinBackoff(c) {
      forall run: seq<State>, steps: seq<Step>, n: nat, id: nat | IsRun(c, run, steps) && n <= |steps| && id < |run[n].rows|
        ensures run[n].rows[id].attemptNo == Finalizations(run, steps, id, n)
      {
        AttemptLifecycle(c, run, steps, n, id);
      }
    } else {
      var run, steps := SkewOfBothLosesAttempt(c);
      assert run[8].rows[0].attemptNo != Finalizations(run, steps, 0, 8);
    }
  }

  ghost predicate TokensIncrease(c: Config) {
    forall run: seq<State>, steps: seq<Step>, i: nat, id: nat ::
      IsRun(c, run, steps) && i < |run| && id < |run[i].log| ==> Increasing(run[i].log[id])
  }

  /** Tokens increase in every interleaving exactly when the clocks are closer than the lease and, with more
      than one attempt, than the shortest backoff. */
  lemma ClockBoundIsExact(c: Config)
    requires ValidConfig(c)
    ensures TokensIncrease(c) <==> c.skew < c.lease && (c.maxAttempts == 1 || c.skew < 5_000_000)
  {
    if c.skew >= c.lease {
      var run, steps := SkewOfOneLeaseBreaksFencing(c);
      assert run[4].log[0][0].token >= run[4].log[0][1].token;
    } else if !ClocksWithinBackoff(c) {
      var run, steps := SkewOfBackoffRepeatsToken(c);
      assert run[5].log[0][0].token >= run[5].log[0][1].token;
    } else {
      forall run: seq<State>, steps: seq<Step>, i: nat, id: nat | IsRun(c, run, steps) && i < |run| && id < |run[i].log|
        ensures Increasing(run[i].log[id])
      {
        IncreasingHolds(c, run, steps, i);
      }
    }
  }

  /** Only the latest claimant of a row ever changes it by a finalization. */
  ghost predicate Fenced(c: Config) {
    forall run: seq<State>, steps: seq<Step>, i: nat ::
      IsRun(c, run, steps) && i < |steps| && steps[i].Finalize? ==> OnlyLatestFinalizes(run[i], run[i + 1], steps[i].worker)
  }

  ghost predicate OnlyLatestFinalizes(s: State, t: State, w: nat) {
    forall id :: 0 <= id < |s.rows| == |s.log| == |t.rows| && t.rows[id] != s.rows[id] ==> s.log[id] != [] && Last(s.log[id]).worker == w
  }

  /** Fencing holds in every interleaving exactly when the clocks are closer than the lease; the backoff does
      not matter for it. */
  lemma FencingBoundIsExact(c: Config)
    requires ValidConfig(c)
    ensures Fenced(c) <==> c.skew < c.lease
  {
    if c.skew >= c.lease {
      var run, steps := SkewOfOneLeaseBreaksFencing(c);
      assert steps[4].Finalize? && run[5].rows[0] != run[4].rows[0];
      assert !OnlyLatestFinalizes(run[4], run[5], steps[4].worker);
    } else {
      forall run: seq<State>, steps: seq<Step>, i: nat | IsRun(c, run, steps) && i < |steps| && steps[i].Finalize?
        ensures OnlyLatestFinalizes(run[i], run[i + 1], steps[i].worker)
      {
        Fencing(c, run, steps, i, steps[i].worker);
      }
    }
  }
}
