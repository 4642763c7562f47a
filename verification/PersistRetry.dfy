/**
  Persisting one request: write every blob, retrying the whole round, then hand the references to
  the metadata sink, retrying that.  Writer, sink and shutdown flag are arbitrary: each answer may
  depend on everything that happened before.  A run is recorded as the trace of its outside calls.
*/
module PersistRetry {
  datatype Blob = Blob(path: string, bytes: seq<int>)

  datatype Stored = Stored(location: string, size: nat)

  datatype Written = Done(stored: Stored) | WriteFailed(retryable: bool)

  datatype Saved = SaveDone | SaveFailed(retryable: bool)

  datatype Event =
    | Write(index: nat, blob: Blob, written: Written)
    | Persist(blobs: seq<Stored>, saved: Saved)
    | Sleep(delay: nat)
    | Delete(removed: Stored)

  type Trace = seq<Event>

  /** The environment: what each call answers after a given trace. */
  datatype World = World(write: (Trace, Blob) -> Written, save: (Trace, seq<Stored>) -> Saved, closed: Trace -> bool)

  datatype Config = Config(initialDelay: nat, maxDelay: nat, maxAttempts: nat)

  datatype Stage = BlobWrite | MetadataPersist

  datatype Outcome = Persisted | StaleDropped(stage: Stage) | Failed(stage: Stage)

  // ---------------------------------------------------------------- budget and delays

  /** Tries a stage may make. */
  function Budget(c: Config): nat {
    if c.maxAttempts < 1 then 1 else c.maxAttempts
  }

  predicate BudgetExhausted(c: Config, attempt: nat) {
    attempt + 1 >= Budget(c)
  }

  function Power2(k: nat): nat {
    if k == 0 then 1 else 2 * Power2(k - 1)
  }

  function RetryDelay(c: Config, attempt: nat): nat {
    var delay := c.initialDelay * Power2(if attempt < 6 then attempt else 6);
    if delay < c.maxDelay then delay else c.maxDelay
  }

  /** Tries after the first. */
  function Retries(tries: nat): nat {
    if tries == 0 then 0 else tries - 1
  }

  /** The first `n` delays of a stage. */
  function Delays(c: Config, n: nat): seq<nat> {
    seq(n, k requires 0 <= k < n => RetryDelay(c, k))
  }

  lemma {:induction false} Power2Grows(j: nat, k: nat)
    requires j <= k
    ensures 1 <= Power2(j) <= Power2(k)
  {
    if k > 0 {
      Power2Grows(if j == k then k - 1 else j, k - 1);
    }
  }

  lemma SixDoublings()
    ensures Power2(6) == 64
  {
    assert Power2(2) == 4;
    assert Power2(4) == 16;
  }

  lemma Scale(d: nat, p: nat, q: nat)
    requires p <= q
    ensures d * p <= d * q
  {
  }

  /** Delays never shrink within a stage, and never pass the configured maximum or 64 times the initial one. */
  lemma DelaysGrow(c: Config, j: nat, k: nat)
    requires j <= k
    ensures RetryDelay(c, j) <= RetryDelay(c, k) <= c.maxDelay
    ensures RetryDelay(c, k) <= 64 * c.initialDelay
  {
    var a, b := if j < 6 then j else 6, if k < 6 then k else 6;
    Power2Grows(a, b);
    Power2Grows(b, 6);
    SixDoublings();
    Scale(c.initialDelay, Power2(a), Power2(b));
    Scale(c.initialDelay, Power2(b), 64);
  }

  // ---------------------------------------------------------------- views of a trace

  /** How often blob `index` was written. */
  function Writes(t: Trace, index: nat): nat {
    if t == [] then 0 else Writes(t[..|t| - 1], index) + if t[|t| - 1].Write? && t[|t| - 1].index == index then 1 else 0
  }

  function Persists(t: Trace): nat {
    if t == [] then 0 else Persists(t[..|t| - 1]) + if t[|t| - 1].Persist? then 1 else 0
  }

  function Sleeps(t: Trace): seq<nat> {
    if t == [] then [] else Sleeps(t[..|t| - 1]) + if t[|t| - 1].Sleep? then [t[|t| - 1].delay] else []
  }

  function Deletes(t: Trace): seq<Stored> {
    if t == [] then [] else Deletes(t[..|t| - 1]) + if t[|t| - 1].Delete? then [t[|t| - 1].removed] else []
  }

  lemma Append(t: Trace, e: Event)
    ensures forall i: nat :: Writes(t + [e], i) == Writes(t, i) + if e.Write? && e.index == i then 1 else 0
    ensures Persists(t + [e]) == Persists(t) + if e.Persist? then 1 else 0
    ensures Sleeps(t + [e]) == Sleeps(t) + if e.Sleep? then [e.delay] else []
    ensures Deletes(t + [e]) == Deletes(t) + if e.Delete? then [e.removed] else []
  {
    assert (t + [e])[..|t|] == t;
  }

  /** The trace contains only what the environment answers. */
  ghost predicate Answered(w: World, t: Trace) {
    forall k :: 0 <= k < |t| ==>
      match t[k]
      case Write(_, blob, written) => written == w.write(t[..k], blob)
      case Persist(blobs, saved) => saved == w.save(t[..k], blobs)
      case _ => true
  }

  lemma AnsweredAppend(w: World, t: Trace, e: Event)
    requires Answered(w, t)
    requires e.Write? ==> e.written == w.write(t, e.blob)
    requires e.Persist? ==> e.saved == w.save(t, e.blobs)
    ensures Answered(w, t + [e])
  {
    var t' := t + [e];
    assert forall k :: 0 <= k <= |t| ==> t'[..k] == t[..k];
    assert t[..|t|] == t;
  }

  predicate Failure(e: Event) {
    (e.Write? && e.written.WriteFailed?) || (e.Persist? && e.saved.SaveFailed?)
  }

  predicate RetryableFailure(e: Event) {
    (e.Write? && e.written.WriteFailed? && e.written.retryable) || (e.Persist? && e.saved.SaveFailed? && e.saved.retryable)
  }

  /** The trace ends in a failure that the code retries: a retryable one, with the queue still open. */
  ghost predicate MayRetry(w: World, t: Trace) {
    t != [] && RetryableFailure(t[|t| - 1]) && !w.closed(t)
  }

  /** Every sleep follows a failure that may be retried. */
  ghost predicate SleepsJustified(w: World, t: Trace) {
    forall k :: 0 <= k < |t| && t[k].Sleep? ==> MayRetry(w, t[..k])
  }

  lemma JustifiedAppend(w: World, t: Trace, e: Event)
    requires SleepsJustified(w, t) && (e.Sleep? ==> MayRetry(w, t))
    ensures SleepsJustified(w, t + [e])
  {
    var t' := t + [e];
    assert forall k :: 0 <= k <= |t| ==> t'[..k] == t[..k];
    assert t[..|t|] == t;
  }

  lemma {:induction false} JustifiedExtend(w: World, t: Trace, t': Trace)
    requires SleepsJustified(w, t) && t <= t' && forall k :: |t| <= k < |t'| ==> !t'[k].Sleep?
    ensures SleepsJustified(w, t')
    decreases |t'|
  {
    if |t| < |t'| {
      JustifiedExtend(w, t, t'[..|t'| - 1]);
      JustifiedAppend(w, t'[..|t'| - 1], t'[|t'| - 1]);
      assert t' == t'[..|t'| - 1] + [t'[|t'| - 1]];
    } else {
      assert t == t';
    }
  }

  /** From `at` on the trace writes the first blobs in order, with these references as answers. */
  ghost predicate RoundAt(t: Trace, at: nat, blobs: seq<Blob>, stored: seq<Stored>) {
    && |stored| <= |blobs| && at + |stored| <= |t|
    && forall i :: 0 <= i < |stored| ==> t[at + i] == Write(i, blobs[i], Done(stored[i]))
  }

  /** `stored` is what the last |blobs| writes of the trace got: one reference for each blob, in order, in one round. */
  ghost predicate StoredFor(t: Trace, blobs: seq<Blob>, stored: seq<Stored>) {
    |stored| == |blobs| && exists at: nat :: RoundAt(t, at, blobs, stored) && NoWriteFrom(t, at + |blobs|)
  }

  ghost predicate NoWriteFrom(t: Trace, n: nat) {
    forall k :: n <= k < |t| ==> !t[k].Write?
  }

  lemma StoredKept(t: Trace, e: Event, blobs: seq<Blob>, stored: seq<Stored>)
    requires StoredFor(t, blobs, stored) && !e.Write?
    ensures StoredFor(t + [e], blobs, stored)
  {
    var at: nat :| RoundAt(t, at, blobs, stored) && NoWriteFrom(t, at + |blobs|);
    assert RoundAt(t + [e], at, blobs, stored) && NoWriteFrom(t + [e], at + |blobs|);
  }

  /** References some write of the trace returned. */
  ghost predicate WrittenIn(t: Trace, s: Stored) {
    exists k :: 0 <= k < |t| && t[k].Write? && t[k].written == Done(s)
  }

  // ---------------------------------------------------------------- one round of writes

  /** `write_blobs`: writes in order until the first failure. */
  method WriteBlobs(w: World, blobs: seq<Blob>, t: Trace) returns (ok: bool, retryable: bool, stored: seq<Stored>, t': Trace)
    requires Answered(w, t)
    ensures Answered(w, t') && t <= t'
    ensures forall i: nat :: Writes(t', i) <= Writes(t, i) + 1
    ensures Persists(t') == Persists(t) && Sleeps(t') == Sleeps(t) && Deletes(t') == Deletes(t)
    ensures ok ==> StoredFor(t', blobs, stored)
    ensures !ok ==> blobs != []
    ensures Writes(t', 0) == Writes(t, 0) + if blobs == [] then 0 else 1
    ensures !ok ==> t' != [] && Failure(t'[|t'| - 1]) && RetryableFailure(t'[|t'| - 1]) == retryable
    ensures forall s :: WrittenIn(t', s) ==> WrittenIn(t, s) || s in stored
    ensures forall k :: |t| <= k < |t'| ==> t'[k].Write? && t'[k].index < |blobs| && t'[k].blob == blobs[t'[k].index]
  {
    stored, t', ok, retryable := [], t, true, false;
    var i := 0;
    while i < |blobs|
      invariant 0 <= i <= |blobs| && |stored| == i
      invariant Answered(w, t') && t <= t'
      invariant forall k: nat :: Writes(t', k) == Writes(t, k) + if k < i then 1 else 0
      invariant Persists(t') == Persists(t) && Sleeps(t') == Sleeps(t) && Deletes(t') == Deletes(t)
      invariant |t'| == |t| + i && RoundAt(t', |t|, blobs, stored)
      invariant forall s :: WrittenIn(t', s) ==> WrittenIn(t, s) || s in stored
      invariant forall k :: |t| <= k < |t'| ==> t'[k].Write? && t'[k].index < |blobs| && t'[k].blob == blobs[t'[k].index]
    {
      var e := Write(i, blobs[i], w.write(t', blobs[i]));
      RoundStep(w, blobs, t, t', stored, i, e);
      t' := t' + [e];
      if e.written.WriteFailed? {
        return false, e.written.retryable, stored, t';
      }
      stored := stored + [e.written.stored];
      i := i + 1;
    }
    assert NoWriteFrom(t', |t| + |blobs|);
  }

  lemma RoundStep(w: World, blobs: seq<Blob>, t: Trace, t': Trace, stored: seq<Stored>, i: nat, e: Event)
    requires i < |blobs| && |stored| == i && Answered(w, t') && e == Write(i, blobs[i], w.write(t', blobs[i]))
    requires |t'| == |t| + i && RoundAt(t', |t|, blobs, stored)
    ensures Answered(w, t' + [e])
    ensures forall k: nat :: Writes(t' + [e], k) == Writes(t', k) + if k == i then 1 else 0
    ensures Persists(t' + [e]) == Persists(t') && Sleeps(t' + [e]) == Sleeps(t') && Deletes(t' + [e]) == Deletes(t')
    ensures e.written.Done? ==> RoundAt(t' + [e], |t|, blobs, stored + [e.written.stored])
    ensures forall s :: WrittenIn(t' + [e], s) ==> WrittenIn(t', s) || e.written == Done(s)
  {
    Append(t', e);
    AnsweredAppend(w, t', e);
    if e.written.Done? {
      RoundAppend(t', |t|, blobs, stored, e);
    }
    forall s | WrittenIn(t' + [e], s) ensures WrittenIn(t', s) || e.written == Done(s) {
      WrittenAppend(t', e, s);
    }
  }

  lemma RoundAppend(t: Trace, at: nat, blobs: seq<Blob>, stored: seq<Stored>, e: Event)
    requires RoundAt(t, at, blobs, stored) && |t| == at + |stored| && |stored| < |blobs|
    requires e.Write? && e.written.Done? && e.index == |stored| && e.blob == blobs[|stored|]
    ensures RoundAt(t + [e], at, blobs, stored + [e.written.stored])
  {
    var t', more := t + [e], stored + [e.written.stored];
    forall i | 0 <= i < |more| ensures t'[at + i] == Write(i, blobs[i], Done(more[i])) {
      if i < |stored| {
        assert t'[at + i] == t[at + i];
      }
    }
  }

  lemma WrittenAppend(t: Trace, e: Event, s: Stored)
    requires WrittenIn(t + [e], s)
    ensures WrittenIn(t, s) || (e.Write? && e.written == Done(s))
  {
    var k :| 0 <= k < |t + [e]| && (t + [e])[k].Write? && (t + [e])[k].written == Done(s);
    if k < |t| {
      assert t[k] == (t + [e])[k];
    }
  }

  // ---------------------------------------------------------------- cleanup

  /** `cleanup_stored_blobs`: every reference is handed to delete, whatever delete answers. */
  method Cleanup(w: World, stored: seq<Stored>, t: Trace) returns (t': Trace)
    requires Answered(w, t)
    ensures Answered(w, t') && t <= t'
    ensures forall i: nat :: Writes(t', i) == Writes(t, i)
    ensures Persists(t') == Persists(t) && Sleeps(t') == Sleeps(t)
    ensures Deletes(t') == Deletes(t) + stored
    ensures forall k :: |t| <= k < |t'| ==> t'[k].Delete?
    ensures |t'| == |t| + |stored|
  {
    t' := t;
    for i := 0 to |stored|
      invariant Answered(w, t') && t <= t' && |t'| == |t| + i
      invariant forall k: nat :: Writes(t', k) == Writes(t, k)
      invariant Persists(t') == Persists(t) && Sleeps(t') == Sleeps(t)
      invariant Deletes(t') == Deletes(t) + stored[..i]
      invariant forall k :: |t| <= k < |t'| ==> t'[k].Delete?
    {
      Append(t', Delete(stored[i]));
      AnsweredAppend(w, t', Delete(stored[i]));
      t' := t' + [Delete(stored[i])];
      assert stored[..i + 1] == stored[..i] + [stored[i]];
    }
    assert stored[..|stored|] == stored;
  }

  // ---------------------------------------------------------------- the blob stage

  /** Writes are of the request's blobs, and nothing else has happened but sleeps. */
  ghost predicate OnlyRounds(blobs: seq<Blob>, t: Trace) {
    forall k :: 0 <= k < |t| ==>
      (t[k].Write? && t[k].index < |blobs| && t[k].blob == blobs[t[k].index]) || t[k].Sleep?
  }

  /** After `k` failed rounds and the sleeps that followed them. */
  ghost predicate Rounds(w: World, c: Config, blobs: seq<Blob>, t: Trace, k: nat) {
    && Answered(w, t) && OnlyRounds(blobs, t) && SleepsJustified(w, t)
    && Persists(t) == 0 && Deletes(t) == [] && Sleeps(t) == Delays(c, k)
    && (forall i: nat :: Writes(t, i) <= k)
    && (blobs != [] ==> Writes(t, 0) == k)
    && (blobs == [] ==> k == 0 == Writes(t, 0))
    && k < Budget(c)
  }

  /** One more round, its own writes at the end. */
  ghost predicate Tried(w: World, c: Config, blobs: seq<Blob>, t: Trace, k: nat) {
    && Answered(w, t) && OnlyRounds(blobs, t) && SleepsJustified(w, t)
    && Persists(t) == 0 && Deletes(t) == [] && Sleeps(t) == Delays(c, k)
    && (forall i: nat :: Writes(t, i) <= k + 1)
    && Writes(t, 0) == (if blobs == [] then 0 else k + 1)
    && (blobs == [] ==> k == 0)
    && k < Budget(c)
  }

  lemma RoundTried(w: World, c: Config, blobs: seq<Blob>, t: Trace, t': Trace, k: nat)
    requires Rounds(w, c, blobs, t, k) && Answered(w, t') && t <= t'
    requires forall i: nat :: Writes(t', i) <= Writes(t, i) + 1
    requires Writes(t', 0) == Writes(t, 0) + if blobs == [] then 0 else 1
    requires Persists(t') == Persists(t) && Sleeps(t') == Sleeps(t) && Deletes(t') == Deletes(t)
    requires forall m :: |t| <= m < |t'| ==> t'[m].Write? && t'[m].index < |blobs| && t'[m].blob == blobs[t'[m].index]
    ensures Tried(w, c, blobs, t', k)
  {
    RoundsExtend(blobs, t, t');
    JustifiedExtend(w, t, t');
  }

  /** What holds at every exit of the blob stage. */
  ghost predicate StageOver(w: World, c: Config, blobs: seq<Blob>, t: Trace) {
    && Answered(w, t) && Persists(t) == 0 && NoPersist(t) && OwnWrites(blobs, t) && SleepsJustified(w, t)
    && (forall i: nat :: Writes(t, i) <= Budget(c))
    && Sleeps(t) == Delays(c, Retries(Writes(t, 0)))
  }

  lemma TriedOver(w: World, c: Config, blobs: seq<Blob>, t: Trace, k: nat)
    requires Tried(w, c, blobs, t, k)
    ensures StageOver(w, c, blobs, t)
  {
  }

  lemma CleanedOver(w: World, c: Config, blobs: seq<Blob>, t: Trace, t': Trace)
    requires StageOver(w, c, blobs, t) && MayRetry(w, t)
    requires Answered(w, t') && t <= t' && forall k :: |t| <= k < |t'| ==> t'[k].Delete?
    requires forall i: nat :: Writes(t', i) == Writes(t, i)
    requires Persists(t') == Persists(t) && Sleeps(t') == Sleeps(t)
    ensures StageOver(w, c, blobs, t') && Exhausted(w, t')
    ensures forall s :: WrittenIn(t', s) ==> WrittenIn(t, s)
  {
    DeletesWriteNothing(t, t');
    JustifiedExtend(w, t, t');
    ExhaustedByDeletes(w, t, t');
  }

  lemma NextDelay(c: Config, k: nat)
    ensures Delays(c, k + 1) == Delays(c, k) + [RetryDelay(c, k)]
  {
  }

  lemma RoundsSleep(w: World, c: Config, blobs: seq<Blob>, t: Trace, k: nat)
    requires Tried(w, c, blobs, t, k) && blobs != [] && MayRetry(w, t) && k + 1 < Budget(c)
    ensures Rounds(w, c, blobs, t + [Sleep(RetryDelay(c, k))], k + 1)
    ensures forall s :: WrittenIn(t + [Sleep(RetryDelay(c, k))], s) ==> WrittenIn(t, s)
  {
    var e := Sleep(RetryDelay(c, k));
    Append(t, e);
    AnsweredAppend(w, t, e);
    JustifiedAppend(w, t, e);
    NextDelay(c, k);
    forall s | WrittenIn(t + [e], s) ensures WrittenIn(t, s) {
      WrittenAppend(t, e, s);
    }
  }

  /** The retry loop over rounds; `finished` says the request is over, with `outcome`. */
  method WriteStage(w: World, c: Config, blobs: seq<Blob>)
    returns (finished: bool, outcome: Outcome, stored: seq<Stored>, t: Trace)
    ensures StageOver(w, c, blobs, t)
    ensures !finished ==> StoredFor(t, blobs, stored) && OnlyRounds(blobs, t) && Deletes(t) == []
    ensures finished ==> outcome == StaleDropped(BlobWrite) || outcome == Failed(BlobWrite)
    ensures finished && outcome.Failed? ==> Deletes(t) == [] && OnlyRounds(blobs, t)
    ensures finished && outcome.StaleDropped? ==>
              Writes(t, 0) == Budget(c) && forall s :: WrittenIn(t, s) ==> s in Deletes(t)
    ensures finished && outcome.Failed? ==> GaveUp(w, t)
    ensures finished && outcome.StaleDropped? ==> Exhausted(w, t)
  {
    t, stored, finished, outcome := [], [], false, Persisted;
    var attempt := 0;
    var candidates: seq<Stored> := [];
    while true
      invariant Rounds(w, c, blobs, t, attempt)
      invariant forall s :: WrittenIn(t, s) ==> s in candidates
      decreases Budget(c) - attempt
    {
      ghost var before := t;
      var ok, retryable, partial, t' := WriteBlobs(w, blobs, t);
      t := t';
      RoundTried(w, c, blobs, before, t, attempt);
      TriedOver(w, c, blobs, t, attempt);
      if ok {
        return false, Persisted, partial, t;
      }
      if !retryable || w.closed(t) {
        return true, Failed(BlobWrite), [], t;
      }
      candidates := candidates + partial;
      if BudgetExhausted(c, attempt) {
        ghost var written := t;
        t := Cleanup(w, candidates, t);
        CleanedOver(w, c, blobs, written, t);
        return true, StaleDropped(BlobWrite), [], t;
      }
      RoundsSleep(w, c, blobs, t, attempt);
      t := t + [Sleep(RetryDelay(c, attempt))];
      attempt := attempt + 1;
    }
  }

  /** Given up after a failure that may not be retried. */
  ghost predicate GaveUp(w: World, t: Trace) {
    t != [] && Failure(t[|t| - 1]) && !MayRetry(w, t)
  }

  /** Dropped after a failure that might have been retried, then cleaned up. */
  ghost predicate Exhausted(w: World, t: Trace) {
    exists j :: 0 <= j <= |t| && MayRetry(w, t[..j]) && forall k :: j <= k < |t| ==> t[k].Delete?
  }

  lemma ExhaustedByDeletes(w: World, t: Trace, t': Trace)
    requires MayRetry(w, t) && t <= t' && forall k :: |t| <= k < |t'| ==> t'[k].Delete?
    ensures Exhausted(w, t')
  {
    assert t'[..|t|] == t;
  }

  ghost predicate NoPersist(t: Trace) {
    forall k :: 0 <= k < |t| ==> !t[k].Persist?
  }

  lemma RoundsExtend(blobs: seq<Blob>, t: Trace, t': Trace)
    requires OnlyRounds(blobs, t) && t <= t'
    requires forall k :: |t| <= k < |t'| ==> t'[k].Write? && t'[k].index < |blobs| && t'[k].blob == blobs[t'[k].index]
    ensures OnlyRounds(blobs, t') && NoPersist(t')
  {
  }

  lemma DeletesWriteNothing(t: Trace, t': Trace)
    requires t <= t' && forall k :: |t| <= k < |t'| ==> t'[k].Delete?
    ensures forall s :: WrittenIn(t', s) ==> WrittenIn(t, s)
    ensures NoPersist(t) ==> NoPersist(t')
    ensures forall blobs :: OwnWrites(blobs, t) ==> OwnWrites(blobs, t')
  {
    assert forall k :: 0 <= k < |t| ==> t'[k] == t[k];
  }

  // ---------------------------------------------------------------- the metadata stage

  /** The sink only ever sees one stored reference per blob, in order, all from the last round of writes before it. */
  ghost predicate PersistsOk(blobs: seq<Blob>, t: Trace) {
    forall k :: 0 <= k < |t| && t[k].Persist? ==> StoredFor(t[..k], blobs, t[k].blobs)
  }

  /** Every write is of one of the request's blobs. */
  ghost predicate OwnWrites(blobs: seq<Blob>, t: Trace) {
    forall k :: 0 <= k < |t| && t[k].Write? ==> t[k].index < |blobs| && t[k].blob == blobs[t[k].index]
  }

  /** After `k` failed saves: the trace of the blob stage, extended by saves and sleeps. */
  ghost predicate Saves(w: World, c: Config, blobs: seq<Blob>, stored: seq<Stored>, t0: Trace, t: Trace, k: nat) {
    && Answered(w, t) && t0 <= t && OwnWrites(blobs, t) && PersistsOk(blobs, t) && StoredFor(t, blobs, stored) && SleepsJustified(w, t)
    && Persists(t) == k && Deletes(t) == [] && Sleeps(t) == Sleeps(t0) + Delays(c, k)
    && (forall i: nat :: Writes(t, i) == Writes(t0, i))
    && k < Budget(c)
  }

  /** One more save. */
  ghost predicate Saved1(w: World, c: Config, blobs: seq<Blob>, stored: seq<Stored>, t0: Trace, t: Trace, k: nat) {
    && Answered(w, t) && t0 <= t && OwnWrites(blobs, t) && PersistsOk(blobs, t) && StoredFor(t, blobs, stored) && SleepsJustified(w, t)
    && Persists(t) == k + 1 && Deletes(t) == [] && Sleeps(t) == Sleeps(t0) + Delays(c, k)
    && (forall i: nat :: Writes(t, i) == Writes(t0, i))
    && t != [] && t[|t| - 1].Persist? && t[|t| - 1].blobs == stored
  }

  lemma SaveStep(w: World, c: Config, blobs: seq<Blob>, stored: seq<Stored>, t0: Trace, t: Trace, k: nat)
    requires Saves(w, c, blobs, stored, t0, t, k)
    ensures Saved1(w, c, blobs, stored, t0, t + [Persist(stored, w.save(t, stored))], k)
  {
    var e := Persist(stored, w.save(t, stored));
    var t' := t + [e];
    Append(t, e);
    AnsweredAppend(w, t, e);
    JustifiedAppend(w, t, e);
    StoredKept(t, e, blobs, stored);
    assert t'[..|t|] == t;
    assert forall m :: 0 <= m < |t| ==> t'[..m] == t[..m];
  }

  lemma SaveSleep(w: World, c: Config, blobs: seq<Blob>, stored: seq<Stored>, t0: Trace, t: Trace, k: nat)
    requires Saved1(w, c, blobs, stored, t0, t, k) && k + 1 < Budget(c) && MayRetry(w, t)
    ensures Saves(w, c, blobs, stored, t0, t + [Sleep(RetryDelay(c, k))], k + 1)
  {
    var e := Sleep(RetryDelay(c, k));
    var t' := t + [e];
    Append(t, e);
    AnsweredAppend(w, t, e);
    JustifiedAppend(w, t, e);
    StoredKept(t, e, blobs, stored);
    assert Delays(c, k + 1) == Delays(c, k) + [RetryDelay(c, k)];
    assert forall m :: 0 <= m < |t| ==> t'[..m] == t[..m];
  }

  /** What one request's trace satisfies, by outcome. */
  ghost predicate TraceOk(w: World, c: Config, blobs: seq<Blob>, o: Outcome, t: Trace) {
    && Answered(w, t) && OwnWrites(blobs, t) && PersistsOk(blobs, t)
    && (forall i: nat :: Writes(t, i) <= Budget(c)) && Persists(t) <= Budget(c)
    && SleepsOk(c, t) && SleepsJustified(w, t)
    && (o.Failed? ==> GaveUp(w, t) && (o.stage == BlobWrite <==> t[|t| - 1].Write?)) && (o.StaleDropped? ==> Exhausted(w, t))
    && (o.Persisted? <==> t != [] && t[|t| - 1].Persist? && t[|t| - 1].saved.SaveDone?)
    && (o == StaleDropped(BlobWrite) ==> Writes(t, 0) == Budget(c) && NoPersist(t) && forall s :: WrittenIn(t, s) ==> s in Deletes(t))
    && (o == StaleDropped(MetadataPersist) ==> Persists(t) == Budget(c) && DeletesSaved(t))
    && (!o.StaleDropped? ==> Deletes(t) == [])
    && (!o.Persisted? ==> (o.stage == BlobWrite <==> Persists(t) == 0))
  }

  /** The sleeps of the two stages, one before each retry, each stage starting at the initial delay. */
  ghost predicate SleepsOk(c: Config, t: Trace) {
    Sleeps(t) == Delays(c, Retries(Writes(t, 0))) + Delays(c, Retries(Persists(t)))
  }

  /** Exactly the references given to the sink are deleted. */
  ghost predicate DeletesSaved(t: Trace) {
    exists k :: 0 <= k < |t| && t[k].Persist? && Deletes(t) == t[k].blobs
  }

  lemma StaleTraceOk(w: World, c: Config, blobs: seq<Blob>, stored: seq<Stored>, t0: Trace, t: Trace, k: nat, t': Trace)
    requires Saved1(w, c, blobs, stored, t0, t, k) && k + 1 == Budget(c)
    requires Sleeps(t0) == Delays(c, Retries(Writes(t0, 0))) && forall i: nat :: Writes(t0, i) <= Budget(c)
    requires Answered(w, t') && t <= t' && |t'| == |t| + |stored| && forall m :: |t| <= m < |t'| ==> t'[m].Delete?
    requires forall i: nat :: Writes(t', i) == Writes(t, i)
    requires Persists(t') == Persists(t) && Sleeps(t') == Sleeps(t) && Deletes(t') == stored
    requires MayRetry(w, t)
    ensures TraceOk(w, c, blobs, StaleDropped(MetadataPersist), t')
  {
    ExhaustedByDeletes(w, t, t');
    JustifiedExtend(w, t, t');
    DeletesSaveNothing(blobs, t, t');
    assert t'[|t| - 1] == t[|t| - 1];
  }

  lemma DeletesSaveNothing(blobs: seq<Blob>, t: Trace, t': Trace)
    requires t <= t' && forall m :: |t| <= m < |t'| ==> t'[m].Delete?
    requires OwnWrites(blobs, t) && PersistsOk(blobs, t)
    ensures OwnWrites(blobs, t') && PersistsOk(blobs, t')
  {
    assert forall m :: 0 <= m < |t| ==> t'[m] == t[m] && t'[..m] == t[..m];
  }

  lemma EndTraceOk(w: World, c: Config, blobs: seq<Blob>, stored: seq<Stored>, t0: Trace, t: Trace, k: nat)
    requires Saved1(w, c, blobs, stored, t0, t, k) && k < Budget(c) && !MayRetry(w, t)
    requires Sleeps(t0) == Delays(c, Retries(Writes(t0, 0))) && forall i: nat :: Writes(t0, i) <= Budget(c)
    ensures TraceOk(w, c, blobs, if t[|t| - 1].saved.SaveDone? then Persisted else Failed(MetadataPersist), t)
  {
  }

  lemma BlobStageTraceOk(w: World, c: Config, blobs: seq<Blob>, o: Outcome, t: Trace)
    requires o == StaleDropped(BlobWrite) || o == Failed(BlobWrite)
    requires Answered(w, t) && OwnWrites(blobs, t) && NoPersist(t) && Persists(t) == 0
    requires (forall i: nat :: Writes(t, i) <= Budget(c)) && Sleeps(t) == Delays(c, Retries(Writes(t, 0)))
    requires o.StaleDropped? ==> Writes(t, 0) == Budget(c) && forall s :: WrittenIn(t, s) ==> s in Deletes(t)
    requires !o.StaleDropped? ==> Deletes(t) == []
    requires SleepsJustified(w, t) && if o.StaleDropped? then Exhausted(w, t) else GaveUp(w, t)
    ensures TraceOk(w, c, blobs, o, t)
  {
    assert Sleeps(t) == Sleeps(t) + Delays(c, 0);
  }

  /** `persist_request_with_retry`, for every writer, sink and shutdown behaviour. */
  method PersistRequestWithRetry(w: World, c: Config, blobs: seq<Blob>) returns (outcome: Outcome, t: Trace)
    ensures TraceOk(w, c, blobs, outcome, t)
  {
    var finished, o, stored, t0 := WriteStage(w, c, blobs);
    if finished {
      BlobStageTraceOk(w, c, blobs, o, t0);
      return o, t0;
    }
    t := t0;
    var attempt := 0;
    assert Delays(c, 0) == [];
    while true
      invariant Saves(w, c, blobs, stored, t0, t, attempt)
      decreases Budget(c) - attempt
    {
      SaveStep(w, c, blobs, stored, t0, t, attempt);
      var saved := w.save(t, stored);
      t := t + [Persist(stored, saved)];
      if saved.SaveDone? {
        EndTraceOk(w, c, blobs, stored, t0, t, attempt);
        return Persisted, t;
      }
      if !saved.retryable || w.closed(t) {
        EndTraceOk(w, c, blobs, stored, t0, t, attempt);
        return Failed(MetadataPersist), t;
      }
      if BudgetExhausted(c, attempt) {
        var t' := Cleanup(w, stored, t);
        StaleTraceOk(w, c, blobs, stored, t0, t, attempt, t');
        return StaleDropped(MetadataPersist), t';
      }
      SaveSleep(w, c, blobs, stored, t0, t, attempt);
      t := t + [Sleep(RetryDelay(c, attempt))];
      attempt := attempt + 1;
    }
  }

  // ---------------------------------------------------------------- tries and sleeps in numbers

  lemma Doublings()
    ensures Power2(0) == 1 && Power2(1) == 2 && Power2(2) == 4 && Power2(3) == 8 && Power2(4) == 16 && Power2(5) == 32
  {
    assert Power2(2) == 2 * Power2(1);
    assert Power2(4) == 2 * Power2(3) && Power2(3) == 2 * Power2(2);
  }

  /** 1, 2, 4, 8, 16, 32 and then 64 times the initial delay, or the maximum if that is less. */
  lemma DelayInNumbers(c: Config, k: nat)
    ensures var delay := c.initialDelay * (match k case 0 => 1 case 1 => 2 case 2 => 4 case 3 => 8 case 4 => 16 case 5 => 32 case _ => 64);
            RetryDelay(c, k) == if delay <= c.maxDelay then delay else c.maxDelay
  {
    Doublings();
    SixDoublings();
  }

  /** A stage sleeps between its tries, the `k`-th time for the `k`-th delay. */
  lemma SleepsInNumbers(c: Config, t: Trace, k: nat)
    requires SleepsOk(c, t)
    ensures var n: int := if Writes(t, 0) == 0 then 0 else Writes(t, 0) - 1;
            && |Sleeps(t)| == n + (if Persists(t) == 0 then 0 else Persists(t) - 1)
            && (k < |Sleeps(t)| ==>
                  var delay := c.initialDelay *
                    (match if k < n then k else k - n case 0 => 1 case 1 => 2 case 2 => 4 case 3 => 8 case 4 => 16 case 5 => 32 case _ => 64);
                  Sleeps(t)[k] == if delay <= c.maxDelay then delay else c.maxDelay)
  {
    var n := Retries(Writes(t, 0));
    if k < |Sleeps(t)| {
      DelayInNumbers(c, if k < n then k else k - n);
    }
  }

  /** A stage tries at most once or as often as configured, and exactly as often before a stale drop. */
  lemma TriesInNumbers(w: World, c: Config, blobs: seq<Blob>, o: Outcome, t: Trace)
    requires TraceOk(w, c, blobs, o, t)
    ensures forall i: nat :: Writes(t, i) <= 1 || Writes(t, i) <= c.maxAttempts
    ensures Persists(t) <= 1 || Persists(t) <= c.maxAttempts
    ensures o == StaleDropped(BlobWrite) ==> Writes(t, 0) == if c.maxAttempts == 0 then 1 else c.maxAttempts
    ensures o == StaleDropped(MetadataPersist) ==> Persists(t) == if c.maxAttempts == 0 then 1 else c.maxAttempts
    ensures SleepsOk(c, t)
  {
    assert Budget(c) == if c.maxAttempts == 0 then 1 else c.maxAttempts;
  }

  /** A sleep follows a failure that may be retried, of a queue that is still open; a request fails only after a failure
      that may not be retried, or once the queue is closed. */
  lemma RetriesOnlyWhileOpen(w: World, c: Config, blobs: seq<Blob>, o: Outcome, t: Trace, k: nat)
    requires TraceOk(w, c, blobs, o, t)
    ensures k < |t| && t[k].Sleep? ==>
              && 0 < k && !w.closed(t[..k])
              && (t[k - 1].Write? ==> t[k - 1].written == WriteFailed(true))
              && (t[k - 1].Persist? ==> t[k - 1].saved == SaveFailed(true))
              && (t[k - 1].Write? || t[k - 1].Persist?)
    ensures o.Failed? ==>
              && t != []
              && match t[|t| - 1]
                 case Write(_, _, written) => o.stage.BlobWrite? && written.WriteFailed? && (!written.retryable || w.closed(t))
                 case Persist(_, saved) => o.stage.MetadataPersist? && saved.SaveFailed? && (!saved.retryable || w.closed(t))
                 case _ => false
  {
    if k < |t| && t[k].Sleep? {
      assert MayRetry(w, t[..k]);
    }
  }

  // ---------------------------------------------------------------- nothing left behind

  /** The writer puts a blob at a location its entry determines. */
  ghost predicate Placed(w: World, location: Blob -> string) {
    forall t, blob :: w.write(t, blob).Done? ==> w.write(t, blob).stored.location == location(blob)
  }

  /** A dropped request leaves no location behind when locations are a function of the blob entry;
      when it is dropped in the blob stage, none whatever the writer does. */
  lemma DropCleansUp(w: World, c: Config, blobs: seq<Blob>, o: Outcome, t: Trace, location: Blob -> string, s: Stored)
    requires TraceOk(w, c, blobs, o, t) && o.StaleDropped? && WrittenIn(t, s)
    requires o == StaleDropped(BlobWrite) || Placed(w, location)
    ensures exists d :: d in Deletes(t) && d.location == s.location
  {
    match o.stage
    case BlobWrite =>
      assert o == StaleDropped(BlobWrite) && s in Deletes(t);
    case MetadataPersist =>
      assert o == StaleDropped(MetadataPersist) && DeletesSaved(t);
      var m :| 0 <= m < |t| && t[m].Write? && t[m].written == Done(s);
      var k :| 0 <= k < |t| && t[k].Persist? && Deletes(t) == t[k].blobs;
      SavedLocation(w, blobs, t, location, m, k);
  }

  /** Whatever was ever written for a blob is where the reference saved for it is. */
  lemma SavedLocation(w: World, blobs: seq<Blob>, t: Trace, location: Blob -> string, m: nat, k: nat)
    requires Answered(w, t) && Placed(w, location) && OwnWrites(blobs, t) && PersistsOk(blobs, t)
    requires m < |t| && t[m].Write? && t[m].written.Done? && k < |t| && t[k].Persist?
    ensures exists d :: d in t[k].blobs && d.location == t[m].written.stored.location
  {
    var i := t[m].index;
    var n := WriteOf(t[..k], blobs, t[k].blobs, i);
    assert t[n] == t[..k][n];
    WriteLocation(w, t, location, m);
    WriteLocation(w, t, location, n);
    assert t[k].blobs[i] in t[k].blobs;
  }

  lemma WriteOf(t: Trace, blobs: seq<Blob>, stored: seq<Stored>, i: nat) returns (n: nat)
    requires StoredFor(t, blobs, stored) && i < |blobs|
    ensures n < |t| && t[n] == Write(i, blobs[i], Done(stored[i]))
  {
    var at: nat :| RoundAt(t, at, blobs, stored);
    n := at + i;
  }

  lemma WriteLocation(w: World, t: Trace, location: Blob -> string, m: nat)
    requires Answered(w, t) && Placed(w, location) && m < |t| && t[m].Write? && t[m].written.Done?
    ensures t[m].written.stored.location == location(t[m].blob)
  {
    assert t[m].written == w.write(t[..m], t[m].blob);
  }
}
