/**
  The firing half of the alert worker: workers claim source events under a lease, judge every
  enabled rule, insert an alert row with one delivery attempt per target for each match, and mark
  the event processed if their claim is still the current one.

  Row ids are indices into `sources` and `alerts`.  Whether a rule matches, is silenced or is
  cooling down is left open: each rule is either skipped or found to match.
*/
module AlertFiring {
  import opened Wrappers
  import opened ClaimLog
  import opened DeliveryKey

  datatype Source = Source(kind: SourceKind, sourceId: string, claimedAt: Option<int>, processedAt: Option<int>)

  datatype Rule = Rule(id: int, targets: seq<int>)

  datatype Alert = Alert(rule: Rule, source: nat, key: string)

  datatype Attempt = Attempt(alert: nat, contactPoint: int, key: string)

  datatype Tables = Tables(sources: seq<Source>, alerts: seq<Alert>, attempts: seq<Attempt>)

  datatype Claim = Claim(id: nat, token: int)

  function KeyOf(rule: Rule, src: Source, id: nat): string {
    Build(rule.id, src.kind, src.sourceId, id)
  }

  // ---------------------------------------------------------------- the SQL statements

  predicate Pending(src: Source, cutoff: int) {
    src.processedAt.None? && (src.claimedAt.None? || src.claimedAt.value <= cutoff)
  }

  ghost predicate Selection(sources: seq<Source>, ids: seq<nat>, limit: int, cutoff: int) {
    && |ids| <= limit
    && (forall i, j :: 0 <= i < j < |ids| ==> ids[i] < ids[j])
    && (forall i :: 0 <= i < |ids| ==> ids[i] < |sources| && Pending(sources[ids[i]], cutoff))
  }

  function ClaimSources(sources: seq<Source>, ids: seq<nat>, now: int): seq<Source> {
    seq(|sources|, i requires 0 <= i < |sources| => if i in ids then sources[i].(claimedAt := Some(now)) else sources[i])
  }

  function ClaimsOf(ids: seq<nat>, now: int): seq<Claim> {
    seq(|ids|, i requires 0 <= i < |ids| => Claim(ids[i], now))
  }

  function MarkProcessed(sources: seq<Source>, cl: Claim, now: int): seq<Source> {
    if cl.id < |sources| && sources[cl.id].claimedAt == Some(cl.token)
    then sources[cl.id := sources[cl.id].(processedAt := Some(now))]
    else sources
  }

  predicate HasKey(alerts: seq<Alert>, key: string) {
    exists a :: 0 <= a < |alerts| && alerts[a].key == key
  }

  function AttemptsFor(alert: nat, key: string, targets: seq<int>): seq<Attempt> {
    seq(|targets|, i requires 0 <= i < |targets| => Attempt(alert, targets[i], ForTarget(key, targets[i])))
  }

  lemma NextAttempt(alert: nat, key: string, targets: seq<int>, i: nat)
    requires i < |targets|
    ensures AttemptsFor(alert, key, targets[..i + 1]) ==
            AttemptsFor(alert, key, targets[..i]) + [Attempt(alert, targets[i], ForTarget(key, targets[i]))]
  {
  }

  /** The transaction: the alert row and its attempts, or nothing on a key conflict. */
  function InsertAlert(t: Tables, rule: Rule, source: nat, key: string): Tables {
    if HasKey(t.alerts, key) then t
    else t.(alerts := t.alerts + [Alert(rule, source, key)],
            attempts := t.attempts + AttemptsFor(|t.alerts|, key, rule.targets))
  }

  /** The three tables, with the statements run in place. */
  class AlertStore {
    var sources: seq<Source>
    var alerts: seq<Alert>
    var attempts: seq<Attempt>

    constructor ()
      ensures View() == Tables([], [], [])
    {
      sources, alerts, attempts := [], [], [];
    }

    ghost function View(): Tables
      reads this
    {
      Tables(sources, alerts, attempts)
    }

    /** `claim_pending_alert_source_events` */
    method ClaimPending(limit: int, now: int, cutoff: int, locked: set<nat>) returns (claims: seq<Claim>, ghost ids: seq<nat>)
      requires 0 <= limit
      modifies this`sources
      ensures Selection(old(sources), ids, limit, cutoff)
      ensures sources == ClaimSources(old(sources), ids, now)
      ensures claims == ClaimsOf(ids, now)
      ensures forall i :: 0 <= i < |ids| ==> ids[i] !in locked
      ensures forall k :: 0 <= k < |old(sources)| && k !in locked && Pending(old(sources)[k], cutoff) && k !in ids
                ==> |ids| == limit && (forall i :: 0 <= i < |ids| ==> ids[i] < k)
    {
      claims, ids := [], [];
      var k := 0;
      while k < |sources| && |claims| < limit
        invariant 0 <= k <= |sources| == |old(sources)|
        invariant sources == ClaimSources(old(sources), ids, now)
        invariant forall i :: 0 <= i < |ids| ==> ids[i] < k
        invariant Selection(old(sources), ids, limit, cutoff)
        invariant claims == ClaimsOf(ids, now)
        invariant forall i :: 0 <= i < |ids| ==> ids[i] !in locked
        invariant forall j :: 0 <= j < k && j !in locked && Pending(old(sources)[j], cutoff) ==> j in ids
      {
        if k !in locked && Pending(sources[k], cutoff) {
          sources := sources[k := sources[k].(claimedAt := Some(now))];
          claims, ids := claims + [Claim(k, now)], ids + [k];
        }
        k := k + 1;
      }
    }

    /** `mark_alert_source_event_processed`: the UPDATE tests the claim only. */
    method MarkSourceProcessed(cl: Claim, now: int) returns (affected: bool)
      modifies this`sources
      ensures sources == MarkProcessed(old(sources), cl, now)
      ensures affected == (cl.id < |old(sources)| && old(sources)[cl.id].claimedAt == Some(cl.token))
    {
      affected := cl.id < |sources| && sources[cl.id].claimedAt == Some(cl.token);
      if affected {
        sources := sources[cl.id := sources[cl.id].(processedAt := Some(now))];
      }
    }

    /** `insert_alert_event_with_attempts` */
    method InsertAlertWithAttempts(rule: Rule, source: nat, key: string) returns (inserted: bool)
      modifies this`alerts, this`attempts
      ensures inserted == !HasKey(old(alerts), key)
      ensures View() == InsertAlert(old(View()), rule, source, key)
    {
      inserted := !HasKey(alerts, key);
      if inserted {
        var id := |alerts|;
        alerts := alerts + [Alert(rule, source, key)];
        for i := 0 to |rule.targets|
          invariant alerts == old(alerts) + [Alert(rule, source, key)]
          invariant attempts == old(attempts) + AttemptsFor(id, key, rule.targets[..i])
        {
          NextAttempt(id, key, rule.targets, i);
          attempts := attempts + [Attempt(id, rule.targets[i], ForTarget(key, rule.targets[i]))];
        }
        assert rule.targets[..|rule.targets|] == rule.targets;
      }
    }
  }

  // ---------------------------------------------------------------- the protocol

  datatype Config = Config(lease: int, batch: int, skew: int)

  /** The start-up checks of the worker. */
  predicate ValidConfig(c: Config) {
    0 < c.batch && 0 < c.lease && 0 <= c.skew
  }

  /** Clocks closer together than the lease. */
  predicate ClocksWithinLease(c: Config) {
    ValidConfig(c) && c.skew < c.lease
  }

  /** A worker's claims; for the first of them the rules it loaded, how many it has judged, which of
      those it found to match, and whether the last match still has to be inserted. */
  datatype Worker = Worker(queue: seq<Claim>, rules: Option<seq<Rule>>, judged: nat, matched: set<nat>, inserting: bool)

  datatype State = State(now: int, tables: Tables, log: seq<seq<LogEntry>>, workers: map<nat, Worker>)

  datatype Step =
    | Publish(kind: SourceKind, sourceId: string)
    | ClaimBatch(worker: nat, ids: seq<nat>, workerNow: int)
    | LoadRules(worker: nat, rules: seq<Rule>)
    | Skip(worker: nat)
    | Match(worker: nat)
    | Insert(worker: nat)
    | Mark(worker: nat)
    | Crash(worker: nat)
    | Tick(later: int)

  ghost predicate Init(s: State) {
    s.tables == Tables([], [], []) && s.log == [] && s.workers == map[]
  }

  function Fresh(queue: seq<Claim>): Worker {
    Worker(queue, None, 0, {}, false)
  }

  ghost predicate Judging(s: State, w: nat) {
    w in s.workers && s.workers[w].queue != [] && s.workers[w].rules.Some? && !s.workers[w].inserting
  }

  ghost predicate Enabled(c: Config, s: State, step: Step) {
    match step
    case Publish(kind, sourceId) => true
    case ClaimBatch(w, ids, workerNow) =>
      && s.now - c.skew <= workerNow <= s.now + c.skew
      && (w in s.workers ==> s.workers[w].queue == [])
      && Selection(s.tables.sources, ids, c.batch, workerNow - c.lease)
    case LoadRules(w, rules) => w in s.workers && s.workers[w].queue != [] && s.workers[w].rules.None?
    case Skip(w) => Judging(s, w) && s.workers[w].judged < |s.workers[w].rules.value|
    case Match(w) => Judging(s, w) && s.workers[w].judged < |s.workers[w].rules.value|
    case Insert(w) =>
      && w in s.workers && s.workers[w].queue != [] && s.workers[w].inserting
      && s.workers[w].queue[0].id < |s.tables.sources|
      && s.workers[w].rules.Some? && 0 < s.workers[w].judged <= |s.workers[w].rules.value|
    case Mark(w) => Judging(s, w) && s.workers[w].judged == |s.workers[w].rules.value|
    case Crash(w) => w in s.workers
    case Tick(later) => s.now <= later
  }

  ghost function After(c: Config, s: State, step: Step): State
    requires Enabled(c, s, step)
  {
    match step
    case Publish(kind, sourceId) =>
      s.(tables := s.tables.(sources := s.tables.sources + [Source(kind, sourceId, None, None)]), log := s.log + [[]])
    case ClaimBatch(w, ids, workerNow) =>
      s.(tables := s.tables.(sources := ClaimSources(s.tables.sources, ids, s.now)),
         log := LogClaims(s.log, ids, LogEntry(s.now, w)),
         workers := s.workers[w := Fresh(ClaimsOf(ids, s.now))])
    case LoadRules(w, rules) => s.(workers := s.workers[w := s.workers[w].(rules := Some(rules))])
    case Skip(w) => s.(workers := s.workers[w := s.workers[w].(judged := s.workers[w].judged + 1)])
    case Match(w) =>
      var wk := s.workers[w];
      s.(workers := s.workers[w := wk.(judged := wk.judged + 1, matched := wk.matched + {wk.judged}, inserting := true)])
    case Insert(w) =>
      var wk := s.workers[w];
      var rule, id := wk.rules.value[wk.judged - 1], wk.queue[0].id;
      s.(tables := InsertAlert(s.tables, rule, id, KeyOf(rule, s.tables.sources[id], id)),
         workers := s.workers[w := wk.(inserting := false)])
    case Mark(w) =>
      s.(tables := s.tables.(sources := MarkProcessed(s.tables.sources, s.workers[w].queue[0], s.now)),
         workers := s.workers[w := Fresh(s.workers[w].queue[1..])])
    case Crash(w) => s.(workers := s.workers - {w})
    case Tick(later) => s.(now := later)
  }

  ghost predicate IsRun(c: Config, run: seq<State>, steps: seq<Step>) {
    && |run| == |steps| + 1
    && Init(run[0])
    && (forall i :: 0 <= i < |steps| ==> Enabled(c, run[i], steps[i]) && run[i + 1] == After(c, run[i], steps[i]))
  }

  /** A worker may claim an event by itself exactly if the event is unprocessed and was never claimed, or a lease has
      passed on the worker's clock since it was claimed. */
  lemma ClaimableExactly(c: Config, s: State, w: nat, id: nat, workerNow: int)
    requires ValidConfig(c) && id < |s.tables.sources| && w !in s.workers
    ensures Enabled(c, s, ClaimBatch(w, [id], workerNow)) <==>
              && s.now - c.skew <= workerNow <= s.now + c.skew
              && var src := s.tables.sources[id];
                 src.processedAt == None && (src.claimedAt == None || src.claimedAt.value + c.lease <= workerNow)
  {
    assert [id][0] == id;
  }

  // ---------------------------------------------------------------- the firing invariant

  /** Every match but the one being inserted has its alert row. */
  ghost predicate MatchesFired(t: Tables, wk: Worker) {
    && (wk.rules.None? ==> wk.judged == 0 && wk.matched == {} && !wk.inserting)
    && (wk.inserting ==> wk.judged > 0)
    && (wk.rules.Some? ==>
          && wk.queue != [] && wk.queue[0].id < |t.sources|
          && wk.judged <= |wk.rules.value|
          && (forall m :: m in wk.matched ==> m < wk.judged)
          && (forall m :: m in wk.matched ==>
                (wk.inserting && m == wk.judged - 1) || Fired(t, wk.rules.value[m], wk.queue[0].id)))
  }

  ghost predicate Fired(t: Tables, rule: Rule, id: nat)
    requires id < |t.sources|
  {
    HasKey(t.alerts, KeyOf(rule, t.sources[id], id))
  }

  /** Attempts of one alert, in insertion order. */
  ghost function AttemptsOf(attempts: seq<Attempt>, alert: nat): seq<Attempt> {
    if attempts == [] then []
    else
      var rest, last := AttemptsOf(attempts[..|attempts| - 1], alert), attempts[|attempts| - 1];
      if last.alert == alert then rest + [last] else rest
  }

  /** An alert has the key of its rule and event, and exactly the attempts of its rule's targets. */
  ghost predicate AlertOk(t: Tables, a: nat)
    requires a < |t.alerts|
  {
    var x := t.alerts[a];
    && x.source < |t.sources| && x.key == KeyOf(x.rule, t.sources[x.source], x.source)
    && AttemptsOf(t.attempts, a) == AttemptsFor(a, x.key, x.rule.targets)
  }

  ghost predicate DistinctKeys(alerts: seq<Alert>) {
    forall a, b :: 0 <= a < b < |alerts| ==> alerts[a].key != alerts[b].key
  }

  ghost predicate Owned(attempts: seq<Attempt>, n: nat) {
    forall i :: 0 <= i < |attempts| ==> attempts[i].alert < n
  }

  ghost predicate AlertsOk(t: Tables) {
    DistinctKeys(t.alerts) && Owned(t.attempts, |t.alerts|) && forall a :: 0 <= a < |t.alerts| ==> AlertOk(t, a)
  }

  /** What holds under any clocks, even when two workers hold the same live claim. */
  ghost predicate FiringOk(s: State) {
    && AlertsOk(s.tables)
    && (forall w :: w in s.workers ==> QueueOk(s.tables, s.workers[w]) && MatchesFired(s.tables, s.workers[w]))
  }

  predicate QueueOk(t: Tables, wk: Worker) {
    forall i :: 0 <= i < |wk.queue| ==> wk.queue[i].id < |t.sources|
  }

  // ---------------------------------------------------------------- attempts of one alert

  lemma {:induction false} AttemptsOfConcat(xs: seq<Attempt>, ys: seq<Attempt>, a: nat)
    ensures AttemptsOf(xs + ys, a) == AttemptsOf(xs, a) + AttemptsOf(ys, a)
  {
    if ys == [] {
      assert xs + ys == xs;
    } else {
      AttemptsOfConcat(xs, ys[..|ys| - 1], a);
      assert (xs + ys)[..|xs + ys| - 1] == xs + ys[..|ys| - 1];
    }
  }

  lemma {:induction false} AttemptsOfUniform(xs: seq<Attempt>, owner: nat, a: nat)
    requires forall i :: 0 <= i < |xs| ==> xs[i].alert == owner
    ensures AttemptsOf(xs, a) == if a == owner then xs else []
  {
    if xs != [] {
      AttemptsOfUniform(xs[..|xs| - 1], owner, a);
    }
  }

  lemma {:induction false} AttemptsOfAbsent(xs: seq<Attempt>, a: nat)
    requires forall i :: 0 <= i < |xs| ==> xs[i].alert != a
    ensures AttemptsOf(xs, a) == []
  {
    if xs != [] {
      AttemptsOfAbsent(xs[..|xs| - 1], a);
    }
  }

  /** The attempts of every alert after a block of attempts for a new one. */
  lemma AttemptsAppended(t: Tables, key: string, rule: Rule, a: nat)
    requires AlertsOk(t) && a <= |t.alerts|
    ensures AttemptsOf(t.attempts + AttemptsFor(|t.alerts|, key, rule.targets), a) ==
            if a == |t.alerts| then AttemptsFor(a, key, rule.targets)
            else AttemptsFor(a, t.alerts[a].key, t.alerts[a].rule.targets)
  {
    var block := AttemptsFor(|t.alerts|, key, rule.targets);
    assert a < |t.alerts| ==> AlertOk(t, a);
    AttemptsOfConcat(t.attempts, block, a);
    AttemptsOfUniform(block, |t.alerts|, a);
    if a == |t.alerts| {
      AttemptsOfAbsent(t.attempts, a);
    }
  }

  /** The alert rows are in order, and the rule has fired for the event. */
  ghost predicate FiredOk(t: Tables, rule: Rule, id: nat) {
    AlertsOk(t) && id < |t.sources| && Fired(t, rule, id)
  }

  lemma InsertKeepsAlertsOk(t: Tables, rule: Rule, id: nat)
    requires AlertsOk(t) && id < |t.sources|
    ensures FiredOk(InsertAlert(t, rule, id, KeyOf(rule, t.sources[id], id)), rule, id)
  {
    var key := KeyOf(rule, t.sources[id], id);
    var t' := InsertAlert(t, rule, id, key);
    if !HasKey(t.alerts, key) {
      assert t'.alerts[|t.alerts|].key == key;
      forall a | 0 <= a < |t'.alerts| ensures AlertOk(t', a) {
        AttemptsAppended(t, key, rule, a);
        assert a < |t.alerts| ==> AlertOk(t, a);
      }
    }
  }

  // ---------------------------------------------------------------- every step keeps the firing invariant

  /** Source events stay, up to claims and marks, and new ones are appended. */
  ghost predicate SourcesKept(t: Tables, t': Tables) {
    && |t.sources| <= |t'.sources|
    && forall id :: 0 <= id < |t.sources| ==>
         t'.sources[id].kind == t.sources[id].kind && t'.sources[id].sourceId == t.sources[id].sourceId
  }

  lemma SameSourcesKeepAlertsOk(t: Tables, t': Tables)
    requires AlertsOk(t) && t'.alerts == t.alerts && t'.attempts == t.attempts && SourcesKept(t, t')
    ensures AlertsOk(t')
  {
    forall a | 0 <= a < |t'.alerts| ensures AlertOk(t', a) {
      assert AlertOk(t, a);
    }
  }

  /** More alert rows and more or re-claimed source events keep what was fired. */
  lemma MatchesKept(t: Tables, t': Tables, wk: Worker)
    requires MatchesFired(t, wk) && SourcesKept(t, t') && t.alerts <= t'.alerts
    ensures MatchesFired(t', wk)
  {
    forall rule, id | 0 <= id < |t.sources| && Fired(t, rule, id) ensures Fired(t', rule, id) {
      HasKeyGrows(t.alerts, t'.alerts, KeyOf(rule, t.sources[id], id));
    }
  }

  lemma HasKeyGrows(alerts: seq<Alert>, alerts': seq<Alert>, key: string)
    requires HasKey(alerts, key) && alerts <= alerts'
    ensures HasKey(alerts', key)
  {
    var a :| 0 <= a < |alerts| && alerts[a].key == key;
    assert alerts'[a] == alerts[a];
  }

  lemma MatchInserted(t: Tables, wk: Worker)
    requires MatchesFired(t, wk) && wk.rules.Some? && wk.inserting && Fired(t, wk.rules.value[wk.judged - 1], wk.queue[0].id)
    ensures MatchesFired(t, wk.(inserting := false))
  {
  }

  lemma StepKeepsSources(c: Config, s: State, step: Step)
    requires Enabled(c, s, step)
    ensures SourcesKept(s.tables, After(c, s, step).tables) && s.tables.alerts <= After(c, s, step).tables.alerts
  {
  }

  lemma InsertFires(c: Config, s: State, w: nat)
    requires AlertsOk(s.tables) && Enabled(c, s, Insert(w))
    ensures var wk := s.workers[w]; FiredOk(After(c, s, Insert(w)).tables, wk.rules.value[wk.judged - 1], wk.queue[0].id)
  {
    var wk := s.workers[w];
    InsertKeepsAlertsOk(s.tables, wk.rules.value[wk.judged - 1], wk.queue[0].id);
  }

  lemma StepKeepsAlerts(c: Config, s: State, step: Step)
    requires AlertsOk(s.tables) && Enabled(c, s, step)
    ensures AlertsOk(After(c, s, step).tables)
  {
    if step.Insert? {
      InsertFires(c, s, step.worker);
    } else {
      StepKeepsSources(c, s, step);
      SameSourcesKeepAlertsOk(s.tables, After(c, s, step).tables);
    }
  }

  lemma StepKeepsMatches(c: Config, s: State, step: Step, w: nat)
    requires FiringOk(s) && Enabled(c, s, step) && w in After(c, s, step).workers
    ensures var t := After(c, s, step); QueueOk(t.tables, t.workers[w]) && MatchesFired(t.tables, t.workers[w])
  {
    var t := After(c, s, step);
    StepKeepsSources(c, s, step);
    if w in s.workers {
      assert QueueOk(s.tables, s.workers[w]) && MatchesFired(s.tables, s.workers[w]);
      MatchesKept(s.tables, t.tables, s.workers[w]);
    }
    if step == Insert(w) {
      InsertFires(c, s, w);
      MatchInserted(t.tables, s.workers[w]);
    }
  }

  lemma StepKeepsFiring(c: Config, s: State, step: Step)
    requires FiringOk(s) && Enabled(c, s, step)
    ensures FiringOk(After(c, s, step))
  {
    StepKeepsAlerts(c, s, step);
    forall w | w in After(c, s, step).workers
      ensures var t := After(c, s, step); QueueOk(t.tables, t.workers[w]) && MatchesFired(t.tables, t.workers[w])
    {
      StepKeepsMatches(c, s, step, w);
    }
  }

  lemma {:induction false} FiringHolds(c: Config, run: seq<State>, steps: seq<Step>, i: nat)
    requires IsRun(c, run, steps) && i < |run|
    ensures FiringOk(run[i])
  {
    if i > 0 {
      FiringHolds(c, run, steps, i - 1);
      StepKeepsFiring(c, run[i - 1], steps[i - 1]);
    }
  }

  // ---------------------------------------------------------------- fire at most once

  /** Over all runs, one rule and one product, or one rule and one incident source event, have at
      most one alert row. */
  lemma FireAtMostOnce(c: Config, run: seq<State>, steps: seq<Step>, n: nat, a: nat, b: nat)
    requires IsRun(c, run, steps) && n < |run|
    requires a < |run[n].tables.alerts| && b < |run[n].tables.alerts|
    ensures var t := run[n].tables;
            var x, y := t.alerts[a], t.alerts[b];
            && x.source < |t.sources| && y.source < |t.sources|
            && (x.rule.id == y.rule.id
                && t.sources[x.source].kind == t.sources[y.source].kind && t.sources[x.source].sourceId == t.sources[y.source].sourceId
                && (t.sources[x.source].kind.IncidentChange? ==> x.source == y.source)
                ==> a == b)
  {
    FiringHolds(c, run, steps, n);
    var t := run[n].tables;
    var x, y := t.alerts[a], t.alerts[b];
    assert AlertOk(t, a) && AlertOk(t, b);
    var p, q := t.sources[x.source], t.sources[y.source];
    KeysAgreeExactly(x.rule.id, p.kind, p.sourceId, x.source, y.rule.id, q.kind, q.sourceId, y.source);
  }

  /** Every alert row has exactly one attempt row per target of the rule it was inserted for. */
  lemma OneAttemptPerTarget(c: Config, run: seq<State>, steps: seq<Step>, n: nat, a: nat)
    requires IsRun(c, run, steps) && n < |run| && a < |run[n].tables.alerts|
    ensures var t := run[n].tables;
            var attempts, targets := AttemptsOf(t.attempts, a), t.alerts[a].rule.targets;
            && |attempts| == |targets|
            && forall k :: 0 <= k < |targets| ==> attempts[k] == Attempt(a, targets[k], ForTarget(t.alerts[a].key, targets[k]))
  {
    FiringHolds(c, run, steps, n);
    assert AlertOk(run[n].tables, a);
  }

  // ---------------------------------------------------------------- processed implies fired

  lemma {:induction false} AlertsOnlyGrow(c: Config, run: seq<State>, steps: seq<Step>, i: nat, j: nat)
    requires IsRun(c, run, steps) && i <= j < |run|
    ensures run[i].tables.alerts <= run[j].tables.alerts
    ensures |run[i].tables.sources| <= |run[j].tables.sources|
    ensures forall id :: 0 <= id < |run[i].tables.sources| ==>
              && run[j].tables.sources[id].kind == run[i].tables.sources[id].kind
              && run[j].tables.sources[id].sourceId == run[i].tables.sources[id].sourceId
    decreases j
  {
    if i < j {
      AlertsOnlyGrow(c, run, steps, i, j - 1);
      StepKeepsSources(c, run[j - 1], steps[j - 1]);
    }
  }

  /** An alert row for a rule and a trigger, said of the rows themselves. */
  ghost predicate HasAlert(t: Tables, rule: int, id: nat)
    requires id < |t.sources|
  {
    exists a :: 0 <= a < |t.alerts| && IsFor(t, t.alerts[a], rule, id)
  }

  ghost predicate IsFor(t: Tables, x: Alert, rule: int, id: nat)
    requires id < |t.sources|
  {
    && x.rule.id == rule && x.source < |t.sources|
    && t.sources[x.source].kind == t.sources[id].kind && t.sources[x.source].sourceId == t.sources[id].sourceId
    && (t.sources[id].kind.IncidentChange? ==> x.source == id)
  }

  lemma FiredHasAlert(t: Tables, rule: Rule, id: nat)
    requires AlertsOk(t) && id < |t.sources| && Fired(t, rule, id)
    ensures HasAlert(t, rule.id, id)
  {
    var a :| 0 <= a < |t.alerts| && t.alerts[a].key == KeyOf(rule, t.sources[id], id);
    assert AlertOk(t, a);
    var x := t.alerts[a];
    var p, q := t.sources[x.source], t.sources[id];
    KeysAgreeExactly(x.rule.id, p.kind, p.sourceId, x.source, rule.id, q.kind, q.sourceId, id);
    assert IsFor(t, x, rule.id, id);
  }

  /** When a worker marks an event, it has judged every rule it loaded, and each rule it found to
      match has its alert row from then on. */
  lemma ProcessedImpliesFired(c: Config, run: seq<State>, steps: seq<Step>, i: nat, w: nat, j: nat, m: nat)
    requires IsRun(c, run, steps) && i < |steps| && steps[i] == Mark(w) && i <= j < |run|
    requires m in run[i].workers[w].matched
    ensures var wk := run[i].workers[w];
            && wk.judged == |wk.rules.value| && m < |wk.rules.value| && wk.queue[0].id < |run[j].tables.sources|
            && HasAlert(run[j].tables, wk.rules.value[m].id, wk.queue[0].id)
  {
    FiringHolds(c, run, steps, i);
    FiringHolds(c, run, steps, j);
    var wk := run[i].workers[w];
    assert MatchesFired(run[i].tables, run[i].workers[w]);
    AlertsOnlyGrow(c, run, steps, i, j);
    HasKeyGrows(run[i].tables.alerts, run[j].tables.alerts, KeyOf(wk.rules.value[m], run[i].tables.sources[wk.queue[0].id], wk.queue[0].id));
    FiredHasAlert(run[j].tables, wk.rules.value[m], wk.queue[0].id);
  }

  // ---------------------------------------------------------------- the token invariant, with clocks within the lease

  ghost predicate SourceOk(now: int, src: Source, l: seq<LogEntry>) {
    && Increasing(l)
    && (l != [] ==> Last(l).token <= now)
    && src.claimedAt == (if l == [] then None else Some(Last(l).token))
    && (src.processedAt.Some? ==> l != [])
  }

  /** A remembered claim is in the history, and is not the claim under which the event was processed. */
  ghost predicate ClaimOk(s: State, w: nat, cl: Claim)
    requires |s.log| == |s.tables.sources|
  {
    && cl.id < |s.log|
    && LogEntry(cl.token, w) in s.log[cl.id]
    && (s.tables.sources[cl.id].processedAt.Some? ==> s.tables.sources[cl.id].claimedAt != Some(cl.token))
  }

  ghost predicate ClaimsOk(s: State)
    requires |s.log| == |s.tables.sources|
  {
    forall w :: w in s.workers ==>
      && (forall i :: 0 <= i < |s.workers[w].queue| ==> ClaimOk(s, w, s.workers[w].queue[i]))
      && (forall i, j :: 0 <= i < j < |s.workers[w].queue| ==> s.workers[w].queue[i].id < s.workers[w].queue[j].id)
  }

  ghost predicate TokensOk(s: State) {
    && |s.log| == |s.tables.sources|
    && (forall id :: 0 <= id < |s.log| ==> SourceOk(s.now, s.tables.sources[id], s.log[id]))
    && ClaimsOk(s)
  }

  lemma ClaimKeepsTokens(c: Config, s: State, w: nat, ids: seq<nat>, workerNow: int)
    requires ClocksWithinLease(c) && TokensOk(s) && Enabled(c, s, ClaimBatch(w, ids, workerNow))
    ensures TokensOk(After(c, s, ClaimBatch(w, ids, workerNow)))
  {
    var t := After(c, s, ClaimBatch(w, ids, workerNow));
    forall id | 0 <= id < |t.log| ensures SourceOk(t.now, t.tables.sources[id], t.log[id]) {
      assert SourceOk(s.now, s.tables.sources[id], s.log[id]);
      if id in ids {
        IncreasingAppend(s.log[id], LogEntry(s.now, w));
      }
    }
    ClaimKeepsClaims(c, s, w, ids, workerNow);
  }

  lemma ClaimKeepsClaims(c: Config, s: State, w: nat, ids: seq<nat>, workerNow: int)
    requires ClocksWithinLease(c) && TokensOk(s) && Enabled(c, s, ClaimBatch(w, ids, workerNow))
    ensures ClaimsOk(After(c, s, ClaimBatch(w, ids, workerNow)))
  {
    var t := After(c, s, ClaimBatch(w, ids, workerNow));
    var e := LogEntry(s.now, w);
    forall w', i | w' in t.workers && w' != w && 0 <= i < |t.workers[w'].queue| ensures ClaimOk(t, w', t.workers[w'].queue[i]) {
      OldClaimStaysOk(c, s, w', s.workers[w'].queue[i], ids, workerNow, e, t);
    }
    forall i | 0 <= i < |ids| ensures ClaimOk(t, w, t.workers[w].queue[i]) {
      assert ids[i] in ids;
      assert t.log[ids[i]][|s.log[ids[i]]|] == e;
    }
  }

  lemma OldClaimStaysOk(c: Config, s: State, w: nat, cl: Claim, ids: seq<nat>, workerNow: int, e: LogEntry, t: State)
    requires ClocksWithinLease(c) && TokensOk(s) && ClaimOk(s, w, cl) && workerNow <= s.now + c.skew
    requires Selection(s.tables.sources, ids, c.batch, workerNow - c.lease)
    requires t.tables.sources == ClaimSources(s.tables.sources, ids, s.now)
    requires e.token == s.now && t.log == LogClaims(s.log, ids, e)
    ensures ClaimOk(t, w, cl)
  {
    assert SourceOk(s.now, s.tables.sources[cl.id], s.log[cl.id]);
    if cl.id in ids {
      TokensAtMostLast(s.log[cl.id], LogEntry(cl.token, w));
      assert LogEntry(cl.token, w) in s.log[cl.id] + [e];
    }
  }

  /** The same claim is never held twice. */
  lemma HeldOnce(s: State, w: nat, i: nat, w': nat, j: nat)
    requires TokensOk(s) && w in s.workers && w' in s.workers
    requires i < |s.workers[w].queue| && j < |s.workers[w'].queue|
    requires s.workers[w].queue[i] == s.workers[w'].queue[j]
    ensures w == w' && i == j
  {
    var cl := s.workers[w].queue[i];
    assert ClaimOk(s, w, cl) && ClaimOk(s, w', cl);
    var l := s.log[cl.id];
    assert SourceOk(s.now, s.tables.sources[cl.id], l);
    var m :| 0 <= m < |l| && l[m] == LogEntry(cl.token, w);
    var n :| 0 <= n < |l| && l[n] == LogEntry(cl.token, w');
    assert m == n;
  }

  lemma HeldApart(s: State, w: nat, i: nat, w': nat, j: nat)
    requires TokensOk(s) && w in s.workers && w' in s.workers && (w != w' || i != j)
    requires i < |s.workers[w].queue| && j < |s.workers[w'].queue|
    ensures s.workers[w].queue[i] != s.workers[w'].queue[j]
  {
    if s.workers[w].queue[i] == s.workers[w'].queue[j] {
      HeldOnce(s, w, i, w', j);
    }
  }

  lemma MarkKeepsClaims(c: Config, s: State, w: nat)
    requires TokensOk(s) && Enabled(c, s, Mark(w))
    ensures ClaimsOk(After(c, s, Mark(w)))
  {
    var t := After(c, s, Mark(w));
    var done := s.workers[w].queue[0];
    forall w', i | w' in t.workers && 0 <= i < |t.workers[w'].queue| ensures ClaimOk(t, w', t.workers[w'].queue[i]) {
      var j := if w' == w then i + 1 else i;
      var cl := s.workers[w'].queue[j];
      assert t.workers[w'].queue[i] == cl && ClaimOk(s, w', cl);
      HeldApart(s, w, 0, w', j);
    }
  }

  lemma MarkKeepsTokens(c: Config, s: State, w: nat)
    requires TokensOk(s) && Enabled(c, s, Mark(w))
    ensures TokensOk(After(c, s, Mark(w)))
  {
    var t := After(c, s, Mark(w));
    assert ClaimOk(s, w, s.workers[w].queue[0]);
    forall id | 0 <= id < |t.log| ensures SourceOk(t.now, t.tables.sources[id], t.log[id]) {
      assert SourceOk(s.now, s.tables.sources[id], s.log[id]);
    }
    MarkKeepsClaims(c, s, w);
  }

  lemma SameClaims(s: State, t: State)
    requires |s.log| == |s.tables.sources| && ClaimsOk(s)
    requires |s.log| <= |t.log| == |t.tables.sources|
    requires forall id :: 0 <= id < |s.log| ==> t.log[id] == s.log[id] && t.tables.sources[id] == s.tables.sources[id]
    requires forall w :: w in t.workers ==> w in s.workers && t.workers[w].queue == s.workers[w].queue
    ensures ClaimsOk(t)
  {
    forall w, i | w in t.workers && 0 <= i < |t.workers[w].queue| ensures ClaimOk(t, w, t.workers[w].queue[i]) {
      assert ClaimOk(s, w, s.workers[w].queue[i]);
    }
  }

  lemma OtherStepsKeepTokens(c: Config, s: State, step: Step)
    requires TokensOk(s) && Enabled(c, s, step) && !step.ClaimBatch? && !step.Mark?
    ensures TokensOk(After(c, s, step))
  {
    var t := After(c, s, step);
    SameClaims(s, t);
    forall id | 0 <= id < |t.log| ensures SourceOk(t.now, t.tables.sources[id], t.log[id]) {
      assert id < |s.log| ==> SourceOk(s.now, s.tables.sources[id], s.log[id]);
    }
  }

  lemma StepKeepsTokens(c: Config, s: State, step: Step)
    requires ClocksWithinLease(c) && TokensOk(s) && Enabled(c, s, step)
    ensures TokensOk(After(c, s, step))
  {
    match step
    case ClaimBatch(w, ids, workerNow) => ClaimKeepsTokens(c, s, w, ids, workerNow);
    case Mark(w) => MarkKeepsTokens(c, s, w);
    case _ => OtherStepsKeepTokens(c, s, step);
  }

  lemma {:induction false} TokensHold(c: Config, run: seq<State>, steps: seq<Step>, i: nat)
    requires ClocksWithinLease(c) && IsRun(c, run, steps) && i < |run|
    ensures TokensOk(run[i])
  {
    if i > 0 {
      TokensHold(c, run, steps, i - 1);
      StepKeepsTokens(c, run[i - 1], steps[i - 1]);
    }
  }

  /** The UPDATE does not test `processed_at`, yet it only ever hits an unprocessed event, and only
      for the event's latest claimant. */
  lemma MarkHitsUnprocessed(c: Config, run: seq<State>, steps: seq<Step>, i: nat, w: nat)
    requires ClocksWithinLease(c) && IsRun(c, run, steps) && i < |steps| && steps[i] == Mark(w)
    ensures var s, cl := run[i], run[i].workers[w].queue[0];
            && cl.id < |s.tables.sources| == |s.log| == |run[i + 1].tables.sources| && s.log[cl.id] != []
            && (s.tables.sources[cl.id].claimedAt == Some(cl.token) <==> Last(s.log[cl.id]) == LogEntry(cl.token, w))
            && (s.tables.sources[cl.id].claimedAt == Some(cl.token) ==>
                  s.tables.sources[cl.id].processedAt.None? && run[i + 1].tables.sources[cl.id].processedAt.Some?)
            && (s.tables.sources[cl.id].claimedAt != Some(cl.token) ==> run[i + 1].tables == s.tables)
  {
    TokensHold(c, run, steps, i);
    var s, cl := run[i], run[i].workers[w].queue[0];
    assert ClaimOk(s, w, cl) && SourceOk(s.now, s.tables.sources[cl.id], s.log[cl.id]);
    TokensAtMostLast(s.log[cl.id], LogEntry(cl.token, w));
  }

  /** A processed event is never claimed or marked again. */
  lemma {:induction false} ProcessedIsFinal(c: Config, run: seq<State>, steps: seq<Step>, i: nat, j: nat, id: nat)
    requires ClocksWithinLease(c) && IsRun(c, run, steps) && i <= j < |run|
    requires id < |run[i].tables.sources| && run[i].tables.sources[id].processedAt.Some?
    ensures id < |run[j].tables.sources| && run[j].tables.sources[id] == run[i].tables.sources[id]
    decreases j
  {
    if i < j {
      ProcessedIsFinal(c, run, steps, i, j - 1, id);
      if steps[j - 1].Mark? {
        MarkHitsUnprocessed(c, run, steps, j - 1, steps[j - 1].worker);
      }
    }
  }

  // ---------------------------------------------------------------- the clock bound is needed

  /** One more step of a run. */
  lemma Extended(c: Config, run: seq<State>, steps: seq<Step>, step: Step) returns (run': seq<State>, steps': seq<Step>)
    requires IsRun(c, run, steps) && Enabled(c, run[|steps|], step)
    ensures run' == run + [After(c, run[|steps|], step)] && steps' == steps + [step]
    ensures IsRun(c, run', steps')
  {
    run', steps' := run + [After(c, run[|steps|], step)], steps + [step];
  }

  /** Claiming the only event. */
  lemma ClaimOnlyEvent(c: Config, s: State, w: nat, workerNow: int)
    requires |s.tables.sources| == |s.log| == 1 && 1 <= c.batch && w !in s.workers
    requires s.now - c.skew <= workerNow <= s.now + c.skew && Pending(s.tables.sources[0], workerNow - c.lease)
    ensures Enabled(c, s, ClaimBatch(w, [0], workerNow))
    ensures var t := After(c, s, ClaimBatch(w, [0], workerNow));
            && t.now == s.now && t.tables.sources == [s.tables.sources[0].(claimedAt := Some(s.now))]
            && |t.log| == 1 && t.workers == s.workers[w := Fresh([Claim(0, s.now)])]
  {
    assert ClaimsOf([0], s.now) == [Claim(0, s.now)];
  }

  /** With clocks a lease or more apart two workers can hold the same event under the same token. */
  lemma TwoClaims(c: Config) returns (run: seq<State>, steps: seq<Step>)
    requires 0 < c.batch && 0 < c.lease <= c.skew
    ensures IsRun(c, run, steps) && |steps| == 3
    ensures var s := run[3];
            && s.now == 0 && s.tables.sources == [Source(ProductAvailable, "", Some(0), None)]
            && s.workers == map[1 := Fresh([Claim(0, 0)]), 2 := Fresh([Claim(0, 0)])]
  {
    run, steps := [State(0, Tables([], [], []), [], map[])], [];
    run, steps := Extended(c, run, steps, Publish(ProductAvailable, ""));
    ClaimOnlyEvent(c, run[1], 1, 0);
    run, steps := Extended(c, run, steps, ClaimBatch(1, [0], 0));
    ClaimOnlyEvent(c, run[2], 2, c.lease);
    run, steps := Extended(c, run, steps, ClaimBatch(2, [0], c.lease));
  }

  /** Then the second mark hits an event that is processed already, and changes when it was. */
  lemma SkewOfOneLeaseMarksTwice(c: Config) returns (run: seq<State>, steps: seq<Step>)
    requires 0 < c.batch && 0 < c.lease <= c.skew
    ensures IsRun(c, run, steps) && |steps| == 8 && steps[5] == Mark(1) && steps[7] == Mark(2)
    ensures |run[6].tables.sources| == |run[8].tables.sources| == 1
    ensures run[6].tables.sources[0].processedAt == Some(0) && run[8].tables.sources[0].processedAt == Some(1)
  {
    run, steps := TwoClaims(c);
    run, steps := Extended(c, run, steps, LoadRules(1, []));
    run, steps := Extended(c, run, steps, LoadRules(2, []));
    run, steps := Extended(c, run, steps, Mark(1));
    run, steps := Extended(c, run, steps, Tick(1));
    run, steps := Extended(c, run, steps, Mark(2));
  }

  /** A processed event never changes, in any interleaving. */
  ghost predicate ProcessedFrozen(c: Config) {
    forall run: seq<State>, steps: seq<Step>, i: nat, j: nat, id: nat ::
      IsRun(c, run, steps) && i <= j < |run| && id < |run[i].tables.sources| && run[i].tables.sources[id].processedAt.Some? ==>
        id < |run[j].tables.sources| && run[j].tables.sources[id] == run[i].tables.sources[id]
  }

  /** This holds exactly when the clocks are closer than the lease. */
  lemma ProcessedBoundIsExact(c: Config)
    requires ValidConfig(c)
    ensures ProcessedFrozen(c) <==> c.skew < c.lease
  {
    if c.skew >= c.lease {
      var run, steps := SkewOfOneLeaseMarksTwice(c);
      assert run[8].tables.sources[0] != run[6].tables.sources[0];
    } else {
      forall run: seq<State>, steps: seq<Step>, i: nat, j: nat, id: nat
        | IsRun(c, run, steps) && i <= j < |run| && id < |run[i].tables.sources| && run[i].tables.sources[id].processedAt.Some?
        ensures id < |run[j].tables.sources| && run[j].tables.sources[id] == run[i].tables.sources[id]
      {
        ProcessedIsFinal(c, run, steps, i, j, id);
      }
    }
  }
}
