/**
  The fold of a product's VTEC rows into one update per incident: rows with status "O" are grouped
  by (office, phenomena, significance, event number) in a sorted map.
*/
module IncidentFold {
  import opened Wrappers

  datatype Key = Key(office: string, phenomena: string, significance: string, etn: int)

  datatype Row = Row(status: string, action: string, key: Key, begin: Option<int>, end: Option<int>)

  datatype Accumulator = Accumulator(status: Option<string>, action: string, start: Option<int>, end: Option<int>)

  datatype Update = Update(key: Key, status: Option<string>, action: string, issuedAt: int,
                           start: Option<int>, end: Option<int>, latestProductAt: int)

  datatype Error = InvalidTimestamp

  // ---------------------------------------------------------------- key order

  predicate TextLess(a: string, b: string) {
    b != [] && (a == [] || a[0] < b[0] || (a[0] == b[0] && TextLess(a[1..], b[1..])))
  }

  /** Field by field, as the derived order. */
  predicate KeyLess(a: Key, b: Key) {
    || TextLess(a.office, b.office)
    || (a.office == b.office && TextLess(a.phenomena, b.phenomena))
    || (a.office == b.office && a.phenomena == b.phenomena && TextLess(a.significance, b.significance))
    || (a.office == b.office && a.phenomena == b.phenomena && a.significance == b.significance && a.etn < b.etn)
  }

  lemma {:induction false} TextOrder(a: string, b: string)
    ensures !(TextLess(a, b) && TextLess(b, a))
    ensures a == b <==> !TextLess(a, b) && !TextLess(b, a)
  {
    if a != [] && b != [] && a[0] == b[0] {
      TextOrder(a[1..], b[1..]);
      assert a == [a[0]] + a[1..] && b == [b[0]] + b[1..];
    }
  }

  lemma {:induction false} TextTransitive(a: string, b: string, c: string)
    requires TextLess(a, b) && TextLess(b, c)
    ensures TextLess(a, c)
  {
    if a != [] && a[0] == b[0] == c[0] {
      TextTransitive(a[1..], b[1..], c[1..]);
    }
  }

  lemma KeyOrder(a: Key, b: Key)
    ensures !(KeyLess(a, b) && KeyLess(b, a))
    ensures a == b <==> !KeyLess(a, b) && !KeyLess(b, a)
  {
    TextOrder(a.office, b.office);
    TextOrder(a.phenomena, b.phenomena);
    TextOrder(a.significance, b.significance);
  }

  lemma KeyTransitive(a: Key, b: Key, c: Key)
    requires KeyLess(a, b) && KeyLess(b, c)
    ensures KeyLess(a, c)
  {
    if TextLess(a.office, b.office) && TextLess(b.office, c.office) {
      TextTransitive(a.office, b.office, c.office);
    }
    if TextLess(a.phenomena, b.phenomena) && TextLess(b.phenomena, c.phenomena) {
      TextTransitive(a.phenomena, b.phenomena, c.phenomena);
    }
    if TextLess(a.significance, b.significance) && TextLess(b.significance, c.significance) {
      TextTransitive(a.significance, b.significance, c.significance);
    }
  }

  /** A prefix of the other text, or smaller at the first character in which they differ. */
  ghost predicate Before(a: string, b: string) {
    exists n: nat :: SameUpTo(a, b, n) && n < |b| && (n == |a| || a[n] < b[n])
  }

  ghost predicate SameUpTo(a: string, b: string, n: nat) {
    n <= |a| && n <= |b| && a[..n] == b[..n]
  }

  lemma {:induction false} LessIsBefore(a: string, b: string)
    requires TextLess(a, b)
    ensures Before(a, b)
  {
    if a == [] || a[0] < b[0] {
      assert SameUpTo(a, b, 0);
    } else {
      LessIsBefore(a[1..], b[1..]);
      var n: nat :| SameUpTo(a[1..], b[1..], n) && n < |b[1..]| && (n == |a[1..]| || a[1..][n] < b[1..][n]);
      assert a[..n + 1] == [a[0]] + a[1..][..n] && b[..n + 1] == [b[0]] + b[1..][..n];
      assert SameUpTo(a, b, n + 1);
    }
  }

  lemma {:induction false} BeforeIsLess(a: string, b: string, n: nat)
    requires SameUpTo(a, b, n) && n < |b| && (n == |a| || a[n] < b[n])
    ensures TextLess(a, b)
  {
    if n > 0 {
      assert a[0] == a[..n][0] == b[..n][0] == b[0];
      assert a[1..][..n - 1] == a[..n][1..] && b[1..][..n - 1] == b[..n][1..];
      BeforeIsLess(a[1..], b[1..], n - 1);
    }
  }

  lemma TextLessExactly(a: string, b: string)
    ensures TextLess(a, b) <==> Before(a, b)
  {
    if TextLess(a, b) {
      LessIsBefore(a, b);
    }
    if Before(a, b) {
      var n: nat :| SameUpTo(a, b, n) && n < |b| && (n == |a| || a[n] < b[n]);
      BeforeIsLess(a, b, n);
    }
  }

  /** The first field in which keys differ decides: office, phenomena, significance, number. */
  lemma FirstFieldDecides(a: Key, b: Key)
    ensures a.office != b.office ==> (KeyLess(a, b) <==> Before(a.office, b.office))
    ensures a.office == b.office && a.phenomena != b.phenomena ==> (KeyLess(a, b) <==> Before(a.phenomena, b.phenomena))
    ensures a.office == b.office && a.phenomena == b.phenomena && a.significance != b.significance ==>
              (KeyLess(a, b) <==> Before(a.significance, b.significance))
    ensures a == b.(etn := a.etn) ==> (KeyLess(a, b) <==> a.etn < b.etn)
  {
    TextLessExactly(a.office, b.office);
    TextLessExactly(a.phenomena, b.phenomena);
    TextLessExactly(a.significance, b.significance);
    KeyOrder(a, b);
    TextOrder(a.office, b.office);
    TextOrder(a.phenomena, b.phenomena);
    TextOrder(a.significance, b.significance);
  }

  ghost predicate Sorted(keys: seq<Key>) {
    forall i, j :: 0 <= i < j < |keys| ==> KeyLess(keys[i], keys[j])
  }

  // ---------------------------------------------------------------- one group, read off the rows

  predicate Counts(r: Row, k: Key) {
    r.status == "O" && r.key == k
  }

  function MapStatus(action: string): Option<string> {
    if action in ["NEW", "CON", "EXT", "EXA", "EXB"] then Some("active")
    else if action == "CAN" then Some("cancelled")
    else if action == "EXP" then Some("expired")
    else if action == "UPG" then Some("upgraded")
    else None
  }

  /** The earliest defined begin among the group's rows. */
  ghost predicate IsStart(o: Option<int>, rows: seq<Row>, k: Key) {
    match o
    case None => forall i :: 0 <= i < |rows| && Counts(rows[i], k) ==> rows[i].begin.None?
    case Some(v) =>
      && (exists i :: 0 <= i < |rows| && Counts(rows[i], k) && rows[i].begin == Some(v))
      && (forall i :: 0 <= i < |rows| && Counts(rows[i], k) && rows[i].begin.Some? ==> v <= rows[i].begin.value)
  }

  /** The latest defined end among the group's rows. */
  ghost predicate IsEnd(o: Option<int>, rows: seq<Row>, k: Key) {
    match o
    case None => forall i :: 0 <= i < |rows| && Counts(rows[i], k) ==> rows[i].end.None?
    case Some(v) =>
      && (exists i :: 0 <= i < |rows| && Counts(rows[i], k) && rows[i].end == Some(v))
      && (forall i :: 0 <= i < |rows| && Counts(rows[i], k) && rows[i].end.Some? ==> rows[i].end.value <= v)
  }

  /** The action of the group's last row. */
  ghost predicate IsLastAction(action: string, rows: seq<Row>, k: Key) {
    exists i :: 0 <= i < |rows| && Counts(rows[i], k) && rows[i].action == action
                && forall j :: i < j < |rows| ==> !Counts(rows[j], k)
  }

  /** The status that an action's word stands for. */
  ghost predicate Stands(action: string, status: string) {
    || (status == "active" && (action == "NEW" || action == "CON" || action == "EXT" || action == "EXA" || action == "EXB"))
    || (status == "cancelled" && action == "CAN")
    || (status == "expired" && action == "EXP")
    || (status == "upgraded" && action == "UPG")
  }

  ghost predicate Neutral(action: string) {
    action !in ["NEW", "CON", "EXT", "EXA", "EXB", "CAN", "EXP", "UPG"]
  }

  lemma StatusWords(action: string, status: string)
    ensures MapStatus(action) == Some(status) <==> Stands(action, status)
    ensures MapStatus(action) == None <==> Neutral(action)
  {
  }

  /** The status of the group's last row whose action has one. */
  ghost predicate IsLastStatus(o: Option<string>, rows: seq<Row>, k: Key) {
    match o
    case None => forall i :: 0 <= i < |rows| && Counts(rows[i], k) ==> Neutral(rows[i].action)
    case Some(status) =>
      exists i :: 0 <= i < |rows| && Counts(rows[i], k) && Stands(rows[i].action, status)
                  && forall j :: i < j < |rows| && Counts(rows[j], k) ==> Neutral(rows[j].action)
  }

  ghost predicate Summarizes(a: Accumulator, rows: seq<Row>, k: Key) {
    IsStart(a.start, rows, k) && IsEnd(a.end, rows, k) && IsLastAction(a.action, rows, k) && IsLastStatus(a.status, rows, k)
  }

  // ---------------------------------------------------------------- one row folded in

  function MinOption(a: Option<int>, b: Option<int>): Option<int> {
    if a.Some? && b.Some? then Some(if a.value <= b.value then a.value else b.value)
    else if a.Some? then a
    else b
  }

  function MaxOption(a: Option<int>, b: Option<int>): Option<int> {
    if a.Some? && b.Some? then Some(if a.value <= b.value then b.value else a.value)
    else if a.Some? then a
    else b
  }

  function Fresh(r: Row): Accumulator {
    Accumulator(MapStatus(r.action), r.action, r.begin, r.end)
  }

  function Folded(a: Accumulator, r: Row): Accumulator {
    Accumulator(if MapStatus(r.action).Some? then MapStatus(r.action) else a.status, r.action,
                MinOption(a.start, r.begin), MaxOption(a.end, r.end))
  }

  lemma OtherRowLast(a: Accumulator, rows: seq<Row>, r: Row, k: Key)
    requires IsLastAction(a.action, rows, k) && IsLastStatus(a.status, rows, k) && !Counts(r, k)
    ensures IsLastAction(a.action, rows + [r], k) && IsLastStatus(a.status, rows + [r], k)
  {
    var all := rows + [r];
    assert forall i :: 0 <= i < |rows| ==> all[i] == rows[i];
    assert IsLastAction(a.action, all, k) by {
      var i :| 0 <= i < |rows| && Counts(rows[i], k) && rows[i].action == a.action && forall j :: i < j < |rows| ==> !Counts(rows[j], k);
      assert all[i] == rows[i];
    }
    if a.status.Some? {
      var i :| 0 <= i < |rows| && Counts(rows[i], k) && Stands(rows[i].action, a.status.value)
               && forall j :: i < j < |rows| && Counts(rows[j], k) ==> Neutral(rows[j].action);
      assert all[i] == rows[i];
    }
  }

  lemma OtherRow(a: Accumulator, rows: seq<Row>, r: Row, k: Key)
    requires Summarizes(a, rows, k) && !Counts(r, k)
    ensures Summarizes(a, rows + [r], k)
  {
    var all := rows + [r];
    OtherRowLast(a, rows, r, k);
    assert forall i :: 0 <= i < |rows| ==> all[i] == rows[i];
    if a.start.Some? {
      var i :| 0 <= i < |rows| && Counts(rows[i], k) && rows[i].begin == a.start;
      assert all[i] == rows[i];
    }
    if a.end.Some? {
      var i :| 0 <= i < |rows| && Counts(rows[i], k) && rows[i].end == a.end;
      assert all[i] == rows[i];
    }
  }

  lemma FirstRow(rows: seq<Row>, r: Row, k: Key)
    requires Counts(r, k) && forall i :: 0 <= i < |rows| ==> !Counts(rows[i], k)
    ensures Summarizes(Folded(Fresh(r), r), rows + [r], k)
  {
    var all := rows + [r];
    assert all[|rows|] == r;
  }

  lemma FoldTimes(a: Accumulator, rows: seq<Row>, r: Row, k: Key)
    requires IsStart(a.start, rows, k) && IsEnd(a.end, rows, k) && Counts(r, k)
    ensures IsStart(Folded(a, r).start, rows + [r], k) && IsEnd(Folded(a, r).end, rows + [r], k)
  {
    var all := rows + [r];
    assert all[|rows|] == r;
    assert forall i :: 0 <= i < |rows| ==> all[i] == rows[i];
    if a.start.Some? {
      var i :| 0 <= i < |rows| && Counts(rows[i], k) && rows[i].begin == a.start;
      assert all[i] == rows[i];
    }
    if a.end.Some? {
      var i :| 0 <= i < |rows| && Counts(rows[i], k) && rows[i].end == a.end;
      assert all[i] == rows[i];
    }
  }

  lemma FoldStatus(status: Option<string>, rows: seq<Row>, r: Row, k: Key)
    requires IsLastStatus(status, rows, k) && Counts(r, k)
    ensures IsLastStatus(if MapStatus(r.action).Some? then MapStatus(r.action) else status, rows + [r], k)
  {
    var all := rows + [r];
    assert all[|rows|] == r && forall i :: 0 <= i < |rows| ==> all[i] == rows[i];
    StatusWords(r.action, if MapStatus(r.action).Some? then MapStatus(r.action).value else "");
    if MapStatus(r.action).None? && status.Some? {
      var i :| 0 <= i < |rows| && Counts(rows[i], k) && Stands(rows[i].action, status.value)
               && forall j :: i < j < |rows| && Counts(rows[j], k) ==> Neutral(rows[j].action);
      assert all[i] == rows[i];
    }
  }

  lemma FoldRow(a: Accumulator, rows: seq<Row>, r: Row, k: Key)
    requires Summarizes(a, rows, k) && Counts(r, k)
    ensures Summarizes(Folded(a, r), rows + [r], k)
  {
    FoldTimes(a, rows, r, k);
    FoldStatus(a.status, rows, r, k);
    assert (rows + [r])[|rows|] == r;
  }

  // ---------------------------------------------------------------- the sorted map

  /** A new key's place in the sorted map. */
  method InsertKey(keys: seq<Key>, k: Key) returns (r: seq<Key>)
    requires Sorted(keys) && k !in keys
    ensures Sorted(r) && |r| == |keys| + 1
    ensures forall x :: x in r <==> x in keys || x == k
  {
    var i := 0;
    while i < |keys| && KeyLess(keys[i], k)
      invariant 0 <= i <= |keys|
      invariant forall j :: 0 <= j < i ==> KeyLess(keys[j], k)
    {
      i := i + 1;
    }
    r := keys[..i] + [k] + keys[i..];
    forall j | i <= j < |keys| ensures KeyLess(k, keys[j]) {
      KeyOrder(keys[i], k);
      assert keys[i] in keys;
      if i < j {
        KeyTransitive(k, keys[i], keys[j]);
      }
    }
    assert forall x :: x in keys ==> x in keys[..i] || x in keys[i..];
  }

  /** The map after some rows: one accumulator per counted key, each summarizing its rows. */
  ghost predicate Grouped(m: map<Key, Accumulator>, keys: seq<Key>, rows: seq<Row>) {
    && Sorted(keys)
    && (forall k :: k in keys <==> k in m)
    && (forall k :: k in m ==> Summarizes(m[k], rows, k))
    && (forall i :: 0 <= i < |rows| && rows[i].status == "O" ==> rows[i].key in m)
  }

  lemma GroupStep(m: map<Key, Accumulator>, keys: seq<Key>, rows: seq<Row>, r: Row, keys': seq<Key>)
    requires Grouped(m, keys, rows)
    requires r.status == "O" ==> Sorted(keys') && forall x :: x in keys' <==> x in keys || x == r.key
    ensures r.status != "O" ==> Grouped(m, keys, rows + [r])
    ensures r.status == "O" ==>
              Grouped(m[r.key := Folded(if r.key in m then m[r.key] else Fresh(r), r)], keys', rows + [r])
  {
    forall k | k in m && !Counts(r, k) ensures Summarizes(m[k], rows + [r], k) {
      OtherRow(m[k], rows, r, k);
    }
    if r.status == "O" {
      if r.key in m {
        FoldRow(m[r.key], rows, r, r.key);
      } else {
        FirstRow(rows, r, r.key);
      }
    }
  }

  /** `prepare_incident_updates`; `issuedAt` is the source timestamp converted, None when it cannot be. */
  method PrepareIncidentUpdates(issuedAt: Option<int>, rows: seq<Row>) returns (r: Result<seq<Update>, Error>)
    ensures r.Err? <==> issuedAt.None?
    ensures r.Ok? ==> UpdatesFor(r.value, issuedAt.value, rows)
  {
    if issuedAt.None? {
      return Err(InvalidTimestamp);
    }
    var m: map<Key, Accumulator>, keys: seq<Key> := map[], [];
    for i := 0 to |rows|
      invariant Grouped(m, keys, rows[..i])
    {
      var row := rows[i];
      assert rows[..i + 1] == rows[..i] + [row];
      if row.status == "O" {
        var keys' := keys;
        if row.key !in m {
          keys' := InsertKey(keys, row.key);
        }
        GroupStep(m, keys, rows[..i], row, keys');
        var entry := if row.key in m then m[row.key] else Fresh(row);
        m := m[row.key := Folded(entry, row)];
        keys := keys';
      } else {
        GroupStep(m, keys, rows[..i], row, keys);
      }
    }
    assert rows[..|rows|] == rows;
    GroupedUpdates(m, keys, rows, issuedAt.value);
    r := Ok(ToUpdates(m, keys, issuedAt.value));
  }

  /** The map's entries in key order. */
  function ToUpdates(m: map<Key, Accumulator>, keys: seq<Key>, issuedAt: int): seq<Update>
    requires forall i :: 0 <= i < |keys| ==> keys[i] in m
  {
    seq(|keys|, i requires 0 <= i < |keys| =>
      var a := m[keys[i]];
      Update(keys[i], a.status, a.action, issuedAt, a.start, a.end, issuedAt))
  }

  lemma GroupedUpdates(m: map<Key, Accumulator>, keys: seq<Key>, rows: seq<Row>, issuedAt: int)
    requires Grouped(m, keys, rows)
    ensures forall i :: 0 <= i < |keys| ==> keys[i] in m
    ensures UpdatesFor(ToUpdates(m, keys, issuedAt), issuedAt, rows)
  {
    assert forall i :: 0 <= i < |keys| ==> keys[i] in keys;
    var us := ToUpdates(m, keys, issuedAt);
    forall i | 0 <= i < |us| ensures UpdateFor(us[i], issuedAt, rows) {
      var a := m[keys[i]];
      assert Accumulator(us[i].status, us[i].action, us[i].start, us[i].end) == a;
    }
    forall i | 0 <= i < |rows| && rows[i].status == "O" ensures exists j :: 0 <= j < |us| && us[j].key == rows[i].key {
      assert rows[i].key in keys;
      var j :| 0 <= j < |keys| && keys[j] == rows[i].key;
      assert us[j].key == rows[i].key;
    }
  }

  ghost predicate UpdateFor(u: Update, issuedAt: int, rows: seq<Row>) {
    && Summarizes(Accumulator(u.status, u.action, u.start, u.end), rows, u.key)
    && u.issuedAt == issuedAt == u.latestProductAt
  }

  /** One update per distinct key of a status "O" row, in key order, each summarizing its rows. */
  ghost predicate UpdatesFor(us: seq<Update>, issuedAt: int, rows: seq<Row>) {
    && (forall i, j :: 0 <= i < j < |us| ==> KeyLess(us[i].key, us[j].key))
    && (forall i :: 0 <= i < |us| ==> UpdateFor(us[i], issuedAt, rows))
    && (forall i :: 0 <= i < |rows| && rows[i].status == "O" ==> exists j :: 0 <= j < |us| && us[j].key == rows[i].key)
  }

  // ---------------------------------------------------------------- the contract fixes the result

  lemma SummaryIsUnique(a: Accumulator, b: Accumulator, rows: seq<Row>, k: Key)
    requires Summarizes(a, rows, k) && Summarizes(b, rows, k)
    ensures a == b
  {
    TimesAreUnique(a, b, rows, rows, k);
  }

  /** Start and end depend only on which rows there are, not on their order or repetition. */
  lemma TimesAreUnique(a: Accumulator, b: Accumulator, rows: seq<Row>, rows': seq<Row>, k: Key)
    requires IsStart(a.start, rows, k) && IsEnd(a.end, rows, k)
    requires IsStart(b.start, rows', k) && IsEnd(b.end, rows', k)
    requires forall r :: r in rows <==> r in rows'
    ensures a.start == b.start && a.end == b.end
  {
    assert forall i :: 0 <= i < |rows| ==> rows[i] in rows';
    assert forall i :: 0 <= i < |rows'| ==> rows'[i] in rows;
  }

  lemma BothInhabited(xs: seq<Key>, ys: seq<Key>)
    requires forall k :: k in xs ==> k in ys
    ensures xs != [] ==> ys != []
  {
    if xs != [] {
      assert xs[0] in ys;
    }
  }

  lemma {:induction false} SameKeysSameOrder(xs: seq<Key>, ys: seq<Key>)
    requires Sorted(xs) && Sorted(ys) && forall k :: k in xs <==> k in ys
    ensures xs == ys
  {
    BothInhabited(xs, ys);
    BothInhabited(ys, xs);
    if xs != [] {
      assert xs[0] in ys && ys[0] in xs;
      var i :| 0 <= i < |ys| && ys[i] == xs[0];
      var j :| 0 <= j < |xs| && xs[j] == ys[0];
      if i > 0 {
        KeyOrder(xs[0], ys[0]);
      }
      assert xs[0] == ys[0];
      TailMembers(xs);
      TailMembers(ys);
      SameKeysSameOrder(xs[1..], ys[1..]);
    }
  }

  lemma TailMembers(xs: seq<Key>)
    requires Sorted(xs) && xs != []
    ensures forall k :: k in xs[1..] <==> k in xs && k != xs[0]
  {
    KeyOrder(xs[0], xs[0]);
    assert xs == [xs[0]] + xs[1..];
    assert forall i :: 0 < i < |xs| ==> KeyLess(xs[0], xs[i]);
  }

  function KeysOf(us: seq<Update>): seq<Key> {
    seq(|us|, i requires 0 <= i < |us| => us[i].key)
  }

  lemma KeysCovered(us: seq<Update>, vs: seq<Update>, issuedAt: int, rows: seq<Row>, rows': seq<Row>, k: Key)
    requires UpdatesFor(us, issuedAt, rows) && UpdatesFor(vs, issuedAt, rows') && forall r :: r in rows ==> r in rows'
    requires k in KeysOf(us)
    ensures k in KeysOf(vs)
  {
    var i :| 0 <= i < |us| && us[i].key == k;
    assert UpdateFor(us[i], issuedAt, rows);
    var m :| 0 <= m < |rows| && Counts(rows[m], k);
    assert rows[m] in rows';
    var n :| 0 <= n < |rows'| && rows'[n] == rows[m];
    var j :| 0 <= j < |vs| && vs[j].key == rows'[n].key;
    assert KeysOf(vs)[j] == k;
  }

  lemma KeysLength(us: seq<Update>)
    ensures |KeysOf(us)| == |us|
  {
  }

  lemma SameKeySet(us: seq<Update>, vs: seq<Update>, issuedAt: int, rows: seq<Row>, rows': seq<Row>)
    requires forall r :: r in rows <==> r in rows'
    requires UpdatesFor(us, issuedAt, rows) && UpdatesFor(vs, issuedAt, rows')
    ensures forall k :: k in KeysOf(us) <==> k in KeysOf(vs)
  {
    forall k | k in KeysOf(us) ensures k in KeysOf(vs) {
      KeysCovered(us, vs, issuedAt, rows, rows', k);
    }
    forall k | k in KeysOf(vs) ensures k in KeysOf(us) {
      KeysCovered(vs, us, issuedAt, rows', rows, k);
    }
  }

  lemma ReorderingKeepsKeys(us: seq<Update>, vs: seq<Update>, issuedAt: int, rows: seq<Row>, rows': seq<Row>)
    requires forall r :: r in rows <==> r in rows'
    requires UpdatesFor(us, issuedAt, rows) && UpdatesFor(vs, issuedAt, rows')
    ensures KeysOf(us) == KeysOf(vs) && |us| == |vs|
  {
    SameKeySet(us, vs, issuedAt, rows, rows');
    SameKeysSameOrder(KeysOf(us), KeysOf(vs));
    KeysLength(us);
    KeysLength(vs);
  }

  /** Reordering the rows keeps the keys and their order, and every start and end. */
  lemma ReorderingKeepsTimes(us: seq<Update>, vs: seq<Update>, issuedAt: int, rows: seq<Row>, rows': seq<Row>)
    requires multiset(rows) == multiset(rows')
    requires UpdatesFor(us, issuedAt, rows) && UpdatesFor(vs, issuedAt, rows')
    ensures |us| == |vs|
    ensures forall i :: 0 <= i < |us| ==> us[i].key == vs[i].key && us[i].start == vs[i].start && us[i].end == vs[i].end
  {
    SameMembers(rows, rows');
    ReorderingKeepsKeys(us, vs, issuedAt, rows, rows');
    forall i | 0 <= i < |us| ensures us[i].key == vs[i].key && us[i].start == vs[i].start && us[i].end == vs[i].end {
      assert KeysOf(us)[i] == KeysOf(vs)[i];
      SameTimes(us[i], vs[i], issuedAt, rows, rows');
    }
  }

  lemma SameMembers(rows: seq<Row>, rows': seq<Row>)
    requires multiset(rows) == multiset(rows')
    ensures forall r :: r in rows <==> r in rows'
  {
    assert forall r :: r in rows <==> r in multiset(rows);
    assert forall r :: r in rows' <==> r in multiset(rows');
  }

  lemma SameTimes(u: Update, v: Update, issuedAt: int, rows: seq<Row>, rows': seq<Row>)
    requires u.key == v.key && UpdateFor(u, issuedAt, rows) && UpdateFor(v, issuedAt, rows')
    requires forall r :: r in rows <==> r in rows'
    ensures u.start == v.start && u.end == v.end
  {
    TimesAreUnique(Accumulator(u.status, u.action, u.start, u.end), Accumulator(v.status, v.action, v.start, v.end), rows, rows', u.key);
  }
}
