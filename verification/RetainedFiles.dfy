/**
  The in-memory store of completed files: a hash map plus an order deque of (name, generation)
  pairs whose stale pairs are removed lazily.  It is proved to behave as a plain list, oldest entry
  first, with a time to live and a capacity, whatever clock values it sees.  Times are in nanoseconds.
*/
module RetainedFiles {
  import opened Wrappers

  const SECOND := 1_000_000_000

  datatype File<D, M> = File(data: D, completedAt: int, metadata: M)

  datatype Stored<D, M> = Stored(generation: nat, file: File<D, M>)

  datatype Entry<D, M> = Entry(name: string, file: File<D, M>)

  type OrderPair = (string, nat)

  /** A file's age is zero when its completion lies in the future. */
  predicate Expired<D, M>(f: File<D, M>, now: int, ttl: int) {
    (if now < f.completedAt then 0 else now - f.completedAt) > ttl
  }

  // ---------------------------------------------------------------- the plain list

  function DropExpired<D, M>(xs: seq<Entry<D, M>>, now: int, ttl: int): seq<Entry<D, M>> {
    if xs == [] then []
    else
      var rest, last := DropExpired(xs[..|xs| - 1], now, ttl), xs[|xs| - 1];
      if Expired(last.file, now, ttl) then rest else rest + [last]
  }

  function RemoveName<D, M>(xs: seq<Entry<D, M>>, name: string): seq<Entry<D, M>> {
    if xs == [] then []
    else
      var rest, last := RemoveName(xs[..|xs| - 1], name), xs[|xs| - 1];
      if last.name == name then rest else rest + [last]
  }

  function Newest<D, M>(xs: seq<Entry<D, M>>, n: nat): seq<Entry<D, M>> {
    if |xs| <= n then xs else xs[|xs| - n..]
  }

  function Inserted<D, M>(xs: seq<Entry<D, M>>, e: Entry<D, M>, now: int, ttl: int, n: nat): seq<Entry<D, M>> {
    Newest(RemoveName(DropExpired(xs, now, ttl), e.name) + [e], n)
  }

  function Lookup<D, M>(xs: seq<Entry<D, M>>, name: string): Option<File<D, M>> {
    if xs == [] then None
    else if xs[|xs| - 1].name == name then Some(xs[|xs| - 1].file)
    else Lookup(xs[..|xs| - 1], name)
  }

  /** Metadata, newest first. */
  function Listing<D, M>(xs: seq<Entry<D, M>>): seq<M> {
    seq(|xs|, i requires 0 <= i < |xs| => xs[|xs| - 1 - i].file.metadata)
  }

  ghost predicate DistinctNames<D, M>(xs: seq<Entry<D, M>>) {
    forall i, j :: 0 <= i < j < |xs| ==> xs[i].name != xs[j].name
  }

  // ---------------------------------------------------------------- map and deque read as a list

  predicate Live<D, M>(m: map<string, Stored<D, M>>, p: OrderPair) {
    p.0 in m && m[p.0].generation == p.1
  }

  function Contents<D, M>(m: map<string, Stored<D, M>>, o: seq<OrderPair>): seq<Entry<D, M>> {
    if o == [] then []
    else
      var rest, last := Contents(m, o[..|o| - 1]), o[|o| - 1];
      if Live(m, last) then rest + [Entry(last.0, m[last.0].file)] else rest
  }

  ghost predicate Increasing(o: seq<OrderPair>) {
    forall i, j :: 0 <= i < j < |o| ==> o[i].1 < o[j].1
  }

  ghost predicate GensBelow(o: seq<OrderPair>, bound: nat) {
    forall i :: 0 <= i < |o| ==> o[i].1 < bound
  }

  ghost predicate AllLive<D, M>(m: map<string, Stored<D, M>>, o: seq<OrderPair>) {
    forall i :: 0 <= i < |o| ==> Live(m, o[i])
  }

  /** Names of `m` whose current generation is in `o`. */
  ghost function Named<D, M>(m: map<string, Stored<D, M>>, o: seq<OrderPair>): set<string> {
    set k | k in m && (k, m[k].generation) in o
  }

  /** Listed names are current names, each once. */
  lemma {:induction false} ContentsNames<D, M>(m: map<string, Stored<D, M>>, o: seq<OrderPair>)
    requires Increasing(o)
    ensures DistinctNames(Contents(m, o))
    ensures forall i :: 0 <= i < |Contents(m, o)| ==>
              var e := Contents(m, o)[i]; e.name in m && (e.name, m[e.name].generation) in o && e.file == m[e.name].file
  {
    if o != [] {
      var init, last := o[..|o| - 1], o[|o| - 1];
      ContentsNames(m, init);
      var xs := Contents(m, init);
      if Live(m, last) {
        assert last !in init;
        assert forall i :: 0 <= i < |xs| ==> xs[i].name != last.0;
      }
    }
  }

  lemma {:induction false} ContentsSize<D, M>(m: map<string, Stored<D, M>>, o: seq<OrderPair>)
    requires Increasing(o)
    ensures |Contents(m, o)| == |Named(m, o)| <= |o|
    ensures AllLive(m, o) ==> |Contents(m, o)| == |o|
  {
    if o != [] {
      var init, last := o[..|o| - 1], o[|o| - 1];
      ContentsSize(m, init);
      NamedStep(m, o);
    }
  }

  lemma NamedStep<D, M>(m: map<string, Stored<D, M>>, o: seq<OrderPair>)
    requires Increasing(o) && o != []
    ensures var init, last := o[..|o| - 1], o[|o| - 1];
            Named(m, o) == if Live(m, last) then Named(m, init) + {last.0} else Named(m, init)
    ensures Live(m, o[|o| - 1]) ==> o[|o| - 1].0 !in Named(m, o[..|o| - 1])
  {
    var init, last := o[..|o| - 1], o[|o| - 1];
    assert o == init + [last];
    assert last !in init;
  }

  /** When every stored name is in the deque, list and map have the same size. */
  lemma ContentsCover<D, M>(m: map<string, Stored<D, M>>, o: seq<OrderPair>)
    requires Increasing(o) && forall k :: k in m ==> (k, m[k].generation) in o
    ensures |Contents(m, o)| == |m|
    ensures AllLive(m, o) ==> |o| == |m|
  {
    ContentsSize(m, o);
    assert Named(m, o) == m.Keys;
  }

  lemma {:induction false} ContentsAppend<D, M>(m: map<string, Stored<D, M>>, o: seq<OrderPair>, p: OrderPair)
    ensures Contents(m, o + [p]) == Contents(m, o) + if Live(m, p) then [Entry(p.0, m[p.0].file)] else []
  {
    assert (o + [p])[..|o|] == o;
  }

  /** The first pair, if live, is the oldest entry; removing its name leaves the rest. */
  lemma {:induction false} ContentsFront<D, M>(m: map<string, Stored<D, M>>, o: seq<OrderPair>)
    requires o != [] && Increasing(o)
    ensures !Live(m, o[0]) ==> Contents(m, o) == Contents(m, o[1..])
    ensures Live(m, o[0]) ==> Contents(m, o) == [Entry(o[0].0, m[o[0].0].file)] + Contents(m - {o[0].0}, o[1..])
  {
    var init, last := o[..|o| - 1], o[|o| - 1];
    if |o| == 1 {
      assert Contents(m, init) == [];
      assert o[1..] == [];
    } else {
      ContentsFront(m, init);
      assert o[1..][..|o| - 2] == init[1..];
      assert init[0] == o[0];
    }
  }

  /** Deleting names on both sides. */
  lemma {:induction false} ContentsWithout<D, M>(m: map<string, Stored<D, M>>, m': map<string, Stored<D, M>>, o: seq<OrderPair>,
                                now: int, ttl: int)
    requires m' == map k | k in m && !Expired(m[k].file, now, ttl) :: m[k]
    ensures Contents(m', o) == DropExpired(Contents(m, o), now, ttl)
  {
    if o != [] {
      ContentsWithout(m, m', o[..|o| - 1], now, ttl);
      var rest := Contents(m, o[..|o| - 1]);
      if Live(m, o[|o| - 1]) {
        assert Contents(m, o)[..|rest|] == rest;
      }
    }
  }

  /** Storing a name under a new generation makes its older pairs stale. */
  lemma {:induction false} ContentsReplaced<D, M>(m: map<string, Stored<D, M>>, o: seq<OrderPair>, name: string, s: Stored<D, M>)
    requires forall i :: 0 <= i < |o| ==> o[i].1 < s.generation
    ensures Contents(m[name := s], o) == RemoveName(Contents(m, o), name)
  {
    if o != [] {
      ContentsReplaced(m, o[..|o| - 1], name, s);
      var rest := Contents(m, o[..|o| - 1]);
      if Live(m, o[|o| - 1]) {
        assert Contents(m, o)[..|rest|] == rest;
      }
    }
  }

  lemma {:induction false} LookupContents<D, M>(m: map<string, Stored<D, M>>, o: seq<OrderPair>, name: string)
    ensures Lookup(Contents(m, o), name) ==
            if name in m && (name, m[name].generation) in o then Some(m[name].file) else None
  {
    if o != [] {
      LookupContents(m, o[..|o| - 1], name);
      var rest, last := Contents(m, o[..|o| - 1]), o[|o| - 1];
      if Live(m, last) {
        assert Contents(m, o)[..|rest|] == rest;
      }
      assert (name, if name in m then m[name].generation else 0) in o <==>
             (name, if name in m then m[name].generation else 0) in o[..|o| - 1] || last == (name, if name in m then m[name].generation else 0);
    }
  }

  /** Pairs kept by a retain over `o`. */
  function Retained<D, M>(m: map<string, Stored<D, M>>, o: seq<OrderPair>): seq<OrderPair> {
    if o == [] then []
    else
      var rest, last := Retained(m, o[..|o| - 1]), o[|o| - 1];
      if Live(m, last) then rest + [last] else rest
  }

  lemma {:induction false} RetainedMembers<D, M>(m: map<string, Stored<D, M>>, o: seq<OrderPair>)
    ensures |Retained(m, o)| <= |o|
    ensures forall p :: p in Retained(m, o) <==> p in o && Live(m, p)
  {
    if o != [] {
      var init, last := o[..|o| - 1], o[|o| - 1];
      RetainedMembers(m, init);
      assert o == init + [last];
    }
  }

  lemma {:induction false} RetainedInOrder<D, M>(m: map<string, Stored<D, M>>, o: seq<OrderPair>)
    requires Increasing(o)
    ensures Contents(m, Retained(m, o)) == Contents(m, o) && Increasing(Retained(m, o))
  {
    if o != [] {
      var init, last := o[..|o| - 1], o[|o| - 1];
      RetainedInOrder(m, init);
      RetainedMembers(m, init);
      ContentsAppend(m, Retained(m, init), last);
      var kept := Retained(m, init);
      forall i | 0 <= i < |kept| ensures kept[i].1 < last.1 {
        assert kept[i] in init;
      }
    }
  }

  lemma RetainedFacts<D, M>(m: map<string, Stored<D, M>>, o: seq<OrderPair>)
    requires Increasing(o)
    ensures Contents(m, Retained(m, o)) == Contents(m, o)
    ensures AllLive(m, Retained(m, o)) && Increasing(Retained(m, o)) && |Retained(m, o)| <= |o|
    ensures forall p :: p in Retained(m, o) <==> p in o && Live(m, p)
    ensures forall bound :: GensBelow(o, bound) ==> GensBelow(Retained(m, o), bound)
  {
    RetainedInOrder(m, o);
    RetainedMembers(m, o);
    var kept := Retained(m, o);
    forall i | 0 <= i < |kept| ensures Live(m, kept[i]) && exists j :: 0 <= j < |o| && kept[i] == o[j] {
      assert kept[i] in kept;
    }
  }

  lemma PushPaired<D, M>(m: map<string, Stored<D, M>>, o: seq<OrderPair>, name: string, s: Stored<D, M>)
    requires Paired(m, o) && GensBelow(o, s.generation)
    ensures var o', m' := o + [(name, s.generation)], m[name := s];
            Paired(m', o') && GensBelow(o', s.generation + 1)
  {
    var o', m' := o + [(name, s.generation)], m[name := s];
    assert o'[|o|] == (name, s.generation);
    forall k | k in m' ensures (k, m'[k].generation) in o' {
      if k != name {
        assert (k, m[k].generation) in o;
      }
    }
  }

  /** What pushing a pair of a new generation does to a deque without stale pairs. */
  lemma PushFacts<D, M>(m: map<string, Stored<D, M>>, o: seq<OrderPair>, name: string, s: Stored<D, M>)
    requires Paired(m, o) && |o| == |m|
    requires GensBelow(o, s.generation)
    ensures var o', m' := o + [(name, s.generation)], m[name := s];
            && Paired(m', o') && |o'| <= |m'| + 1 && GensBelow(o', s.generation + 1)
            && Contents(m', o') == RemoveName(Contents(m, o), name) + [Entry(name, s.file)]
  {
    var m' := m[name := s];
    PushPaired(m, o, name, s);
    ContentsReplaced(m, o, name, s);
    ContentsAppend(m', o, (name, s.generation));
    assert m.Keys <= m'.Keys;
    SubsetSize(m.Keys, m'.Keys);
  }

  lemma SubsetSize(a: set<string>, b: set<string>)
    requires a <= b
    ensures |a| <= |b|
  {
    assert b == a + (b - a);
  }

  /** What popping the oldest pair does to the map's coverage and size. */
  lemma PopFrontFacts<D, M>(m: map<string, Stored<D, M>>, o: seq<OrderPair>)
    requires o != [] && Increasing(o) && forall k :: k in m ==> (k, m[k].generation) in o
    ensures var m' := if Live(m, o[0]) then m - {o[0].0} else m;
            && (forall k :: k in m' ==> (k, m'[k].generation) in o[1..])
            && |m'| == (if Live(m, o[0]) then |m| - 1 else |m|)
  {
    assert o == [o[0]] + o[1..];
    if Live(m, o[0]) {
      var m' := m - {o[0].0};
      assert m.Keys == m'.Keys + {o[0].0};
    }
  }

  /** A map without its expired files, and the deque restricted to it. */
  lemma EvictionResult<D, M>(m: map<string, Stored<D, M>>, target: map<string, Stored<D, M>>, o: seq<OrderPair>, now: int, ttl: int)
    requires Increasing(o) && forall k :: k in m ==> (k, m[k].generation) in o
    requires target == map k | k in m && !Expired(m[k].file, now, ttl) :: m[k]
    ensures var kept := Retained(target, o);
            && Increasing(kept) && AllLive(target, kept) && |kept| == |target| <= |m|
            && (forall bound :: GensBelow(o, bound) ==> GensBelow(kept, bound))
            && (forall k :: k in target ==> (k, target[k].generation) in kept)
            && Contents(target, kept) == DropExpired(Contents(m, o), now, ttl)
  {
    RetainedFacts(target, o);
    ContentsWithout(m, target, o, now, ttl);
    ContentsCover(target, Retained(target, o));
    ContentsCover(m, o);
    DropMembers(Contents(m, o), now, ttl);
  }

  /** The retain of `EvictExpired` after `i` pairs: expired names met so far are gone from `cur`. */
  ghost predicate Evicting<D, M>(m: map<string, Stored<D, M>>, target: map<string, Stored<D, M>>, o: seq<OrderPair>, i: nat,
                                 cur: map<string, Stored<D, M>>, kept: seq<OrderPair>)
    requires i <= |o|
  {
    EvictedMap(m, target, o, i, cur) && kept == Retained(target, o[..i])
  }

  ghost predicate EvictedMap<D, M>(m: map<string, Stored<D, M>>, target: map<string, Stored<D, M>>, o: seq<OrderPair>, i: nat,
                                   cur: map<string, Stored<D, M>>)
    requires i <= |o|
  {
    && (forall k :: k in cur ==> k in m && cur[k] == m[k])
    && (forall k :: k in m ==> (k in cur <==> k in target || (k, m[k].generation) !in o[..i]))
  }

  lemma RetainedNext<D, M>(m: map<string, Stored<D, M>>, o: seq<OrderPair>, i: nat)
    requires i < |o|
    ensures Retained(m, o[..i + 1]) == Retained(m, o[..i]) + if Live(m, o[i]) then [o[i]] else []
  {
    assert o[..i + 1][..i] == o[..i];
  }

  /** The pair met next stays exactly if its file is current and not expired. */
  lemma EvictLive<D, M>(m: map<string, Stored<D, M>>, target: map<string, Stored<D, M>>, o: seq<OrderPair>, i: nat,
                        cur: map<string, Stored<D, M>>, now: int, ttl: int)
    requires i < |o| && Increasing(o) && EvictedMap(m, target, o, i, cur)
    requires target == map k | k in m && !Expired(m[k].file, now, ttl) :: m[k]
    ensures Live(target, o[i]) <==> Live(cur, o[i]) && !Expired(cur[o[i].0].file, now, ttl)
  {
    assert o[i] !in o[..i];
  }

  lemma EvictMap<D, M>(m: map<string, Stored<D, M>>, target: map<string, Stored<D, M>>, o: seq<OrderPair>, i: nat,
                       cur: map<string, Stored<D, M>>, now: int, ttl: int)
    requires i < |o| && Increasing(o) && EvictedMap(m, target, o, i, cur)
    requires target == map k | k in m && !Expired(m[k].file, now, ttl) :: m[k]
    ensures EvictedMap(m, target, o, i + 1, if Live(cur, o[i]) && Expired(cur[o[i].0].file, now, ttl) then cur - {o[i].0} else cur)
  {
    assert o[..i + 1] == o[..i] + [o[i]];
    assert o[i] !in o[..i];
  }

  lemma EvictStep<D, M>(m: map<string, Stored<D, M>>, target: map<string, Stored<D, M>>, o: seq<OrderPair>, i: nat,
                        cur: map<string, Stored<D, M>>, kept: seq<OrderPair>, now: int, ttl: int)
    requires i < |o| && Increasing(o) && Evicting(m, target, o, i, cur, kept)
    requires target == map k | k in m && !Expired(m[k].file, now, ttl) :: m[k]
    ensures if !Live(cur, o[i]) then Evicting(m, target, o, i + 1, cur, kept)
            else if Expired(cur[o[i].0].file, now, ttl) then Evicting(m, target, o, i + 1, cur - {o[i].0}, kept)
            else Evicting(m, target, o, i + 1, cur, kept + [o[i]])
  {
    EvictLive(m, target, o, i, cur, now, ttl);
    EvictMap(m, target, o, i, cur, now, ttl);
    RetainedNext(target, o, i);
  }

  lemma EvictingDone<D, M>(m: map<string, Stored<D, M>>, target: map<string, Stored<D, M>>, o: seq<OrderPair>,
                           cur: map<string, Stored<D, M>>, kept: seq<OrderPair>)
    requires Evicting(m, target, o, |o|, cur, kept)
    requires forall k :: k in m ==> (k, m[k].generation) in o
    requires forall k :: k in target ==> k in m && target[k] == m[k]
    ensures cur == target && kept == Retained(target, o)
  {
    assert o[..|o|] == o;
  }

  // ---------------------------------------------------------------- the loops over map and deque

  /** Between two statements of the store: generations increase, and every stored name has its pair. */
  ghost predicate Paired<D, M>(m: map<string, Stored<D, M>>, o: seq<OrderPair>) {
    Increasing(o) && forall k :: k in m ==> (k, m[k].generation) in o
  }

  /** The retain of `evict_expired`, which also removes expired files from the map. */
  method RetainUnexpired<D, M>(m: map<string, Stored<D, M>>, o: seq<OrderPair>, now: int, ttl: int)
    returns (m': map<string, Stored<D, M>>, o': seq<OrderPair>)
    requires Paired(m, o)
    ensures Paired(m', o') && AllLive(m', o') && |o'| == |m'| <= |m|
    ensures forall bound :: GensBelow(o, bound) ==> GensBelow(o', bound)
    ensures Contents(m', o') == DropExpired(Contents(m, o), now, ttl)
  {
    ghost var target := map k | k in m && !Expired(m[k].file, now, ttl) :: m[k];
    m', o' := m, [];
    for i := 0 to |o|
      invariant Evicting(m, target, o, i, m', o')
    {
      EvictStep(m, target, o, i, m', o', now, ttl);
      var p := o[i];
      if p.0 in m' && m'[p.0].generation == p.1 {
        if Expired(m'[p.0].file, now, ttl) {
          m' := m' - {p.0};
        } else {
          o' := o' + [p];
        }
      }
    }
    EvictingDone(m, target, o, m', o');
    EvictionResult(m, target, o, now, ttl);
  }

  /** The retain of `compact_stale_order_entries`. */
  method RetainLive<D, M>(m: map<string, Stored<D, M>>, o: seq<OrderPair>) returns (o': seq<OrderPair>)
    ensures o' == Retained(m, o)
  {
    o' := [];
    for i := 0 to |o|
      invariant o' == Retained(m, o[..i])
    {
      RetainedNext(m, o, i);
      if o[i].0 in m && m[o[i].0].generation == o[i].1 {
        o' := o' + [o[i]];
      }
    }
    assert o[..|o|] == o;
  }

  /** The capacity loop of `insert_processed`: pops the oldest pairs until the map fits.  The deque
      never runs empty first. */
  method PopUntilFits<D, M>(m: map<string, Stored<D, M>>, o: seq<OrderPair>, n: nat)
    returns (m': map<string, Stored<D, M>>, o': seq<OrderPair>)
    requires Paired(m, o) && |o| <= |m| + 1
    ensures Paired(m', o') && |m'| <= n && |o'| <= |m'| + 1
    ensures forall bound :: GensBelow(o, bound) ==> GensBelow(o', bound)
    ensures Contents(m', o') == Newest(Contents(m, o), n)
  {
    m', o' := m, o;
    ContentsCover(m, o);
    while |m'| > n
      invariant Fitting(m, o, n, m', o')
      decreases |o'|
    {
      PopStep(m, o, n, m', o');
      if |o'| == 0 {
        assert false;
        break;
      }
      var oldest := o'[0];
      o' := o'[1..];
      if oldest.0 in m' && m'[oldest.0].generation == oldest.1 {
        m' := m' - {oldest.0};
      }
    }
  }

  /** The loop has popped some of the oldest pairs, and the files they stood for. */
  ghost predicate Fitting<D, M>(m: map<string, Stored<D, M>>, o: seq<OrderPair>, n: nat, m': map<string, Stored<D, M>>, o': seq<OrderPair>) {
    FitsDeque(o, m', o') && FitsList(Contents(m, o), n, m', o')
  }

  ghost predicate FitsDeque<D, M>(o: seq<OrderPair>, m': map<string, Stored<D, M>>, o': seq<OrderPair>) {
    && Paired(m', o') && |o'| <= |m'| + 1
    && (forall bound :: GensBelow(o, bound) ==> GensBelow(o', bound))
  }

  ghost predicate FitsList<D, M>(xs: seq<Entry<D, M>>, n: nat, m': map<string, Stored<D, M>>, o': seq<OrderPair>) {
    && |m'| <= |xs| && Contents(m', o') == Newest(xs, |m'|)
    && (n <= |m'| || Contents(m', o') == xs)
  }

  function AfterPop<D, M>(m: map<string, Stored<D, M>>, o: seq<OrderPair>): map<string, Stored<D, M>>
    requires o != []
  {
    if Live(m, o[0]) then m - {o[0].0} else m
  }

  lemma PopKeepsDeque<D, M>(o: seq<OrderPair>, m': map<string, Stored<D, M>>, o': seq<OrderPair>)
    requires o' != [] && FitsDeque(o, m', o')
    ensures FitsDeque(o, AfterPop(m', o'), o'[1..])
    ensures |AfterPop(m', o')| == if Live(m', o'[0]) then |m'| - 1 else |m'|
  {
    PopFrontFacts(m', o');
  }

  lemma PopKeepsList<D, M>(xs: seq<Entry<D, M>>, n: nat, m': map<string, Stored<D, M>>, o': seq<OrderPair>)
    requires o' != [] && Increasing(o') && FitsList(xs, n, m', o') && |m'| > n
    requires |AfterPop(m', o')| == if Live(m', o'[0]) then |m'| - 1 else |m'|
    ensures FitsList(xs, n, AfterPop(m', o'), o'[1..])
  {
    PopContents(m', o');
    NewestTail(xs, |m'|);
  }

  lemma PopStep<D, M>(m: map<string, Stored<D, M>>, o: seq<OrderPair>, n: nat, m': map<string, Stored<D, M>>, o': seq<OrderPair>)
    requires Fitting(m, o, n, m', o') && |m'| > n
    ensures o' != []
    ensures Fitting(m, o, n, AfterPop(m', o'), o'[1..])
  {
    ContentsCover(m', o');
    PopKeepsDeque(o, m', o');
    PopKeepsList(Contents(m, o), n, m', o');
  }

  lemma NewestTail<D, M>(xs: seq<Entry<D, M>>, k: nat)
    requires 0 < k <= |xs|
    ensures Newest(xs, k) != [] && Newest(xs, k)[1..] == Newest(xs, k - 1)
  {
  }

  lemma PopContents<D, M>(m: map<string, Stored<D, M>>, o: seq<OrderPair>)
    requires o != [] && Increasing(o)
    ensures Live(m, o[0]) ==> Contents(m, o) != [] && Contents(m - {o[0].0}, o[1..]) == Contents(m, o)[1..]
    ensures !Live(m, o[0]) ==> Contents(m, o[1..]) == Contents(m, o)
    ensures Increasing(o[1..])
  {
    ContentsFront(m, o);
  }

  /** The reversed, filtered walk of `list`. */
  method ListNewestFirst<D, M>(m: map<string, Stored<D, M>>, o: seq<OrderPair>) returns (r: seq<M>)
    ensures r == Listing(Contents(m, o))
  {
    r := [];
    var i := |o|;
    ListingEnds(m, o);
    while i > 0
      invariant 0 <= i <= |o|
      invariant ListedFrom(m, o, i, r)
    {
      i := i - 1;
      ListingMoves(m, o, i, r);
      if o[i].0 in m && m[o[i].0].generation == o[i].1 {
        r := r + [m[o[i].0].file.metadata];
      }
    }
  }

  /** `r` lists the files of the pairs from `i` on, newest first. */
  ghost predicate ListedFrom<D, M>(m: map<string, Stored<D, M>>, o: seq<OrderPair>, i: nat, r: seq<M>)
    requires i <= |o|
  {
    r + Listing(Contents(m, o[..i])) == Listing(Contents(m, o))
  }

  lemma ListingEnds<D, M>(m: map<string, Stored<D, M>>, o: seq<OrderPair>)
    ensures ListedFrom(m, o, |o|, []) && forall r :: ListedFrom(m, o, 0, r) ==> r == Listing(Contents(m, o))
  {
    assert o[..|o|] == o && o[..0] == [];
    assert Listing(Contents(m, o[..0])) == [];
  }

  lemma ListingMoves<D, M>(m: map<string, Stored<D, M>>, o: seq<OrderPair>, i: nat, r: seq<M>)
    requires i < |o| && ListedFrom(m, o, i + 1, r)
    ensures ListedFrom(m, o, i, r + if Live(m, o[i]) then [m[o[i].0].file.metadata] else [])
  {
    ListingStep(m, o, i);
    var one, rest := if Live(m, o[i]) then [m[o[i].0].file.metadata] else [], Listing(Contents(m, o[..i]));
    assert r + (one + rest) == (r + one) + rest;
  }

  lemma ListingStep<D, M>(m: map<string, Stored<D, M>>, o: seq<OrderPair>, i: nat)
    requires i < |o|
    ensures Listing(Contents(m, o[..i + 1])) ==
            (if Live(m, o[i]) then [m[o[i].0].file.metadata] else []) + Listing(Contents(m, o[..i]))
  {
    assert o[..i + 1] == o[..i] + [o[i]];
    ContentsAppend(m, o[..i], o[i]);
    if Live(m, o[i]) {
      ListingAppend(Contents(m, o[..i]), Entry(o[i].0, m[o[i].0].file));
    }
  }

  lemma ListingAppend<D, M>(xs: seq<Entry<D, M>>, e: Entry<D, M>)
    ensures Listing(xs + [e]) == [e.file.metadata] + Listing(xs)
  {
  }

  // ---------------------------------------------------------------- the store

  class Store<D, M> {
    var byName: map<string, Stored<D, M>>
    var order: seq<OrderPair>
    var nextGeneration: nat
    const maxEntries: nat
    const ttl: int

    /** What holds between public calls: at most one stale pair. */
    ghost predicate Valid()
      reads this
    {
      && Paired(byName, order)
      && GensBelow(order, nextGeneration)
      && 1 <= maxEntries && SECOND <= ttl
      && |byName| <= maxEntries && |order| <= |byName| + 1
    }

    ghost function View(): seq<Entry<D, M>>
      reads this
    {
      Contents(byName, order)
    }

    constructor (requestedEntries: nat, requestedTtl: int)
      ensures Valid() && View() == []
      ensures maxEntries == (if requestedEntries < 1 then 1 else requestedEntries)
      ensures ttl == if requestedTtl < 1_000_000_000 then 1_000_000_000 else requestedTtl
    {
      byName, order, nextGeneration := map[], [], 1;
      maxEntries := if requestedEntries < 1 then 1 else requestedEntries;
      ttl := if requestedTtl < SECOND then SECOND else requestedTtl;
    }

    /** The abstract list holds each stored name once, and nothing else. */
    lemma EachNameOnce()
      requires Valid()
      ensures DistinctNames(View()) && |View()| == |byName| <= maxEntries
      ensures forall i :: 0 <= i < |View()| ==> View()[i].name in byName && View()[i].file == byName[View()[i].name].file
    {
      ContentsNames(byName, order);
      ContentsCover(byName, order);
    }

    method EvictExpired(now: int)
      requires Valid()
      modifies this`byName, this`order
      ensures Valid() && AllLive(byName, order) && |order| == |byName|
      ensures View() == DropExpired(old(View()), now, ttl)
    {
      byName, order := RetainUnexpired(byName, order, now, ttl);
    }

    /** Drops stale pairs, but only once the deque is much longer than the map may become. */
    method CompactStaleOrderEntries()
      requires Paired(byName, order)
      modifies this`order
      ensures Paired(byName, order) && View() == old(View()) && |order| <= |old(order)|
      ensures forall bound :: GensBelow(old(order), bound) ==> GensBelow(order, bound)
      ensures order == if |old(order)| <= 4 * maxEntries || |old(order)| <= 16 then old(order) else Retained(byName, old(order))
    {
      if |order| <= 4 * maxEntries || |order| <= 16 {
        return;
      }
      RetainedFacts(byName, order);
      order := RetainLive(byName, order);
    }

    /** `insert_processed`, with the clock reading as a parameter. */
    method InsertProcessed(name: string, file: File<D, M>, now: int) returns (metadata: M)
      requires Valid()
      modifies this
      ensures Valid() && metadata == file.metadata
      ensures View() == Inserted(old(View()), Entry(name, file), now, ttl, maxEntries)
      ensures |order| <= |byName| + 1
    {
      EvictExpired(now);
      var stored := Stored(nextGeneration, file);
      PushFacts(byName, order, name, stored);
      nextGeneration := nextGeneration + 1;
      byName, order := PopUntilFits(byName[name := stored], order + [(name, stored.generation)], maxEntries);
      assert |order| <= 4 * maxEntries;
      CompactStaleOrderEntries();
      metadata := file.metadata;
    }

    method List(now: int) returns (r: seq<M>)
      requires Valid()
      modifies this
      ensures Valid() && View() == DropExpired(old(View()), now, ttl)
      ensures r == Listing(View()) && DistinctNames(View())
    {
      EvictExpired(now);
      EachNameOnce();
      r := ListNewestFirst(byName, order);
    }

    method Get(name: string, now: int) returns (r: Option<File<D, M>>)
      requires Valid()
      modifies this
      ensures Valid() && View() == DropExpired(old(View()), now, ttl)
      ensures r == Lookup(View(), name)
    {
      EvictExpired(now);
      LookupContents(byName, order, name);
      r := if name in byName then Some(byName[name].file) else None;
    }

    method Len(now: int) returns (r: nat)
      requires Valid()
      modifies this
      ensures Valid() && View() == DropExpired(old(View()), now, ttl)
      ensures r == |View()|
    {
      EvictExpired(now);
      ContentsCover(byName, order);
      r := |byName|;
    }
  }

  // ---------------------------------------------------------------- whole histories of calls

  datatype Op<D, M> = Insert(name: string, file: File<D, M>, now: int) | List(now: int) | Get(name: string, now: int) | Len(now: int)

  datatype Answer<D, M> = Metadata(value: M) | Listed(values: seq<M>) | Found(file: Option<File<D, M>>) | Length(n: nat)

  function Next<D, M>(xs: seq<Entry<D, M>>, op: Op<D, M>, ttl: int, n: nat): seq<Entry<D, M>> {
    if op.Insert? then Inserted(xs, Entry(op.name, op.file), op.now, ttl, n) else DropExpired(xs, op.now, ttl)
  }

  function AnswerTo<D, M>(xs: seq<Entry<D, M>>, op: Op<D, M>): Answer<D, M> {
    match op
    case Insert(_, file, _) => Metadata(file.metadata)
    case List(_) => Listed(Listing(xs))
    case Get(name, _) => Found(Lookup(xs, name))
    case Len(_) => Length(|xs|)
  }

  /** The plain list after a history of calls. */
  function ListAfter<D, M>(ops: seq<Op<D, M>>, ttl: int, n: nat): seq<Entry<D, M>> {
    if ops == [] then [] else Next(ListAfter(ops[..|ops| - 1], ttl, n), ops[|ops| - 1], ttl, n)
  }

  method Perform<D, M>(store: Store<D, M>, op: Op<D, M>) returns (a: Answer<D, M>)
    requires store.Valid()
    modifies store
    ensures store.Valid()
    ensures store.View() == Next(old(store.View()), op, store.ttl, store.maxEntries)
    ensures a == AnswerTo(store.View(), op)
  {
    match op
    case Insert(name, file, now) =>
      var metadata := store.InsertProcessed(name, file, now);
      a := Metadata(metadata);
    case List(now) =>
      var values := store.List(now);
      a := Listed(values);
    case Get(name, now) =>
      var file := store.Get(name, now);
      a := Found(file);
    case Len(now) =>
      var n := store.Len(now);
      a := Length(n);
  }

  /** The plain list's answers to a history of calls. */
  function Answers<D, M>(ops: seq<Op<D, M>>, ttl: int, n: nat): seq<Answer<D, M>> {
    if ops == [] then []
    else Answers(ops[..|ops| - 1], ttl, n) + [AnswerTo(ListAfter(ops, ttl, n), ops[|ops| - 1])]
  }

  /** Every answer of a fresh store to any sequence of calls is the plain list's. */
  method Replay<D, M>(ops: seq<Op<D, M>>, requestedEntries: nat, requestedTtl: int) returns (answers: seq<Answer<D, M>>)
    ensures answers == Answers(ops, if requestedTtl < 1_000_000_000 then 1_000_000_000 else requestedTtl, if requestedEntries < 1 then 1 else requestedEntries)
  {
    var store := new Store<D, M>(requestedEntries, requestedTtl);
    ghost var ttl, n := store.ttl, store.maxEntries;
    answers := [];
    for i := 0 to |ops|
      invariant store.Valid() && fresh(store)
      invariant store.View() == ListAfter(ops[..i], ttl, n)
      invariant answers == Answers(ops[..i], ttl, n)
    {
      assert ops[..i + 1][..i] == ops[..i];
      var a := Perform(store, ops[i]);
      answers := answers + [a];
    }
    assert ops[..|ops|] == ops;
  }

  lemma {:induction false} DropMembers<D, M>(xs: seq<Entry<D, M>>, now: int, ttl: int)
    ensures |DropExpired(xs, now, ttl)| <= |xs|
    ensures forall e :: e in DropExpired(xs, now, ttl) ==> e in xs && !Expired(e.file, now, ttl)
  {
    if xs != [] {
      DropMembers(xs[..|xs| - 1], now, ttl);
    }
  }

  lemma {:induction false} DropDistinct<D, M>(xs: seq<Entry<D, M>>, now: int, ttl: int)
    requires DistinctNames(xs)
    ensures DistinctNames(DropExpired(xs, now, ttl))
  {
    if xs != [] {
      var init, last := xs[..|xs| - 1], xs[|xs| - 1];
      DropDistinct(init, now, ttl);
      DropMembers(init, now, ttl);
      var rest := DropExpired(init, now, ttl);
      forall i | 0 <= i < |rest| ensures rest[i].name != last.name {
        assert rest[i] in init;
      }
    }
  }

  lemma {:induction false} RemoveMembers<D, M>(xs: seq<Entry<D, M>>, name: string)
    ensures |RemoveName(xs, name)| <= |xs|
    ensures forall e :: e in RemoveName(xs, name) ==> e in xs && e.name != name
  {
    if xs != [] {
      RemoveMembers(xs[..|xs| - 1], name);
      assert xs == xs[..|xs| - 1] + [xs[|xs| - 1]];
    }
  }

  lemma {:induction false} RemoveDistinct<D, M>(xs: seq<Entry<D, M>>, name: string)
    requires DistinctNames(xs)
    ensures DistinctNames(RemoveName(xs, name))
  {
    if xs != [] {
      var init, last := xs[..|xs| - 1], xs[|xs| - 1];
      RemoveDistinct(init, name);
      RemoveMembers(init, name);
      var rest := RemoveName(init, name);
      forall i | 0 <= i < |rest| ensures rest[i].name != last.name {
        assert rest[i] in init;
      }
    }
  }

  lemma InsertDistinct<D, M>(xs: seq<Entry<D, M>>, e: Entry<D, M>)
    requires DistinctNames(xs)
    ensures DistinctNames(RemoveName(xs, e.name) + [e])
  {
    RemoveDistinct(xs, e.name);
    RemoveMembers(xs, e.name);
    var rest := RemoveName(xs, e.name);
    forall i | 0 <= i < |rest| ensures rest[i].name != e.name {
      assert rest[i] in rest;
    }
  }

  /** After any history the list holds each name once and at most `n` entries; right after an insert
      the newest of them is the inserted file. */
  lemma {:induction false} ListIsBoundedAndDistinct<D, M>(ops: seq<Op<D, M>>, ttl: int, n: nat)
    requires 1 <= n
    ensures DistinctNames(ListAfter(ops, ttl, n)) && |ListAfter(ops, ttl, n)| <= n
    ensures ops != [] && ops[|ops| - 1].Insert? ==>
              var xs := ListAfter(ops, ttl, n);
              xs != [] && xs[|xs| - 1] == Entry(ops[|ops| - 1].name, ops[|ops| - 1].file)
  {
    if ops != [] {
      var op, xs := ops[|ops| - 1], ListAfter(ops[..|ops| - 1], ttl, n);
      ListIsBoundedAndDistinct(ops[..|ops| - 1], ttl, n);
      DropDistinct(xs, op.now, ttl);
      DropMembers(xs, op.now, ttl);
      if op.Insert? {
        InsertDistinct(DropExpired(xs, op.now, ttl), Entry(op.name, op.file));
      }
    }
  }

  // ---------------------------------------------------------------- found while fresh, gone once stale

  lemma {:induction false} DropConcat<D, M>(xs: seq<Entry<D, M>>, ys: seq<Entry<D, M>>, now: int, ttl: int)
    ensures DropExpired(xs + ys, now, ttl) == DropExpired(xs, now, ttl) + DropExpired(ys, now, ttl)
  {
    if ys == [] {
      assert xs + ys == xs;
    } else {
      var n := |ys| - 1;
      assert (xs + ys)[..|xs| + n] == xs + ys[..n];
      DropConcat(xs, ys[..n], now, ttl);
    }
  }

  lemma {:induction false} RemoveConcat<D, M>(xs: seq<Entry<D, M>>, ys: seq<Entry<D, M>>, name: string)
    ensures RemoveName(xs + ys, name) == RemoveName(xs, name) + RemoveName(ys, name)
  {
    if ys == [] {
      assert xs + ys == xs;
    } else {
      var n := |ys| - 1;
      assert (xs + ys)[..|xs| + n] == xs + ys[..n];
      RemoveConcat(xs, ys[..n], name);
    }
  }

  /** The entry is in the list with at most `later` entries after it. */
  ghost predicate Present<D(!new), M(!new)>(xs: seq<Entry<D, M>>, e: Entry<D, M>, later: nat) {
    exists before, after :: xs == before + [e] + after && |after| <= later
  }

  lemma DropOne<D, M>(e: Entry<D, M>, now: int, ttl: int)
    ensures DropExpired([e], now, ttl) == if Expired(e.file, now, ttl) then [] else [e]
  {
    assert [e][..0] == [];
  }

  lemma RemoveOne<D, M>(e: Entry<D, M>, name: string)
    ensures RemoveName([e], name) == if e.name == name then [] else [e]
  {
    assert [e][..0] == [];
  }

  lemma DropKeepsListed<D(!new), M(!new)>(xs: seq<Entry<D, M>>, e: Entry<D, M>, later: nat, now: int, ttl: int)
    requires Present(xs, e, later) && !Expired(e.file, now, ttl)
    ensures Present(DropExpired(xs, now, ttl), e, later)
  {
    var before, after :| xs == before + [e] + after && |after| <= later;
    DropConcat(before + [e], after, now, ttl);
    DropConcat(before, [e], now, ttl);
    DropOne(e, now, ttl);
    DropMembers(after, now, ttl);
  }

  lemma RemoveKeepsListed<D(!new), M(!new)>(xs: seq<Entry<D, M>>, e: Entry<D, M>, later: nat, name: string)
    requires Present(xs, e, later) && e.name != name
    ensures Present(RemoveName(xs, name), e, later)
  {
    var before, after :| xs == before + [e] + after && |after| <= later;
    RemoveConcat(before + [e], after, name);
    RemoveConcat(before, [e], name);
    RemoveOne(e, name);
    RemoveMembers(after, name);
  }

  lemma CutKeepsListed<D(!new), M(!new)>(before: seq<Entry<D, M>>, e: Entry<D, M>, after: seq<Entry<D, M>>, n: nat)
    requires |after| < n
    ensures Present(Newest(before + [e] + after, n), e, |after|)
  {
    var all := before + [e] + after;
    var cut := if |all| <= n then 0 else |all| - n;
    var kept := before[cut..];
    assert Newest(all, n) == kept + [e] + after;
  }

  lemma AppendKeepsListed<D(!new), M(!new)>(xs: seq<Entry<D, M>>, e: Entry<D, M>, later: nat, x: Entry<D, M>, n: nat)
    requires Present(xs, e, later) && later + 1 < n
    ensures Present(Newest(xs + [x], n), e, later + 1)
  {
    var before, after :| xs == before + [e] + after && |after| <= later;
    assert xs + [x] == before + [e] + (after + [x]);
    CutKeepsListed(before, e, after + [x], n);
    MoreLater(Newest(xs + [x], n), e, |after| + 1, later + 1);
  }

  lemma MoreLater<D(!new), M(!new)>(xs: seq<Entry<D, M>>, e: Entry<D, M>, a: nat, b: nat)
    requires Present(xs, e, a) && a <= b
    ensures Present(xs, e, b)
  {
  }

  lemma LastIsListed<D(!new), M(!new)>(xs: seq<Entry<D, M>>, e: Entry<D, M>)
    requires xs != [] && xs[|xs| - 1] == e
    ensures Present(xs, e, 0)
  {
    assert xs == xs[..|xs| - 1] + [e] + [];
  }

  lemma LookupListed<D(!new), M(!new)>(xs: seq<Entry<D, M>>, e: Entry<D, M>, later: nat)
    requires DistinctNames(xs) && Present(xs, e, later)
    ensures Lookup(xs, e.name) == Some(e.file)
  {
    var before, after :| xs == before + [e] + after && |after| <= later;
    LookupAt(xs, |before|);
  }

  lemma {:induction false} LookupAt<D, M>(xs: seq<Entry<D, M>>, i: nat)
    requires DistinctNames(xs) && i < |xs|
    ensures Lookup(xs, xs[i].name) == Some(xs[i].file)
  {
    if i < |xs| - 1 {
      LookupAt(xs[..|xs| - 1], i);
    }
  }

  /** No entry of that name. */
  ghost predicate Absent<D, M>(xs: seq<Entry<D, M>>, name: string) {
    forall x :: x in xs ==> x.name != name
  }

  lemma {:induction false} LookupAbsent<D, M>(xs: seq<Entry<D, M>>, name: string)
    requires Absent(xs, name)
    ensures Lookup(xs, name) == None
  {
    if xs != [] {
      LookupAbsent(xs[..|xs| - 1], name);
    }
  }

  /** How many of the calls from `i` up to `j` are inserts. */
  function Inserts<D, M>(ops: seq<Op<D, M>>, i: nat, j: nat): nat
    requires i <= j <= |ops|
  {
    if i == j then 0 else Inserts(ops, i, j - 1) + if ops[j - 1].Insert? then 1 else 0
  }

  /** Call `i` inserts, and no call after it up to `j` inserts that name again. */
  ghost predicate LastInsert<D, M>(ops: seq<Op<D, M>>, i: nat, j: nat) {
    i < j <= |ops| && ops[i].Insert? && forall k :: i < k < j && ops[k].Insert? ==> ops[k].name != ops[i].name
  }

  function Inserting<D, M>(op: Op<D, M>): Entry<D, M>
    requires op.Insert?
  {
    Entry(op.name, op.file)
  }

  lemma {:induction false} StaysListed<D(!new), M(!new)>(ops: seq<Op<D, M>>, i: nat, j: nat, ttl: int, n: nat)
    requires LastInsert(ops, i, j) && Inserts(ops, i + 1, j) < n
    requires 0 <= ttl && forall k :: i < k < j ==> ops[k].now <= ops[i].file.completedAt + ttl
    ensures Present(ListAfter(ops[..j], ttl, n), Inserting(ops[i]), Inserts(ops, i + 1, j))
    decreases j
  {
    var e := Inserting(ops[i]);
    ListStep(ops, j, ttl, n);
    if j == i + 1 {
      ListIsBoundedAndDistinct(ops[..j], ttl, n);
      LastIsListed(ListAfter(ops[..j], ttl, n), e);
    } else {
      var op, xs, later := ops[j - 1], ListAfter(ops[..j - 1], ttl, n), Inserts(ops, i + 1, j - 1);
      StaysListed(ops, i, j - 1, ttl, n);
      NextKeepsListed(xs, e, later, op, ttl, n);
    }
  }

  lemma NextKeepsListed<D(!new), M(!new)>(xs: seq<Entry<D, M>>, e: Entry<D, M>, later: nat, op: Op<D, M>, ttl: int, n: nat)
    requires Present(xs, e, later) && !Expired(e.file, op.now, ttl) && (op.Insert? ==> op.name != e.name && later + 1 < n)
    ensures Present(Next(xs, op, ttl, n), e, later + if op.Insert? then 1 else 0)
  {
    DropKeepsListed(xs, e, later, op.now, ttl);
    if op.Insert? {
      var kept := DropExpired(xs, op.now, ttl);
      RemoveKeepsListed(kept, e, later, op.name);
      AppendKeepsListed(RemoveName(kept, op.name), e, later, Inserting(op), n);
    }
  }

  /** The only entry of that name is the one inserted. */
  ghost predicate OnlyEntry<D, M>(xs: seq<Entry<D, M>>, e: Entry<D, M>) {
    forall x :: x in xs && x.name == e.name ==> x == e
  }

  lemma NewestMembers<D, M>(xs: seq<Entry<D, M>>, n: nat)
    ensures forall x :: x in Newest(xs, n) ==> x in xs
  {
  }

  lemma NextMembers<D, M>(xs: seq<Entry<D, M>>, op: Op<D, M>, ttl: int, n: nat, x: Entry<D, M>)
    requires x in Next(xs, op, ttl, n)
    ensures (x in xs && !Expired(x.file, op.now, ttl)) || (op.Insert? && x == Inserting(op))
  {
    DropMembers(xs, op.now, ttl);
    if op.Insert? {
      RemoveMembers(DropExpired(xs, op.now, ttl), op.name);
      NewestMembers(RemoveName(DropExpired(xs, op.now, ttl), op.name) + [Inserting(op)], n);
    }
  }

  lemma NextRemoves<D, M>(xs: seq<Entry<D, M>>, op: Op<D, M>, ttl: int, n: nat)
    requires op.Insert?
    ensures OnlyEntry(Next(xs, op, ttl, n), Inserting(op))
  {
    RemoveMembers(DropExpired(xs, op.now, ttl), op.name);
    NewestMembers(RemoveName(DropExpired(xs, op.now, ttl), op.name) + [Inserting(op)], n);
  }

  lemma NextKeepsOnly<D, M>(xs: seq<Entry<D, M>>, op: Op<D, M>, ttl: int, n: nat, e: Entry<D, M>)
    requires OnlyEntry(xs, e) && (op.Insert? ==> op.name != e.name)
    ensures OnlyEntry(Next(xs, op, ttl, n), e)
  {
    forall x | x in Next(xs, op, ttl, n) && x.name == e.name ensures x == e {
      NextMembers(xs, op, ttl, n, x);
    }
  }

  lemma NextKeepsAbsent<D, M>(xs: seq<Entry<D, M>>, op: Op<D, M>, ttl: int, n: nat, name: string)
    requires Absent(xs, name) && (op.Insert? ==> op.name != name)
    ensures Absent(Next(xs, op, ttl, n), name)
  {
    forall x | x in Next(xs, op, ttl, n) ensures x.name != name {
      NextMembers(xs, op, ttl, n, x);
    }
  }

  lemma NextDropsStale<D, M>(xs: seq<Entry<D, M>>, op: Op<D, M>, ttl: int, n: nat, e: Entry<D, M>)
    requires OnlyEntry(xs, e) && Expired(e.file, op.now, ttl) && (op.Insert? ==> op.name != e.name)
    ensures Absent(Next(xs, op, ttl, n), e.name)
  {
    forall x | x in Next(xs, op, ttl, n) ensures x.name != e.name {
      NextMembers(xs, op, ttl, n, x);
    }
  }

  lemma ListStep<D, M>(ops: seq<Op<D, M>>, j: nat, ttl: int, n: nat)
    requires 0 < j <= |ops|
    ensures ListAfter(ops[..j], ttl, n) == Next(ListAfter(ops[..j - 1], ttl, n), ops[j - 1], ttl, n)
  {
    assert ops[..j][..j - 1] == ops[..j - 1];
  }

  lemma {:induction false} StaysOnly<D(!new), M(!new)>(ops: seq<Op<D, M>>, i: nat, j: nat, ttl: int, n: nat)
    requires LastInsert(ops, i, j)
    ensures OnlyEntry(ListAfter(ops[..j], ttl, n), Inserting(ops[i]))
    decreases j
  {
    ListStep(ops, j, ttl, n);
    var xs := ListAfter(ops[..j - 1], ttl, n);
    if j == i + 1 {
      NextRemoves(xs, ops[i], ttl, n);
    } else {
      StaysOnly(ops, i, j - 1, ttl, n);
      NextKeepsOnly(xs, ops[j - 1], ttl, n, Inserting(ops[i]));
    }
  }

  lemma {:induction false} StaysAbsent<D(!new), M(!new)>(ops: seq<Op<D, M>>, i: nat, k: nat, j: nat, ttl: int, n: nat)
    requires LastInsert(ops, i, j) && i < k < j && ops[k].now > ops[i].file.completedAt + ttl && 0 <= ttl
    ensures Absent(ListAfter(ops[..j], ttl, n), ops[i].name)
    decreases j
  {
    ListStep(ops, j, ttl, n);
    var xs := ListAfter(ops[..j - 1], ttl, n);
    if k == j - 1 {
      StaysOnly(ops, i, k, ttl, n);
      NextDropsStale(xs, ops[k], ttl, n, Inserting(ops[i]));
    } else {
      StaysAbsent(ops, i, k, j - 1, ttl, n);
      NextKeepsAbsent(xs, ops[j - 1], ttl, n, ops[i].name);
    }
  }

  /** A look-up after any history of calls: it finds the file last inserted under the name if no clock reading
      since that insert, its own included, is later than completion plus time to live and fewer than `n` inserts
      followed, and it finds nothing once some reading is. */
  lemma GetByClock<D(!new), M(!new)>(ops: seq<Op<D, M>>, i: nat, now: int, ttl: int, n: nat)
    requires LastInsert(ops, i, |ops|) && 0 <= ttl && 1 <= n
    ensures var limit, answers := ops[i].file.completedAt + ttl, Answers(ops + [Get(ops[i].name, now)], ttl, n);
            && answers != []
            && ((forall k :: i < k < |ops| ==> ops[k].now <= limit) && now <= limit && Inserts(ops, i + 1, |ops|) < n
                ==> answers[|answers| - 1] == Found(Some(ops[i].file)))
            && ((exists k :: i < k < |ops| && ops[k].now > limit) || now > limit
                ==> answers[|answers| - 1] == Found(None))
  {
    var limit, all := ops[i].file.completedAt + ttl, ops + [Get(ops[i].name, now)];
    assert all[..|all|] == all && all[|ops|] == Get(ops[i].name, now);
    assert forall k :: 0 <= k < |ops| ==> all[k] == ops[k];
    SameInserts(ops, all, i + 1, |ops|);
    if (forall k :: i < k < |ops| ==> ops[k].now <= limit) && now <= limit && Inserts(ops, i + 1, |ops|) < n {
      StaysListed(all, i, |all|, ttl, n);
      ListIsBoundedAndDistinct(all, ttl, n);
      LookupListed(ListAfter(all, ttl, n), Inserting(ops[i]), Inserts(all, i + 1, |all|));
    }
    if k :| i < k < |all| && all[k].now > limit {
      StaysAbsent(all, i, k, |all|, ttl, n);
      LookupAbsent(ListAfter(all, ttl, n), ops[i].name);
    }
    assert now > limit ==> all[|ops|].now > limit;
  }

  lemma {:induction false} SameInserts<D, M>(ops: seq<Op<D, M>>, all: seq<Op<D, M>>, i: nat, j: nat)
    requires i <= j <= |ops| <= |all| && forall k :: 0 <= k < |ops| ==> all[k] == ops[k]
    ensures Inserts(all, i, j) == Inserts(ops, i, j)
    decreases j
  {
    if i < j {
      SameInserts(ops, all, i, j - 1);
    }
  }
}
