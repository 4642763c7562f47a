/** A bounded queue with a semaphore that loses its oldest item when full, and its histories. */
module QueueHistory {
  datatype Bounded<T> = Bounded(capacity: nat, pending: seq<T>, closed: bool, permits: nat)

  /** A full queue evicts its oldest item, any other gets a permit. */
  function Push<T>(b: Bounded<T>, x: T): Bounded<T> {
    if |b.pending| == b.capacity then b.(pending := (if b.pending == [] then [] else b.pending[1..]) + [x])
    else b.(pending := b.pending + [x], permits := b.permits + 1)
  }

  function WithoutOldest<T>(b: Bounded<T>): Bounded<T> {
    if b.pending == [] then b else b.(pending := b.pending[1..])
  }

  /** One permit taken for good, if there is one. */
  function TakePermit<T>(b: Bounded<T>): Bounded<T> {
    if b.permits == 0 then b else b.(permits := b.permits - 1)
  }

  /** Closed and empty: nothing will ever be taken again. */
  predicate Drained<T>(b: Bounded<T>) {
    b.closed && b.pending == []
  }

  /** How an item left the queue. */
  datatype Fate = Evicted | Taken

  function Items<T, F>(h: seq<(T, F)>): seq<T> {
    seq(|h|, i requires 0 <= i < |h| => h[i].0)
  }

  /** The items taken by the consumer, in order. */
  function TakenItems<T>(h: seq<(T, Fate)>): seq<T> {
    if h == [] then []
    else
      var last := h[|h| - 1];
      TakenItems(h[..|h| - 1]) + if last.1.Taken? then [last.0] else []
  }

  lemma ItemsAppend<T, F>(h: seq<(T, F)>, e: (T, F))
    ensures Items(h + [e]) == Items(h) + [e.0]
  {
  }

  lemma TakenAppend<T>(h: seq<(T, Fate)>, e: (T, Fate))
    ensures TakenItems(h + [e]) == TakenItems(h) + if e.1.Taken? then [e.0] else []
  {
    assert (h + [e])[..|h|] == h;
  }

  /** Moving the head of `pending` to `left` keeps the accepted history. */
  lemma HeadLeaves<T>(left: seq<(T, Fate)>, pending: seq<T>, rest: seq<T>, fate: Fate)
    requires pending != []
    ensures var left' := left + [(pending[0], fate)];
            && Items(left) + pending + rest == Items(left') + pending[1..] + rest
            && TakenItems(left') == TakenItems(left) + if fate.Taken? then [pending[0]] else []
  {
    var e := (pending[0], fate);
    ItemsAppend(left, e);
    TakenAppend(left, e);
    calc {
      Items(left) + pending + rest;
      { assert pending == [e.0] + pending[1..]; }
      Items(left) + ([e.0] + pending[1..]) + rest;
      (Items(left) + [e.0]) + pending[1..] + rest;
    }
  }
}
