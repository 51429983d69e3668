/**
 Throttles: the buckets that govern one flow. Shaping charges every bucket and waits for
 the slowest; policing charges all buckets or none. Buckets are shared between throttles.
 */
module Throttles {
  import opened TokenBuckets

  /** All shared buckets, by identity. */
  type World<!K> = map<K, Bucket>

  ghost predicate NoDup<K>(ids: seq<K>) {
    forall i, j :: 0 <= i < j < |ids| ==> ids[i] != ids[j]
  }

  ghost predicate Known<K>(w: World<K>, ids: seq<K>) {
    forall k :: k in ids ==> k in w
  }

  ghost predicate AllSound<K>(w: World<K>) {
    forall k :: k in w ==> Sound(w[k])
  }

  // ---------------------------------------------------------------------------
  // Shaping
  // ---------------------------------------------------------------------------

  /** Charges the buckets one after the other and keeps the longest wait. */
  ghost function ReserveAll<K>(w: World<K>, ids: seq<K>, bytes: nat, now: real): (r: (real, World<K>))
    requires Known(w, ids)
    ensures r.1.Keys == w.Keys
    decreases ids
  {
    if ids == [] then (0.0, w)
    else
      var b := Reserved(w[ids[0]], bytes, now);
      var (wait, w') := ReserveAll(w[ids[0] := b], ids[1..], bytes, now);
      (Max(Wait(b), wait), w')
  }

  /** Every bucket is charged once, and the wait is the longest one any of them asks for. */
  lemma {:induction false} ReserveAllEffect<K>(w: World<K>, ids: seq<K>, bytes: nat, now: real)
    requires Known(w, ids) && NoDup(ids)
    ensures var (wait, w') := ReserveAll(w, ids, bytes, now);
            && wait >= 0.0
            && (forall k :: k in w && k !in ids ==> w'[k] == w[k])
            && (forall k :: k in ids ==> w'[k] == Reserved(w[k], bytes, now) && wait >= Wait(w'[k]))
            && (wait == 0.0 || exists k :: k in ids && wait == Wait(w'[k]))
    decreases ids
  {
    hide Reserved, Wait;
    if ids != [] {
      var first, rest := ids[0], ids[1..];
      var b := Reserved(w[first], bytes, now);
      assert first !in rest;
      assert forall k :: k in ids <==> k == first || k in rest;
      ReserveAllEffect(w[first := b], rest, bytes, now);
      var (wait, w') := ReserveAll(w, ids, bytes, now);
      assert w'[first] == b;
    }
  }

  // ---------------------------------------------------------------------------
  // Policing
  // ---------------------------------------------------------------------------

  /** The peek half: refills and tests in the given order and stops at the first short bucket. */
  ghost function CheckAll<K>(w: World<K>, order: seq<K>, bytes: nat, now: real): (r: (bool, World<K>))
    requires Known(w, order)
    ensures r.1.Keys == w.Keys
    decreases order
  {
    if order == [] then (true, w)
    else
      var b := Refilled(w[order[0]], now);
      if b.tokens >= bytes as real then CheckAll(w[order[0] := b], order[1..], bytes, now)
      else (false, w[order[0] := b])
  }

  ghost function TakeAll<K>(w: World<K>, order: seq<K>, bytes: nat): (r: World<K>)
    requires Known(w, order)
    ensures r.Keys == w.Keys
    decreases order
  {
    if order == [] then w else TakeAll(w[order[0] := Spent(w[order[0]], bytes)], order[1..], bytes)
  }

  ghost function PoliceInOrder<K>(w: World<K>, order: seq<K>, bytes: nat, now: real): (r: (bool, World<K>))
    requires Known(w, order)
    ensures r.1.Keys == w.Keys
  {
    var (ok, w') := CheckAll(w, order, bytes, now);
    (ok, if ok then TakeAll(w', order, bytes) else w')
  }

  lemma {:induction false} CheckAllEffect<K>(w: World<K>, order: seq<K>, bytes: nat, now: real)
    requires Known(w, order) && NoDup(order)
    ensures var (ok, w') := CheckAll(w, order, bytes, now);
            && (ok <==> forall k :: k in order ==> Has(w[k], bytes, now))
            && (forall k :: k in w ==> w'[k] == w[k] || (k in order && w'[k] == Refilled(w[k], now)))
            && (ok ==> forall k :: k in order ==> w'[k] == Refilled(w[k], now))
    decreases order
  {
    hide Refilled;
    if order != [] {
      var first, rest := order[0], order[1..];
      assert first !in rest;
      assert forall k :: k in order <==> k == first || k in rest;
      var b := Refilled(w[first], now);
      if b.tokens >= bytes as real {
        var w1 := w[first := b];
        CheckAllEffect(w1, rest, bytes, now);
        assert forall k :: k in rest ==> w1[k] == w[k];
        var (ok, w') := CheckAll(w, order, bytes, now);
        assert w'[first] == b;
      } else {
        assert !Has(w[first], bytes, now);
      }
    }
  }

  lemma {:induction false} TakeAllEffect<K>(w: World<K>, order: seq<K>, bytes: nat)
    requires Known(w, order) && NoDup(order)
    ensures var w' := TakeAll(w, order, bytes);
            && (forall k :: k in w && k !in order ==> w'[k] == w[k])
            && (forall k :: k in order ==> w'[k] == Spent(w[k], bytes))
    decreases order
  {
    hide Spent;
    if order != [] {
      var first, rest := order[0], order[1..];
      assert first !in rest;
      assert forall k :: k in order <==> k == first || k in rest;
      TakeAllEffect(w[first := Spent(w[first], bytes)], rest, bytes);
    }
  }

  /** Forwards exactly when every bucket covers the datagram, and charges all of them or none. */
  lemma PoliceEffect<K>(w: World<K>, order: seq<K>, bytes: nat, now: real)
    requires Known(w, order) && NoDup(order)
    ensures var (ok, w') := PoliceInOrder(w, order, bytes, now);
            && (ok <==> forall k :: k in order ==> Has(w[k], bytes, now))
            && (forall k :: k in w && k !in order ==> w'[k] == w[k])
            && (ok ==> forall k :: k in order ==> w'[k] == Reserved(w[k], bytes, now))
            && (!ok ==> forall k :: k in order ==> w'[k] == w[k] || w'[k] == Refilled(w[k], now))
  {
    hide Refilled, Spent, Has;
    CheckAllEffect(w, order, bytes, now);
    var (ok, w') := CheckAll(w, order, bytes, now);
    if ok {
      TakeAllEffect(w', order, bytes);
    }
  }

  // ---------------------------------------------------------------------------
  // The object
  // ---------------------------------------------------------------------------

  ghost predicate Ascending(bs: seq<TokenBucket>) {
    forall i, j :: 0 <= i < j < |bs| ==> bs[i].addr < bs[j].addr
  }

  /** Addresses tell shared objects apart. */
  ghost predicate DistinctAddresses(bs: seq<TokenBucket>) {
    forall i, j :: 0 <= i < j < |bs| ==> bs[i].addr != bs[j].addr
  }

  method InsertByAddress(sorted: seq<TokenBucket>, b: TokenBucket) returns (r: seq<TokenBucket>)
    requires Ascending(sorted)
    requires forall x :: x in sorted ==> x.addr != b.addr
    ensures Ascending(r)
    ensures multiset(r) == multiset(sorted) + multiset{b}
  {
    var i := 0;
    while i < |sorted| && sorted[i].addr < b.addr
      invariant 0 <= i <= |sorted|
      invariant forall j :: 0 <= j < i ==> sorted[j].addr < b.addr
    {
      i := i + 1;
    }
    r := sorted[..i] + [b] + sorted[i..];
    assert sorted == sorted[..i] + sorted[i..];
  }

  /** The canonical lock order. */
  method OrderByAddress(bs: seq<TokenBucket>) returns (ordered: seq<TokenBucket>)
    requires DistinctAddresses(bs)
    ensures Ascending(ordered)
    ensures multiset(ordered) == multiset(bs)
    ensures forall b :: b in ordered <==> b in bs
  {
    ordered := [];
    for i := 0 to |bs|
      invariant Ascending(ordered)
      invariant multiset(ordered) == multiset(bs[..i])
    {
      assert bs[..i + 1] == bs[..i] + [bs[i]];
      forall x | x in ordered ensures x.addr != bs[i].addr {
        assert x in multiset(bs[..i]);
      }
      ordered := InsertByAddress(ordered, bs[i]);
    }
    assert bs[..|bs|] == bs;
    assert forall b :: b in ordered <==> b in multiset(ordered);
    assert forall b :: b in bs <==> b in multiset(bs);
  }

  class Throttle {
    var buckets: seq<TokenBucket>

    ghost predicate Valid()
      reads this
    {
      DistinctAddresses(buckets)
    }

    constructor ()
      ensures Valid() && buckets == []
    {
      buckets := [];
    }

    /** Adds a bucket unless the very same bucket is there already. */
    method WithBucket(b: TokenBucket)
      requires Valid()
      requires forall x :: x in buckets && x.addr == b.addr ==> x == b
      modifies this
      ensures Valid()
      ensures buckets == if b in old(buckets) then old(buckets) else old(buckets) + [b]
    {
      var i := 0;
      while i < |buckets|
        invariant 0 <= i <= |buckets|
        invariant b !in buckets[..i]
        invariant buckets == old(buckets)
      {
        if buckets[i] == b {
          return;
        }
        i := i + 1;
      }
      buckets := buckets + [b];
    }

    method Reserve(bytes: nat, now: real) returns (wait: real)
      requires Valid()
      modifies buckets
      ensures wait >= 0.0
      ensures forall b :: b in buckets ==>
                b.View() == Reserved(old(b.View()), bytes, now) && wait >= Wait(b.View())
      ensures wait == 0.0 || exists b :: b in buckets && wait == Wait(b.View())
    {
      hide Reserved, Wait;
      wait := 0.0;
      for i := 0 to |buckets|
        invariant wait >= 0.0
        invariant forall j :: 0 <= j < i ==>
                    buckets[j].View() == Reserved(old(buckets[j].View()), bytes, now) && wait >= Wait(buckets[j].View())
        invariant forall j :: i <= j < |buckets| ==> buckets[j].View() == old(buckets[j].View())
        invariant wait == 0.0 || exists j :: 0 <= j < i && wait == Wait(buckets[j].View())
      {
        var w := buckets[i].Reserve(bytes, now);
        wait := Max(wait, w);
      }
    }

    method Police(bytes: nat, now: real) returns (ok: bool)
      requires Valid()
      modifies buckets
      ensures ok <==> forall b :: b in buckets ==> Has(old(b.View()), bytes, now)
      ensures ok ==> forall b :: b in buckets ==> b.View() == Reserved(old(b.View()), bytes, now)
      ensures !ok ==> forall b :: b in buckets ==>
                        b.View() == old(b.View()) || b.View() == Refilled(old(b.View()), now)
    {
      if |buckets| == 0 {
        return true;
      }
      if |buckets| == 1 {
        var bucket := buckets[0];
        ok := bucket.CanCover(bytes, now);
        if ok {
          bucket.Take(bytes);
        }
        return;
      }
      var ordered := OrderByAddress(buckets);
      ok := PoliceOrdered(ordered, bytes, now);
    }
  }

  /** Policing with all guards held, in the order they were locked. */
  method PoliceOrdered(ordered: seq<TokenBucket>, bytes: nat, now: real) returns (ok: bool)
    requires Ascending(ordered)
    modifies set b | b in ordered
    ensures ok <==> forall b :: b in ordered ==> Has(old(b.View()), bytes, now)
    ensures ok ==> forall b :: b in ordered ==> b.View() == Reserved(old(b.View()), bytes, now)
    ensures !ok ==> exists m :: 0 <= m < |ordered| && StoppedAt(ordered, m, bytes, now)
  {
    hide Refilled, Spent;
    ok := true;
    var i := 0;
    while i < |ordered| && ok
      invariant 0 <= i <= |ordered|
      invariant forall j :: 0 <= j < i ==> ordered[j].View() == Refilled(old(ordered[j].View()), now)
      invariant forall j :: i <= j < |ordered| ==> ordered[j].View() == old(ordered[j].View())
      invariant ok <==> forall j :: 0 <= j < i ==> Has(old(ordered[j].View()), bytes, now)
      invariant !ok ==> i > 0 && StoppedAt(ordered, i - 1, bytes, now)
      decreases |ordered| - i
    {
      ok := ordered[i].CanCover(bytes, now);
      i := i + 1;
    }
    if ok {
      for j := 0 to |ordered|
        invariant forall m :: 0 <= m < j ==> ordered[m].View() == Reserved(old(ordered[m].View()), bytes, now)
        invariant forall m :: j <= m < |ordered| ==> ordered[m].View() == Refilled(old(ordered[m].View()), now)
      {
        ordered[j].Take(bytes);
      }
    }
  }

  /** Bucket `m` was short: the buckets up to it have been refilled, the later ones were left alone. */
  twostate predicate StoppedAt(ordered: seq<TokenBucket>, m: nat, bytes: nat, now: real)
    requires m < |ordered|
    reads ordered
  {
    && !Has(old(ordered[m].View()), bytes, now)
    && (forall j :: 0 <= j <= m ==> ordered[j].View() == Refilled(old(ordered[j].View()), now))
    && (forall j :: m < j < |ordered| ==> ordered[j].View() == old(ordered[j].View()))
  }
}
