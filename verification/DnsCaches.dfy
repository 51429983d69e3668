/**
 The resolver's positive and negative caches: what a lookup and a store do to them, the
 bounds they keep, and the object that updates them in place.
 */
module DnsCaches {
  import opened Options
  import Ascii

  const MAX_DNS_CACHE_ENTRIES: nat := 4096
  const MAX_NEGATIVE_CACHE_ENTRIES: nat := 1024
  const NEGATIVE_CACHE_TTL: real := 2.0

  /** A socket address; the caches never look inside. */
  type Addr = nat

  datatype Key = Key(host: string, port: nat)

  function NewKey(host: string, port: nat): Key {
    Key(Ascii.Lower(host), port)
  }

  /** Two names share a key exactly if the ports are equal and the hosts are, up to letter case. */
  lemma SameKeyIff(host: string, port: nat, host': string, port': nat)
    ensures NewKey(host, port) == NewKey(host', port') <==> port == port' && Ascii.SameUpToCase(host, host')
  {
    Ascii.FoldingIsCase(host, host');
  }

  datatype Entry = Entry(addrs: seq<Addr>, insertedAt: real)

  type Cache = map<Key, Entry>
  type Negative = map<Key, real>

  /** Time since a stamp; a reading before the stamp counts as none. */
  function Age(stamp: real, now: real): real {
    if now > stamp then now - stamp else 0.0
  }

  predicate Live(e: Entry, now: real, ttl: real) {
    Age(e.insertedAt, now) < ttl
  }

  predicate Fresh(failedAt: real, now: real) {
    Age(failedAt, now) < NEGATIVE_CACHE_TTL
  }

  // ---------------------------------------------------------------------------
  // Oldest first
  // ---------------------------------------------------------------------------

  /** Lexicographic order of host names, by code point. */
  predicate HostLeq(a: string, b: string) {
    a == "" || (b != "" && (a[0] < b[0] || (a[0] == b[0] && HostLeq(a[1..], b[1..]))))
  }

  /** The order in which entries are evicted: by age, then port, then host. */
  predicate EvictedBefore(c: Cache, k: Key, l: Key)
    requires k in c && l in c
  {
    var s, t := c[k].insertedAt, c[l].insertedAt;
    s < t || (s == t && (k.port < l.port || (k.port == l.port && HostLeq(k.host, l.host))))
  }

  ghost predicate IsOldest(c: Cache, k: Key) {
    k in c && forall l :: l in c ==> EvictedBefore(c, k, l)
  }

  lemma {:induction false} HostLeqTotal(a: string, b: string)
    ensures HostLeq(a, b) || HostLeq(b, a)
    ensures HostLeq(a, b) && HostLeq(b, a) ==> a == b
  {
    if a != "" && b != "" {
      HostLeqTotal(a[1..], b[1..]);
      assert a == [a[0]] + a[1..] && b == [b[0]] + b[1..];
    }
  }

  lemma {:induction false} HostLeqTransitive(a: string, b: string, c: string)
    requires HostLeq(a, b) && HostLeq(b, c)
    ensures HostLeq(a, c)
  {
    if a != "" && a[0] == b[0] && b[0] == c[0] {
      HostLeqTransitive(a[1..], b[1..], c[1..]);
    }
  }

  /** Ties are broken by the key, so that there is only one oldest entry. */
  lemma OldestIsUnique(c: Cache, k: Key, l: Key)
    requires IsOldest(c, k) && IsOldest(c, l)
    ensures k == l
  {
    assert EvictedBefore(c, k, l) && EvictedBefore(c, l, k);
    HostLeqTotal(k.host, l.host);
  }

  lemma {:induction false} OldestExists(c: Cache, keys: set<Key>) returns (k: Key)
    requires keys != {} && keys <= c.Keys
    ensures k in keys && forall l :: l in keys ==> EvictedBefore(c, k, l)
    decreases keys
  {
    k :| k in keys;
    if keys == {k} {
      HostLeqTotal(k.host, k.host);
    } else {
      var rest := keys - {k};
      var o := OldestExists(c, rest);
      k := Older(c, o, k, rest);
    }
  }

  /** The older of the oldest so far and one more entry. */
  lemma Older(c: Cache, o: Key, k: Key, rest: set<Key>) returns (r: Key)
    requires o in rest && rest <= c.Keys && k in c
    requires forall l :: l in rest ==> EvictedBefore(c, o, l)
    ensures r == (if EvictedBefore(c, o, k) then o else k)
    ensures forall l :: l in rest + {k} ==> EvictedBefore(c, r, l)
  {
    HostLeqTotal(o.host, k.host);
    HostLeqTotal(k.host, k.host);
    if EvictedBefore(c, o, k) {
      r := o;
    } else {
      r := k;
      forall l | l in rest ensures EvictedBefore(c, k, l) {
        if HostLeq(k.host, o.host) && HostLeq(o.host, l.host) {
          HostLeqTransitive(k.host, o.host, l.host);
        }
      }
    }
  }

  lemma SomeIsOldest(c: Cache)
    requires c != map[]
    ensures exists k :: IsOldest(c, k)
  {
    assert c.Keys != {};
    var k := OldestExists(c, c.Keys);
    assert IsOldest(c, k);
  }

  ghost function OldestKey(c: Cache): (k: Key)
    requires c != map[]
    ensures IsOldest(c, k)
  {
    SomeIsOldest(c);
    var k :| IsOldest(c, k);
    k
  }

  // ---------------------------------------------------------------------------
  // Positive cache
  // ---------------------------------------------------------------------------

  /** A live entry is a hit; a stale one is dropped on the way. */
  function Probed(c: Cache, key: Key, now: real, ttl: real): (Option<seq<Addr>>, Cache) {
    if key !in c then (None, c)
    else if Live(c[key], now, ttl) then (Some(c[key].addrs), c)
    else (None, c - {key})
  }

  function Retained(c: Cache, now: real, ttl: real): Cache {
    map k | k in c && Live(c[k], now, ttl) :: c[k]
  }

  /** Room for `key`: a full cache first drops what has expired, and only then its oldest entry. */
  ghost function Thinned(c: Cache, key: Key, ttl: real, now: real): Cache {
    if |c| >= MAX_DNS_CACHE_ENTRIES && key !in c then
      var r := Retained(c, now, ttl);
      if |r| >= MAX_DNS_CACHE_ENTRIES then r - {OldestKey(r)} else r
    else c
  }

  ghost function Stored(c: Cache, key: Key, addrs: seq<Addr>, ttl: real, now: real): Cache {
    Thinned(c, key, ttl, now)[key := Entry(addrs, now)]
  }

  lemma RetainedShrinks(c: Cache, now: real, ttl: real)
    ensures |Retained(c, now, ttl)| <= |c|
    ensures |Retained(c, now, ttl)| == |c| ==> Retained(c, now, ttl) == c
  {
    var r := Retained(c, now, ttl);
    assert r.Keys <= c.Keys;
    SubsetSize(r.Keys, c.Keys);
  }

  lemma SubsetSize<T>(a: set<T>, b: set<T>)
    requires a <= b
    ensures |a| <= |b|
    ensures |a| == |b| ==> a == b
  {
    assert b == a + (b - a);
  }

  /** The cache never outgrows its bound, and the new entry is in it. */
  lemma StoreIsBounded(c: Cache, key: Key, addrs: seq<Addr>, ttl: real, now: real)
    requires |c| <= MAX_DNS_CACHE_ENTRIES
    ensures var c' := Stored(c, key, addrs, ttl, now);
            |c'| <= MAX_DNS_CACHE_ENTRIES && key in c' && c'[key] == Entry(addrs, now)
  {
    RetainedShrinks(c, now, ttl);
    var t := Thinned(c, key, ttl, now);
    var c' := Stored(c, key, addrs, ttl, now);
    assert c'.Keys == t.Keys + {key};
    if key in c && t == c {
      assert c'.Keys == c.Keys;
    } else {
      var r := Retained(c, now, ttl);
      if |c| >= MAX_DNS_CACHE_ENTRIES && |r| >= MAX_DNS_CACHE_ENTRIES {
        assert t.Keys == r.Keys - {OldestKey(r)};
      }
    }
  }

  /**
   Nothing but `key` changes in the entries that stay, and a live entry is given up only when
   the cache is full, every entry is live, and it is the oldest of them.
   */
  lemma StoreEvictsExpiredFirst(c: Cache, key: Key, addrs: seq<Addr>, ttl: real, now: real, k: Key)
    requires |c| <= MAX_DNS_CACHE_ENTRIES && k in c && k != key
    ensures var c' := Stored(c, key, addrs, ttl, now);
            && (k in c' ==> c'[k] == c[k])
            && (k !in c' && Live(c[k], now, ttl) ==>
                  && key !in c && |c| == MAX_DNS_CACHE_ENTRIES && IsOldest(c, k)
                  && forall l :: l in c ==> Live(c[l], now, ttl) && (l != k ==> l in c'))
  {
    RetainedShrinks(c, now, ttl);
  }

  // ---------------------------------------------------------------------------
  // Negative cache
  // ---------------------------------------------------------------------------

  /** Whether `key` timed out lately; a stale memory is dropped on the way. */
  function Backoff(n: Negative, key: Key, now: real): (bool, Negative) {
    if key !in n then (false, n)
    else if Fresh(n[key], now) then (true, n)
    else (false, n - {key})
  }

  ghost predicate IsLongestAgo(n: Negative, k: Key) {
    k in n && forall l :: l in n ==> n[k] <= n[l]
  }

  function RetainedNegative(n: Negative, now: real): Negative {
    map k | k in n && Fresh(n[k], now) :: n[k]
  }

  /** Remembering a timeout; which of several equally old memories is given up is left open. */
  ghost predicate Remembers(n: Negative, n': Negative, key: Key, now: real) {
    if |n| >= MAX_NEGATIVE_CACHE_ENTRIES && key !in n then
      var r := RetainedNegative(n, now);
      if |r| >= MAX_NEGATIVE_CACHE_ENTRIES then
        exists k :: IsLongestAgo(r, k) && n' == (r - {k})[key := now]
      else n' == r[key := now]
    else n' == n[key := now]
  }

  lemma RememberIsBounded(n: Negative, n': Negative, key: Key, now: real)
    requires |n| <= MAX_NEGATIVE_CACHE_ENTRIES && Remembers(n, n', key, now)
    ensures |n'| <= MAX_NEGATIVE_CACHE_ENTRIES && key in n' && n'[key] == now
    ensures forall k :: k in n' && k != key ==> k in n && n'[k] == n[k]
    ensures forall k :: k in n && k !in n' && Fresh(n[k], now) ==>
              key !in n && |n| == MAX_NEGATIVE_CACHE_ENTRIES && IsLongestAgo(n, k)
              && forall l :: l in n ==> Fresh(n[l], now)
  {
    var r := RetainedNegative(n, now);
    assert r.Keys <= n.Keys;
    SubsetSize(r.Keys, n.Keys);
    if |n| >= MAX_NEGATIVE_CACHE_ENTRIES && key !in n {
      if |r| >= MAX_NEGATIVE_CACHE_ENTRIES {
        assert r == n;
        GivesUpOne(n, n', key, now);
      } else {
        BindingSize(r, key, now);
      }
    } else {
      BindingSize(n, key, now);
    }
  }

  lemma BindingSize(n: Negative, key: Key, now: real)
    ensures |n[key := now]| == |n| + if key in n then 0 else 1
  {
    assert n[key := now].Keys == n.Keys + {key};
  }

  lemma GivesUpOne(n: Negative, n': Negative, key: Key, now: real)
    requires key !in n && exists k :: IsLongestAgo(n, k) && n' == (n - {k})[key := now]
    ensures |n'| == |n| && key in n' && n'[key] == now
    ensures forall k :: k in n' && k != key ==> k in n && n'[k] == n[k]
    ensures forall k :: k in n && k !in n' ==> IsLongestAgo(n, k)
  {
    var k :| IsLongestAgo(n, k) && n' == (n - {k})[key := now];
    BindingSize(n - {k}, key, now);
    assert (n - {k}).Keys == n.Keys - {k};
  }

  // ---------------------------------------------------------------------------
  // The object
  // ---------------------------------------------------------------------------

  method FindOldest(c: Cache) returns (oldest: Option<Key>)
    ensures oldest.None? <==> c == map[]
    ensures oldest.Some? ==> IsOldest(c, oldest.value)
  {
    var todo := c.Keys;
    ghost var seen: set<Key> := {};
    oldest := None;
    while todo != {}
      invariant todo + seen == c.Keys
      invariant oldest.None? <==> seen == {}
      invariant oldest.Some? ==> oldest.value in seen && forall l :: l in seen ==> EvictedBefore(c, oldest.value, l)
      decreases todo
    {
      var k :| k in todo;
      todo := todo - {k};
      if oldest.None? {
        HostLeqTotal(k.host, k.host);
        oldest := Some(k);
      } else {
        ghost var r := Older(c, oldest.value, k, seen);
        if !EvictedBefore(c, oldest.value, k) {
          oldest := Some(k);
        }
      }
      seen := seen + {k};
    }
  }

  method FindLongestAgo(n: Negative) returns (oldest: Option<Key>)
    ensures oldest.None? <==> n == map[]
    ensures oldest.Some? ==> IsLongestAgo(n, oldest.value)
  {
    var todo := n.Keys;
    oldest := None;
    while todo != {}
      invariant todo <= n.Keys
      invariant oldest.None? ==> todo == n.Keys
      invariant oldest.Some? ==> oldest.value in n && forall l :: l in n && l !in todo ==> n[oldest.value] <= n[l]
      decreases todo
    {
      var k :| k in todo;
      todo := todo - {k};
      if oldest.None? || n[k] < n[oldest.value] {
        oldest := Some(k);
      }
    }
  }

  datatype Flight = Lead(channel: nat) | Follow(channel: nat)

  /** The shared tables of the resolver; each method is one lock section. */
  class DnsResolver {
    var cache: Cache
    var negative: Negative
    var inflight: map<Key, nat>
    var channels: nat

    ghost predicate Valid()
      reads this
    {
      |cache| <= MAX_DNS_CACHE_ENTRIES && |negative| <= MAX_NEGATIVE_CACHE_ENTRIES
    }

    constructor ()
      ensures Valid() && cache == map[] && negative == map[] && inflight == map[] && channels == 0
    {
      cache, negative, inflight, channels := map[], map[], map[], 0;
    }

    method Cached(key: Key, now: real, ttl: real) returns (hit: Option<seq<Addr>>)
      requires Valid()
      modifies this`cache
      ensures Valid()
      ensures (hit, cache) == Probed(old(cache), key, now, ttl)
    {
      if key !in cache {
        return None;
      }
      if Live(cache[key], now, ttl) {
        return Some(cache[key].addrs);
      }
      SubsetSize((cache - {key}).Keys, cache.Keys);
      cache := cache - {key};
      hit := None;
    }

    method Store(key: Key, addrs: seq<Addr>, ttl: real, now: real)
      requires Valid()
      modifies this`cache
      ensures Valid()
      ensures cache == Stored(old(cache), key, addrs, ttl, now)
    {
      StoreIsBounded(cache, key, addrs, ttl, now);
      if |cache| >= MAX_DNS_CACHE_ENTRIES && key !in cache {
        cache := Retained(cache, now, ttl);
        if |cache| >= MAX_DNS_CACHE_ENTRIES {
          var oldest := FindOldest(cache);
          if oldest.Some? {
            OldestIsUnique(cache, oldest.value, OldestKey(cache));
            cache := cache - {oldest.value};
          }
        }
      }
      cache := cache[key := Entry(addrs, now)];
    }

    method NegativelyCached(key: Key, now: real) returns (backOff: bool)
      requires Valid()
      modifies this`negative
      ensures Valid()
      ensures (backOff, negative) == Backoff(old(negative), key, now)
    {
      if key !in negative {
        return false;
      }
      if Fresh(negative[key], now) {
        return true;
      }
      SubsetSize((negative - {key}).Keys, negative.Keys);
      negative := negative - {key};
      backOff := false;
    }

    method StoreNegative(key: Key, now: real)
      requires Valid()
      modifies this`negative
      ensures Valid()
      ensures Remembers(old(negative), negative, key, now)
    {
      if |negative| >= MAX_NEGATIVE_CACHE_ENTRIES && key !in negative {
        negative := RetainedNegative(negative, now);
        if |negative| >= MAX_NEGATIVE_CACHE_ENTRIES {
          var oldest := FindLongestAgo(negative);
          if oldest.Some? {
            negative := negative - {oldest.value};
          }
        }
      }
      negative := negative[key := now];
      RememberIsBounded(old(negative), negative, key, now);
    }

    /** Joins the flight for `key`, or opens a channel and registers the caller as its leader. */
    method JoinOrLead(key: Key) returns (flight: Flight)
      modifies this`inflight, this`channels
      ensures key in old(inflight) ==>
                flight == Follow(old(inflight)[key]) && inflight == old(inflight) && channels == old(channels)
      ensures key !in old(inflight) ==>
                flight == Lead(old(channels)) && channels == old(channels) + 1
                && inflight == old(inflight)[key := old(channels)]
    {
      if key in inflight {
        return Follow(inflight[key]);
      }
      flight := Lead(channels);
      inflight := inflight[key := channels];
      channels := channels + 1;
    }

    method RemoveInflight(key: Key)
      modifies this`inflight
      ensures inflight == old(inflight) - {key}
    {
      inflight := inflight - {key};
    }
  }
}
