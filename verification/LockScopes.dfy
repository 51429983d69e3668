/** What each operation holds while: the promises about lock sections that the other models rely on. */
module LockScopes {
  import opened Options
  import opened Locks

  /** From here to there the lock is held: taken and given back at the ends, and untouched in between. */
  predicate Spans(p: seq<Action>, from: nat, to: nat, l: Lock) {
    && from < to < |p| && p[from] == Acquire(l) && p[to] == Release(l)
    && forall i :: from < i < to ==> p[i].lock != l
  }

  /** The actions of `part` stand in `p` from here on. */
  predicate StandsAt(p: seq<Action>, at: nat, part: seq<Action>) {
    at + |part| <= |p| && p[at..at + |part|] == part
  }

  /** These are the only locks waited for. */
  predicate WaitsOnlyFor(p: seq<Action>, locks: set<Lock>) {
    forall i :: 0 <= i < |p| && p[i].Acquire? ==> p[i].lock in locks
  }

  /** Neither the table nor the limits are touched. */
  predicate Inner(p: seq<Action>) {
    forall i :: 0 <= i < |p| ==> p[i].lock.State? || p[i].lock.Bucket?
  }

  function BucketLock(b: Option<nat>): set<Lock> {
    if b.Some? then {Bucket(b.value)} else {}
  }

  /** The use of a record: its lock held throughout and, inside, that of its bucket. */
  lemma StateScopes(v: Visit)
    ensures var p := WithState(v);
            && |p| >= 2 && Spans(p, 0, |p| - 1, State(v.state)) && Inner(p)
            && (v.bucket.Some? ==> |p| == 4 && Spans(p, 1, 2, Bucket(v.bucket.value)))
            && WaitsOnlyFor(p, {State(v.state)} + BucketLock(v.bucket))
  {
  }

  /** Sweeping waits for nothing. */
  lemma {:induction false} SweepScopes(vs: seq<Visit>)
    ensures Inner(Sweep(vs)) && WaitsOnlyFor(Sweep(vs), {})
  {
    if vs != [] {
      SweepScopes(vs[1..]);
    }
  }

  lemma Concat(p: seq<Action>, q: seq<Action>, locks: set<Lock>)
    ensures Inner(p) && Inner(q) ==> Inner(p + q)
    ensures WaitsOnlyFor(p, locks) && WaitsOnlyFor(q, locks) ==> WaitsOnlyFor(p + q, locks)
  {
  }

  lemma Wider(p: seq<Action>, few: set<Lock>, more: set<Lock>)
    requires WaitsOnlyFor(p, few) && few <= more
    ensures WaitsOnlyFor(p, more)
  {
  }

  /** The part under the table lock, apart from its release. */
  lemma CheckoutScopes(sweep: seq<Visit>, v: Visit)
    ensures var p := Sweep(sweep) + WithState(v);
            && Inner(p) && StandsAt(p, |Sweep(sweep)|, WithState(v))
            && WaitsOnlyFor(p, {State(v.state)} + BucketLock(v.bucket))
            && Checkout(sweep, v) == p + [Release(Clients)]
  {
    SweepScopes(sweep);
    StateScopes(v);
    var locks := {State(v.state)} + BucketLock(v.bucket);
    hide Sweep, WithState, Inner, WaitsOnlyFor;
    Wider(Sweep(sweep), {}, locks);
    Concat(Sweep(sweep), WithState(v), locks);
  }

  /** A part that touches neither table nor limits can stand inside a section of the table. */
  lemma TableSpans(before: seq<Action>, part: seq<Action>)
    requires Inner(part) && before != [] && before[0] == Acquire(Clients)
    requires forall i :: 0 < i < |before| ==> before[i].lock != Clients
    ensures var p := before + part + [Release(Clients)]; Spans(p, 0, |p| - 1, Clients)
  {
    var p := before + part + [Release(Clients)];
    forall i | 0 < i < |p| - 1 ensures p[i].lock != Clients {
      assert i >= |before| ==> p[i] == part[i - |before|];
    }
  }

  lemma WaitsAround(before: seq<Action>, part: seq<Action>, few: set<Lock>, more: set<Lock>)
    requires WaitsOnlyFor(before, more) && WaitsOnlyFor(part, few) && few <= more
    ensures WaitsOnlyFor(before + part + [Release(Clients)], more)
  {
    assert WaitsOnlyFor([Release(Clients)], more);
    hide WaitsOnlyFor;
    Wider(part, few, more);
    Concat(before, part, more);
    Concat(before + part, [Release(Clients)], more);
  }

  lemma Shift(before: seq<Action>, part: seq<Action>, after: seq<Action>, at: nat, inner: seq<Action>)
    requires StandsAt(part, at, inner)
    ensures StandsAt(before + part + after, |before| + at, inner)
  {
    var p := before + part + after;
    assert p[|before| + at..|before| + at + |inner|] == part[at..at + |inner|];
  }

  lemma Associates(before: seq<Action>, part: seq<Action>, after: seq<Action>)
    ensures before + (part + after) == before + part + after
  {
  }

  /** Limits read under the table. */
  function ReadUnder(part: seq<Action>): seq<Action> {
    [Acquire(Clients), Acquire(Config), Release(Config)] + part + [Release(Clients)]
  }

  lemma ReadUnderScopes(part: seq<Action>, at: nat, inner: seq<Action>, few: set<Lock>)
    requires Inner(part) && StandsAt(part, at, inner) && WaitsOnlyFor(part, few)
    ensures var p := ReadUnder(part);
            && |p| >= 4 && Spans(p, 0, |p| - 1, Clients) && Spans(p, 1, 2, Config)
            && StandsAt(p, 3 + at, inner) && WaitsOnlyFor(p, {Clients, Config} + few)
  {
    var before := [Acquire(Clients), Acquire(Config), Release(Config)];
    TableSpans(before, part);
    Shift(before, part, [Release(Clients)], at, inner);
    WaitsAround(before, part, few, {Clients, Config} + few);
  }

  /** Limits read before the table is taken. */
  function ReadBefore(part: seq<Action>): seq<Action> {
    [Acquire(Config), Release(Config), Acquire(Clients)] + part + [Release(Clients)]
  }

  lemma ReadBeforeScopes(part: seq<Action>, at: nat, inner: seq<Action>, few: set<Lock>)
    requires Inner(part) && StandsAt(part, at, inner) && WaitsOnlyFor(part, few)
    ensures var p := ReadBefore(part);
            && |p| >= 4 && Spans(p, 0, 1, Config) && Spans(p[2..], 0, |p| - 3, Clients)
            && StandsAt(p, 3 + at, inner) && WaitsOnlyFor(p, {Clients, Config} + few)
  {
    var before := [Acquire(Config), Release(Config), Acquire(Clients)];
    assert ReadBefore(part)[2..] == [Acquire(Clients)] + part + [Release(Clients)];
    TableSpans([Acquire(Clients)], part);
    Shift(before, part, [Release(Clients)], at, inner);
    WaitsAround(before, part, few, {Clients, Config} + few);
  }

  /**
   An admission holds the table from its first step to its last. Inside it reads the limits and
   then uses the record; besides the locks of these it waits for nothing.
   */
  lemma AdmitScopes(sweep: seq<Visit>, v: Visit)
    ensures var p := ProgramOf(Admit(sweep, v.state, v.bucket));
            && |p| >= 4 && Spans(p, 0, |p| - 1, Clients) && Spans(p, 1, 2, Config)
            && StandsAt(p, 3 + |Sweep(sweep)|, WithState(v))
            && WaitsOnlyFor(p, {Clients, Config} + ({State(v.state)} + BucketLock(v.bucket)))
  {
    hide Sweep, WithState, Checkout, Inner, StandsAt, WaitsOnlyFor, BucketLock, Spans;
    var part := Sweep(sweep) + WithState(v);
    CheckoutScopes(sweep, v);
    Associates([Acquire(Clients), Acquire(Config), Release(Config)], part, [Release(Clients)]);
    assert ProgramOf(Admit(sweep, v.state, v.bucket)) == ReadUnder(part);
    hide ReadUnder, ProgramOf;
    ReadUnderScopes(part, |Sweep(sweep)|, WithState(v), {State(v.state)} + BucketLock(v.bucket));
  }

  /** A failed login reads the limits before it takes the table, and uses the record under the table. */
  lemma AuthFailureScopes(sweep: seq<Visit>, target: nat)
    ensures var p := ProgramOf(RecordAuthFailure(sweep, target));
            && |p| >= 4 && Spans(p, 0, 1, Config) && Spans(p[2..], 0, |p| - 3, Clients)
            && StandsAt(p, 3 + |Sweep(sweep)|, WithState(Visit(target, None)))
            && WaitsOnlyFor(p, {Clients, Config} + ({State(target)} + BucketLock(None)))
  {
    hide Sweep, WithState, Checkout, Inner, StandsAt, WaitsOnlyFor, BucketLock, Spans;
    var v := Visit(target, None);
    var part := Sweep(sweep) + WithState(v);
    CheckoutScopes(sweep, v);
    Associates([Acquire(Config), Release(Config), Acquire(Clients)], part, [Release(Clients)]);
    assert ProgramOf(RecordAuthFailure(sweep, target)) == ReadBefore(part);
    hide ReadBefore, ProgramOf;
    ReadBeforeScopes(part, |Sweep(sweep)|, WithState(v), {State(target)} + BucketLock(None));
  }

  lemma {:induction false} OneByOneScopes(vs: seq<Visit>)
    ensures Inner(OneByOne(vs))
  {
    if vs != [] {
      StateScopes(vs[0]);
      OneByOneScopes(vs[1..]);
      hide WithState, Inner;
      Concat(WithState(vs[0]), OneByOne(vs[1..]), {});
    }
  }

  lemma {:induction false} VisitStands(vs: seq<Visit>, n: nat) returns (at: nat)
    requires n < |vs|
    ensures StandsAt(OneByOne(vs), at, WithState(vs[n]))
  {
    hide WithState;
    var first, rest := WithState(vs[0]), OneByOne(vs[1..]);
    if n == 0 {
      at := 0;
    } else {
      var i := VisitStands(vs[1..], n - 1);
      at := |first| + i;
      Shift(first, rest, [], i, WithState(vs[n]));
      assert first + rest + [] == first + rest;
    }
  }

  /** A reload has given the limits and the table back before it touches a record, and then visits them all. */
  lemma UpdateScopes(states: seq<Visit>, n: nat) returns (at: nat)
    requires n < |states|
    ensures var p := ProgramOf(UpdateConfig(states));
            && |p| >= 4 && Spans(p, 0, 1, Config) && Spans(p, 2, 3, Clients) && Inner(p[4..])
            && at >= 4 && StandsAt(p, at, WithState(states[n]))
  {
    var before, part := [Acquire(Config), Release(Config), Acquire(Clients), Release(Clients)], OneByOne(states);
    var p := ProgramOf(UpdateConfig(states));
    assert p == before + part + [] && p[4..] == part;
    OneByOneScopes(states);
    hide OneByOne, WithState, Inner;
    var i := VisitStands(states, n);
    at := 4 + i;
    Shift(before, part, [], i, WithState(states[n]));
  }

  /** Shaping holds one bucket at a time. */
  lemma {:induction false} ReserveScopes(buckets: seq<nat>)
    ensures var p := ProgramOf(Reserve(buckets));
            && |p| == 2 * |buckets|
            && forall i :: 0 <= i < |buckets| ==>
                 p[2 * i] == Acquire(Bucket(buckets[i])) && p[2 * i + 1] == Release(Bucket(buckets[i]))
  {
    if buckets != [] {
      var rest := buckets[1..];
      ReserveScopes(rest);
      var p, q := BucketsOneByOne(buckets), BucketsOneByOne(rest);
      assert p == [Acquire(Bucket(buckets[0])), Release(Bucket(buckets[0]))] + q;
      forall i | 0 <= i < |buckets|
        ensures p[2 * i] == Acquire(Bucket(buckets[i])) && p[2 * i + 1] == Release(Bucket(buckets[i]))
      {
        if i > 0 {
          assert p[2 * i] == q[2 * (i - 1)] && p[2 * i + 1] == q[2 * (i - 1) + 1];
        }
      }
    }
  }

  /** Policing takes all its buckets, in the given order, before it gives any back. */
  lemma PoliceScopes(order: seq<nat>)
    ensures var p, n := ProgramOf(Police(order)), |order|;
            && |p| == 2 * n
            && forall i :: 0 <= i < n ==>
                 p[i] == Acquire(Bucket(order[i])) && p[n + i] == Release(Bucket(order[i]))
  {
    AllInOrder(order);
  }

  lemma {:induction false} AllInOrder(bs: seq<nat>)
    ensures |AcquireAll(bs)| == |bs| && forall i :: 0 <= i < |bs| ==> AcquireAll(bs)[i] == Acquire(Bucket(bs[i]))
    ensures |ReleaseAll(bs)| == |bs| && forall i :: 0 <= i < |bs| ==> ReleaseAll(bs)[i] == Release(Bucket(bs[i]))
  {
    if bs != [] {
      AllInOrder(bs[1..]);
    }
  }
}
