/**
 Lock discipline of the abuse controls and the throttles. Every operation is written as
 the sequence of locks it takes and gives back; any number of threads may run any calls.
 */
module Locks {
  import opened Options

  datatype Lock = Clients | Config | State(id: nat) | Bucket(addr: nat)

  /** The order in which nested locks are taken; buckets among themselves by address. */
  function Rank(l: Lock): nat {
    match l
    case Clients => 0
    case Config => 1
    case State(_) => 2
    case Bucket(addr) => 3 + addr
  }

  datatype Action =
    | Acquire(lock: Lock)                // blocks while another thread holds the lock
    | TryAcquire(lock: Lock, skip: nat)  // never blocks; on failure skips that many actions
    | Release(lock: Lock)

  // ---------------------------------------------------------------------------
  // The calls
  // ---------------------------------------------------------------------------

  /** A tracked state met by a sweep, and the bucket its expiry test looks at, if it gets that far. */
  datatype Visit = Visit(state: nat, bucket: Option<nat>)

  datatype Call =
    | Admit(sweep: seq<Visit>, target: nat, bucket: Option<nat>)  // no bucket if denied or unlimited
    | RecordAuthFailure(sweep: seq<Visit>, target: nat)
    | DropPermit(state: nat)
    | UpdateConfig(states: seq<Visit>)
    | Reserve(buckets: seq<nat>)
    | Police(order: seq<nat>)

  ghost predicate Ascending(order: seq<nat>) {
    forall i, j :: 0 <= i < j < |order| ==> order[i] < order[j]
  }

  /** The canonical order is the one thing a caller has to establish. */
  ghost predicate WellMade(c: Call) {
    c.Police? ==> Ascending(c.order)
  }

  function WithBucket(b: Option<nat>): seq<Action> {
    if b.None? then [] else [Acquire(Bucket(b.value)), Release(Bucket(b.value))]
  }

  function TryBucket(b: Option<nat>): seq<Action> {
    if b.None? then [] else [TryAcquire(Bucket(b.value), 1), Release(Bucket(b.value))]
  }

  function WithState(v: Visit): seq<Action> {
    [Acquire(State(v.state))] + WithBucket(v.bucket) + [Release(State(v.state))]
  }

  function TryState(v: Visit): seq<Action> {
    [TryAcquire(State(v.state), |TryBucket(v.bucket)| + 1)] + TryBucket(v.bucket) + [Release(State(v.state))]
  }

  /** Pruning and eviction only ever try the locks of the states they visit. */
  function Sweep(vs: seq<Visit>): seq<Action> {
    if vs == [] then [] else TryState(vs[0]) + Sweep(vs[1..])
  }

  function OneByOne(vs: seq<Visit>): seq<Action> {
    if vs == [] then [] else WithState(vs[0]) + OneByOne(vs[1..])
  }

  function BucketsOneByOne(bs: seq<nat>): seq<Action> {
    if bs == [] then [] else WithBucket(Some(bs[0])) + BucketsOneByOne(bs[1..])
  }

  function AcquireAll(bs: seq<nat>): seq<Action> {
    if bs == [] then [] else [Acquire(Bucket(bs[0]))] + AcquireAll(bs[1..])
  }

  function ReleaseAll(bs: seq<nat>): seq<Action> {
    if bs == [] then [] else [Release(Bucket(bs[0]))] + ReleaseAll(bs[1..])
  }

  /** The part under the `clients` lock: sweep, then use the state that was checked out. */
  function Checkout(sweep: seq<Visit>, v: Visit): seq<Action> {
    Sweep(sweep) + WithState(v) + [Release(Clients)]
  }

  function ProgramOf(c: Call): seq<Action> {
    match c
    case Admit(sweep, target, bucket) =>
      [Acquire(Clients), Acquire(Config), Release(Config)] + Checkout(sweep, Visit(target, bucket))
    case RecordAuthFailure(sweep, target) =>
      [Acquire(Config), Release(Config), Acquire(Clients)] + Checkout(sweep, Visit(target, None))
    case DropPermit(state) => WithState(Visit(state, None))
    case UpdateConfig(states) =>
      [Acquire(Config), Release(Config), Acquire(Clients), Release(Clients)] + OneByOne(states)
    case Reserve(buckets) => BucketsOneByOne(buckets)
    case Police(order) => AcquireAll(order) + ReleaseAll(order)
  }

  function ProgramOfAll(cs: seq<Call>): seq<Action> {
    if cs == [] then [] else ProgramOf(cs[0]) + ProgramOfAll(cs[1..])
  }

  // ---------------------------------------------------------------------------
  // The discipline
  // ---------------------------------------------------------------------------

  /** Blocks only on locks above everything held, on every path, and ends holding nothing. */
  ghost predicate Disciplined(held: set<Lock>, program: seq<Action>)
    decreases |program|
  {
    if program == [] then held == {}
    else
      var rest := program[1..];
      match program[0]
      case Acquire(l) => (forall h :: h in held ==> Rank(h) < Rank(l)) && Disciplined(held + {l}, rest)
      case TryAcquire(l, skip) =>
        l !in held && skip <= |rest| && Disciplined(held + {l}, rest) && Disciplined(held, rest[skip..])
      case Release(l) => l in held && Disciplined(held - {l}, rest)
  }

  lemma Taking(held: set<Lock>, l: Lock, rest: seq<Action>)
    requires forall h :: h in held ==> Rank(h) < Rank(l)
    requires Disciplined(held + {l}, rest)
    ensures Disciplined(held, [Acquire(l)] + rest)
  {
    assert ([Acquire(l)] + rest)[1..] == rest;
  }

  lemma Trying(held: set<Lock>, l: Lock, body: seq<Action>, rest: seq<Action>)
    requires l !in held
    requires Disciplined(held + {l}, body + rest) && Disciplined(held, rest)
    ensures Disciplined(held, [TryAcquire(l, |body|)] + (body + rest))
  {
    var program := [TryAcquire(l, |body|)] + (body + rest);
    assert program[1..] == body + rest && program[1..][|body|..] == rest;
  }

  lemma Giving(held: set<Lock>, l: Lock, rest: seq<Action>)
    requires l !in held && Disciplined(held, rest)
    ensures Disciplined(held + {l}, [Release(l)] + rest)
  {
    assert ([Release(l)] + rest)[1..] == rest && held + {l} - {l} == held;
  }

  lemma Bracketed(first: Action, mid: seq<Action>, last: Action, rest: seq<Action>)
    ensures ([first] + mid + [last]) + rest == [first] + (mid + ([last] + rest))
    ensures (mid + [last]) + rest == mid + ([last] + rest)
  {
  }

  lemma Pair(first: Action, last: Action, rest: seq<Action>)
    ensures [first, last] + rest == [first] + ([last] + rest)
  {
  }

  lemma BucketIsDisciplined(held: set<Lock>, b: nat, rest: seq<Action>)
    requires forall h :: h in held ==> Rank(h) < 3
    requires Disciplined(held, rest)
    ensures Disciplined(held, WithBucket(Some(b)) + rest)
    ensures Disciplined(held, TryBucket(Some(b)) + rest)
  {
    hide Disciplined;
    var l := Bucket(b);
    Giving(held, l, rest);
    Taking(held, l, [Release(l)] + rest);
    Trying(held, l, [Release(l)], rest);
    Pair(Acquire(l), Release(l), rest);
    Pair(TryAcquire(l, 1), Release(l), rest);
  }

  lemma MaybeBucket(held: set<Lock>, b: Option<nat>, rest: seq<Action>)
    requires forall h :: h in held ==> Rank(h) < 3
    requires Disciplined(held, rest)
    ensures Disciplined(held, WithBucket(b) + rest)
    ensures Disciplined(held, TryBucket(b) + rest)
  {
    if b.Some? {
      BucketIsDisciplined(held, b.value, rest);
    } else {
      assert WithBucket(b) + rest == rest && TryBucket(b) + rest == rest;
    }
  }

  lemma StateIsDisciplined(held: set<Lock>, v: Visit, rest: seq<Action>)
    requires forall h :: h in held ==> Rank(h) < 2
    requires Disciplined(held, rest)
    ensures Disciplined(held, WithState(v) + rest)
  {
    hide Disciplined, WithBucket;
    var l := State(v.state);
    var tail := [Release(l)] + rest;
    Giving(held, l, rest);
    MaybeBucket(held + {l}, v.bucket, tail);
    Taking(held, l, WithBucket(v.bucket) + tail);
    Bracketed(Acquire(l), WithBucket(v.bucket), Release(l), rest);
  }

  lemma TryingStateIsDisciplined(held: set<Lock>, v: Visit, rest: seq<Action>)
    requires forall h :: h in held ==> Rank(h) < 2
    requires Disciplined(held, rest)
    ensures Disciplined(held, TryState(v) + rest)
  {
    hide Disciplined, TryBucket;
    var l := State(v.state);
    Giving(held, l, rest);
    MaybeBucket(held + {l}, v.bucket, [Release(l)] + rest);
    var body := TryBucket(v.bucket) + [Release(l)];
    Bracketed(TryAcquire(l, |body|), TryBucket(v.bucket), Release(l), rest);
    Trying(held, l, body, rest);
  }

  lemma {:induction false} SweepIsDisciplined(held: set<Lock>, vs: seq<Visit>, rest: seq<Action>)
    requires forall h :: h in held ==> Rank(h) < 2
    requires Disciplined(held, rest)
    ensures Disciplined(held, Sweep(vs) + rest)
    ensures Disciplined(held, OneByOne(vs) + rest)
  {
    hide Disciplined, TryState, WithState;
    if vs == [] {
      assert Sweep(vs) + rest == rest && OneByOne(vs) + rest == rest;
    } else {
      SweepIsDisciplined(held, vs[1..], rest);
      TryingStateIsDisciplined(held, vs[0], Sweep(vs[1..]) + rest);
      StateIsDisciplined(held, vs[0], OneByOne(vs[1..]) + rest);
      assert Sweep(vs) + rest == TryState(vs[0]) + (Sweep(vs[1..]) + rest);
      assert OneByOne(vs) + rest == WithState(vs[0]) + (OneByOne(vs[1..]) + rest);
    }
  }

  lemma {:induction false} ReserveIsDisciplined(bs: seq<nat>, rest: seq<Action>)
    requires Disciplined({}, rest)
    ensures Disciplined({}, BucketsOneByOne(bs) + rest)
  {
    hide Disciplined, WithBucket;
    if bs == [] {
      assert BucketsOneByOne(bs) + rest == rest;
    } else {
      ReserveIsDisciplined(bs[1..], rest);
      BucketIsDisciplined({}, bs[0], BucketsOneByOne(bs[1..]) + rest);
      assert BucketsOneByOne(bs) + rest == WithBucket(Some(bs[0])) + (BucketsOneByOne(bs[1..]) + rest);
    }
  }

  ghost function LocksOf(bs: seq<nat>): set<Lock> {
    set b | b in bs :: Bucket(b)
  }

  lemma {:induction false} ReleaseAllIsDisciplined(bs: seq<nat>, rest: seq<Action>)
    requires Ascending(bs) && Disciplined({}, rest)
    ensures Disciplined(LocksOf(bs), ReleaseAll(bs) + rest)
  {
    hide Disciplined;
    if bs == [] {
      assert ReleaseAll(bs) + rest == rest && LocksOf(bs) == {};
    } else {
      ReleaseAllIsDisciplined(bs[1..], rest);
      assert LocksOf(bs) == LocksOf(bs[1..]) + {Bucket(bs[0])};
      Giving(LocksOf(bs[1..]), Bucket(bs[0]), ReleaseAll(bs[1..]) + rest);
      assert ReleaseAll(bs) + rest == [Release(Bucket(bs[0]))] + (ReleaseAll(bs[1..]) + rest);
    }
  }

  /** Taking the buckets in ascending address order, with the first `n` of them in hand. */
  lemma {:induction false} AcquireAllIsDisciplined(order: seq<nat>, n: nat, rest: seq<Action>)
    requires Ascending(order) && n <= |order|
    requires Disciplined(LocksOf(order), rest)
    ensures Disciplined(LocksOf(order[..n]), AcquireAll(order[n..]) + rest)
    decreases |order| - n
  {
    hide Disciplined;
    if n == |order| {
      assert order[..n] == order && AcquireAll(order[n..]) + rest == rest;
    } else {
      AcquireAllIsDisciplined(order, n + 1, rest);
      var l := Bucket(order[n]);
      assert LocksOf(order[..n + 1]) == LocksOf(order[..n]) + {l};
      Taking(LocksOf(order[..n]), l, AcquireAll(order[n + 1..]) + rest);
      assert order[n..][1..] == order[n + 1..];
      assert AcquireAll(order[n..]) + rest == [Acquire(l)] + (AcquireAll(order[n + 1..]) + rest);
    }
  }

  /** Every call keeps the order clients, config, state, buckets by address. */
  lemma CallIsDisciplined(c: Call, rest: seq<Action>)
    requires WellMade(c) && Disciplined({}, rest)
    ensures Disciplined({}, ProgramOf(c) + rest)
  {
    hide Disciplined;
    match c
    case Admit(sweep, target, bucket) => AdmitIsDisciplined(sweep, Visit(target, bucket), rest);
    case RecordAuthFailure(sweep, target) => AuthFailureIsDisciplined(sweep, Visit(target, None), rest);
    case DropPermit(state) => StateIsDisciplined({}, Visit(state, None), rest);
    case UpdateConfig(states) => UpdateIsDisciplined(states, rest);
    case Reserve(buckets) => ReserveIsDisciplined(buckets, rest);
    case Police(order) =>
      ReleaseAllIsDisciplined(order, rest);
      AcquireAllIsDisciplined(order, 0, ReleaseAll(order) + rest);
      assert order[0..] == order && LocksOf(order[..0]) == {};
      assert ProgramOf(c) + rest == AcquireAll(order) + (ReleaseAll(order) + rest);
  }

  lemma CheckoutIsDisciplined(sweep: seq<Visit>, v: Visit, rest: seq<Action>)
    requires Disciplined({}, rest)
    ensures Disciplined({Clients}, Checkout(sweep, v) + rest)
  {
    hide Disciplined, Sweep, WithState;
    Giving({}, Clients, rest);
    assert {} + {Clients} == {Clients};
    StateIsDisciplined({Clients}, v, [Release(Clients)] + rest);
    SweepIsDisciplined({Clients}, sweep, WithState(v) + ([Release(Clients)] + rest));
    assert Checkout(sweep, v) + rest == Sweep(sweep) + (WithState(v) + ([Release(Clients)] + rest));
  }

  lemma ThreeThen(a: Action, b: Action, c: Action, tail: seq<Action>, rest: seq<Action>)
    ensures ([a, b, c] + tail) + rest == [a] + ([b] + ([c] + (tail + rest)))
  {
  }

  lemma FourThen(a: Action, b: Action, c: Action, d: Action, tail: seq<Action>, rest: seq<Action>)
    ensures ([a, b, c, d] + tail) + rest == [a] + ([b] + ([c] + ([d] + (tail + rest))))
  {
  }

  lemma AdmitIsDisciplined(sweep: seq<Visit>, v: Visit, rest: seq<Action>)
    requires Disciplined({}, rest)
    ensures Disciplined({}, ProgramOf(Admit(sweep, v.state, v.bucket)) + rest)
  {
    hide Disciplined, Checkout;
    var body := Checkout(sweep, v) + rest;
    CheckoutIsDisciplined(sweep, v, rest);
    assert {} + {Clients} == {Clients};
    Giving({Clients}, Config, body);
    Taking({Clients}, Config, [Release(Config)] + body);
    Taking({}, Clients, [Acquire(Config)] + ([Release(Config)] + body));
    ThreeThen(Acquire(Clients), Acquire(Config), Release(Config), Checkout(sweep, v), rest);
  }

  lemma ConfigFirst(rest: seq<Action>)
    requires Disciplined({}, rest)
    ensures Disciplined({}, [Acquire(Config)] + ([Release(Config)] + rest))
  {
    hide Disciplined;
    Giving({}, Config, rest);
    Taking({}, Config, [Release(Config)] + rest);
  }

  lemma AuthFailureIsDisciplined(sweep: seq<Visit>, v: Visit, rest: seq<Action>)
    requires Disciplined({}, rest) && v.bucket.None?
    ensures Disciplined({}, ProgramOf(RecordAuthFailure(sweep, v.state)) + rest)
  {
    hide Disciplined, Checkout;
    var body := Checkout(sweep, v) + rest;
    CheckoutIsDisciplined(sweep, v, rest);
    assert {} + {Clients} == {Clients};
    Taking({}, Clients, body);
    ConfigFirst([Acquire(Clients)] + body);
    ThreeThen(Acquire(Config), Release(Config), Acquire(Clients), Checkout(sweep, v), rest);
  }

  lemma UpdateIsDisciplined(states: seq<Visit>, rest: seq<Action>)
    requires Disciplined({}, rest)
    ensures Disciplined({}, ProgramOf(UpdateConfig(states)) + rest)
  {
    hide Disciplined, OneByOne;
    SweepIsDisciplined({}, states, rest);
    var body := OneByOne(states) + rest;
    Giving({}, Clients, body);
    Taking({}, Clients, [Release(Clients)] + body);
    ConfigFirst([Acquire(Clients)] + ([Release(Clients)] + body));
    FourThen(Acquire(Config), Release(Config), Acquire(Clients), Release(Clients), OneByOne(states), rest);
  }

  lemma {:induction false} CallsAreDisciplined(cs: seq<Call>)
    requires forall i :: 0 <= i < |cs| ==> WellMade(cs[i])
    ensures Disciplined({}, ProgramOfAll(cs))
  {
    if cs != [] {
      CallsAreDisciplined(cs[1..]);
      CallIsDisciplined(cs[0], ProgramOfAll(cs[1..]));
    }
  }

  // ---------------------------------------------------------------------------
  // Threads
  // ---------------------------------------------------------------------------

  datatype Thread = Thread(held: set<Lock>, program: seq<Action>)

  type System = map<nat, Thread>

  ghost predicate Free(s: System, l: Lock) {
    forall t :: t in s ==> l !in s[t].held
  }

  ghost predicate Initial(s: System) {
    forall t :: t in s ==>
      s[t].held == {} &&
      exists cs: seq<Call> :: (forall i :: 0 <= i < |cs| ==> WellMade(cs[i])) && s[t].program == ProgramOfAll(cs)
  }

  /** What thread `t` becomes by its next action, in any of the ways that action may go. */
  ghost predicate Moves(s: System, t: nat, after: Thread)
    requires t in s
  {
    var Thread(held, program) := s[t];
    program != [] &&
    match program[0]
    case Acquire(l) => Free(s, l) && after == Thread(held + {l}, program[1..])
    case TryAcquire(l, skip) =>
      || (Free(s, l) && after == Thread(held + {l}, program[1..]))
      || (!Free(s, l) && skip <= |program[1..]| && after == Thread(held, program[1..][skip..]))
    case Release(l) => after == Thread(held - {l}, program[1..])
  }

  ghost predicate Step(s: System, s': System) {
    exists t, after :: t in s && Moves(s, t, after) && s' == s[t := after]
  }

  ghost predicate Run(ss: seq<System>) {
    ss != [] && Initial(ss[0]) && forall i :: 0 <= i < |ss| - 1 ==> Step(ss[i], ss[i + 1])
  }

  ghost predicate Orderly(s: System) {
    && (forall t :: t in s ==> Disciplined(s[t].held, s[t].program))
    && (forall t, u, l :: t in s && u in s && l in s[t].held && l in s[u].held ==> t == u)
  }

  lemma StepKeepsOrder(s: System, s': System)
    requires Orderly(s) && Step(s, s')
    ensures Orderly(s')
  {
    var t, after :| t in s && Moves(s, t, after) && s' == s[t := after];
    assert Disciplined(s[t].held, s[t].program);
  }

  lemma {:induction false} RunKeepsOrder(ss: seq<System>, n: nat)
    requires Run(ss) && n < |ss|
    ensures Orderly(ss[n])
  {
    if n == 0 {
      forall t | t in ss[0] ensures Disciplined(ss[0][t].held, ss[0][t].program) {
        var cs: seq<Call> :|
          (forall i :: 0 <= i < |cs| ==> WellMade(cs[i])) && ss[0][t].program == ProgramOfAll(cs);
        CallsAreDisciplined(cs);
      }
    } else {
      RunKeepsOrder(ss, n - 1);
      StepKeepsOrder(ss[n - 1], ss[n]);
    }
  }

  ghost predicate Blocked(s: System, t: nat)
    requires t in s
  {
    s[t].program != [] && s[t].program[0].Acquire? && !Free(s, s[t].program[0].lock)
  }

  ghost function Wanted(s: System, t: nat): Lock
    requires t in s && Blocked(s, t)
  {
    s[t].program[0].lock
  }

  /** Thread `t` waits for a lock that thread `u` holds. */
  ghost predicate WaitsFor(s: System, t: nat, u: nat) {
    t in s && u in s && Blocked(s, t) && Wanted(s, t) in s[u].held
  }

  lemma WaitingClimbs(s: System, t: nat, u: nat)
    requires Orderly(s) && WaitsFor(s, t, u) && Blocked(s, u)
    ensures Rank(Wanted(s, t)) < Rank(Wanted(s, u))
  {
    assert Disciplined(s[u].held, s[u].program);
  }

  /** No circular wait: along any chain of waiting threads the awaited locks climb. */
  lemma {:induction false} NoCircularWait(s: System, chain: seq<nat>)
    requires Orderly(s) && |chain| > 1
    requires forall i :: 0 <= i < |chain| - 1 ==> WaitsFor(s, chain[i], chain[i + 1])
    ensures chain[0] != chain[|chain| - 1]
  {
    if chain[0] == chain[|chain| - 1] {
      assert WaitsFor(s, chain[0], chain[1]);
      ChainClimbs(s, chain, |chain| - 1);
    }
  }

  lemma {:induction false} ChainClimbs(s: System, chain: seq<nat>, n: nat)
    requires Orderly(s) && 1 <= n < |chain|
    requires forall i :: 0 <= i < |chain| - 1 ==> WaitsFor(s, chain[i], chain[i + 1])
    requires chain[n] in s && Blocked(s, chain[n])
    ensures chain[0] in s && Blocked(s, chain[0])
    ensures Rank(Wanted(s, chain[0])) < Rank(Wanted(s, chain[n]))
  {
    assert WaitsFor(s, chain[n - 1], chain[n]);
    WaitingClimbs(s, chain[n - 1], chain[n]);
    if n > 1 {
      ChainClimbs(s, chain, n - 1);
    }
  }

  /** Among blocked threads, one waits for a lock of highest rank. */
  lemma {:induction false} HighestWait(s: System, ts: set<nat>) returns (top: nat)
    requires ts != {} && forall t :: t in ts ==> t in s && Blocked(s, t)
    ensures top in ts
    ensures forall t :: t in ts ==> Rank(Wanted(s, t)) <= Rank(Wanted(s, top))
    decreases ts
  {
    top :| top in ts;
    if ts != {top} {
      var other := HighestWait(s, ts - {top});
      if Rank(Wanted(s, top)) < Rank(Wanted(s, other)) {
        top := other;
      }
    }
  }

  /** In every state of every run, if any thread is unfinished then some thread can move. */
  lemma NeverDeadlocked(ss: seq<System>, n: nat)
    requires Run(ss) && n < |ss|
    requires exists t :: t in ss[n] && ss[n][t].program != []
    ensures exists t, after :: t in ss[n] && Moves(ss[n], t, after)
  {
    var s := ss[n];
    RunKeepsOrder(ss, n);
    var t0 :| t0 in s && s[t0].program != [];
    var stuck := set t | t in s && s[t].program != [];
    assert t0 in stuck;
    if t :| t in stuck && !Blocked(s, t) {
      CanMove(s, t);
    } else {
      var top := HighestWait(s, stuck);
      var u :| u in s && Wanted(s, top) in s[u].held;
      assert Disciplined(s[u].held, s[u].program);
      assert u in stuck;
      WaitingClimbs(s, top, u);
      assert false;
    }
  }

  lemma CanMove(s: System, t: nat)
    requires Orderly(s) && t in s && s[t].program != [] && !Blocked(s, t)
    ensures exists after :: Moves(s, t, after)
  {
    assert Disciplined(s[t].held, s[t].program);
    var Thread(held, program) := s[t];
    match program[0]
    case Acquire(l) => assert Moves(s, t, Thread(held + {l}, program[1..]));
    case TryAcquire(l, skip) =>
      if Free(s, l) {
        assert Moves(s, t, Thread(held + {l}, program[1..]));
      } else {
        assert Moves(s, t, Thread(held, program[1..][skip..]));
      }
    case Release(l) => assert Moves(s, t, Thread(held - {l}, program[1..]));
  }
}
