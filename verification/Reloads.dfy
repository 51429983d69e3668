/**
 Reloads against admissions, lock section by lock section. A reload publishes the new
 limits, snapshots the table under its lock and then retunes record by record; an admission
 holds the table lock from before it reads the limits until it has used them.
 */
module Reloads {
  import opened Options
  import opened TokenBuckets
  import opened Clients

  type Ip = nat
  type Record = nat

  datatype ReloadPc =
    | Announced(cfg: RateLimits)                        // limits written, table not yet seen
    | Retuning(cfg: RateLimits, pending: set<Record>)   // records still to be reconciled

  datatype AdmitPc =
    | Locked                                            // has the table lock
    | HasRead(cfg: RateLimits)                          // has cloned the limits
    | CheckedOut(cfg: RateLimits, record: Record)       // about to decide and reconcile

  /** The bandwidth buckets of all records ever made, and which of them the table tracks. */
  datatype Sys = Sys(
    config: RateLimits,
    table: map<Ip, Record>,
    buckets: map<Record, Option<Bucket>>,
    reloads: map<nat, ReloadPc>,
    admit: Option<AdmitPc>)   // the admission that holds the table lock, if any

  datatype Event =
    | Announce(id: nat, cfg: RateLimits)
    | Snapshot(id: nat)
    | RetuneOne(id: nat, record: Record, now: real)
    | EndReload(id: nat)
    | LockTable
    | ReadConfig
    | Checkout(removed: set<Ip>, ip: Ip)       // prunes and evicts, then finds or makes the record
    | Settle(granted: bool, now: real)
    | AuthFailure(removed: set<Ip>, ip: Ip)
    | Flow(record: Record, after: Bucket)      // traffic moves tokens, never the rate

  predicate Possible(s: Sys, e: Event) {
    match e
    case Announce(id, _) => id !in s.reloads
    case Snapshot(id) => id in s.reloads && s.reloads[id].Announced? && s.admit.None?
    case RetuneOne(id, record, _) =>
      id in s.reloads && s.reloads[id].Retuning? && record in s.reloads[id].pending && record in s.buckets
    case EndReload(id) => id in s.reloads && s.reloads[id].Retuning? && s.reloads[id].pending == {}
    case LockTable => s.admit.None?
    case ReadConfig => s.admit == Some(Locked)
    case Checkout(_, _) => s.admit.Some? && s.admit.value.HasRead?
    case Settle(_, _) => s.admit.Some? && s.admit.value.CheckedOut? && s.admit.value.record in s.buckets
    case AuthFailure(_, _) => s.admit.None?
    case Flow(record, after) =>
      && record in s.buckets && s.buckets[record].Some?
      && after.rate == s.buckets[record].value.rate && after.capacity == s.buckets[record].value.capacity
  }

  function NewRecord(s: Sys): Record {
    |s.buckets|
  }

  /** The table after a sweep and the lookup of `ip`; a missing record is made without a bucket. */
  function Lookup(s: Sys, removed: set<Ip>, ip: Ip): Sys {
    var table := s.table - removed;
    if ip in table then s.(table := table)
    else s.(table := table[ip := NewRecord(s)], buckets := s.buckets[NewRecord(s) := None])
  }

  function NextSys(s: Sys, e: Event): Sys
    requires Possible(s, e)
  {
    match e
    case Announce(id, cfg) => s.(config := cfg, reloads := s.reloads[id := Announced(cfg)])
    case Snapshot(id) => s.(reloads := s.reloads[id := Retuning(s.reloads[id].cfg, s.table.Values)])
    case RetuneOne(id, record, now) =>
      var r := s.reloads[id];
      s.(buckets := s.buckets[record := ReconcileBucket(s.buckets[record], r.cfg, now)],
         reloads := s.reloads[id := r.(pending := r.pending - {record})])
    case EndReload(id) => s.(reloads := s.reloads - {id})
    case LockTable => s.(admit := Some(Locked))
    case ReadConfig => s.(admit := Some(HasRead(s.config)))
    case Checkout(removed, ip) =>
      var s' := Lookup(s, removed, ip);
      s'.(admit := Some(CheckedOut(s.admit.value.cfg, s'.table[ip])))
    case Settle(granted, now) =>
      var CheckedOut(cfg, record) := s.admit.value;
      s.(admit := None,
         buckets := if granted then s.buckets[record := ReconcileBucket(s.buckets[record], cfg, now)] else s.buckets)
    case AuthFailure(removed, ip) => Lookup(s, removed, ip)
    case Flow(record, after) => s.(buckets := s.buckets[record := Some(after)])
  }

  /** The bucket, if there is one, has the rate and burst of the configured limit. */
  predicate Carries(bandwidth: Option<Bucket>, cfg: RateLimits) {
    bandwidth.Some? ==>
      && cfg.byteRate.Some? && Proper(cfg)
      && bandwidth.value.capacity == cfg.byteRate.value.limit as real
      && bandwidth.value.rate == cfg.byteRate.value.limit as real / cfg.byteRate.value.window
  }

  /** Reconciling brings a bucket to the configured limit, except that a degenerate one is ignored. */
  lemma ReconcileCarries(bandwidth: Option<Bucket>, cfg: RateLimits, now: real)
    ensures Carries(ReconcileBucket(bandwidth, cfg, now), cfg) <==> Proper(cfg) || bandwidth.None?
  {
  }

  // ---------------------------------------------------------------------------
  // The invariant
  // ---------------------------------------------------------------------------

  ghost predicate WellFormed(s: Sys) {
    && (forall ip :: ip in s.table ==> s.table[ip] in s.buckets)
    && (forall r :: r in s.buckets ==> r < |s.buckets|)
    && (s.admit.Some? && s.admit.value.CheckedOut? ==> s.admit.value.record in s.buckets)
    && (forall id :: id in s.reloads && s.reloads[id].Retuning? ==> s.reloads[id].pending <= s.buckets.Keys)
  }

  ghost predicate Alone(s: Sys) {
    forall a, b :: a in s.reloads && b in s.reloads ==> a == b
  }

  ghost predicate Announcing(s: Sys) {
    exists id :: id in s.reloads && s.reloads[id].Announced?
  }

  ghost predicate Awaits(s: Sys, record: Record) {
    exists id :: id in s.reloads && s.reloads[id].Retuning? && record in s.reloads[id].pending
  }

  /**
   Once the table has been snapshot, whoever holds the table lock works with the current
   limits, and every tracked bucket carries them or is still to be retuned.
   */
  ghost predicate Current(s: Sys)
    requires WellFormed(s)
  {
    && Proper(s.config)
    && (forall id :: id in s.reloads ==> s.reloads[id].cfg == s.config)
    && (!Announcing(s) ==>
          && (s.admit.Some? && !s.admit.value.Locked? ==> s.admit.value.cfg == s.config)
          && (forall ip :: ip in s.table ==>
                Carries(s.buckets[s.table[ip]], s.config) || Awaits(s, s.table[ip])))
  }

  ghost predicate Inv(s: Sys) {
    WellFormed(s) && Current(s)
  }

  predicate ProperEvent(e: Event) {
    e.Announce? ==> Proper(e.cfg)
  }

  lemma NewRecordIsNew(m: map<Record, Option<Bucket>>)
    requires forall r :: r in m ==> r < |m|
    ensures |m| !in m
    ensures |m[|m| := None]| == |m| + 1
  {
    assert m[|m| := None].Keys == m.Keys + {|m|};
  }

  lemma LookupKeeps(s: Sys, removed: set<Ip>, ip: Ip)
    requires Inv(s)
    ensures Inv(Lookup(s, removed, ip)) && ip in Lookup(s, removed, ip).table
    ensures Lookup(s, removed, ip).admit == s.admit
  {
    var s' := Lookup(s, removed, ip);
    if ip !in s.table - removed {
      NewRecordIsNew(s.buckets);
    }
    forall i | i in s'.table && !Announcing(s')
      ensures Carries(s'.buckets[s'.table[i]], s'.config) || Awaits(s', s'.table[i])
    {
      assert !Announcing(s);
      if i in s.table && s'.table[i] == s.table[i] {
        assert Carries(s.buckets[s.table[i]], s.config) || Awaits(s, s.table[i]);
      }
    }
  }

  lemma RetuneKeeps(s: Sys, id: nat, record: Record, now: real)
    requires Inv(s) && Alone(s) && Possible(s, RetuneOne(id, record, now))
    ensures Inv(NextSys(s, RetuneOne(id, record, now)))
  {
    var s' := NextSys(s, RetuneOne(id, record, now));
    ReconcileCarries(s.buckets[record], s.config, now);
    hide ReconcileBucket, Carries;
    assert id in s.reloads && !Announcing(s);
    assert s'.buckets.Keys == s.buckets.Keys;
    forall ip | ip in s'.table
      ensures Carries(s'.buckets[s'.table[ip]], s'.config) || Awaits(s', s'.table[ip])
    {
      if s.table[ip] != record && !Carries(s.buckets[s.table[ip]], s.config) {
        assert Awaits(s, s.table[ip]);
        assert id in s'.reloads && s.table[ip] in s'.reloads[id].pending;
      }
    }
  }

  lemma SettleKeeps(s: Sys, granted: bool, now: real)
    requires Inv(s) && Possible(s, Settle(granted, now))
    ensures Inv(NextSys(s, Settle(granted, now)))
  {
    var s' := NextSys(s, Settle(granted, now));
    var record := s.admit.value.record;
    ReconcileCarries(s.buckets[record], s.admit.value.cfg, now);
    hide ReconcileBucket, Carries;
    assert s'.buckets.Keys == s.buckets.Keys;
    forall ip | ip in s'.table && !Announcing(s')
      ensures Carries(s'.buckets[s'.table[ip]], s'.config) || Awaits(s', s'.table[ip])
    {
      assert !Announcing(s) && s.admit.value.cfg == s.config;
      if !(granted && s.table[ip] == record) && Awaits(s, s.table[ip]) {
        assert Awaits(s', s.table[ip]);
      }
    }
  }

  lemma ReloadStepKeeps(s: Sys, e: Event)
    requires Inv(s) && Alone(s) && Possible(s, e) && ProperEvent(e) && Alone(NextSys(s, e))
    requires e.Announce? || e.Snapshot? || e.EndReload?
    ensures Inv(NextSys(s, e))
  {
    hide Carries;
    var s' := NextSys(s, e);
    match e
    case Announce(id, cfg) => assert id in s'.reloads && Announcing(s');
    case Snapshot(id) =>
      forall ip | ip in s'.table ensures Awaits(s', s'.table[ip]) {
        assert id in s'.reloads && s'.table[ip] in s'.reloads[id].pending;
      }
    case EndReload(id) =>
      forall ip | ip in s'.table ensures Carries(s'.buckets[s'.table[ip]], s'.config) {
        assert id in s.reloads && !Announcing(s);
        assert !Awaits(s, s.table[ip]);
      }
  }

  lemma PlainStepKeeps(s: Sys, e: Event)
    requires Inv(s) && Possible(s, e)
    requires e.LockTable? || e.ReadConfig? || e.Flow?
    ensures Inv(NextSys(s, e))
  {
    var s' := NextSys(s, e);
    assert e.Flow? ==> s'.buckets.Keys == s.buckets.Keys;
    assert Announcing(s') <==> Announcing(s);
    forall ip | ip in s'.table && !Announcing(s')
      ensures Carries(s'.buckets[s'.table[ip]], s'.config) || Awaits(s', s'.table[ip])
    {
      assert Carries(s.buckets[s.table[ip]], s.config) || Awaits(s, s.table[ip]);
    }
  }

  lemma CheckoutKeeps(s: Sys, removed: set<Ip>, ip: Ip)
    requires Inv(s) && Possible(s, Checkout(removed, ip))
    ensures Inv(NextSys(s, Checkout(removed, ip)))
  {
    hide Inv, Lookup;
    LookupKeeps(s, removed, ip);
    var mid := Lookup(s, removed, ip);
    TableIsKnown(mid, ip);
    HoldsRecord(mid, mid.table[ip]);
  }

  lemma TableIsKnown(s: Sys, ip: Ip)
    requires Inv(s) && ip in s.table
    ensures s.table[ip] in s.buckets
  {
  }

  /** The admission with the table lock goes on with the limits it has read. */
  lemma HoldsRecord(s: Sys, record: Record)
    requires Inv(s) && s.admit.Some? && s.admit.value.HasRead? && record in s.buckets
    ensures Inv(s.(admit := Some(CheckedOut(s.admit.value.cfg, record))))
  {
    hide Carries;
    var s' := s.(admit := Some(CheckedOut(s.admit.value.cfg, record)));
    assert Announcing(s') <==> Announcing(s);
    forall r ensures Awaits(s', r) <==> Awaits(s, r) {
    }
  }

  lemma StepKeeps(s: Sys, e: Event)
    requires Inv(s) && Alone(s) && Possible(s, e) && ProperEvent(e) && Alone(NextSys(s, e))
    ensures Inv(NextSys(s, e))
  {
    hide Inv;
    match e
    case RetuneOne(id, record, now) => RetuneKeeps(s, id, record, now);
    case Settle(granted, now) => SettleKeeps(s, granted, now);
    case Checkout(removed, ip) => CheckoutKeeps(s, removed, ip);
    case AuthFailure(removed, ip) => LookupKeeps(s, removed, ip);
    case Announce(_, _) => ReloadStepKeeps(s, e);
    case Snapshot(_) => ReloadStepKeeps(s, e);
    case EndReload(_) => ReloadStepKeeps(s, e);
    case _ => PlainStepKeeps(s, e);
  }

  // ---------------------------------------------------------------------------
  // Runs
  // ---------------------------------------------------------------------------

  predicate PossibleRun(s: Sys, es: seq<Event>)
    decreases es
  {
    es == [] || (Possible(s, es[0]) && PossibleRun(NextSys(s, es[0]), es[1..]))
  }

  function After(s: Sys, es: seq<Event>): Sys
    requires PossibleRun(s, es)
    decreases es
  {
    if es == [] then s else After(NextSys(s, es[0]), es[1..])
  }

  /** Reloads come one after the other, and only with limits the parser accepts. */
  ghost predicate OneAtATime(s: Sys, es: seq<Event>)
    requires PossibleRun(s, es)
    decreases es
  {
    Alone(s) && (es != [] ==> ProperEvent(es[0]) && OneAtATime(NextSys(s, es[0]), es[1..]))
  }

  function Start(cfg: RateLimits): Sys {
    Sys(cfg, map[], map[], map[], None)
  }

  lemma {:induction false} RunKeeps(s: Sys, es: seq<Event>)
    requires Inv(s) && PossibleRun(s, es) && OneAtATime(s, es)
    ensures Inv(After(s, es))
    decreases es
  {
    hide Inv, NextSys, Possible;
    if es != [] {
      assert OneAtATime(NextSys(s, es[0]), es[1..]);
      StepKeeps(s, es[0]);
      RunKeeps(NextSys(s, es[0]), es[1..]);
    }
  }

  /** At rest every tracked bucket carries the limits in force, and there is none if they set no byte rate. */
  ghost predicate RestsOnNewest(s: Sys) {
    s.reloads == map[] && s.admit.None? ==>
      forall ip :: ip in s.table ==>
        s.table[ip] in s.buckets && Carries(s.buckets[s.table[ip]], s.config)
        && (s.config.byteRate.None? ==> s.buckets[s.table[ip]].None?)
  }

  /**
   A stale snapshot never wins: whenever no reload and no admission is under way, every bucket
   of a tracked record carries the newest limit, and there is none if the limit was lifted.
   */
  lemma NewestLimitStands(cfg: RateLimits, es: seq<Event>)
    requires Proper(cfg) && PossibleRun(Start(cfg), es) && OneAtATime(Start(cfg), es)
    ensures RestsOnNewest(After(Start(cfg), es))
  {
    assert Inv(Start(cfg));
    hide Possible, NextSys, Carries;
    RunKeeps(Start(cfg), es);
  }

  // ---------------------------------------------------------------------------
  // Overlapping reloads
  // ---------------------------------------------------------------------------

  ghost predicate AllProper(es: seq<Event>) {
    forall i :: 0 <= i < |es| ==> ProperEvent(es[i])
  }

  lemma {:induction false} Extend(s: Sys, es: seq<Event>, e: Event)
    requires PossibleRun(s, es) && Possible(After(s, es), e)
    ensures PossibleRun(s, es + [e]) && After(s, es + [e]) == NextSys(After(s, es), e)
    ensures AllProper(es) && ProperEvent(e) ==> AllProper(es + [e])
    decreases es
  {
    hide Possible, NextSys;
    if es == [] {
      assert ([] + [e])[1..] == [];
    } else {
      assert (es + [e])[1..] == es[1..] + [e];
      Extend(NextSys(s, es[0]), es[1..], e);
    }
  }

  lemma EmptyRun(s: Sys)
    ensures PossibleRun(s, []) && After(s, []) == s && AllProper([])
  {
  }

  /** An admission has put a client on record 0. */
  lemma OneClient(cfg: RateLimits, ip: Ip, now: real) returns (es: seq<Event>)
    ensures PossibleRun(Start(cfg), es) && AllProper(es)
    ensures After(Start(cfg), es) == Sys(cfg, map[ip := 0], map[0 := ReconcileBucket(None, cfg, now)], map[], None)
  {
    hide PossibleRun, After, ReconcileBucket, AllProper;
    es := [];
    EmptyRun(Start(cfg));
    Extend(Start(cfg), es, LockTable);
    Extend(Start(cfg), es + [LockTable], ReadConfig);
    es := es + [LockTable] + [ReadConfig];
    Extend(Start(cfg), es, Checkout({}, ip));
    es := es + [Checkout({}, ip)];
    assert After(Start(cfg), es).buckets == map[0 := None];
    Extend(Start(cfg), es, Settle(true, now));
    es := es + [Settle(true, now)];
  }

  /** Two reloads have each seen the table, and record 0 is pending for both. */
  lemma TwoSnapshots(s0: Sys, es0: seq<Event>, ip: Ip, older: RateLimits, newer: RateLimits) returns (es: seq<Event>)
    requires PossibleRun(s0, es0) && After(s0, es0).reloads == map[] && After(s0, es0).admit.None?
    requires After(s0, es0).table == map[ip := 0] && AllProper(es0) && Proper(older) && Proper(newer)
    ensures PossibleRun(s0, es) && AllProper(es)
    ensures After(s0, es) == After(s0, es0).(
              config := newer,
              reloads := map[1 := Retuning(older, {0}), 2 := Retuning(newer, {0})])
  {
    hide PossibleRun, After, AllProper;
    var table: map<Ip, Record> := map[ip := 0];
    assert table[ip] == 0 && table.Values == {0};
    es := es0;
    Extend(s0, es, Announce(1, older));
    es := es + [Announce(1, older)];
    Extend(s0, es, Snapshot(1));
    es := es + [Snapshot(1)];
    Extend(s0, es, Announce(2, newer));
    es := es + [Announce(2, newer)];
    Extend(s0, es, Snapshot(2));
    es := es + [Snapshot(2)];
  }

  /** The newer reload finishes first, and the older one retunes last. */
  lemma OlderFinishesLast(s0: Sys, es0: seq<Event>, older: RateLimits, newer: RateLimits, now: real)
    returns (es: seq<Event>)
    requires PossibleRun(s0, es0) && After(s0, es0).admit.None? && After(s0, es0).buckets.Keys == {0}
    requires After(s0, es0).reloads == map[1 := Retuning(older, {0}), 2 := Retuning(newer, {0})] && AllProper(es0)
    ensures PossibleRun(s0, es) && AllProper(es)
    ensures var s := After(s0, es0);
            var newest := ReconcileBucket(s.buckets[0], newer, now);
            After(s0, es) == s.(reloads := map[], buckets := map[0 := ReconcileBucket(newest, older, now)])
  {
    hide PossibleRun, After, ReconcileBucket, AllProper;
    es := es0;
    Extend(s0, es, RetuneOne(2, 0, now));
    es := es + [RetuneOne(2, 0, now)];
    Extend(s0, es, EndReload(2));
    es := es + [EndReload(2)];
    assert After(s0, es).reloads == map[1 := Retuning(older, {0})];
    Extend(s0, es, RetuneOne(1, 0, now));
    es := es + [RetuneOne(1, 0, now)];
    Extend(s0, es, EndReload(1));
    es := es + [EndReload(1)];
    assert After(s0, es).reloads == map[];
  }

  /**
   With two reloads at once the older one may retune last: for any proper limits there is a run
   at whose end the newer limits are in force and the bucket carries the older ones. It then
   fails to carry the newer exactly when the older byte rate is a limit and the newer is not
   the same.
   */
  lemma OverlappingReloadsMayRevert(first: RateLimits, older: RateLimits, newer: RateLimits, ip: Ip, now: real)
    returns (es: seq<Event>)
    requires Proper(first) && Proper(older) && Proper(newer)
    ensures PossibleRun(Start(first), es) && AllProper(es)
    ensures var s := After(Start(first), es);
            && s.reloads == map[] && s.admit.None? && s.config == newer
            && s.table == map[ip := 0] && 0 in s.buckets && Carries(s.buckets[0], older)
            && (!Carries(s.buckets[0], newer) <==> older.byteRate.Some? && newer.byteRate != older.byteRate)
  {
    hide PossibleRun, After, AllProper;
    var s0 := Start(first);
    es := OneClient(first, ip, now);
    var b := ReconcileBucket(None, first, now);
    es := TwoSnapshots(s0, es, ip, older, newer);
    es := OlderFinishesLast(s0, es, older, newer, now);
    CarriesTheLast(ReconcileBucket(b, newer, now), older, newer, now);
  }

  /** A bucket reconciled with proper limits carries those and no others. */
  lemma CarriesTheLast(bandwidth: Option<Bucket>, older: RateLimits, newer: RateLimits, now: real)
    requires Proper(older) && Proper(newer)
    ensures var b := ReconcileBucket(bandwidth, older, now);
            && Carries(b, older)
            && (!Carries(b, newer) <==> older.byteRate.Some? && newer.byteRate != older.byteRate)
  {
    var b := ReconcileBucket(bandwidth, older, now);
    ReconcileCarries(bandwidth, older, now);
    if older.byteRate.Some? && newer.byteRate.Some? && newer.byteRate != older.byteRate {
      var o, n := older.byteRate.value, newer.byteRate.value;
      if o.limit == n.limit {
        RatesDiffer(o.limit as real, o.window, n.window);
      }
    }
  }

  lemma RatesDiffer(x: real, v: real, w: real)
    requires x > 0.0 && v > 0.0 && w > 0.0 && v != w
    ensures x / v != x / w
  {
    assert x / v * v == x && x / w * w == x;
  }

  /** Runs with limits the parser accepts, with or without overlapping reloads. */
  ghost predicate Reloading(cfg: RateLimits, es: seq<Event>, overlap: bool) {
    PossibleRun(Start(cfg), es) && AllProper(es) && (overlap || OneAtATime(Start(cfg), es))
  }

  /** The exact condition: all runs come to rest on the newest limits if and only if reloads do not overlap. */
  lemma NewestLimitStandsIff(cfg: RateLimits, overlap: bool)
    requires Proper(cfg)
    ensures (forall es :: Reloading(cfg, es, overlap) ==> RestsOnNewest(After(Start(cfg), es))) <==> !overlap
  {
    hide PossibleRun, After, OneAtATime, AllProper;
    if overlap {
      var older := RateLimits(None, None, None, Some(RateLimit(1, 1.0)));
      var newer := RateLimits(None, None, None, Some(RateLimit(2, 1.0)));
      var es := OverlappingReloadsMayRevert(cfg, older, newer, 0, 0.0);
      assert Reloading(cfg, es, overlap);
      var s := After(Start(cfg), es);
      assert 0 in s.table && s.table[0] == 0 && !Carries(s.buckets[0], s.config);
      hide Carries;
      assert !RestsOnNewest(s);
    } else {
      forall es | Reloading(cfg, es, overlap) ensures RestsOnNewest(After(Start(cfg), es)) {
        NewestLimitStands(cfg, es);
      }
    }
  }
}
