/**
 Whole histories of one client address: admissions, failures, disconnects, charges, sweeps,
 evictions and reloads in any order. The record may be dropped from the table and made anew
 any number of times; what the limits promise has to survive that.
 */
module ClientRuns {
  import opened Options
  import opened TokenBuckets
  import opened Clients

  datatype Event =
    | Admit(now: real, cfg: RateLimits)
    | AuthFailure(now: real, cfg: RateLimits)
    | Disconnect                                                        // a permit is dropped
    | Sweep(now: real, cfg: RateLimits, stateBusy: bool, bucketBusy: bool)
    | Evict                                                             // the table was full
    | Flow(bytes: nat, now: real, police: bool)                         // bytes of a live connection
    | Reload(now: real, cfg: RateLimits)

  type Slot = Option<Client>

  function CheckedOut(s: Slot, now: real): Client {
    if s.Some? then s.value else NewClient(now)
  }

  function NextSlot(s: Slot, e: Event): Slot {
    match e
    case Admit(now, cfg) => Some(Attempt(CheckedOut(s, now), cfg, now).1)
    case AuthFailure(now, cfg) => Some(CountAuthFailure(CheckedOut(s, now), cfg, now))
    case Disconnect => if s.Some? then Some(Dropped(s.value)) else s
    case Sweep(now, cfg, stateBusy, bucketBusy) =>
      if s.None? || stateBusy then s
      else if Expired(s.value, cfg, now, bucketBusy) then None
      else Some(Examined(s.value, cfg, now, bucketBusy))
    case Evict => None
    case Flow(bytes, now, police) =>
      if s.Some? && s.value.bandwidth.Some? then
        Some(s.value.(bandwidth := Some(Next(s.value.bandwidth.value, Charging(e)))))
      else s
    case Reload(now, cfg) => if s.Some? then Some(Reconcile(s.value, cfg, now)) else s
  }

  function Charging(e: Event): TokenBuckets.Event
    requires e.Flow?
  {
    if e.police then Police(e.bytes, e.now) else Shape(e.bytes, e.now)
  }

  predicate Succeeds(s: Slot, e: Event) {
    e.Admit? && Attempt(CheckedOut(s, e.now), e.cfg, e.now).0.None?
  }

  /**
   What can happen when: readings under the table lock never go back, only idle records are
   evicted, and only a live connection disconnects or moves bytes.
   */
  ghost predicate Possible(s: Slot, live: nat, clock: real, e: Event) {
    match e
    case Admit(now, _) => clock <= now
    case AuthFailure(now, _) => clock <= now
    case Sweep(now, _, _, _) => clock <= now
    case Disconnect => live > 0
    case Flow(_, _, _) => live > 0
    case Evict => s.Some? && s.value.active == 0
    case Reload(_, _) => true
  }

  function ClockAfter(clock: real, e: Event): real {
    if e.Admit? || e.AuthFailure? || e.Sweep? then e.now else clock
  }

  /** Everything about a history that the limits speak of. */
  datatype Account = Account(
    slot: Slot,
    clock: real,             // the last reading under the table lock
    live: nat,               // permits handed out and not yet dropped
    admitted: seq<real>,     // when connections were admitted
    charged: nat,            // bytes charged to the client
    paid: real,              // buckets given up so far are covered by what was earned up to here
    behind: real)            // how far, in all, new buckets were started before that

  /** The bytes an event charges. */
  function ChargeOf(s: Slot, e: Event): nat {
    if e.Flow? && s.Some? && s.value.bandwidth.Some? then Charge(s.value.bandwidth.value, Charging(e)) else 0
  }

  function BucketOf(s: Slot): Option<Bucket> {
    if s.Some? then s.value.bandwidth else None
  }

  ghost function NextAccount(a: Account, e: Event): Account
    requires Possible(a.slot, a.live, a.clock, e)
  {
    var s' := NextSlot(a.slot, e);
    var ok := Succeeds(a.slot, e);
    Account(
      s',
      ClockAfter(a.clock, e),
      if ok then a.live + 1 else if e.Disconnect? then a.live - 1 else a.live,
      if ok then a.admitted + [e.now] else a.admitted,
      a.charged + ChargeOf(a.slot, e),
      if BucketOf(a.slot).Some? && BucketOf(s').None? then
        (if e.Sweep? then Refilled(BucketOf(a.slot).value, e.now).last else BucketOf(a.slot).value.last)
      else a.paid,
      if BucketOf(a.slot).None? && BucketOf(s').Some? then a.behind + Max(0.0, a.paid - e.now) else a.behind)
  }

  ghost predicate PossibleRun(a: Account, es: seq<Event>)
    decreases es
  {
    es == [] || (Possible(a.slot, a.live, a.clock, es[0]) && PossibleRun(NextAccount(a, es[0]), es[1..]))
  }

  ghost function AccountAfter(a: Account, es: seq<Event>): Account
    requires PossibleRun(a, es)
    decreases es
  {
    if es == [] then a else AccountAfter(NextAccount(a, es[0]), es[1..])
  }

  function Opened(start: real): Account {
    Account(None, start, 0, [], 0, start, 0.0)
  }

  // ---------------------------------------------------------------------------
  // Permits are conserved
  // ---------------------------------------------------------------------------

  ghost predicate Counted(a: Account) {
    a.live == if a.slot.Some? then a.slot.value.active else 0
  }

  lemma StepCounts(a: Account, e: Event)
    requires Counted(a) && Possible(a.slot, a.live, a.clock, e)
    ensures Counted(NextAccount(a, e))
  {
    hide FromRateWindow, Retuned, Next, IncrementWindow, IsLimitExceeded, Refilled, WindowIsPrunable;
  }

  /** In every history the record counts exactly the live permits, and with no record there are none. */
  lemma {:induction false} PermitsAreCounted(a: Account, es: seq<Event>)
    requires Counted(a) && PossibleRun(a, es)
    ensures Counted(AccountAfter(a, es))
    decreases es
  {
    if es != [] {
      StepCounts(a, es[0]);
      hide NextAccount;
      PermitsAreCounted(NextAccount(a, es[0]), es[1..]);
    }
  }

  ghost predicate ConcurrencyFixed(es: seq<Event>, limit: nat) {
    forall i :: 0 <= i < |es| && es[i].Admit? ==> es[i].cfg.concurrentConnections == Some(limit)
  }

  lemma StepKeepsConcurrency(a: Account, e: Event, limit: nat)
    requires Counted(a) && a.live <= limit && Possible(a.slot, a.live, a.clock, e)
    requires e.Admit? ==> e.cfg.concurrentConnections == Some(limit)
    ensures NextAccount(a, e).live <= limit
  {
    hide NextSlot, Reconcile, IncrementWindow, IsLimitExceeded;
  }

  /** Under a fixed limit an address never has more live permits than that. */
  lemma {:induction false} ConcurrencyHolds(a: Account, es: seq<Event>, limit: nat)
    requires Counted(a) && a.live <= limit && PossibleRun(a, es) && ConcurrencyFixed(es, limit)
    ensures AccountAfter(a, es).live <= limit
    decreases es
  {
    if es != [] {
      StepCounts(a, es[0]);
      StepKeepsConcurrency(a, es[0], limit);
      hide NextAccount, Counted;
      ConcurrencyHolds(NextAccount(a, es[0]), es[1..], limit);
    }
  }

  // ---------------------------------------------------------------------------
  // The connection rate
  // ---------------------------------------------------------------------------

  ghost function Count(ts: seq<real>, p: real -> bool): nat {
    if ts == [] then 0 else Count(ts[..|ts| - 1], p) + (if p(ts[|ts| - 1]) then 1 else 0)
  }

  lemma {:induction false} CountCovered(ts: seq<real>, p: real -> bool, q: real -> bool, r: real -> bool)
    requires forall x :: x in ts && p(x) ==> q(x) || r(x)
    ensures Count(ts, p) <= Count(ts, q) + Count(ts, r)
  {
    if ts != [] {
      CountCovered(ts[..|ts| - 1], p, q, r);
      var last := ts[|ts| - 1];
      assert last in ts && (p(last) ==> q(last) || r(last));
    }
  }

  lemma {:induction false} CountNothing(ts: seq<real>, p: real -> bool)
    ensures Count(ts, p) == 0 <==> forall x :: x in ts ==> !p(x)
  {
    if ts != [] {
      CountNothing(ts[..|ts| - 1], p);
      assert forall x :: x in ts <==> x in ts[..|ts| - 1] || x == ts[|ts| - 1];
    }
  }

  lemma CountMore(ts: seq<real>, x: real, p: real -> bool)
    ensures Count(ts + [x], p) == Count(ts, p) + (if p(x) then 1 else 0)
  {
    assert (ts + [x])[..|ts|] == ts;
  }

  ghost function From(lo: real): real -> bool {
    x => lo <= x
  }

  ghost function Above(lo: real): real -> bool {
    x => lo < x
  }

  ghost function Between(lo: real, hi: real): real -> bool {
    x => lo < x < hi
  }

  /** The half-open interval of one window length from `t`. */
  ghost function During(t: real, length: real): real -> bool {
    x => t <= x < t + length
  }

  /** How the current window, or the lack of one, accounts for the admissions so far. */
  ghost predicate Windowed(a: Account, limit: RateLimit) {
    && (forall x :: x in a.admitted ==> x <= a.clock)
    && (if a.slot.Some? then
          var w := a.slot.value.connections;
          && w.started <= a.clock
          && (forall x :: x in a.admitted ==> x < w.started + limit.window)
          && Count(a.admitted, From(w.started)) <= w.count
          && Count(a.admitted, From(w.started)) <= limit.limit
          && Count(a.admitted, Between(w.started - limit.window, w.started)) <= limit.limit
        else
          && (forall x :: x in a.admitted ==> x < a.clock)
          && Count(a.admitted, Above(a.clock - limit.window)) <= limit.limit)
  }

  /** No window length of time holds more than two limits' worth. */
  ghost predicate Bounded(a: Account, limit: RateLimit) {
    forall t: real :: Count(a.admitted, During(t, limit.window)) <= 2 * limit.limit
  }

  ghost predicate RateSet(e: Event, limit: RateLimit) {
    e.Admit? || e.Sweep? ==> e.cfg.connectionRate == Some(limit)
  }

  ghost predicate RateFixed(e: Event, limit: RateLimit) {
    !e.Evict? && RateSet(e, limit)
  }

  /** The window as the table has it at `now`, before any admission: current, reset or brand new. */
  lemma WindowReady(a: Account, limit: RateLimit, now: real) returns (w: Window)
    requires Windowed(a, limit) && a.clock <= now && limit.window > 0.0
    ensures w == ResetIfExpired(CheckedOut(a.slot, now).connections, limit, now)
    ensures w.started <= now < w.started + limit.window
    ensures forall x :: x in a.admitted ==> x < w.started + limit.window
    ensures Count(a.admitted, From(w.started)) <= w.count
    ensures Count(a.admitted, From(w.started)) <= limit.limit
    ensures Count(a.admitted, Between(w.started - limit.window, w.started)) <= limit.limit
  {
    var prev := CheckedOut(a.slot, now).connections;
    w := ResetIfExpired(prev, limit, now);
    if a.slot.Some? && w == prev && !WindowOver(prev, limit, now) {
      return;
    }
    assert w.started == now && w.count == 0;
    assert forall x :: x in a.admitted ==> x < now;
    CountNothing(a.admitted, From(now));
    var late := if a.slot.Some? then From(prev.started) else Above(a.clock - limit.window);
    CountCovered(a.admitted, Between(now - limit.window, now), late, x => false);
    CountNothing(a.admitted, x => false);
  }

  lemma AdmitKeepsWindow(a: Account, limit: RateLimit, e: Event)
    requires Windowed(a, limit) && limit.window > 0.0 && limit.limit < U64_MAX
    requires e.Admit? && e.cfg.connectionRate == Some(limit) && a.clock <= e.now
    ensures Windowed(NextAccount(a, e), limit)
  {
    hide *;
    if Succeeds(a.slot, e) {
      AdmissionKeepsWindow(a, limit, e);
    } else {
      DenialKeepsWindow(a, limit, e);
    }
  }

  lemma AdmissionKeepsWindow(a: Account, limit: RateLimit, e: Event)
    requires Windowed(a, limit) && limit.window > 0.0 && limit.limit < U64_MAX
    requires e.Admit? && e.cfg.connectionRate == Some(limit) && a.clock <= e.now && Succeeds(a.slot, e)
    ensures Windowed(NextAccount(a, e), limit)
  {
    hide Attempt;
    var now := e.now;
    var w := WindowReady(a, limit, now);
    AttemptCounts(CheckedOut(a.slot, now), e.cfg, now, limit);
    hide ResetIfExpired, Count;
    CountMore(a.admitted, now, From(w.started));
    CountMore(a.admitted, now, Between(w.started - limit.window, w.started));
  }

  lemma DenialKeepsWindow(a: Account, limit: RateLimit, e: Event)
    requires Windowed(a, limit) && limit.window > 0.0 && limit.limit < U64_MAX
    requires e.Admit? && e.cfg.connectionRate == Some(limit) && a.clock <= e.now && !Succeeds(a.slot, e)
    ensures Windowed(NextAccount(a, e), limit)
  {
    hide Attempt, Count;
    var now := e.now;
    var w := WindowReady(a, limit, now);
    AttemptCounts(CheckedOut(a.slot, now), e.cfg, now, limit);
    hide ResetIfExpired;
    if a.slot.None? {
      WindowOfNewClient(limit, now);
    }
  }

  lemma AdmitKeepsBound(a: Account, limit: RateLimit, e: Event)
    requires Windowed(a, limit) && Bounded(a, limit) && limit.window > 0.0 && limit.limit < U64_MAX
    requires e.Admit? && e.cfg.connectionRate == Some(limit) && a.clock <= e.now
    ensures Bounded(NextAccount(a, e), limit)
  {
    hide Attempt;
    var now := e.now;
    var w := WindowReady(a, limit, now);
    AttemptCounts(CheckedOut(a.slot, now), e.cfg, now, limit);
    hide ResetIfExpired;
    if Succeeds(a.slot, e) {
      AdmissionKeepsBound(a, limit, now, w);
    }
  }

  lemma WindowOfNewClient(limit: RateLimit, now: real)
    ensures ResetIfExpired(NewClient(now).connections, limit, now) == NewClient(now).connections
  {
  }

  /** An admission is one count below the limit; a denial leaves the window or counts in it as well. */
  lemma AttemptCounts(c: Client, cfg: RateLimits, now: real, limit: RateLimit)
    requires cfg.connectionRate == Some(limit) && limit.limit < U64_MAX
    ensures var (denial, c') := Attempt(c, cfg, now);
            var w := ResetIfExpired(c.connections, limit, now);
            && (denial.None? ==> w.count < limit.limit && c'.connections == w.(count := w.count + 1))
            && (denial.Some? ==> c'.connections == c.connections
                                 || (c'.connections.started == w.started && c'.connections.count >= w.count))
  {
    hide FromRateWindow, Retuned, ResetIfExpired, IsLimitExceeded;
  }

  /** The interval argument: an interval ending after `now` meets only this window and the one before. */
  lemma AdmissionKeepsBound(a: Account, limit: RateLimit, now: real, w: Window)
    requires Bounded(a, limit) && (forall x :: x in a.admitted ==> x <= now)
    requires w.started <= now < w.started + limit.window
    requires Count(a.admitted, From(w.started)) < limit.limit
    requires Count(a.admitted, Between(w.started - limit.window, w.started)) <= limit.limit
    ensures forall t: real :: Count(a.admitted + [now], During(t, limit.window)) <= 2 * limit.limit
  {
    forall t: real ensures Count(a.admitted + [now], During(t, limit.window)) <= 2 * limit.limit {
      CountMore(a.admitted, now, During(t, limit.window));
      if During(t, limit.window)(now) {
        CountCovered(a.admitted, During(t, limit.window), From(w.started),
                     Between(w.started - limit.window, w.started));
      } else {
        assert Count(a.admitted, During(t, limit.window)) <= 2 * limit.limit;
      }
    }
  }

  lemma SweepKeepsWindow(a: Account, limit: RateLimit, e: Event)
    requires Windowed(a, limit) && limit.window > 0.0
    requires e.Sweep? && e.cfg.connectionRate == Some(limit) && a.clock <= e.now
    ensures Windowed(NextAccount(a, e), limit) && NextAccount(a, e).admitted == a.admitted
  {
    hide IsFull, Refilled;
    var now, a' := e.now, NextAccount(a, e);
    if a'.slot.None? {
      CountNothing(a.admitted, x => false);
      if a.slot.None? {
        CountCovered(a.admitted, Above(now - limit.window), Above(a.clock - limit.window), x => false);
      } else {
        var w := a.slot.value.connections;
        assert WindowIsPrunable(w, Some(limit), now);
        CountNothing(a.admitted, From(w.started));
        var before := Between(w.started - limit.window, w.started);
        CountCovered(a.admitted, Above(now - limit.window), From(w.started),
                     if w.count == 0 then before else (x => false));
      }
    }
  }

  lemma QuietKeepsWindow(a: Account, limit: RateLimit, e: Event)
    requires Windowed(a, limit) && limit.window > 0.0 && Possible(a.slot, a.live, a.clock, e)
    requires !e.Admit? && !e.Sweep? && !e.Evict?
    ensures Windowed(NextAccount(a, e), limit) && NextAccount(a, e).admitted == a.admitted
  {
    hide FromRateWindow, Retuned, Next, IncrementWindow;
    if e.AuthFailure? && a.slot.None? {
      var w := NextAccount(a, e).slot.value.connections;
      CountNothing(a.admitted, From(w.started));
      CountNothing(a.admitted, x => false);
      CountCovered(a.admitted, Between(w.started - limit.window, w.started),
                   Above(a.clock - limit.window), x => false);
    }
  }

  /**
   In every history without eviction, with the connection rate fixed, any stretch of time as
   long as the window holds at most twice the limit of admissions.
   */
  lemma {:induction false} AtMostTwiceTheLimit(a: Account, es: seq<Event>, limit: RateLimit)
    requires Windowed(a, limit) && Bounded(a, limit) && limit.window > 0.0 && limit.limit < U64_MAX
    requires PossibleRun(a, es) && forall i :: 0 <= i < |es| ==> RateFixed(es[i], limit)
    ensures Bounded(AccountAfter(a, es), limit)
    decreases es
  {
    if es != [] {
      var e := es[0];
      if e.Admit? {
        AdmitKeepsWindow(a, limit, e);
        AdmitKeepsBound(a, limit, e);
      } else if e.Sweep? {
        SweepKeepsWindow(a, limit, e);
      } else {
        QuietKeepsWindow(a, limit, e);
      }
      hide NextAccount, Windowed;
      AtMostTwiceTheLimit(NextAccount(a, e), es[1..], limit);
    }
  }

  /** The bound from the first moment on. */
  lemma ConnectionRateHolds(start: real, es: seq<Event>, limit: RateLimit, t: real)
    requires limit.limit < U64_MAX
    requires PossibleRun(Opened(start), es) && forall i :: 0 <= i < |es| ==> RateFixed(es[i], limit)
    ensures Count(AccountAfter(Opened(start), es).admitted, During(t, limit.window)) <= 2 * limit.limit
  {
    if limit.window > 0.0 {
      AtMostTwiceTheLimit(Opened(start), es, limit);
    } else {
      CountNothing(AccountAfter(Opened(start), es).admitted, During(t, limit.window));
    }
  }

  lemma {:induction false} RunsCompose(a: Account, es: seq<Event>, fs: seq<Event>)
    requires PossibleRun(a, es) && PossibleRun(AccountAfter(a, es), fs)
    ensures PossibleRun(a, es + fs) && AccountAfter(a, es + fs) == AccountAfter(AccountAfter(a, es), fs)
    decreases es
  {
    hide NextAccount, Possible;
    if es == [] {
      assert es + fs == fs;
    } else {
      assert (es + fs)[1..] == es[1..] + fs;
      RunsCompose(NextAccount(a, es[0]), es[1..], fs);
    }
  }

  /** Only the connection rate is limited. */
  function OnlyConnections(limit: RateLimit): RateLimits {
    RateLimits(Some(limit), None, None, None)
  }

  /** Connect, disconnect, and have the record evicted. */
  function Visit(limit: RateLimit, now: real): seq<Event> {
    [Admit(now, OnlyConnections(limit)), Disconnect, Evict]
  }

  function Visits(n: nat, limit: RateLimit, now: real): seq<Event> {
    if n == 0 then [] else Visits(n - 1, limit, now) + Visit(limit, now)
  }

  lemma VisitForgets(a: Account, limit: RateLimit)
    requires a.slot.None? && a.live == 0 && limit.limit >= 1 && limit.window > 0.0
    ensures PossibleRun(a, Visit(limit, a.clock))
    ensures var a' := AccountAfter(a, Visit(limit, a.clock));
            a'.slot.None? && a'.live == 0 && a'.clock == a.clock && a'.admitted == a.admitted + [a.clock]
  {
    var now, cfg := a.clock, OnlyConnections(limit);
    var es := Visit(limit, now);
    var a1 := NextAccount(a, es[0]);
    assert Attempt(NewClient(now), cfg, now) == (None, NewClient(now).(connections := Window(now, 1), active := 1));
    var a2 := NextAccount(a1, Disconnect);
    assert es[1..] == [Disconnect, Evict] && es[1..][1..] == [Evict] && [Evict][1..] == [];
    hide NextAccount;
    assert PossibleRun(a2, [Evict]) && PossibleRun(a1, [Disconnect, Evict]);
  }

  /** Without the rule against eviction there is no bound at all: any number fits into one instant. */
  lemma {:induction false} EvictionLiftsTheBound(limit: RateLimit, n: nat, start: real)
    requires limit.limit >= 1 && limit.window > 0.0
    ensures var es := Visits(n, limit, start);
            && PossibleRun(Opened(start), es)
            && (forall i :: 0 <= i < |es| ==> RateSet(es[i], limit))
            && var a := AccountAfter(Opened(start), es);
               && a.slot.None? && a.live == 0 && a.clock == start
               && Count(a.admitted, During(start, limit.window)) == n
  {
    hide NextAccount, Possible, PossibleRun, AccountAfter, Visit;
    if n == 0 {
      NothingYet(start);
    } else {
      EvictionLiftsTheBound(limit, n - 1, start);
      var es := Visits(n - 1, limit, start);
      var a := AccountAfter(Opened(start), es);
      VisitForgets(a, limit);
      RunsCompose(Opened(start), es, Visit(limit, start));
      CountMore(a.admitted, start, During(start, limit.window));
      VisitIsSet(limit, start);
    }
  }

  lemma NothingYet(start: real)
    ensures PossibleRun(Opened(start), []) && AccountAfter(Opened(start), []) == Opened(start)
  {
  }

  lemma VisitIsSet(limit: RateLimit, now: real)
    ensures forall i :: 0 <= i < |Visit(limit, now)| ==> RateSet(Visit(limit, now)[i], limit)
  {
  }

  /** Connections at one instant, none of them closed. */
  function Burst(n: nat, limit: RateLimit, now: real): (es: seq<Event>)
    ensures |es| == n && forall i :: 0 <= i < n ==> es[i] == Admit(now, OnlyConnections(limit))
  {
    seq(n, i requires 0 <= i < n => Admit(now, OnlyConnections(limit)))
  }

  /** At the largest limit nothing is ever denied, and there is no bound either. */
  lemma {:induction false} LargestLimitLiftsTheBound(limit: RateLimit, n: nat, start: real)
    requires limit.limit == U64_MAX && limit.window > 0.0
    ensures var es := Burst(n, limit, start);
            && PossibleRun(Opened(start), es)
            && var a := AccountAfter(Opened(start), es);
               a.clock == start && Count(a.admitted, During(start, limit.window)) == n
  {
    hide NextAccount, Possible, PossibleRun, AccountAfter;
    if n == 0 {
      NothingYet(start);
    } else {
      LargestLimitLiftsTheBound(limit, n - 1, start);
      var es, e := Burst(n - 1, limit, start), Admit(start, OnlyConnections(limit));
      var a := AccountAfter(Opened(start), es);
      AlwaysAdmitted(a, limit);
      RunsCompose(Opened(start), es, [e]);
      assert Burst(n, limit, start) == es + [e];
      CountMore(a.admitted, start, During(start, limit.window));
    }
  }

  lemma AlwaysAdmitted(a: Account, limit: RateLimit)
    requires limit.limit == U64_MAX
    ensures var e := Admit(a.clock, OnlyConnections(limit));
            && PossibleRun(a, [e])
            && var a' := AccountAfter(a, [e]);
               a'.clock == a.clock && a'.admitted == a.admitted + [a.clock]
  {
    var e := Admit(a.clock, OnlyConnections(limit));
    LargestLimitNeverDenies(CheckedOut(a.slot, a.clock).connections, limit, a.clock);
    hide IncrementWindow;
    var a' := NextAccount(a, e);
    assert [e][1..] == [];
    assert AccountAfter(a, [e]) == AccountAfter(a', []);
  }

  /** A limit of zero admits nobody, whatever else happens. */
  lemma {:induction false} ZeroAdmitsNobody(a: Account, es: seq<Event>, limit: RateLimit)
    requires limit.limit == 0 && a.admitted == [] && PossibleRun(a, es)
    requires forall i :: 0 <= i < |es| ==> RateSet(es[i], limit)
    ensures AccountAfter(a, es).admitted == []
    decreases es
  {
    if es != [] {
      if es[0].Admit? {
        AttemptCounts(CheckedOut(a.slot, es[0].now), es[0].cfg, es[0].now, limit);
      }
      hide Attempt;
      ZeroAdmitsNobody(NextAccount(a, es[0]), es[1..], limit);
    }
  }

  /** A history of an address under this connection rate, with or without evictions. */
  ghost predicate RateHistory(es: seq<Event>, limit: RateLimit, start: real, evictions: bool) {
    && PossibleRun(Opened(start), es)
    && forall i :: 0 <= i < |es| ==> RateSet(es[i], limit) && (evictions || !es[i].Evict?)
  }

  ghost predicate TwiceTheLimit(es: seq<Event>, limit: RateLimit, start: real)
    requires PossibleRun(Opened(start), es)
  {
    forall t: real :: Count(AccountAfter(Opened(start), es).admitted, During(t, limit.window)) <= 2 * limit.limit
  }

  /**
   The exact condition: every history keeps twice the limit in every window length if and only
   if nothing is evicted and the limit is not the largest, trivial limits and windows apart.
   */
  lemma ConnectionRateHoldsIff(limit: RateLimit, start: real, evictions: bool)
    ensures (forall es :: RateHistory(es, limit, start, evictions) ==> TwiceTheLimit(es, limit, start))
            <==> limit.limit == 0 || limit.window <= 0.0 || (!evictions && limit.limit < U64_MAX)
  {
    hide PossibleRun, AccountAfter;
    var holds := limit.limit == 0 || limit.window <= 0.0 || (!evictions && limit.limit < U64_MAX);
    if holds {
      forall es, t: real | RateHistory(es, limit, start, evictions)
        ensures Count(AccountAfter(Opened(start), es).admitted, During(t, limit.window)) <= 2 * limit.limit
      {
        if limit.limit == 0 {
          ZeroAdmitsNobody(Opened(start), es, limit);
        } else if limit.window <= 0.0 {
          CountNothing(AccountAfter(Opened(start), es).admitted, During(t, limit.window));
        } else {
          ConnectionRateHolds(start, es, limit, t);
        }
      }
    } else if evictions {
      EvictionLiftsTheBound(limit, 2 * limit.limit + 1, start);
      TooMany(Visits(2 * limit.limit + 1, limit, start), limit, start, evictions);
    } else {
      LargestLimitLiftsTheBound(limit, 2 * limit.limit + 1, start);
      TooMany(Burst(2 * limit.limit + 1, limit, start), limit, start, evictions);
    }
  }

  lemma TooMany(es: seq<Event>, limit: RateLimit, start: real, evictions: bool)
    requires RateHistory(es, limit, start, evictions)
    requires Count(AccountAfter(Opened(start), es).admitted, During(start, limit.window)) > 2 * limit.limit
    ensures !TwiceTheLimit(es, limit, start)
  {
  }

  // ---------------------------------------------------------------------------
  // The byte rate
  // ---------------------------------------------------------------------------

  ghost predicate BytesSet(e: Event, limit: RateLimit) {
    e.Admit? || e.Reload? ==> e.cfg.byteRate == Some(limit)
  }

  ghost predicate BytesFixed(e: Event, limit: RateLimit) {
    !e.Evict? && BytesSet(e, limit)
  }

  function PerSecond(limit: RateLimit): real
    requires limit.window > 0.0
  {
    limit.limit as real / limit.window
  }

  /** What may have been charged by `at`, with nothing left in hand. */
  function Earned(a: Account, limit: RateLimit, start: real, at: real): real
    requires limit.window > 0.0
  {
    (at - start + a.behind) * PerSecond(limit)
  }

  ghost predicate Solvent(a: Account, limit: RateLimit, start: real)
    requires limit.window > 0.0
  {
    match BucketOf(a.slot)
    case Some(b) =>
      && Sound(b) && b.capacity == limit.limit as real && b.rate == PerSecond(limit)
      && a.charged as real + b.tokens <= b.capacity + Earned(a, limit, start, b.last)
    case None => a.charged as real <= Earned(a, limit, start, a.paid)
  }

  lemma Scale(x: real, y: real, rate: real)
    requires x <= y && rate > 0.0
    ensures x * rate <= y * rate
  {
  }

  lemma RateIsPositive(limit: RateLimit)
    requires !Degenerate(limit.limit, limit.window)
    ensures PerSecond(limit) > 0.0
  {
  }

  lemma UntouchedStaysSolvent(a: Account, a': Account, limit: RateLimit, start: real)
    requires limit.window > 0.0 && Solvent(a, limit, start) && BucketOf(a'.slot) == BucketOf(a.slot)
    requires a'.charged == a.charged && a'.behind == a.behind && a'.paid == a.paid
    ensures Solvent(a', limit, start)
  {
  }

  /** A bucket that only earns at its rate and pays what it is charged keeps the client solvent. */
  lemma BucketKeepsSolvent(a: Account, a': Account, limit: RateLimit, start: real, b: Bucket, b': Bucket)
    requires limit.window > 0.0 && Solvent(a, limit, start)
    requires BucketOf(a.slot) == Some(b) && BucketOf(a'.slot) == Some(b') && a'.behind == a.behind
    requires Sound(b') && b'.capacity == b.capacity && b'.rate == b.rate && b'.last >= b.last
    requires a'.charged as real + b'.tokens <= a.charged as real + b.tokens + Accrued(b, b'.last)
    ensures Solvent(a', limit, start)
  {
    hide Sound;
    Distribute(b.last - start + a.behind, b'.last - b.last, PerSecond(limit));
  }

  lemma NewBucketKeepsSolvent(a: Account, a': Account, limit: RateLimit, start: real, now: real)
    requires !Degenerate(limit.limit, limit.window) && Solvent(a, limit, start)
    requires BucketOf(a.slot).None? && BucketOf(a'.slot) == FromRateWindow(limit.limit, limit.window, now)
    requires a'.charged == a.charged && a'.behind == a.behind + Max(0.0, a.paid - now)
    ensures Solvent(a', limit, start)
  {
    RateIsPositive(limit);
    Scale(a.paid - start + a.behind, now - start + a'.behind, PerSecond(limit));
  }

  /** Pruning only ever gives up a full bucket: everything charged so far has been earned. */
  lemma PruneKeepsSolvent(a: Account, a': Account, limit: RateLimit, start: real, b: Bucket, now: real)
    requires limit.window > 0.0 && Solvent(a, limit, start)
    requires BucketOf(a.slot) == Some(b) && BucketOf(a'.slot).None? && IsFull(b, now)
    requires a'.charged == a.charged && a'.behind == a.behind && a'.paid == Refilled(b, now).last
    ensures Solvent(a', limit, start)
  {
    var r := Refilled(b, now);
    RefillIsSound(b, now);
    var mid := a.(slot := Some(a.slot.value.(bandwidth := Some(r))));
    assert Accrued(b, r.last) == Accrued(b, now);
    BucketKeepsSolvent(a, mid, limit, start, b, r);
  }

  /** What a step does to the bucket, in the cases the argument distinguishes. */
  lemma StepKeepsSolvent(a: Account, e: Event, limit: RateLimit, start: real)
    requires !Degenerate(limit.limit, limit.window) && Solvent(a, limit, start)
    requires Possible(a.slot, a.live, a.clock, e) && BytesFixed(e, limit)
    ensures Solvent(NextAccount(a, e), limit, start)
  {
    var a' := NextAccount(a, e);
    var before, after := BucketOf(a.slot), BucketOf(a'.slot);
    match e
    case Flow(bytes, now, police) =>
      if before.Some? {
        StepConserves(before.value, Charging(e));
        BucketKeepsSolvent(a, a', limit, start, before.value, after.value);
      } else {
        UntouchedStaysSolvent(a, a', limit, start);
      }
    case Sweep(now, cfg, stateBusy, bucketBusy) => SweepKeepsSolvent(a, e, limit, start);
    case Admit(now, cfg) => ReconcileKeepsSolvent(a, e, limit, start);
    case Reload(now, cfg) => ReconcileKeepsSolvent(a, e, limit, start);
    case AuthFailure(now, cfg) => UntouchedStaysSolvent(a, a', limit, start);
    case Disconnect => UntouchedStaysSolvent(a, a', limit, start);
    case Evict =>
  }

  lemma SweepKeepsSolvent(a: Account, e: Event, limit: RateLimit, start: real)
    requires limit.window > 0.0 && Solvent(a, limit, start)
    requires Possible(a.slot, a.live, a.clock, e) && e.Sweep?
    ensures Solvent(NextAccount(a, e), limit, start)
  {
    var a' := NextAccount(a, e);
    var before, after := BucketOf(a.slot), BucketOf(a'.slot);
    assert after == before
        || (before.Some? && after.None? && IsFull(before.value, e.now))
        || (before.Some? && after == Some(Refilled(before.value, e.now)));
    assert a'.charged == a.charged;
    if before.Some? && after.Some? && after != before {
      RefillIsSound(before.value, e.now);
      assert a'.behind == a.behind;
      BucketKeepsSolvent(a, a', limit, start, before.value, after.value);
    } else if before.Some? && after.None? {
      PruneKeepsSolvent(a, a', limit, start, before.value, e.now);
    } else {
      UntouchedStaysSolvent(a, a', limit, start);
    }
  }

  lemma ReconcileKeepsSolvent(a: Account, e: Event, limit: RateLimit, start: real)
    requires !Degenerate(limit.limit, limit.window) && Solvent(a, limit, start)
    requires Possible(a.slot, a.live, a.clock, e) && BytesFixed(e, limit) && (e.Admit? || e.Reload?)
    ensures Solvent(NextAccount(a, e), limit, start)
  {
    var a' := NextAccount(a, e);
    var before, after := BucketOf(a.slot), BucketOf(a'.slot);
    assert after == before
        || (before.None? && after == FromRateWindow(limit.limit, limit.window, e.now))
        || (before.Some? && after == Some(Retuned(before.value, limit.limit, limit.window, e.now))) by {
      hide Retuned, FromRateWindow, IncrementWindow, IsLimitExceeded;
    }
    hide NextSlot;
    if after == before {
      UntouchedStaysSolvent(a, a', limit, start);
    } else if before.None? {
      NewBucketKeepsSolvent(a, a', limit, start, e.now);
    } else {
      StepConserves(before.value, Retune(limit.limit, limit.window, e.now));
      BucketKeepsSolvent(a, a', limit, start, before.value, after.value);
    }
  }

  /**
   In every history without eviction, with the byte rate fixed, bytes charged plus tokens in
   hand never exceed the burst plus the rate times the time since the start; reconnecting
   gains nothing. The only slack is how far new buckets were started behind the clock.
   */
  lemma {:induction false} BytesStayWithinTheRate(a: Account, es: seq<Event>, limit: RateLimit, start: real)
    requires !Degenerate(limit.limit, limit.window) && Solvent(a, limit, start)
    requires PossibleRun(a, es) && forall i :: 0 <= i < |es| ==> BytesFixed(es[i], limit)
    ensures Solvent(AccountAfter(a, es), limit, start)
    decreases es
  {
    if es != [] {
      StepKeepsSolvent(a, es[0], limit, start);
      hide NextAccount, Solvent;
      BytesStayWithinTheRate(NextAccount(a, es[0]), es[1..], limit, start);
    }
  }

  ghost predicate ReadingsInOrder(es: seq<Event>, since: real) {
    && (forall i :: 0 <= i < |es| && HasReading(es[i]) ==> since <= es[i].now)
    && (forall i, j :: 0 <= i < j < |es| && HasReading(es[i]) && HasReading(es[j]) ==> es[i].now <= es[j].now)
  }

  predicate HasReading(e: Event) {
    !e.Disconnect? && !e.Evict?
  }

  ghost predicate UpToDate(a: Account, since: real) {
    a.behind == 0.0 && a.paid <= since && (BucketOf(a.slot).Some? ==> BucketOf(a.slot).value.last <= since)
  }

  lemma StepStaysUpToDate(a: Account, e: Event, since: real)
    requires UpToDate(a, since) && Possible(a.slot, a.live, a.clock, e)
    requires HasReading(e) ==> since <= e.now
    ensures UpToDate(NextAccount(a, e), if HasReading(e) then e.now else since)
  {
    hide IncrementWindow, IsLimitExceeded, WindowIsPrunable;
  }

  /** With all readings in order no bucket is ever started late. */
  lemma {:induction false} NeverBehind(a: Account, es: seq<Event>, since: real)
    requires UpToDate(a, since) && PossibleRun(a, es) && ReadingsInOrder(es, since)
    ensures AccountAfter(a, es).behind == 0.0
    decreases es
  {
    if es != [] {
      StepStaysUpToDate(a, es[0], since);
      hide NextAccount, UpToDate;
      NeverBehind(NextAccount(a, es[0]), es[1..], if HasReading(es[0]) then es[0].now else since);
    }
  }

  /** The bound without any slack. */
  ghost predicate WithinRate(a: Account, limit: RateLimit, start: real)
    requires limit.window > 0.0
  {
    match BucketOf(a.slot)
    case Some(b) => a.charged as real + b.tokens <= limit.limit as real + (b.last - start) * PerSecond(limit)
    case None => a.charged as real <= (a.paid - start) * PerSecond(limit)
  }

  /** The byte rate as the operator reads it: the burst, plus the rate since the first admission. */
  ghost predicate KeepsByteRate(a: Account, limit: RateLimit)
    requires limit.window > 0.0
  {
    if a.admitted == [] then a.charged == 0 else WithinRate(a, limit, a.admitted[0])
  }

  lemma SolventIsWithin(a: Account, limit: RateLimit, start: real)
    requires limit.window > 0.0 && Solvent(a, limit, start) && a.behind == 0.0
    ensures WithinRate(a, limit, start)
  {
  }

  lemma {:induction false} AdmittedGrows(a: Account, es: seq<Event>)
    requires PossibleRun(a, es)
    ensures a.admitted <= AccountAfter(a, es).admitted
    decreases es
  {
    if es != [] {
      hide NextSlot, Succeeds, ChargeOf;
      AdmittedGrows(NextAccount(a, es[0]), es[1..]);
    }
  }

  /** The bucket of an admission is there, and as of its reading. */
  lemma AdmissionBucket(a: Account, e: Event, limit: RateLimit)
    requires !Degenerate(limit.limit, limit.window) && Possible(a.slot, a.live, a.clock, e)
    requires e.Admit? && Succeeds(a.slot, e) && e.cfg.byteRate == Some(limit)
    requires BucketOf(a.slot).Some? ==> BucketOf(a.slot).value.last <= e.now
    ensures BucketOf(NextAccount(a, e).slot).Some? && BucketOf(NextAccount(a, e).slot).value.last == e.now
  {
    hide IncrementWindow, IsLimitExceeded;
  }

  /** A first admission starts from a bucket that is at most full. */
  lemma FirstIsSolvent(a: Account, e: Event, limit: RateLimit, start: real)
    requires !Degenerate(limit.limit, limit.window) && Solvent(a, limit, start) && a.charged == 0
    requires Possible(a.slot, a.live, a.clock, e) && BytesFixed(e, limit) && e.Admit? && Succeeds(a.slot, e)
    requires UpToDate(a, e.now)
    ensures Solvent(NextAccount(a, e), limit, e.now)
  {
    StepKeepsSolvent(a, e, limit, start);
    AdmissionBucket(a, e, limit);
    StepStaysUpToDate(a, e, e.now);
    var a' := NextAccount(a, e);
    assert a'.charged == 0 && a'.behind == 0.0;
    hide NextAccount;
    assert (e.now - e.now + a'.behind) * PerSecond(limit) == 0.0;
  }

  lemma NothingBeforeFirst(a: Account, e: Event)
    requires a.admitted == [] && a.live == 0 && a.charged == 0
    requires Possible(a.slot, a.live, a.clock, e) && !Succeeds(a.slot, e)
    ensures var a' := NextAccount(a, e); a'.admitted == [] && a'.live == 0 && a'.charged == 0
  {
    hide NextSlot, Attempt;
  }

  lemma {:induction false} SinceFirstAdmission(
    a: Account, es: seq<Event>, limit: RateLimit, start: real, since: real)
    requires !Degenerate(limit.limit, limit.window) && Solvent(a, limit, start) && UpToDate(a, since)
    requires a.admitted == [] && a.live == 0 && a.charged == 0
    requires PossibleRun(a, es) && forall i :: 0 <= i < |es| ==> BytesFixed(es[i], limit)
    requires ReadingsInOrder(es, since)
    ensures KeepsByteRate(AccountAfter(a, es), limit)
    decreases es
  {
    if es != [] {
      var e, rest := es[0], es[1..];
      var a' := NextAccount(a, e);
      var later := if HasReading(e) then e.now else since;
      StepStaysUpToDate(a, e, since);
      if Succeeds(a.slot, e) {
        FirstIsSolvent(a, e, limit, start);
        assert a'.admitted == [e.now];
        hide NextAccount, Solvent, UpToDate, Succeeds;
        BytesStayWithinTheRate(a', rest, limit, e.now);
        NeverBehind(a', rest, e.now);
        AdmittedGrows(a', rest);
        SolventIsWithin(AccountAfter(a', rest), limit, e.now);
      } else {
        StepKeepsSolvent(a, e, limit, start);
        NothingBeforeFirst(a, e);
        hide NextAccount, Solvent, UpToDate, Succeeds;
        SinceFirstAdmission(a', rest, limit, start, later);
      }
    }
  }

  /**
   In every history without eviction and with readings in order, whatever failures and denials
   come first: bytes charged plus tokens in hand stay within the burst plus the rate since the
   first admission.
   */
  lemma ByteRateHolds(start: real, es: seq<Event>, limit: RateLimit)
    requires !Degenerate(limit.limit, limit.window)
    requires PossibleRun(Opened(start), es) && forall i :: 0 <= i < |es| ==> BytesFixed(es[i], limit)
    requires ReadingsInOrder(es, start)
    ensures KeepsByteRate(AccountAfter(Opened(start), es), limit)
  {
    hide AccountAfter, PossibleRun, BytesFixed, ReadingsInOrder, KeepsByteRate;
    assert Solvent(Opened(start), limit, start);
    SinceFirstAdmission(Opened(start), es, limit, start, start);
  }

  // ---------------------------------------------------------------------------
  // The slack is real
  // ---------------------------------------------------------------------------

  /** Only the byte rate is limited. */
  function OnlyBytes(limit: RateLimit): RateLimits {
    RateLimits(None, None, None, Some(limit))
  }

  function FullBucket(limit: RateLimit, now: real): Bucket
    requires limit.window > 0.0
  {
    Bucket(limit.limit as real, PerSecond(limit), limit.limit as real, now)
  }

  /** One live connection, a full bucket as of the table's clock, and the bound met with equality. */
  ghost predicate AtTheBound(a: Account, limit: RateLimit, start: real)
    requires limit.window > 0.0
  {
    && a.live == 1 && a.slot.Some? && a.slot.value.active == 1
    && a.slot.value.bandwidth == Some(FullBucket(limit, a.clock))
    && a.charged as real == Earned(a, limit, start, a.clock)
  }

  lemma FirstAdmission(limit: RateLimit, start: real)
    requires !Degenerate(limit.limit, limit.window)
    ensures PossibleRun(Opened(start), [Admit(start, OnlyBytes(limit))])
    ensures var a := AccountAfter(Opened(start), [Admit(start, OnlyBytes(limit))]);
            AtTheBound(a, limit, start) && a.clock == start && a.behind == 0.0 && a.admitted == [start]
  {
    var e := Admit(start, OnlyBytes(limit));
    NewBucketOnAdmit(limit, start);
    var a := NextAccount(Opened(start), e);
    assert [e][1..] == [];
    assert AccountAfter(Opened(start), [e]) == AccountAfter(a, []);
  }

  lemma NewBucketOnAdmit(limit: RateLimit, now: real)
    requires !Degenerate(limit.limit, limit.window)
    ensures Attempt(NewClient(now), OnlyBytes(limit), now)
            == (None, NewClient(now).(bandwidth := Some(FullBucket(limit, now)), active := 1))
  {
  }

  /** Spend n bursts at once, and see them refilled. */
  function Spree(limit: RateLimit, n: nat, from: real): seq<Event> {
    [Flow(n * limit.limit, from, false), Flow(0, FullAt(limit, n, from), false)]
  }

  /** Leave, be swept, and come back, at one reading. */
  function ComeBack(limit: RateLimit, at: real): seq<Event> {
    [Disconnect, Sweep(at, OnlyBytes(limit), false, false), Admit(at, OnlyBytes(limit))]
  }

  /** When a spree is refilled. */
  function FullAt(limit: RateLimit, n: nat, from: real): real {
    from + n as real * limit.window
  }

  /** The sweep and the admission may read the clock before the last refill. */
  function LateCycle(limit: RateLimit, n: nat, from: real, at: real): seq<Event> {
    Spree(limit, n, from) + ComeBack(limit, at)
  }

  lemma Bursts(limit: RateLimit, n: nat)
    requires !Degenerate(limit.limit, limit.window)
    ensures n as real * limit.window * PerSecond(limit) == (n * limit.limit) as real
    ensures n as real * limit.window >= 0.0
  {
    var l, w := limit.limit as real, limit.window;
    assert w * (l / w) == l;
    assert n as real * w * (l / w) == n as real * (w * (l / w));
    assert (n * limit.limit) as real == n as real * l;
  }

  /** The two flows: everything spent at once, and refilled to the last byte. */
  lemma SpendAndRefill(limit: RateLimit, n: nat, from: real)
    requires !Degenerate(limit.limit, limit.window)
    ensures var full := FullAt(limit, n, from);
            var spent := TokenBuckets.Next(FullBucket(limit, from), Shape(n * limit.limit, from));
            TokenBuckets.Next(spent, Shape(0, full)) == FullBucket(limit, full)
  {
    Bursts(limit, n);
    var full := FullAt(limit, n, from);
    assert (full - from) * PerSecond(limit) == n as real * limit.window * PerSecond(limit);
  }

  lemma CycleFlows(a: Account, limit: RateLimit, n: nat) returns (a': Account)
    requires !Degenerate(limit.limit, limit.window) && a.live == 1 && a.slot.Some? && a.slot.value.active == 1
    requires a.slot.value.bandwidth == Some(FullBucket(limit, a.clock))
    ensures var full := FullAt(limit, n, a.clock);
            var es := Spree(limit, n, a.clock);
            PossibleRun(a, es) && a' == AccountAfter(a, es)
            && a' == a.(slot := Some(a.slot.value.(bandwidth := Some(FullBucket(limit, full)))),
                        charged := a.charged + n * limit.limit)
  {
    var full := FullAt(limit, n, a.clock);
    SpendAndRefill(limit, n, a.clock);
    var es := Spree(limit, n, a.clock);
    assert es[1..] == [es[1]] && es[1..][1..] == [];
    var a1 := NextAccount(a, es[0]);
    a' := NextAccount(a1, es[1]);
    hide NextAccount, TokenBuckets.Next;
    assert PossibleRun(a1, es[1..]) && AccountAfter(a1, es[1..]) == a';
  }

  lemma CycleReturns(a: Account, limit: RateLimit, at: real) returns (a': Account)
    requires !Degenerate(limit.limit, limit.window) && a.live == 1 && a.slot.Some? && a.slot.value.active == 1
    requires BucketOf(a.slot).Some? && BucketOf(a.slot) == Some(FullBucket(limit, BucketOf(a.slot).value.last))
    requires a.clock <= at <= BucketOf(a.slot).value.last
    ensures var es := ComeBack(limit, at);
            && PossibleRun(a, es) && a' == AccountAfter(a, es)
            && a'.live == 1 && a'.clock == at && a'.charged == a.charged
            && a'.slot == Some(NewClient(at).(bandwidth := Some(FullBucket(limit, at)), active := 1))
            && a'.behind == a.behind + (BucketOf(a.slot).value.last - at)
  {
    var es := ComeBack(limit, at);
    assert es[1..] == [es[1], es[2]] && es[1..][1..] == [es[2]] && [es[2]][1..] == [];
    var a1 := NextAccount(a, es[0]);
    var a2 := NextAccount(a1, es[1]);
    assert a2.slot.None? && a2.paid == BucketOf(a.slot).value.last && a2.behind == a.behind && a2.live == 0;
    NewBucketOnAdmit(limit, at);
    a' := NextAccount(a2, es[2]);
    hide NextAccount;
    assert PossibleRun(a2, [es[2]]) && AccountAfter(a2, [es[2]]) == a';
    assert PossibleRun(a1, es[1..]) && AccountAfter(a1, es[1..]) == a';
  }

  /** One late cycle meets the bound with equality again and adds its lag to the slack. */
  lemma CycleGainsTheLag(a: Account, limit: RateLimit, start: real, n: nat, at: real)
    requires !Degenerate(limit.limit, limit.window) && AtTheBound(a, limit, start)
    requires a.clock <= at <= FullAt(limit, n, a.clock)
    ensures PossibleRun(a, LateCycle(limit, n, a.clock, at))
    ensures var a' := AccountAfter(a, LateCycle(limit, n, a.clock, at));
            AtTheBound(a', limit, start) && a'.behind == a.behind + (FullAt(limit, n, a.clock) - at) && a'.clock == at
  {
    hide NextAccount, PossibleRun, AccountAfter, Spree, ComeBack;
    var mid := CycleFlows(a, limit, n);
    var a' := CycleReturns(mid, limit, at);
    RunsCompose(a, Spree(limit, n, a.clock), ComeBack(limit, at));
    EarnedGrows(a, a', limit, start, n, at);
  }

  lemma EarnedGrows(a: Account, a': Account, limit: RateLimit, start: real, n: nat, at: real)
    requires !Degenerate(limit.limit, limit.window) && a'.behind == a.behind + (FullAt(limit, n, a.clock) - at)
    ensures Earned(a', limit, start, at) == Earned(a, limit, start, a.clock) + (n * limit.limit) as real
  {
    Bursts(limit, n);
    Distribute(a.clock - start + a.behind, n as real * limit.window, PerSecond(limit));
  }

  ghost function Total(lags: seq<real>): real {
    if lags == [] then 0.0 else Total(lags[..|lags| - 1]) + lags[|lags| - 1]
  }

  /** No reading is more than `lag` behind an earlier one, or behind the start; a negative lag counts as none. */
  ghost predicate LagsWithin(es: seq<Event>, start: real, lag: real) {
    && (forall i :: 0 <= i < |es| && HasReading(es[i]) ==> start <= es[i].now + Max(0.0, lag))
    && (forall i, j :: 0 <= i < j < |es| && HasReading(es[i]) && HasReading(es[j]) ==>
          es[i].now <= es[j].now + Max(0.0, lag))
  }

  /** A history of an address under this byte rate, with or without evictions. */
  ghost predicate ByteHistory(es: seq<Event>, limit: RateLimit, start: real, evictions: bool) {
    && PossibleRun(Opened(start), es)
    && forall i :: 0 <= i < |es| ==> BytesSet(es[i], limit) && (evictions || !es[i].Evict?)
  }

  lemma EnoughWindows(lag: real, window: real) returns (n: nat)
    requires lag >= 0.0 && window > 0.0
    ensures lag <= n as real * window
  {
    var q := lag / window;
    n := q.Floor + 1;
    assert q * window == lag;
    Scale(q, n as real, window);
  }

  lemma CycleLagsWithin(es: seq<Event>, limit: RateLimit, start: real, n: nat, from: real, at: real, most: real)
    requires LagsWithin(es, start, most) && start <= from <= at <= FullAt(limit, n, from) <= at + most
    requires ReadsUpTo(es, from + most)
    ensures LagsWithin(es + LateCycle(limit, n, from, at), start, most)
    ensures ReadsUpTo(es + LateCycle(limit, n, from, at), at + most)
  {
    var cycle, full := LateCycle(limit, n, from, at), FullAt(limit, n, from);
    hide FullAt;
    assert forall i :: 0 <= i < |cycle| && HasReading(cycle[i]) ==> from <= cycle[i].now <= full;
    assert forall i, j :: 0 <= i < j < |cycle| && HasReading(cycle[i]) && HasReading(cycle[j]) ==>
                            cycle[i].now <= cycle[j].now + most;
    hide LateCycle;
    var all := es + cycle;
    forall i, j | 0 <= i < j < |all| && HasReading(all[i]) && HasReading(all[j])
      ensures all[i].now <= all[j].now + most
    {
      if j >= |es| {
        assert all[j] == cycle[j - |es|];
        if i >= |es| {
          assert all[i] == cycle[i - |es|];
        }
      }
    }
  }

  ghost predicate ReadsUpTo(es: seq<Event>, last: real) {
    forall i :: 0 <= i < |es| && HasReading(es[i]) ==> es[i].now <= last
  }

  /**
   The slack is attained, for every limit and every list of lags: a history whose late sweeps
   and admissions lag by exactly these, and whose charged bytes and tokens exceed the burst
   plus the rate since the start by exactly the rate times their sum.
   */
  lemma {:induction false} SlackIsAttained(limit: RateLimit, start: real, lags: seq<real>, most: real)
    returns (es: seq<Event>)
    requires !Degenerate(limit.limit, limit.window) && most >= 0.0
    requires forall i :: 0 <= i < |lags| ==> 0.0 <= lags[i] <= most
    ensures ByteHistory(es, limit, start, false) && LagsWithin(es, start, most)
    ensures var a := AccountAfter(Opened(start), es);
            && AtTheBound(a, limit, start) && a.behind == Total(lags) && start <= a.clock
            && a.admitted != [] && a.admitted[0] == start
            && ReadsUpTo(es, a.clock + most)
    decreases |lags|
  {
    hide NextAccount, PossibleRun, AccountAfter;
    if lags == [] {
      FirstAdmission(limit, start);
      es := [Admit(start, OnlyBytes(limit))];
    } else {
      var lag := lags[|lags| - 1];
      var before := SlackIsAttained(limit, start, lags[..|lags| - 1], most);
      var a := AccountAfter(Opened(start), before);
      var n := EnoughWindows(lag, limit.window);
      var at := FullAt(limit, n, a.clock) - lag;
      CycleGainsTheLag(a, limit, start, n, at);
      var cycle := LateCycle(limit, n, a.clock, at);
      RunsCompose(Opened(start), before, cycle);
      AdmittedGrows(a, cycle);
      CycleLagsWithin(before, limit, start, n, a.clock, at, most);
      es := before + cycle;
      assert forall i :: 0 <= i < |cycle| ==> BytesFixed(cycle[i], limit);
      hide LateCycle;
      forall i | 0 <= i < |es| ensures BytesFixed(es[i], limit) {
        assert es[i] == if i < |before| then before[i] else cycle[i - |before|];
      }
    }
  }

  /** How far a history at the bound is beyond the bound without slack. */
  lemma BeyondByTheSlack(a: Account, limit: RateLimit, start: real)
    requires !Degenerate(limit.limit, limit.window) && AtTheBound(a, limit, start)
    ensures var b := BucketOf(a.slot).value;
            a.charged as real + b.tokens
            == limit.limit as real + (b.last - start) * PerSecond(limit) + a.behind * PerSecond(limit)
    ensures WithinRate(a, limit, start) <==> a.behind <= 0.0
  {
    RateIsPositive(limit);
    Distribute(a.clock - start, a.behind, PerSecond(limit));
    if a.behind > 0.0 {
      assert a.behind * PerSecond(limit) > 0.0;
    } else {
      Scale(a.behind, 0.0, PerSecond(limit));
    }
  }

  /** Spend the burst, leave, be evicted, and come back at once. */
  function EvictedDebt(limit: RateLimit, now: real): seq<Event> {
    [Admit(now, OnlyBytes(limit))]
    + [Flow(limit.limit, now, false), Disconnect, Evict, Admit(now, OnlyBytes(limit))]
  }

  /**
   Evicting an idle record forgives its debt: for every limit, with all readings the same, a
   history that has charged one burst at the instant of its first admission and holds another.
   */
  lemma EvictionForgivesTheDebt(limit: RateLimit, start: real)
    requires !Degenerate(limit.limit, limit.window)
    ensures var es := EvictedDebt(limit, start);
            && ByteHistory(es, limit, start, true) && ReadingsInOrder(es, start)
            && var a := AccountAfter(Opened(start), es);
               && a.charged == limit.limit && BucketOf(a.slot) == Some(FullBucket(limit, start))
               && a.admitted != [] && a.admitted[0] == start && !KeepsByteRate(a, limit)
  {
    var first, rest := [Admit(start, OnlyBytes(limit))],
                       [Flow(limit.limit, start, false), Disconnect, Evict, Admit(start, OnlyBytes(limit))];
    hide PossibleRun, AccountAfter;
    FirstAdmission(limit, start);
    var a := AccountAfter(Opened(start), first);
    BackAfterEviction(a, limit);
    RunsCompose(Opened(start), first, rest);
    AdmittedGrows(a, rest);
    assert (start - start) * PerSecond(limit) == 0.0;
  }

  lemma BackAfterEviction(a: Account, limit: RateLimit)
    requires !Degenerate(limit.limit, limit.window) && a.live == 1 && a.slot.Some? && a.slot.value.active == 1
    requires a.slot.value.bandwidth == Some(FullBucket(limit, a.clock))
    ensures var es := [Flow(limit.limit, a.clock, false), Disconnect, Evict, Admit(a.clock, OnlyBytes(limit))];
            && PossibleRun(a, es)
            && var a' := AccountAfter(a, es);
               a'.charged == a.charged + limit.limit && BucketOf(a'.slot) == Some(FullBucket(limit, a.clock))
  {
    var flow, back := Flow(limit.limit, a.clock, false), Admit(a.clock, OnlyBytes(limit));
    var a1 := NextAccount(a, flow);
    var a2 := NextAccount(a1, Disconnect);
    var a3 := NextAccount(a2, Evict);
    assert a3.slot.None? && a3.charged == a.charged + limit.limit && a3.clock == a.clock;
    NewBucketOnAdmit(limit, a.clock);
    var a4 := NextAccount(a3, back);
    hide NextAccount;
    assert PossibleRun(a4, []) && AccountAfter(a4, []) == a4;
    hide PossibleRun, AccountAfter;
    FirstStep(a3, back, []);
    FirstStep(a2, Evict, [back] + []);
    FirstStep(a1, Disconnect, [Evict] + ([back] + []));
    FirstStep(a, flow, [Disconnect] + ([Evict] + ([back] + [])));
    assert [flow, Disconnect, Evict, back] == [flow] + ([Disconnect] + ([Evict] + ([back] + [])));
  }

  lemma FirstStep(a: Account, e: Event, es: seq<Event>)
    requires Possible(a.slot, a.live, a.clock, e) && PossibleRun(NextAccount(a, e), es)
    ensures PossibleRun(a, [e] + es) && AccountAfter(a, [e] + es) == AccountAfter(NextAccount(a, e), es)
  {
    hide NextAccount, Possible;
    assert ([e] + es)[1..] == es;
  }

  /**
   The exact condition: for every limit, all histories whose readings lag by at most `lag` keep
   the byte rate since the first admission if and only if no lag and no eviction is allowed.
   */
  lemma ByteRateHoldsIff(limit: RateLimit, start: real, lag: real, evictions: bool)
    requires !Degenerate(limit.limit, limit.window)
    ensures (forall es :: ByteHistory(es, limit, start, evictions) && LagsWithin(es, start, lag) ==>
               KeepsByteRate(AccountAfter(Opened(start), es), limit))
            <==> lag <= 0.0 && !evictions
  {
    hide AccountAfter, PossibleRun, WithinRate;
    if evictions {
      EvictionForgivesTheDebt(limit, start);
      assert LagsWithin(EvictedDebt(limit, start), start, lag);
    } else if lag <= 0.0 {
      forall es | ByteHistory(es, limit, start, evictions) && LagsWithin(es, start, lag)
        ensures KeepsByteRate(AccountAfter(Opened(start), es), limit)
      {
        ByteRateHolds(start, es, limit);
      }
    } else {
      var es := SlackIsAttained(limit, start, [lag], lag);
      assert [lag][..0] == [] && Total([lag]) == lag;
      BeyondByTheSlack(AccountAfter(Opened(start), es), limit, start);
      assert !KeepsByteRate(AccountAfter(Opened(start), es), limit);
    }
  }
}
