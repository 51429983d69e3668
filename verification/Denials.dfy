/**
 Why an admission is denied, told by the history of the address: the failed logins, the
 attempts and the live connections counted from the events, whatever was swept in between.
 */
module Denials {
  import opened Options
  import TokenBuckets
  import opened Clients
  import opened ClientRuns

  /** An account together with the failed logins and the attempts that reached the connection rate. */
  datatype Ledger = Ledger(account: Account, failures: seq<real>, tries: seq<real>)

  /** The verdict on an admission at this time. */
  function Verdict(s: Slot, now: real, cfg: RateLimits): Option<DenialReason> {
    Attempt(CheckedOut(s, now), cfg, now).0
  }

  /** An attempt counts towards the connection rate unless it is turned away before that is looked at. */
  predicate IsTry(s: Slot, e: Event) {
    e.Admit? && (Verdict(s, e.now, e.cfg).None? || Verdict(s, e.now, e.cfg) == Some(ConnectionRate))
  }

  ghost predicate Can(l: Ledger, e: Event) {
    Possible(l.account.slot, l.account.live, l.account.clock, e)
  }

  ghost function NextLedger(l: Ledger, e: Event): Ledger
    requires Can(l, e)
  {
    Ledger(
      NextAccount(l.account, e),
      if e.AuthFailure? then l.failures + [e.now] else l.failures,
      if IsTry(l.account.slot, e) then l.tries + [e.now] else l.tries)
  }

  ghost predicate CanRun(l: Ledger, es: seq<Event>)
    decreases es
  {
    es == [] || (Can(l, es[0]) && CanRun(NextLedger(l, es[0]), es[1..]))
  }

  ghost function LedgerAfter(l: Ledger, es: seq<Event>): Ledger
    requires CanRun(l, es)
    decreases es
  {
    if es == [] then l else LedgerAfter(NextLedger(l, es[0]), es[1..])
  }

  function NewLedger(start: real): Ledger {
    Ledger(Opened(start), [], [])
  }

  lemma {:induction false} SameRuns(l: Ledger, es: seq<Event>)
    ensures CanRun(l, es) <==> PossibleRun(l.account, es)
    ensures CanRun(l, es) ==> LedgerAfter(l, es).account == AccountAfter(l.account, es)
    decreases es
  {
    hide NextAccount, Possible;
    if es != [] && Can(l, es[0]) {
      SameRuns(NextLedger(l, es[0]), es[1..]);
    }
  }

  // ---------------------------------------------------------------------------
  // A window and the times it has counted
  // ---------------------------------------------------------------------------

  function Capped(n: nat): U64 {
    if n <= U64_MAX then n else U64_MAX
  }

  /** A window holds exactly the times since its start; with no window all times are past. */
  ghost predicate Tracks(ow: Option<Window>, times: seq<real>, clock: real, limit: RateLimit) {
    && (forall x :: x in times ==> x <= clock)
    && match ow
       case Some(w) =>
         && w.started <= clock
         && (forall x :: x in times ==> x < w.started + limit.window)
         && w.count == Capped(Count(times, From(w.started)))
       case None => forall x :: x in times ==> x < clock
  }

  function WindowAt(ow: Option<Window>, now: real): Window {
    if ow.Some? then ow.value else Window(now, 0)
  }

  /** A new window tracks what the lack of one did. */
  lemma TracksNew(ow: Option<Window>, times: seq<real>, clock: real, limit: RateLimit, now: real)
    requires Tracks(ow, times, clock, limit) && clock <= now && limit.window > 0.0
    ensures Tracks(Some(WindowAt(ow, now)), times, now, limit)
  {
    if ow.None? {
      CountNothing(times, From(now));
    }
  }

  lemma TracksReset(ow: Option<Window>, times: seq<real>, clock: real, limit: RateLimit, now: real)
    requires Tracks(ow, times, clock, limit) && clock <= now && limit.window > 0.0
    ensures var w := ResetIfExpired(WindowAt(ow, now), limit, now);
            Tracks(Some(w), times, now, limit) && w.started <= now < w.started + limit.window
  {
    TracksNew(ow, times, clock, limit, now);
    if WindowOver(WindowAt(ow, now), limit, now) {
      CountNothing(times, From(now));
    }
  }

  lemma TracksIncrement(ow: Option<Window>, times: seq<real>, clock: real, limit: RateLimit, now: real)
    requires Tracks(ow, times, clock, limit) && clock <= now && limit.window > 0.0
    ensures Tracks(Some(IncrementWindow(WindowAt(ow, now), Some(limit), now).1), times + [now], now, limit)
  {
    TracksReset(ow, times, clock, limit, now);
    var w := ResetIfExpired(WindowAt(ow, now), limit, now);
    hide ResetIfExpired, Count;
    CountMore(times, now, From(w.started));
  }

  lemma TracksLater(ow: Option<Window>, times: seq<real>, clock: real, limit: RateLimit, now: real)
    requires Tracks(ow, times, clock, limit) && clock <= now
    ensures Tracks(ow, times, now, limit)
  {
  }

  lemma TracksPruned(w: Window, times: seq<real>, clock: real, limit: RateLimit, now: real)
    requires Tracks(Some(w), times, clock, limit) && clock <= now && limit.window > 0.0
    requires WindowIsPrunable(w, Some(limit), now)
    ensures Tracks(None, times, now, limit)
  {
    CountNothing(times, From(w.started));
  }

  /** A window is prunable exactly if it is over or has counted nothing. */
  lemma PrunableIff(w: Window, times: seq<real>, clock: real, limit: RateLimit, now: real)
    requires Tracks(Some(w), times, clock, limit) && clock <= now && limit.window > 0.0
    ensures WindowIsPrunable(w, Some(limit), now) <==>
            now >= w.started + limit.window || Count(times, During(w.started, limit.window)) == 0
  {
    SinceIsDuring(w, times, clock, limit);
  }

  /** Nothing is later than the window, so what it counts is what lies in it. */
  lemma SinceIsDuring(w: Window, times: seq<real>, clock: real, limit: RateLimit)
    requires Tracks(Some(w), times, clock, limit)
    ensures w.count == Capped(Count(times, During(w.started, limit.window)))
  {
    CountNothing(times, x => false);
    CountCovered(times, From(w.started), During(w.started, limit.window), x => false);
    CountCovered(times, During(w.started, limit.window), From(w.started), x => false);
  }

  // ---------------------------------------------------------------------------
  // The windows of a record
  // ---------------------------------------------------------------------------

  function FailureWindow(s: Slot): Option<Window> {
    if s.Some? then Some(s.value.authFailures) else None
  }

  function TryWindow(s: Slot): Option<Window> {
    if s.Some? then Some(s.value.connections) else None
  }

  ghost predicate TracksFailures(l: Ledger, limit: RateLimit) {
    Tracks(FailureWindow(l.account.slot), l.failures, l.account.clock, limit)
  }

  ghost predicate TracksTries(l: Ledger, limit: RateLimit) {
    Tracks(TryWindow(l.account.slot), l.tries, l.account.clock, limit)
  }

  ghost predicate FailuresSet(e: Event, limit: RateLimit) {
    !e.Evict? && (e.Admit? || e.AuthFailure? || e.Sweep? ==> e.cfg.authFailureRate == Some(limit))
  }

  /** What an attempt does to the two windows, and when it fails on which. */
  lemma AttemptParts(c: Client, cfg: RateLimits, now: real)
    ensures var (denial, c') := Attempt(c, cfg, now);
            && c'.authFailures == IsLimitExceeded(c.authFailures, cfg.authFailureRate, now).1
            && (denial == Some(AuthFailureRate) <==> IsLimitExceeded(c.authFailures, cfg.authFailureRate, now).0)
            && (denial == Some(ConcurrentConnections) <==>
                  && denial != Some(AuthFailureRate)
                  && cfg.concurrentConnections.Some? && c.active >= cfg.concurrentConnections.value)
            && (if denial.None? || denial == Some(ConnectionRate) then
                  && c'.connections == IncrementWindow(c.connections, cfg.connectionRate, now).1
                  && (denial.Some? <==> IncrementWindow(c.connections, cfg.connectionRate, now).0)
                else c'.connections == c.connections)
  {
    hide TokenBuckets.FromRateWindow, TokenBuckets.Retuned, IncrementWindow, IsLimitExceeded;
  }

  lemma StepTracksFailures(l: Ledger, e: Event, limit: RateLimit)
    requires TracksFailures(l, limit) && Can(l, e) && FailuresSet(e, limit) && limit.window > 0.0
    ensures TracksFailures(NextLedger(l, e), limit)
  {
    hide Tracks, ReconcileBucket, TokenBuckets.Next, TokenBuckets.Refilled, TokenBuckets.IsFull, Attempt;
    var a := l.account;
    var ow := FailureWindow(a.slot);
    match e
    case Admit(now, cfg) =>
      AttemptParts(CheckedOut(a.slot, now), cfg, now);
      TracksReset(ow, l.failures, a.clock, limit, now);
    case AuthFailure(now, _) => TracksIncrement(ow, l.failures, a.clock, limit, now);
    case Sweep(now, _, _, _) =>
      TracksLater(ow, l.failures, a.clock, limit, now);
      if NextSlot(a.slot, e).None? && a.slot.Some? {
        TracksPruned(ow.value, l.failures, a.clock, limit, now);
      }
    case Disconnect =>
    case Flow(_, _, _) =>
    case Reload(_, _) =>
    case Evict =>
  }

  /** In every history without eviction the record counts the failures since its window began. */
  lemma {:induction false} FailuresAreTracked(l: Ledger, es: seq<Event>, limit: RateLimit)
    requires TracksFailures(l, limit) && CanRun(l, es) && limit.window > 0.0
    requires forall i :: 0 <= i < |es| ==> FailuresSet(es[i], limit)
    ensures TracksFailures(LedgerAfter(l, es), limit)
    decreases es
  {
    hide NextLedger, Can, TracksFailures;
    if es != [] {
      StepTracksFailures(l, es[0], limit);
      FailuresAreTracked(NextLedger(l, es[0]), es[1..], limit);
    }
  }

  lemma StepTracksTries(l: Ledger, e: Event, limit: RateLimit)
    requires TracksTries(l, limit) && Can(l, e) && RateFixed(e, limit) && limit.window > 0.0
    ensures TracksTries(NextLedger(l, e), limit)
  {
    hide Tracks, ReconcileBucket, Attempt, IncrementWindow;
    hide TokenBuckets.Next, TokenBuckets.Refilled, TokenBuckets.IsFull;
    var a := l.account;
    var ow := TryWindow(a.slot);
    match e
    case Admit(now, cfg) =>
      AttemptParts(CheckedOut(a.slot, now), cfg, now);
      TracksNew(ow, l.tries, a.clock, limit, now);
      TracksIncrement(ow, l.tries, a.clock, limit, now);
    case AuthFailure(now, _) => TracksNew(ow, l.tries, a.clock, limit, now);
    case Sweep(now, _, _, _) =>
      TracksLater(ow, l.tries, a.clock, limit, now);
      if NextSlot(a.slot, e).None? && a.slot.Some? {
        TracksPruned(ow.value, l.tries, a.clock, limit, now);
      }
    case Disconnect =>
    case Flow(_, _, _) =>
    case Reload(_, _) =>
    case Evict =>
  }

  /** In every history without eviction the record counts the attempts since its window began. */
  lemma {:induction false} TriesAreTracked(l: Ledger, es: seq<Event>, limit: RateLimit)
    requires TracksTries(l, limit) && CanRun(l, es) && limit.window > 0.0
    requires forall i :: 0 <= i < |es| ==> RateFixed(es[i], limit)
    ensures TracksTries(LedgerAfter(l, es), limit)
    decreases es
  {
    hide NextLedger, Can, TracksTries;
    if es != [] {
      StepTracksTries(l, es[0], limit);
      TriesAreTracked(NextLedger(l, es[0]), es[1..], limit);
    }
  }

  // ---------------------------------------------------------------------------
  // The verdict
  // ---------------------------------------------------------------------------

  /** When the window begins that this time falls into: the current one, or a new one if that is over. */
  function Begins(ow: Option<Window>, now: real, limit: RateLimit): real {
    if ow.Some? && now < ow.value.started + limit.window then ow.value.started else now
  }

  /** How many of these times lie in the window that this time falls into. */
  ghost function InWindow(ow: Option<Window>, times: seq<real>, now: real, limit: RateLimit): nat {
    Count(times, During(Begins(ow, now, limit), limit.window))
  }

  lemma WindowHolds(ow: Option<Window>, times: seq<real>, clock: real, limit: RateLimit, now: real)
    requires Tracks(ow, times, clock, limit) && clock <= now && limit.window > 0.0
    ensures Begins(ow, now, limit) <= now < Begins(ow, now, limit) + limit.window
    ensures ResetIfExpired(WindowAt(ow, now), limit, now).count == Capped(InWindow(ow, times, now, limit))
  {
    TracksReset(ow, times, clock, limit, now);
    var w := ResetIfExpired(WindowAt(ow, now), limit, now);
    assert w.started == Begins(ow, now, limit);
    SinceIsDuring(w, times, now, limit);
  }

  ghost predicate TooManyFailures(l: Ledger, cfg: RateLimits, now: real) {
    && cfg.authFailureRate.Some?
    && var limit := cfg.authFailureRate.value;
       InWindow(FailureWindow(l.account.slot), l.failures, now, limit) >= limit.limit
  }

  ghost predicate TooManyLive(l: Ledger, cfg: RateLimits) {
    cfg.concurrentConnections.Some? && l.account.live >= cfg.concurrentConnections.value
  }

  ghost predicate TooManyTries(l: Ledger, cfg: RateLimits, now: real) {
    && cfg.connectionRate.Some?
    && var limit := cfg.connectionRate.value;
       limit.limit < U64_MAX && InWindow(TryWindow(l.account.slot), l.tries, now, limit) >= limit.limit
  }

  /** Everything an event that looks at the windows does is under one configuration, and nothing is evicted. */
  ghost predicate Under(e: Event, cfg: RateLimits) {
    !e.Evict? && (e.Admit? || e.AuthFailure? || e.Sweep? ==> e.cfg == cfg)
  }

  /** The windows a configuration asks for have a length. */
  predicate RealWindows(cfg: RateLimits) {
    && (cfg.authFailureRate.Some? ==> cfg.authFailureRate.value.window > 0.0)
    && (cfg.connectionRate.Some? ==> cfg.connectionRate.value.window > 0.0)
  }

  ghost predicate InOrder(l: Ledger, cfg: RateLimits) {
    && Counted(l.account)
    && (cfg.authFailureRate.Some? ==> TracksFailures(l, cfg.authFailureRate.value))
    && (cfg.connectionRate.Some? ==> TracksTries(l, cfg.connectionRate.value))
  }

  lemma FailuresDecide(l: Ledger, cfg: RateLimits, now: real)
    requires InOrder(l, cfg) && l.account.clock <= now && RealWindows(cfg)
    ensures IsLimitExceeded(CheckedOut(l.account.slot, now).authFailures, cfg.authFailureRate, now).0
            <==> TooManyFailures(l, cfg, now)
  {
    hide InWindow, Tracks, ResetIfExpired;
    if cfg.authFailureRate.Some? {
      WindowHolds(FailureWindow(l.account.slot), l.failures, l.account.clock, cfg.authFailureRate.value, now);
    }
  }

  lemma TriesDecide(l: Ledger, cfg: RateLimits, now: real)
    requires InOrder(l, cfg) && l.account.clock <= now && RealWindows(cfg)
    ensures IncrementWindow(CheckedOut(l.account.slot, now).connections, cfg.connectionRate, now).0
            <==> TooManyTries(l, cfg, now)
  {
    hide InWindow, Tracks, ResetIfExpired;
    if cfg.connectionRate.Some? {
      WindowHolds(TryWindow(l.account.slot), l.tries, l.account.clock, cfg.connectionRate.value, now);
    }
  }

  lemma VerdictIs(l: Ledger, cfg: RateLimits, now: real)
    requires InOrder(l, cfg) && l.account.clock <= now && RealWindows(cfg)
    ensures Verdict(l.account.slot, now, cfg) ==
            if TooManyFailures(l, cfg, now) then Some(AuthFailureRate)
            else if TooManyLive(l, cfg) then Some(ConcurrentConnections)
            else if TooManyTries(l, cfg, now) then Some(ConnectionRate)
            else None
  {
    hide Attempt, TooManyFailures, TooManyTries, IsLimitExceeded, IncrementWindow, Tracks;
    AttemptParts(CheckedOut(l.account.slot, now), cfg, now);
    FailuresDecide(l, cfg, now);
    TriesDecide(l, cfg, now);
    var v := Verdict(l.account.slot, now, cfg);
    assert v.Some? ==> v.value.AuthFailureRate? || v.value.ConcurrentConnections? || v.value.ConnectionRate?;
  }

  lemma {:induction false} RunStaysInOrder(l: Ledger, es: seq<Event>, cfg: RateLimits)
    requires InOrder(l, cfg) && CanRun(l, es) && RealWindows(cfg)
    requires forall i :: 0 <= i < |es| ==> Under(es[i], cfg)
    ensures InOrder(LedgerAfter(l, es), cfg)
  {
    hide NextLedger, Can, TracksFailures, TracksTries;
    SameRuns(l, es);
    PermitsAreCounted(l.account, es);
    if cfg.authFailureRate.Some? {
      FailuresAreTracked(l, es, cfg.authFailureRate.value);
    }
    if cfg.connectionRate.Some? {
      TriesAreTracked(l, es, cfg.connectionRate.value);
    }
  }

  /**
   After every history without eviction, under one configuration, an admission is denied for
   failed logins exactly if the window holds that many failures, else for concurrency exactly if
   that many permits are live, else for the connection rate exactly if the window holds that many
   attempts, and is granted in every other case.
   */
  lemma DecidedExactly(start: real, es: seq<Event>, cfg: RateLimits, now: real)
    requires CanRun(NewLedger(start), es) && RealWindows(cfg)
    requires forall i :: 0 <= i < |es| ==> Under(es[i], cfg)
    requires LedgerAfter(NewLedger(start), es).account.clock <= now
    ensures var l := LedgerAfter(NewLedger(start), es);
            Verdict(l.account.slot, now, cfg) ==
            if TooManyFailures(l, cfg, now) then Some(AuthFailureRate)
            else if TooManyLive(l, cfg) then Some(ConcurrentConnections)
            else if TooManyTries(l, cfg, now) then Some(ConnectionRate)
            else None
  {
    assert InOrder(NewLedger(start), cfg);
    hide InOrder, TooManyFailures, TooManyLive, TooManyTries, Verdict, CanRun, LedgerAfter;
    RunStaysInOrder(NewLedger(start), es, cfg);
    VerdictIs(LedgerAfter(NewLedger(start), es), cfg, now);
  }

  /** Who is denied for failed logins has failed that often within the last window length. */
  lemma DeniedOnlyForFailures(start: real, es: seq<Event>, cfg: RateLimits, now: real)
    requires CanRun(NewLedger(start), es) && RealWindows(cfg)
    requires forall i :: 0 <= i < |es| ==> Under(es[i], cfg)
    requires LedgerAfter(NewLedger(start), es).account.clock <= now
    requires Verdict(LedgerAfter(NewLedger(start), es).account.slot, now, cfg) == Some(AuthFailureRate)
    ensures cfg.authFailureRate.Some?
    ensures var limit, l := cfg.authFailureRate.value, LedgerAfter(NewLedger(start), es);
            Count(l.failures, Above(now - limit.window)) >= limit.limit
  {
    assert InOrder(NewLedger(start), cfg);
    hide InOrder, CanRun, LedgerAfter;
    RunStaysInOrder(NewLedger(start), es, cfg);
    FailuresAreRecent(LedgerAfter(NewLedger(start), es), cfg, now);
  }

  lemma FailuresAreRecent(l: Ledger, cfg: RateLimits, now: real)
    requires InOrder(l, cfg) && l.account.clock <= now && RealWindows(cfg)
    requires Verdict(l.account.slot, now, cfg) == Some(AuthFailureRate)
    ensures cfg.authFailureRate.Some?
    ensures var limit := cfg.authFailureRate.value; Count(l.failures, Above(now - limit.window)) >= limit.limit
  {
    hide Verdict, Count, Tracks;
    VerdictIs(l, cfg, now);
    var limit := cfg.authFailureRate.value;
    var ow := FailureWindow(l.account.slot);
    WindowHolds(ow, l.failures, l.account.clock, limit, now);
    CountNothing(l.failures, x => false);
    CountCovered(l.failures, During(Begins(ow, now, limit), limit.window), Above(now - limit.window), x => false);
  }

  // ---------------------------------------------------------------------------
  // Locked out
  // ---------------------------------------------------------------------------

  function Reading(e: Event): Option<real> {
    if e.Admit? || e.AuthFailure? || e.Sweep? then Some(e.now) else None
  }

  ghost predicate Before(e: Event, end: real) {
    Reading(e).Some? ==> Reading(e).value < end
  }

  /** The current failure window began at `from` and has counted this many, at least one. */
  ghost predicate Counting(a: Account, from: real, n: nat) {
    a.slot.Some? && a.slot.value.authFailures == Window(from, Capped(n)) && n >= 1
  }

  lemma StepCounting(a: Account, e: Event, limit: RateLimit, from: real, n: nat)
    requires Counting(a, from, n) && Possible(a.slot, a.live, a.clock, e)
    requires FailuresSet(e, limit) && Before(e, from + limit.window) && limit.window > 0.0
    ensures Counting(NextAccount(a, e), from, if e.AuthFailure? then n + 1 else n)
    ensures e.Admit? && n >= limit.limit ==> Verdict(a.slot, e.now, e.cfg) == Some(AuthFailureRate)
    ensures e.Admit? && n < limit.limit ==> Verdict(a.slot, e.now, e.cfg) != Some(AuthFailureRate)
  {
    hide ReconcileBucket, TokenBuckets.Next, TokenBuckets.Refilled, TokenBuckets.IsFull, Attempt;
    if e.Admit? {
      AttemptParts(CheckedOut(a.slot, e.now), e.cfg, e.now);
    }
  }

  /** How many failed logins there are among these events. */
  function Failures(es: seq<Event>): nat {
    if es == [] then 0 else (if es[0].AuthFailure? then 1 else 0) + Failures(es[1..])
  }

  lemma {:induction false} KeepsCounting(a: Account, es: seq<Event>, limit: RateLimit, from: real, n: nat)
    requires Counting(a, from, n) && PossibleRun(a, es) && limit.window > 0.0
    requires forall i :: 0 <= i < |es| ==> FailuresSet(es[i], limit) && Before(es[i], from + limit.window)
    ensures Counting(AccountAfter(a, es), from, n + Failures(es))
    decreases es
  {
    hide NextAccount, Possible, Counting, FailuresSet, Before;
    if es != [] {
      StepCounting(a, es[0], limit, from, n);
      KeepsCounting(NextAccount(a, es[0]), es[1..], limit, from, if es[0].AuthFailure? then n + 1 else n);
    }
  }

  /** While a window with that many failures lasts nobody gets in, whatever is tried, closed or swept. */
  lemma {:induction false} LockedOut(a: Account, es: seq<Event>, limit: RateLimit, from: real, n: nat)
    requires Counting(a, from, n) && n >= limit.limit && PossibleRun(a, es) && limit.window > 0.0
    requires forall i :: 0 <= i < |es| ==> FailuresSet(es[i], limit) && Before(es[i], from + limit.window)
    ensures AccountAfter(a, es).admitted == a.admitted
    decreases es
  {
    hide Possible, Counting, FailuresSet, Before, Attempt;
    if es != [] {
      StepCounting(a, es[0], limit, from, n);
      LockedOut(NextAccount(a, es[0]), es[1..], limit, from, if es[0].AuthFailure? then n + 1 else n);
    }
  }

  /** The current failure window, if there is a record, began no later than this. */
  ghost predicate BegunBy(s: Slot, bound: real) {
    s.Some? ==> s.value.authFailures.started <= bound
  }

  predicate Touches(e: Event) {
    e.Admit? || e.AuthFailure?
  }

  lemma StepBegunBy(a: Account, e: Event, bound: real)
    requires BegunBy(a.slot, bound) && Possible(a.slot, a.live, a.clock, e) && (Touches(e) ==> e.now <= bound)
    ensures BegunBy(NextAccount(a, e).slot, bound)
  {
    hide ReconcileBucket, TokenBuckets.Next, TokenBuckets.Refilled, TokenBuckets.IsFull, Attempt;
    if e.Admit? {
      AttemptParts(CheckedOut(a.slot, e.now), e.cfg, e.now);
    }
  }

  /** Windows begin only when somebody connects or fails to log in. */
  lemma {:induction false} RunBegunBy(a: Account, es: seq<Event>, bound: real)
    requires BegunBy(a.slot, bound) && PossibleRun(a, es)
    requires forall i :: 0 <= i < |es| && Touches(es[i]) ==> es[i].now <= bound
    ensures BegunBy(AccountAfter(a, es).slot, bound)
    decreases es
  {
    hide NextAccount, Possible, BegunBy;
    if es != [] {
      StepBegunBy(a, es[0], bound);
      RunBegunBy(NextAccount(a, es[0]), es[1..], bound);
    }
  }

  /** A failed login after a window length in which nobody came begins a window. */
  lemma FailureBegins(a: Account, f: real, cfg: RateLimits, limit: RateLimit)
    requires cfg.authFailureRate == Some(limit) && limit.window > 0.0
    requires Possible(a.slot, a.live, a.clock, AuthFailure(f, cfg)) && BegunBy(a.slot, f - limit.window)
    ensures Counting(NextAccount(a, AuthFailure(f, cfg)), f, 1)
  {
  }

  /**
   From the events alone: a failed login that comes after a window length without attempts opens
   a window; until that window is over an admission is denied for failed logins if and only if
   the failures since, that one included, have reached the limit. Sweeps change nothing.
   */
  lemma LockoutIsExact(start: real, quiet: seq<Event>, f: real, cfg: RateLimits, limit: RateLimit,
                       es: seq<Event>, now: real)
    requires cfg.authFailureRate == Some(limit) && limit.window > 0.0
    requires PossibleRun(Opened(start), quiet)
    requires forall i :: 0 <= i < |quiet| && Touches(quiet[i]) ==> quiet[i].now <= f - limit.window
    requires var a := AccountAfter(Opened(start), quiet); PossibleRun(a, [AuthFailure(f, cfg)] + es)
    requires forall i :: 0 <= i < |es| ==> FailuresSet(es[i], limit) && Before(es[i], f + limit.window)
    requires now < f + limit.window
    requires AccountAfter(AccountAfter(Opened(start), quiet), [AuthFailure(f, cfg)] + es).clock <= now
    ensures var a := AccountAfter(AccountAfter(Opened(start), quiet), [AuthFailure(f, cfg)] + es);
            Verdict(a.slot, now, cfg) == Some(AuthFailureRate) <==> 1 + Failures(es) >= limit.limit
  {
    hide NextAccount, Possible, BegunBy, FailuresSet, Before, Counting, Attempt;
    var fail := AuthFailure(f, cfg);
    var a := AccountAfter(Opened(start), quiet);
    assert ([fail] + es)[1..] == es && ([fail] + es)[0] == fail;
    assert BegunBy(Opened(start).slot, f - limit.window) by { NothingBegun(start, f - limit.window); }
    RunBegunBy(Opened(start), quiet, f - limit.window);
    FailureBegins(a, f, cfg, limit);
    KeepsCounting(NextAccount(a, fail), es, limit, f, 1);
    var b := AccountAfter(a, [fail] + es);
    assert b == AccountAfter(NextAccount(a, fail), es);
    var e := Admit(now, cfg);
    LastStep(b, e, limit, f);
    StepCounting(b, e, limit, f, 1 + Failures(es));
  }

  /** An eviction is what the lockout does not survive: a new record has no failures. */
  lemma EvictionForgetsFailures(a: Account, cfg: RateLimits, now: real)
    requires Possible(a.slot, a.live, a.clock, Evict)
    ensures Verdict(NextAccount(a, Evict).slot, now, cfg) == Some(AuthFailureRate) <==>
            cfg.authFailureRate.Some? && cfg.authFailureRate.value.limit == 0
  {
    hide Attempt;
    AttemptParts(NewClient(now), cfg, now);
  }

  lemma NothingBegun(start: real, bound: real)
    ensures BegunBy(Opened(start).slot, bound)
  {
  }

  lemma LastStep(a: Account, e: Event, limit: RateLimit, f: real)
    requires e.Admit? && a.clock <= e.now < f + limit.window && e.cfg.authFailureRate == Some(limit)
    ensures Possible(a.slot, a.live, a.clock, e) && FailuresSet(e, limit) && Before(e, f + limit.window)
  {
  }

  // ---------------------------------------------------------------------------
  // What a sweep removes
  // ---------------------------------------------------------------------------

  /** Nothing counted in the window matters any more. */
  ghost predicate Past(w: Window, times: seq<real>, limit: Option<RateLimit>, now: real) {
    limit.Some? ==>
      || now >= w.started + limit.value.window
      || Count(times, During(w.started, limit.value.window)) == 0
  }

  /**
   A sweep removes a record exactly if nobody uses it, no permit is live, both windows are over or
   have counted nothing, and the bucket, if there is one, is free and as full as a new one.
   */
  lemma SweptIff(l: Ledger, e: Event)
    requires e.Sweep? && InOrder(l, e.cfg) && RealWindows(e.cfg) && Can(l, e) && l.account.slot.Some?
    ensures var c := l.account.slot.value;
            NextSlot(l.account.slot, e).None? <==>
            && !e.stateBusy && l.account.live == 0
            && Past(c.connections, l.tries, e.cfg.connectionRate, e.now)
            && Past(c.authFailures, l.failures, e.cfg.authFailureRate, e.now)
            && (c.bandwidth.Some? ==> !e.bucketBusy && TokenBuckets.IsFull(c.bandwidth.value, e.now))
  {
    hide Tracks, TokenBuckets.IsFull, TokenBuckets.Refilled, WindowIsPrunable;
    var a, cfg := l.account, e.cfg;
    var c := a.slot.value;
    if cfg.connectionRate.Some? {
      PrunableIff(c.connections, l.tries, a.clock, cfg.connectionRate.value, e.now);
    } else {
      UnlimitedIsPrunable(c.connections, e.now);
    }
    if cfg.authFailureRate.Some? {
      PrunableIff(c.authFailures, l.failures, a.clock, cfg.authFailureRate.value, e.now);
    } else {
      UnlimitedIsPrunable(c.authFailures, e.now);
    }
  }

  lemma UnlimitedIsPrunable(w: Window, now: real)
    ensures WindowIsPrunable(w, None, now)
  {
  }
}
