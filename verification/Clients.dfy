/**
 What the abuse controls do to the record of one client: its two counting windows, its
 live connections and its bandwidth bucket, as functions on values.
 */
module Clients {
  import opened Options
  import opened TokenBuckets

  const U64_MAX: nat := 0xFFFF_FFFF_FFFF_FFFF

  type U64 = x: nat | x <= U64_MAX

  datatype RateLimit = RateLimit(limit: U64, window: real)

  datatype RateLimits = RateLimits(
    connectionRate: Option<RateLimit>, authFailureRate: Option<RateLimit>,
    concurrentConnections: Option<nat>, byteRate: Option<RateLimit>)

  /** Limits the configuration parser lets through. */
  predicate Proper(cfg: RateLimits) {
    cfg.byteRate.Some? ==> !Degenerate(cfg.byteRate.value.limit, cfg.byteRate.value.window)
  }

  datatype Window = Window(started: real, count: U64)

  datatype Client = Client(connections: Window, authFailures: Window, bandwidth: Option<Bucket>, active: nat)

  datatype DenialReason = ConnectionRate | AuthFailureRate | ConcurrentConnections

  function NewClient(now: real): Client {
    Client(Window(now, 0), Window(now, 0), None, 0)
  }

  // ---------------------------------------------------------------------------
  // Windows
  // ---------------------------------------------------------------------------

  /** Whether a full window has passed; a reading before the start counts as no time at all. */
  predicate WindowOver(w: Window, limit: RateLimit, now: real) {
    Max(0.0, now - w.started) >= limit.window
  }

  function ResetIfExpired(w: Window, limit: RateLimit, now: real): Window {
    if WindowOver(w, limit, now) then Window(now, 0) else w
  }

  function IsLimitExceeded(w: Window, limit: Option<RateLimit>, now: real): (bool, Window) {
    if limit.None? then (false, w)
    else
      var r := ResetIfExpired(w, limit.value, now);
      (r.count >= limit.value.limit, r)
  }

  function IncrementWindow(w: Window, limit: Option<RateLimit>, now: real): (bool, Window) {
    if limit.None? then (false, w)
    else
      var r := ResetIfExpired(w, limit.value, now);
      var count := if r.count == U64_MAX then U64_MAX else r.count + 1;
      (count > limit.value.limit, r.(count := count))
  }

  predicate WindowIsPrunable(w: Window, limit: Option<RateLimit>, now: real) {
    limit.None? || w.count == 0 || WindowOver(w, limit.value, now)
  }

  // ---------------------------------------------------------------------------
  // The record of a client
  // ---------------------------------------------------------------------------

  /** Creates, retunes or drops a bandwidth bucket as the configuration asks. */
  function ReconcileBucket(bandwidth: Option<Bucket>, cfg: RateLimits, now: real): Option<Bucket> {
    match (cfg.byteRate, bandwidth)
    case (Some(limit), None) => FromRateWindow(limit.limit, limit.window, now)
    case (Some(limit), Some(b)) => Some(Retuned(b, limit.limit, limit.window, now))
    case (None, _) => None
  }

  function Reconcile(c: Client, cfg: RateLimits, now: real): Client {
    c.(bandwidth := ReconcileBucket(c.bandwidth, cfg, now))
  }

  /** An admission attempt: the reason of a denial, if any, and the record afterwards. */
  function Attempt(c: Client, cfg: RateLimits, now: real): (Option<DenialReason>, Client) {
    var (tooManyFailures, failures) := IsLimitExceeded(c.authFailures, cfg.authFailureRate, now);
    var c1 := c.(authFailures := failures);
    if tooManyFailures then (Some(AuthFailureRate), c1)
    else if cfg.concurrentConnections.Some? && c1.active >= cfg.concurrentConnections.value then
      (Some(ConcurrentConnections), c1)
    else
      var (tooFast, connections) := IncrementWindow(c1.connections, cfg.connectionRate, now);
      var c2 := c1.(connections := connections);
      if tooFast then (Some(ConnectionRate), c2)
      else (None, Reconcile(c2.(active := c2.active + 1), cfg, now))
  }

  function CountAuthFailure(c: Client, cfg: RateLimits, now: real): Client {
    c.(authFailures := IncrementWindow(c.authFailures, cfg.authFailureRate, now).1)
  }

  /** Saturating subtraction of one. */
  function Less(n: nat): nat {
    if n == 0 then 0 else n - 1
  }

  function Dropped(c: Client): Client {
    c.(active := Less(c.active))
  }

  /** Idle, with nothing remembered that still matters; a bucket in use cannot be looked at. */
  predicate Expired(c: Client, cfg: RateLimits, now: real, bucketBusy: bool) {
    && c.active == 0
    && WindowIsPrunable(c.connections, cfg.connectionRate, now)
    && WindowIsPrunable(c.authFailures, cfg.authFailureRate, now)
    && (c.bandwidth.None? || (!bucketBusy && IsFull(c.bandwidth.value, now)))
  }

  /** Looking at the bucket refills it. */
  function Examined(c: Client, cfg: RateLimits, now: real, bucketBusy: bool): Client {
    if c.active == 0
       && WindowIsPrunable(c.connections, cfg.connectionRate, now)
       && WindowIsPrunable(c.authFailures, cfg.authFailureRate, now)
       && c.bandwidth.Some? && !bucketBusy
    then c.(bandwidth := Some(Refilled(c.bandwidth.value, now)))
    else c
  }

  /** A window denies for ever only because its counter can pass the limit: not at the largest limit. */
  lemma LargestLimitNeverDenies(w: Window, limit: RateLimit, now: real)
    ensures limit.limit == U64_MAX ==> !IncrementWindow(w, Some(limit), now).0
    ensures limit.limit < U64_MAX ==>
              (IncrementWindow(w, Some(limit), now).0 <==> ResetIfExpired(w, limit, now).count >= limit.limit)
  {
  }
}
