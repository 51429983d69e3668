/**
 The shared abuse controls: the table of tracked clients, the permits handed out, and the
 operations that admit, count, release, prune, evict and reload. Locks that cannot be tried
 successfully are given by the caller as sets of busy objects.
 */
module Abuse {
  import opened Options
  import opened TokenBuckets
  import opened Clients
  import opened ClientRuns

  const PRUNE_EVERY_N_ADMISSIONS: nat := 64
  const MAX_TRACKED_CLIENTS: nat := 65_536

  type Ip = nat

  predicate ProperBytes(cfg: RateLimits) {
    cfg.byteRate.Some? && Proper(cfg)
  }

  /** Whether a record has a bucket once it has been reconciled. */
  predicate HasBucket(had: bool, cfg: RateLimits) {
    cfg.byteRate.Some? && (had || ProperBytes(cfg))
  }

  /** A reload that neither switches the byte rate on nor off. */
  predicate StaysLimited(cfg: RateLimits, cfg': RateLimits) {
    cfg'.byteRate == cfg.byteRate || (ProperBytes(cfg) && ProperBytes(cfg'))
  }

  class ClientState {
    var connections: Window
    var authFailures: Window
    var bandwidth: TokenBucket?
    var activeConnections: nat

    ghost function View(): Client
      reads this, bandwidth
    {
      Client(connections, authFailures, if bandwidth == null then None else Some(bandwidth.View()), activeConnections)
    }

    constructor (now: real)
      ensures View() == NewClient(now) && bandwidth == null
    {
      connections, authFailures, bandwidth, activeConnections := Window(now, 0), Window(now, 0), null, 0;
    }

    method IsLimitExceeded(limit: Option<RateLimit>, now: real) returns (exceeded: bool)
      modifies this`authFailures
      ensures (exceeded, authFailures) == Clients.IsLimitExceeded(old(authFailures), limit, now)
    {
      if limit.None? {
        return false;
      }
      authFailures := ResetIfExpired(authFailures, limit.value, now);
      exceeded := authFailures.count >= limit.value.limit;
    }

    method CountConnection(limit: Option<RateLimit>, now: real) returns (exceeded: bool)
      modifies this`connections
      ensures (exceeded, connections) == IncrementWindow(old(connections), limit, now)
    {
      if limit.None? {
        return false;
      }
      connections := ResetIfExpired(connections, limit.value, now);
      if connections.count < U64_MAX {
        connections := connections.(count := connections.count + 1);
      }
      exceeded := connections.count > limit.value.limit;
    }

    method CountFailure(limit: Option<RateLimit>, now: real)
      modifies this`authFailures
      ensures authFailures == IncrementWindow(old(authFailures), limit, now).1
    {
      if limit.Some? {
        authFailures := ResetIfExpired(authFailures, limit.value, now);
        if authFailures.count < U64_MAX {
          authFailures := authFailures.(count := authFailures.count + 1);
        }
      }
    }

    /** Creates, retunes in place or drops the bucket; only a retune reaches flows that hold it already. */
    method ReconcileBandwidth(cfg: RateLimits, now: real, addr: nat)
      modifies this`bandwidth, bandwidth
      ensures View() == Reconcile(old(View()), cfg, now)
      ensures bandwidth == null || bandwidth == old(bandwidth) || fresh(bandwidth)
      ensures old(bandwidth) != null && cfg.byteRate.Some? ==> bandwidth == old(bandwidth)
      ensures bandwidth != null <==> HasBucket(old(bandwidth) != null, cfg)
    {
      if cfg.byteRate.Some? {
        var limit := cfg.byteRate.value;
        if bandwidth == null {
          if limit.limit != 0 && limit.window > 0.0 {
            bandwidth := new TokenBucket(addr, limit.limit as real / limit.window, limit.limit as real, now);
          }
        } else {
          bandwidth.UpdateRateWindow(limit.limit, limit.window, now);
        }
      } else {
        bandwidth := null;
      }
    }

    /** The decision on one connection, with this record locked. */
    method TryAdmit(cfg: RateLimits, now: real, addr: nat) returns (denial: Option<DenialReason>)
      modifies this, bandwidth
      ensures (denial, View()) == Attempt(old(View()), cfg, now)
      ensures activeConnections == old(activeConnections) + if denial.None? then 1 else 0
      ensures bandwidth == null || bandwidth == old(bandwidth) || fresh(bandwidth)
      ensures denial.Some? || (old(bandwidth) != null && cfg.byteRate.Some?) ==> bandwidth == old(bandwidth)
      ensures denial.None? ==> (bandwidth != null <==> HasBucket(old(bandwidth) != null, cfg))
    {
      hide Clients.IsLimitExceeded, IncrementWindow, FromRateWindow, Retuned;
      var tooManyFailures := IsLimitExceeded(cfg.authFailureRate, now);
      if tooManyFailures {
        return Some(AuthFailureRate);
      }
      if cfg.concurrentConnections.Some? && activeConnections >= cfg.concurrentConnections.value {
        return Some(ConcurrentConnections);
      }
      var tooFast := CountConnection(cfg.connectionRate, now);
      if tooFast {
        return Some(ConnectionRate);
      }
      activeConnections := activeConnections + 1;
      ReconcileBandwidth(cfg, now, addr);
      denial := None;
    }

    method IsExpired(cfg: RateLimits, now: real, bucketBusy: bool) returns (expired: bool)
      modifies bandwidth
      ensures expired == Expired(old(View()), cfg, now, bucketBusy)
      ensures View() == Examined(old(View()), cfg, now, bucketBusy)
    {
      if activeConnections != 0
         || !WindowIsPrunable(connections, cfg.connectionRate, now)
         || !WindowIsPrunable(authFailures, cfg.authFailureRate, now) {
        return false;
      }
      if bandwidth == null {
        return true;
      }
      if bucketBusy {
        return false;
      }
      expired := bandwidth.Full(now);
    }
  }

  class ClientPermit {
    const ip: Ip
    const state: ClientState
    const bandwidth: TokenBucket?

    constructor (ip: Ip, state: ClientState, bandwidth: TokenBucket?)
      ensures this.ip == ip && this.state == state && this.bandwidth == bandwidth
    {
      this.ip, this.state, this.bandwidth := ip, state, bandwidth;
    }
  }

  /** What one sweep may do to a record: leave it, look at its bucket, or drop it when expired. */
  ghost predicate Swept(s: Slot, s': Slot, cfg: RateLimits, now: real) {
    s' == s || exists bucketBusy: bool :: s' == NextSlot(s, Sweep(now, cfg, false, bucketBusy))
  }

  ghost predicate Evicted(s: Slot, s': Slot) {
    s.Some? && s.value.active == 0 && s'.None?
  }

  /** What any operation may do to the record of another client. */
  ghost predicate Bystander(s: Slot, s': Slot, cfg: RateLimits, now: real) {
    exists mid: Slot :: Swept(s, mid, cfg, now) && (s' == mid || Evicted(mid, s'))
  }

  datatype Outcome = Admitted(permit: ClientPermit) | Denied(reason: DenialReason)

  // The table and the permits of an instance, as far as the invariant speaks of them.

  ghost function BucketsIn(m: map<Ip, ClientState>): set<TokenBucket>
    reads m.Values
  {
    set s | s in m.Values && s.bandwidth != null :: s.bandwidth
  }

  /** The live permits of an address. */
  ghost function Held(permits: set<ClientPermit>, ip: Ip): set<ClientPermit> {
    set p | p in permits && p.ip == ip
  }

  /** All live permits of an address point to the one record the table has for it. */
  ghost predicate Pointed(m: map<Ip, ClientState>, permits: set<ClientPermit>) {
    forall p :: p in permits ==> p.ip in m && m[p.ip] == p.state
  }

  /** Every record counts the live permits of its address. */
  ghost predicate Tallied(m: map<Ip, ClientState>, permits: set<ClientPermit>)
    reads m.Values
  {
    forall ip :: ip in m ==> m[ip].activeConnections == |Held(permits, ip)|
  }

  /**
   Every live permit charges the very bucket of its record: all connections of an address
   share one bucket, and there is one exactly where the byte rate calls for it.
   */
  ghost predicate Shared(permits: set<ClientPermit>, cfg: RateLimits)
    reads set p | p in permits :: p.state
  {
    forall p :: p in permits ==>
      && p.bandwidth == p.state.bandwidth
      && (ProperBytes(cfg) ==> p.bandwidth != null) && (cfg.byteRate.None? ==> p.bandwidth == null)
  }

  /** Neither records nor buckets are shared between addresses. */
  ghost predicate Separate(m: map<Ip, ClientState>)
    reads m.Values
  {
    && (forall i, j :: i in m && j in m && i != j ==> m[i] != m[j])
    && (forall i, j :: i in m && j in m && i != j && m[i].bandwidth != null ==> m[i].bandwidth != m[j].bandwidth)
  }

  ghost function SlotIn(m: map<Ip, ClientState>, ip: Ip): Slot
    reads m.Values, BucketsIn(m)
  {
    if ip in m then
      assert m[ip] in m.Values;
      assert m[ip].bandwidth != null ==> m[ip].bandwidth in BucketsIn(m);
      Some(m[ip].View())
    else None
  }

  class AbuseControls {
    var config: RateLimits
    var clients: map<Ip, ClientState>
    var admissions: U64
    ghost var permits: set<ClientPermit>

    constructor (cfg: RateLimits)
      ensures Valid() && config == cfg && clients == map[] && permits == {} && Shared(permits, config)
    {
      config, clients, admissions, permits := cfg, map[], 0, {};
    }

    ghost predicate Valid()
      reads this, clients.Values
    {
      Separate(clients) && Pointed(clients, permits) && Tallied(clients, permits)
    }

    ghost function SlotOf(ip: Ip): Slot
      reads this, clients.Values, BucketsIn(clients)
    {
      SlotIn(clients, ip)
    }

    /** What a sweep makes of a record: nothing if it is in use, else what its test decides. */
    ghost function Visited(
      ip: Ip, cfg: RateLimits, now: real, busyStates: set<ClientState>, busyBuckets: set<TokenBucket>): Slot
      reads this, clients.Values, BucketsIn(clients)
    {
      if ip !in clients || clients[ip] in busyStates then SlotOf(ip)
      else
        var bucketBusy := clients[ip].bandwidth != null && clients[ip].bandwidth in busyBuckets;
        NextSlot(SlotOf(ip), Sweep(now, cfg, false, bucketBusy))
    }

    /** The test of one entry, and its removal. */
    method PruneOne(ip: Ip, cfg: RateLimits, now: real, bucketBusy: bool)
      requires Valid() && ip in clients
      modifies this`clients, clients[ip].bandwidth
      ensures Valid()
      ensures clients == old(clients) || clients == old(clients) - {ip}
      ensures SlotOf(ip) == NextSlot(old(SlotOf(ip)), Sweep(now, cfg, false, bucketBusy))
      ensures forall j: Ip :: j != ip ==> SlotOf(j) == old(SlotOf(j))
    {
      hide Expired, Examined;
      ghost var before := clients[ip].View();
      var expired := clients[ip].IsExpired(cfg, now, bucketBusy);
      assert SlotOf(ip) == Some(Examined(before, cfg, now, bucketBusy));
      assert forall j: Ip :: j != ip ==> SlotOf(j) == old(SlotOf(j));
      if expired {
        ExpiredIsIdle(before, cfg, now, bucketBusy);
        NobodyHolds(ip);
        clients := clients - {ip};
      }
    }

    /** One entry of the sweep; an entry that is in use is left alone. */
    method VisitOne(ip: Ip, cfg: RateLimits, now: real, busyStates: set<ClientState>, busyBuckets: set<TokenBucket>)
      requires Valid() && ip in clients
      modifies this`clients, clients[ip].bandwidth
      ensures Valid()
      ensures clients == old(clients) || clients == old(clients) - {ip}
      ensures SlotOf(ip) == old(Visited(ip, cfg, now, busyStates, busyBuckets))
      ensures forall j: Ip :: j != ip ==> SlotOf(j) == old(SlotOf(j))
    {
      hide NextSlot, Separate, Tallied;
      var state := clients[ip];
      if state !in busyStates {
        var bucketBusy := state.bandwidth != null && state.bandwidth in busyBuckets;
        PruneOne(ip, cfg, now, bucketBusy);
      }
    }

    lemma NobodyHolds(ip: Ip)
      requires Valid() && ip in clients && clients[ip].activeConnections == 0
      ensures forall p :: p in permits ==> p.ip != ip
    {
      assert Held(permits, ip) == {};
      forall p | p in permits ensures p.ip != ip {
        assert p.ip == ip ==> p in Held(permits, ip);
      }
    }

    method PruneExpiredClients(cfg: RateLimits, now: real, busyStates: set<ClientState>, busyBuckets: set<TokenBucket>)
      requires Valid()
      modifies this`clients, BucketsIn(clients)
      ensures Valid()
      ensures Within(clients, old(clients))
      ensures forall ip: Ip :: SlotOf(ip) == old(Visited(ip, cfg, now, busyStates, busyBuckets))
    {
      hide NextSlot, SlotIn, Separate, Tallied, Pointed;
      var todo := clients.Keys;
      ghost var done: set<Ip> := {};
      while todo != {}
        invariant todo <= clients.Keys
        invariant Valid()
        invariant Within(clients, old(clients))
        invariant forall ip: Ip :: ip !in done ==> SlotOf(ip) == old(SlotOf(ip))
        invariant forall ip: Ip :: ip in done ==> SlotOf(ip) == old(Visited(ip, cfg, now, busyStates, busyBuckets))
        invariant done !! todo && done + todo == old(clients).Keys
        decreases todo
      {
        var ip :| ip in todo;
        todo := todo - {ip};
        done := done + {ip};
        assert clients[ip] in old(clients.Values);
        VisitOne(ip, cfg, now, busyStates, busyBuckets);
      }
    }

    /** The first idle entries the iteration meets, as many as are too many. */
    method PickVictims(target: nat, busyStates: set<ClientState>) returns (victims: set<Ip>)
      requires |clients| > target
      ensures victims <= clients.Keys && |victims| <= |clients| - target
      ensures forall ip :: ip in victims ==> clients[ip].activeConnections == 0
      ensures |victims| == |clients| - target || forall ip :: ip in clients && ip !in victims ==>
                clients[ip] in busyStates || clients[ip].activeConnections > 0
    {
      var todo := clients.Keys;
      victims := {};
      while todo != {} && |victims| < |clients| - target
        invariant victims + todo <= clients.Keys && victims !! todo
        invariant |victims| <= |clients| - target
        invariant forall ip :: ip in victims ==> clients[ip].activeConnections == 0
        invariant forall ip :: ip in clients && ip !in todo && ip !in victims ==>
                    clients[ip] in busyStates || clients[ip].activeConnections > 0
        decreases todo
      {
        var ip :| ip in todo;
        todo := todo - {ip};
        if clients[ip] !in busyStates && clients[ip].activeConnections == 0 {
          victims := victims + {ip};
        }
      }
    }

    /** Every record is in use or has live connections. */
    ghost predicate NoneIdle(busyStates: set<ClientState>)
      reads this, clients.Values
    {
      forall ip :: ip in clients ==> clients[ip] in busyStates || clients[ip].activeConnections > 0
    }

    /** Drops idle records until at most `target` are left, as far as there are idle ones. */
    method EvictIdleClients(target: nat, busyStates: set<ClientState>)
      requires Valid()
      modifies this`clients
      ensures Valid()
      ensures Within(clients, old(clients))
      ensures forall ip: Ip :: SlotOf(ip) == old(SlotOf(ip)) || Evicted(old(SlotOf(ip)), SlotOf(ip))
      ensures |clients| <= target || NoneIdle(busyStates)
      ensures |old(clients)| <= target ==> clients == old(clients)
      ensures |old(clients)| > target ==> target <= |clients| <= |old(clients)|
    {
      hide Valid, Evicted;
      if |clients| <= target {
        return;
      }
      var victims := PickVictims(target, busyStates);
      assert forall ip: Ip :: SlotOf(ip) == old(SlotOf(ip));
      hide SlotIn;
      RemovalShrinks(clients, victims);
      RemoveIdle(victims);
    }

    method RemoveIdle(victims: set<Ip>)
      requires Valid() && victims <= clients.Keys
      requires forall ip :: ip in victims ==> clients[ip].activeConnections == 0
      modifies this`clients
      ensures Valid()
      ensures clients == old(clients) - victims
      ensures forall ip: Ip :: SlotOf(ip) == old(SlotOf(ip)) || Evicted(old(SlotOf(ip)), SlotOf(ip))
    {
      NobodyHoldsAny(victims);
      clients := clients - victims;
    }

    lemma NobodyHoldsAny(victims: set<Ip>)
      requires Valid() && victims <= clients.Keys
      requires forall ip :: ip in victims ==> clients[ip].activeConnections == 0
      ensures forall p :: p in permits ==> p.ip !in victims
    {
      forall p | p in permits ensures p.ip !in victims {
        if p.ip in victims {
          NobodyHolds(p.ip);
        }
      }
    }

    method InsertNew(ip: Ip, now: real)
      requires Valid() && ip !in clients
      modifies this`clients
      ensures Valid()
      ensures ip in clients && clients == old(clients)[ip := clients[ip]]
      ensures fresh(clients[ip]) && clients[ip].bandwidth == null
      ensures SlotOf(ip) == Some(NewClient(now))
      ensures forall j: Ip :: j != ip ==> SlotOf(j) == old(SlotOf(j))
      ensures old(Shared(permits, config)) ==> Shared(permits, config)
    {
      assert Held(permits, ip) == {};
      var state := new ClientState(now);
      clients := clients[ip := state];
    }

    method SweepIfDue(cfg: RateLimits, now: real, busyStates: set<ClientState>, busyBuckets: set<TokenBucket>)
      requires Valid()
      modifies this`clients, this`admissions, BucketsIn(clients)
      ensures Valid()
      ensures Within(clients, old(clients))
      ensures admissions == if old(admissions) == U64_MAX then 0 else old(admissions) + 1
      ensures forall ip: Ip ::
                SlotOf(ip) == if old(admissions) % PRUNE_EVERY_N_ADMISSIONS == 0
                              then old(Visited(ip, cfg, now, busyStates, busyBuckets)) else old(SlotOf(ip))
    {
      hide NextSlot;
      var due := admissions % PRUNE_EVERY_N_ADMISSIONS == 0;
      admissions := if admissions == U64_MAX then 0 else admissions + 1;
      if due {
        PruneExpiredClients(cfg, now, busyStates, busyBuckets);
      }
    }

    /** The amortized sweep, and at the cap the eviction that makes room for a new address. */
    method MakeRoom(ip: Ip, cfg: RateLimits, now: real, busyStates: set<ClientState>, busyBuckets: set<TokenBucket>)
      requires Valid()
      modifies this`clients, this`admissions, BucketsIn(clients)
      ensures Valid()
      ensures Within(clients, old(clients))
      ensures Swept(old(SlotOf(ip)), SlotOf(ip), cfg, now)
      ensures forall j: Ip :: j != ip ==> Bystander(old(SlotOf(j)), SlotOf(j), cfg, now)
      ensures ip in clients || |clients| < MAX_TRACKED_CLIENTS || NoneIdle(busyStates)
      ensures old(Shared(permits, config)) ==> Shared(permits, config)
      ensures admissions == if old(admissions) == U64_MAX then 0 else old(admissions) + 1
    {
      hide NextSlot, Swept, Evicted, Bystander, Separate, Tallied, Pointed, SlotIn;
      SweepIfDue(cfg, now, busyStates, busyBuckets);
      forall j: Ip ensures Swept(old(SlotOf(j)), SlotOf(j), cfg, now) {
        var bucketBusy := j in old(clients) && old(clients[j].bandwidth != null && clients[j].bandwidth in busyBuckets);
        SweptByOne(old(SlotOf(j)), cfg, now, bucketBusy);
        SweptToItself(cfg, now);
      }
      label swept:
      if |clients| >= MAX_TRACKED_CLIENTS && ip !in clients {
        NoSlot(clients, ip);
        EvictIdleClients(MAX_TRACKED_CLIENTS - 1, busyStates);
        NoSlot(clients, ip);
      }
      forall j: Ip ensures Bystander(old(SlotOf(j)), SlotOf(j), cfg, now) {
        ThenMaybeEvicted(old(SlotOf(j)), old@swept(SlotOf(j)), SlotOf(j), cfg, now);
      }
    }

    /** Every record but this one is in use or has live connections: there was nothing to evict. */
    ghost predicate OthersInUse(ip: Ip, busyStates: set<ClientState>)
      reads this, clients.Values
    {
      forall j :: j in clients && j != ip ==> clients[j] in busyStates || clients[j].activeConnections > 0
    }

    /** Looks up or creates the record of `ip`, after the sweeps that keep the table bounded. */
    method CheckoutState(
      ip: Ip, cfg: RateLimits, now: real, busyStates: set<ClientState>, busyBuckets: set<TokenBucket>)
      returns (state: ClientState)
      requires Valid()
      modifies this`clients, this`admissions, BucketsIn(clients)
      ensures Valid()
      ensures ip in clients && clients[ip] == state
      ensures Within(clients - {ip}, old(clients))
      ensures (ip in old(clients) && state == old(clients)[ip]) || (fresh(state) && state.bandwidth == null)
      ensures exists mid: Slot :: Swept(old(SlotOf(ip)), mid, cfg, now) && SlotOf(ip) == Some(CheckedOut(mid, now))
      ensures forall j: Ip :: j != ip ==> Bystander(old(SlotOf(j)), SlotOf(j), cfg, now)
      ensures |clients| <= MAX_TRACKED_CLIENTS || |clients| <= |old(clients)| || OthersInUse(ip, busyStates)
      ensures old(Shared(permits, config)) ==> Shared(permits, config)
      ensures admissions == if old(admissions) == U64_MAX then 0 else old(admissions) + 1
    {
      hide NextSlot, Swept, Bystander, Separate, Tallied, Pointed, SlotIn, Shared;
      MakeRoom(ip, cfg, now, busyStates, busyBuckets);
      WithinIsSmaller(clients, old(clients));
      ghost var mid := SlotOf(ip);
      if ip !in clients {
        NoSlot(clients, ip);
        InsertNew(ip, now);
      } else {
        SlotIsView(clients, ip);
      }
      state := clients[ip];
      assert SlotOf(ip) == Some(CheckedOut(mid, now));
    }

    /** The record step of an admission; the caller hands out the permit that goes with it. */
    method Ask(ip: Ip, now: real, addr: nat) returns (denial: Option<DenialReason>)
      requires Valid() && ip in clients
      modifies clients[ip], clients[ip].bandwidth
      ensures Separate(clients) && Pointed(clients, permits)
      ensures forall j :: j in clients ==>
                clients[j].activeConnections == |Held(permits, j)| + if j == ip && denial.None? then 1 else 0
      ensures (denial, clients[ip].View()) == Attempt(old(clients[ip].View()), config, now)
      ensures forall j :: j in clients && j != ip ==> clients[j].View() == old(clients[j].View())
      ensures old(Shared(permits, config)) ==> Shared(permits, config)
      ensures denial.None? && ProperBytes(config) ==> clients[ip].bandwidth != null
      ensures denial.None? && config.byteRate.None? ==> clients[ip].bandwidth == null
    {
      hide Attempt, SharedAs, Shared;
      ghost var was, sharedBefore := Buckets(clients), Shared(permits, config);
      if sharedBefore {
        SharedNow(permits, clients, config);
      }
      var state := clients[ip];
      denial := state.TryAdmit(config, now, addr);
      assert forall j :: j in clients && j != ip ==> clients[j].bandwidth == was[j];
      if sharedBefore {
        RetainedIsShared(permits, clients, was, config, config);
      }
      assert forall j :: j in clients && j != ip ==> clients[j].View() == old(clients[j].View());
    }

    /** Decides with the record of `ip` in hand, and hands out the permit. */
    method Decide(ip: Ip, now: real, addr: nat) returns (r: Outcome)
      requires Valid() && ip in clients
      modifies this`permits, clients[ip], clients[ip].bandwidth
      ensures Valid()
      ensures r.Denied? ==> permits == old(permits)
      ensures r.Admitted? ==> fresh(r.permit) && permits == old(permits) + {r.permit}
      ensures r.Admitted? ==> r.permit.ip == ip && r.permit.state == clients[ip]
      ensures r.Admitted? ==> r.permit.bandwidth == clients[ip].bandwidth
      ensures clients[ip].View() == Attempt(old(clients[ip].View()), config, now).1
      ensures Attempt(old(clients[ip].View()), config, now).0 == if r.Denied? then Some(r.reason) else None
      ensures forall j :: j in clients && j != ip ==> clients[j].View() == old(clients[j].View())
      ensures forall limit :: config.concurrentConnections == Some(limit) && |old(Held(permits, ip))| <= limit ==>
                |Held(permits, ip)| <= limit
      ensures old(Shared(permits, config)) ==> Shared(permits, config)
    {
      hide Attempt, Separate, Held, SharedAs, Shared;
      ghost var before := clients[ip].View();
      ghost var sharedBefore := Shared(permits, config);
      var denial := Ask(ip, now, addr);
      if denial.Some? {
        return Denied(denial.value);
      }
      AdmittedBelowLimit(before, config, now);
      var permit := new ClientPermit(ip, clients[ip], clients[ip].bandwidth);
      PermitAdds(permits, permit);
      if sharedBefore {
        SharedWith(permits, permit, config);
      }
      permits := permits + {permit};
      r := Admitted(permit);
    }

    /**
     Admission. The record of the address makes one step of its history, other records at
     most a sweep or an eviction, and a granted permit points to the record that counts it.
     */
    method Admit(ip: Ip, now: real, addr: nat, busyStates: set<ClientState>, busyBuckets: set<TokenBucket>)
      returns (r: Outcome)
      requires Valid()
      modifies this, clients.Values, BucketsIn(clients)
      ensures Valid() && config == old(config)
      ensures r.Denied? ==> permits == old(permits)
      ensures r.Admitted? ==> fresh(r.permit) && permits == old(permits) + {r.permit}
      ensures r.Admitted? ==> r.permit.ip == ip && r.permit.state == clients[ip]
      ensures r.Admitted? ==> r.permit.bandwidth == clients[ip].bandwidth
      ensures exists mid: Slot ::
                && Swept(old(SlotOf(ip)), mid, config, now)
                && SlotOf(ip) == NextSlot(mid, ClientRuns.Admit(now, config))
                && (r.Admitted? <==> Succeeds(mid, ClientRuns.Admit(now, config)))
      ensures |clients| <= MAX_TRACKED_CLIENTS || |clients| <= |old(clients)| || OthersInUse(ip, busyStates)
      ensures forall j: Ip :: j != ip ==> Bystander(old(SlotOf(j)), SlotOf(j), config, now)
      ensures forall limit :: config.concurrentConnections == Some(limit) && |old(Held(permits, ip))| <= limit ==>
                |Held(permits, ip)| <= limit
      ensures old(Shared(permits, config)) ==> Shared(permits, config)
    {
      hide Swept, Bystander, Attempt, Separate, Tallied, Pointed, Shared;
      var state := CheckoutState(ip, config, now, busyStates, busyBuckets);
      ghost var mid: Slot :| Swept(old(SlotOf(ip)), mid, config, now) && SlotOf(ip) == Some(CheckedOut(mid, now));
      r := Decide(ip, now, addr);
      assert SlotOf(ip) == NextSlot(mid, ClientRuns.Admit(now, config));
    }

    method CountFailureOf(ip: Ip, cfg: RateLimits, now: real)
      requires Valid() && ip in clients
      modifies clients[ip]
      ensures Valid()
      ensures clients[ip].View() == CountAuthFailure(old(clients[ip].View()), cfg, now)
      ensures forall j :: j in clients && j != ip ==> clients[j].View() == old(clients[j].View())
      ensures old(Shared(permits, config)) ==> Shared(permits, config)
    {
      hide IncrementWindow, Held;
      clients[ip].CountFailure(cfg.authFailureRate, now);
    }

    /** The limits are read before the table is locked, so `cfg` may be older than those in force. */
    method RecordAuthFailure(
      ip: Ip, cfg: RateLimits, now: real, busyStates: set<ClientState>, busyBuckets: set<TokenBucket>)
      requires Valid()
      modifies this`clients, this`admissions, clients.Values, BucketsIn(clients)
      ensures Valid() && ip in clients
      ensures exists mid: Slot ::
                && Swept(old(SlotOf(ip)), mid, cfg, now)
                && SlotOf(ip) == NextSlot(mid, AuthFailure(now, cfg))
      ensures |clients| <= MAX_TRACKED_CLIENTS || |clients| <= |old(clients)| || OthersInUse(ip, busyStates)
      ensures forall j: Ip :: j != ip ==> Bystander(old(SlotOf(j)), SlotOf(j), cfg, now)
      ensures old(Shared(permits, config)) ==> Shared(permits, config)
    {
      hide Swept, Bystander, Separate, Tallied, Pointed, IncrementWindow, Shared;
      var state := CheckoutState(ip, cfg, now, busyStates, busyBuckets);
      ghost var mid: Slot :| Swept(old(SlotOf(ip)), mid, cfg, now) && SlotOf(ip) == Some(CheckedOut(mid, now));
      CountFailureOf(ip, cfg, now);
      assert SlotOf(ip) == NextSlot(mid, AuthFailure(now, cfg));
    }

    /**
     A flow of a live connection charges the bucket its permit carries. As that is the bucket
     of the record, it is a flow step in the history of the address, and of no other.
     */
    method Charge(p: ClientPermit, bytes: nat, now: real, police: bool) returns (wait: real, ok: bool)
      requires Valid() && p in permits && Shared(permits, config)
      modifies p.bandwidth
      ensures Valid() && Shared(permits, config)
      ensures SlotOf(p.ip) == NextSlot(old(SlotOf(p.ip)), Flow(bytes, now, police))
      ensures forall j: Ip :: j != p.ip ==> SlotOf(j) == old(SlotOf(j))
      ensures !police && p.bandwidth != null ==> ok && wait == Wait(p.bandwidth.View())
      ensures police && p.bandwidth != null ==> wait == 0.0 && ok == Has(old(p.bandwidth.View()), bytes, now)
      ensures p.bandwidth == null ==> ok && wait == 0.0
    {
      hide Held;
      wait, ok := 0.0, true;
      if p.bandwidth != null {
        if police {
          ok := p.bandwidth.CanCover(bytes, now);
          if ok {
            p.bandwidth.Take(bytes);
          }
        } else {
          wait := p.bandwidth.Reserve(bytes, now);
        }
      }
    }

    /** What dropping a permit does; it finds the record through the permit, not through the table. */
    method Release(p: ClientPermit)
      requires Valid() && p in permits
      modifies this`permits, p.state`activeConnections
      ensures Valid() && permits == old(permits) - {p}
      ensures SlotOf(p.ip) == NextSlot(old(SlotOf(p.ip)), Disconnect)
      ensures old(SlotOf(p.ip)).Some? && old(SlotOf(p.ip)).value.active > 0
      ensures forall j: Ip :: j != p.ip ==> SlotOf(j) == old(SlotOf(j))
      ensures old(Shared(permits, config)) ==> Shared(permits, config)
    {
      PermitAdds(permits - {p}, p);
      assert permits - {p} + {p} == permits;
      hide Held;
      var state := p.state;
      state.activeConnections := Less(state.activeConnections);
      permits := permits - {p};
    }

    method ReconcileOne(ip: Ip, cfg: RateLimits, now: real, addr: nat)
      requires Valid() && ip in clients
      modifies clients[ip], clients[ip].bandwidth
      ensures Valid()
      ensures clients[ip].View() == Reconcile(old(clients[ip].View()), cfg, now)
      ensures forall j :: j in clients && j != ip ==> clients[j].View() == old(clients[j].View())
      ensures clients[ip].bandwidth == null || clients[ip].bandwidth == old(clients[ip].bandwidth)
              || fresh(clients[ip].bandwidth)
      ensures Retained(old(clients[ip].bandwidth), clients[ip].bandwidth, cfg)
      ensures forall j :: j in clients && j != ip ==> clients[j].bandwidth == old(clients[j].bandwidth)
    {
      hide Reconcile;
      clients[ip].ReconcileBandwidth(cfg, now, addr);
      assert forall j :: j in clients && j != ip ==> clients[j].bandwidth == old(clients[j].bandwidth);
    }

    /** The retuning loop of a reload: every tracked record reconciled, its bucket retained. */
    method ReconcileAll(cfg: RateLimits, now: real, addr: nat)
      requires Valid()
      modifies clients.Values, BucketsIn(clients)
      ensures Valid()
      ensures forall ip :: ip in clients ==> clients[ip].View() == Reconcile(old(clients[ip].View()), cfg, now)
      ensures forall ip :: ip in clients ==> Retained(old(clients[ip].bandwidth), clients[ip].bandwidth, cfg)
    {
      hide Reconcile, Separate, Held, Tallied, Pointed, Retained;
      var todo, next := clients.Keys, addr;
      while todo != {}
        invariant todo <= clients.Keys && Valid()
        invariant forall ip :: ip in todo ==> clients[ip].View() == old(clients[ip].View())
        invariant forall ip :: ip in clients && ip !in todo ==>
                    clients[ip].View() == Reconcile(old(clients[ip].View()), cfg, now)
        invariant forall ip :: ip in clients ==>
                    clients[ip].bandwidth == null || clients[ip].bandwidth == old(clients[ip].bandwidth)
                    || fresh(clients[ip].bandwidth)
        invariant forall ip :: ip in todo ==> clients[ip].bandwidth == old(clients[ip].bandwidth)
        invariant forall ip :: ip in clients && ip !in todo ==>
                    Retained(old(clients[ip].bandwidth), clients[ip].bandwidth, cfg)
        decreases todo
      {
        var ip :| ip in todo;
        ReconcileOne(ip, cfg, now, next);
        todo, next := todo - {ip}, next + 1;
      }
    }

    /** A reload, undisturbed: the new limits, and every tracked record reconciled with them. */
    method UpdateConfig(cfg: RateLimits, now: real, addr: nat)
      requires Valid()
      modifies this`config, clients.Values, BucketsIn(clients)
      ensures Valid() && config == cfg
      ensures forall ip: Ip :: SlotOf(ip) == NextSlot(old(SlotOf(ip)), Reload(now, cfg))
      ensures old(Shared(permits, config)) && StaysLimited(old(config), cfg) ==> Shared(permits, config)
      ensures old(Shared(permits, config)) && Proper(old(config)) && Proper(cfg) ==>
                (Shared(permits, config) <==> permits == {} || StaysLimited(old(config), cfg))
    {
      hide Reconcile, Separate, Held, Tallied, Pointed, Retained, SharedAs, Shared;
      ghost var was, sharedBefore := Buckets(clients), Shared(permits, config);
      if sharedBefore {
        SharedNow(permits, clients, config);
      }
      config := cfg;
      ReconcileAll(cfg, now, addr);
      if sharedBefore && StaysLimited(old(config), cfg) {
        RetainedIsShared(permits, clients, was, old(config), cfg);
      } else if sharedBefore && Proper(old(config)) && Proper(cfg) {
        SwitchingSplits(permits, was, old(config), cfg);
      }
    }
  }

  /** Every live permit has the bucket that was its record's. */
  ghost predicate SharedAs(permits: set<ClientPermit>, was: map<Ip, TokenBucket?>, cfg: RateLimits) {
    forall p :: p in permits ==>
      && p.ip in was && p.bandwidth == was[p.ip]
      && (ProperBytes(cfg) ==> p.bandwidth != null) && (cfg.byteRate.None? ==> p.bandwidth == null)
  }

  /** Where every bucket was retained, sharing stays. */
  lemma RetainedIsShared(
    permits: set<ClientPermit>, m: map<Ip, ClientState>, was: map<Ip, TokenBucket?>, cfg: RateLimits, cfg': RateLimits)
    requires Pointed(m, permits) && SharedAs(permits, was, cfg) && StaysLimited(cfg, cfg') && was.Keys == m.Keys
    requires forall ip :: ip in m ==> m[ip].bandwidth == was[ip] || Retained(was[ip], m[ip].bandwidth, cfg')
    ensures Shared(permits, cfg')
  {
  }

  /** Switching the byte rate on or off leaves live permits with what they were granted. */
  lemma SwitchingSplits(permits: set<ClientPermit>, was: map<Ip, TokenBucket?>, cfg: RateLimits, cfg': RateLimits)
    requires SharedAs(permits, was, cfg) && Proper(cfg) && Proper(cfg') && !StaysLimited(cfg, cfg')
    ensures Shared(permits, cfg') <==> permits == {}
  {
    if p :| p in permits {
      assert p.bandwidth != null <==> cfg.byteRate.Some?;
    }
  }

  ghost function Buckets(m: map<Ip, ClientState>): (was: map<Ip, TokenBucket?>)
    reads m.Values
    ensures was.Keys == m.Keys && forall ip :: ip in m ==> was[ip] == m[ip].bandwidth
  {
    map ip | ip in m :: m[ip].bandwidth
  }

  lemma SharedNow(permits: set<ClientPermit>, m: map<Ip, ClientState>, cfg: RateLimits)
    requires Pointed(m, permits) && Shared(permits, cfg)
    ensures SharedAs(permits, Buckets(m), cfg)
  {
  }

  lemma SharedWith(permits: set<ClientPermit>, p: ClientPermit, cfg: RateLimits)
    requires Shared(permits, cfg) && p.bandwidth == p.state.bandwidth
    requires (ProperBytes(cfg) ==> p.bandwidth != null) && (cfg.byteRate.None? ==> p.bandwidth == null)
    ensures Shared(permits + {p}, cfg)
  {
  }

  /** What reconciling does to the identity of a bucket: an existing one stays the same object. */
  ghost predicate Retained(before: TokenBucket?, after: TokenBucket?, cfg: RateLimits) {
    && (before != null && cfg.byteRate.Some? ==> after == before)
    && (after != null <==> HasBucket(before != null, cfg))
  }

  lemma PermitAdds(permits: set<ClientPermit>, p: ClientPermit)
    requires p !in permits
    ensures forall ip: Ip :: |Held(permits + {p}, ip)| == |Held(permits, ip)| + if ip == p.ip then 1 else 0
  {
    forall ip: Ip
      ensures |Held(permits + {p}, ip)| == |Held(permits, ip)| + if ip == p.ip then 1 else 0
    {
      assert Held(permits + {p}, ip) == if ip == p.ip then Held(permits, ip) + {p} else Held(permits, ip);
    }
  }

  lemma AdmittedBelowLimit(c: Client, cfg: RateLimits, now: real)
    requires Attempt(c, cfg, now).0.None?
    ensures forall limit :: cfg.concurrentConnections == Some(limit) ==> c.active < limit
  {
    hide Clients.IsLimitExceeded, IncrementWindow, Reconcile;
  }

  ghost predicate Within(m: map<Ip, ClientState>, n: map<Ip, ClientState>) {
    forall ip :: ip in m ==> ip in n && m[ip] == n[ip]
  }

  lemma WithinIsSmaller(m: map<Ip, ClientState>, n: map<Ip, ClientState>)
    requires Within(m, n)
    ensures |m| <= |n|
  {
    assert m.Keys <= n.Keys;
    assert n.Keys == m.Keys + (n.Keys - m.Keys);
  }

  lemma NoSlot(m: map<Ip, ClientState>, ip: Ip)
    requires ip !in m
    ensures SlotIn(m, ip) == None
  {
  }

  lemma SlotIsView(m: map<Ip, ClientState>, ip: Ip)
    requires ip in m
    ensures SlotIn(m, ip) == Some(m[ip].View())
  {
  }

  lemma ExpiredIsIdle(c: Client, cfg: RateLimits, now: real, bucketBusy: bool)
    requires Expired(c, cfg, now, bucketBusy)
    ensures c.active == 0
  {
  }

  lemma SweptToItself(cfg: RateLimits, now: real)
    ensures forall s: Slot :: Swept(s, s, cfg, now)
  {
  }

  lemma SweptByOne(s: Slot, cfg: RateLimits, now: real, bucketBusy: bool)
    ensures Swept(s, NextSlot(s, Sweep(now, cfg, false, bucketBusy)), cfg, now)
  {
  }

  lemma ThenMaybeEvicted(s: Slot, mid: Slot, s': Slot, cfg: RateLimits, now: real)
    requires Swept(s, mid, cfg, now) && (s' == mid || Evicted(mid, s'))
    ensures Bystander(s, s', cfg, now)
  {
  }

  lemma RemovalShrinks(m: map<Ip, ClientState>, victims: set<Ip>)
    requires victims <= m.Keys
    ensures |m - victims| == |m| - |victims|
  {
    assert (m - victims).Keys == m.Keys - victims;
  }
}
