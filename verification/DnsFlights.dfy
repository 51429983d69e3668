/**
 The resolver as a protocol. Any number of callers resolve names at once; the first to miss
 leads the lookup of its key, the others follow its channel. A leader publishes what it got,
 or is cancelled and drops its sender. Every lock section and every send is one step.
 */
module DnsFlights {
  import opened Options
  import opened DnsCaches

  datatype ErrorKind = TimedOut | OtherError(code: nat)

  datatype Outcome = Answer(addrs: seq<Addr>) | Failure(kind: ErrorKind)

  /** A watch channel: what has been sent, and whether its sender still exists. */
  datatype Chan = Chan(value: Option<Outcome>, senderAlive: bool, key: Key, leader: nat)

  datatype Via = FromCache(at: real, reading: real) | FromBackoff | FromLead(ch: nat) | FromFlight(ch: nat)

  /** Where a caller stands in `resolve_domain`. */
  datatype Pc =
    | Start
    | Probing(reading: real)                    // waits for the cache lock
    | CheckingBackoff
    | Joining
    | Leading(ch: nat)                          // the lookup is running
    | Storing(ch: nat, addrs: seq<Addr>)        // waits for the cache lock
    | StoringNegative(ch: nat)
    | Publishing(ch: nat, outcome: Outcome)     // about to deregister
    | Sending(ch: nat, outcome: Outcome)        // deregistered, about to send
    | Following(ch: nat)                        // about to look at the channel
    | Waiting(ch: nat)                          // until the channel changes
    | Cancelling(ch: nat)                       // a dropped leader, about to deregister
    | Dropping(ch: nat)                         // deregistered, its sender about to go
    | Done(outcome: Outcome, via: Via)
    | Gone

  datatype Caller = Caller(host: string, port: nat, ttl: Option<real>, pc: Pc)

  function KeyOf(c: Caller): Key {
    NewKey(c.host, c.port)
  }

  /** An answer the backend gave for a host as it was asked. */
  datatype Reply = Reply(host: string, port: nat, addrs: seq<Addr>)

  datatype Sys = Sys(
    now: real, cache: Cache, negative: Negative, inflight: map<Key, nat>,
    chans: seq<Chan>, callers: map<nat, Caller>, replies: set<Reply>)

  datatype Event =
    | Tick(now: real)
    | Arrive(c: nat, host: string, port: nat, ttl: Option<real>)
    | Enter(c: nat)                             // top of the loop: takes a reading if there is a cache
    | Probe(c: nat)
    | CheckBackoff(c: nat, reading: real)
    | Join(c: nat)
    | Complete(c: nat, outcome: Outcome)        // the backend answered or failed
    | Expire(c: nat)                            // the deadline passed first
    | StoreAnswer(c: nat)
    | StoreTimeout(c: nat, reading: real, after: Negative)
    | Deregister(c: nat)
    | Send(c: nat)
    | Look(c: nat)
    | Wake(c: nat)
    | Cancel(c: nat)
    | CancelDeregister(c: nat)
    | DropSender(c: nat)

  function PcOf(s: Sys, c: nat): Pc {
    if c in s.callers then s.callers[c].pc else Gone
  }

  ghost predicate Possible(s: Sys, e: Event) {
    match e
    case Tick(now) => s.now <= now
    case Arrive(c, _, _, _) => c !in s.callers
    case Enter(c) => PcOf(s, c).Start?
    case Probe(c) => PcOf(s, c).Probing? && s.callers[c].ttl.Some?
    case CheckBackoff(c, reading) => PcOf(s, c).CheckingBackoff? && reading <= s.now
    case Join(c) => PcOf(s, c).Joining?
    case Complete(c, _) => PcOf(s, c).Leading?
    case Expire(c) => PcOf(s, c).Leading?
    case StoreAnswer(c) => PcOf(s, c).Storing? && s.callers[c].ttl.Some?
    case StoreTimeout(c, reading, after) =>
      PcOf(s, c).StoringNegative? && reading <= s.now && Remembers(s.negative, after, KeyOf(s.callers[c]), reading)
    case Deregister(c) => PcOf(s, c).Publishing?
    case Send(c) => PcOf(s, c).Sending? && PcOf(s, c).ch < |s.chans|
    case Look(c) => PcOf(s, c).Following? && PcOf(s, c).ch < |s.chans|
    case Wake(c) => PcOf(s, c).Waiting? && PcOf(s, c).ch < |s.chans| && Woken(s.chans[PcOf(s, c).ch])
    case Cancel(c) =>
      var pc := PcOf(s, c);
      pc.Start? || pc.Probing? || pc.Leading? || pc.Storing? || pc.Waiting?
    case CancelDeregister(c) => PcOf(s, c).Cancelling?
    case DropSender(c) => PcOf(s, c).Dropping? && PcOf(s, c).ch < |s.chans|
  }

  /** A waiting receiver returns when a value has arrived or the sender is gone. */
  predicate Woken(ch: Chan) {
    ch.value.Some? || !ch.senderAlive
  }

  function Move(s: Sys, c: nat, pc: Pc): Sys
    requires c in s.callers
  {
    s.(callers := s.callers[c := s.callers[c].(pc := pc)])
  }

  /** What a leader does with the result of its lookup. */
  function AfterLookup(caller: Caller, ch: nat, outcome: Outcome): Pc {
    match outcome
    case Answer(addrs) => if caller.ttl.Some? then Storing(ch, addrs) else Publishing(ch, outcome)
    case Failure(kind) => if kind.TimedOut? then StoringNegative(ch) else Publishing(ch, outcome)
  }

  ghost function Next(s: Sys, e: Event): Sys
    requires Possible(s, e)
  {
    match e
    case Tick(now) => s.(now := now)
    case Arrive(c, host, port, ttl) => s.(callers := s.callers[c := Caller(host, port, ttl, Start)])
    case Enter(c) => Move(s, c, if s.callers[c].ttl.Some? then Probing(s.now) else CheckingBackoff)
    case Probe(c) =>
      var caller := s.callers[c];
      var key, reading := KeyOf(caller), caller.pc.reading;
      var (hit, cache) := Probed(s.cache, key, reading, caller.ttl.value);
      Move(s, c, if hit.Some? then Done(Answer(hit.value), FromCache(s.cache[key].insertedAt, reading))
                 else CheckingBackoff).(cache := cache)
    case CheckBackoff(c, reading) =>
      var (backOff, negative) := Backoff(s.negative, KeyOf(s.callers[c]), reading);
      Move(s, c, if backOff then Done(Failure(TimedOut), FromBackoff) else Joining).(negative := negative)
    case Join(c) =>
      var key := KeyOf(s.callers[c]);
      if key in s.inflight then Move(s, c, Following(s.inflight[key]))
      else Move(s, c, Leading(|s.chans|)).(
        inflight := s.inflight[key := |s.chans|], chans := s.chans + [Chan(None, true, key, c)])
    case Complete(c, outcome) =>
      var caller := s.callers[c];
      Move(s, c, AfterLookup(caller, caller.pc.ch, outcome)).(
        replies := if outcome.Answer? then s.replies + {Reply(caller.host, caller.port, outcome.addrs)} else s.replies)
    case Expire(c) => Move(s, c, StoringNegative(s.callers[c].pc.ch))
    case StoreAnswer(c) =>
      var caller := s.callers[c];
      Move(s, c, Publishing(caller.pc.ch, Answer(caller.pc.addrs))).(
        cache := Stored(s.cache, KeyOf(caller), caller.pc.addrs, caller.ttl.value, s.now))
    case StoreTimeout(c, _, after) =>
      Move(s, c, Publishing(s.callers[c].pc.ch, Failure(TimedOut))).(negative := after)
    case Deregister(c) =>
      var caller := s.callers[c];
      Move(s, c, Sending(caller.pc.ch, caller.pc.outcome)).(inflight := s.inflight - {KeyOf(caller)})
    case Send(c) =>
      var pc := s.callers[c].pc;
      Move(s, c, Done(pc.outcome, FromLead(pc.ch))).(
        chans := s.chans[pc.ch := s.chans[pc.ch].(value := Some(pc.outcome), senderAlive := false)])
    case Look(c) =>
      var ch := s.callers[c].pc.ch;
      Move(s, c, if s.chans[ch].value.Some? then Done(s.chans[ch].value.value, FromFlight(ch)) else Waiting(ch))
    case Wake(c) =>
      var ch := s.callers[c].pc.ch;
      Move(s, c, if s.chans[ch].value.Some? then Following(ch) else Start)
    case Cancel(c) =>
      var pc := s.callers[c].pc;
      Move(s, c, if pc.Leading? || pc.Storing? then Cancelling(pc.ch) else Gone)
    case CancelDeregister(c) =>
      var caller := s.callers[c];
      Move(s, c, Dropping(caller.pc.ch)).(inflight := s.inflight - {KeyOf(caller)})
    case DropSender(c) =>
      var ch := s.callers[c].pc.ch;
      Move(s, c, Gone).(chans := s.chans[ch := s.chans[ch].(senderAlive := false)])
  }

  // ---------------------------------------------------------------------------
  // The invariant
  // ---------------------------------------------------------------------------

  /** The channel under which a caller is registered as leader. */
  function RegisteredAs(pc: Pc): Option<nat> {
    if pc.Leading? || pc.Storing? || pc.StoringNegative? || pc.Publishing? || pc.Cancelling? then Some(pc.ch) else None
  }

  /** The channel whose sender a caller owns: until it has sent or dropped it. */
  function SenderOf(pc: Pc): Option<nat> {
    if pc.Sending? || pc.Dropping? then Some(pc.ch) else RegisteredAs(pc)
  }

  /** The answer a caller is carrying to its followers or has returned. */
  function Carried(pc: Pc): Option<seq<Addr>> {
    match pc
    case Storing(_, addrs) => Some(addrs)
    case Publishing(_, Answer(addrs)) => Some(addrs)
    case Sending(_, Answer(addrs)) => Some(addrs)
    case Done(Answer(addrs), _) => Some(addrs)
    case _ => None
  }

  /** The backend gave these addresses for this key, in whatever case the host was written. */
  ghost predicate Answered(s: Sys, key: Key, addrs: seq<Addr>) {
    exists r :: r in s.replies && NewKey(r.host, r.port) == key && r.addrs == addrs
  }

  ghost predicate CallerInv(s: Sys, c: nat)
    requires c in s.callers
  {
    var caller := s.callers[c];
    var pc, key := caller.pc, KeyOf(caller);
    && (SenderOf(pc).Some? ==> pc.ch < |s.chans| && s.chans[pc.ch].leader == c)
    && (RegisteredAs(pc).Some? ==> key in s.inflight && s.inflight[key] == pc.ch)
    && (pc.Following? || pc.Waiting? ==> pc.ch < |s.chans| && s.chans[pc.ch].key == key)
    && (pc.Done? && pc.via.FromLead? ==>
          pc.via.ch < |s.chans| && s.chans[pc.via.ch].leader == c && s.chans[pc.via.ch].value == Some(pc.outcome))
    && (pc.Done? && pc.via.FromFlight? ==>
          pc.via.ch < |s.chans| && s.chans[pc.via.ch].key == key && s.chans[pc.via.ch].value == Some(pc.outcome))
    && (pc.Done? && pc.via.FromCache? ==> caller.ttl.Some? && Age(pc.via.at, pc.via.reading) < caller.ttl.value)
    && (pc.Done? && pc.via.FromBackoff? ==> pc.outcome == Failure(TimedOut))
    && (pc.Storing? || pc.Probing? ==> caller.ttl.Some?)
    && (Carried(pc).Some? ==> Answered(s, key, Carried(pc).value))
  }

  ghost predicate ChanInv(s: Sys, i: nat)
    requires i < |s.chans|
  {
    var chan := s.chans[i];
    && chan.leader in s.callers
    && KeyOf(s.callers[chan.leader]) == chan.key
    && (chan.senderAlive <==> SenderOf(s.callers[chan.leader].pc) == Some(i))
    && (chan.senderAlive ==> chan.value.None?)
    && (chan.value.Some? ==> s.callers[chan.leader].pc == Done(chan.value.value, FromLead(i)))
    && (chan.value.None? && !chan.senderAlive ==> s.callers[chan.leader].pc == Gone)
  }

  ghost predicate FlightInv(s: Sys, key: Key)
    requires key in s.inflight
  {
    var i := s.inflight[key];
    && i < |s.chans| && s.chans[i].key == key
    && s.chans[i].leader in s.callers && RegisteredAs(s.callers[s.chans[i].leader].pc) == Some(i)
  }

  ghost predicate CacheInv(s: Sys) {
    && |s.cache| <= MAX_DNS_CACHE_ENTRIES && |s.negative| <= MAX_NEGATIVE_CACHE_ENTRIES
    && forall k :: k in s.cache ==> Answered(s, k, s.cache[k].addrs)
  }

  ghost predicate Inv(s: Sys) {
    && (forall c :: c in s.callers ==> CallerInv(s, c))
    && (forall i :: 0 <= i < |s.chans| ==> ChanInv(s, i))
    && (forall key :: key in s.inflight ==> FlightInv(s, key))
    && CacheInv(s)
  }

  function Opened(now: real): Sys {
    Sys(now, map[], map[], map[], [], map[], {})
  }

  // ---------------------------------------------------------------------------
  // Every step keeps it
  // ---------------------------------------------------------------------------

  lemma CallerOf(s: Sys, c: nat)
    requires Inv(s) && c in s.callers
    ensures CallerInv(s, c)
  {
  }

  lemma ChanOf(s: Sys, i: nat)
    requires Inv(s) && i < |s.chans|
    ensures ChanInv(s, i)
  {
  }

  lemma FlightOf(s: Sys, key: Key)
    requires Inv(s) && key in s.inflight
    ensures FlightInv(s, key)
  {
  }

  lemma CacheOf(s: Sys)
    requires Inv(s)
    ensures CacheInv(s)
  {
  }

  lemma Assemble(s: Sys)
    requires forall c :: c in s.callers ==> CallerInv(s, c)
    requires forall i :: 0 <= i < |s.chans| ==> ChanInv(s, i)
    requires forall key :: key in s.inflight ==> FlightInv(s, key)
    requires CacheInv(s)
    ensures Inv(s)
  {
  }

  lemma AnsweredStays(s: Sys, s': Sys)
    requires s.replies <= s'.replies
    ensures forall key, addrs :: Answered(s, key, addrs) ==> Answered(s', key, addrs)
  {
    forall key, addrs | Answered(s, key, addrs) ensures Answered(s', key, addrs) {
      var r :| r in s.replies && NewKey(r.host, r.port) == key && r.addrs == addrs;
      assert r in s'.replies;
    }
  }

  lemma CachesAlike(s: Sys, s': Sys)
    requires CacheInv(s) && s'.cache == s.cache && s'.negative == s.negative && s.replies <= s'.replies
    ensures CacheInv(s')
  {
    AnsweredStays(s, s');
    hide Answered;
  }

  /** On the way, and without a channel of its own. */
  predicate Unattached(pc: Pc) {
    SenderOf(pc).None? && !pc.Done? && !pc.Gone?
  }

  /** A caller that has led nothing is nobody's leader. */
  lemma LeadsNothing(s: Sys, c: nat, i: nat)
    requires Inv(s) && i < |s.chans|
    requires c in s.callers ==> Unattached(s.callers[c].pc)
    ensures s.chans[i].leader != c
  {
    hide Inv;
    ChanOf(s, i);
  }

  /** A caller with a sender leads that channel and no other. */
  lemma LeadsOnlyItsChannel(s: Sys, c: nat, i: nat)
    requires Inv(s) && c in s.callers && SenderOf(s.callers[c].pc).Some?
    requires i < |s.chans| && i != s.callers[c].pc.ch
    ensures s.chans[i].leader != c
  {
    hide Inv;
    ChanOf(s, i);
  }

  /** Channels are only added, sent to, or closed. */
  ghost predicate ChansGrow(s: Sys, s': Sys) {
    |s.chans| <= |s'.chans| &&
    forall i :: 0 <= i < |s.chans| ==>
      && s'.chans[i].key == s.chans[i].key && s'.chans[i].leader == s.chans[i].leader
      && (s.chans[i].value.Some? ==> s'.chans[i].value == s.chans[i].value)
  }

  /** A caller that has not moved is as it should be, as long as its flight stays registered. */
  lemma CallerFrame(s: Sys, s': Sys, d: nat)
    requires Inv(s) && d in s.callers && d in s'.callers && s'.callers[d] == s.callers[d]
    requires ChansGrow(s, s') && s.replies <= s'.replies
    requires RegisteredAs(s.callers[d].pc).Some? ==>
               var key := KeyOf(s.callers[d]);
               key in s.inflight ==> key in s'.inflight && s'.inflight[key] == s.inflight[key]
    ensures CallerInv(s', d)
  {
    hide Inv;
    CallerOf(s, d);
    AnsweredStays(s, s');
    hide Answered, NewKey;
  }

  lemma ChanFrame(s: Sys, s': Sys, i: nat)
    requires Inv(s) && i < |s.chans| && i < |s'.chans| && s'.chans[i] == s.chans[i]
    requires s.chans[i].leader in s.callers ==>
               s.chans[i].leader in s'.callers && s'.callers[s.chans[i].leader] == s.callers[s.chans[i].leader]
    ensures ChanInv(s', i)
  {
    hide Inv;
    ChanOf(s, i);
  }

  /** Steps of one caller that leave the channels and the flights alone. */
  ghost predicate OnlyMoves(s: Sys, s': Sys, c: nat) {
    && c in s'.callers && s'.callers == s.callers[c := s'.callers[c]]
    && s'.chans == s.chans && s'.inflight == s.inflight && s.replies <= s'.replies
    && (c in s.callers ==> KeyOf(s'.callers[c]) == KeyOf(s.callers[c]))
  }

  /** A caller that owns no sender, before or after, moves on its own. */
  lemma QuietMove(s: Sys, s': Sys, c: nat)
    requires Inv(s) && OnlyMoves(s, s', c) && CallerInv(s', c) && CacheInv(s')
    requires c in s.callers ==> Unattached(s.callers[c].pc)
    requires SenderOf(s'.callers[c].pc).None?
    ensures Inv(s')
  {
    hide CacheInv, CallerInv;
    forall d | d in s'.callers ensures CallerInv(s', d) {
      if d != c {
        CallerFrame(s, s', d);
      }
    }
    forall i | 0 <= i < |s'.chans| ensures ChanInv(s', i) {
      LeadsNothing(s, c, i);
      ChanFrame(s, s', i);
    }
    forall key | key in s'.inflight ensures FlightInv(s', key) {
      FlightOf(s, key);
    }
  }

  /** A registered leader that stays registered moves on its own. */
  lemma LeaderMove(s: Sys, s': Sys, c: nat)
    requires Inv(s) && c in s.callers && OnlyMoves(s, s', c) && CallerInv(s', c) && CacheInv(s')
    requires RegisteredAs(s.callers[c].pc).Some?
    requires RegisteredAs(s'.callers[c].pc) == RegisteredAs(s.callers[c].pc)
    ensures Inv(s')
  {
    hide CacheInv, CallerInv;
    forall d | d in s'.callers ensures CallerInv(s', d) {
      if d != c {
        CallerFrame(s, s', d);
      }
    }
    forall i | 0 <= i < |s'.chans| ensures ChanInv(s', i) {
      ChanOf(s, i);
    }
    forall key | key in s'.inflight ensures FlightInv(s', key) {
      FlightOf(s, key);
    }
  }

  /** A caller opens a channel and registers it. */
  ghost predicate Leads(s: Sys, s': Sys, c: nat) {
    && c in s.callers && Unattached(s.callers[c].pc) && KeyOf(s.callers[c]) !in s.inflight
    && s' == Move(s, c, Leading(|s.chans|)).(
               inflight := s.inflight[KeyOf(s.callers[c]) := |s.chans|],
               chans := s.chans + [Chan(None, true, KeyOf(s.callers[c]), c)])
  }

  lemma LeadsSelf(s: Sys, s': Sys, c: nat)
    requires Inv(s) && Leads(s, s', c)
    ensures CallerInv(s', c) && ChanInv(s', |s.chans|)
    ensures ChansGrow(s, s')
  {
    hide Inv, NewKey, Answered;
  }

  lemma LeadsShape(s: Sys, s': Sys, c: nat)
    requires Inv(s) && Leads(s, s', c)
    ensures |s'.chans| == |s.chans| + 1 && s'.callers.Keys == s.callers.Keys && CacheInv(s')
  {
    hide Inv, CacheInv, NewKey;
    CacheOf(s);
    CachesAlike(s, s');
  }

  lemma LeadsCaller(s: Sys, s': Sys, c: nat, d: nat)
    requires Inv(s) && Leads(s, s', c) && d in s.callers && d != c
    ensures CallerInv(s', d)
  {
    LeadsSelf(s, s', c);
    hide Inv, CallerInv, ChansGrow, NewKey;
    CallerFrame(s, s', d);
  }

  lemma LeadsChan(s: Sys, s': Sys, c: nat, i: nat)
    requires Inv(s) && Leads(s, s', c) && i < |s.chans|
    ensures ChanInv(s', i)
  {
    hide Inv, NewKey;
    LeadsNothing(s, c, i);
    ChanFrame(s, s', i);
  }

  lemma LeadsFlight(s: Sys, s': Sys, c: nat, key: Key)
    requires Inv(s) && Leads(s, s', c) && key in s'.inflight
    ensures FlightInv(s', key)
  {
    hide Inv, NewKey;
    if key in s.inflight {
      FlightOf(s, key);
    }
  }

  lemma LeadBegins(s: Sys, s': Sys, c: nat)
    requires Inv(s) && Leads(s, s', c)
    ensures Inv(s')
  {
    hide *;
    LeadsSelf(s, s', c);
    LeadsShape(s, s', c);
    forall d | d in s'.callers ensures CallerInv(s', d) {
      if d != c {
        LeadsCaller(s, s', c, d);
      }
    }
    forall i | 0 <= i < |s'.chans| ensures ChanInv(s', i) {
      if i < |s.chans| {
        LeadsChan(s, s', c, i);
      }
    }
    forall key | key in s'.inflight ensures FlightInv(s', key) {
      LeadsFlight(s, s', c, key);
    }
    Assemble(s');
  }

  lemma FollowBegins(s: Sys, s': Sys, c: nat, key: Key)
    requires Inv(s) && c in s.callers && Unattached(s.callers[c].pc) && key == KeyOf(s.callers[c])
    requires key in s.inflight && s' == Move(s, c, Following(s.inflight[key]))
    ensures Inv(s')
  {
    hide Inv, NewKey, Answered;
    CacheOf(s);
    AnsweredStays(s, s');
    FlightOf(s, key);
    QuietMove(s, s', c);
  }

  /** At most one registered leader for each key, and the flight of that key is its channel. */
  lemma OneLeaderPerKey(s: Sys, c: nat, d: nat)
    requires Inv(s) && c in s.callers && d in s.callers
    requires RegisteredAs(s.callers[c].pc).Some? && RegisteredAs(s.callers[d].pc).Some?
    requires KeyOf(s.callers[c]) == KeyOf(s.callers[d])
    ensures c == d
    ensures KeyOf(s.callers[c]) in s.inflight && s.inflight[KeyOf(s.callers[c])] == s.callers[c].pc.ch
  {
    hide Inv, NewKey;
    CallerOf(s, c);
    CallerOf(s, d);
  }

  /** A leader deregisters and keeps its sender. */
  ghost predicate Leaves(s: Sys, s': Sys, c: nat) {
    && c in s.callers
    && var caller := s.callers[c];
       && (caller.pc.Publishing? || caller.pc.Cancelling?)
       && var pc := if caller.pc.Publishing? then Sending(caller.pc.ch, caller.pc.outcome) else Dropping(caller.pc.ch);
          s' == Move(s, c, pc).(inflight := s.inflight - {KeyOf(caller)})
  }

  lemma LeavesSelf(s: Sys, s': Sys, c: nat)
    requires Inv(s) && Leaves(s, s', c)
    ensures CallerInv(s', c)
  {
    hide Inv, NewKey, Answered;
    CallerOf(s, c);
    AnsweredStays(s, s');
  }

  lemma LeavesShape(s: Sys, s': Sys, c: nat)
    requires Inv(s) && Leaves(s, s', c)
    ensures s'.chans == s.chans && s'.callers.Keys == s.callers.Keys && CacheInv(s')
  {
    hide Inv, CacheInv, NewKey;
    CacheOf(s);
    CachesAlike(s, s');
  }

  lemma LeavesCaller(s: Sys, s': Sys, c: nat, d: nat)
    requires Inv(s) && Leaves(s, s', c) && d in s.callers && d != c
    ensures CallerInv(s', d)
  {
    hide Inv, CallerInv, NewKey;
    CallerOf(s, c);
    if RegisteredAs(s.callers[d].pc).Some? && KeyOf(s.callers[d]) == KeyOf(s.callers[c]) {
      OneLeaderPerKey(s, c, d);
    }
    CallerFrame(s, s', d);
  }

  lemma LeavesChan(s: Sys, s': Sys, c: nat, i: nat)
    requires Inv(s) && Leaves(s, s', c) && i < |s.chans|
    ensures ChanInv(s', i)
  {
    hide Inv, NewKey;
    ChanOf(s, i);
  }

  lemma LeavesFlight(s: Sys, s': Sys, c: nat, key: Key)
    requires Inv(s) && Leaves(s, s', c) && key in s'.inflight
    ensures FlightInv(s', key)
  {
    hide Inv, NewKey;
    FlightOf(s, key);
    ChanOf(s, s.inflight[key]);
  }

  lemma LeadEnds(s: Sys, s': Sys, c: nat)
    requires Inv(s) && Leaves(s, s', c)
    ensures Inv(s')
  {
    hide *;
    LeavesSelf(s, s', c);
    LeavesShape(s, s', c);
    forall d | d in s'.callers ensures CallerInv(s', d) {
      if d != c {
        LeavesCaller(s, s', c, d);
      }
    }
    forall i | 0 <= i < |s'.chans| ensures ChanInv(s', i) {
      LeavesChan(s, s', c, i);
    }
    forall key | key in s'.inflight ensures FlightInv(s', key) {
      LeavesFlight(s, s', c, key);
    }
    Assemble(s');
  }

  /** The sender is used up, by sending or by being dropped. */
  ghost predicate UsesUp(s: Sys, s': Sys, c: nat) {
    && c in s.callers
    && var pc := s.callers[c].pc;
       && (pc.Sending? || pc.Dropping?) && pc.ch < |s.chans|
       && var chan := s.chans[pc.ch].(senderAlive := false);
          s' == if pc.Sending?
                then Move(s, c, Done(pc.outcome, FromLead(pc.ch))).(
                       chans := s.chans[pc.ch := chan.(value := Some(pc.outcome))])
                else Move(s, c, Gone).(chans := s.chans[pc.ch := chan])
  }

  lemma UsesUpSelf(s: Sys, s': Sys, c: nat)
    requires Inv(s) && UsesUp(s, s', c)
    ensures CallerInv(s', c) && ChanInv(s', s.callers[c].pc.ch)
    ensures ChansGrow(s, s')
  {
    hide Inv, NewKey, Answered;
    CallerOf(s, c);
    ChanOf(s, s.callers[c].pc.ch);
    AnsweredStays(s, s');
  }

  lemma UsesUpShape(s: Sys, s': Sys, c: nat)
    requires Inv(s) && UsesUp(s, s', c)
    ensures |s'.chans| == |s.chans| && s'.inflight == s.inflight && s'.callers.Keys == s.callers.Keys && CacheInv(s')
  {
    hide Inv, CacheInv;
    CacheOf(s);
    CachesAlike(s, s');
  }

  lemma UsesUpCaller(s: Sys, s': Sys, c: nat, d: nat)
    requires Inv(s) && UsesUp(s, s', c) && d in s.callers && d != c
    ensures CallerInv(s', d)
  {
    UsesUpSelf(s, s', c);
    hide Inv, CallerInv, ChansGrow, NewKey;
    CallerFrame(s, s', d);
  }

  lemma UsesUpChan(s: Sys, s': Sys, c: nat, i: nat)
    requires Inv(s) && UsesUp(s, s', c) && i < |s.chans|
    ensures ChanInv(s', i)
  {
    UsesUpSelf(s, s', c);
    hide Inv, ChanInv, CallerInv, ChansGrow;
    if i != s.callers[c].pc.ch {
      LeadsOnlyItsChannel(s, c, i);
      ChanFrame(s, s', i);
    }
  }

  lemma UsesUpFlight(s: Sys, s': Sys, c: nat, key: Key)
    requires Inv(s) && UsesUp(s, s', c) && key in s.inflight
    ensures FlightInv(s', key)
  {
    hide Inv, NewKey;
    FlightOf(s, key);
  }

  lemma SenderGoes(s: Sys, s': Sys, c: nat)
    requires Inv(s) && UsesUp(s, s', c)
    ensures Inv(s')
  {
    hide *;
    UsesUpSelf(s, s', c);
    UsesUpShape(s, s', c);
    forall d | d in s'.callers ensures CallerInv(s', d) {
      if d != c {
        UsesUpCaller(s, s', c, d);
      }
    }
    forall i | 0 <= i < |s'.chans| ensures ChanInv(s', i) {
      UsesUpChan(s, s', c, i);
    }
    forall key | key in s'.inflight ensures FlightInv(s', key) {
      UsesUpFlight(s, s', c, key);
    }
    Assemble(s');
  }

  // Now step by step.

  lemma EntryStep(s: Sys, s': Sys, c: nat, caller: Caller)
    requires Inv(s) && s' == s.(callers := s.callers[c := caller])
    requires c in s.callers ==> Unattached(s.callers[c].pc) && KeyOf(caller) == KeyOf(s.callers[c])
    requires caller.pc.Start? || caller.pc.CheckingBackoff? || caller.pc.Gone?
             || (caller.pc.Probing? && caller.ttl.Some?)
    ensures Inv(s')
  {
    hide Inv, NewKey, Answered;
    CacheOf(s);
    AnsweredStays(s, s');
    QuietMove(s, s', c);
  }

  lemma BackoffStep(s: Sys, s': Sys, c: nat, pc: Pc, negative: Negative)
    requires Inv(s) && c in s.callers && Unattached(s.callers[c].pc)
    requires pc.Joining? || pc == Done(Failure(TimedOut), FromBackoff)
    requires negative.Keys <= s.negative.Keys && s' == Move(s, c, pc).(negative := negative)
    ensures Inv(s')
  {
    hide Inv, NewKey, Answered;
    CacheOf(s);
    AnsweredStays(s, s');
    SubsetSize(negative.Keys, s.negative.Keys);
    QuietMove(s, s', c);
  }

  /** What has been sent on a channel is what its leader got for the channel's key. */
  lemma FlightValueAnswered(s: Sys, i: nat)
    requires Inv(s) && i < |s.chans| && s.chans[i].value.Some?
    ensures s.chans[i].value.value.Answer? ==> Answered(s, s.chans[i].key, s.chans[i].value.value.addrs)
  {
    hide Inv, Answered, NewKey;
    ChanOf(s, i);
    CallerOf(s, s.chans[i].leader);
  }

  lemma LookStep(s: Sys, s': Sys, c: nat)
    requires Inv(s) && c in s.callers && s.callers[c].pc.Following? && s.callers[c].pc.ch < |s.chans|
    requires var ch := s.callers[c].pc.ch;
             var value := s.chans[ch].value;
             s' == Move(s, c, if value.Some? then Done(value.value, FromFlight(ch)) else Waiting(ch))
    ensures Inv(s')
  {
    hide Inv, NewKey, Answered;
    var ch := s.callers[c].pc.ch;
    CallerOf(s, c);
    CacheOf(s);
    AnsweredStays(s, s');
    if s.chans[ch].value.Some? {
      FlightValueAnswered(s, ch);
    }
    QuietMove(s, s', c);
  }

  lemma RefollowStep(s: Sys, s': Sys, c: nat)
    requires Inv(s) && c in s.callers && s.callers[c].pc.Waiting?
    requires s' == Move(s, c, Following(s.callers[c].pc.ch))
    ensures Inv(s')
  {
    hide Inv, NewKey, Answered;
    CallerOf(s, c);
    CacheOf(s);
    AnsweredStays(s, s');
    QuietMove(s, s', c);
  }

  lemma ProbeStep(s: Sys, s': Sys, c: nat)
    requires Inv(s) && c in s.callers && s.callers[c].pc.Probing? && s.callers[c].ttl.Some?
    requires var caller := s.callers[c];
             var key, reading := KeyOf(caller), caller.pc.reading;
             var (hit, cache) := Probed(s.cache, key, reading, caller.ttl.value);
             && (hit.Some? ==> key in s.cache)
             && s' == Move(s, c, if hit.Some? then Done(Answer(hit.value), FromCache(s.cache[key].insertedAt, reading))
                                 else CheckingBackoff).(cache := cache)
    ensures Inv(s')
  {
    hide Inv, NewKey, Answered;
    CacheOf(s);
    AnsweredStays(s, s');
    ProbeShrinks(s, s');
    hide CacheInv;
    QuietMove(s, s', c);
  }

  lemma ProbeShrinks(s: Sys, s': Sys)
    requires CacheInv(s) && s'.cache.Keys <= s.cache.Keys && (forall k :: k in s'.cache ==> s'.cache[k] == s.cache[k])
    requires s'.negative == s.negative && s.replies <= s'.replies
    ensures CacheInv(s')
  {
    AnsweredStays(s, s');
    hide Answered;
    SubsetSize(s'.cache.Keys, s.cache.Keys);
  }

  /** A leader goes on without an answer in hand: its deadline passed, or it was cancelled. */
  lemma EmptyHandedStep(s: Sys, s': Sys, c: nat, pc: Pc, negative: Negative)
    requires Inv(s) && c in s.callers && RegisteredAs(s.callers[c].pc).Some?
    requires RegisteredAs(pc) == RegisteredAs(s.callers[c].pc) && Carried(pc).None?
    requires |negative| <= MAX_NEGATIVE_CACHE_ENTRIES && s' == Move(s, c, pc).(negative := negative)
    ensures Inv(s')
  {
    hide Inv, NewKey, Answered;
    CallerOf(s, c);
    CacheOf(s);
    AnsweredStays(s, s');
    LeaderMove(s, s', c);
  }

  lemma CompleteStep(s: Sys, s': Sys, c: nat, outcome: Outcome)
    requires Inv(s) && c in s.callers && s.callers[c].pc.Leading?
    requires var caller := s.callers[c];
             s' == Move(s, c, AfterLookup(caller, caller.pc.ch, outcome)).(
                     replies := if outcome.Answer? then s.replies + {Reply(caller.host, caller.port, outcome.addrs)}
                                else s.replies)
    ensures Inv(s')
  {
    hide Inv, NewKey;
    var caller := s.callers[c];
    CallerOf(s, c);
    CacheOf(s);
    AnsweredStays(s, s');
    if outcome.Answer? {
      assert Reply(caller.host, caller.port, outcome.addrs) in s'.replies;
      assert Answered(s', KeyOf(caller), outcome.addrs);
    }
    hide Answered;
    LeaderMove(s, s', c);
  }

  lemma StoreStep(s: Sys, s': Sys, c: nat)
    requires Inv(s) && c in s.callers && s.callers[c].pc.Storing? && s.callers[c].ttl.Some?
    requires var caller := s.callers[c];
             s' == Move(s, c, Publishing(caller.pc.ch, Answer(caller.pc.addrs))).(
                     cache := Stored(s.cache, KeyOf(caller), caller.pc.addrs, caller.ttl.value, s.now))
    ensures Inv(s')
  {
    hide Inv, NewKey, Answered, Stored;
    var caller := s.callers[c];
    CallerOf(s, c);
    CacheOf(s);
    AnsweredStays(s, s');
    StoreKeepsAnswers(s, s', KeyOf(caller), caller.pc.addrs, caller.ttl.value);
    LeaderMove(s, s', c);
  }

  lemma StoreKeepsAnswers(s: Sys, s': Sys, key: Key, addrs: seq<Addr>, ttl: real)
    requires CacheInv(s) && s.replies <= s'.replies && s'.negative == s.negative
    requires Answered(s, key, addrs) && s'.cache == Stored(s.cache, key, addrs, ttl, s.now)
    ensures CacheInv(s')
  {
    hide Answered, NewKey;
    AnsweredStays(s, s');
    StoreIsBounded(s.cache, key, addrs, ttl, s.now);
    forall k | k in s'.cache ensures Answered(s', k, s'.cache[k].addrs) {
      if k != key {
        assert k in s.cache;
        StoreEvictsExpiredFirst(s.cache, key, addrs, ttl, s.now, k);
      }
    }
  }

  lemma TickStep(s: Sys, s': Sys)
    requires Inv(s) && s' == s.(now := s'.now)
    ensures Inv(s')
  {
    hide NewKey, CallerInv;
    AnsweredStays(s, s');
    hide Answered;
    forall d | d in s'.callers ensures CallerInv(s', d) {
      CallerFrame(s, s', d);
    }
    forall i | 0 <= i < |s'.chans| ensures ChanInv(s', i) {
      ChanOf(s, i);
      ChanFrame(s, s', i);
    }
    forall k | k in s'.inflight ensures FlightInv(s', k) {
      FlightOf(s, k);
    }
  }

  lemma PublishingKeeps(s: Sys, e: Event)
    requires Inv(s) && Possible(s, e)
    requires e.Deregister? || e.Send? || e.CancelDeregister? || e.DropSender?
    ensures Inv(Next(s, e))
  {
    hide Inv, NewKey, Remembers, Stored;
    var s' := Next(s, e);
    if e.Deregister? || e.CancelDeregister? {
      assert Leaves(s, s', e.c);
      LeadEnds(s, s', e.c);
    } else {
      assert UsesUp(s, s', e.c);
      SenderGoes(s, s', e.c);
    }
  }

  lemma LookupKeeps(s: Sys, e: Event)
    requires Inv(s) && Possible(s, e)
    requires e.Complete? || e.Expire? || e.StoreAnswer? || e.StoreTimeout?
    ensures Inv(Next(s, e))
  {
    hide Inv, NewKey, Remembers, Stored;
    var s' := Next(s, e);
    CacheOf(s);
    match e
    case Complete(c, outcome) => CompleteStep(s, s', c, outcome);
    case Expire(c) => EmptyHandedStep(s, s', c, PcOf(s', c), s.negative);
    case StoreAnswer(c) => StoreStep(s, s', c);
    case StoreTimeout(c, reading, after) =>
      RememberIsBounded(s.negative, after, KeyOf(s.callers[c]), reading);
      EmptyHandedStep(s, s', c, PcOf(s', c), after);
  }

  lemma EntryKeeps(s: Sys, e: Event)
    requires Inv(s) && Possible(s, e)
    requires e.Arrive? || e.Enter? || e.Probe? || e.CheckBackoff?
    ensures Inv(Next(s, e))
  {
    hide Inv, NewKey, Remembers, Stored;
    var s' := Next(s, e);
    CacheOf(s);
    match e
    case Arrive(c, _, _, _) => EntryStep(s, s', c, s'.callers[c]);
    case Enter(c) => EntryStep(s, s', c, s'.callers[c]);
    case Probe(c) => ProbeStep(s, s', c);
    case CheckBackoff(c, _) => BackoffStep(s, s', c, PcOf(s', c), s'.negative);
  }

  lemma FlightKeeps(s: Sys, e: Event)
    requires Inv(s) && Possible(s, e)
    requires e.Join? || e.Look? || e.Wake? || e.Cancel?
    ensures Inv(Next(s, e))
  {
    hide Inv, NewKey, Remembers, Stored;
    var s' := Next(s, e);
    match e
    case Join(c) =>
      var key := KeyOf(s.callers[c]);
      if key in s.inflight { FollowBegins(s, s', c, key); } else { LeadBegins(s, s', c); }
    case Look(c) => LookStep(s, s', c);
    case Wake(c) =>
      if PcOf(s', c).Following? { RefollowStep(s, s', c); } else { EntryStep(s, s', c, s'.callers[c]); }
    case Cancel(c) =>
      CacheOf(s);
      if RegisteredAs(PcOf(s, c)).Some? { EmptyHandedStep(s, s', c, PcOf(s', c), s.negative); }
      else { EntryStep(s, s', c, s'.callers[c]); }
  }

  /** Every step of every caller, and of the clock, keeps the invariant. */
  lemma StepKeeps(s: Sys, e: Event)
    requires Inv(s) && Possible(s, e)
    ensures Inv(Next(s, e))
  {
    if e.Tick? {
      TickStep(s, Next(s, e));
    } else {
      hide *;
      if e.Arrive? || e.Enter? || e.Probe? || e.CheckBackoff? {
        EntryKeeps(s, e);
      } else if e.Join? || e.Look? || e.Wake? || e.Cancel? {
        FlightKeeps(s, e);
      } else if e.Complete? || e.Expire? || e.StoreAnswer? || e.StoreTimeout? {
        LookupKeeps(s, e);
      } else {
        PublishingKeeps(s, e);
      }
    }
  }
}
