/**
 What the resolver promises over whole runs: one leader for each key, nobody stranded, one
 outcome for everybody who waited for it, and no answer the backend did not give.
 */
module DnsRuns {
  import opened Options
  import opened DnsCaches
  import opened DnsFlights
  import Ascii

  ghost predicate PossibleRun(s: Sys, es: seq<Event>)
    decreases |es|
  {
    es != [] ==> Possible(s, es[0]) && PossibleRun(Next(s, es[0]), es[1..])
  }

  ghost function After(s: Sys, es: seq<Event>): Sys
    requires PossibleRun(s, es)
    decreases |es|
  {
    if es == [] then s else After(Next(s, es[0]), es[1..])
  }

  /** How many of these steps are the steps of one caller. */
  function StepsOf(es: seq<Event>, c: nat): nat {
    if es == [] then 0 else (if Actor(es[0]) == Some(c) then 1 else 0) + StepsOf(es[1..], c)
  }

  function Actor(e: Event): Option<nat> {
    if e.Tick? then None else Some(e.c)
  }

  lemma {:induction false} RunKeeps(s: Sys, es: seq<Event>)
    requires Inv(s) && PossibleRun(s, es)
    ensures Inv(After(s, es))
    decreases |es|
  {
    hide Inv, Next, Possible;
    if es != [] {
      StepKeeps(s, es[0]);
      RunKeeps(Next(s, es[0]), es[1..]);
    }
  }

  /** The invariant in every state a new resolver can reach. */
  lemma Reachable(now: real, es: seq<Event>)
    requires PossibleRun(Opened(now), es)
    ensures Inv(After(Opened(now), es))
  {
    hide Next, Possible;
    RunKeeps(Opened(now), es);
  }

  // ---------------------------------------------------------------------------
  // One leader
  // ---------------------------------------------------------------------------

  /**
   In every reachable state a key has a flight exactly when some caller leads it, that caller
   is the only one, and the flight is its channel.
   */
  lemma OneFlightOneLeader(now: real, es: seq<Event>, key: Key)
    requires PossibleRun(Opened(now), es)
    ensures var s := After(Opened(now), es);
            && (key in s.inflight <==> exists c :: LeadsKey(s, c, key))
            && (forall c, d :: LeadsKey(s, c, key) && LeadsKey(s, d, key) ==> c == d)
            && (forall c :: LeadsKey(s, c, key) ==> s.inflight[key] == s.callers[c].pc.ch)
  {
    hide Next, Possible, NewKey;
    Reachable(now, es);
    var s := After(Opened(now), es);
    hide Inv;
    if key in s.inflight {
      FlightOf(s, key);
      ChanOf(s, s.inflight[key]);
      assert LeadsKey(s, s.chans[s.inflight[key]].leader, key);
    }
    forall c, d | LeadsKey(s, c, key) && LeadsKey(s, d, key)
      ensures c == d && key in s.inflight && s.inflight[key] == s.callers[c].pc.ch
    {
      OneLeaderPerKey(s, c, d);
    }
    forall c | LeadsKey(s, c, key) ensures key in s.inflight && s.inflight[key] == s.callers[c].pc.ch {
      OneLeaderPerKey(s, c, c);
    }
  }

  ghost predicate LeadsKey(s: Sys, c: nat, key: Key) {
    c in s.callers && RegisteredAs(s.callers[c].pc).Some? && KeyOf(s.callers[c]) == key
  }

  /** Deregistering, by publishing or by being dropped, takes away one's own flight and no other. */
  lemma DeregistersItsOwn(s: Sys, e: Event)
    requires Inv(s) && Possible(s, e) && (e.Deregister? || e.CancelDeregister?)
    ensures var key := KeyOf(s.callers[e.c]);
            && key in s.inflight && s.inflight[key] == s.callers[e.c].pc.ch
            && s.chans[s.inflight[key]].leader == e.c
            && Next(s, e).inflight == s.inflight - {key}
    ensures forall d :: d in s.callers && d != e.c && RegisteredAs(s.callers[d].pc).Some? ==>
              var key := KeyOf(s.callers[d]);
              key in Next(s, e).inflight && Next(s, e).inflight[key] == s.callers[d].pc.ch
  {
    hide Inv, NewKey;
    CallerOf(s, e.c);
    forall d | d in s.callers && d != e.c && RegisteredAs(s.callers[d].pc).Some?
      ensures var key := KeyOf(s.callers[d]);
              key in Next(s, e).inflight && Next(s, e).inflight[key] == s.callers[d].pc.ch
    {
      CallerOf(s, d);
      if KeyOf(s.callers[d]) == KeyOf(s.callers[e.c]) {
        OneLeaderPerKey(s, e.c, d);
      }
    }
  }

  // ---------------------------------------------------------------------------
  // Nobody stranded
  // ---------------------------------------------------------------------------

  ghost predicate Follows(s: Sys, c: nat, ch: nat) {
    c in s.callers && (s.callers[c].pc == Following(ch) || s.callers[c].pc == Waiting(ch))
  }

  /**
   A follower's channel holds an outcome, or has a sender owned by a leader on its way to
   send or drop it, or has lost its sender to a cancellation; a waiting follower goes on in
   the first and the last case: to the outcome, or back to the top.
   */
  lemma NobodyStranded(s: Sys, c: nat, ch: nat)
    requires Inv(s) && Follows(s, c, ch)
    ensures ch < |s.chans| && s.chans[ch].key == KeyOf(s.callers[c])
    ensures var chan := s.chans[ch];
            && chan.leader in s.callers && KeyOf(s.callers[chan.leader]) == KeyOf(s.callers[c])
            && (chan.value.Some? <==> s.callers[chan.leader].pc.Done?)
            && (chan.senderAlive <==> SenderOf(s.callers[chan.leader].pc) == Some(ch))
            && (chan.value.None? && !chan.senderAlive <==> s.callers[chan.leader].pc.Gone?)
            && (s.callers[c].pc.Waiting? && !chan.senderAlive ==>
                  && Possible(s, Wake(c))
                  && PcOf(Next(s, Wake(c)), c) == (if chan.value.Some? then Following(ch) else Start))
  {
    hide Inv, NewKey;
    CallerOf(s, c);
    ChanOf(s, ch);
  }

  /** Steps a caller that owns a sender can still take before the sender is gone. */
  function Rank(pc: Pc): nat {
    match pc
    case Leading(_) => 4
    case Storing(_, _) => 3
    case StoringNegative(_) => 3
    case Publishing(_, _) => 2
    case Cancelling(_) => 2
    case Sending(_, _) => 1
    case Dropping(_) => 1
    case Start => 0
    case Probing(_) => 0
    case CheckingBackoff => 0
    case Joining => 0
    case Following(_) => 0
    case Waiting(_) => 0
    case Done(_, _) => 0
    case Gone => 0
  }

  /** The step a leader can always take; what it stores and when it looks at the clock is its own. */
  function LeaderStep(s: Sys, c: nat, after: Negative): Event
    requires c in s.callers
  {
    match s.callers[c].pc
    case Leading(_) => Expire(c)
    case Storing(_, _) => StoreAnswer(c)
    case StoringNegative(_) => StoreTimeout(c, s.now, after)
    case Publishing(_, _) => Deregister(c)
    case Sending(_, _) => Send(c)
    case Cancelling(_) => CancelDeregister(c)
    case _ => DropSender(c)
  }

  lemma {:induction false} LongestAgoExists(n: Negative)
    requires n != map[]
    ensures exists k :: IsLongestAgo(n, k)
    decreases |n|
  {
    var k :| k in n;
    var rest := n - {k};
    assert forall l :: l in n && l != k ==> l in rest && rest[l] == n[l];
    if rest == map[] {
      assert IsLongestAgo(n, k);
    } else {
      LongestAgoExists(rest);
      var l :| IsLongestAgo(rest, l);
      assert IsLongestAgo(n, if n[k] <= n[l] then k else l);
    }
  }

  /** A timeout can always be remembered. */
  lemma SomeMemory(n: Negative, key: Key, now: real) returns (after: Negative)
    ensures Remembers(n, after, key, now)
  {
    if |n| >= MAX_NEGATIVE_CACHE_ENTRIES && key !in n {
      var r := RetainedNegative(n, now);
      if |r| >= MAX_NEGATIVE_CACHE_ENTRIES {
        LongestAgoExists(r);
        var k :| IsLongestAgo(r, k);
        after := (r - {k})[key := now];
      } else {
        after := r[key := now];
      }
    } else {
      after := n[key := now];
    }
  }

  /** A leader is never blocked: some step of its own is always possible. */
  lemma LeadersCanMove(s: Sys, c: nat)
    requires Inv(s) && c in s.callers && SenderOf(s.callers[c].pc).Some?
    ensures exists after :: Possible(s, LeaderStep(s, c, after))
  {
    hide Inv, NewKey;
    CallerOf(s, c);
    if s.callers[c].pc.StoringNegative? {
      var after := SomeMemory(s.negative, KeyOf(s.callers[c]), s.now);
      assert Possible(s, LeaderStep(s, c, after));
    } else {
      assert Possible(s, LeaderStep(s, c, s.negative));
    }
  }

  /** A step of the leader brings it nearer to its end; a step of anybody else leaves it where it is. */
  lemma StepsLowerRank(s: Sys, e: Event, c: nat)
    requires Possible(s, e) && c in s.callers && SenderOf(s.callers[c].pc).Some?
    ensures c in Next(s, e).callers
    ensures Actor(e) == Some(c) ==> Rank(PcOf(Next(s, e), c)) < Rank(s.callers[c].pc)
    ensures Actor(e) != Some(c) ==> PcOf(Next(s, e), c) == s.callers[c].pc
    ensures SenderOf(PcOf(Next(s, e), c)) == SenderOf(s.callers[c].pc) || Rank(PcOf(Next(s, e), c)) == 0
    ensures Rank(PcOf(Next(s, e), c)) == 0 ==> PcOf(Next(s, e), c).Done? || PcOf(Next(s, e), c).Gone?
  {
    CallersStay(s, e, c);
    if Actor(e) == Some(c) {
      OwnStepLowersRank(s, e);
    } else {
      OthersLeaveAlone(s, e, c);
    }
    hide Next, Possible;
  }

  lemma OwnStepLowersRank(s: Sys, e: Event)
    requires Possible(s, e) && !e.Tick? && e.c in s.callers && SenderOf(s.callers[e.c].pc).Some?
    ensures var pc' := PcOf(Next(s, e), e.c);
            && Rank(pc') < Rank(s.callers[e.c].pc)
            && (SenderOf(pc') == SenderOf(s.callers[e.c].pc) || Rank(pc') == 0)
            && (Rank(pc') == 0 ==> pc'.Done? || pc'.Gone?)
  {
    hide Remembers, Stored, Probed, Backoff, NewKey;
    assert e.Complete? || e.Expire? || e.StoreAnswer? || e.StoreTimeout? || e.Deregister? || e.Send? || e.Cancel?
           || e.CancelDeregister? || e.DropSender?;
  }

  /** A caller that has returned or was dropped takes no more steps. */
  lemma EndedStaysEnded(s: Sys, e: Event, c: nat)
    requires Possible(s, e) && c in s.callers && (s.callers[c].pc.Done? || s.callers[c].pc.Gone?)
    ensures Actor(e) != Some(c) && PcOf(Next(s, e), c) == s.callers[c].pc && c in Next(s, e).callers
  {
    hide Remembers, Stored, Probed, Backoff, NewKey;
  }

  lemma {:induction false} RunsLowerRank(s: Sys, es: seq<Event>, c: nat)
    requires PossibleRun(s, es) && c in s.callers
    requires SenderOf(s.callers[c].pc).Some? || s.callers[c].pc.Done? || s.callers[c].pc.Gone?
    ensures c in After(s, es).callers
    ensures Rank(PcOf(After(s, es), c)) + StepsOf(es, c) <= Rank(s.callers[c].pc)
    ensures Rank(PcOf(After(s, es), c)) == 0 ==> SenderOf(PcOf(After(s, es), c)).None?
    decreases |es|
  {
    hide Next, Possible;
    if es != [] {
      if SenderOf(s.callers[c].pc).Some? {
        StepsLowerRank(s, es[0], c);
      } else {
        EndedStaysEnded(s, es[0], c);
      }
      RunsLowerRank(Next(s, es[0]), es[1..], c);
    }
  }

  /**
   However the others interleave, a leader that still owns its sender has taken fewer steps of
   its own than it had left, at most four; and once the sender is gone, sent or dropped, every
   follower still waiting for it can wake.
   */
  lemma LeadersRelease(s: Sys, es: seq<Event>, c: nat, ch: nat)
    requires Inv(s) && PossibleRun(s, es) && c in s.callers && SenderOf(s.callers[c].pc) == Some(ch)
    ensures var t := After(s, es);
            && ch < |t.chans| && t.chans[ch].leader == c && Rank(s.callers[c].pc) <= 4
            && (t.chans[ch].senderAlive ==> SenderOf(PcOf(t, c)) == Some(ch) && StepsOf(es, c) < Rank(s.callers[c].pc))
            && (!t.chans[ch].senderAlive ==>
                  forall d :: Follows(t, d, ch) && t.callers[d].pc.Waiting? ==> Possible(t, Wake(d)))
  {
    hide Inv, Next, NewKey;
    RunsLowerRank(s, es, c);
    RunKeeps(s, es);
    CallerOf(s, c);
    RunGrowsChans(s, es);
    var t := After(s, es);
    ChanOf(t, ch);
  }

  // ---------------------------------------------------------------------------
  // One outcome
  // ---------------------------------------------------------------------------

  lemma MostStepsKeepChans(s: Sys, e: Event)
    requires Possible(s, e) && !e.Join? && !e.Send? && !e.DropSender?
    ensures Next(s, e).chans == s.chans
  {
    hide Remembers, Stored, Probed, Backoff, NewKey;
  }

  lemma StepGrowsChans(s: Sys, e: Event)
    requires Inv(s) && Possible(s, e)
    ensures ChansGrow(s, Next(s, e))
    ensures forall i :: 0 <= i < |s.chans| && !s.chans[i].senderAlive ==> Next(s, e).chans[i] == s.chans[i]
  {
    hide Inv, NewKey;
    if e.Send? || e.DropSender? {
      SenderIsAlive(s, e.c);
    } else if !e.Join? {
      MostStepsKeepChans(s, e);
      hide Next, Possible;
    }
  }

  lemma SenderIsAlive(s: Sys, c: nat)
    requires Inv(s) && c in s.callers && SenderOf(s.callers[c].pc).Some?
    ensures var ch := SenderOf(s.callers[c].pc).value;
            ch < |s.chans| && s.chans[ch].senderAlive && s.chans[ch].value.None?
  {
    hide Inv, NewKey;
    CallerOf(s, c);
    ChanOf(s, s.callers[c].pc.ch);
  }

  /** Channels keep their key and leader, and a channel whose sender is gone never changes again. */
  lemma {:induction false} RunGrowsChans(s: Sys, es: seq<Event>)
    requires Inv(s) && PossibleRun(s, es)
    ensures ChansGrow(s, After(s, es))
    ensures forall i :: 0 <= i < |s.chans| && !s.chans[i].senderAlive ==> After(s, es).chans[i] == s.chans[i]
    decreases |es|
  {
    hide Inv, Next, Possible;
    if es != [] {
      var t := Next(s, es[0]);
      StepKeeps(s, es[0]);
      StepGrowsChans(s, es[0]);
      RunGrowsChans(t, es[1..]);
    }
  }

  /** Still with the flight it joined, or returned from it, or cancelled. */
  predicate SeesOut(pc: Pc, ch: nat) {
    pc == Following(ch) || pc == Waiting(ch) || pc == Gone || (pc.Done? && pc.via == FromFlight(ch))
  }

  /** A follower leaves its flight only when the leader was cancelled. */
  lemma RetriesOnlyAfterCancel(s: Sys, e: Event, c: nat, ch: nat)
    requires Inv(s) && Possible(s, e) && Follows(s, c, ch)
    ensures ch < |s.chans|
    ensures SeesOut(PcOf(Next(s, e), c), ch)
            || (e == Wake(c) && PcOf(Next(s, e), c) == Start
                && s.chans[ch].value.None? && !s.chans[ch].senderAlive && PcOf(s, s.chans[ch].leader) == Gone)
  {
    hide Remembers, Stored, Probed, Backoff, NewKey, Inv;
    NobodyStranded(s, c, ch);
  }

  /**
   If a flight is published at any time in a run, everybody following it at the start is at
   the end still with it, returned from it or cancelled: nobody has gone back to start a
   lookup. Who returned has the one published outcome.
   */
  lemma {:induction false} EverybodySeesItOut(s: Sys, es: seq<Event>, c: nat, ch: nat)
    requires Inv(s) && PossibleRun(s, es) && c in s.callers && ch < |s.chans| && SeesOut(s.callers[c].pc, ch)
    requires ch < |After(s, es).chans| && After(s, es).chans[ch].value.Some?
    ensures var t := After(s, es);
            && c in t.callers && SeesOut(t.callers[c].pc, ch)
            && (t.callers[c].pc.Done? ==> t.chans[ch].value == Some(t.callers[c].pc.outcome))
    decreases |es|
  {
    hide Inv, Next, Possible, NewKey;
    if es == [] {
      CallerOf(s, c);
    } else {
      var t := Next(s, es[0]);
      StepKeeps(s, es[0]);
      StepGrowsChans(s, es[0]);
      if Follows(s, c, ch) {
        RunGrowsChans(s, es);
        RetriesOnlyAfterCancel(s, es[0], c, ch);
        CallersStay(s, es[0], c);
      } else {
        EndedStaysEnded(s, es[0], c);
      }
      EverybodySeesItOut(t, es[1..], c, ch);
    }
  }

  lemma CallersStay(s: Sys, e: Event, c: nat)
    requires Possible(s, e) && c in s.callers
    ensures c in Next(s, e).callers && KeyOf(Next(s, e).callers[c]) == KeyOf(s.callers[c])
  {
    hide Remembers, Stored, Probed, Backoff, NewKey;
  }

  /** Steps a follower needs once the outcome is there. */
  function StepsToGo(pc: Pc): nat {
    if pc.Waiting? then 2 else if pc.Following? then 1 else 0
  }

  lemma FollowerAdvances(s: Sys, e: Event, c: nat, ch: nat)
    requires Inv(s) && Possible(s, e) && Follows(s, c, ch) && Actor(e) == Some(c)
    requires ch < |s.chans| && s.chans[ch].value.Some?
    ensures StepsToGo(PcOf(Next(s, e), c)) < StepsToGo(s.callers[c].pc)
  {
    hide Remembers, Stored, Probed, Backoff, NewKey, Inv;
    NobodyStranded(s, c, ch);
  }

  lemma OthersLeaveAlone(s: Sys, e: Event, c: nat)
    requires Possible(s, e) && c in s.callers && Actor(e) != Some(c)
    ensures PcOf(Next(s, e), c) == s.callers[c].pc
  {
    hide Remembers, Stored, Probed, Backoff, NewKey;
  }

  /** Once the outcome is published, two steps of a follower's own are enough to return it. */
  lemma {:induction false} FollowersReturn(s: Sys, es: seq<Event>, c: nat, ch: nat)
    requires Inv(s) && PossibleRun(s, es) && c in s.callers && SeesOut(s.callers[c].pc, ch)
    requires ch < |s.chans| && s.chans[ch].value.Some?
    requires StepsToGo(s.callers[c].pc) <= StepsOf(es, c)
    ensures var t := After(s, es);
            && c in t.callers
            && (t.callers[c].pc == Done(s.chans[ch].value.value, FromFlight(ch)) || t.callers[c].pc == Gone)
    decreases |es|
  {
    hide Inv, Next, Possible, NewKey;
    CallerOf(s, c);
    if es != [] {
      var t := Next(s, es[0]);
      StepKeeps(s, es[0]);
      StepGrowsChans(s, es[0]);
      CallersStay(s, es[0], c);
      if Actor(es[0]) != Some(c) {
        OthersLeaveAlone(s, es[0], c);
      } else if Follows(s, c, ch) {
        RetriesOnlyAfterCancel(s, es[0], c, ch);
        FollowerAdvances(s, es[0], c, ch);
      } else {
        EndedStaysEnded(s, es[0], c);
      }
      FollowersReturn(t, es[1..], c, ch);
    }
  }

  // ---------------------------------------------------------------------------
  // No answer from nowhere
  // ---------------------------------------------------------------------------

  /** In this run the backend, asked for this host and port, answered with these addresses. */
  ghost predicate Said(s: Sys, es: seq<Event>, r: Reply)
    requires PossibleRun(s, es)
    decreases |es|
  {
    es != [] && (SaidNow(s, es[0], r) || Said(Next(s, es[0]), es[1..], r))
  }

  ghost predicate SaidNow(s: Sys, e: Event, r: Reply)
    requires Possible(s, e)
  {
    e.Complete? && e.outcome == Answer(r.addrs) && s.callers[e.c].host == r.host && s.callers[e.c].port == r.port
  }

  lemma StepReplies(s: Sys, e: Event, r: Reply)
    requires Possible(s, e)
    ensures r in Next(s, e).replies <==> r in s.replies || SaidNow(s, e, r)
  {
    hide Remembers, Stored, Probed, Backoff, NewKey;
  }

  lemma {:induction false} RepliesWereSaid(s: Sys, es: seq<Event>, r: Reply)
    requires PossibleRun(s, es)
    ensures r in After(s, es).replies <==> r in s.replies || Said(s, es, r)
    decreases |es|
  {
    hide Next, Possible, SaidNow;
    if es != [] {
      StepReplies(s, es[0], r);
      RepliesWereSaid(Next(s, es[0]), es[1..], r);
    }
  }

  /** In this run some leader stored these addresses for this key, at this time. */
  ghost predicate StoredIn(s: Sys, es: seq<Event>, key: Key, entry: Entry)
    requires PossibleRun(s, es)
    decreases |es|
  {
    es != [] && (StoresNow(s, es[0], key, entry) || StoredIn(Next(s, es[0]), es[1..], key, entry))
  }

  ghost predicate StoresNow(s: Sys, e: Event, key: Key, entry: Entry)
    requires Possible(s, e)
  {
    && e.StoreAnswer? && KeyOf(s.callers[e.c]) == key
    && s.callers[e.c].pc.addrs == entry.addrs && s.now == entry.insertedAt
  }

  lemma StepCaches(s: Sys, e: Event, key: Key)
    requires Inv(s) && Possible(s, e) && key in Next(s, e).cache
    ensures (key in s.cache && s.cache[key] == Next(s, e).cache[key]) || StoresNow(s, e, key, Next(s, e).cache[key])
  {
    hide Inv, Remembers, Backoff, NewKey;
    if e.StoreAnswer? {
      CacheOf(s);
      var caller := s.callers[e.c];
      StoreIsBounded(s.cache, KeyOf(caller), caller.pc.addrs, caller.ttl.value, s.now);
      if key != KeyOf(caller) {
        StoredHadIt(s.cache, KeyOf(caller), caller.pc.addrs, caller.ttl.value, s.now, key);
        StoreEvictsExpiredFirst(s.cache, KeyOf(caller), caller.pc.addrs, caller.ttl.value, s.now, key);
      }
      hide Stored;
    }
  }

  lemma StoredHadIt(c: Cache, key: Key, addrs: seq<Addr>, ttl: real, now: real, k: Key)
    requires k in Stored(c, key, addrs, ttl, now) && k != key
    ensures k in c
  {
  }

  /** Every entry of the cache was stored in the run, unless it was there at the start. */
  lemma {:induction false} EntriesWereStored(s: Sys, es: seq<Event>, key: Key)
    requires Inv(s) && PossibleRun(s, es) && key in After(s, es).cache
    ensures (key in s.cache && s.cache[key] == After(s, es).cache[key]) || StoredIn(s, es, key, After(s, es).cache[key])
    decreases |es|
  {
    hide Inv, Next, Possible, StoresNow;
    if es != [] {
      StepKeeps(s, es[0]);
      EntriesWereStored(Next(s, es[0]), es[1..], key);
      if key in Next(s, es[0]).cache {
        StepCaches(s, es[0], key);
      }
    }
  }

  /** The caller's probe that hit: what it read, when, and the entry it found. */
  ghost predicate HitsAt(s: Sys, es: seq<Event>, n: nat, c: nat, key: Key, entry: Entry, reading: real)
    requires PossibleRun(s, es)
  {
    && n < |es| && es[n] == Probe(c) && PossibleRun(s, es[..n])
    && var u := After(s, es[..n]);
       && c in u.callers && u.callers[c].pc == Probing(reading)
       && KeyOf(u.callers[c]) == key && key in u.cache && u.cache[key] == entry
  }

  lemma OnlyProbesHit(s: Sys, e: Event, c: nat)
    requires Possible(s, e) && !PcOf(s, c).Done? && PcOf(Next(s, e), c).Done? && PcOf(Next(s, e), c).via.FromCache?
    ensures var pc := PcOf(Next(s, e), c);
            && pc.outcome.Answer? && e == Probe(c) && c in s.callers && s.callers[c].pc == Probing(pc.via.reading)
            && KeyOf(s.callers[c]) in s.cache && s.cache[KeyOf(s.callers[c])] == Entry(pc.outcome.addrs, pc.via.at)
  {
    hide Remembers, Stored, Backoff, NewKey;
  }

  lemma PrefixFirst(s: Sys, es: seq<Event>, n: nat)
    requires PossibleRun(s, es) && 0 < n <= |es| && PossibleRun(Next(s, es[0]), es[1..][..n - 1])
    ensures PossibleRun(s, es[..n]) && After(s, es[..n]) == After(Next(s, es[0]), es[1..][..n - 1])
  {
    hide Next, Possible;
    assert es[..n][1..] == es[1..][..n - 1] && es[..n][0] == es[0];
  }

  lemma {:induction false} FindHit(s: Sys, es: seq<Event>, c: nat) returns (n: nat)
    requires PossibleRun(s, es) && !PcOf(s, c).Done?
    requires PcOf(After(s, es), c).Done? && PcOf(After(s, es), c).via.FromCache?
    ensures var pc := PcOf(After(s, es), c);
            && pc.outcome.Answer?
            && HitsAt(s, es, n, c, KeyOf(After(s, es).callers[c]), Entry(pc.outcome.addrs, pc.via.at), pc.via.reading)
    decreases |es|
  {
    hide Next, Possible, NewKey;
    var t := Next(s, es[0]);
    if PcOf(t, c).Done? {
      RunStaysEnded(t, es[1..], c);
      OnlyProbesHit(s, es[0], c);
      RunKeepsKey(s, es, c);
      n := 0;
      assert es[..0] == [];
    } else {
      var m := FindHit(t, es[1..], c);
      n := m + 1;
      PrefixFirst(s, es, n);
    }
  }

  lemma {:induction false} RunStaysEnded(s: Sys, es: seq<Event>, c: nat)
    requires PossibleRun(s, es) && PcOf(s, c).Done?
    ensures PcOf(After(s, es), c) == PcOf(s, c)
    decreases |es|
  {
    hide Next, Possible;
    if es != [] {
      EndedStaysEnded(s, es[0], c);
      RunStaysEnded(Next(s, es[0]), es[1..], c);
    }
  }

  lemma {:induction false} RunKeepsKey(s: Sys, es: seq<Event>, c: nat)
    requires PossibleRun(s, es) && c in s.callers
    ensures c in After(s, es).callers && KeyOf(After(s, es).callers[c]) == KeyOf(s.callers[c])
    decreases |es|
  {
    hide Next, Possible, NewKey;
    if es != [] {
      CallersStay(s, es[0], c);
      RunKeepsKey(Next(s, es[0]), es[1..], c);
    }
  }

  /** A hit returns what a leader stored earlier in the run, under the caller's key, at the time it is dated. */
  ghost predicate CacheHit(s: Sys, es: seq<Event>, n: nat, c: nat, key: Key, entry: Entry, reading: real)
    requires PossibleRun(s, es)
  {
    HitsAt(s, es, n, c, key, entry, reading) && StoredIn(s, es[..n], key, entry)
  }

  lemma HitsAreStored(now: real, es: seq<Event>, c: nat)
    requires PossibleRun(Opened(now), es)
    requires PcOf(After(Opened(now), es), c).Done? && PcOf(After(Opened(now), es), c).via.FromCache?
    ensures var caller := After(Opened(now), es).callers[c];
            && caller.pc.outcome.Answer?
            && var entry := Entry(caller.pc.outcome.addrs, caller.pc.via.at);
               exists n: nat :: CacheHit(Opened(now), es, n, c, KeyOf(caller), entry, caller.pc.via.reading)
  {
    hide Next, Possible, NewKey;
    var n := FindHit(Opened(now), es, c);
    var caller := After(Opened(now), es).callers[c];
    assert Inv(Opened(now));
    hide Inv;
    EntriesWereStored(Opened(now), es[..n], KeyOf(caller));
    var entry := Entry(caller.pc.outcome.addrs, caller.pc.via.at);
    assert CacheHit(Opened(now), es, n, c, KeyOf(caller), entry, caller.pc.via.reading);
  }

  /**
   Every answer a caller of a new resolver returns was given by the backend, in this run, for
   its port and its host up to letter case. It came from the flight the caller led, from the
   flight it joined, or from a cache entry that a leader stored for the same key earlier in the
   run and that was younger, when probed, than the caller's own time to live.
   */
  lemma AnswersAreBacked(now: real, es: seq<Event>, c: nat)
    requires PossibleRun(Opened(now), es)
    requires PcOf(After(Opened(now), es), c).Done? && PcOf(After(Opened(now), es), c).outcome.Answer?
    ensures var t := After(Opened(now), es);
            var caller := t.callers[c];
            && (exists r :: Said(Opened(now), es, r) && r.addrs == caller.pc.outcome.addrs
                            && r.port == caller.port && Ascii.SameUpToCase(r.host, caller.host))
            && match caller.pc.via
               case FromCache(at, reading) =>
                 && caller.ttl.Some? && Age(at, reading) < caller.ttl.value
                 && var entry := Entry(caller.pc.outcome.addrs, at);
                    exists n: nat :: CacheHit(Opened(now), es, n, c, KeyOf(caller), entry, reading)
               case FromBackoff => false
               case FromLead(ch) =>
                 ch < |t.chans| && t.chans[ch].leader == c && t.chans[ch].value == Some(caller.pc.outcome)
               case FromFlight(ch) =>
                 ch < |t.chans| && t.chans[ch].key == KeyOf(caller) && t.chans[ch].value == Some(caller.pc.outcome)
  {
    hide Next, Possible, NewKey;
    Reachable(now, es);
    hide Inv, Said, CacheHit;
    var t := After(Opened(now), es);
    CallerOf(t, c);
    var caller := t.callers[c];
    if caller.pc.via.FromCache? {
      HitsAreStored(now, es, c);
    }
    var r :| r in t.replies && NewKey(r.host, r.port) == KeyOf(caller) && r.addrs == caller.pc.outcome.addrs;
    RepliesWereSaid(Opened(now), es, r);
    SameKeyIff(r.host, r.port, caller.host, caller.port);
  }

  /** The caches stay within their bounds in every run. */
  lemma CachesStayBounded(now: real, es: seq<Event>)
    requires PossibleRun(Opened(now), es)
    ensures |After(Opened(now), es).cache| <= 4096 && |After(Opened(now), es).negative| <= 1024
  {
    hide Next, Possible;
    Reachable(now, es);
  }
}
