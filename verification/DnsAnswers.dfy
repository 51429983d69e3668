/**
 Where each outcome of the resolver comes from, told by the events of the run alone: a leader
 returns what its own lookup gave, a follower what its leader's gave, a hit what was stored,
 and a caller backs off exactly while a timeout is remembered.
 */
module DnsAnswers {
  import opened Options
  import opened DnsCaches
  import opened DnsFlights
  import opened DnsRuns

  // ---------------------------------------------------------------------------
  // What a leader carries
  // ---------------------------------------------------------------------------

  /** The leader of this channel is past its lookup and has this outcome in hand, or has returned it. */
  predicate Holds(pc: Pc, ch: nat, o: Outcome) {
    match pc
    case Storing(at, addrs) => at == ch && o == Answer(addrs)
    case StoringNegative(at) => at == ch && o == Failure(TimedOut)
    case Publishing(at, got) => at == ch && got == o
    case Sending(at, got) => at == ch && got == o
    case Done(got, via) => got == o && via == FromLead(ch)
    case _ => false
  }

  /** The lookup of this caller ends, by the backend or by the deadline. */
  predicate EndsLookup(e: Event, c: nat) {
    (e.Complete? || e.Expire?) && e.c == c
  }

  /** It ends with this outcome. */
  predicate EndsWith(e: Event, c: nat, o: Outcome) {
    e == Complete(c, o) || (e == Expire(c) && o == Failure(TimedOut))
  }

  lemma HoldsSince(s: Sys, e: Event, c: nat, ch: nat, o: Outcome)
    requires Possible(s, e) && Holds(PcOf(Next(s, e), c), ch, o)
    ensures Holds(PcOf(s, c), ch, o) || (PcOf(s, c) == Leading(ch) && EndsWith(e, c, o))
  {
    hide Remembers, Stored, Probed, Backoff, NewKey;
    if c !in s.callers || Actor(e) != Some(c) {
      if c in s.callers {
        OthersLeaveAlone(s, e, c);
      }
    }
  }

  lemma EndHolds(s: Sys, e: Event, c: nat, ch: nat, o: Outcome)
    requires Possible(s, e) && PcOf(s, c) == Leading(ch) && EndsWith(e, c, o)
    ensures Holds(PcOf(Next(s, e), c), ch, o)
    ensures Rank(PcOf(Next(s, e), c)) == StepsToPublish(s.callers[c], o)
  {
    hide Remembers, Stored, Probed, Backoff, NewKey;
  }

  /** Steps from the end of the lookup to the return: a store, if there is one, deregistering, sending. */
  function StepsToPublish(caller: Caller, o: Outcome): nat {
    if (o.Answer? && caller.ttl.Some?) || o == Failure(TimedOut) then 3 else 2
  }

  lemma HoldsOn(s: Sys, e: Event, c: nat, ch: nat, o: Outcome)
    requires Possible(s, e) && Holds(PcOf(s, c), ch, o) && e != Cancel(c)
    ensures Holds(PcOf(Next(s, e), c), ch, o)
  {
    hide Remembers, Stored, Probed, Backoff, NewKey;
    if Actor(e) != Some(c) {
      OthersLeaveAlone(s, e, c);
    }
  }

  /** At this point of the run the caller leads the channel and its lookup ends with this outcome. */
  ghost predicate EndsAt(s: Sys, es: seq<Event>, n: nat, c: nat, ch: nat, o: Outcome)
    requires PossibleRun(s, es)
  {
    && n < |es| && EndsWith(es[n], c, o) && PossibleRun(s, es[..n])
    && PcOf(After(s, es[..n]), c) == Leading(ch)
  }

  lemma {:induction false} FindEnd(s: Sys, es: seq<Event>, c: nat, ch: nat, o: Outcome) returns (n: nat)
    requires PossibleRun(s, es) && !Holds(PcOf(s, c), ch, o) && Holds(PcOf(After(s, es), c), ch, o)
    ensures EndsAt(s, es, n, c, ch, o)
    decreases |es|
  {
    hide Next, Possible, Holds;
    var t := Next(s, es[0]);
    if Holds(PcOf(t, c), ch, o) {
      HoldsSince(s, es[0], c, ch, o);
      n := 0;
      assert es[..0] == [];
    } else {
      var m := FindEnd(t, es[1..], c, ch, o);
      n := m + 1;
      PrefixFirst(s, es, n);
    }
  }

  // ---------------------------------------------------------------------------
  // One lookup each
  // ---------------------------------------------------------------------------

  /** A caller that has had its lookup, whatever became of it. */
  predicate PastLookup(pc: Pc) {
    pc.Done? || pc.Gone? || (SenderOf(pc).Some? && !pc.Leading?)
  }

  lemma PastStaysPast(s: Sys, e: Event, c: nat)
    requires Possible(s, e) && c in s.callers && PastLookup(s.callers[c].pc)
    ensures c in Next(s, e).callers && PastLookup(PcOf(Next(s, e), c)) && !EndsLookup(e, c)
  {
    hide Remembers, Stored, Probed, Backoff, NewKey;
    CallersStay(s, e, c);
  }

  lemma EndIsPast(s: Sys, e: Event, c: nat)
    requires Possible(s, e) && EndsLookup(e, c)
    ensures c in Next(s, e).callers && PastLookup(PcOf(Next(s, e), c))
  {
    hide Remembers, Stored, Probed, Backoff, NewKey;
  }

  lemma {:induction false} NoLookupAfter(s: Sys, es: seq<Event>, c: nat, n: nat)
    requires PossibleRun(s, es) && c in s.callers && PastLookup(s.callers[c].pc) && n < |es|
    ensures !EndsLookup(es[n], c)
    decreases |es|
  {
    hide Next, Possible, PastLookup;
    PastStaysPast(s, es[0], c);
    if n > 0 {
      NoLookupAfter(Next(s, es[0]), es[1..], c, n - 1);
    }
  }

  /** A caller's lookup ends at most once in a run. */
  lemma {:induction false} OneLookupEach(s: Sys, es: seq<Event>, c: nat, m: nat, n: nat)
    requires PossibleRun(s, es) && m < n < |es|
    ensures !(EndsLookup(es[m], c) && EndsLookup(es[n], c))
    decreases |es|
  {
    hide Next, Possible, PastLookup;
    if m > 0 {
      OneLookupEach(Next(s, es[0]), es[1..], c, m - 1, n - 1);
    } else if EndsLookup(es[0], c) {
      EndIsPast(s, es[0], c);
      NoLookupAfter(Next(s, es[0]), es[1..], c, n - 1);
    }
  }

  // ---------------------------------------------------------------------------
  // A leader returns what its lookup gave
  // ---------------------------------------------------------------------------

  /**
   A caller that returns from a flight it led returns the outcome with which its own lookup, the
   only one it had in the run, ended: what the backend said, or a timeout if the deadline passed.
   */
  lemma LeadersReturnTheirLookup(now: real, es: seq<Event>, c: nat, ch: nat, o: Outcome)
    requires PossibleRun(Opened(now), es) && PcOf(After(Opened(now), es), c) == Done(o, FromLead(ch))
    ensures exists n: nat :: EndsAt(Opened(now), es, n, c, ch, o)
                             && forall m :: 0 <= m < |es| && EndsLookup(es[m], c) ==> m == n
  {
    hide Next, Possible;
    var n := FindEnd(Opened(now), es, c, ch, o);
    forall m | 0 <= m < |es| && EndsLookup(es[m], c) ensures m == n {
      if m < n {
        OneLookupEach(Opened(now), es, c, m, n);
      } else if n < m {
        OneLookupEach(Opened(now), es, c, n, m);
      }
    }
    assert EndsAt(Opened(now), es, n, c, ch, o);
  }

  lemma {:induction false} HoldsToTheEnd(s: Sys, es: seq<Event>, c: nat, ch: nat, o: Outcome)
    requires PossibleRun(s, es) && Holds(PcOf(s, c), ch, o) && Cancel(c) !in es
    ensures Holds(PcOf(After(s, es), c), ch, o)
    decreases |es|
  {
    hide Next, Possible, Holds;
    if es != [] {
      HoldsOn(s, es[0], c, ch, o);
      HoldsToTheEnd(Next(s, es[0]), es[1..], c, ch, o);
    }
  }

  /**
   Conversely, a leader whose lookup ends with an outcome has it in hand from then on, unless it
   is cancelled, and has returned it after two or three more steps of its own.
   */
  lemma LookupsAreReturned(s: Sys, es: seq<Event>, c: nat, ch: nat, o: Outcome)
    requires PossibleRun(s, es) && es != [] && PcOf(s, c) == Leading(ch) && EndsWith(es[0], c, o)
    requires Cancel(c) !in es
    ensures Holds(PcOf(After(s, es), c), ch, o)
    ensures StepsOf(es[1..], c) >= StepsToPublish(s.callers[c], o) ==>
              PcOf(After(s, es), c) == Done(o, FromLead(ch))
  {
    hide Next, Possible;
    var t := Next(s, es[0]);
    EndHolds(s, es[0], c, ch, o);
    HoldsToTheEnd(t, es[1..], c, ch, o);
    RunsLowerRank(t, es[1..], c);
  }

  /** A follower returns the outcome with which the lookup of its leader ended, a caller of the same key. */
  lemma FollowersReturnTheLookup(now: real, es: seq<Event>, c: nat, ch: nat, o: Outcome)
    requires PossibleRun(Opened(now), es) && PcOf(After(Opened(now), es), c) == Done(o, FromFlight(ch))
    ensures exists d, n: nat :: EndsAt(Opened(now), es, n, d, ch, o) && d in After(Opened(now), es).callers
                                && KeyOf(After(Opened(now), es).callers[d]) == KeyOf(After(Opened(now), es).callers[c])
  {
    hide Next, Possible, NewKey;
    Reachable(now, es);
    hide Inv;
    var t := After(Opened(now), es);
    CallerOf(t, c);
    ChanOf(t, ch);
    var d := t.chans[ch].leader;
    var n := FindEnd(Opened(now), es, d, ch, o);
    assert EndsAt(Opened(now), es, n, d, ch, o);
  }

  // ---------------------------------------------------------------------------
  // Hits and back-offs
  // ---------------------------------------------------------------------------

  /** A probe hits exactly a live entry under the caller's key, and returns it; a stale one it drops. */
  lemma ProbeHitsIff(s: Sys, c: nat)
    requires Possible(s, Probe(c))
    ensures var t, caller := Next(s, Probe(c)), s.callers[c];
            var key, reading, ttl := KeyOf(caller), caller.pc.reading, caller.ttl.value;
            && (if key in s.cache && ttl > 0.0 && reading - s.cache[key].insertedAt < ttl then
                  && PcOf(t, c) == Done(Answer(s.cache[key].addrs), FromCache(s.cache[key].insertedAt, reading))
                  && t.cache == s.cache
                else PcOf(t, c) == CheckingBackoff && key !in t.cache)
            && (forall k :: k != key ==> (k in t.cache <==> k in s.cache))
            && (forall k :: k in t.cache ==> k in s.cache && t.cache[k] == s.cache[k])
  {
    hide NewKey;
  }

  /** A caller backs off exactly if a timeout of its key is remembered that is less than two seconds old. */
  lemma BacksOffIff(s: Sys, c: nat, reading: real)
    requires Possible(s, CheckBackoff(c, reading))
    ensures var t, key := Next(s, CheckBackoff(c, reading)), KeyOf(s.callers[c]);
            && (if key in s.negative && reading - s.negative[key] < 2.0 then
                  PcOf(t, c) == Done(Failure(TimedOut), FromBackoff) && t.negative == s.negative
                else PcOf(t, c) == Joining && key !in t.negative)
            && (forall k :: k != key ==> (k in t.negative <==> k in s.negative))
            && (forall k :: k in t.negative ==> k in s.negative && t.negative[k] == s.negative[k])
  {
    hide NewKey;
  }

  /** A step that stores leaves the answer or the timeout under the caller's key, dated now or at its reading. */
  lemma StoresAreKept(s: Sys, e: Event)
    requires Inv(s) && Possible(s, e) && (e.StoreAnswer? || e.StoreTimeout?)
    ensures var t, key := Next(s, e), KeyOf(s.callers[e.c]);
            if e.StoreAnswer? then key in t.cache && t.cache[key] == Entry(s.callers[e.c].pc.addrs, s.now)
            else key in t.negative && t.negative[key] == e.reading
  {
    hide Inv, NewKey;
    CacheOf(s);
    var caller := s.callers[e.c];
    if e.StoreAnswer? {
      StoreIsBounded(s.cache, KeyOf(caller), caller.pc.addrs, caller.ttl.value, s.now);
    } else {
      RememberIsBounded(s.negative, e.after, KeyOf(caller), e.reading);
    }
    hide Stored, Remembers;
  }

  /** In this run a caller of this key timed out and read this time. */
  ghost predicate TimedOutIn(s: Sys, es: seq<Event>, key: Key, at: real)
    requires PossibleRun(s, es)
    decreases |es|
  {
    es != [] && (TimesOutNow(s, es[0], key, at) || TimedOutIn(Next(s, es[0]), es[1..], key, at))
  }

  ghost predicate TimesOutNow(s: Sys, e: Event, key: Key, at: real)
    requires Possible(s, e)
  {
    e.StoreTimeout? && KeyOf(s.callers[e.c]) == key && e.reading == at
  }

  lemma StepRemembers(s: Sys, e: Event, key: Key)
    requires Inv(s) && Possible(s, e) && key in Next(s, e).negative
    ensures (key in s.negative && s.negative[key] == Next(s, e).negative[key])
            || TimesOutNow(s, e, key, Next(s, e).negative[key])
  {
    hide Inv, Stored, Probed, NewKey;
    if e.StoreTimeout? {
      CacheOf(s);
      RememberIsBounded(s.negative, e.after, KeyOf(s.callers[e.c]), e.reading);
    }
    hide Remembers;
  }

  /** Every remembered timeout happened in the run, unless it was there at the start. */
  lemma {:induction false} TimeoutsHappened(s: Sys, es: seq<Event>, key: Key)
    requires Inv(s) && PossibleRun(s, es) && key in After(s, es).negative
    ensures (key in s.negative && s.negative[key] == After(s, es).negative[key])
            || TimedOutIn(s, es, key, After(s, es).negative[key])
    decreases |es|
  {
    hide Inv, Next, Possible, TimesOutNow;
    if es != [] {
      StepKeeps(s, es[0]);
      TimeoutsHappened(Next(s, es[0]), es[1..], key);
      if key in Next(s, es[0]).negative {
        StepRemembers(s, es[0], key);
      }
    }
  }

  /** The check at which a caller backed off, and the timeout it found. */
  ghost predicate BacksOffAt(s: Sys, es: seq<Event>, n: nat, c: nat, key: Key, at: real)
    requires PossibleRun(s, es)
  {
    && n < |es| && es[n].CheckBackoff? && es[n].c == c && es[n].reading - at < 2.0
    && PossibleRun(s, es[..n])
    && var u := After(s, es[..n]);
       c in u.callers && KeyOf(u.callers[c]) == key && key in u.negative && u.negative[key] == at
  }

  lemma OnlyChecksBackOff(s: Sys, e: Event, c: nat)
    requires Possible(s, e) && !PcOf(s, c).Done? && PcOf(Next(s, e), c).Done? && PcOf(Next(s, e), c).via.FromBackoff?
    ensures e.CheckBackoff? && e.c == c && c in s.callers
    ensures KeyOf(s.callers[c]) in s.negative && e.reading - s.negative[KeyOf(s.callers[c])] < 2.0
  {
    hide Remembers, Stored, Probed, NewKey;
    if e.CheckBackoff? && e.c == c {
      BacksOffIff(s, c, e.reading);
    }
  }

  lemma {:induction false} FindBackoff(s: Sys, es: seq<Event>, c: nat) returns (n: nat, at: real)
    requires PossibleRun(s, es) && !PcOf(s, c).Done?
    requires PcOf(After(s, es), c).Done? && PcOf(After(s, es), c).via.FromBackoff?
    ensures BacksOffAt(s, es, n, c, KeyOf(After(s, es).callers[c]), at)
    decreases |es|
  {
    hide Next, Possible, NewKey;
    var t := Next(s, es[0]);
    if PcOf(t, c).Done? {
      RunStaysEnded(t, es[1..], c);
      OnlyChecksBackOff(s, es[0], c);
      RunKeepsKey(s, es, c);
      n, at := 0, s.negative[KeyOf(s.callers[c])];
      assert es[..0] == [];
    } else {
      var m, a := FindBackoff(t, es[1..], c);
      n, at := m + 1, a;
      PrefixFirst(s, es, n);
    }
  }

  /** A caller of a new resolver backs off only if one of its key timed out, less than two seconds before. */
  lemma BackoffsAreEarned(now: real, es: seq<Event>, c: nat)
    requires PossibleRun(Opened(now), es)
    requires PcOf(After(Opened(now), es), c).Done? && PcOf(After(Opened(now), es), c).via.FromBackoff?
    ensures var key := KeyOf(After(Opened(now), es).callers[c]);
            exists n: nat, at :: BacksOffAt(Opened(now), es, n, c, key, at) && TimedOutIn(Opened(now), es[..n], key, at)
  {
    hide Next, Possible, NewKey;
    var n, at := FindBackoff(Opened(now), es, c);
    var key := KeyOf(After(Opened(now), es).callers[c]);
    assert Inv(Opened(now));
    hide Inv;
    TimeoutsHappened(Opened(now), es[..n], key);
    assert BacksOffAt(Opened(now), es, n, c, key, at) && TimedOutIn(Opened(now), es[..n], key, at);
  }

  /** The cache holds an answer for this caller that is younger than its time to live. */
  ghost predicate HasAnswer(s: Sys, caller: Caller) {
    var key := KeyOf(caller);
    caller.ttl.Some? && key in s.cache && caller.ttl.value > 0.0 && s.now - s.cache[key].insertedAt < caller.ttl.value
  }

  ghost predicate HasTimeout(s: Sys, caller: Caller) {
    var key := KeyOf(caller);
    key in s.negative && s.now - s.negative[key] < 2.0
  }

  /** What a caller does first if nobody interrupts it: look in the cache, if it has one. */
  function LooksFirst(caller: Caller, c: nat): seq<Event> {
    if caller.ttl.Some? then [Enter(c), Probe(c)] else [Enter(c)]
  }

  lemma LookingFirst(s: Sys, c: nat)
    requires c in s.callers && s.callers[c].pc == Start
    ensures PossibleRun(s, LooksFirst(s.callers[c], c))
    ensures var caller, t := s.callers[c], After(s, LooksFirst(s.callers[c], c));
            && t.negative == s.negative && t.inflight == s.inflight && t.chans == s.chans && t.now == s.now
            && c in t.callers && KeyOf(t.callers[c]) == KeyOf(caller)
            && (if HasAnswer(s, caller) then
                  var entry := s.cache[KeyOf(caller)];
                  t.callers[c].pc == Done(Answer(entry.addrs), FromCache(entry.insertedAt, s.now))
                else t.callers[c].pc == CheckingBackoff)
  {
    hide NewKey;
    var u := Next(s, Enter(c));
    assert [Enter(c), Probe(c)][1..] == [Probe(c)];
    assert PossibleRun(u, []) && After(u, []) == u;
    if s.callers[c].ttl.Some? {
      ProbeHitsIff(u, c);
      var t := Next(u, Probe(c));
      assert PossibleRun(t, []) && After(t, []) == t;
      assert PossibleRun(u, [Probe(c)]) && After(u, [Probe(c)]) == t;
    }
  }

  /**
   Undisturbed, a caller returns a live answer from the cache; without one it fails while a
   timeout is remembered; otherwise it follows the flight of its key, and leads if there is none.
   */
  lemma Undisturbed(s: Sys, c: nat)
    requires c in s.callers && s.callers[c].pc == Start
    ensures PossibleRun(s, LooksFirst(s.callers[c], c))
    ensures var caller, t := s.callers[c], After(s, LooksFirst(s.callers[c], c));
            if HasAnswer(s, caller) then
              PcOf(t, c).Done? && PcOf(t, c).outcome == Answer(s.cache[KeyOf(caller)].addrs)
            else
              && Possible(t, CheckBackoff(c, s.now))
              && var u := Next(t, CheckBackoff(c, s.now));
                 if HasTimeout(s, caller) then PcOf(u, c) == Done(Failure(TimedOut), FromBackoff)
                 else
                   && Possible(u, Join(c))
                   && PcOf(Next(u, Join(c)), c) ==
                      (if KeyOf(caller) in s.inflight then Following(s.inflight[KeyOf(caller)]) else Leading(|s.chans|))
  {
    hide NewKey;
    LookingFirst(s, c);
    var caller, t := s.callers[c], After(s, LooksFirst(s.callers[c], c));
    if !HasAnswer(s, caller) {
      BacksOffIff(t, c, s.now);
    }
  }

  // ---------------------------------------------------------------------------
  // What the caches give up
  // ---------------------------------------------------------------------------

  /** An answer is given up only when a caller finds it stale, or to make room in a full cache. */
  lemma AnswersAreLostOnly(s: Sys, e: Event, key: Key)
    requires Possible(s, e) && key in s.cache && key !in Next(s, e).cache
    ensures (e.Probe? && KeyOf(s.callers[e.c]) == key
             && !(s.callers[e.c].ttl.value > 0.0
                  && s.callers[e.c].pc.reading - s.cache[key].insertedAt < s.callers[e.c].ttl.value))
            || (e.StoreAnswer? && KeyOf(s.callers[e.c]) !in s.cache && |s.cache| >= 4096)
  {
    hide Remembers, Backoff, NewKey;
    if e.Probe? {
      ProbeHitsIff(s, e.c);
    }
  }

  /** A timeout is given up only when a caller finds it two seconds old, or to make room in a full memory. */
  lemma TimeoutsAreLostOnly(s: Sys, e: Event, key: Key)
    requires Possible(s, e) && key in s.negative && key !in Next(s, e).negative
    ensures (e.CheckBackoff? && KeyOf(s.callers[e.c]) == key && e.reading - s.negative[key] >= 2.0)
            || (e.StoreTimeout? && KeyOf(s.callers[e.c]) !in s.negative && |s.negative| >= 1024)
  {
    hide Stored, Probed, NewKey;
    if e.CheckBackoff? {
      BacksOffIff(s, e.c, e.reading);
    }
  }
}
