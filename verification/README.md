# Alighieri: a verified model of its hard parts

Alighieri is a SOCKS5 proxy. This project models, in Dafny, the parts of it where concurrency,
shared mutable state, rates over time or recursive text make it hard to see that the code is
right, and proves what they promise:

- **Name resolution** (`DnsCaches`, `DnsFlights`, `DnsRuns`, `DnsAnswers`). Concurrent lookups of one
  name are coalesced: the first caller leads, the others follow its channel. The caches are objects
  updated in place; the protocol is a step machine over callers, channels, flights, caches and the
  clock, one step for each lock section and each send, with completion, deadlines and cancellation at
  any moment the code allows. The theorems are about every run.
- **Throttling** (`TokenBuckets`, `Throttles`, `ThrottleRuns`). Buckets are shared between flows,
  charged by shaping and by policing and retuned in place; conservation, rate and order of release hold
  over whole histories.
- **Abuse controls** (`Clients`, `ClientRuns`, `Denials`, `Abuse`, `Reloads`, `Locks`, `LockScopes`).
  The table of clients is pruned, evicted and reloaded while permits point into it. `Abuse` is the table
  as objects; the record of each address moves along a history of `ClientRuns`, about which the bounds
  are proved; `Reloads` lets reloads and admissions interleave lock section by lock section; `Locks`
  lets any number of threads run any operations.
- **Access rules** (`Net`, `Acl`, `Rules`). First match wins, and a gate that decides on UDP before any
  destination is known.
- **Userlist** (`Texts`, `Utf8`, `Hex`, `Userlist`, `UserLines`). Editing the text of the file is a map
  update of what the loader makes of it.
- **Configuration includes** (`Blocks`, `Includes`, `IncludeGraphs`, `ConfigLoader`, `ConfigLines`).
  Loading with a stack of open files is the textual expansion of the includes, and reports exactly the
  cycles.
- **Pattern matching and peeking** (`Wildcard`, `Peek`). A table against the recursive meaning of a
  pattern, and a buffer nobody downstream can notice.

`Ascii` and `Options` are shared by the others. `dafny verify dfyconfig.toml` verifies everything.

Times and durations are exact reals in seconds; a clock reading is a parameter and may be stale,
that is, earlier than one used before. Sizes of counters matter only where the code saturates, and
are modelled there. Socket addresses, rules, paths and client addresses are opaque identities.

Where a property of the code does not hold as one might expect, the project shows how it fails and
proves the exact condition under which it holds:

- The order in which policing locks its buckets is invisible if and only if clock readings never go
  back (`OrderIsHiddenIff`); for every sequence of readings that does go back there are buckets and
  operations that see the order (`StaleReadingsSeeTheOrder`).
- A bucket keeps burst plus rate if and only if no reading lags its clock (`BurstPlusRateIff`); a lag
  buys at most the rate times the lag (`ReleasesKeepTheRate`), and does buy it (`LagIsAttained`).
- With readings in order and no retunes, what goes through some buckets is released no later than what
  follows through others if and only if the others contain them (`FirstServedIff`); otherwise the later
  flow can overtake (`Overtakes`).
- The byte rate of an address since its first admission holds across prunes and reconnects if and only
  if readings do not lag each other and no record is evicted (`ByteRateHoldsIff`). A sweep that read the
  clock before a flow's last refill makes a new bucket too early: the bound with that slack is
  `BytesStayWithinTheRate`, and every sum of lags is attained (`SlackIsAttained`). Evicting an idle record
  at the cap of the table forgives its debt (`EvictionForgivesTheDebt`).
- Twice the connection limit in every window length holds if and only if nothing is evicted at the cap of
  the table and the limit is below the largest 64-bit number (`ConnectionRateHoldsIff`, with
  `EvictionLiftsTheBound` and `LargestLimitLiftsTheBound` for the failures).
- An address with too many failed logins is denied until its window is over (`LockoutIsExact`, `LockedOut`),
  unless its record is evicted at the cap of the table (`EvictionForgetsFailures`).
- A single reconciliation brings a bucket to the new limit if and only if the limit is not degenerate or
  there was no bucket (`ReconcileCarries`; the configuration parser rejects a zero limit or window). All
  runs come to rest on the newest limit if and only if reloads do not overlap (`NewestLimitStandsIff`);
  for any two different limits overlapping ones may leave the older in force
  (`OverlappingReloadsMayRevert`).
- All connections of an address go on sharing the bucket of its record across a reload if and only if
  there are none or the byte rate is not switched on or off (`UpdateConfig`).
- The comment on the UDP gate in `src/acl.rs` says that an open gate means some destination could be
  authorised, and that an applicable pass rule makes its range reachable. The code lets earlier,
  narrower blocks shadow it: `OpenGateMayLeadNowhere`. Something is reachable if and only if some
  applicable pass rule is not covered by earlier applicable blocks (`ReachesSomethingIff`), and the
  opening rule's whole range is if and only if none of them overlaps it (`OpenGateRangeIff`). The model
  follows the code.
- Editing repairs a userlist that does not load if and only if all its bad lines are entries of the
  edited user (`UpsertIsMapUpdate`, `DeleteIsMapRemoval`); a malformed directive is nobody's entry.

## Model

| member | source | states |
|---|---|---|
| `DnsCaches.OldestIsUnique` | src/dns.rs:485-490 | The entry stored longest ago, with ties broken by port and host, is one and the same whatever the iteration order of the map. |
| `DnsCaches.SameKeyIff` | src/dns.rs:454-461 | Two names share a cache key if and only if the ports are equal and the hosts differ at most in the case of ASCII letters. |
| `DnsCaches.FindOldest` | src/dns.rs:485-490 | Finds that entry of any non-empty cache, and nothing in an empty one. |
| `DnsCaches.StoreIsBounded` | src/dns.rs:318-342 | After a store the cache has at most 4096 entries and holds the new answer, stamped with the time of the store. |
| `DnsCaches.StoreEvictsExpiredFirst` | src/dns.rs:318-342 | A store changes no other entry that stays; a live entry is given up only when the cache was full, no entry had expired, and it was the oldest, and then it is the only one given up. |
| `DnsCaches.RememberIsBounded` | src/dns.rs:363-380 | The timeout memory stays within 1024 entries, keeps what it keeps unchanged, and gives up a fresh entry only when it was full of fresh ones, and then the one longest ago. |
| `DnsCaches.FindLongestAgo` | src/dns.rs:370-376 | Finds an entry of the timeout memory that none precedes. |
| `DnsCaches.DnsResolver.constructor` | src/dns.rs:76-86 | A new resolver has empty caches and no flights. |
| `DnsCaches.DnsResolver.Cached` | src/dns.rs:303-316 | A hit is an entry younger than the caller's time to live; an entry found too old is removed; nothing else changes. |
| `DnsCaches.DnsResolver.Store` | src/dns.rs:318-342 | The in-place store is the store of the laws above: sweep only when full, evict the oldest only when the sweep frees nothing, insert. |
| `DnsCaches.DnsResolver.NegativelyCached` | src/dns.rs:346-358 | Backs off exactly while the last timeout is less than two seconds old, and forgets one that is older. |
| `DnsCaches.DnsResolver.StoreNegative` | src/dns.rs:363-380 | The in-place memory of a timeout is the one of the laws above. |
| `DnsCaches.DnsResolver.JoinOrLead` | src/dns.rs:289-301 | Joins the flight of the key if there is one; otherwise opens a new channel and registers exactly that. |
| `DnsCaches.DnsResolver.RemoveInflight` | src/dns.rs:425-432 | Takes away the flight of one key and no other. |
| `DnsFlights.StepKeeps` | src/dns.rs:204-301 | Every step of every caller (arrival, probe, back-off check, join, completion, deadline, store, deregistration, send, wake, cancellation, drop) and of the clock keeps the protocol invariant. |
| `DnsFlights.OneLeaderPerKey` | src/dns.rs:289-301 | Two registered leaders of one key are the same caller, and the flight of the key is its channel. |
| `DnsFlights.LeadEnds` | src/dns.rs:410-432 | Deregistering before sending, or on cancellation, keeps the invariant although newer callers may register the key in between. |
| `DnsFlights.SenderGoes` | src/dns.rs:410-446 | Using up the sender, by sending or by dropping it, keeps the invariant. |
| `DnsRuns.Reachable` | src/dns.rs:204-285 | The invariant holds in every state any interleaving can reach from a new resolver. |
| `DnsRuns.OneFlightOneLeader` | src/dns.rs:289-301 | In every reachable state a key has a flight exactly when some caller leads it; that caller is the only one, and the flight is its channel. |
| `DnsRuns.DeregistersItsOwn` | src/dns.rs:403-446 | Deregistration, by publishing or by being dropped, removes the caller's own flight and leaves every other leader's flight in place. |
| `DnsRuns.NobodyStranded` | src/dns.rs:204-285 | A follower's channel has an outcome exactly when the leader returned, a live sender exactly while the leader owns it, and neither exactly when the leader was cancelled; whenever the sender is gone a waiting follower can wake, to the outcome or to a retry. |
| `DnsRuns.LeadersCanMove` | src/dns.rs:229-264 | A leader is never blocked by the protocol: some step of its own is always possible. |
| `DnsRuns.StepsLowerRank` | src/dns.rs:229-264 | Every step of a leader brings it nearer to giving up its sender, and no step of another caller moves it. |
| `DnsRuns.LeadersRelease` | src/dns.rs:229-264 | However others interleave, every leader (answering, failing, timing out or cancelled) that still owns its sender has taken fewer own steps than it had left, at most four; once the sender is gone every follower still waiting can wake. |
| `DnsRuns.RunGrowsChans` | src/dns.rs:410-446 | A channel whose sender is gone never changes again: an outcome is published once. |
| `DnsRuns.RetriesOnlyAfterCancel` | src/dns.rs:265-282 | A follower leaves its flight unanswered only when the leader was cancelled without publishing. |
| `DnsRuns.EverybodySeesItOut` | src/dns.rs:265-282 | If a flight is published at any time in a run, nobody who followed it has gone back to start a lookup, and everybody who returned has that one outcome, be it an answer, an error or a timeout. |
| `DnsRuns.FollowersReturn` | src/dns.rs:265-282 | Once the outcome is there, two steps of a follower's own are enough to return it, unless the follower itself is cancelled. |
| `DnsRuns.RepliesWereSaid` | src/dns.rs:242-253 | The recorded replies are exactly the answers the backend gave in the run, with the host and port it was asked for. |
| `DnsRuns.EntriesWereStored` | src/dns.rs:318-342 | Every cache entry is one that a leader stored in the run, under its own key, with the addresses it got, at the time it is dated. |
| `DnsRuns.HitsAreStored` | src/dns.rs:213-217 | A caller that returned from the cache has a probe in the run that found an entry stored before it. |
| `DnsRuns.AnswersAreBacked` | src/dns.rs:204-285 | Every answer returned was given by the backend in this run for the same port and for a host that differs at most in the case of ASCII letters; it came through the flight the caller led, the flight it joined, or a cache entry, and through nothing else. A cache hit returned what a leader stored under the same key earlier in the run, dated with the time of the store and younger at the probe than the caller's own time to live. Which lookup a flight returned is said by `LeadersReturnTheirLookup` and `FollowersReturnTheLookup`. |
| `DnsRuns.CachesStayBounded` | src/dns.rs:318-380 | In every run the caches stay within 4096 and 1024 entries. |
| `DnsAnswers.LeadersReturnTheirLookup` | src/dns.rs:242-264 | A caller that returns from a flight it led returns the outcome with which its own lookup, the only one it had in the run, ended while it was the leader: what the backend gave, answer or failure, or a timeout if the deadline passed. |
| `DnsAnswers.LookupsAreReturned` | src/dns.rs:242-264 | Conversely a leader whose lookup ends with an outcome has it in hand from then on, unless it is cancelled, and has returned it after two more steps of its own, or three if there is an answer to cache or a timeout to remember. |
| `DnsAnswers.OneLookupEach` | src/dns.rs:204-264 | The lookup of a caller ends at most once in a run, whatever it followed, retried or led. |
| `DnsAnswers.FollowersReturnTheLookup` | src/dns.rs:265-282 | A caller that returns from a flight it joined returns the outcome with which the lookup of that flight's leader ended in the run, a caller of the same key. |
| `DnsAnswers.ProbeHitsIff` | src/dns.rs:303-316 | In every state a probe hits if and only if there is an entry under the caller's key younger than its time to live, and returns that entry; a stale one is dropped, and no other entry is touched. |
| `DnsAnswers.BacksOffIff` | src/dns.rs:346-358 | In every state a caller backs off if and only if a timeout of its key is remembered that is less than two seconds old at its reading; an older one is forgotten, and no other is touched. |
| `DnsAnswers.StoresAreKept` | src/dns.rs:254-261 | Whatever has to give way, a stored answer is in the cache under the leader's key, dated now, and a timeout in the memory, dated with its reading. |
| `DnsAnswers.TimeoutsHappened` | src/dns.rs:363-380 | Every remembered timeout is one that a leader of that key met in the run, dated with its reading. |
| `DnsAnswers.BackoffsAreEarned` | src/dns.rs:218-226 | A caller of a new resolver backs off only if a leader of its key timed out earlier in the run, less than two seconds before its check. |
| `DnsAnswers.Undisturbed` | src/dns.rs:211-228 | A caller nobody interrupts returns a live answer from the cache; without one it fails while a timeout is remembered; otherwise it follows the flight of its key, and leads exactly if there is none. |
| `DnsAnswers.AnswersAreLostOnly` | src/dns.rs:303-342 | No step loses a cached answer except a probe that finds it stale and a store into a full cache that lacks the stored key. |
| `DnsAnswers.TimeoutsAreLostOnly` | src/dns.rs:346-380 | No step loses a remembered timeout except a check that finds it two seconds old and a store into a full memory that lacks the stored key. |
| `TokenBuckets.Wait` | src/throttle.rs:70-80 | The wait is not negative and is just long enough for the debt to be refilled. |
| `TokenBuckets.RefillsCompose` | src/throttle.rs:59-65 | Refilling on the way makes no difference later, for readings in order. |
| `TokenBuckets.RefillIsSound` | src/throttle.rs:59-65 | A refill never exceeds the capacity nor what the rate earned, takes nothing away, and never moves the clock back. |
| `TokenBuckets.RetuneGivesNoBurst` | src/throttle.rs:97-109 | A retune hands out no token at once, caps the tokens at the new capacity, sets rate times window to the capacity, and ignores a degenerate limit. |
| `TokenBuckets.FullIsFresh` | src/throttle.rs:113-116 | A bucket is full exactly when, refilled, it is the bucket a new client would get; pruning it loses nothing. |
| `TokenBuckets.StepConserves` | src/throttle.rs:59-116 | Bytes charged, credit lost to the cap and tokens left balance tokens before and credit earned, for every operation and any reading. |
| `TokenBuckets.HistoryConserves` | src/throttle.rs:59-116 | The same balance over every history of charges, probes and retunes, stale readings included; tokens never exceed the capacity in force. |
| `TokenBuckets.CreditAtFixedRate` | src/throttle.rs:59-65 | Between retunes the credit is the rate times the elapsed time, however the time is cut up. |
| `TokenBuckets.EachRatePaysItsTime` | src/throttle.rs:97-109 | With a retune in the middle: bytes charged, spilled and left are the first tokens plus the old rate times the time up to the retune plus the new rate times the time after it, at any readings; the new rate is never applied backwards. |
| `TokenBuckets.TokenBucket.constructor` | src/throttle.rs:39-47 | A new bucket is full. |
| `TokenBuckets.TokenBucket.Refill` | src/throttle.rs:59-65 | The in-place refill is the refill of the laws above; a stale reading changes nothing. |
| `TokenBuckets.TokenBucket.Reserve` | src/throttle.rs:70-80 | Refills, charges in full, and returns the wait for the debt. |
| `TokenBuckets.TokenBucket.CanCover` | src/throttle.rs:84-87 | Refills and tells whether the tokens cover the bytes. |
| `TokenBuckets.TokenBucket.Take` | src/throttle.rs:90-92 | Charges without a refill. |
| `TokenBuckets.TokenBucket.UpdateRateWindow` | src/throttle.rs:97-109 | The in-place retune is the retune of the laws above. |
| `TokenBuckets.TokenBucket.Full` | src/throttle.rs:113-116 | Refills and tells whether the bucket is full. |
| `Throttles.ReserveAllEffect` | src/throttle.rs:155-163 | Shaping charges every bucket exactly once, and the wait is the longest any of them asks for. |
| `Throttles.PoliceEffect` | src/throttle.rs:168-202 | Policing forwards exactly when every bucket covers the datagram; it charges all of them or none, and otherwise at most refills. |
| `Throttles.InsertByAddress` | src/throttle.rs:186-187 | Insertion keeps the ascending address order and the multiset of buckets. |
| `Throttles.OrderByAddress` | src/throttle.rs:186-187 | The lock order is ascending by address and a permutation of the buckets. |
| `Throttles.Throttle.constructor` | src/throttle.rs:129-131 | A new throttle has no buckets. |
| `Throttles.Throttle.WithBucket` | src/throttle.rs:138-143 | Adds a bucket unless the very same one is there, so that no bucket is locked or charged twice. |
| `Throttles.Throttle.Reserve` | src/throttle.rs:155-163 | On the shared buckets themselves: each is charged once and the wait is the longest one. |
| `Throttles.Throttle.Police` | src/throttle.rs:168-202 | On the shared buckets themselves, with the one-bucket fast path: all charged or none, by the same test. |
| `Throttles.PoliceOrdered` | src/throttle.rs:188-199 | With all guards held: charges all on success; on failure the buckets up to the first short one are refilled and the later ones untouched. |
| `ThrottleRuns.ApplyAlike` | src/throttle.rs:155-202 | One operation under two lock orders gives the same result and leaves buckets that differ only by pending refills. |
| `ThrottleRuns.LockOrderIsInvisible` | src/throttle.rs:168-202 | Over whole runs with readings in order, every lock order gives the same waits and verdicts for ever, although a short bucket keeps later ones from being refilled. `OrderIsHiddenIff` shows that the order of readings is exactly what is needed. |
| `ThrottleRuns.StaleReadingsSeeTheOrder` | src/throttle.rs:59-65 | For every sequence of readings that goes back anywhere: sound buckets and operations with just these readings whose verdicts differ under two lock orders. |
| `ThrottleRuns.OrderIsHiddenIff` | src/throttle.rs:168-202 | For given readings, all buckets and all operations give the same results under all lock orders if and only if the readings never go back. |
| `ThrottleRuns.ReleasesKeepTheRate` | src/throttle.rs:59-92 | What a bucket lets through by any instant is at most its tokens plus rate times time, plus the rate times the largest lag of a reading, for any mix of flows waiting for any further buckets. |
| `ThrottleRuns.BurstPlusRate` | src/throttle.rs:59-92 | For a new bucket and punctual readings: at most capacity plus rate times the time since creation. |
| `ThrottleRuns.LagIsAttained` | src/throttle.rs:59-80 | For every capacity, rate and lag: a run whose readings lag so much, and an instant by which the bucket has let through exactly rate times lag more than burst plus rate. |
| `ThrottleRuns.BurstPlusRateIff` | src/throttle.rs:59-92 | For each capacity and rate, all runs whose readings lag the bucket by at most a given time keep burst plus rate if and only if that time is zero. |
| `ThrottleRuns.ReleasesKeepTheirOrder` | src/throttle.rs:155-202 | In punctual runs (readings in order, no retunes) what is let go later through at least the same buckets is released no earlier, also when it waits for the slowest of several buckets; in particular the releases of one bucket never go backwards. |
| `ThrottleRuns.Overtakes` | src/throttle.rs:155-163 | A flow that lacks any bucket of an earlier one can overtake it: for all such sets of buckets a punctual run in which it is released first. |
| `ThrottleRuns.FirstServedIff` | src/throttle.rs:155-202 | For any two sets of buckets, in all punctual runs (readings in order, no retunes) what goes through the first is released no later than what goes through the second after it, if and only if the second contains the first. |
| `Clients.LargestLimitNeverDenies` | src/abuse.rs:235-242 | A window denies exactly when its count has reached the limit, except that the largest limit never denies because the counter saturates at it. |
| `ClientRuns.PermitsAreCounted` | src/abuse.rs:90-183 | In every history of an address the record counts exactly its live permits, and without a record there are none. |
| `ClientRuns.ConcurrencyHolds` | src/abuse.rs:120-124 | Under a fixed limit an address never holds more live permits than the limit. |
| `ClientRuns.AttemptCounts` | src/abuse.rs:110-131 | An admission is one count below the limit in the window then in force; a denial never lowers the count. |
| `ClientRuns.AtMostTwiceTheLimit` | src/abuse.rs:125-131 | In every history without eviction, under a fixed connection rate below the largest, every half-open interval of one window length holds at most twice the limit of admissions, pruning and re-creation included. |
| `ClientRuns.ConnectionRateHolds` | src/abuse.rs:220-242 | The same bound from the first moment of an address on. |
| `ClientRuns.EvictionLiftsTheBound` | src/abuse.rs:324-339 | With eviction at the cap there is no such bound: for every limit and window, any number of admissions fits into one instant. |
| `ClientRuns.LargestLimitLiftsTheBound` | src/abuse.rs:235-242 | Nor is there one at the largest limit, where the saturating counter never passes it. |
| `ClientRuns.ConnectionRateHoldsIff` | src/abuse.rs:125-131 | All histories keep twice the limit in every window length if and only if nothing is evicted and the limit is not the largest 64-bit number (or the limit is zero, or the window empty). |
| `ClientRuns.PruneKeepsSolvent` | src/abuse.rs:342-357 | Pruning gives up only a full bucket: everything charged so far has been earned. |
| `ClientRuns.BytesStayWithinTheRate` | src/abuse.rs:255-270 | In every history without eviction, under a fixed byte rate, bytes charged plus tokens in hand stay within burst plus rate times time, plus the rate times how far new buckets were started behind the refills of those given up. |
| `ClientRuns.NeverBehind` | src/abuse.rs:306-315 | With all readings in order that slack is zero. |
| `ClientRuns.ByteRateHolds` | src/abuse.rs:255-270 | Without eviction and with readings in order, whatever failed logins and denied attempts come first: bytes charged plus tokens never exceed capacity plus rate times the time since the first admission, across any number of disconnects, prunes and reconnects. |
| `ClientRuns.SlackIsAttained` | src/abuse.rs:283-303 | That slack is real: for every limit and every list of lags, a history in which a flow refills the bucket at a later reading than the sweep and the admission after it, with exactly these lags, and the bound above met with equality. |
| `ClientRuns.BeyondByTheSlack` | src/abuse.rs:255-270 | Such a history is beyond burst plus rate since the first admission by exactly the rate times the sum of the lags. |
| `ClientRuns.EvictionForgivesTheDebt` | src/abuse.rs:317-339 | Evicting an idle record forgives its debt: for every limit, with all readings the same, a history that has charged a whole burst at the instant of its first admission and holds another. |
| `ClientRuns.ByteRateHoldsIff` | src/abuse.rs:255-315 | For every limit, all histories whose readings lag each other by at most a given time keep capacity plus rate times the time since the first admission if and only if neither a lag nor an eviction is allowed. |
| `Denials.FailuresAreTracked` | src/abuse.rs:147-162 | In every history without eviction, under a fixed limit, the window of an address counts exactly the failed logins since it began, up to saturation; records swept away and made anew lose none that matters. |
| `Denials.TriesAreTracked` | src/abuse.rs:125-131 | Likewise for the attempts that got as far as the connection rate, denied ones included. |
| `Denials.DecidedExactly` | src/abuse.rs:108-137 | After every history without eviction, under one configuration: an admission is denied for failed logins if and only if the current window holds as many failures as the limit; else for concurrency if and only if as many permits are live; else for the connection rate if and only if its window holds as many attempts, unless the limit is the largest; and is granted in every other case. |
| `Denials.DeniedOnlyForFailures` | src/abuse.rs:110-116 | Who is denied for failed logins has failed that often within the last window length. |
| `Denials.LockedOut` | src/abuse.rs:110-116 | Once a window has counted as many failures as the limit, nobody is admitted from the address until the window is over, whatever is tried, closed, charged, reloaded or swept in between. |
| `Denials.LockoutIsExact` | src/abuse.rs:110-162 | From the events alone: a failed login that follows a window length without attempts opens a window, and until that is over an admission is denied for failed logins if and only if the failures since, that one included, have reached the limit; sweeps change nothing. |
| `Denials.EvictionForgetsFailures` | src/abuse.rs:317-339 | What the lockout does not survive: after an eviction at the cap of the table an address is denied for failed logins only under a limit of zero. |
| `Denials.SweptIff` | src/abuse.rs:306-367 | A sweep removes a record if and only if nobody is using it, no permit is live, each limited window is over or has counted nothing since it began, and the bucket, if there is one, is free and full. |
| `Abuse.ClientState.constructor` | src/abuse.rs:195-202 | A new record has empty windows, no bucket and no connections. |
| `Abuse.ClientState.IsLimitExceeded` | src/abuse.rs:227-233 | The in-place window test, resetting an expired window first; over histories it denies as `DecidedExactly` and `LockoutIsExact` say. |
| `Abuse.ClientState.CountConnection` | src/abuse.rs:235-242 | The in-place count of a connection attempt, saturating at the largest number. |
| `Abuse.ClientState.CountFailure` | src/abuse.rs:235-242 | The in-place count of a failed login. |
| `Abuse.ClientState.ReconcileBandwidth` | src/abuse.rs:255-270 | Creates, retunes in place or drops the bucket; a retune keeps the bucket object that running flows share. |
| `Abuse.ClientState.TryAdmit` | src/abuse.rs:108-137 | The order of the three limits, what each denial leaves counted, and the bucket reconciled on admission. |
| `Abuse.ClientState.IsExpired` | src/abuse.rs:342-357 | Expired exactly when idle, with both windows prunable and no bucket or a full one that could be locked. |
| `Abuse.ClientPermit.constructor` | src/abuse.rs:140-144 | A permit carries the record it was granted on and the bucket its flows will share. |
| `Abuse.AbuseControls.constructor` | src/abuse.rs:63-69 | A new table is empty, and trivially every permit shares the bucket of its record. |
| `Abuse.AbuseControls.PruneOne` | src/abuse.rs:311-314 | Removes one record exactly when it is expired; all others stay as they are and every permit keeps its record. |
| `Abuse.AbuseControls.VisitOne` | src/abuse.rs:311-314 | A record that is in use is left alone; any other makes exactly the sweep step of its history. |
| `Abuse.AbuseControls.PruneExpiredClients` | src/abuse.rs:306-315 | The sweep gives every record exactly its sweep step, adds none, and never takes a record away from a live permit. |
| `Abuse.AbuseControls.PickVictims` | src/abuse.rs:328-335 | Only idle records are picked, no more than the excess, and fewer only if there are no other idle ones. |
| `Abuse.AbuseControls.EvictIdleClients` | src/abuse.rs:324-339 | Only idle records go, none below the target; more than the target stay only if all of them are in use or have live connections. |
| `Abuse.AbuseControls.RemoveIdle` | src/abuse.rs:336-338 | Removing idle records keeps the invariant. |
| `Abuse.AbuseControls.InsertNew` | src/abuse.rs:300-303 | A new record enters the table without disturbing any other. |
| `Abuse.AbuseControls.SweepIfDue` | src/abuse.rs:283-292 | Sweeps on every 64th call and on no other, and counts the call. |
| `Abuse.AbuseControls.MakeRoom` | src/abuse.rs:283-299 | After it a new address has room below the cap, or no record was idle; the address itself is at most swept, others at most swept and evicted. |
| `Abuse.AbuseControls.CheckoutState` | src/abuse.rs:276-304 | Finds or makes the one record of the address, after the sweeps; the table outgrows 65536 only when every other record is in use or has live connections. |
| `Abuse.AbuseControls.Ask` | src/abuse.rs:108-137 | The record of the address makes its attempt; the permit to come is the only difference between its count and the live permits. |
| `Abuse.AbuseControls.Decide` | src/abuse.rs:108-145 | The decision, and on admission a permit for that record with the bucket of that record; under a concurrency limit the permits of the address stay within it; all permits go on sharing the bucket of their record. |
| `Abuse.AbuseControls.Admit` | src/abuse.rs:90-145 | Keeps: all live permits of an address point to the one record the table has for it, its count is their number, and each carries the very bucket of that record. The address makes one admission step of its history, others at most a sweep or an eviction. |
| `Abuse.AbuseControls.CountFailureOf` | src/abuse.rs:156-161 | Counts the failure in one record and touches nothing else. |
| `Abuse.AbuseControls.RecordAuthFailure` | src/abuse.rs:147-162 | Keeps the same invariants, with limits that may be older than those in force; the address makes one failure step, others at most a sweep or an eviction. |
| `Abuse.AbuseControls.Charge` | src/abuse.rs:170-177 | Bytes of a live connection, charged to the bucket its permit carries, are a flow step in the history of its address and of no other: all connections of an address draw on one bucket. |
| `Abuse.AbuseControls.Release` | src/abuse.rs:164-183 | Dropping a permit lowers the count of the record it points to, which is the one in the table, and of no other; the other permits go on sharing their buckets. |
| `Abuse.AbuseControls.ReconcileOne` | src/abuse.rs:84-87 | One record brought to the new limits, all others as before. |
| `Abuse.AbuseControls.ReconcileAll` | src/abuse.rs:80-87 | The loop over all records: each reconciled, and every existing bucket retuned as the same object while a byte rate is set. |
| `Abuse.AbuseControls.UpdateConfig` | src/abuse.rs:71-88 | A reload without interference brings every tracked record to the new limits; for limits the parser accepts, live permits still carry the bucket of their record if and only if there are none or the byte rate is not switched on or off. |
| `Reloads.ReconcileCarries` | src/abuse.rs:255-270 | Reconciling leaves the bucket at the configured limit if and only if the limit is proper or there was no bucket. |
| `Reloads.RunKeeps` | src/abuse.rs:71-145 | In every interleaving of lock sections, reloads not overlapping each other, a tracked bucket off the newest limit is always still pending for a reload or for the admission under way. |
| `Reloads.NewestLimitStands` | src/abuse.rs:71-145 | Whenever no reload and no admission is under way, every tracked bucket carries the newest byte rate, and there is none if it was switched off. |
| `Reloads.OverlappingReloadsMayRevert` | src/abuse.rs:71-88 | With two reloads at once the older may retune last: for any proper limits a run that ends with the newer in force and the bucket at the older, which is not the newer exactly when the older byte rate is a limit different from the newer. |
| `Reloads.NewestLimitStandsIff` | src/abuse.rs:71-145 | For limits the parser accepts, all runs come to rest on the newest byte rate if and only if reloads do not overlap. |
| `Locks.CallIsDisciplined` | src/abuse.rs:71-168 | Every operation takes its locks in the order clients, config, state, buckets by address, and gives all of them back. |
| `Locks.CallsAreDisciplined` | src/throttle.rs:155-202 | So does every sequence of operations a thread may run. |
| `Locks.RunKeepsOrder` | src/abuse.rs:71-168 | In every run of any number of threads each lock has at most one holder and every thread follows the order. |
| `Locks.NoCircularWait` | src/throttle.rs:168-202 | No chain of threads, each waiting for a lock of the next, comes back to its start. |
| `Locks.NeverDeadlocked` | src/abuse.rs:71-168 | In every state of every run, if a thread is unfinished some thread can move. |
| `LockScopes.AdmitScopes` | src/abuse.rs:90-145 | An admission holds the table lock from its first step to its last, reads the limits under it and uses its record inside; beyond these and the bucket it waits for no lock. |
| `LockScopes.AuthFailureScopes` | src/abuse.rs:147-162 | A failed login has read the limits and given them back before it takes the table, and uses its record under the table. |
| `LockScopes.UpdateScopes` | src/abuse.rs:71-88 | A reload has given back the limits and the table before it touches any record, and visits every record of its snapshot. |
| `LockScopes.StateScopes` | src/abuse.rs:255-270 | The use of a record holds its lock throughout and takes the lock of the bucket only inside. |
| `LockScopes.SweepScopes` | src/abuse.rs:306-357 | Pruning and eviction wait for no lock. |
| `LockScopes.ReserveScopes` | src/throttle.rs:155-163 | Shaping holds one bucket at a time. |
| `LockScopes.PoliceScopes` | src/throttle.rs:168-202 | Policing holds all its buckets at once before it gives any back. |
| `Net.ContainsIsBlock` | src/net.rs:59-74 | A network contains exactly the aligned block of addresses of its own family that its prefix spans. |
| `Net.MatchesAllIsUniversal` | src/net.rs:438-442 | A selector taken for every destination does match every destination. |
| `Net.MatchesAllIff` | src/net.rs:438-442 | For a selector the parser can produce the shortcut is exact: it holds if and only if every destination is matched. |
| `Net.ParsedIsInhabited` | src/net.rs:383-413 | No selector the parser produces is empty: a destination it matches. |
| `Acl.FirstMatchWins` | src/acl.rs:226-243 | The first matching rule decides, with its own verdict, name, line and bandwidth; no match means denial. What matching means is said by `Rules.CoversIff`. |
| `Rules.HostMatchesIff` | src/net.rs:349-365 | An exact pattern matches exactly its name, and a domain pattern exactly its domain and whatever ends in a dot and the domain, in any case, with or without one dot at the end. |
| `Rules.CoversIff` | src/acl.rs:116-126 | A rule matches a request if and only if it is a socks rule, the client lies in one of its blocks of addresses and its port range, the destination lies in one of the blocks or names of the other side and in its port range, and command, protocol and method are listed wherever the rule lists any. |
| `Rules.FirstCoveringRuleDecides` | src/acl.rs:226-243 | Told without the matchers: the first rule that covers a request in that sense decides it, with its verdict, line, name and bandwidth; a request that none covers is blocked by none. |
| `Acl.UdpGateIsSound` | src/acl.rs:201-224 | If full evaluation passes a UDP request to any destination, the gate is open. |
| `Acl.RefusalBlocksEverything` | src/acl.rs:201-224 | A refusal at the gate means every destination would have been blocked. |
| `Acl.GateOpenIff` | src/acl.rs:201-224 | The gate is open exactly when an applicable pass rule comes before every applicable categorical block. |
| `Acl.OpenGateRangeIff` | src/acl.rs:189-224 | The rule that opened the gate passes its whole range, as its comment says, if and only if no earlier applicable block overlaps that range. |
| `Acl.PassesIff` | src/acl.rs:226-243 | A request passes if and only if some pass rule matches it and no earlier block does. |
| `Acl.ReachesSomethingIff` | src/acl.rs:176-224 | A client reaches some destination over UDP if and only if some applicable pass rule has a destination in its range that no earlier applicable block covers; an open gate leads nowhere exactly when all those ranges are covered. |
| `Acl.OpenGateLeadsSomewhere` | src/acl.rs:189-224 | In a parsed configuration a gate opened by a rule that no earlier applicable block overlaps does lead to a destination of that rule. |
| `Acl.OpenGateMayLeadNowhere` | src/acl.rs:176-224 | An open gate does not promise a reachable destination: a rule list the parser can produce that opens it and blocks everything. |
| `Texts.TrimIsTrimmed` | src/auth.rs:101-101 | Trimming removes white space at both ends, and leaves trimmed text as it is. |
| `Texts.TrimIff` | src/auth.rs:101-101 | Trimming gives the one text without white space at its ends that the rest is only white space around. |
| `Texts.LinesOfText` | src/auth.rs:99-99 | The lines of a text are its terminated lines, each less one carriage return at its end, and what follows the last line feed unless that is empty. |
| `Texts.SplitOnceUndoes` | src/auth.rs:628-630 | Splitting at the first separator undoes joining with one. |
| `Texts.LinesOfJoined` | src/main.rs:1744-1758 | Lines joined by line feeds are read back one by one; only a carriage return at the end of a line is lost. |
| `Utf8.DecodesExactlyEncodings` | src/auth.rs:656-656 | Decoding succeeds on exactly the encodings of text, and gives that text. |
| `Hex.HexEncode` | src/auth.rs:636-644 | Writes two lower-case digits for every byte, the high half first. |
| `Hex.HexDecode` | src/auth.rs:646-657 | Fails on an odd number of bytes, on any byte that is not a digit and on bytes that are not UTF-8; otherwise gives the text. |
| `Hex.DecodeUndoesHex` | src/auth.rs:636-657 | The digits of a name decode to that name. |
| `Hex.HexNamesExactly` | src/auth.rs:636-666 | Digits decode to a name if and only if they are, up to letter case, the digits written for that name. |
| `Userlist.EditorAgreesWithLoader` | src/auth.rs:171-183 | The editor's reading of whose line it is agrees with the loader's; of the bad lines it owns exactly the directives whose only fault is the hash. |
| `Userlist.GeneratedLineBinds` | src/auth.rs:145-153 | A generated line is one line and loads as its user with its hash. |
| `Userlist.ParseUserlist` | src/auth.rs:97-142 | The loader's loop computes the meaning of the text that the laws below and those of `UserLines` are about. |
| `Userlist.RejectsFirstBad` | src/auth.rs:97-142 | A text is rejected at its first bad line, with that line's problem, and for no other reason. |
| `Userlist.BoundBySomeLine` | src/auth.rs:97-142 | A user is in the database exactly when some line binds it. |
| `Userlist.LastBindingWins` | src/auth.rs:105-117 | Of several lines for a user the last one decides. |
| `UserLines.PlainBindsIff` | src/auth.rs:118-138 | A line binds a user to a password if and only if, trimmed, it is neither empty nor a comment and is a name without a colon, a colon and that password as it stands, the name trimmed being the user and not empty. |
| `UserLines.HashBindsIff` | src/auth.rs:608-634 | A line binds a user to a hash if and only if, trimmed, it is the directive, the name in hexadecimal of either case, a colon and that hash, and both the name and the hash are acceptable. |
| `UserLines.OtherMeanings` | src/auth.rs:97-142 | Exactly the empty lines and the comments that are no directive mean nothing; a line is bad for want of a colon exactly if it has none, for an empty name exactly if it begins with a colon, and as a directive exactly if it is one that binds nobody. |
| `UserLines.DatabaseIs` | src/auth.rs:97-142 | A text that loads gives a user a credential if and only if the last line that is an entry of that user, in the sense of the two laws above, says so. |
| `UserLines.PlainNamesIff` | src/auth.rs:118-138 | The names that can be written down in plain text are the trimmed ones without a colon that are not empty and do not begin a comment. |
| `UserLines.GeneratesIff` | src/auth.rs:668-702 | A line is generated exactly for names that are not empty, have no white space at the ends, no colon, line break or zero, and fit the 255 bytes of a field, with a password that fits. |
| `Userlist.KeptIs` | src/main.rs:1773-1781 | After a deletion exactly the lines that are not entries of the user are left. |
| `Userlist.ReplacedHas` | src/main.rs:1744-1753 | After a replacement the lines are those that were not entries of the user, and the new line if there was one. |
| `Userlist.UpsertUserlistEntry` | src/main.rs:1742-1765 | The editing loop: every entry of the user replaced, or the line appended, and whether there was one. |
| `Userlist.DeleteUserlistEntry` | src/main.rs:1771-1797 | The deleting loop: every entry of the user dropped, the text untouched if there is none, and whether there was one. |
| `Userlist.WrittenLinesParse` | src/main.rs:1757-1758 | Writing lines out and loading them again means what the lines meant. |
| `Userlist.UpsertIsMapUpdate` | src/main.rs:1719-1766 | The new text loads if and only if every bad line of the old one was an entry of this user; if the old text loaded, the new database is the old one with this user rebound, duplicates included. |
| `Userlist.DeleteIsMapRemoval` | src/main.rs:1768-1798 | What is left loads if and only if every bad line was an entry of this user; if the old text loaded, the new database is the old one without this user, and something was removed exactly when the user was there. |
| `Userlist.UserlistUsernames` | src/main.rs:1800-1815 | Lists exactly the users of the database in strictly ascending byte order; a text that does not load gives its problem instead. |
| `Blocks.EndIsUnique` | src/config.rs:1548-1587 | A rule block ends in one place only: at the brace that closes its first one, the last token of its line. |
| `Blocks.GatherBlock` | src/config.rs:1548-1587 | Returns the tokens up to that place and the line after it, and fails exactly when there is no such place: at a stray closing brace, at tokens behind the closing brace, or at the end of the text, as the error says. |
| `Includes.ExpandSettled` | src/config.rs:1896-1908 | Once it is known how the textual expansion ends, expanding deeper changes nothing. |
| `Includes.WalkIsExpand` | src/config.rs:585-631 | Where loading reports no cycle it does exactly what the expansion does, item by item, and ends as it ends. |
| `Includes.FindLasso` | src/config.rs:613-622 | Behind every reported cycle there is a chain of includes from the entry file back to one of its own files. |
| `Includes.LoopIsNeverDecided` | src/config.rs:613-622 | From such a chain the expansion never gets out, at any depth. |
| `Includes.LoadingIsExpansion` | src/config.rs:585-676 | Loading ends in a cycle if and only if the expansion goes on at every depth; otherwise it equals the expansion, for which a depth of one more than the number of readable files is enough. |
| `IncludeGraphs.CycleReportedExactly` | src/config.rs:607-631 | Among files without other errors, loading succeeds or reports a cycle, and reports one if and only if a cycle of the include graph can be reached from the entry file. |
| `IncludeGraphs.LoadsExactlyTheReachable` | src/config.rs:594-605 | A successful load has recorded exactly the files that can be reached from the entry file. |
| `ConfigLoader.ApplyKeepsOrder` | src/config.rs:594-605 | Rules end up in the order of the items, and every loaded file is recorded once. |
| `ConfigLoader.LastAssignmentWins` | src/config.rs:919-940 | A setting has the value last assigned to it, and the one it had before if there is no assignment. |
| `ConfigLines.ReadsStatementByStatement` | src/config.rs:633-676 | Reading a text is reading its statements in order: each setting assigned, each rule block added as one rule, each include followed where it stands with its files in order, and the first malformed statement ends the reading with its own problem. |
| `ConfigLines.EveryTextReads` | src/config.rs:633-676 | Every text is such a list of statements, up to a block that never ends. |
| `ConfigLoader.Loader.constructor` | src/config.rs:710-755 | A new loader has an empty stack and an empty configuration. |
| `ConfigLoader.Loader.ParseConfigFile` | src/config.rs:585-592 | Terminates, restores the stack on every exit, and does to the configuration what the walk of the laws above does. |
| `ConfigLoader.Loader.RecordLoaded` | src/config.rs:594-605 | Records a file once. |
| `ConfigLoader.Loader.ParseResolved` | src/config.rs:607-631 | Reports a file on the stack as a cycle; otherwise reads it with itself on the stack, and takes it off on success and on failure. |
| `ConfigLoader.Loader.ParseConfigText` | src/config.rs:633-676 | The line loop: blank lines, rule blocks, includes and settings in order, up to the first error. |
| `ConfigLoader.Loader.ParseInclude` | src/config.rs:1831-1911 | Loads the named files in order, up to the first error; rejects an include without a path, without a match, or outside a file. |
| `ConfigLoader.LoadBuilder` | src/config.rs:522-551 | Loading from scratch, told without the stack: the outcome, rules and files of the textual expansion in its order, every setting at the value last assigned in it; a cycle reported exactly when the expansion never ends; exactly the reachable files recorded, once each. |
| `Wildcard.MatchesConcat` | src/config.rs:1970-1998 | A concatenated pattern matches exactly the concatenations of what its parts match. |
| `Wildcard.MatchesWithoutStar` | src/config.rs:1970-1998 | Without a star a pattern matches exactly the texts of its length that agree with it wherever it has no question mark. |
| `Wildcard.CellStep` | src/config.rs:1981-1995 | The recurrence of the table, derived from the meaning of the two prefixes of each cell. |
| `Wildcard.WildcardMatch` | src/config.rs:1970-1998 | The bottom-up table gives the recursive meaning of `*` and `?`, for every pattern and text, case-folded on Windows. |
| `Peek.Take` | src/plugin.rs:473-481 | One read hands out at most what there is room for, loses nothing, and is empty only at the end of the stream. |
| `Peek.FillKeeps` | src/plugin.rs:465-488 | Filling moves bytes from the connection to the buffer, never beyond what is wanted, and answers with the full prefix. |
| `Peek.PeekKeeps` | src/plugin.rs:465-488 | A peek leaves what is still to be delivered unchanged, shows its prefix of the wanted length capped at the maximum and at what remains, and keeps the buffer within the maximum. |
| `Peek.PeekAnswers` | src/plugin.rs:465-488 | A peek answers with bytes if and only if what is buffered and what is ready before the first stall or failure reach the wanted length, capped at the maximum, or the stream ends first; otherwise it is pending for a stall and fails for a failure. |
| `Peek.ReadAnswers` | src/plugin.rs:491-516 | A read with room is pending or fails exactly when nothing is buffered and that is what comes up next; buffered bytes are handed out as far as there is room. |
| `Peek.ReadDelivers` | src/plugin.rs:491-516 | A read delivers the next bytes and reports the end only when nothing is left. |
| `Peek.PeekingIsInvisible` | src/plugin.rs:432-517 | For every interleaving of peeks and reads over any chunking, stalls and failures included, bytes delivered followed by what is left are the stream. |
| `Peek.PeekShowsNext` | src/plugin.rs:454-488 | After any history a peek shows the bytes right after those delivered. |
| `Peek.Peekable.constructor` | src/plugin.rs:441-447 | A new wrapper has everything of the stream still to deliver. |
| `Peek.Peekable.Peek` | src/plugin.rs:465-488 | The in-place peek loop, against the laws above: nothing is lost, the prefix is shown, and it answers exactly when it can. |
| `Peek.Peekable.PollRead` | src/plugin.rs:491-516 | The in-place read: buffered bytes first, then the connection. |

## Left out

- Sockets, the SOCKS5 handshake, relaying, TLS, the PROXY protocol, metrics, management and service
  code (`src/connection.rs`, `src/server.rs`, `src/socks5.rs`, `src/relay.rs` and others): orchestration
  of I/O whose claims are settled branch by branch.
- Floating-point rounding of tokens and waits, and the saturation of a wait at the longest duration:
  the arithmetic is exact.
- Poisoned mutexes: a lock section is one step that completes.
- The readers-writer lock around the limits is an exclusive lock in `Locks`, which can only add waits.
- A lock that is tried and not waited for succeeds or fails as the caller of the operation decides
  (`busyStates`, `busyBuckets`); no theorem relies on its success.
- `ClientPermit` carries the address it was granted to, which the program's permit does not; it is
  used only to state the invariant. Addresses of new buckets are parameters.
- Abuse.AbuseControls.UpdateConfig: is the reload without interference; interleavings with admissions
  are the subject of `Reloads`, and `Abuse` does not repeat them.
- Clients.LargestLimitNeverDenies: speaks of one window; the limits are 64-bit numbers as in the
  program, while the number of live connections is unbounded.
- Shaping over several buckets is one step in `ThrottleRuns`, while the program locks them one after the
  other. A call that others interleave with is covered as several one-bucket operations, whose bounds
  are the same because the call waits for the longest of their waits.
- The bucket a rule may add to a session (`src/connection.rs:1122-1137`) belongs to one connection alone;
  `Abuse.AbuseControls.Charge` is about the shared one.
- The pool of lookup slots in front of the system resolver, address ordering and filtering after
  resolution (`apply_policy`), and the text of error messages.
- DnsFlights.StepKeeps: the value of a channel without receivers is kept although the program's channel
  drops it; nobody can observe the difference.
- Fairness: `LeadersRelease` and `FollowersReturn` say what happens once a caller has taken its own
  steps, not that the scheduler lets it.
- Argon2 itself: whether a PHC string is acceptable is a parameter, and a generated hash is any
  acceptable text without white space.
- File locking, permissions, backups and atomic replacement around the userlist: the file is a string.
- How a configuration line is split into words and what a rule or a setting means: a line of `Includes`
  carries the kind of its first word, its tokens and the outcome of its setting; `parseRule` is a parameter.
- ConfigLoader.Loader.ParseConfigText: takes the classification of a line and the parsing of a setting as
  given in the line.
- ConfigLoader.Loader.RecordLoaded: keeps the canonical files; the list of declared and canonical path
  pairs, which serves diagnostics, is not kept.
- ConfigLoader.Loader.ParseInclude: the files a pattern names are part of the line, because the file
  system does not change while a configuration is loaded; the list of loaded patterns is not kept.
- Rules of scope `client`, and the parsers of networks, port ranges and host patterns.
- The write half of the peek wrapper, and plugin hooks other than peeking.
