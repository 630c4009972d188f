# A verified model of fastresolver's scheduling and caching

fastresolver is a Go library of composable DNS resolvers. This project models the parts of it that keep state or
decide who is asked, and proves what they promise:

- the **adaptive pool** (`AdaptiveRate`, `AdaptiveUpstreams`, `AdaptivePool`, `AdaptiveMachine`,
  `AdaptiveHistory`, `AdaptiveAlone`): learning each upstream's
  rate by additive increase and multiplicative decrease, pacing, cooldowns, and retries on distinct upstreams;
- the **cache** (`CacheTtl`, `CacheStore`, `CacheAliasing`, `CacheHistory`, `CacheFlight`, `CacheDelivery`,
  `CacheAlone`): the TTL policy, the store of mutable messages with its deep copies, and the caching resolver that lets
  one flight fetch for all callers;
- the **circuit breaker** (`Breaker`, `BreakerMachine`, `BreakerAlone`);
- the **balancers and retries** (`Balance`, `Retry`), **racing lookups** (`Racing`), **CNAME following** (`Cname`) and
  **delegation** (`Recursive`).

`Lookups` and `Dns` hold what they share: results (an optional response beside an optional error) and replies as
values. `Cyclic` is arithmetic of positions on a circle.

Where the original updates objects in place there are classes and methods, each tied by its postconditions to a
function on values. Where goroutines interleave there is a state machine whose steps are the atomic accesses of the
code (one critical section, one compare-and-swap, one channel operation, one reading of the clock); a theorem about it
speaks of every run `run` that is `Possible`, of any length and with any number of callers. Times are nanoseconds,
clocks and answers of resolvers are arbitrary inputs, and rates are real numbers.

Four properties that the code's comments or its shape suggest do not hold as they stand. Each is kept here as the code
has it, with a counterexample and the exact condition:

- the half-open breaker does not admit a single probe (circuit_breaker.go:63, circuit_breaker.go:137): `TwoProbes`, and
  `SingleProbeExactly`, one probe at a time exactly in the runs where no lookup arrives while the breaker is half open;
- the random balancer does not visit every member (balance.go:80): `ThreeMissesOne`, and `RandomFindsExactly`, sure to
  find an available member exactly when the number of members is a power of two;
- the comment on unwrap.go:8 promises the innermost breaker: `OutermostDecides` wraps any accepting one so that the
  balancer passes it over, and `InnermostExactly`, the breaker found is the innermost exactly in a chain with at most one;
- a stored reply can be fetched again within its lifetime although nothing evicted it (cache.go:82-89): reading an
  expired entry and removing it are two steps, and a reply stored in between is removed in its place. `FetchedTwice` is
  such a run, and `OneFetchPerLifetime` says exactly when it cannot happen.

The TTL rules in specs/001-native-dns-response/data-model.md:80-85 are not those of cache.go, which the model follows:
`ExtraCounts` and `NoDefaultNoFloorAgeing` give an input for each.

A machine and the serial specification beside it are tied by `AdaptiveAlone.AloneIsSerial`, `BreakerAlone.AloneIsSerial`
and `CacheAlone.AloneIsGet`: what nobody disturbs goes through the machine as the specification says. The functions that
both are written in are tied to plain statements in turn: the fields of an upstream to the history
(`StateIsHistory`, `RateAfterFailures`, `RateAfterSuccesses`), a served message to the stored one field by field
(`AgedIsServed`), the lifetime to the records of the reply (`RefusedNeverStored`, `NegativeStored`, `PositiveStored`,
`FailureStored`, `BoundsClamp`), a followed chain to its replies (`AnswersAreFinal`, `OthersAreFollowed`).

## Model

| member | source | states |
|---|---|---|
| Lookups.Normalize | lookup.go:147-152 | an error-free result always has a response; any other result passes unchanged |
| AdaptiveRate.Validate | adaptive.go:233-260 | no complaint exactly for finite settings that are a policy under which the rate laws hold |
| AdaptiveRate.FirstComplaint | adaptive.go:233-260 | of all the complaints that settings deserve, NaN and infinities included, the one made is the first in the order of the checks |
| AdaptiveRate.IntervalAntitone | adaptive.go:357-361 | a faster upstream is never paced more slowly |
| AdaptiveRate.IntervalMeaning | adaptive.go:357-361 | dispatches one interval apart fit the rate unless the interval is the least one, and a nanosecond more would be slower than the rate |
| AdaptiveRate.SuccessesGrowSquare | adaptive.go:319-328 | after n successes the rate is the ceiling or its square has grown by 2·n·increase |
| AdaptiveRate.CeilingReached | adaptive.go:319-328 | the ceiling is reached after (max² − rate²)/(2·increase) successes, and kept |
| AdaptiveRate.CeilingWithin | adaptive.go:319-328 | so ceil((max² − rate²)/(2·increase)) successes reach the ceiling |
| AdaptiveRate.SecondOfSuccesses | adaptive.go:319-328 | one second's worth of successes raises the rate by at most the configured increase, as adaptive.go:29 documents |
| AdaptiveRate.FailuresAreGeometric | adaptive.go:330-339 | n failures give exactly max(min, rate·factorⁿ) |
| AdaptiveRate.FloorReached | adaptive.go:330-339 | n failures reach the floor once (factor + n·(1 − factor))·min is at least rate·factor |
| AdaptiveRate.FloorWithin | adaptive.go:330-339 | so ceil(rate·factor / (min·(1 − factor))) failures reach the floor |
| AdaptiveUpstreams.ScanIsArgmin | adaptive.go:268-296 | the scan selects nobody exactly if nobody is eligible, else the least in (requests in flight, position in the scan) |
| AdaptiveUpstreams.ScanFindsEarliest | adaptive.go:286-302 | with nobody eligible the scan names the first moment one of the others is free |
| AdaptiveUpstreams.Upstream.constructor | adaptive.go:142-150 | a new upstream has the initial rate, no waits and no counts |
| AdaptiveUpstreams.Upstream.Reserve | adaptive.go:304-308 | the whole new state: next slot one interval after the scan's time, one more in flight |
| AdaptiveUpstreams.Upstream.Release | adaptive.go:312-317 | only the in-flight count changes |
| AdaptiveUpstreams.Upstream.ObserveSuccess | adaptive.go:319-328 | field by field the whole new state after a success: the rate plus increase / rate but at most the maximum |
| AdaptiveUpstreams.Upstream.ObserveFailure | adaptive.go:330-339 | field by field the whole new state after a failure: the rate times the factor but at least the minimum, and cooled down one cooldown from now |
| AdaptivePool.RetriedExactly | adaptive.go:341-355 | a response without an error is tried elsewhere exactly for REFUSED and SERVFAIL, an error always |
| AdaptivePool.TrialsLeave | adaptive.go:304-339 | each upstream of a lookup's trail is left, in every field, as a success, a failure or a release of one claim leaves it |
| AdaptivePool.Pool.constructor | adaptive.go:136-151 | attempts never exceed the number of upstreams, which are separate objects |
| AdaptivePool.Pool.New | adaptive.go:118-152 | the options applied in order to the defaults; a usable pool with the attempts clamped, or the first of: no resolvers, the first nil option, the complaint about the policy, the first nil resolver |
| AdaptivePool.Environment.Sleep | adaptive.go:363-374 | a wait ends after its time, or earlier only with the context's error |
| AdaptivePool.Pool.ScanUpstreams | adaptive.go:267-296 | the scan loop computes the argmin's specification on the upstreams as they stand |
| AdaptivePool.Pool.ReserveUpstream | adaptive.go:262-310 | claims the least loaded free upstream that is not excluded and changes nothing else, or returns a wait after which the first of the busy ones is free |
| AdaptivePool.Pool.ClaimOrWait | adaptive.go:168-174 | one turn of the loop either holds a slot of an upstream not yet asked, or nobody was free, nothing changed, and after a wait that was not cut short somebody is |
| AdaptivePool.Pool.WaitLeadsToSlot | adaptive.go:297-302 | a caller that is alone finds an upstream free after one wait |
| AdaptivePool.Pool.CallUpstream | adaptive.go:177-194 | the feedback given for each outcome: a deadline counts as failure, a cancellation only releases, and both outrank the answer |
| AdaptivePool.Pool.Lookup | adaptive.go:154-201 | distinct upstreams, each left as its one attempt leaves it and no other touched, with claims and feedback in order within the call's time; the result and last feedback for success, cancellation, deadline and exhaustion; exactly maxAttempts joined errors; at most one wait for each attempt |
| AdaptiveMachine.SelectionIsLeast | adaptive.go:268-303 | in every interleaving a complete scan selects an upstream not yet asked, the least loaded of those read as free |
| AdaptiveMachine.SomebodyToWaitFor | adaptive.go:297-300 | the branch without anybody to wait for cannot be reached from a lookup |
| AdaptiveMachine.CommitTimely | adaptive.go:297-308 | at the commit the slot is still free at the scan's time and the load no higher than read, whatever landed in between |
| AdaptiveMachine.ReadsKept | adaptive.go:277-284 | feedback from other callers never invalidates what a scan in progress relies on |
| AdaptiveMachine.InvKept | adaptive.go:154-339 | every step of every caller keeps the pool's invariant |
| AdaptiveMachine.Reachable | adaptive.go:154-339 | the invariant holds in every state of every run |
| AdaptiveMachine.Pacing | adaptive.go:304-306 | two reservations of one upstream are apart by the interval of its rate at the earlier one, hence by that of the ceiling |
| AdaptiveMachine.WindowBound | adaptive.go:262-310 | in any window of length w an upstream is reserved at most floor(w / interval of the ceiling) + 1 times |
| AdaptiveMachine.CompleteScanWalks | adaptive.go:272-276 | a complete scan read every upstream once in cyclic order, and skipped exactly those this lookup had asked |
| AdaptiveMachine.Selection | adaptive.go:262-310 | every reservation is an argmin over one such walk of all upstreams, goes to none asked before, and keeps the cooldown of every failure that landed before the read |
| AdaptiveMachine.Conservation | adaptive.go:304-339 | reservations = in flight + successes + failures + releases for each upstream; in flight are exactly the calls running; the rate is inside its bounds |
| AdaptiveMachine.QuietIsIdle | adaptive.go:155-201 | once every lookup has returned nothing is in flight and the selection lock is free |
| AdaptiveHistory.StateIsHistory | adaptive.go:304-339 | in every run each upstream's rate, slot, cooldown, counts and load are exactly what its reservations and feedback say |
| AdaptiveHistory.ReadsAreHistory | adaptive.go:267-284 | in every run reservations take tickets in turn, walk from the upstream the ticket names, and each read has the load and the later of slot and cooldown at its moment |
| AdaptiveHistory.RateAfterFailures | adaptive.go:330-339 | between two reservations of an upstream without a success, k failures: the rate is max(min, rate·factorᵏ) |
| AdaptiveHistory.RateAfterSuccesses | adaptive.go:319-328 | without a failure, k successes: the maximum or the square grown by 2·k·increase, and by no more than k·increase / rate |
| AdaptiveHistory.RateUnchanged | adaptive.go:312-317 | without an outcome, whatever was released, the rate is the same |
| AdaptiveHistory.Endings | adaptive.go:164-200 | in every run a lookup is answered exactly if its last call succeeded, all-failed exactly if maxAttempts calls each failed by their answer, and otherwise ends with the context |
| AdaptiveHistory.ContextFeedback | adaptive.go:179-186 | a deadline counts as a failure with its cooldown, a cancellation only releases |
| AdaptiveAlone.AloneIsSerial | adaptive.go:154-201 | undisturbed, a lookup of the machine does to the upstreams, and ends, as the serial one |
| AdaptiveMachine.Attempts | adaptive.go:164-200 | at every loop head as many upstreams are excluded as attempts were made, fewer than the maximum; none is asked twice; an all-failed lookup has exactly maxAttempts errors |
| CacheTtl.LeastSoaMeaning | cache.go:155-174 | the SOA lifetime is the least of min(TTL, MINIMUM) over all SOA records, by section 5 of RFC 2308 |
| CacheTtl.NegativeResponseTTL | cache.go:154-174 | the loop computes that least value, and refuses when an NS record or no SOA record is there |
| CacheTtl.NegativeExactly | cache.go:154-174 | a negative lifetime exists exactly when there is a SOA and no NS record, and then is the least SOA allowance |
| CacheTtl.LeastTTLMeaning | cache.go:176-191 | the positive lifetime is the least TTL of all records but OPT |
| CacheTtl.MinimumResponseTTL | cache.go:176-191 | the loops over three sections compute it, with zero for none or only the largest TTL |
| CacheTtl.HasAddressAnswer | cache.go:193-208 | found exactly if the answer has a record of the address type asked for |
| CacheTtl.ComputeCacheTTL | cache.go:118-152 | the policy's method computes its specification, for every response code |
| CacheTtl.LifetimeBounds | cache.go:97-119 | every stored lifetime is positive, at most MaxTTL, at least MinTTL unless SERVFAIL, and at most 30 seconds for SERVFAIL even after the overrides |
| CacheTtl.LifetimeOrderFree | cache.go:97-219 | the lifetime is the same for any order of the records in each section |
| CacheTtl.RefusedNeverStored | cache.go:119-152 | never stored: truncated, not one question, other response codes, a no-such-name reply that is not negative by section 5 of RFC 2308, or a positive one without the address asked for |
| CacheTtl.NegativeStored | cache.go:126-139 | a negative reply is stored exactly if its least SOA allowance is positive, for that many seconds |
| CacheTtl.PositiveStored | cache.go:131-136 | any other NOERROR reply lives the least TTL of its records but OPT, and is not stored when that is zero, the largest or missing |
| CacheTtl.FailureStored | cache.go:140-148 | a SERVFAIL lives its least TTL, else the default, at most 30 seconds |
| CacheTtl.BoundsClamp | cache.go:105-108 | the bounds store the same replies, each for its lifetime brought within them |
| CacheTtl.AgedIsServed | cache.go:221-239 | ageing keeps head, sections, owners, types, bodies and OPT records, and sets every other TTL to the seconds left, rounded up and capped |
| CacheTtl.DurationCeiling | cache.go:221-228 | served TTLs are the remaining time rounded up to seconds, at least one and capped at 2³² − 1 |
| CacheTtl.HitsDiffer | cache.go:221-228 | two hits of one entry differ by the elapsed seconds rounded down or up |
| CacheTtl.NeverServedLonger | cache.go:80-94 | a NOERROR reply stored for its least TTL is never served with a TTL above any record's own |
| CacheTtl.ExtraCounts | cache.go:176-191 | the additional section takes part in the minimum, unlike specs/001-native-dns-response/data-model.md:82 |
| CacheTtl.NoDefaultNoFloorAgeing | cache.go:125-136 | a zero TTL is not cached whatever the default, a short one is not raised to a minute, and a hit carries less, unlike specs/001-native-dns-response/data-model.md:83-85 |
| CacheStore.Message.Copy | cache.go:91 | a copy made of new records, all different, with the same contents |
| CacheStore.Message.SetTTL | cache.go:230-239 | writes the TTL of every record but OPT in place, also where sections share records |
| CacheStore.SetSectionTTL | cache.go:233-237 | the inner loop, for sections in which a record occurs more than once |
| CacheStore.ComputeLifetime | cache.go:101-108 | cacheability, overrides and the SERVFAIL clamp together are the lifetime's specification |
| CacheStore.LRU.New | cache.go:65-77 | a cache exactly for non-negative, consistent TTL options and a positive size |
| CacheStore.LRU.Get | cache.go:79-94 | a hit exactly while the entry lives, on a message nobody else holds that is field by field the stored one with the seconds left; an expired entry is removed, and nothing else changes |
| CacheStore.LRU.Set | cache.go:96-113 | stores the value the message has now in objects of the cache's own; an uncacheable message leaves the older entry; only a new key in a full cache costs another entry |
| CacheStore.PutMeans | cache.go:109-112 | after a storable Set the reply is found under its key for its lifetime, and at most one other entry is lost, only to a new key in a full cache |
| CacheStore.LRU.Add | cache.go:109-112 | the store's insertion keeps the bound, the other entries and the ownership |
| CacheAliasing.NewMessageApart | cache.go:91-93 | a new message and the older ones never see each other's writes |
| CacheAliasing.Callers.Write | specs/001-native-dns-response/data-model.md:75-78 | a caller overwriting a record changes it in every message that shares it, and nothing else |
| CacheAliasing.PerformGet | cache.go:79-94 | a Get on the objects is the Get of the simple form, and keeps cache and callers apart |
| CacheAliasing.PerformSet | cache.go:96-113 | likewise a Set, with the evictions a bounded store may make |
| CacheAliasing.PerformDeliver | cache.go:275-280 | a waiting caller gets a copy of the shared result, apart from everybody else's |
| CacheAliasing.Perform | cache.go:79-113 | every operation or caller mutation on the objects is one step of the simple form |
| CacheAliasing.Drive | cache.go:79-113 | over any program of Sets, Gets and arbitrary mutation of every message passed in or handed out, the log of answers is that of a timed map of values |
| CacheHistory.AnswersAreStored | cache.go:79-113 | every answer is that of the last storable reply for its key, unless evicted or expired |
| CacheHistory.HitExactly | cache.go:79-113 | a Get hits exactly when a reply stored before stands for its key (no later storable reply, no eviction) and has not expired |
| CacheHistory.HitContents | cache.go:86-93 | the hit is the message as it was when stored, with only the TTLs of records other than OPT replaced by the remaining seconds |
| CacheHistory.HitFields | cache.go:86-93 | the same field by field: head, sections, owners, types, bodies and OPT records as stored, every other TTL the seconds left, rounded up and capped |
| CacheHistory.HitsFall | cache.go:86-93 | two hits of one entry differ only in TTLs, each below the cap by the elapsed seconds rounded down or up |
| CacheHistory.EvictionOnlyMisses | cache.go:82-113 | eviction and expiry only turn hits of an unbounded store into misses |
| CacheHistory.HitsNeverLonger | cache.go:79-113 | over any run without MinTTL, no record of a hit on a NOERROR reply stored for its least TTL has a TTL above its own |
| CacheFlight.FlightKeyInjective | cache.go:259 | two different questions never share a flight |
| CacheFlight.OrderlyKept | cache.go:260-271 | every step keeps flights under their own key and fetches of one question alternating with their answers |
| CacheFlight.OneFetchAtATime | cache.go:259-271 | in every run, between two fetches for one question the first has been answered |
| CacheFlight.AddedWereAnswered | cache.go:264-268 | in every run whatever is stored was answered before to the flight that stores it, without an error, and lives as long as the policy says |
| CacheFlight.HitsWereAdded | cache.go:255-263 | in every run a hit of either Get serves an entry stored before under the same key, within its lifetime |
| CacheDelivery.HandingKept | cache.go:254-281 | every step keeps each flight's one result, and each caller with its own flight's |
| CacheDelivery.DeliveredComesFrom | cache.go:254-281 | in every run what a lookup returns is, under the same key, its own hit, or the answer or the hit of the flight it joined |
| CacheDelivery.OneResultPerFlight | cache.go:260-280 | all callers of one flight are handed the same result |
| CacheFlight.GuardKept | cache.go:79-113 | every step but an eviction keeps an unexpired entry that no slower Get is about to remove |
| CacheFlight.OneFetchPerLifetime | cache.go:254-271 | after a storable Set no run without eviction starts a fetch of that key before the entry expires, exactly if no caller is at that moment still at work on an older, shorter-lived entry |
| CacheAlone.AloneIsGet | cache.go:79-94 | reading the store, reading the clock and removing are, undisturbed, one Get of the store at one moment between |
| CacheFlight.StaleReaderHappens | cache.go:82-89 | a reachable state in which that condition fails |
| CacheFlight.FetchedTwice | cache.go:82-89 | a run that fetches again within the lifetime of a stored reply that nothing evicted |
| Breaker.Metrics.Lookup | circuit_breaker.go:31-40 | passes the normalized answer on, and exactly one of the two counters grows, by one |
| Breaker.CircuitBreaker.constructor | circuit_breaker.go:86-94 | a new breaker is closed with no counts |
| Breaker.CircuitBreaker.CompareAndSwap | circuit_breaker.go:101-110 | swaps exactly from the expected state, and only then stamps the time |
| Breaker.CircuitBreaker.ChangeState | circuit_breaker.go:112-124 | the whole new state; closing, and only closing, forgets the counts |
| Breaker.CircuitBreaker.Lookup | circuit_breaker.go:126-180 | the resolver is asked exactly if the breaker lets through, its normalized answer is then the result, and the new state is that of the serial specification |
| Breaker.CircuitBreaker.Accept | circuit_breaker.go:182-197 | yes exactly when a lookup at this moment would reach the resolver |
| Breaker.OpensOnStreak | circuit_breaker.go:156-177 | a breaker that has just closed lets everything through until exactly the max(threshold, 1)-th consecutive failure, which opens it |
| Breaker.OpenedByStreak | circuit_breaker.go:156-177 | it opens only through such a streak |
| Breaker.SerialRefines | circuit_breaker.go:126-180 | over any serial history the breaker is the documented two-phase machine, and never half open between lookups |
| Breaker.ProbesBound | circuit_breaker.go:131-162 | while it rests, failing probes are a cooling time apart |
| Breaker.FailingBound | circuit_breaker.go:126-180 | an always failing resolver gets at most max(threshold, 1) + floor(w / cooling) calls |
| BreakerMachine.NeverOrphaned | circuit_breaker.go:101-180 | in every interleaving half open has a pending winner; only the four edges occur; nobody asks with an open view |
| BreakerMachine.ProbeEndsHalfOpen | circuit_breaker.go:156-177 | a probe goes nowhere but to its settling, after which the breaker is not half open |
| BreakerMachine.QuietIsSettled | circuit_breaker.go:126-180 | with every lookup returned the breaker is closed or open |
| BreakerMachine.SingleProbeExactly | circuit_breaker.go:136-153 | one probe at a time exactly in the runs where no lookup arrives while half open |
| BreakerMachine.TwoProbes | circuit_breaker.go:126-156 | a run after which two lookups are both asking the resolver as probes |
| BreakerAlone.AloneIsSerial | circuit_breaker.go:126-180 | from any state, a lookup that runs undisturbed makes exactly visits, and calls, of the serial specification |
| Balance.FindBreaker | unwrap.go:10-22 | the first breaker met from the outside, or none |
| Balance.InnermostExactly | unwrap.go:8-22 | for every chain, the breaker found is the innermost one exactly if there are not two |
| Balance.OutermostDecides | unwrap.go:8-22 | a refusing breaker around any resolver whose innermost one accepts: the two differ, and the balancer passes the member over |
| Balance.RoundRobinBalancer.Choose | balance.go:47-65 | the first available member of the linear walk from the ticket, else the last position; one ticket drawn |
| Balance.RandomBalancer.Choose | balance.go:73-90 | the same for the walk with steps 0, 1, 2, … from the random start |
| Balance.StopsOnce | balance.go:54-64 | the walk determines the choice |
| Balance.RoundRobinFinds | balance.go:47-65 | finds an available member whenever there is one, and the ticket's own when that is available |
| Balance.RoundRobinOrder | balance.go:53-64 | the choice is the first available of (ticket + k) mod n for k = 0, 1, 2, …, else the last of them |
| Balance.RandomOrder | balance.go:78-89 | the random choice is the first available of (start + k(k+1)/2) mod n, else the last of them |
| Balance.TrianglePositionIs | balance.go:78-80 | the random balancer's positions are start + i(i+1)/2 modulo n |
| Balance.TriangleDistinct | balance.go:79-80 | for a power of two the walk never meets a position twice |
| Balance.MissedResidue | balance.go:79-80 | modulo an odd number above one the triangular numbers miss a residue |
| Balance.RandomFindsExactly | balance.go:73-90 | sure to find an available member, for every start, exactly when the size is a power of two |
| Balance.ThreeMissesOne | balance.go:79-80 | with three members the walk from 0 meets 0 and 1 only |
| Balance.TicketsFair | balance.go:53 | of any m successive tickets every member gets floor(m/n) or ceil(m/n) |
| Balance.ChoicesFair | balance.go:47-65 | while every member is available, any m successive choices take each of them floor(m/n) or ceil(m/n) times |
| Retry.RetryLookup | retry.go:24-35 | the first success, or the context's error beside the last response, or the last failure, each answer normalized; at most the given number of calls |
| Retry.RetriedExactly | retry.go:24-35 | how many attempts are made, and that response and error are those of the last one unless the error is the context's |
| Retry.LoadBalanceResolver.Lookup | balance.go:27-37 | asks the member the balancer's ticket names; an empty pool is an error and costs no ticket |
| Retry.RetryResolver.Lookup | retry.go:23-35 | retrying over a round-robin pool: each attempt asks the member of its own ticket |
| Retry.HealthyMemberFound | retry.go:24-35 | n attempts over n members succeed if some member is always available and answers |
| Retry.EachAskedOnce | retry.go:24-35 | with no breakers and all failing, n attempts ask each of n members exactly once |
| Racing.SendersNeverBlock | concurrency.go:33-39 | in every interleaving the channel has room for every sender that is ready, also after the collector returned |
| Racing.CollectorNeverStuck | concurrency.go:43-57 | once every sender has sent, the collector can take a result or is complete |
| Racing.RaceResult | concurrency.go:41-58 | a success is one sender's error-free result; otherwise, of the n senders raced, all n errors in order of arrival with the earliest failed response, or the context's error |
| Racing.OutcomeExactly | concurrency.go:23-59 | every ending one by one, with the first response among the failures taken and all their errors in order |
| Racing.ErrorsAll | concurrency.go:52-58 | an all-failed race joins exactly one error for each result |
| Racing.FirstResponseIsEarliest | concurrency.go:53-55 | the failed response kept is that of the earliest result that has one |
| Cname.ScanAnswer | cname.go:36-45 | the loop finds the first CNAME and whether the wanted type is there |
| Cname.FirstTargetMeaning | cname.go:42-44 | the target is that of the first CNAME record, if any |
| Cname.FollowCnameResolver.LookupAt | cname.go:27-53 | from any depth the result and the number of lookups are those of the rest of the chain |
| Cname.FollowCnameResolver.Lookup | cname.go:22-53 | a chain that stops after k ≤ 16 hops gives that response after k + 1 lookups; any other gives the depth error after 17 |
| Cname.AnswersAreFinal | cname.go:28-48 | an error, a record of the type asked for, no CNAME, or a type other than A, PTR and AAAA: the reply is the result, after one lookup |
| Cname.OthersAreFollowed | cname.go:36-53 | otherwise the result is that for the target of the first CNAME, one lookup later, or the depth error with none left |
| Cname.StopsOrRuns | cname.go:27-53 | one of the two cases always applies |
| Cname.CycleExceedsDepth | cname.go:10-53 | a chain that returns to a name it has passed ends in the depth error |
| Recursive.Append | recursive.go:71 | appending extends the slice, in place when the backing array has room |
| Recursive.Clone | recursive.go:82 | the copy shares nothing with the root servers |
| Recursive.KeptInOrder | recursive.go:119-145 | the scans for A and NS records, and for servers a resolver can be built for, keep all of them in their order |
| Recursive.CandidatesAre | recursive.go:64-80 | a name server stands for all addresses its lookup answers, in order, or for itself |
| Recursive.CandidatesAdd | recursive.go:64-80 | each name server contributes its own, in order |
| Recursive.RootsStandIn | recursive.go:81-83 | the root servers are used exactly when no candidate of the zone can be built |
| Recursive.TerminalExactly | recursive.go:147-170 | a negative answer is NXDOMAIN, or an empty answer to other than a SOA question with a SOA record whose owner is a proper suffix of the name |
| Recursive.JudgedExactly | recursive.go:92-115 | when a round ends in an error, a final response, a dead end or a referral, and to whom |
| Recursive.CollectServers | recursive.go:63-83 | the zone's servers by address or name in order, or a copy of the root servers |
| Recursive.Refer | recursive.go:105-114 | the slice refilled from its start holds exactly the servers of the referral, unless that is the zone itself |
| Recursive.Delegate | recursive.go:85-117 | the loop's rounds form a chain of referrals, and the result and cache writes follow from it |
| Recursive.RecursiveLookup | recursive.go:53-117 | cache hit, unknown zone or delegation; the root servers are never changed |
| Recursive.DepthErrorExactly | recursive.go:86-116 | the function's depth error exactly after 16 rounds that all ended in referrals |
| Recursive.WritesAreFinal | recursive.go:96-99 | the cache is written exactly when the response returned is authoritative or a terminal negative, and with that response |
| Recursive.LookupsBounded | recursive.go:86-94 | at most 16 rounds, none with more upstream lookups than it has servers |

## Left out

- Transports (UDP, TCP, DoH, JSON) and DNS wire parsing: an upstream is an arbitrary response beside an arbitrary error.
- ratelimit.go, timeout.go, builder.go, default.go, internal.go and error.go: wrappers, wiring and single branches.
- golang-lru, singleflight, zonedb, publicsuffix and `dns.Fqdn` are not part of this model: the first is a bounded map, the second at most one running function for each key, the others functions given from outside.
- CacheStore.LRU.Set: which entry a full cache evicts is left open, because the recency order belongs to golang-lru.
- CacheStore.Message.Copy: sections are values of a message, so the backing arrays that Go slices of records may share are not modelled; records reached through pointers are.
- CacheStore.LRU.Get: one call at a time; its separate readings of the store and the clock interleave in CacheFlight, where entries are values.
- CacheTtl.ComputeCacheTTL: durations are unbounded integers, so the overflow of `time.Duration` for lifetimes near the int64 limit is not modelled.
- AdaptiveRate.Validate: rates are real numbers once validated, so rounding of float64 is not modelled.
- AdaptivePool.Pool.New: an option is a function on settings, so one that keeps or shares the pointer it is given is not modelled.
- AdaptivePool.Pool.ReserveUpstream: the cursor is unbounded, so its wrap-around past 2⁶³ is not modelled; the round-robin ticket likewise.
- AdaptiveMachine.Selection: a failure that lands after the scan read its upstream is not waited for, as in the code.
- AdaptiveMachine.Conservation: assumes that upstreams return, since the code has no deferred release.
- Fairness among waiting callers of the pool: adaptive.go:170-173 retries without a queue, so none is promised.
- Breaker.CircuitBreaker.Lookup: one lookup at a time; the time stamp is written after the state, so bounds on cooling times are claimed for serial histories only, and the interleavings are in BreakerMachine.
- Recursive.RecursiveLookup: the recursive cache, the internal resolver and the random draws are inputs; a server's resolver is its name.
- Balance.InnermostExactly: a chain is a finite value, so a resolver that unwraps to itself is not modelled; no breaker of the repository unwraps, so chains with two arise only from a caller's own resolvers.
- Retry.LoadBalanceResolver.Lookup: with the round-robin balancer only; with the random one it is part of Recursive.Delegate.
- CacheDelivery.DeliveredComesFrom: a lookup whose context ends first returns the context's error, which is not logged.
- Retry.RetryLookup: the resolver retried is given by its answer to each attempt, so one with state of its own appears as Retry.RetryResolver.Lookup.
