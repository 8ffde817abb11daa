# Heeler in Dafny

Heeler is a unicast NTP server, a subset of RFC 5905. This project models the parts of it in which
correctness is a matter of arithmetic, of long runs or of interleaving, and proves what they promise.

| file | what it holds |
|---|---|
| `Words`, `Addresses` | machine words with their casts and wrap-arounds; IP addresses |
| `TokenBucket`, `RateLimiter` | the token bucket and the two-layer limiter, as objects and as one-step specifications |
| `BucketOrder`, `LimiterOrder` | what out-of-order times cost: when the bound of burst + rate * length holds, for a bucket, the global layer and a client |
| `LimiterRuns`, `LimiterRates`, `LimiterEviction`, `LimiterHorizon` | whole runs of the limiter: Kiss-o'-Death cadence, table bound, rate bounds for times in any order, eviction against an ideal limiter, and exactly when it is invisible |
| `Timestamp`, `Packet`, `Response`, `ClientQuery` | 2^-32 s fractions and eras, the wire format, requests and replies, the measurement of the diagnostic client |
| `Clock`, `Access` | jump detection and its latch; longest-prefix access control |
| `Calendar`, `Inspect` | the days-to-date formula against the Gregorian calendar; formatted instants; the hex decoder |
| `Server` | the datagram pipeline as a step machine: one program counter per receive loop, shared counters, limiter and clock |
| `Handling`, `Accounting`, `Ledger`, `Service` | progress of a loop; conservation of the counters; each counter against the datagrams it is meant to count; what every reply satisfies |
| `Provenance`, `Unlimited`, `Stopping` | where everything in a reply comes from; the server with rate limiting switched off; shutdown |
| `Timing`, `Disorder`, `Quotas`, `Verdicts` | how far out of order the limiter's times can be, and in which servers; what the server gives out in any window against what it was granted; the decisions that datagrams met with against the limiter's log |

Conventions. Times are unbounded integers in nanoseconds. Integer widths are written out where the
code depends on them: the cast of a refill to 64 bits, the saturating addition, the wrapping 32-bit
count of limited requests, the narrowing of a day count, two's complement on the wire, truncating
division in the client. The rate limiter and the clock source are classes that update their fields in
place; each method is tied to a function on values, and runs are sequences of those functions. In the
step machine every counter increment, clock read, limiter call and send is a step of its own, and the
environment chooses clock readings and socket results; readings of the monotonic clock never decrease
in the order in which they are taken, whoever takes them, but may be used in any other order. Relaxed
atomics are taken as sequentially consistent and the 64-bit metrics as unbounded; locks are never
poisoned.

Things the proofs show about the code that a reader might not expect:

- The module documentation of `timestamp.rs` puts the round-trip error of a fraction below 1 ns. The
  code loses exactly 1 ns for every sub-second count that is not a multiple of 5^9 ns
  (`FractionRoundTrip`), and keeps losing it on repeated trips (`RepeatedRoundTrips`).
- Eviction of idle clients is invisible, and clients stay within their rate, if and only if the entry
  lifetime is at least the time to refill an empty bucket (`TtlConditionIsExact`); only if, for limiters
  whose global layer is off or lets two bursts of a client pass that far apart. Configuration validation
  does not ask for that.
- A refill that exceeds 64 bits is cut off by the cast, so a client can be limited after a very long
  silence (`LostRefillIsObservable`); `HorizonConditionIsExact` says for runs of which length that
  cannot happen.
- Times are read before the lock is taken and can reach the limiter out of order: in some run, if and only
  if the server has at least two sockets and permits any source (`OrderExactly`). The bound of
  burst + rate * length on a window then fails. For a bucket, the global layer and a client it holds
  exactly for ordered times: steps back of a single nanosecond, repeated, break it at every rate
  (`OrderedBoundExactly`, `GlobalOrderExactly`, `ClientOrderExactly`). For a server whose global layer is
  on, with a rate below one request per nanosecond, it holds in all runs if and only if there is at most
  one socket, or nobody is permitted, or the global burst is zero (`ServerOrderExactly`).
- What holds in any order is burst + rate * (length + backward movement), and it is attained
  (`TakesBoundedInWindow`, `WindowBoundIsTight`). In the server the backward movement is at most the time
  for which readings were held before the lock was taken (`DisorderIsHeldTime`).
- For such times eviction stays invisible if and only if the entry lifetime exceeds the time to refill an
  empty bucket by as much as a time can lie behind the latest one (`SkewConditionIsExact`), with the same
  proviso on the only-if half.
- An access rule applies to no source at all if and only if it lies within ::ffff:0:0/96
  (`DeadRulesExactly`).

## Model

| member | source | states |
|---|---|---|
| `TokenBuckets.TokenBucket.constructor` | crates/heeler-server/src/rate_limit.rs:72-77 | a new bucket is full and was last refilled now |
| `TokenBuckets.TokenBucket.TryTake` | crates/heeler-server/src/rate_limit.rs:80-95 | the in-place update and its answer are those of the one-step specification |
| `TokenBuckets.TakeConserves` | crates/heeler-server/src/rate_limit.rs:80-95 | one take: what is left plus what is spent never exceeds content plus credit, nor the burst; truncation included |
| `TokenBuckets.TakesBoundedByForwardTime` | crates/heeler-server/src/rate_limit.rs:80-95 | for any sequence of times, even decreasing, takes plus final content stay within start content plus rate times the forward steps |
| `TokenBuckets.ForwardIsNetPlusBackward` | crates/heeler-server/src/rate_limit.rs:80-82 | the forward movement of any sequence of times is its net movement plus its backward movement |
| `TokenBuckets.TakesBoundedInWindow` | crates/heeler-server/src/rate_limit.rs:80-95 | in any window, from any state and for times in any order, at most burst + rate * (length + backward movement) takes |
| `TokenBuckets.WindowBoundIsTight` | crates/heeler-server/src/rate_limit.rs:80-95 | for every burst, every rate that divides 10^9 and every number of steps back, the window bound is attained exactly |
| `BucketOrder.DisorderBreaksBound` | crates/heeler-server/src/rate_limit.rs:80-95 | for every rate and burst, a window whose times step back by 1 ns at a time and in which more is taken than burst + rate * length |
| `BucketOrder.OrderedBoundExactly` | crates/heeler-server/src/rate_limit.rs:80-95 | burst + rate * length bounds all windows with times out of order by at most skew, from any state, if and only if skew = 0, or rate or burst is 0 |
| `TokenBuckets.SplitRefill` | crates/heeler-server/src/rate_limit.rs:83-88 | splitting an interval gains nothing and loses at most one micro-token |
| `TokenBuckets.PollingLosesUnderOneMicroTokenEach` | crates/heeler-server/src/rate_limit.rs:80-95 | an uncapped bucket polled n times keeps its exact credit up to less than n micro-tokens |
| `TokenBuckets.RefilledExactly` | crates/heeler-server/src/rate_limit.rs:83-88 | unless the cast cuts a filling refill below the burst, the refilled content is that of unbounded arithmetic |
| `TokenBuckets.SpacedTakeSucceeds` | crates/heeler-server/src/rate_limit.rs:80-95 | a take at least 10^9/rate ns after the last one succeeds, unless the cast loses just that refill |
| `RateLimiters.ClientEntry.constructor` | crates/heeler-server/src/rate_limit.rs:183-193 | a first request spends one token of a full burst |
| `RateLimiters.ClientEntry.RequestAgain` | crates/heeler-server/src/rate_limit.rs:151-165 | a later request updates bucket, time and count in place as specified |
| `RateLimiters.RateLimiter.constructor` | crates/heeler-server/src/rate_limit.rs:119-129 | an empty table, a full global bucket, the scan clock starting now |
| `RateLimiters.RateLimiter.PassGlobal` | crates/heeler-server/src/rate_limit.rs:141-149 | only the global bucket changes, as specified |
| `RateLimiters.RateLimiter.ServeTracked` | crates/heeler-server/src/rate_limit.rs:151-165 | only the client's own entry changes, as specified |
| `RateLimiters.RateLimiter.EvictIfFull` | crates/heeler-server/src/rate_limit.rs:170-177 | a full table is scanned at most once a second, keeping exactly the fresh entries |
| `RateLimiters.RateLimiter.Track` | crates/heeler-server/src/rate_limit.rs:183-195 | a new entry is added and every other entry kept |
| `RateLimiters.RateLimiter.AdmitNew` | crates/heeler-server/src/rate_limit.rs:167-196 | an unknown source is refused or tracked as specified |
| `RateLimiters.RateLimiter.CheckRequest` | crates/heeler-server/src/rate_limit.rs:132-196 | the whole check: new state and decision are those of the one-step specification |
| `RateLimiters.RateLimiter.SweepExpired` | crates/heeler-server/src/rate_limit.rs:200-207 | the entries seen less than the lifetime ago remain, untouched |
| `RateLimiters.RateLimiter.ActiveEntries` | crates/heeler-server/src/rate_limit.rs:211-213 | the number of tracked clients |
| `LimiterRuns.KodThrottle` | crates/heeler-server/src/rate_limit.rs:151-164 | over any run, for any times, across evictions and 32-bit wrap-around: 8 * flagged <= limited + 7 * allowed, for a client not tracked at the start |
| `LimiterRuns.KodCadence` | crates/heeler-server/src/rate_limit.rs:158-164 | a limited request is flagged exactly when a multiple of eight limited ones directly precede it |
| `LimiterRuns.KodsInStreak` | crates/heeler-server/src/rate_limit.rs:158-164 | a streak of n limited requests after an allowed one is flagged exactly ceil(n/8) times |
| `LimiterRuns.TableBounded` | crates/heeler-server/src/rate_limit.rs:167-196 | the table never exceeds its bound, in any run |
| `LimiterRuns.ScansAreSpaced` | crates/heeler-server/src/rate_limit.rs:170-177 | forced scans lie at least a second apart, for any times |
| `LimiterRuns.ForcedScansThrottled` | crates/heeler-server/src/rate_limit.rs:170-177 | at most one forced scan per second since creation |
| `LimiterRuns.TableFullExactly` | crates/heeler-server/src/rate_limit.rs:141-181 | TableFull if and only if the source is untracked, the table is full, and it may not be scanned yet or holds only fresh entries |
| `LimiterRuns.DecisionsExactly` | crates/heeler-server/src/rate_limit.rs:132-196 | for all settings, when each of the four decisions is given: a disabled limiter allows everything; otherwise the global bucket, then the bucket of a known client, then room in the table decide; and when a limited request is flagged |
| `LimiterRuns.StateExactly` | crates/heeler-server/src/rate_limit.rs:132-196 | for all settings, what a check leaves behind: global bucket, scan clock, the entry of the source, and every other entry |
| `LimiterRuns.SweepExactly` | crates/heeler-server/src/rate_limit.rs:200-207 | a sweep forgets exactly the clients silent for the lifetime and leaves all else alone |
| `LimiterRates.GlobalLayerIsOneBucket` | crates/heeler-server/src/rate_limit.rs:141-149 | the requests that pass the global layer are the takes of one bucket, whoever sends them |
| `LimiterRates.GlobalRateBound` | crates/heeler-server/src/rate_limit.rs:141-149 | in any window, from any state and for times in any order, at most globalBurst + globalRate * (length + backward movement) requests pass |
| `LimiterRates.GlobalRateBoundIsTight` | crates/heeler-server/src/rate_limit.rs:141-149 | for every rate that divides 10^9 and every number of steps back, one client attains the bound |
| `LimiterRates.GlobalRateBoundOrdered` | crates/heeler-server/src/rate_limit.rs:141-149 | for ordered times, at most globalBurst + globalRate * (end - start) |
| `LimiterOrder.GlobalOrderExactly` | crates/heeler-server/src/rate_limit.rs:141-149 | the global layer keeps globalBurst + globalRate * length with times out of order by at most skew if and only if skew = 0 or globalBurst = 0 |
| `LimiterRates.ClientRateBound` | crates/heeler-server/src/rate_limit.rs:132-207 | after any history and for times in any order, a client is allowed at most burst + rate * (length + backward movement) requests in a window, evictions included |
| `LimiterRates.ClientRateBoundOrdered` | crates/heeler-server/src/rate_limit.rs:132-207 | for ordered times, at most burst + rate * (end - start) in every window |
| `LimiterOrder.ClientOrderExactly` | crates/heeler-server/src/rate_limit.rs:132-207 | every client keeps burst + rate * length in every window after any history, with times out of order by at most skew, if and only if skew = 0 and ttl * rate >= burst |
| `LimiterRates.SpacedClientNeverLimited` | crates/heeler-server/src/rate_limit.rs:151-164 | in every run, of any length and order, a request spaced 10^9/rate ns from the client's previous one is allowed, unless the refill of just that interval is lost to the cast |
| `LimiterEviction.EvictionIsUnobservable` | crates/heeler-server/src/rate_limit.rs:132-207 | in every interleaving, of any length, with times out of order by at most the skew that the ttl covers and no refill lost to the cast, a client gets the verdicts, flags included, of an ideal limiter that never evicts and sees only its own requests |
| `LimiterEviction.ShortTtlIsObservable` | crates/heeler-server/src/rate_limit.rs:170-207 | whenever a client can be evicted, as far as the skew allows, before its bucket would be full again, a run that the ideal limiter would answer differently |
| `LimiterEviction.SkewConditionIsExact` | crates/heeler-server/src/server.rs:137-138 | eviction is unobservable in all runs out of order by at most skew if and only if (ttl - skew) * rate >= burst |
| `LimiterEviction.TtlConditionIsExact` | crates/heeler-server/src/rate_limit.rs:132-207 | all windows of all runs keep the rate, in any order, if and only if ttl * rate >= burst; for ordered times eviction is then unobservable, and only then |
| `LimiterHorizon.LostRefillIsObservable` | crates/heeler-server/src/rate_limit.rs:83-88 | every silence whose refill is cut off below the burst gives a run the ideal limiter would answer differently |
| `LimiterHorizon.HorizonConditionIsExact` | crates/heeler-server/src/rate_limit.rs:80-207 | all ordered runs up to a length are answered ideally if and only if no silence of up to that length loses its refill, and nobody can expire in it unless ttl * rate >= burst |
| `LimiterHorizon.NothingLostExactly` | crates/heeler-server/src/rate_limit.rs:83-88 | no silence up to a length loses its refill if the refill of that length fits 64 bits, and only if, unless the rate refills a burst within a nanosecond |
| `Calendar.YearOfEraIsExact` | crates/heeler-server/src/inspect.rs:149-153 | the nested divisions find the year in which a day of the 400-year era lies |
| `Calendar.CivilFollowsCalendar` | crates/heeler-server/src/inspect.rs:147-158 | day 0 is 1970-01-01, and for every integer day the next date is the Gregorian day after |
| `Calendar.CivilIsIncreasing` | crates/heeler-server/src/inspect.rs:147-158 | later days have later dates |
| `Calendar.CivilIsBijection` | crates/heeler-server/src/inspect.rs:147-158 | the formula is a bijection onto valid dates, with a days-from-date inverse on both sides |
| `Inspect.FormatInstantRecombines` | crates/heeler-server/src/inspect.rs:131-143 | the printed fields are a valid date and time, and give back the exact nanosecond count if and only if the shifted day count fits 64 bits; otherwise the date is the one a multiple of 2^64 days away that fits |
| `Inspect.DecodeDigits` | crates/heeler-server/src/inspect.rs:29-43 | parity error, first bad position and success are told apart exactly; on success the digits write the bytes, high digit first, in either case; no pair is read past its end |
| `Inspect.HexRoundTrip` | crates/heeler-server/src/inspect.rs:34-43 | a string decodes to given bytes if and only if it writes them in hexadecimal, each digit in either case |
| `Inspect.ByteLengthAdds` | crates/heeler-server/src/inspect.rs:29-31 | the length tested for parity is that of UTF-8: additive, and for each character the least number of bytes that can hold it |
| `Timestamps.FractionRoundTrip` | crates/heeler-core/src/timestamp.rs:118-132 | nanoseconds to fraction and back: exact on multiples of 5^9, exactly 1 ns less otherwise |
| `Timestamps.RepeatedRoundTrips` | crates/heeler-core/src/timestamp.rs:118-132 | k trips give max(n - k, the multiple of 5^9 below n) |
| `Timestamps.FractionRoundTripBack` | crates/heeler-core/src/timestamp.rs:118-132 | fraction to nanoseconds and back loses at most five units |
| `Timestamps.FractionIsIncreasing` | crates/heeler-core/src/timestamp.rs:118-124 | the fraction is strictly increasing in the nanoseconds |
| `Timestamps.UnfoldIsTheNearest` | crates/heeler-core/src/timestamp.rs:139-149 | unfold gives the one instant with these wire bits whose whole-second distance from the pivot is in (-2^31, 2^31] |
| `Timestamps.UnfoldInvertsEncode` | crates/heeler-core/src/timestamp.rs:139-241 | encode then unfold is exact up to the wire loss if and only if the instant is near the pivot, and whole eras off otherwise |
| `Timestamps.UnfoldFollowsEras` | crates/heeler-core/src/timestamp.rs:139-149 | moving the pivot by eras moves the result with it |
| `Timestamps.EncodingKeepsOrder` | crates/heeler-core/src/timestamp.rs:229-241 | within an era, later instants have later timestamps |
| `Packets.FlagsByteIsBitwise` | crates/heeler-core/src/packet.rs:518-519 | shift-and-or packing of the first byte is the arithmetic packing, and unpacks to its parts |
| `Packets.Write` | crates/heeler-core/src/packet.rs:586-592 | a slice is copied to its offset; the bytes before and after stay |
| `Packets.EncodePacket` | crates/heeler-core/src/packet.rs:516-551 | the buffer filled field by field is the encoding |
| `Packets.ParseInvertsEncode` | crates/heeler-core/src/packet.rs:488-551 | parse(encode(p)) = p for every packet, nothing trailing |
| `Packets.EncodeInvertsParse` | crates/heeler-core/src/packet.rs:488-551 | parsing succeeds exactly from 48 bytes on and otherwise tells the length; encode(parse(d)) is the first 48 bytes of d |
| `Packets.PacketIsFirst48Bytes` | crates/heeler-core/src/packet.rs:488-512 | datagrams have the same packet if and only if their first 48 bytes agree |
| `Packets.NetworkByteOrder` | crates/heeler-core/src/packet.rs:516-551 | every field at its offset in network byte order, signed ones in two's complement, leap indicator and mode by their assigned numbers |
| `Responses.ReplyIsNeverARequest` | crates/heeler-core/src/validation.rs:41-59 | a reply, even with bytes appended, is rejected under every policy |
| `Responses.ValidationExactly` | crates/heeler-core/src/validation.rs:41-59 | each verdict on a datagram, with what it carries, read off its bytes in the order of the checks |
| `Responses.ReplyOnTheWire` | crates/heeler-core/src/response.rs:63-133 | mode 4, the request's version, its poll if in 4..17 and otherwise the nearest of these to the server's default, or 4 in a Kiss-o'-Death; T1, T2, T3 in their bytes; the identity and reference bytes, leap 3 and stratum 16 when unsynchronised, or alarm leap, stratum 0, the kiss code in ASCII and zeros |
| `Responses.MinimalEcho` | crates/heeler-core/src/response.rs:63-133 | requests that agree on version bits, poll byte and transmit timestamp get identical replies |
| `Responses.OriginTellsRequestsApart` | crates/heeler-core/src/response.rs:85-112 | equal replies answer requests with equal transmit timestamps |
| `ClientQuery.RequestOnTheWire` | crates/heeler-server/src/client.rs:98-113 | the request: mode 3, the chosen version, poll 6, precision -20, zeros, and T1 in its last eight bytes |
| `ClientQuery.EvaluateExactly` | crates/heeler-server/src/client.rs:129-142 | what the client makes of any datagram, read off its bytes: too short, not from a server, or a delay that is exact and an offset that is half the sum rounded toward zero, with T1 compared |
| `ClientQuery.Exchange` | crates/heeler-server/src/client.rs:95-153 | the client's request comes back matched, with delay and offset computed from both server times as the wire leaves them |
| `ClientQuery.MeasurementIsAccurate` | crates/heeler-server/src/client.rs:129-142 | delay within 1 ns and 2*offset error <= delay + 3, if both server times are within half an era of T1, and only then for paths shorter than an era |
| `ClientQuery.AccuracyBoundIsTight` | crates/heeler-server/src/client.rs:140-142 | the constant 3 is attained |
| `Clocks.SystemClockSource.Open` | crates/heeler-core/src/clock.rs:177-193 | an error exactly for a wall clock before 1900; otherwise a new source, synchronised and referenced to its first wall reading |
| `Clocks.SystemClockSource.CheckForJump` | crates/heeler-core/src/clock.rs:202-241 | the in-place check and its report are those of the one-step specification |
| `Clocks.CheckExactly` | crates/heeler-core/src/clock.rs:202-241 | a check reports if and only if wall movement minus monotonic movement lies outside the thresholds, and reports that number; when it ends the synchronisation and when it refreshes the reference |
| `Clocks.ClockRunExactly` | crates/heeler-core/src/clock.rs:177-241 | after any run: unsynchronised if and only if some check found such a jump and the policy marks it; the reference encodes construction or the last confirming check before any mark |
| `Clocks.SilentExactly` | crates/heeler-core/src/clock.rs:202-241 | a run of checks is silent, from any state, if and only if every step stays within the thresholds |
| `Clocks.SteadyClockIsTrusted` | crates/heeler-core/src/clock.rs:202-241 | a clock whose steps stay within the thresholds is never reported and stays synchronised, referenced to its last encodable reading |
| `Clocks.DesynchronisationLatches` | crates/heeler-core/src/clock.rs:202-241 | from a marked jump on, status and reference never change |
| `Clocks.DriftTelescopes` | crates/heeler-core/src/clock.rs:211-217 | the drifts of a run add up to its wall movement minus its monotonic movement |
| `Clocks.QuietChecksBoundDrift` | crates/heeler-core/src/clock.rs:217-240 | n checks without a report bound the drift by n times the thresholds |
| `Access.NetworkIsBlock` | crates/heeler-server/src/access.rs:99-104 | a network of prefix length n is the aligned block of 2^(32 - n) or 2^(128 - n) addresses around its own, in its own family |
| `Access.PrefixOrderIsInclusion` | crates/heeler-server/src/access.rs:99-104 | for networks sharing an address, prefix-length order is inclusion order |
| `Access.LongestMatchExactly` | crates/heeler-server/src/access.rs:99-104 | the longest match is the length of a matching rule and of no longer one |
| `Access.EvaluateBySmallestNetwork` | crates/heeler-server/src/access.rs:67-84 | denied if and only if a matching deny network lies in every matching allow network, or nothing matches and the default denies |
| `Access.RuleOrderIsIrrelevant` | crates/heeler-server/src/access.rs:67-84 | order and repetition of rules do not matter |
| `Access.DenyRulesOnlyDeny` | crates/heeler-server/src/access.rs:67-84 | adding deny rules never admits anyone |
| `Access.AllowRulesOnlyAllow` | crates/heeler-server/src/access.rs:67-84 | adding allow rules never shuts anyone out |
| `Access.MappedSourcesAreV4` | crates/heeler-server/src/access.rs:107-112 | an IPv4-mapped source gets the verdict of the IPv4 address in its last 32 bits under every table; exactly the mapped ones are changed |
| `Access.DeadRulesExactly` | crates/heeler-server/src/access.rs:107-112 | a rule matches no source at all if and only if it is IPv6, at least 96 bits long and inside ::ffff:0:0/96 |
| `Handling.RankDecreases` | crates/heeler-server/src/server.rs:99-286 | every step of a handler brings its loop nearer to waiting |
| `Handling.LoopComesToRest` | crates/heeler-server/src/server.rs:347-392 | in every run that gives a busy loop as many steps as its rank, whatever the others do, the loop waits again at some point |
| `Ledger.ObjectionsExactly` | crates/heeler-core/src/validation.rs:41-59 | parser and policy accept exactly the byte strings without objection, and count the first objection |
| `Ledger.NextPcTells` | crates/heeler-server/src/server.rs:99-286 | every step of a handler keeps its position in agreement with what was recorded of its datagram and with the counters bumped for it |
| `Ledger.CountersTellFates` | crates/heeler-server/src/server.rs:99-392 | in every run, once no loop is busy, each counter is exactly the number of datagrams whose bytes, source, limiter decision, T3 reading and send result call for it, plus failed receives and failed T2 readings; the limiter was asked about exactly the datagrams that fit and are permitted |
| `Accounting.StepConserves` | crates/heeler-server/src/server.rs:99-392 | every atomic step of every loop keeps the three conservation laws |
| `Accounting.CountersBalance` | crates/heeler-server/src/server.rs:99-392 | in every interleaving requests = responses + dropped + failed sends + in flight, in flight between 0 and the sockets; exact by outcome and by reason once all loops returned |
| `Service.OneReplyPerRequest` | crates/heeler-server/src/server.rs:99-286 | a datagram draws at most one reply; each reply answers a valid request, echoes its transmit timestamp and is no longer than it |
| `Service.AccessIsEnforced` | crates/heeler-server/src/server.rs:122-150 | the time goes to permitted sources only; kisses only where configured, DENY to denied and RATE to permitted sources |
| `Service.NoReplyLoops` | crates/heeler-server/src/server.rs:179-203 | nothing any server sends is ever answered by any server |
| `Service.UnsynchronisedRepliesSaySo` | crates/heeler-server/src/server.rs:205-217 | once the clock is marked, it stays marked with its reference time frozen; every reply to a later datagram has leap 3 and stratum 16 or 0, and a normal one that reference time |
| `Provenance.RepliesTellTheTruth` | crates/heeler-server/src/server.rs:99-286 | in every interleaving a reply answers the datagram that its number says, cut at the buffer, with its source and T2; its T3 is the reading taken for it, zero only for a Kiss-o'-Death whose reading failed; a normal one carries the status and then the reference time that the clock had when its own loop read them |
| `Provenance.BytesAreReceived` | crates/heeler-server/src/server.rs:364-381 | the bytes against which amplification is measured are those of the datagrams received |
| `Provenance.ClockFollowsChecks` | crates/heeler-server/src/server.rs:401-420 | in every state the clock is what the checks so far have made of it, in order |
| `Provenance.FilesTellTheTruth` | crates/heeler-server/src/server.rs:99-286 | every record of a handled datagram is about the datagram that its number says |
| `Unlimited.DisabledLimitsNothing` | crates/heeler-server/src/server.rs:137-161 | with rate limiting switched off, in every interleaving: nothing is counted as rate limited, no RATE kiss is sent, every datagram that fits and is permitted is allowed, and the limiter tracks nobody |
| `Stopping.ReturningIsFinal` | crates/heeler-server/src/server.rs:347-362 | loops return only after the shutdown, and for good |
| `Stopping.EveryRunCanStop` | crates/heeler-server/src/server.rs:347-392 | every run can be continued by a shutdown after which loops only finish what they have in hand and return, until all have; then the books balance |
| `Quotas.NoAmplification` | crates/heeler-server/src/server.rs:246-286 | the server never has sent more bytes than it received |
| `Timing.DisorderIsHeldTime` | crates/heeler-server/src/server.rs:137-138 | between any two states of every interleaving the times that the limiter sees go back, in sum, by at most the sum of how long readings were held before the lock, and lie behind the latest one by at most the longest of these |
| `Timing.SingleLoopIsOrdered` | crates/heeler-server/src/server.rs:137-138 | with at most one socket the requests reach the limiter in order, between any two states of every run |
| `Disorder.TwoLoopsOutOfOrder` | crates/heeler-server/src/server.rs:137-138 | for every configuration that permits a source and every two sockets, a run in which two requests reach the limiter in the opposite order of their readings |
| `Disorder.OrderExactly` | crates/heeler-server/src/server.rs:137-138 | requests reach the limiter in order in all runs if and only if there is at most one socket or nobody is permitted |
| `Disorder.ServerOrderExactly` | crates/heeler-server/src/server.rs:137-161 | the requests that pass the global layer stay within globalBurst + globalRate * time since start in all runs if and only if there is at most one socket, or nobody is permitted, or globalBurst = 0 |
| `Quotas.ServerKeepsGlobalRate` | crates/heeler-server/src/server.rs:137-161 | between any two states, replies except DENY kisses are at most those already granted to loops (at most one each, none at the start) plus globalBurst + globalRate * (time between + time for which readings were held) |
| `Quotas.SingleLoopKeepsGlobalRate` | crates/heeler-server/src/server.rs:137-161 | with at most one socket the same without the time for which readings were held, counted from the earliest reading still to be used |
| `Quotas.ServerKeepsClientRate` | crates/heeler-server/src/server.rs:137-161 | between any two states, normal replies to one client are at most those already granted to loops plus burst + rate * (time between + time for which readings were held) |
| `Verdicts.LoopsObeyLimiter` | crates/heeler-server/src/server.rs:137-161 | in every state the limiter is where its recorded events have brought it, and the decisions that a client's datagrams met with are those in the limiter's log for it |
| `Verdicts.ServerThrottlesKisses` | crates/heeler-server/src/server.rs:137-153 | in every interleaving, 8 * RATE kisses to a client <= its limited + 7 * its allowed datagrams, and 8 * all replies to a permitted client <= limited + 15 * allowed |
| `Verdicts.ServerEvictsUnseen` | crates/heeler-server/src/server.rs:137-161 | in every interleaving whose longest-held reading the ttl covers, and in which no refill is lost to the cast, a client's datagrams meet with the decisions of the ideal limiter |

## Left out

- `KodThrottle`: from a state in which the client is already tracked the bound has up to seven more, what is left of its current streak.
- `ShortTtlIsObservable`: asks that the global layer is off, or that its burst covers one burst of the client and what it then earns until the second one covers that; a tighter one can hide the difference, and one with a burst of zero hides everything.
- `SkewConditionIsExact`: its only-if half asks the same for the longest silence that does not refill a client's bucket.
- `TtlConditionIsExact`: its only-if halves ask the same.
- `LostRefillIsObservable`: asks the same for the silence in question.
- `HorizonConditionIsExact`: its only-if half asks the same for the silences that matter.
- `ClientOrderExactly`: its only-if half also asks that the global layer is off, has room for the whole probe, or earns at least twice as fast as a client.
- `ServerOrderExactly`: leaves out global rates of a request per nanosecond and more, where a token is earned too fast for the probe's swapped readings; and says nothing of the replies, which the per-client layer may bound further.
- `NothingLostExactly`: for rates that refill a burst within a nanosecond the only-if half fails (`FastRatesLoseLater`); what is left of a refill that is cut off then depends on the rate's residues.
- `MeasurementIsAccurate`: the only-if half is proved for paths that take less than an era.
- `FormatInstantRecombines`: 64-bit overflow wraps, as it does in a release build; a debug build would stop there.
- `DecodeDigits`: starts from digits whose prefix and whitespace are already removed.
- Socket setup, Tokio tasks, timers, signals and the shutdown channel; only receive, send, tick and shutdown remain, as events.
- The order of ticks and the thirty-tick period of the sweep: jump checks and sweeps may come at any time, which includes that order.
- Fixed-point conversion of configured root delay and dispersion; only their raw bits on the wire are modelled.
- Conversion to and from the platform's system time, precision measurement, the mock clock.
- Configuration loading, environment overrides and rule parsing; the facts validation guarantees are used where needed.
- Metrics rendering and HTTP, the duration histogram, gauges, the command line, privilege dropping, benchmarks.
