# beachhead-companion: model and proofs

`beachhead-companion` is a daemon. Again and again it lists the containers of a docker host, reads from an environment
variable of each one which domains it wants to serve, and publishes that in Redis under a key that expires. It never
deletes a key: what it no longer publishes vanishes by itself. This project models the daemon in Dafny and proves what
that design rests on.

* **Domain specs.** `Text` has the string operations. `Regex` gives regular expressions the leftmost-first reading of
  a backtracking engine. `DomainPattern` writes the domain pattern in it, and beside it a deterministic scanner; both
  find the same matches, captures included. `DomainSpecs` is `parse_all`, `SpecMeaning` says what it does in terms of
  the text, `Composition` says how texts put together parse, `Rendering` is the round trip of the documented format,
  `DockerInspector` goes through a container's environment; `InspectionMeaning` says what an inspection answers in
  terms of its lines.
* **Documents and store.** `JsonSerializer` writes specs as JSON documents and reads them back; `Redis` is the
  expiring store and the publisher.
* **Schedule.** `Binary64` is the multiplication by 0.45 in binary64, rounded to nearest even and truncated;
  `Arguments` leads from the command line to the configuration.
* **The daemon.** `Refresh` is one round, and `RefreshMeaning` says what a refresh does in terms of its answers.
  `Machine` is the whole program as a timed state machine: a run is a sequence of events with times, which may
  interleave with signals, in which any ready channel may win a select, inspections and publications may answer
  anything, and the container index may be drained in any order. `Companion` is the program itself, a class with
  loops, proved to make only the steps of the machine. `Watchdog`, `Protocol`, `Registration`, `Upkeep`, `Outcomes`
  and `Rounds` prove properties of all its runs.

Times are integers, in nanoseconds of a monotone clock. An event has the time its step is over; a notification also
has the time of its clock reading, and a refresh the time at which the server stores the publication, from which its
expiry counts. A key that is set at time `p` for `E` seconds is live at `t` when `t < p + E`. Characters are Unicode
scalar values and white space is the Unicode property. Keys are folded in ASCII only, which decides alone whether a
key reads `http` or `https`. The theorems about runs are stated for `Exec(u, Start(..), es)`: every event sequence
`es` the machine accepts. Since they hold for every sequence, they hold at every moment of a run.

Where the program and its documentation disagree, the model follows the program:

* The usage text promises a default refresh of at least 10 seconds (src/main.rs:73-75). Nothing enforces it:
  `Arguments.TenSecondsAtLeast` says from which expiry on it holds, and with an expiry of up to 2 the default is to
  run once.
* The usage text says that the key prefix is followed by the container name (src/main.rs:76). It is followed by the
  publication host (src/publisher/redis.rs:63): `Refresh.KeyNamesContainer` says that this gives the container name if
  and only if the docker network is on, or the container's address happens to read like its name.
* The usage text makes a listed container that is missing an error only with `--error-missing-container`
  (src/main.rs:95-98). `Refresh.FailedInspectionIsReported` says that a failed inspection is an error if and only if
  the container is listed or the option is given (src/companion.rs:380-389): for listed containers the documented rule
  fails exactly without the option, and with it unlisted containers are reported as well.

## Model

| member | source | states |
|---|---|---|
| DomainPattern.ScanIsPattern | src/domain_spec.rs:40-42 | at every position the deterministic scanner finds exactly the leftmost-first backtracking match of the pattern, with the same capture groups |
| DomainPattern.NameMatch | src/domain_spec.rs:42 | the first group ends at the last letter or digit, at offset 2 or later, of the longest run of name characters, or at a dot right after it |
| DomainPattern.FindAllIsSearchAll | src/domain_spec.rs:67 | iterating the scanner is iterating the regular expression from the end of each match |
| DomainPattern.MatchesAndGaps | src/domain_spec.rs:67 | the matches are non-empty, ordered and disjoint, and at no position in a gap before, between or after them can the pattern match |
| DomainSpecs.ParseAll | src/domain_spec.rs:51-125 | appends the specs of exactly the matches before the first one with a bad port option, and answers with that option's error (domain, key and the text that is no number), or Ok when there is none |
| DomainSpecs.ParseMatch | src/domain_spec.rs:67-121 | one match yields the spec of its name and last options, both default ports if it has none, or the error of its first bad option |
| DomainSpecs.ParseParams | src/domain_spec.rs:86-113 | the option loop computes the last http and the last https port and stops at the first bad value |
| SpecMeaning.FailsOnFirstBadOption | src/domain_spec.rs:52-66 | for every text, parsing fails if and only if some match has an option `http` or `https`, in any casing, whose value is not one optional plus sign and digits for a number below 65536; the error has the domain, the key in lower case and the value of the first one, and exactly the specs of the matches before it are appended |
| SpecMeaning.PushedMeans | src/domain_spec.rs:67-121 | every appended spec has the name of its match, without a final dot, and the ports that its last http and its last https option say; both default ports if there is neither |
| SpecMeaning.CapturesAreGroups | src/domain_spec.rs:69-84 | the name and the options of the k-th match are groups 1 and 3 of the k-th match of the regular expression |
| Text.ParseU16Is | src/domain_spec.rs:56 | a value is accepted as a port if and only if it is a non-empty string of digits, after one optional plus sign, that stands for a number below 65536, place by place; and then as that number |
| Text.LowerReads | src/domain_spec.rs:89 | exactly the casings of `http` and `https` are read as these keys |
| Text.ClassesAre | src/domain_spec.rs:42 | the character classes of the pattern, character by character |
| DomainSpecs.LastOptionWins | src/domain_spec.rs:97-113 | the last option of a kind alone decides its port, whatever unknown or earlier options there are |
| DomainSpecs.SpecsAreValid | src/domain_spec.rs:67-121 | for every text, every spec has a name of at least 3 characters that starts and ends with a letter or digit, at least one port, and only u16 ports |
| DomainSpecs.TrimsDoNothing | src/domain_spec.rs:87-91 | trimming the key or the value of an option is an identity, since a match holds no white space after its colon |
| DomainSpecs.DomainSpec.Id | src/domain_spec.rs:47-49 | the id is as long as the name, keeps letters, digits and underscores in place, and has underscores for everything else |
| Composition.MatchesCompose | src/domain_spec.rs:67 | the matches of `a`, white space, `b` are the matches of `a` followed by the shifted matches of `b` |
| Composition.ParseCompose | src/domain_spec.rs:67-122 | parsing two texts joined by white space gives the result, the error and the specs of parsing one and then, if it was fine, the other |
| Rendering.WrittenIsRead | src/domain_spec.rs:67-121 | any list of items with any options (repeated, unknown, any order and case, with or without trailing dot) between any white space is read back item by item |
| Rendering.RoundTrip | src/main.rs:104-106 | specs written in any way the documented format allows, with any white space around and between them, parse back to exactly that list without error |
| Rendering.CanonicalDocuments | src/main.rs:104-106 | every spec that parsing can produce can be written in the documented format |
| Rendering.WritesDecimal | src/main.rs:105 | a port may be written in decimal with any number of leading zeros |
| Text.JoinSplit | src/domain_spec.rs:77-79 | splitting into options loses nothing: joined again they are the text |
| DockerInspector.LineValueWhen | src/inspector/docker.rs:106-109 | a line counts if and only if it starts with the equals-free variable name and an equals sign; its value is the rest |
| DockerInspector.ParseContainerEnvVars | src/inspector/docker.rs:99-115 | result, error and specs are those of parsing all matching values joined by spaces; the variable counts as present if and only if some line mentions it |
| DockerInspector.BadStaysBad | src/inspector/docker.rs:111 | once a value is bad, the lines after it change neither the error nor the specs |
| DockerInspector.Inspect | src/inspector/docker.rs:71-96 | the inspection of a container is `Inspected`, which `InspectionMeaning.InspectionMeans` characterises |
| InspectionMeaning.InspectionMeans | src/inspector/docker.rs:71-115 | an inspection succeeds if and only if docker answers and no option in any line with the variable is bad; it then has the name or the address as host, the specs of all those lines in order, and whether there is such a line; otherwise its error is docker's, or names the first bad option of the first bad line |
| DockerInspector.NetworkHostsAreDistinct | src/inspector/docker.rs:78-85 | on a docker network two containers have the same host if and only if they have the same name |
| Binary64.RoundToIs | src/companion.rs:233 | rounding gives a nearest multiple of the unit, the even one on a tie, as section 4.3.1 of IEEE 754-2008 has it |
| Binary64.RoundIs | src/companion.rs:233 | a number of more than 53 bits is rounded to a nearest one with 53 significant bits, the even one on a tie |
| Binary64.Point45IsNearest | src/main.rs:226 | the constant 0.45 is the normalized binary64 number nearest to 9/20: it is off by at most half a unit in the last place |
| Binary64.RoundStays | src/companion.rs:233 | rounding to multiples of a unit never crosses one of them, and so fixes them |
| Binary64.RoundIsMonotone | src/companion.rs:233 | rounding to binary64 is monotone, also where the unit in the last place changes |
| Binary64.Times45IsExact | src/main.rs:226 | for every value below 2^49 the truncated binary64 product with 0.45 is exactly nine twentieths, rounded down |
| Binary64.Times45IsNotAlwaysExact | src/companion.rs:233 | at 2251799813685251 microseconds the truncated product is one more than nine twentieths, rounded down |
| Binary64.Times45IsUnderHalf | src/companion.rs:233 | for every u64 twice the truncated product is at most the value itself, so it fits an i64 |
| Binary64.Times45IsMonotone | src/main.rs:226 | a longer expiry or watchdog interval never gets a shorter refresh or alarm |
| Arguments.Args.Transform | src/main.rs:209-228 | quiet and verbose cancel out, a dry run is never quiet; a refresh that is given is kept, 0 included, and otherwise becomes nine twentieths of the expiry, rounded down, for every u32 |
| Arguments.Configure | src/main.rs:183-261 | from transformed arguments the configuration never meets an absent refresh; an expiry of 0 means none, a given refresh of 0 none and any other exactly itself, an absent one nine twentieths of the expiry or none up to 2; opposite flags for a missing variable cancel out; the other flags and names are taken over; pings are wanted exactly with systemd and at its positive interval |
| Arguments.DefaultSchedule | src/main.rs:376-398 | for every u32 expiry the default refresh is between a third and a half of it, means one-shot exactly up to an expiry of 2, and fits twice into every other |
| Arguments.TenSecondsAtLeast | src/main.rs:73-75 | the documented minimum of 10 seconds for the default refresh holds if and only if the expiry is at least 23 |
| Arguments.WatchdogStep | src/companion.rs:230-233 | the product of any watchdog interval with 0.45 leaves room for a second alarm within the interval; `Watchdog.AlarmIsAt45Percent` says that this is the alarm |
| JsonSerializer.DomainConfig | src/publisher/json_serializer.rs:48-59 | builds the document with id, domain, and a backend of host and port for exactly the ports the spec has |
| JsonSerializer.DomainConfigs | src/publisher/json_serializer.rs:61-68 | builds one document per spec, in order |
| JsonSerializer.DocumentIs | src/publisher/json_serializer.rs:28-33 | a document has exactly the fields `id`, `domain` and, for each port, `http` or `https` with `host` and `port`, and their values |
| JsonSerializer.DocRead | src/publisher/test_redis_publisher.rs:619-705 | the reader takes a document back to its spec and id; it fails exactly when a port is 0 |
| JsonSerializer.DocsRead | src/publisher/test_redis_publisher.rs:265-281 | so it does for a whole list, in order |
| Redis.RedisPublisher.Publish | src/publisher/redis.rs:58-78 | a publication overwrites the value and the expiry of its host's key; a failed one leaves the store as it was |
| Redis.KeysOfHostsDiffer | src/publisher/redis.rs:81-84 | two hosts share a key only if they are the same |
| Redis.PublishedIsRead | src/publisher/redis.rs:58-78 | until a publication expires a client reads exactly its specs, in order and with ids (nothing if a port is 0), and every other host's key is as it was |
| Redis.RepublishReplaces | src/publisher/test_redis_publisher.rs:314-316 | a republication leaves nothing of the old value |
| Machine.AlarmsKeepDeadlines | src/companion.rs:244-272 | an alarm may go off exactly from its deadline on, whether that is past or future, and without a deadline never; the duration is never negative |
| Watchdog.PingsStayKept | src/companion.rs:211-241 | in every run the next watchdog alarm is one step after the clock reading of the latest ping, and no select sleeps past it |
| Watchdog.AlarmIsAt45Percent | src/companion.rs:229-239 | in every run, for an interval of d < 2^49 microseconds, the next alarm is exactly 9 d / 20 microseconds, rounded down, after the clock reading of the latest ping; and for every u64 at most half the interval after it |
| Watchdog.AlarmStaysReady | src/companion.rs:158-162 | in every run, while a select waits, its watchdog channel is ready exactly from the next alarm on |
| Watchdog.NoWatchdogNoAlarm | src/companion.rs:262-270 | in every run without a watchdog interval, the watchdog never ends a select |
| Watchdog.WatchdogIsFed | example-setup/beachhead-companion.service:24-28 | if rounds, from the clock reading of the first ping to the end of the second, last less than the watchdog interval and wake-ups through to the next ping are late by less than what 45% leaves of it, which is at least half, then over the whole run successive pings are less than the interval apart, whenever within its notification each arrives |
| Watchdog.PingRate | src/companion.rs:116-205 | up to its refresh deadline a wait with refresh R sends at most R / T + 1 pings, T being the watchdog step |
| Registration.StoreMirrorsRun | src/publisher/redis.rs:58-78 | after every run, on whatever store, the store holds the latest publication of every key the run published to, with its expiry; all else is as before |
| Registration.StoreShowsRecentPublications | README.md:42-48 | at every time a client sees, of the keys the run published to, exactly the latest publications made within the last expiry; so what is no longer published is gone in time; other keys are as before |
| Registration.RefreshIsNeverEarly | src/companion.rs:117-122 | whatever wakes a wait in between, it goes on to the next round only after the whole refresh interval |
| Registration.KeyNeverLapses | src/publisher/redis.rs:71-72 | on whatever store a run begins, a key that every completed round publishes to, from any event on, is live at every moment from then on and shows its latest publication, while adjacent rounds and late returns from waiting fit into expiry minus refresh |
| Upkeep.ServedIsKeptUp | src/companion.rs:109 | a container that from some moment outside a round on is listed, or found by every enumeration, and is always inspected and published under one host, is published by the end of every round from then on, in whatever order rounds drain their containers |
| Upkeep.NoLapse | src/companion.rs:307-336 | the key of such a container, whenever it turns up, is live and up to date at every moment from its first publication on, also in the middle of publishing it again, whatever the store held before, while adjacent rounds and late returns from waiting fit into expiry minus refresh |
| Registration.DefaultScheduleIsTimely | src/main.rs:223-227 | with the default refresh, rounds of up to a quarter of the expiry and waits late by less than a twentieth of it always fit |
| Upkeep.NoLapseByDefault | src/main.rs:223-227 | so with the default refresh it never lapses, if rounds take up to a quarter of the expiry and waits are late by less than a twentieth of it |
| Upkeep.WrittenNeverLapses | src/inspector/docker.rs:76-96 | on a docker network, a container that from some moment on is always covered, and whose environment spells out specs in the documented format, is served: at every such moment a client reads exactly these specs, with ids, under its name, and nobody else writes there |
| Refresh.NamesOfARound | src/companion.rs:76-111 | a round covers each name once, exactly the listed and (if that is on and works) the enumerated ones, flagged explicit exactly when listed |
| RefreshMeaning.RefreshDoes | src/companion.rs:365-436 | a refresh writes to the store if and only if the container could be inspected, has the variable, this is no dry run and the server accepts; it writes the documents under prefix and host, with the expiry, and nothing else; and it adds exactly the error that the configuration makes reportable |
| RefreshMeaning.DryRunChangesNothing | src/companion.rs:423-424 | over every run, on any store, a dry run leaves the store as it was |
| RefreshMeaning.BadIsNotPublished | src/companion.rs:376-400 | a container that docker does not answer for, or with a bad option in some line with the variable, is not published at all, and is reported as configured |
| Refresh.OrderDoesNotMatter | src/companion.rs:325-327 | unless two containers write different values to one key, refreshing the same containers in any two orders leaves the same keys and values and the same multiset of errors |
| Refresh.OrderIsFreeWhen | src/companion.rs:109 | all orders of draining the same containers leave the same keys and values if and only if no two of them write different values to one key |
| Refresh.DifferentHostsDoNotClash | src/publisher/redis.rs:81-84 | containers with pairwise different hosts never write to one key |
| Refresh.KeyNamesContainer | src/main.rs:76-77 | a published container's key is the prefix and its name, as documented, if and only if the docker network is on or its address reads like its name |
| Refresh.FailedInspectionIsReported | src/companion.rs:380-389 | a failed inspection is an error if and only if the container is listed or missing containers are errors; for listed ones the documented rule fails exactly if they are not, and the option decides for all others as well |
| Outcomes.BoundedShutdown | src/companion.rs:124-199 | once a signal waits, in every interleaving at most one more round starts or one more in-wait ping is sent, never both, and neither if the wait is being entered or polls |
| Outcomes.ShutdownProgresses | src/companion.rs:332-355 | once a signal waits, every step of the program brings it strictly closer to its end |
| Outcomes.RoundAccounting | src/companion.rs:365-436 | after a round every one of its targets, listed or enumerated, has exactly one fate, and there are as many errors as the configuration makes reportable, and one more if enumeration failed |
| Outcomes.RunOutcome | src/companion.rs:297-356 | a failed READY ends the run in error before any round; one-shot mode makes one round and returns its errors, enumeration first; otherwise a run ends only after a signal, and always Ok |
| Outcomes.NoRoundNoPublication | src/companion.rs:299-305 | a run without a round leaves the store untouched |
| Protocol.InOrder | src/companion.rs:291-336 | in every run the program's steps come in the order of the program: every round is announced, enumerated, refreshed and followed by the announcement of the wait; every select by a look for signals just before, also after a ping |
| Rounds.RoundDoesAll | src/companion.rs:324-327 | the events of a round against fixed answers have exactly the effect and the errors of refreshing its names one by one, wherever signals arrive |
| Rounds.RoundOrderDoesNotMatter | src/companion.rs:109 | two finished rounds of the machine over the same containers, drained in any orders at any times, leave the same keys and values and the same errors, unless two containers write different values to one key |
| Rounds.NetworkHostsDiffer | src/inspector/docker.rs:81-85 | on a docker network hosts always differ |
| Rounds.WrittenIsInspected | src/inspector/docker.rs:92-95 | a container whose variable spells out specs in the documented format, on any number of lines among any others, is inspected to exactly these |
| Rounds.WrittenIsServed | src/companion.rs:420-435 | and from its publication until that expires a client reads exactly these specs under the container's key |
| Companion.Collect | src/companion.rs:79-104 | the two insertion loops build the index of listed and enumerated names |
| Companion.Drain | src/companion.rs:109 | draining yields every entry of the index once, in an arbitrary order |
| Companion.Context.constructor | src/companion.rs:50-63 | a new context has its first watchdog alarm at once, at the clock reading of its creation, if pings are wanted, and otherwise none |
| Companion.Context.NotifyStatus | src/companion.rs:211-241 | sends one notification with the given status and resets the next alarm to 45% of the watchdog interval after a clock reading taken before it |
| Companion.Context.Enumerate | src/companion.rs:76-111 | is one enumeration step of the machine: returns every listed or enumerated name once, and an error exactly when enumeration is on and fails |
| Companion.Context.RefreshContainer | src/companion.rs:365-436 | is one refresh step of the machine: an inspection, then at most one publication, whose effect on the store is the only one, and exactly the errors that count are appended |
| Companion.Context.WaitOnce | src/companion.rs:124-180 | one iteration: signals first, then any ready channel; what to do next is one of stop, continue and ping |
| Companion.Context.Wait | src/companion.rs:116-205 | returns true only on the refresh alarm and false only in one-shot mode or on a signal; the "unexpected state" branch is unreachable |
| Companion.Run | src/companion.rs:291-357 | the whole run makes only steps of the machine, starting in its initial state, and ends as `Outcomes.EndsAs` says |

## Left out

- Companion.Run: Dafny wants loops that end, so the run is watched for a given number of rounds of the wait loop; it proves every finite part of a run, of any length, but not that a run goes on forever
- Companion.Context.Wait: the same bound; when it is reached the method says so and the run is still going
- Arguments.Configure: the addresses of Redis and Docker, which are only passed on to their clients, are not part of the configuration
- DomainSpecs.ParseAll: the number error inside a domain spec error is represented by the text that was rejected; which kind of error the library makes of that text (empty, digit, overflow) is the library's and depends on its version
- DomainSpecs.ParseMatch: the same
- DomainSpecs.ParseParams: the same
- Redis.RedisPublisher.Publish: without an expiry the program hands the bare array to the client library, and what that stores depends on the library; the model records the bare documents and says nothing about reading them
- Redis.RedisPublisher.Publish: a publication that fails is taken to leave the server unchanged
- Watchdog.WatchdogIsFed: a ping is taken to arrive by the end of its notification; failing notifications are only logged and are not told apart
- JSON text: documents are values, and encoding them is taken to lose nothing and not to fail other than as a publishing error
- Docker, Redis and systemd clients, their caching and their connection settings: their answers are arbitrary inputs
- Wall-clock jumps and calendar limits of the time library: the clock is monotone and unbounded
- The order and equality of `Pending`, `optional_result`, verbosity levels, log messages, error texts, process exit codes: nothing that would not be plain from reading them
- Command line parsing: the arguments are given
