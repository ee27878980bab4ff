/** What the store shows over whole runs: the publications of the last expiry; and no key that every round publishes to
    ever lapses. */
module Registration {
  import opened Wrappers
  import opened Common
  import opened Arguments
  import opened Redis
  import opened Refresh
  import opened Machine

  // ---- the publications of a run --------------------------------------------------------------

  datatype Publishing = Publishing(at: int, key: string, value: Value)

  function PublishingBy(config: Config, e: Event): Option<Publishing> {
    if !e.Refreshed? then None else
    match FateOf(config, e.inspected, e.answer)
    case Published(p) => Some(Publishing(e.stored, ServiceKey(config.keyPrefix, p.host), ValueOf(config, p)))
    case _ => None
  }

  /** The latest publication to a key, once `e` has happened. */
  function LatestThen(config: Config, latest: Option<Publishing>, e: Event, key: string): Option<Publishing> {
    match PublishingBy(config, e)
    case Some(p) => if p.key == key then Some(p) else latest
    case None => latest
  }

  /** The latest publication to a key in a run. */
  function Latest(config: Config, es: seq<Event>, key: string): Option<Publishing> {
    if es == [] then None else LatestThen(config, Latest(config, es[..|es| - 1], key), es[|es| - 1], key)
  }

  // ---- the store agrees with the run ------------------------------------------------------------

  /** The store holds, for every key, the latest publication and when it expires; and otherwise what
      it held `before`. */
  ghost predicate Mirrors(config: Config, s: State, es: seq<Event>, before: Store, expire: nat) {
    forall key ::
      match Latest(config, es, key)
      case None => (key in s.store <==> key in before) && (key in before ==> s.store[key] == before[key])
      case Some(p) => key in s.store && s.store[key] == Entry(p.value, Some(p.at + expire * SEC)) && p.at <= s.clock
  }

  lemma StoreStep(u: Setup, s: State, e: Event)
    requires Step(u, s, e).Some?
    ensures Step(u, s, e).value.store ==
            match PublishingBy(u.config, e)
            case None => s.store
            case Some(p) =>
              s.store[p.key := Entry(p.value, match u.config.expireSeconds
                                              case None => None
                                              case Some(x) => Some(p.at + x * SEC))]
    ensures s.clock <= e.at == Step(u, s, e).value.clock
    ensures PublishingBy(u.config, e).Some? ==> e.Refreshed? && s.clock <= PublishingBy(u.config, e).value.at <= e.at
  {
    hide EnumerateAll, Wake, EnterWait, DeadlineToAlarmClock, NextWatchdog, ServiceKey, ValueOf;
    if s.phase.Refreshing? && s.phase.todo != [] {
      hide Reports;
    }
  }

  /** Whatever was in the store before, after a run it holds the latest publication of every key that
      was published to. */
  lemma {:induction false} StoreMirrorsRun(u: Setup, clock: int, store: Store, es: seq<Event>, expire: nat)
    requires u.config.expireSeconds == Some(expire) && Exec(u, Start(clock, store), es).Some?
    ensures Mirrors(u.config, Exec(u, Start(clock, store), es).value, es, store, expire)
  {
    hide Step, PublishingBy;
    if es == [] {
    } else {
      var front, e := es[..|es| - 1], es[|es| - 1];
      StoreMirrorsRun(u, clock, store, front, expire);
      StoreStep(u, Exec(u, Start(clock, store), front).value, e);
    }
  }

  /** At any time after the latest event, what a client sees of the keys a run publishes to is exactly the latest
      publication of each, as far as it was made within the last `expire` seconds. So a container that is no longer
      published is gone in time. All other keys are as they were before the run. */
  lemma StoreShowsRecentPublications(u: Setup, clock: int, store: Store, es: seq<Event>, expire: nat, t: int)
    requires u.config.expireSeconds == Some(expire) && Exec(u, Start(clock, store), es).Some?
    ensures var live := Live(Exec(u, Start(clock, store), es).value.store, t);
            forall key ::
              match Latest(u.config, es, key)
              case None =>
                (key in live <==> key in Live(store, t)) && (key in live ==> live[key] == Live(store, t)[key])
              case Some(p) => (key in live <==> t < p.at + expire * SEC) && (key in live ==> live[key] == p.value)
  {
    hide Exec;
    StoreMirrorsRun(u, clock, store, es, expire);
  }

  // ---- rounds and waits in time ---------------------------------------------------------------------

  /** When the current round began and how long it took; the same for the round before it, and how late the wait in
      between returned. */
  datatype Pace = Pace(rounds: nat, roundStart: int, busy: int, waitStart: int, prevStart: int, prevBusy: int,
                       prevLate: int)

  function PaceThen(u: Setup, p: Pace, e: Event): Pace {
    match e
    case Created(at) => Pace(0, at, 0, at, at, 0, 0)
    case WaitEntered(at) => p.(busy := at - p.roundStart, waitStart := at)
    case Woke(at, ByRefresh) => Pace(p.rounds + 1, at, 0, at, p.roundStart, p.busy, at - RefreshDue(u, p))
    case _ => p
  }

  function Paced(u: Setup, es: seq<Event>): Pace {
    if es == [] then Pace(0, 0, 0, 0, 0, 0, 0) else PaceThen(u, Paced(u, es[..|es| - 1]), es[|es| - 1])
  }

  function RefreshDue(u: Setup, p: Pace): int {
    p.waitStart + RefreshTicks(u)
  }

  function RefreshTicks(u: Setup): nat {
    match u.config.refreshSeconds case None => 0 case Some(r) => r * SEC
  }

  predicate InRound(s: State) {
    s.phase.Looping? || s.phase.Enumerating? || s.phase.Refreshing? || s.phase.EnteringWait?
  }

  /** The slack that expiry and refresh leave bounds two adjacent rounds and the lateness of the wait between them. */
  predicate WithinSlack(u: Setup, s: State, p: Pace, t: int, slack: int) {
    && (InRound(s) ==> p.prevBusy + p.prevLate + (t - p.roundStart) < slack)
    && (Waiting(s.phase) ==> p.busy + (t - RefreshDue(u, p)) < slack)
  }

  /** Whether the current round has published to `key`, once `e` has happened. */
  function PublishedThen(config: Config, published: bool, e: Event, key: string): bool {
    match PublishingBy(config, e)
    case Some(p) => p.key == key || published
    case None => !e.Created? && !(e.Woke? && e.source.ByRefresh?) && published
  }

  /** Whether the current round has published to `key` so far. */
  function PublishedThisRound(config: Config, es: seq<Event>, key: string): bool {
    es != [] && PublishedThen(config, PublishedThisRound(config, es[..|es| - 1], key), es[|es| - 1], key)
  }

  /** From its first publication after event `b` on, every completed round publishes to `key`. */
  ghost predicate KeptUp(u: Setup, es: seq<Event>, b: nat, key: string) {
    forall k :: b <= k < |es| && es[k].WaitEntered? && Latest(u.config, es[b..k], key).Some? ==>
      PublishedThisRound(u.config, es[..k], key)
  }

  /** From event `b` on, rounds and waits are within the slack. */
  ghost predicate Timely(u: Setup, t0: State, es: seq<Event>, b: nat, slack: int) {
    forall k :: b <= k < |es| ==>
      Exec(u, t0, es[..k]).Some? && WithinSlack(u, Exec(u, t0, es[..k]).value, Paced(u, es[..k]), es[k].at, slack)
  }

  // ---- the invariant ------------------------------------------------------------------------------------

  /** How rounds and waits add up. */
  predicate Adds(u: Setup, s: State, p: Pace) {
    && (!s.phase.Creating? ==> p.prevStart <= p.roundStart <= s.clock)
    && (s.phase.Creating? || s.phase.Announcing? ==> p.rounds == 0)
    && (p.rounds == 0 ==> p.prevBusy == 0 && p.prevLate == 0)
    && (p.rounds > 0 && InRound(s) ==> p.roundStart == p.prevStart + p.prevBusy + p.prevLate + RefreshTicks(u))
    && (Waiting(s.phase) ==> p.busy == p.waitStart - p.roundStart)
  }

  /** How recent the latest publication of a key that is kept up is. */
  predicate Recent(s: State, p: Pace, latest: Option<Publishing>, thisRound: bool) {
    && (s.phase.Creating? || s.phase.Announcing? ==> latest.None?)
    && (latest.Some? && InRound(s) ==>
          latest.value.at >= if thisRound || p.rounds == 0 then p.roundStart else p.prevStart)
    && (latest.Some? && Waiting(s.phase) ==> latest.value.at >= p.roundStart)
  }

  lemma AddsStep(u: Setup, s: State, e: Event, p: Pace)
    requires Step(u, s, e).Some? && Adds(u, s, p)
    ensures Adds(u, Step(u, s, e).value, PaceThen(u, p, e))
  {
    hide EnumerateAll, RefreshOne, Wake, DeadlineToAlarmClock, NextWatchdog;
  }

  lemma RecentStep(u: Setup, s: State, e: Event, p: Pace, latest: Option<Publishing>, published: bool, key: string)
    requires Step(u, s, e).Some? && Adds(u, s, p) && Recent(s, p, latest, published)
    requires e.WaitEntered? && latest.Some? ==> published
    ensures Recent(Step(u, s, e).value, PaceThen(u, p, e),
                   LatestThen(u.config, latest, e, key), PublishedThen(u.config, published, e, key))
  {
    hide EnumerateAll, RefreshOne, Wake, DeadlineToAlarmClock, NextWatchdog, PublishingBy;
    if PublishingBy(u.config, e).Some? {
      PublishingIsNow(u, s, e);
    }
  }

  lemma PublishingIsNow(u: Setup, s: State, e: Event)
    requires Step(u, s, e).Some? && PublishingBy(u.config, e).Some?
    ensures e.Refreshed? && s.clock <= PublishingBy(u.config, e).value.at
  {
    hide Step;
    StoreStep(u, s, e);
  }

  lemma {:induction false} StaysAdding(u: Setup, clock: int, store: Store, es: seq<Event>)
    requires Exec(u, Start(clock, store), es).Some?
    ensures Adds(u, Exec(u, Start(clock, store), es).value, Paced(u, es))
  {
    hide Step, PaceThen, Adds;
    if es == [] {
      AddsAtStart(u, clock, store);
    } else {
      var front, e := es[..|es| - 1], es[|es| - 1];
      StaysAdding(u, clock, store, front);
      AddsStep(u, Exec(u, Start(clock, store), front).value, e, Paced(u, front));
    }
  }

  lemma AddsAtStart(u: Setup, clock: int, store: Store)
    ensures Adds(u, Start(clock, store), Paced(u, []))
  {
  }

  lemma {:induction false} StaysRecent(u: Setup, clock: int, store: Store, es: seq<Event>, b: nat, key: string)
    requires b <= |es| && Exec(u, Start(clock, store), es).Some? && KeptUp(u, es, b, key)
    ensures Recent(Exec(u, Start(clock, store), es).value, Paced(u, es),
                   Latest(u.config, es[b..], key), PublishedThisRound(u.config, es, key))
    decreases |es|
  {
    hide Step, PaceThen, LatestThen, PublishedThen, KeptUp, Recent;
    if |es| == b {
      NothingRecent(u.config, Exec(u, Start(clock, store), es).value, Paced(u, es),
                    PublishedThisRound(u.config, es, key), key);
    } else {
      var front, e := es[..|es| - 1], es[|es| - 1];
      KeptUpPrefix(u, es, b, key, |es| - 1);
      StaysRecent(u, clock, store, front, b, key);
      StaysAdding(u, clock, store, front);
      KeptUpAt(u, es, b, key, |es| - 1);
      assert es[b..][..|es| - 1 - b] == front[b..] == es[b..|es| - 1];
      RecentStep(u, Exec(u, Start(clock, store), front).value, e, Paced(u, front),
                 Latest(u.config, front[b..], key), PublishedThisRound(u.config, front, key), key);
    }
  }

  lemma NothingRecent(config: Config, s: State, p: Pace, published: bool, key: string)
    ensures Recent(s, p, Latest(config, [], key), published)
  {
  }

  lemma KeptUpAt(u: Setup, es: seq<Event>, b: nat, key: string, k: nat)
    requires b <= k < |es| && KeptUp(u, es, b, key)
    ensures es[k].WaitEntered? && Latest(u.config, es[b..k], key).Some? ==> PublishedThisRound(u.config, es[..k], key)
  {
    hide Latest, PublishedThisRound;
  }

  lemma KeptUpPrefix(u: Setup, es: seq<Event>, b: nat, key: string, m: nat)
    requires b <= m <= |es| && KeptUp(u, es, b, key)
    ensures KeptUp(u, es[..m], b, key)
  {
    hide Latest, PublishedThisRound;
    assert forall k :: b <= k < m ==> es[..m][..k] == es[..k] && es[..m][b..k] == es[b..k] && es[..m][k] == es[k];
  }

  /** The latest publication since `b`, if there is any, is the latest of all. */
  lemma {:induction false} LatestSince(config: Config, es: seq<Event>, b: nat, key: string)
    requires b <= |es| && Latest(config, es[b..], key).Some?
    ensures Latest(config, es, key) == Latest(config, es[b..], key)
    decreases |es|
  {
    hide PublishingBy;
    if |es| == b {
      assert false;
    } else {
      assert es[b..][..|es| - 1 - b] == es[..|es| - 1][b..];
      if Latest(config, es[..|es| - 1][b..], key).Some? {
        LatestSince(config, es[..|es| - 1], b, key);
      }
    }
  }

  // ---- refreshes do not come early -------------------------------------------------------------------------

  /** The refresh alarm of a wait is the one set when it began. */
  predicate AlarmSet(u: Setup, s: State, p: Pace) {
    match s.phase
    case Polling(r) => r == After(p.waitStart, RefreshTicks(u))
    case Arming(r) => r == After(p.waitStart, RefreshTicks(u))
    case Selecting(r, _) => r == After(p.waitStart, RefreshTicks(u))
    case Pinging(r) => r == After(p.waitStart, RefreshTicks(u))
    case _ => true
  }

  lemma AlarmStep(u: Setup, s: State, e: Event, p: Pace)
    requires Step(u, s, e).Some? && AlarmSet(u, s, p)
    ensures AlarmSet(u, Step(u, s, e).value, PaceThen(u, p, e))
  {
    hide EnumerateAll, RefreshOne, Wake, DeadlineToAlarmClock, NextWatchdog;
  }

  lemma {:induction false} AlarmStaysSet(u: Setup, clock: int, store: Store, es: seq<Event>)
    requires Exec(u, Start(clock, store), es).Some?
    ensures AlarmSet(u, Exec(u, Start(clock, store), es).value, Paced(u, es))
  {
    hide Step, PaceThen, AlarmSet;
    if es == [] {
      AlarmAtStart(u, clock, store);
    } else {
      var front, e := es[..|es| - 1], es[|es| - 1];
      AlarmStaysSet(u, clock, store, front);
      AlarmStep(u, Exec(u, Start(clock, store), front).value, e, Paced(u, front));
    }
  }

  lemma AlarmAtStart(u: Setup, clock: int, store: Store)
    ensures AlarmSet(u, Start(clock, store), Paced(u, []))
  {
  }

  /** Whatever wakes it in between, a wait goes on to the next round only once the whole refresh interval has passed. */
  lemma RefreshIsNeverEarly(u: Setup, clock: int, store: Store, es: seq<Event>, at: int)
    requires Exec(u, Start(clock, store), es + [Woke(at, ByRefresh)]).Some?
    ensures Paced(u, es).waitStart + RefreshTicks(u) <= at
  {
    hide Exec, Paced, Move;
    ExecMore(u, Start(clock, store), es, Woke(at, ByRefresh));
    AlarmStaysSet(u, clock, store, es);
    OnlySelectsWake(u, Exec(u, Start(clock, store), es).value, at);
  }

  lemma OnlySelectsWake(u: Setup, s: State, at: int)
    requires Step(u, s, Woke(at, ByRefresh)).Some?
    ensures s.phase.Selecting? && s.phase.refresh.MayFire(at)
  {
    hide EnumerateAll, RefreshOne, Alarm.MayFire;
  }

  // ---- no lapse ----------------------------------------------------------------------------------------------

  lemma StillLive(u: Setup, s: State, p: Pace, latest: Publishing, thisRound: bool, e: Event, expire: nat, refresh: nat)
    requires u.config.refreshSeconds == Some(refresh) && Step(u, s, e).Some?
    requires Adds(u, s, p) && Recent(s, p, Some(latest), thisRound)
    requires WithinSlack(u, s, p, e.at, (expire - refresh) * SEC)
    requires InRound(s) || Waiting(s.phase)
    ensures e.at < latest.at + expire * SEC
  {
    hide Step;
  }

  /** How many events have had their effect on the store by time `t`, at which event `m` is the one going on. */
  function Seen(es: seq<Event>, m: nat, t: int): (n: nat)
    requires m < |es|
    ensures m <= n <= |es|
  {
    if es[m].Refreshed? && es[m].stored <= t then m + 1 else m
  }

  /** At time `t`, while event `m` goes on, clients see the latest publication to `key`. */
  ghost predicate ShowsLatest(u: Setup, t0: State, es: seq<Event>, key: string, m: nat, t: int)
    requires m < |es|
  {
    var before, now := Exec(u, t0, es[..m]), Exec(u, t0, es[..Seen(es, m, t)]);
    && before.Some? && now.Some? && Latest(u.config, es[..Seen(es, m, t)], key).Some?
    && (InRound(before.value) || Waiting(before.value.phase) ==>
          && key in Live(now.value.store, t)
          && Live(now.value.store, t)[key] == Latest(u.config, es[..Seen(es, m, t)], key).value.value)
  }

  lemma StaysLive(u: Setup, clock: int, store: Store, es: seq<Event>, key: string, expire: nat, m: nat, t: int)
    requires u.config.expireSeconds == Some(expire) && Exec(u, Start(clock, store), es).Some?
    requires m < |es| && Latest(u.config, es[..m], key).Some?
    requires Exec(u, Start(clock, store), es[..m]).Some?
    requires var s := Exec(u, Start(clock, store), es[..m]).value;
             InRound(s) || Waiting(s.phase) ==> t < Latest(u.config, es[..m], key).value.at + expire * SEC
    ensures ShowsLatest(u, Start(clock, store), es, key, m, t)
  {
    hide Exec, Step, LatestThen, InRound, Waiting, Mirrors;
    var t0, n := Start(clock, store), Seen(es, m, t);
    ExecPrefix(u, t0, es, m);
    ExecPrefix(u, t0, es, n);
    StoreMirrorsRun(u, clock, store, es[..m], expire);
    StoreMirrorsRun(u, clock, store, es[..n], expire);
    MirroredIs(u.config, Exec(u, t0, es[..m]).value, es[..m], store, expire, key);
    LatestGetsLater(u, Exec(u, t0, es[..m]).value, es[m], Latest(u.config, es[..m], key).value, key);
    assert es[..m + 1][..m] == es[..m];
    MirroredIs(u.config, Exec(u, t0, es[..n]).value, es[..n], store, expire, key);
  }

  lemma MirroredIs(config: Config, s: State, es: seq<Event>, before: Store, expire: nat, key: string)
    requires Mirrors(config, s, es, before, expire) && Latest(config, es, key).Some?
    ensures var p := Latest(config, es, key).value;
            key in s.store && s.store[key] == Entry(p.value, Some(p.at + expire * SEC)) && p.at <= s.clock
  {
    hide Latest;
  }

  lemma LatestGetsLater(u: Setup, s: State, e: Event, latest: Publishing, key: string)
    requires Step(u, s, e).Some? && latest.at <= s.clock
    ensures LatestThen(u.config, Some(latest), e, key).Some?
    ensures latest.at <= LatestThen(u.config, Some(latest), e, key).value.at
  {
    hide Step, PublishingBy;
    StoreStep(u, s, e);
  }

  /** Once published, at event `b` or later, a key that every round publishes to from then on is live at every moment,
      and shows its latest publication, as long as adjacent rounds and late returns from waiting stay within what expiry
      leaves of the refresh interval. */
  lemma KeyNeverLapses(u: Setup, clock: int, store: Store, es: seq<Event>, b: nat, key: string,
                       expire: nat, refresh: nat, m: nat, t: int)
    requires u.config.expireSeconds == Some(expire) && u.config.refreshSeconds == Some(refresh)
    requires b <= m < |es| && Exec(u, Start(clock, store), es).Some? && KeptUp(u, es, b, key)
    requires Timely(u, Start(clock, store), es, b, (expire - refresh) * SEC)
    requires Latest(u.config, es[b..m], key).Some? && t <= es[m].at
    ensures ShowsLatest(u, Start(clock, store), es, key, m, t)
  {
    hide Exec, Step, WithinSlack, Recent, Adds, Paced, Latest, PublishedThisRound, InRound, Waiting, KeptUp,
         ShowsLatest;
    var t0 := Start(clock, store);
    ExecPrefix(u, t0, es, m);
    KeptUpPrefix(u, es, b, key, m);
    StaysRecent(u, clock, store, es[..m], b, key);
    StaysAdding(u, clock, store, es[..m]);
    assert es[..m][b..] == es[b..m];
    LatestSince(u.config, es[..m], b, key);
    var s := Exec(u, t0, es[..m]).value;
    if InRound(s) || Waiting(s.phase) {
      StillLive(u, s, Paced(u, es[..m]), Latest(u.config, es[..m], key).value,
                PublishedThisRound(u.config, es[..m], key), es[m], expire, refresh);
    }
    StaysLive(u, clock, store, es, key, expire, m, t);
  }

  // ---- the default schedule ----------------------------------------------------------------------------------

  /** Every round takes at most a quarter of the expiry, and every wait returns less than a twentieth of it late. */
  predicate Quarterly(u: Setup, s: State, p: Pace, t: int, expire: nat) {
    && (InRound(s) ==> 4 * (t - p.roundStart) <= expire * SEC)
    && (Waiting(s.phase) ==> 20 * (t - RefreshDue(u, p)) < expire * SEC)
  }

  ghost predicate QuarterlyRun(u: Setup, t0: State, es: seq<Event>, expire: nat) {
    forall k :: 0 <= k < |es| ==>
      Exec(u, t0, es[..k]).Some? && Quarterly(u, Exec(u, t0, es[..k]).value, Paced(u, es[..k]), es[k].at, expire)
  }

  predicate QuarterKept(s: State, p: Pace, expire: nat) {
    && (InRound(s) ==> 4 * p.prevBusy <= expire * SEC && (p.prevLate == 0 || 20 * p.prevLate < expire * SEC))
    && (Waiting(s.phase) ==> 4 * p.busy <= expire * SEC)
    && (s.phase.Creating? || s.phase.Announcing? ==> p.prevBusy == 0 && p.prevLate == 0)
  }

  lemma QuarterStep(u: Setup, s: State, e: Event, p: Pace, expire: nat)
    requires Step(u, s, e).Some? && QuarterKept(s, p, expire) && Quarterly(u, s, p, e.at, expire)
    ensures QuarterKept(Step(u, s, e).value, PaceThen(u, p, e), expire)
  {
    hide EnumerateAll, RefreshOne, Wake, DeadlineToAlarmClock, NextWatchdog;
  }

  lemma {:induction false} StaysQuarterly(u: Setup, clock: int, store: Store, es: seq<Event>, expire: nat)
    requires Exec(u, Start(clock, store), es).Some? && QuarterlyRun(u, Start(clock, store), es, expire)
    ensures QuarterKept(Exec(u, Start(clock, store), es).value, Paced(u, es), expire)
  {
    hide Step, PaceThen, QuarterKept, Quarterly;
    if es == [] {
      QuarterAtStart(u, clock, store, expire);
    } else {
      var front, e := es[..|es| - 1], es[|es| - 1];
      assert forall k :: 0 <= k < |front| ==> front[..k] == es[..k] && front[k] == es[k];
      StaysQuarterly(u, clock, store, front, expire);
      QuarterStep(u, Exec(u, Start(clock, store), front).value, e, Paced(u, front), expire);
    }
  }

  lemma QuarterAtStart(u: Setup, clock: int, store: Store, expire: nat)
    ensures QuarterKept(Start(clock, store), Paced(u, []), expire)
  {
  }

  /** With the default refresh, rounds of up to a quarter of the expiry and waits that return less than a twentieth of
      it late are always fast enough. */
  lemma DefaultScheduleIsTimely(u: Setup, clock: int, store: Store, es: seq<Event>, expire: nat)
    requires 0 < expire < U32
    requires u.config.expireSeconds == Some(expire) && u.config.refreshSeconds == Some(RefreshOf(expire, None))
    requires Exec(u, Start(clock, store), es).Some? && QuarterlyRun(u, Start(clock, store), es, expire)
    ensures Timely(u, Start(clock, store), es, 0, (expire - RefreshOf(expire, None)) * SEC)
  {
    hide Exec, Step, RefreshOf, Paced, QuarterKept, Quarterly, WithinSlack;
    var t0 := Start(clock, store);
    forall k | 0 <= k < |es|
      ensures WithinSlack(u, Exec(u, t0, es[..k]).value, Paced(u, es[..k]), es[k].at,
                          (expire - RefreshOf(expire, None)) * SEC)
    {
      assert forall j :: 0 <= j < k ==> es[..k][..j] == es[..j] && es[..k][j] == es[j];
      ExecPrefix(u, t0, es, k);
      StaysQuarterly(u, clock, store, es[..k], expire);
      DefaultSchedule(expire);
      QuarterFits(u, Exec(u, t0, es[..k]).value, Paced(u, es[..k]), es[k].at, expire, RefreshOf(expire, None));
    }
  }

  lemma QuarterFits(u: Setup, s: State, p: Pace, t: int, expire: nat, refresh: nat)
    requires 0 < expire && refresh == 9 * expire / 20
    requires QuarterKept(s, p, expire) && Quarterly(u, s, p, t, expire)
    ensures WithinSlack(u, s, p, t, (expire - refresh) * SEC)
  {
    assert 20 * refresh <= 9 * expire;
  }
}
