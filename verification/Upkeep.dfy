/** The keys of live containers never lapse: from what becomes of a container in every round, or what its environment
    says, to what clients see. */
module Upkeep {
  import opened Wrappers
  import opened Common
  import opened Arguments
  import opened DomainSpecs
  import opened DockerInspector
  import opened JsonSerializer
  import opened Redis
  import opened Refresh
  import opened Machine
  import opened Registration
  import Rounds

  // ---- a container that is there, and served, in every round ------------------------------------

  /** No containers are being refreshed; a container that turns up now is in time for all rounds to come. */
  predicate OutsideRefresh(p: Phase) {
    !p.Refreshing? && !p.EnteringWait?
  }

  ghost predicate Joins(u: Setup, t0: State, es: seq<Event>, b: nat) {
    b <= |es| && Exec(u, t0, es[..b]).Some? && OutsideRefresh(Exec(u, t0, es[..b]).value.phase)
  }

  /** Enumeration or not, the round covers the container. */
  predicate Covers(u: Setup, e: Event, name: string) {
    e.Enumerated? ==> name in u.explicit || (u.config.enumerate && e.found.Ok? && name in e.found.value)
  }

  ghost predicate AlwaysCovered(u: Setup, es: seq<Event>, b: nat, name: string) {
    forall k :: b <= k < |es| ==> Covers(u, es[k], name)
  }

  /** `e` refreshes the container. */
  predicate Refreshes(s: State, e: Event, name: string) {
    s.phase.Refreshing? && s.phase.todo != [] && s.phase.todo[0].todo == name && e.Refreshed?
  }

  /** When it is the container's turn, it is inspected and published under `host`. */
  predicate Serves(u: Setup, s: State, e: Event, name: string, host: string) {
    Refreshes(s, e, name) ==>
      var fate := FateOf(u.config, e.inspected, e.answer);
      fate.Published? && fate.p.host == host
  }

  ghost predicate AlwaysServed(u: Setup, t0: State, es: seq<Event>, b: nat, name: string, host: string) {
    forall k :: b <= k < |es| ==>
      Exec(u, t0, es[..k]).Some? && Serves(u, Exec(u, t0, es[..k]).value, es[k], name, host)
  }

  // ---- in whatever order the containers are drained ------------------------------------------------

  /** While a round goes on, the container has been published, or its turn is yet to come. */
  ghost predicate DoneOrToDo(s: State, name: string, published: bool) {
    && (s.phase.Refreshing? ==> published || exists j :: 0 <= j < |s.phase.todo| && s.phase.todo[j].todo == name)
    && (s.phase.EnteringWait? ==> published)
  }

  lemma DoneOrToDoStep(u: Setup, s: State, e: Event, published: bool, name: string, host: string)
    requires Step(u, s, e).Some? && Covers(u, e, name) && Serves(u, s, e, name, host) && DoneOrToDo(s, name, published)
    ensures DoneOrToDo(Step(u, s, e).value, name,
                       PublishedThen(u.config, published, e, ServiceKey(u.config.keyPrefix, host)))
    ensures e.WaitEntered? ==> published
  {
    hide Wake, DeadlineToAlarmClock, NextWatchdog, FateOf, Drains, EnumerateAll, RefreshOne, ServiceKey;
    if s.phase.Enumerating? && e.Enumerated? {
      CoveredIsToDo(u, s, e, name);
    } else if s.phase.Refreshing? && s.phase.todo != [] && !e.SignalSent? {
      ServedIsDone(u, s, e, name, host);
    }
  }

  lemma CoveredIsToDo(u: Setup, s: State, e: Event, name: string)
    requires EnumerateAll(u, s, e).Some? && Covers(u, e, name)
    ensures exists j :: 0 <= j < |e.names| && e.names[j].todo == name
  {
    NamesOfARound(u.config, u.explicit, e.found, e.names);
  }

  lemma ServedIsDone(u: Setup, s: State, e: Event, name: string, host: string)
    requires s.phase.Refreshing? && s.phase.todo != [] && RefreshOne(u, s, e).Some? && Serves(u, s, e, name, host)
    ensures s.phase.todo[0].todo == name ==>
              PublishingBy(u.config, e).Some?
                && PublishingBy(u.config, e).value.key == ServiceKey(u.config.keyPrefix, host)
    ensures forall j :: 0 < j < |s.phase.todo| ==> s.phase.todo[1..][j - 1] == s.phase.todo[j]
  {
    hide FateOf;
  }

  ghost predicate PublishedSince(config: Config, es: seq<Event>, b: nat, key: string)
    requires b <= |es|
  {
    PublishedThisRound(config, es, key) && Latest(config, es[b..], key).Some?
  }

  /** From event `b` on, every completed round publishes to `key`. */
  ghost predicate Completes(config: Config, es: seq<Event>, b: nat, key: string) {
    forall k :: b <= k < |es| && es[k].WaitEntered? ==> PublishedSince(config, es[..k], b, key)
  }

  lemma OneMoreSince(config: Config, es: seq<Event>, b: nat, key: string)
    requires b < |es|
    ensures PublishedThen(config, PublishedSince(config, es[..|es| - 1], b, key), es[|es| - 1], key) ==>
              PublishedSince(config, es, b, key)
  {
    hide PublishingBy;
    assert es[b..][..|es| - 1 - b] == es[..|es| - 1][b..];
  }

  lemma CompletesMore(config: Config, es: seq<Event>, b: nat, key: string)
    requires b < |es| && Completes(config, es[..|es| - 1], b, key)
    requires es[|es| - 1].WaitEntered? ==> PublishedSince(config, es[..|es| - 1], b, key)
    ensures Completes(config, es, b, key)
  {
    hide PublishedSince;
    assert forall k :: b <= k < |es| - 1 ==> es[..|es| - 1][..k] == es[..k] && es[..|es| - 1][k] == es[k];
  }

  /** A container that every round from event `b` on covers, and serves under one host, is published in every round
      that is completed. */
  lemma {:induction false} ServedIsKeptUp(u: Setup, clock: int, store: Store, es: seq<Event>, b: nat,
                                          name: string, host: string)
    requires Exec(u, Start(clock, store), es).Some? && Joins(u, Start(clock, store), es, b)
    requires AlwaysCovered(u, es, b, name) && AlwaysServed(u, Start(clock, store), es, b, name, host)
    ensures var key := ServiceKey(u.config.keyPrefix, host);
            && DoneOrToDo(Exec(u, Start(clock, store), es).value, name, PublishedSince(u.config, es, b, key))
            && Completes(u.config, es, b, key)
    decreases |es|
  {
    hide Step, PublishedThen, Covers, Serves, DoneOrToDo, ServiceKey, OutsideRefresh, PublishedSince, Completes;
    var t0, key := Start(clock, store), ServiceKey(u.config.keyPrefix, host);
    if |es| == b {
      assert es[..b] == es;
      NothingToDo(u.config, Exec(u, t0, es).value, name, PublishedSince(u.config, es, b, key));
      NothingCompleted(u.config, es, b, key);
    } else {
      var front, e := es[..|es| - 1], es[|es| - 1];
      assert front[..b] == es[..b];
      assert forall k :: b <= k < |front| ==> front[..k] == es[..k] && front[k] == es[k];
      ServedIsKeptUp(u, clock, store, front, b, name, host);
      var published := PublishedSince(u.config, front, b, key);
      DoneOrToDoStep(u, Exec(u, t0, front).value, e, published, name, host);
      OneMoreSince(u.config, es, b, key);
      DoneIsDone(Exec(u, t0, es).value, name, PublishedThen(u.config, published, e, key),
                 PublishedSince(u.config, es, b, key));
      CompletesMore(u.config, es, b, key);
    }
  }

  lemma NothingToDo(config: Config, s: State, name: string, published: bool)
    requires OutsideRefresh(s.phase)
    ensures DoneOrToDo(s, name, published)
  {
  }

  lemma NothingCompleted(config: Config, es: seq<Event>, b: nat, key: string)
    requires |es| == b
    ensures Completes(config, es, b, key)
  {
  }

  lemma DoneIsDone(s: State, name: string, p: bool, q: bool)
    requires DoneOrToDo(s, name, p) && (p ==> q)
    ensures DoneOrToDo(s, name, q)
  {
  }

  // ---- no lapse ----------------------------------------------------------------------------------------

  /** The latest of more is there if there is a latest. */
  lemma {:induction false} LatestStays(config: Config, es: seq<Event>, k: nat, key: string)
    requires k <= |es| && Latest(config, es[..k], key).Some?
    ensures Latest(config, es, key).Some?
    decreases |es|
  {
    hide PublishingBy;
    if |es| == k {
      assert es[..k] == es;
    } else {
      assert es[..|es| - 1][..k] == es[..k];
      LatestStays(config, es[..|es| - 1], k, key);
    }
  }

  /** Between events `b` and `m` a round has been completed, or the key has been published anyway. */
  ghost predicate HasBegun(config: Config, es: seq<Event>, b: nat, m: nat, key: string)
    requires b <= m <= |es|
  {
    Latest(config, es[b..m], key).Some? || exists k :: b <= k < m && es[k].WaitEntered?
  }

  lemma HasBegunIs(config: Config, es: seq<Event>, b: nat, m: nat, key: string)
    requires b <= m <= |es| && HasBegun(config, es, b, m, key) && Completes(config, es, b, key)
    ensures Latest(config, es[b..m], key).Some?
  {
    hide Latest, PublishedThisRound;
    if Latest(config, es[b..m], key).None? {
      var k :| b <= k < m && es[k].WaitEntered?;
      assert es[..k][b..] == es[b..k] == es[b..m][..k - b];
      LatestStays(config, es[b..m], k - b, key);
    }
  }

  lemma CompletesIsKeptUp(u: Setup, es: seq<Event>, b: nat, key: string)
    requires Completes(u.config, es, b, key)
    ensures KeptUp(u, es, b, key)
  {
    hide Latest, PublishedThisRound;
  }

  /** The key of a container that every round from event `b` on covers, inspects and publishes under one host is live at
      every moment from its first publication on, whatever the store held before and in whatever order rounds drain
      their containers, as long as adjacent rounds and late returns from waiting stay within what expiry leaves of the
      refresh interval. */
  lemma NoLapse(u: Setup, clock: int, store: Store, es: seq<Event>, b: nat, name: string, host: string,
                expire: nat, refresh: nat, m: nat, t: int)
    requires u.config.expireSeconds == Some(expire) && u.config.refreshSeconds == Some(refresh)
    requires Exec(u, Start(clock, store), es).Some? && Joins(u, Start(clock, store), es, b)
    requires AlwaysCovered(u, es, b, name) && AlwaysServed(u, Start(clock, store), es, b, name, host)
    requires Timely(u, Start(clock, store), es, b, (expire - refresh) * SEC)
    requires b <= m < |es| && HasBegun(u.config, es, b, m, ServiceKey(u.config.keyPrefix, host)) && t <= es[m].at
    ensures ShowsLatest(u, Start(clock, store), es, ServiceKey(u.config.keyPrefix, host), m, t)
  {
    hide Exec, Joins, Timely, AlwaysCovered, AlwaysServed, ServiceKey, DoneOrToDo, HasBegun, Completes, KeptUp,
         ShowsLatest;
    var key := ServiceKey(u.config.keyPrefix, host);
    ServedIsKeptUp(u, clock, store, es, b, name, host);
    HasBegunIs(u.config, es, b, m, key);
    CompletesIsKeptUp(u, es, b, key);
    KeyNeverLapses(u, clock, store, es, b, key, expire, refresh, m, t);
  }

  /** With the default refresh nothing lapses if rounds take up to a quarter of the expiry, and waits return less than a
      twentieth of it late. */
  lemma NoLapseByDefault(u: Setup, clock: int, store: Store, es: seq<Event>, b: nat, name: string, host: string,
                         expire: nat, m: nat, t: int)
    requires 0 < expire < U32
    requires u.config.expireSeconds == Some(expire) && u.config.refreshSeconds == Some(RefreshOf(expire, None))
    requires Exec(u, Start(clock, store), es).Some? && Joins(u, Start(clock, store), es, b)
    requires AlwaysCovered(u, es, b, name) && AlwaysServed(u, Start(clock, store), es, b, name, host)
    requires QuarterlyRun(u, Start(clock, store), es, expire)
    requires b <= m < |es| && HasBegun(u.config, es, b, m, ServiceKey(u.config.keyPrefix, host)) && t <= es[m].at
    ensures ShowsLatest(u, Start(clock, store), es, ServiceKey(u.config.keyPrefix, host), m, t)
  {
    hide Exec, Joins, Timely, AlwaysCovered, AlwaysServed, QuarterlyRun, HasBegun, ShowsLatest, RefreshOf;
    DefaultScheduleIsTimely(u, clock, store, es, expire);
    TimelySince(u, Start(clock, store), es, b, (expire - RefreshOf(expire, None)) * SEC);
    NoLapse(u, clock, store, es, b, name, host, expire, RefreshOf(expire, None), m, t);
  }

  lemma TimelySince(u: Setup, t0: State, es: seq<Event>, b: nat, slack: int)
    requires Timely(u, t0, es, 0, slack)
    ensures Timely(u, t0, es, b, slack)
  {
    hide Exec, WithinSlack, Paced;
  }

  // ---- from environments to clients, over whole runs -----------------------------------------------------

  /** Whichever container's turn it is, its inspection makes what it does of whatever docker replies. */
  ghost predicate Inspects(u: Setup, s: State, e: Event) {
    s.phase.Refreshing? && s.phase.todo != [] && e.Refreshed? ==> Answered(u.config, s.phase.todo[0].todo, e.inspected)
  }

  /** When it is the container's turn, its environment spells out `lists`, and publishing succeeds. */
  ghost predicate Spelled(u: Setup, s: State, e: Event, name: string, lists: seq<seq<DomainSpec>>) {
    Refreshes(s, e, name) ==>
      && e.answer.Ok?
      && exists ip, env :: && Rounds.EnvSpells(u.config.envvar, env, lists)
                           && e.inspected == Inspected(u.config.dockerNetwork, u.config.envvar, name,
                                                       Ok(Container(ip, Some(env))))
  }

  ghost predicate AlwaysSpelled(u: Setup, t0: State, es: seq<Event>, b: nat, name: string,
                                lists: seq<seq<DomainSpec>>) {
    forall k :: b <= k < |es| ==>
      && Exec(u, t0, es[..k]).Some?
      && Inspects(u, Exec(u, t0, es[..k]).value, es[k])
      && Spelled(u, Exec(u, t0, es[..k]).value, es[k], name, lists)
  }

  lemma SpelledIsPublished(u: Setup, s: State, e: Event, name: string, lists: seq<seq<DomainSpec>>)
    requires Spelled(u, s, e, name, lists) && Refreshes(s, e, name)
    requires lists != [] && !u.config.dryRun && u.config.dockerNetwork
    ensures FateOf(u.config, e.inspected, e.answer) == Published(Publication(name, Rounds.Concat(lists)))
    ensures PortsFit(Rounds.Concat(lists))
  {
    hide Inspected, Rounds.EnvSpells, PortsFit;
    var ip, env :| && Rounds.EnvSpells(u.config.envvar, env, lists)
                   && e.inspected == Inspected(u.config.dockerNetwork, u.config.envvar, name,
                                               Ok(Container(ip, Some(env))));
    Rounds.WrittenIsInspected(u.config.dockerNetwork, u.config.envvar, name, ip, env, lists);
    Rounds.WrittenPortsFit(u.config.envvar, env, lists);
  }

  lemma SpelledIsServed(u: Setup, t0: State, es: seq<Event>, b: nat, name: string, lists: seq<seq<DomainSpec>>)
    requires AlwaysSpelled(u, t0, es, b, name, lists) && lists != [] && !u.config.dryRun && u.config.dockerNetwork
    ensures AlwaysServed(u, t0, es, b, name, name)
  {
    hide Exec, Inspects, Spelled, Refreshes, FateOf;
    forall k | b <= k < |es|
      ensures Exec(u, t0, es[..k]).Some? && Serves(u, Exec(u, t0, es[..k]).value, es[k], name, name)
    {
      if Refreshes(Exec(u, t0, es[..k]).value, es[k], name) {
        SpelledIsPublished(u, Exec(u, t0, es[..k]).value, es[k], name, lists);
      }
    }
  }

  /** On the network nobody else writes to a container's key. */
  lemma OnlyWriter(u: Setup, s: State, e: Event, name: string, lists: seq<seq<DomainSpec>>)
    requires Step(u, s, e).Some? && Inspects(u, s, e) && Spelled(u, s, e, name, lists)
    requires lists != [] && !u.config.dryRun && u.config.dockerNetwork
    requires PublishingBy(u.config, e).Some?
    requires PublishingBy(u.config, e).value.key == ServiceKey(u.config.keyPrefix, name)
    ensures PublishingBy(u.config, e).value.value == ValueOf(u.config, Publication(name, Rounds.Concat(lists)))
    ensures PortsFit(Rounds.Concat(lists))
  {
    hide ServiceKey, ValueOf, Rounds.EnvSpells, Inspected, PortsFit, Step, Spelled, Rounds.Concat;
    OnlyRefreshesPublish(u, s, e);
    var other := s.phase.todo[0].todo;
    var reply :| e.inspected == Inspected(u.config.dockerNetwork, u.config.envvar, other, reply);
    NetworkHost(u.config.envvar, other, reply);
    KeysOfHostsDiffer(u.config.keyPrefix, other, name);
    SpelledIsPublished(u, s, e, name, lists);
  }

  lemma OnlyRefreshesPublish(u: Setup, s: State, e: Event)
    requires Step(u, s, e).Some? && PublishingBy(u.config, e).Some?
    ensures s.phase.Refreshing? && s.phase.todo != [] && e.Refreshed?
  {
    hide FateOf, EnumerateAll, Wake, EnterWait, DeadlineToAlarmClock, NextWatchdog;
  }

  lemma NetworkHost(envvar: string, name: string, reply: Result<Container, int>)
    ensures Inspected(true, envvar, name, reply).Ok? ==> Inspected(true, envvar, name, reply).value.host == name
  {
    hide Answer, Pushed, AllValues, Mentions;
  }

  /** What is written to the key from event `b` on is always the same. */
  lemma {:induction false} LatestIsSpelled(u: Setup, t0: State, es: seq<Event>, b: nat, name: string,
                                           lists: seq<seq<DomainSpec>>, n: nat)
    requires b <= n <= |es| && Exec(u, t0, es).Some? && AlwaysSpelled(u, t0, es, b, name, lists)
    requires lists != [] && !u.config.dryRun && u.config.dockerNetwork
    requires Latest(u.config, es[b..n], ServiceKey(u.config.keyPrefix, name)).Some?
    ensures Latest(u.config, es[b..n], ServiceKey(u.config.keyPrefix, name)).value.value ==
            ValueOf(u.config, Publication(name, Rounds.Concat(lists)))
    ensures PortsFit(Rounds.Concat(lists))
    decreases n
  {
    hide Exec, Step, PublishingBy, Inspects, Spelled, ServiceKey, ValueOf, Rounds.Concat, PortsFit;
    if n == b {
      assert false;
    } else {
      var key := ServiceKey(u.config.keyPrefix, name);
      assert es[b..n][..n - 1 - b] == es[b..n - 1];
      var p := PublishingBy(u.config, es[n - 1]);
      if p.Some? && p.value.key == key {
        ExecPrefix(u, t0, es, n - 1);
        OnlyWriter(u, Exec(u, t0, es[..n - 1]).value, es[n - 1], name, lists);
      } else {
        LatestIsSpelled(u, t0, es, b, name, lists, n - 1);
      }
    }
  }

  /** On a docker network, a container that every round from event `b` on covers, and whose environment spells out some
      specs in the documented format, is served: at every moment from its first publication on a client reads exactly
      these specs under its name, as long as rounds and waits are on time. */
  lemma WrittenNeverLapses(u: Setup, clock: int, store: Store, es: seq<Event>, b: nat, name: string,
                           lists: seq<seq<DomainSpec>>, expire: nat, refresh: nat, m: nat, t: int)
    requires u.config.expireSeconds == Some(expire) && u.config.refreshSeconds == Some(refresh)
    requires !u.config.dryRun && u.config.dockerNetwork
    requires Exec(u, Start(clock, store), es).Some? && Joins(u, Start(clock, store), es, b)
    requires AlwaysCovered(u, es, b, name) && AlwaysSpelled(u, Start(clock, store), es, b, name, lists)
    requires lists != [] && !SomePortZero(Rounds.Concat(lists))
    requires Timely(u, Start(clock, store), es, b, (expire - refresh) * SEC)
    requires b <= m < |es| && HasBegun(u.config, es, b, m, ServiceKey(u.config.keyPrefix, name)) && t <= es[m].at
    ensures Shows(u, Start(clock, store), es, m, t, name, WithIds(Rounds.Concat(lists)))
  {
    hide Exec, Joins, Timely, AlwaysCovered, AlwaysServed, AlwaysSpelled, ServiceKey, HasBegun, Completes, DoneOrToDo,
         ValueOf, SomePortZero, WithIds, PortsFit, Rounds.Concat, Read, InRound, Waiting, Latest, Live;
    var t0, key, n := Start(clock, store), ServiceKey(u.config.keyPrefix, name), Seen(es, m, t);
    SpelledIsServed(u, t0, es, b, name, lists);
    NoLapse(u, clock, store, es, b, name, name, expire, refresh, m, t);
    ServedIsKeptUp(u, clock, store, es, b, name, name);
    HasBegunIs(u.config, es, b, m, key);
    assert es[b..n][..m - b] == es[b..m];
    LatestStays(u.config, es[b..n], m - b, key);
    assert es[..n][b..] == es[b..n];
    LatestSince(u.config, es[..n], b, key);
    LatestIsSpelled(u, t0, es, b, name, lists, n);
    ValueIsRead(u.config, Publication(name, Rounds.Concat(lists)));
  }

  /** At time `t`, while event `m` goes on, a client that looks up `host` reads `served`. */
  ghost predicate Shows(u: Setup, t0: State, es: seq<Event>, m: nat, t: int, host: string,
                        served: seq<(string, DomainSpec)>)
    requires m < |es|
  {
    var key := ServiceKey(u.config.keyPrefix, host);
    var before, now := Exec(u, t0, es[..m]), Exec(u, t0, es[..Seen(es, m, t)]);
    && before.Some? && now.Some?
    && (InRound(before.value) || Waiting(before.value.phase) ==>
          key in Live(now.value.store, t) && Read(Live(now.value.store, t)[key], host) == Some(served))
  }
}
