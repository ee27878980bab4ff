/** Whole refresh rounds against a fixed environment, and the way of a domain spec from a container to a client. */
module Rounds {
  import opened Wrappers
  import opened Common
  import opened DomainSpecs
  import opened Rendering
  import opened DockerInspector
  import opened JsonSerializer
  import opened Redis
  import opened Refresh
  import opened Machine

  function Values(store: Store): map<string, Value> {
    map key | key in store :: store[key].value
  }

  /** An event of the round that does as the oracles say. */
  predicate AsTold(o: Oracles, name: string, e: Event) {
    && e.Refreshed? && e.inspected == o.inspect(name)
    && (e.inspected.Ok? ==> e.answer == o.publish(Publication(e.inspected.value.host, e.inspected.value.specs)))
  }

  /** `es` refreshes containers from state `s` on, as the oracles say; signals may arrive in between. */
  ghost predicate Follows(u: Setup, s: State, es: seq<Event>, o: Oracles) {
    forall k :: 0 <= k < |es| ==>
      && Exec(u, s, es[..k]).Some?
      && (es[k].SignalSent? ||
          (var p := Exec(u, s, es[..k]).value.phase; p.Refreshing? && p.todo != [] && AsTold(o, p.todo[0].todo, es[k])))
  }

  /** How far a round has come: `n` of `names` are done, and it shows. */
  ghost predicate Done(u: Setup, s: State, t: State, o: Oracles, names: seq<Pending<string>>, n: nat) {
    && n <= |names| && t.phase == Refreshing(names[n..])
    && Values(t.store) == RefreshAll(u.config, o, names[..n], Values(s.store))
    && t.errors == s.errors + ErrorsOf(u.config, o, names[..n])
  }

  lemma ToldFate(config: Config, o: Oracles, name: string, e: Event)
    requires AsTold(o, name, e)
    ensures FateOf(config, e.inspected, e.answer) == o.Outcome(config, name)
  {
  }

  lemma ToldInTime(u: Setup, t: State, e: Event)
    requires t.phase.Refreshing? && t.phase.todo != [] && Step(u, t, e).Some? && e.Refreshed?
    ensures t.clock <= e.stored <= e.at
  {
  }

  lemma ValuesAfter(config: Config, o: Oracles, store: Store, name: string, at: int)
    ensures Values(StoreAfter(config, store, o.Outcome(config, name), at)) ==
            Apply(Values(store), Writes(config, o, name))
  {
    hide Oracles.Outcome, ServiceKey, ValueOf;
  }

  lemma DoneStep(u: Setup, s: State, t: State, o: Oracles, names: seq<Pending<string>>, n: nat, e: Event)
    requires Done(u, s, t, o, names, n) && n < |names| && AsTold(o, names[n].todo, e) && Step(u, t, e).Some?
    ensures Done(u, s, Step(u, t, e).value, o, names, n + 1)
  {
    hide Step, Writes, Oracles.Outcome, AsTold, Reports, StoreAfter, FateOf, Values, Apply;
    ToldIsRefreshed(o, names[n].todo, e);
    ToldFate(u.config, o, names[n].todo, e);
    ValuesAfter(u.config, o, t.store, names[n].todo, e.stored);
    ToldInTime(u, t, e);
    StepRefreshed(u, t, e.at, e.stored, e.inspected, e.answer);
    assert names[..n + 1][..n] == names[..n] && names[n..][1..] == names[n + 1..];
  }

  lemma ToldIsRefreshed(o: Oracles, name: string, e: Event)
    requires AsTold(o, name, e)
    ensures e == Refreshed(e.at, e.stored, e.inspected, e.answer)
  {
  }

  /** Refreshing as the oracles say has the effect of `RefreshAll`, and reports the errors of `ErrorsOf`. */
  lemma {:induction false} RoundDoesAll(u: Setup, s: State, es: seq<Event>, o: Oracles, names: seq<Pending<string>>)
    returns (n: nat)
    requires s.phase == Refreshing(names) && Exec(u, s, es).Some? && Follows(u, s, es, o)
    ensures Done(u, s, Exec(u, s, es).value, o, names, n)
  {
    hide Step, Done, AsTold;
    if es == [] {
      n := 0;
      NothingDone(u, s, o, names);
    } else {
      var front, e := es[..|es| - 1], es[|es| - 1];
      assert forall k :: 0 <= k < |front| ==> front[..k] == es[..k] && front[k] == es[k];
      n := RoundDoesAll(u, s, front, o, names);
      var t := Exec(u, s, front).value;
      ExecPrefix(u, s, es, |front|);
      assert es[..|front|] == front;
      if e.SignalSent? {
        SignalChangesNothing(u, s, t, o, names, n, e);
      } else {
        TodoIs(u, s, t, o, names, n);
        DoneStep(u, s, t, o, names, n, e);
        n := n + 1;
      }
    }
  }

  lemma NothingDone(u: Setup, s: State, o: Oracles, names: seq<Pending<string>>)
    requires s.phase == Refreshing(names)
    ensures Done(u, s, s, o, names, 0)
  {
  }

  lemma TodoIs(u: Setup, s: State, t: State, o: Oracles, names: seq<Pending<string>>, n: nat)
    requires Done(u, s, t, o, names, n)
    ensures n <= |names| && t.phase == Refreshing(names[n..])
  {
  }

  lemma SignalChangesNothing(u: Setup, s: State, t: State, o: Oracles, names: seq<Pending<string>>, n: nat, e: Event)
    requires Done(u, s, t, o, names, n) && e.SignalSent? && Step(u, t, e).Some?
    ensures Done(u, s, Step(u, t, e).value, o, names, n)
  {
    hide Values, RefreshAll, ErrorsOf;
  }

  /** Two finished rounds over the same containers, drained in any two orders at any two times, leave the same keys and
      values and report the same errors, if the containers do not clash. */
  lemma RoundOrderDoesNotMatter(u: Setup, o: Oracles, index: map<string, Pending<string>>,
                                s1: State, es1: seq<Event>, names1: seq<Pending<string>>,
                                s2: State, es2: seq<Event>, names2: seq<Pending<string>>)
    requires s1.phase == Refreshing(names1) && s2.phase == Refreshing(names2)
    requires Drains(names1, index) && Drains(names2, index) && NoClash(u.config, o, names1)
    requires Values(s1.store) == Values(s2.store) && s1.errors == s2.errors
    requires Exec(u, s1, es1).Some? && Follows(u, s1, es1, o) && Exec(u, s1, es1).value.phase == Refreshing([])
    requires Exec(u, s2, es2).Some? && Follows(u, s2, es2, o) && Exec(u, s2, es2).value.phase == Refreshing([])
    ensures Values(Exec(u, s1, es1).value.store) == Values(Exec(u, s2, es2).value.store)
    ensures multiset(Exec(u, s1, es1).value.errors) == multiset(Exec(u, s2, es2).value.errors)
  {
    hide Exec, Follows, Drains, NoClash, RefreshAll, ErrorsOf, Values;
    var n1 := RoundDoesAll(u, s1, es1, o, names1);
    var n2 := RoundDoesAll(u, s2, es2, o, names2);
    assert names1[..n1] == names1 && names2[..n2] == names2;
    OrderDoesNotMatter(u.config, o, index, names1, names2, Values(s1.store));
  }

  /** On a docker network the hosts of different containers always differ. */
  lemma NetworkHostsDiffer(o: Oracles, envvar: string, reply: string -> Result<Container, int>,
                           names: seq<Pending<string>>, index: map<string, Pending<string>>)
    requires Drains(names, index) && forall n :: o.inspect(n) == Inspected(true, envvar, n, reply(n))
    ensures HostsDiffer(o, names)
  {
    hide Inspected;
    forall i, j | 0 <= i < j < |names| && o.inspect(names[i].todo).Ok? && o.inspect(names[j].todo).Ok?
      ensures o.inspect(names[i].todo).value.host != o.inspect(names[j].todo).value.host
    {
      NetworkHostsAreDistinct(envvar, names[i].todo, reply(names[i].todo), names[j].todo, reply(names[j].todo));
    }
  }

  // ---- from a container's environment to a client -------------------------------------------------------

  function Concat(lists: seq<seq<DomainSpec>>): seq<DomainSpec> {
    if lists == [] then [] else Concat(lists[..|lists| - 1]) + lists[|lists| - 1]
  }

  lemma {:induction false} SpelledLines(texts: seq<string>, lists: seq<seq<DomainSpec>>)
    requires |texts| == |lists| && forall k :: 0 <= k < |texts| ==> Spells(texts[k], lists[k])
    ensures Answer(BySpaces(texts)) == Ok(()) && Pushed(BySpaces(texts)) == Concat(lists)
  {
    hide Answer, Pushed, Spells, BySpaces;
    if texts == [] {
      NothingFrom();
    } else {
      var last := |texts| - 1;
      SpelledLines(texts[..last], lists[..last]);
      SpelledIsRead(texts[last], lists[last]);
      assert texts == texts[..last] + [texts[last]];
      OneMoreValue(texts[..last], texts[last]);
    }
  }

  /** Each line of an environment that mentions the variable spells out one of `lists`; what the other
      lines say is free. */
  ghost predicate EnvSpells(envvar: string, env: seq<string>, lists: seq<seq<DomainSpec>>) {
    var values := DockerInspector.Values(envvar, env, |env|);
    |values| == |lists| && forall k :: 0 <= k < |values| ==> Spells(values[k], lists[k])
  }

  /** A container whose environment spells out some specs, on as many lines as it likes, is inspected
      to exactly these. */
  lemma WrittenIsInspected(dockerNetwork: bool, envvar: string, name: string, ip: string, env: seq<string>,
                           lists: seq<seq<DomainSpec>>)
    requires EnvSpells(envvar, env, lists)
    ensures var container := Container(ip, Some(env));
            Inspected(dockerNetwork, envvar, name, Ok(container)) ==
            Ok(Inspection(Host(dockerNetwork, name, container), Concat(lists), lists != []))
  {
    hide Answer, Pushed, Spells, BySpaces, Mentions, DockerInspector.Values;
    SpelledLines(DockerInspector.Values(envvar, env, |env|), lists);
    MentionsWhen(envvar, env);
  }

  /** The ports that can be spelled out fit. */
  lemma WrittenPortsFit(envvar: string, env: seq<string>, lists: seq<seq<DomainSpec>>)
    requires EnvSpells(envvar, env, lists)
    ensures PortsFit(Concat(lists))
  {
    hide Pushed, Spells, BySpaces, DockerInspector.Values, Concat;
    var texts := DockerInspector.Values(envvar, env, |env|);
    SpelledLines(texts, lists);
    forall k | 0 <= k < |Concat(lists)|
      ensures ValidPort(Concat(lists)[k].httpPort) && ValidPort(Concat(lists)[k].httpsPort)
    {
      PushedAreValid(BySpaces(texts), k);
    }
  }

  /** And once it is published, and until that expires, a client reads exactly these specs, in order
      and with their ids. */
  lemma WrittenIsServed(config: Config, name: string, ip: string, env: seq<string>, lists: seq<seq<DomainSpec>>,
                        store: Store, now: int, t: int)
    requires EnvSpells(config.envvar, env, lists) && lists != [] && !SomePortZero(Concat(lists))
    requires config.expireSeconds.Some? && !config.dryRun && t < now + config.expireSeconds.value * SEC
    ensures var container := Container(ip, Some(env));
            var host := Host(config.dockerNetwork, name, container);
            var fate := FateOf(config, Inspected(config.dockerNetwork, config.envvar, name, Ok(container)), Ok(()));
            var live := Live(StoreAfter(config, store, fate, now), t);
            var key := ServiceKey(config.keyPrefix, host);
            key in live && Read(live[key], host) == Some(WithIds(Concat(lists)))
  {
    hide Inspected, EnvSpells, Concat, Read, Put, ServiceKey, Live, SomePortZero, WithIds, PortsFit;
    WrittenPortsFit(config.envvar, env, lists);
    WrittenIsInspected(config.dockerNetwork, config.envvar, name, ip, env, lists);
    var container := Container(ip, Some(env));
    PublishedIsRead(config, store, Publication(Host(config.dockerNetwork, name, container), Concat(lists)), now, t);
  }
}
