/** What refreshing a container does to the store and the errors, said in terms of its inspection, the server's answer
    and the configuration alone. */
module RefreshMeaning {
  import opened Wrappers
  import opened Common
  import opened DomainSpecs
  import opened DockerInspector
  import opened InspectionMeaning
  import opened JsonSerializer
  import opened Redis
  import opened Refresh
  import opened Machine

  /** The container could be inspected and has the variable, this is no dry run, and the server said yes. */
  predicate Publishes(config: Config, inspected: Result<Inspection, InspectionError>,
                      answer: Result<(), PublishingError>) {
    inspected.Ok? && inspected.value.envvarPresent && !config.dryRun && answer.Ok?
  }

  /** The store once a publication has been written at time `at`. */
  function Written(config: Config, store: Store, host: string, specs: seq<DomainSpec>, at: int): Store {
    var docs := DomainDocs(host, specs);
    store[config.keyPrefix + host :=
      if config.expireSeconds.Some?
      then Entry(Encoded(Array(docs)), Some(at + config.expireSeconds.value * 1_000_000_000))
      else Entry(Bare(docs), None)]
  }

  /** The errors that a refresh adds. */
  function Complaints(config: Config, name: Pending<string>, inspected: Result<Inspection, InspectionError>,
                      answer: Result<(), PublishingError>): seq<CompanionError>
  {
    if inspected.Err? then
      if name.explicit || config.missingContainer == ReportMissing then [FailedInspection(inspected.error)] else []
    else if !inspected.value.envvarPresent then
      if config.missingEnvvar == Report || (config.missingEnvvar == Automatic && name.explicit)
      then [EnvVarMissing(name.todo, config.envvar)] else []
    else if !config.dryRun && answer.Err? then [FailedPublishing(answer.error)]
    else []
  }

  /** A refresh writes to the store if and only if the container could be inspected, has the variable, this is
      no dry run and the server says yes; it writes the container's documents under the prefix and its host,
      and nothing else. */
  lemma RefreshDoes(u: Setup, s: State, e: Event)
    requires Step(u, s, e).Some? && e.Refreshed?
    ensures s.phase.Refreshing? && s.phase.todo != [] && Step(u, s, e).value.phase == Refreshing(s.phase.todo[1..])
    ensures Step(u, s, e).value.store ==
            if Publishes(u.config, e.inspected, e.answer)
            then Written(u.config, s.store, e.inspected.value.host, e.inspected.value.specs, e.stored)
            else s.store
    ensures Step(u, s, e).value.errors == s.errors + Complaints(u.config, s.phase.todo[0], e.inspected, e.answer)
  {
    hide Wake, EnumerateAll, EnterWait, DomainDocs;
  }

  lemma OnlyRefreshesWrite(u: Setup, s: State, e: Event)
    requires Step(u, s, e).Some? && !e.Refreshed?
    ensures Step(u, s, e).value.store == s.store
  {
    hide Wake, EnumerateAll, RefreshOne, EnterWait, DeadlineToAlarmClock, NextWatchdog;
  }

  /** A run in which nothing is published leaves the store as it was. */
  lemma {:induction false} UnpublishedIsUnchanged(u: Setup, clock: int, store: Store, es: seq<Event>)
    requires Exec(u, Start(clock, store), es).Some?
    requires forall k :: 0 <= k < |es| && es[k].Refreshed? ==> !Publishes(u.config, es[k].inspected, es[k].answer)
    ensures Exec(u, Start(clock, store), es).value.store == store
  {
    hide Step, Publishes, Written;
    if es == [] {
    } else {
      var front, e := es[..|es| - 1], es[|es| - 1];
      UnpublishedIsUnchanged(u, clock, store, front);
      var s := Exec(u, Start(clock, store), front).value;
      if e.Refreshed? {
        RefreshDoes(u, s, e);
      } else {
        OnlyRefreshesWrite(u, s, e);
      }
    }
  }

  /** A dry run never changes the store, however long it runs and whatever it finds. */
  lemma DryRunChangesNothing(u: Setup, clock: int, store: Store, es: seq<Event>)
    requires u.config.dryRun && Exec(u, Start(clock, store), es).Some?
    ensures Exec(u, Start(clock, store), es).value.store == store
  {
    hide Exec;
    UnpublishedIsUnchanged(u, clock, store, es);
  }

  /** A container that docker does not answer for, or with a bad option in some line with the variable, is not
      published, specs before the bad option included; and the failure is reported if the container is listed or missing
      containers are errors. */
  lemma BadIsNotPublished(u: Setup, s: State, e: Event, reply: Result<Container, int>)
    requires Step(u, s, e).Some? && e.Refreshed? && s.phase.Refreshing? && s.phase.todo != []
    requires e.inspected == Inspected(u.config.dockerNetwork, u.config.envvar, s.phase.todo[0].todo, reply)
    requires reply.Ok? ==> !NoBadLine(u.config.envvar, Lines(reply.value), |Lines(reply.value)|)
    ensures e.inspected.Err? && Step(u, s, e).value.store == s.store
    ensures Step(u, s, e).value.errors ==
            s.errors + if s.phase.todo[0].explicit || u.config.missingContainer == ReportMissing
                       then [FailedInspection(e.inspected.error)] else []
  {
    hide Step, Inspected, NoBadLine, Written;
    InspectionMeans(u.config.dockerNetwork, u.config.envvar, s.phase.todo[0].todo, reply);
    RefreshDoes(u, s, e);
  }
}
