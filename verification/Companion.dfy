/** The companion itself: the refresh loop, step by step, proved to follow the state machine. What its environment does,
    the clock, signals, docker, the service manager, the server and the choice among ready channels, is left open. */
module Companion {
  import opened Wrappers
  import opened Common
  import opened Binary64
  import opened DockerInspector
  import opened Redis
  import opened Refresh
  import opened Machine
  import opened Watchdog
  import opened Outcomes

  /** Empties an index in some order. */
  method Drain(index: map<string, Pending<string>>) returns (names: seq<Pending<string>>)
    requires forall n :: n in index ==> index[n].todo == n
    ensures Drains(names, index)
  {
    names := [];
    var rest := index;
    ghost var place: map<string, nat> := map[];
    while rest != map[]
      invariant forall n :: n in index <==> n in rest || n in place
      invariant forall n :: n in rest ==> n !in place && rest[n] == index[n]
      invariant forall n :: n in place ==> place[n] < |names| && names[place[n]] == index[n]
      invariant forall k :: 0 <= k < |names| ==> names[k].todo in place && place[names[k].todo] == k
      decreases |rest|
    {
      assert rest.Keys != {};
      var n :| n in rest;
      place := place[n := |names|];
      names := names + [rest[n]];
      rest := rest - {n};
    }
  }

  lemma TargetsAreNamed(config: Config, explicit: seq<string>, found: Result<seq<string>, InspectionError>)
    ensures var index := Targets(config, explicit, found);
            forall n :: n in index ==> index[n].todo == n
  {
  }

  /** Explicitly listed names first; enumerated ones only where there is no entry yet. */
  method Collect(config: Config, explicit: seq<string>, found: Result<seq<string>, InspectionError>)
    returns (index: map<string, Pending<string>>)
    ensures index == Targets(config, explicit, found)
  {
    index := map[];
    for i := 0 to |explicit|
      invariant index == map n | n in explicit[..i] :: Pending(true, n)
    {
      index := index[explicit[i] := Pending(true, explicit[i])];
    }
    if config.enumerate && found.Ok? {
      var more := found.value;
      for i := 0 to |more|
        invariant index == map n | n in explicit + more[..i] :: Pending(n in explicit, n)
      {
        if more[i] !in index {
          index := index[more[i] := Pending(false, more[i])];
        }
      }
    }
  }

  /** How often a run looks for signals before it waits. */
  function Polls(es: seq<Event>): nat {
    if es == [] then 0 else Polls(es[..|es| - 1]) + if es[|es| - 1].Polled? then 1 else 0
  }

  lemma AnsweredBy(config: Config, name: string, reply: Result<Container, int>)
    ensures Answered(config, name, Inspected(config.dockerNetwork, config.envvar, name, reply))
  {
    hide Inspected;
  }

  predicate OnlySignals(es: seq<Event>, from: nat, to: nat)
    requires to <= |es|
  {
    forall k :: from <= k < to ==> es[k].SignalSent?
  }

  /** The program has made one step, which is the last event; until then there were only signals. */
  predicate OneStep(before: seq<Event>, after: seq<Event>) {
    |before| < |after| && before <= after && OnlySignals(after, |before|, |after| - 1)
  }

  lemma NextAlarmIs(config: Config, before: Option<int>, now: int)
    requires config.systemd && config.watchdogMicroseconds.Some?
    ensures var d, next := config.watchdogMicroseconds.value, NextWatchdog(config, before, now);
            && next.Some?
            && (d < 0x2_0000_0000_0000 ==> next == Some(now + 9 * d / 20 * 1000))
            && (d < 0x1_0000_0000_0000_0000 ==> 0 <= 2 * (next.value - now) <= d * 1000)
  {
    hide WatchdogTicks;
    TicksAre(config.watchdogMicroseconds.value);
  }

  class Context {
    const setup: Setup
    const publisher: RedisPublisher
    var nextWatchdog: Option<int>

    // The environment: the time of the latest event, and whether a signal is waiting in the channel.
    var clock: int
    var pending: bool

    // The run so far, and the state of the machine it leads to.
    ghost const begin: State
    ghost var trace: seq<Event>
    ghost var state: State
    ghost var polls: nat

    ghost predicate Valid()
      reads this, publisher
    {
      && publisher.config == setup.config
      && Exec(setup, begin, trace) == Some(state) && polls == Polls(trace)
      && state.clock == clock && state.nextWatchdog == nextWatchdog
      && state.pending == pending && state.store == publisher.store
    }

    constructor (setup: Setup, publisher: RedisPublisher, clock: int)
      requires publisher.config == setup.config
      ensures Valid() && this.setup == setup && this.publisher == publisher && polls == 0
      ensures begin == Start(clock, publisher.store)
      ensures state.phase == if setup.config.systemd then Announcing else Looping
      ensures nextWatchdog == if setup.config.watchdogMicroseconds.Some? then Some(this.clock) else None
      ensures clock <= this.clock && trace == [Created(this.clock)]
    {
      this.setup, this.publisher, this.pending := setup, publisher, false;
      var dt: nat :| 0 <= dt;
      this.clock := clock + dt;
      this.nextWatchdog := if setup.config.watchdogMicroseconds.Some? then Some(clock + dt) else None;
      this.begin := Start(clock, publisher.store);
      this.trace, this.polls := [], 0;
      this.state := Start(clock, publisher.store);
      new;
      StepCreated(setup, state, this.clock);
      Emit(Created(this.clock));
    }

    ghost method Emit(e: Event)
      requires Exec(setup, begin, trace) == Some(state) && polls == Polls(trace) && Step(setup, state, e).Some?
      modifies this`trace, this`state, this`polls
      ensures trace == old(trace) + [e] && polls == Polls(trace) == old(polls) + if e.Polled? then 1 else 0
      ensures state == Step(setup, old(state), e).value && Exec(setup, begin, trace) == Some(state)
    {
      hide Step;
      ExecMore(setup, begin, trace, e);
      state := Step(setup, state, e).value;
      trace := trace + [e];
      assert trace[..|trace| - 1] == old(trace);
      polls := Polls(trace);
    }

    // ---- the environment -----------------------------------------------------------------------

    /** Any number of signals may arrive before the program's next step. */
    method Elapse()
      requires Valid() && !state.phase.Stopped?
      modifies this`clock, this`pending, this`trace, this`state, this`polls
      ensures Valid() && old(trace) <= trace && polls == old(polls) && OnlySignals(trace, |old(trace)|, |trace|)
      ensures state == old(state).(clock := clock, pending := pending) && old(clock) <= clock
    {
      hide Step, Exec, Polls;
      var n: nat :| 0 <= n;
      for i := 0 to n
        invariant Valid() && old(trace) <= trace && polls == old(polls) && OnlySignals(trace, |old(trace)|, |trace|)
        invariant state == old(state).(clock := clock, pending := pending) && old(clock) <= clock
      {
        var dt: nat :| 0 <= dt;
        clock, pending := clock + dt, true;
        StepSignal(setup, state, clock);
        Emit(SignalSent(clock));
      }
    }

    method Time(after: int) returns (t: int)
      ensures after <= t
    {
      var dt: nat :| 0 <= dt;
      t := after + dt;
    }

    /** Waits until one of the channels is ready, and picks any that is. */
    method Select(refresh: Alarm, watchdog: Alarm) returns (t: int, source: Source)
      requires Valid() && state.phase == Selecting(refresh, watchdog) && refresh.After?
      modifies this`clock, this`pending, this`trace, this`state, this`polls
      ensures Valid() && old(trace) <= trace && polls == old(polls)
      ensures state == old(state).(clock := clock, pending := pending)
      ensures clock <= t && match source
                            case BySignal => pending
                            case ByRefresh => refresh.MayFire(t)
                            case ByWatchdog => watchdog.MayFire(t)
    {
      hide Step, Exec, Polls;
      Elapse();
      t := Time(clock);
      var choice: int := *;
      if choice == 0 && pending {
        source := BySignal;
      } else if choice == 1 && watchdog.MayFire(t) {
        source := ByWatchdog;
      } else {
        source := ByRefresh;
        if !refresh.MayFire(t) {
          t := refresh.setAt + refresh.wait;
        }
      }
    }

    // ---- notify_status ----------------------------------------------------------------------------

    /** Sends status and alive ping, and resets the deadline of the next ping, from a clock reading taken before. */
    method NotifyStatus(status: Status, ghost next: Phase)
      requires Valid()
      requires Announces(state.phase, status, next)
      modifies this
      ensures Valid() && OneStep(old(trace), trace) && polls == old(polls) && state.phase == next
      ensures var e := trace[|trace| - 1];
              && e.Notified? && e.status == status && old(clock) <= e.read <= e.at == clock
              && nextWatchdog == NextWatchdog(setup.config, old(nextWatchdog), e.read)
              && (setup.config.systemd && setup.config.watchdogMicroseconds.Some? ==>
                    var d := setup.config.watchdogMicroseconds.value;
                    && (d < 0x2_0000_0000_0000 ==> nextWatchdog == Some(e.read + 9 * d / 20 * 1000))
                    && (d < 0x1_0000_0000_0000_0000 ==> 0 <= 2 * (nextWatchdog.value - e.read) <= d * 1000))
      ensures state.errors == old(state).errors && state.store == old(state).store
    {
      hide Step, Exec, Polls, Announces, NextWatchdog;
      Elapse();
      var now := Time(clock);
      ResetWatchdog(now);
      clock := Time(now);
      StepNotified(setup, state, clock, now, status, next);
      Emit(Notified(clock, now, status));
      if setup.config.systemd && setup.config.watchdogMicroseconds.Some? {
        NextAlarmIs(setup.config, old(nextWatchdog), now);
      }
    }

    /** The deadline of the next ping. A failing call to the service manager is only logged, and
        changes nothing here. */
    method ResetWatchdog(now: int)
      modifies this`nextWatchdog
      ensures nextWatchdog == NextWatchdog(setup.config, old(nextWatchdog), now)
    {
      hide Times45;
      if setup.config.systemd {
        if setup.config.watchdogMicroseconds.Some? {
          nextWatchdog := Some(now + Times45(setup.config.watchdogMicroseconds.value) * US);
        }
      }
    }

    // ---- enumerate ----------------------------------------------------------------------------------

    /** Listed and, if that is on and works, enumerated names, each once; a failing enumeration is
        returned as an error. */
    method Enumerate() returns (names: seq<Pending<string>>, r: Result<(), CompanionError>)
      requires Valid() && state.phase.Enumerating?
      modifies this
      ensures Valid() && OneStep(old(trace), trace) && polls == old(polls) && state.store == old(state).store
      ensures var e := trace[|trace| - 1];
              && e.Enumerated? && Drains(names, Targets(setup.config, setup.explicit, e.found))
              && r == if setup.config.enumerate && e.found.Err? then Err(FailedInspection(e.found.error)) else Ok(())
      ensures state.phase == Refreshing(names) && state.errors == match r case Ok(_) => [] case Err(e) => [e]
    {
      hide Step, Exec, Polls, Drains, Targets;
      Elapse();
      var found: Result<seq<string>, InspectionError> := Answer();
      r := if setup.config.enumerate && found.Err? then Err(FailedInspection(found.error)) else Ok(());
      var index := Collect(setup.config, setup.explicit, found);
      TargetsAreNamed(setup.config, setup.explicit, found);
      names := Drain(index);
      clock := Time(clock);
      StepEnumerated(setup, state, clock, found, names);
      Emit(Enumerated(clock, found, names));
    }

    method Answer() returns (found: Result<seq<string>, InspectionError>)
    {
      found := *;
    }

    // ---- refresh_container ------------------------------------------------------------------------------

    /** Whatever docker replies. */
    method InspectContainer(name: string) returns (inspected: Result<Inspection, InspectionError>)
      ensures Answered(setup.config, name, inspected)
    {
      hide Inspected;
      var reply: Result<Container, int> := *;
      inspected := Inspect(setup.config.dockerNetwork, setup.config.envvar, name, reply);
      AnsweredBy(setup.config, name, reply);
    }

    /** Inspects and publishes one container; appends what counts as an error. One step of the machine. */
    method RefreshContainer(name: Pending<string>, errors: seq<CompanionError>) returns (errors': seq<CompanionError>)
      requires Valid() && state.phase.Refreshing? && state.errors == errors
      requires state.phase.todo != [] && state.phase.todo[0] == name
      modifies this, publisher
      ensures Valid() && OneStep(old(trace), trace) && polls == old(polls)
      ensures var e := trace[|trace| - 1];
              && e.Refreshed? && Answered(setup.config, name.todo, e.inspected)
              && var fate := FateOf(setup.config, e.inspected, e.answer);
                 && errors' == errors + Reports(setup.config, name, fate)
                 && publisher.store == StoreAfter(setup.config, old(publisher.store), fate, e.stored)
      ensures state.phase == Refreshing(old(state).phase.todo[1..]) && state.errors == errors'
    {
      hide Step, Exec, Polls, Answered, FateOf, Reports, StoreAfter;
      Elapse();
      var stored, inspected, answer;
      errors', stored, inspected, answer := InspectAndPublish(name, errors);
      clock := Time(stored);
      StepRefreshed(setup, state, clock, stored, inspected, answer);
      Emit(Refreshed(clock, stored, inspected, answer));
    }

    method InspectAndPublish(name: Pending<string>, errors: seq<CompanionError>)
      returns (errors': seq<CompanionError>, stored: int, inspected: Result<Inspection, InspectionError>,
               answer: Result<(), PublishingError>)
      requires publisher.config == setup.config
      modifies publisher
      ensures clock <= stored && Answered(setup.config, name.todo, inspected)
      ensures var fate := FateOf(setup.config, inspected, answer);
              && errors' == errors + Reports(setup.config, name, fate)
              && publisher.store == StoreAfter(setup.config, old(publisher.store), fate, stored)
    {
      hide Answered, Put;
      var config := setup.config;
      errors' := errors;
      inspected := InspectContainer(name.todo);
      stored := Time(clock);
      answer := Ok(());
      match name.TryMap(inspected) {
        case Err(e) =>
          var considerError;
          if config.missingContainer == ReportMissing {
            considerError := true;
          } else if name.explicit {
            considerError := true;
          } else {
            considerError := false;
          }
          if considerError {
            errors' := errors' + [FailedInspection(e)];
          }
        case Ok(inspection) =>
          if !inspection.todo.envvarPresent {
            if config.missingEnvvar == Report || (inspection.explicit && config.missingEnvvar == Automatic) {
              errors' := errors' + [EnvVarMissing(name.todo, config.envvar)];
            }
          } else {
            var publication := Publication(inspection.todo.host, inspection.todo.specs);
            if !config.dryRun {
              var fault: Option<PublishingError> := *;
              answer := publisher.Publish(publication, stored, fault);
              if answer.Err? {
                errors' := errors' + [FailedPublishing(answer.error)];
              }
            }
          }
      }
    }

    // ---- one round ------------------------------------------------------------------------------------------

    /** The first half of the loop of `run`: notify, enumerate, refresh every container, notify. */
    method RefreshAllContainers() returns (errors: seq<CompanionError>)
      requires Valid() && state.phase.Looping?
      modifies this, publisher
      ensures Valid() && old(trace) <= trace && polls == old(polls)
      ensures state.phase.EnteringWait? && state.errors == errors
    {
      hide Step, Exec, Polls, Valid;
      NotifyStatus(InRefresh, Enumerating);
      errors := [];
      var names, enumResult := Enumerate();
      if enumResult.Err? {
        errors := errors + [enumResult.error];
      }
      for i := 0 to |names|
        invariant Valid() && old(trace) <= trace && polls == old(polls)
        invariant state.phase == Refreshing(names[i..]) && state.errors == errors
      {
        errors := RefreshContainer(names[i], errors);
      }
      NotifyStatus(InWait, EnteringWait);
    }

    // ---- wait ---------------------------------------------------------------------------------------------

    /** Waits for the next refresh. True to go on with another round, false to exit. Goes round at most `budget` times;
        if that does not end the wait, it is `cut` short there, with the run still going. */
    method Wait(budget: nat) returns (again: bool, cut: bool, left: nat)
      requires Valid() && state.phase.EnteringWait?
      modifies this
      ensures Valid() && old(trace) <= trace && polls + left == old(polls) + budget
      ensures state.errors == old(state).errors && state.store == old(state).store
      ensures !cut ==> if again then state.phase == Looping && left < budget else state.phase == Leaving
      ensures !cut && again ==> trace != [] && trace[|trace| - 1] == Woke(clock, ByRefresh)
      ensures !cut && !again ==> setup.config.refreshSeconds.None? || pending
      ensures cut ==> left == 0 && !state.phase.Stopped?
    {
      hide Step, Exec, Polls;
      left, cut := budget, false;
      Elapse();
      clock := Time(clock);
      var startOfWait := clock;
      StepWaitEntered(setup, state, clock);
      Emit(WaitEntered(clock));
      if setup.config.refreshSeconds.None? {
        return false, false, left;
      }
      var nextRefresh := startOfWait + setup.config.refreshSeconds.value * SEC;
      var refreshTimeout := DeadlineToAlarmClock(startOfWait, Some(nextRefresh));
      while true
        invariant Valid() && old(trace) <= trace && polls + left == old(polls) + budget && !cut
        invariant state.phase == Polling(refreshTimeout) && refreshTimeout.After?
        invariant state.errors == old(state).errors && state.store == old(state).store
        decreases left
      {
        if left == 0 {
          return false, true, left;
        }
        var doNext;
        doNext, left := WaitOnce(refreshTimeout, left);
        if doNext == DO_STOP {
          return false, false, left;
        } else if doNext == DO_CONTINUE {
          return true, false, left;
        } else if doNext == DO_PING {
          NotifyStatus(InWait, Polling(refreshTimeout));
        } else {
          assert false;   // the "unexpected state" branch
        }
      }
    }

    static const DO_STOP: int := 0
    static const DO_CONTINUE: int := 1
    static const DO_PING: int := 3

    /** One iteration of the wait loop up to what to do next: signals first, then whichever channel is ready. */
    method WaitOnce(refreshTimeout: Alarm, budget: nat) returns (doNext: int, left: nat)
      requires Valid() && state.phase == Polling(refreshTimeout) && refreshTimeout.After? && budget > 0
      modifies this
      ensures Valid() && old(trace) <= trace && left == budget - 1 && polls == old(polls) + 1
      ensures state.errors == old(state).errors && state.store == old(state).store
      ensures doNext == DO_STOP || doNext == DO_CONTINUE || doNext == DO_PING
      ensures state.phase == if doNext == DO_STOP then Leaving
                             else if doNext == DO_CONTINUE then Looping
                             else Pinging(refreshTimeout)
      ensures doNext == DO_STOP ==> pending
      ensures doNext == DO_CONTINUE ==> trace != [] && trace[|trace| - 1] == Woke(clock, ByRefresh)
    {
      hide Step, Exec, Polls, OnlySignals;
      left := budget - 1;
      Elapse();
      clock := Time(clock);
      StepPolled(setup, state, clock);
      Emit(Polled(clock));
      if pending {
        return DO_STOP, left;
      }
      Elapse();
      clock := Time(clock);
      var watchdogTimeout := DeadlineToAlarmClock(clock, nextWatchdog);
      StepArmed(setup, state, clock);
      Emit(Armed(clock));
      var t, source := Select(refreshTimeout, watchdogTimeout);
      clock := t;
      StepWoke(setup, state, clock, source);
      Emit(Woke(clock, source));
      match source
      case BySignal => doNext := DO_STOP;
      case ByRefresh => doNext := DO_CONTINUE;
      case ByWatchdog => doNext := DO_PING;
    }
  }

  // ---- run --------------------------------------------------------------------------------------------------

  /** The whole run, watched for at most `budget` rounds of the wait loop: its result, if it ends by then. */
  method Run(setup: Setup, publisher: RedisPublisher, clock: int, budget: nat)
    returns (result: Option<Outcome>, ctx: Context)
    requires publisher.config == setup.config
    modifies publisher
    ensures fresh(ctx) && ctx.Valid() && ctx.setup == setup && ctx.begin == old(Start(clock, publisher.store))
    ensures match result
            case None => !ctx.state.phase.Stopped? && Polls(ctx.trace) == budget
            case Some(o) => ctx.state.phase == Stopped(o) && EndsAs(setup, ctx.trace, o)
  {
    hide Step, Exec, Polls, EndsAs;
    ghost var store := publisher.store;
    ctx := new Context(setup, publisher, clock);
    if setup.config.systemd {
      ctx.Elapse();
      ctx.clock := ctx.Time(ctx.clock);
      var failure: Option<int> := *;
      StepAnnounced(setup, ctx.state, ctx.clock, failure);
      ctx.Emit(Announced(ctx.clock, failure));
      if failure.Some? {
        RunOutcome(setup, clock, store, ctx.trace);
        return Some(Err([Systemd(failure.value)])), ctx;
      }
    }
    var left := budget;
    while true
      invariant fresh(ctx) && ctx.Valid() && ctx.setup == setup
      invariant ctx.publisher == publisher && ctx.begin == Start(clock, store)
      invariant ctx.state.phase == Looping && ctx.polls + left == budget
      decreases left
    {
      var errors := ctx.RefreshAllContainers();
      var again, cut;
      again, cut, left := ctx.Wait(left);
      if cut {
        return None, ctx;
      }
      if again {
        errors := [];
      } else {
        // a failing notification of the service manager is only logged
        ctx.Elapse();
        ctx.clock := ctx.Time(ctx.clock);
        StepStopping(setup, ctx.state, ctx.clock);
        ctx.Emit(Stopping(ctx.clock));
        RunOutcome(setup, clock, store, ctx.trace);
        if errors == [] || setup.config.refreshSeconds.Some? {
          return Some(Ok(())), ctx;
        } else {
          return Some(Err(errors)), ctx;
        }
      }
    }
  }
}
