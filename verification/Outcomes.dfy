/** How runs end: promptly after a signal, and with what result. */
module Outcomes {
  import opened Wrappers
  import opened Common
  import opened DockerInspector
  import opened Redis
  import opened Refresh
  import opened Machine

  // ---- bounded shutdown -----------------------------------------------------------------------

  /** How many rounds begin in `es`. */
  function Starts(es: seq<Event>): nat {
    if es == [] then 0 else StartsThen(Starts(es[..|es| - 1]), es[|es| - 1])
  }

  function StartsThen(n: nat, e: Event): nat {
    n + if e.Notified? && e.status.InRefresh? then 1 else 0
  }

  /** How many pings are sent just to feed the watchdog, from state `s` on. */
  ghost function WaitPings(u: Setup, s: State, es: seq<Event>): nat
    requires Exec(u, s, es).Some?
  {
    if es == [] then 0 else
    var front, e := es[..|es| - 1], es[|es| - 1];
    WaitPings(u, s, front) + if e.Notified? && Exec(u, s, front).value.phase.Pinging? then 1 else 0
  }

  /** Whether a run that has a signal waiting may yet start a round or send an in-wait ping. */
  function Credit(p: Phase): nat {
    if p.Creating? || p.Announcing? || p.Looping? || p.Arming? || p.Selecting? || p.Pinging? then 1 else 0
  }

  lemma CreditStep(u: Setup, s: State, e: Event)
    requires s.pending && Step(u, s, e).Some?
    ensures var t := Step(u, s, e).value;
            && t.pending
            && Credit(t.phase) +
               (if e.Notified? && e.status.InRefresh? then 1 else 0) +
               (if e.Notified? && s.phase.Pinging? then 1 else 0) <= Credit(s.phase)
  {
    hide EnumerateAll, RefreshOne, Wake, DeadlineToAlarmClock, NextWatchdog;
  }

  /** Once a signal is waiting, at most one more round starts, or one more in-wait ping is sent, never both; and
      neither, if the wait is about to be entered or to poll for signals. */
  lemma {:induction false} BoundedShutdown(u: Setup, s: State, es: seq<Event>)
    requires s.pending && Exec(u, s, es).Some?
    ensures Exec(u, s, es).value.pending
    ensures Starts(es) + WaitPings(u, s, es) + Credit(Exec(u, s, es).value.phase) <= Credit(s.phase)
    ensures Starts(es) + WaitPings(u, s, es) <= 1
    ensures s.phase.EnteringWait? || s.phase.Polling? ==> Starts(es) == 0 && WaitPings(u, s, es) == 0
  {
    hide Step;
    if es == [] {
    } else {
      var front, e := es[..|es| - 1], es[|es| - 1];
      BoundedShutdown(u, s, front);
      CreditStep(u, Exec(u, s, front).value, e);
    }
  }

  /** How far the program is from the end, once a signal is waiting. */
  function Distance(p: Phase): nat {
    match p
    case Creating => 10
    case Announcing => 9
    case Arming(_) => 8
    case Selecting(_, _) => 7
    case Looping => 6
    case Pinging(_) => 6
    case Enumerating => 5
    case Refreshing(_) => 4
    case EnteringWait => 3
    case Polling(_) => 2
    case Leaving => 1
    case Stopped(_) => 0
  }

  function Left(p: Phase): nat {
    if p.Refreshing? then |p.todo| else 0
  }

  /** With a signal waiting, every step the program takes brings it closer to the end; it cannot go round in circles. */
  lemma ShutdownProgresses(u: Setup, s: State, e: Event)
    requires s.pending && Step(u, s, e).Some? && !e.SignalSent?
    ensures var t := Step(u, s, e).value;
            Distance(t.phase) < Distance(s.phase)
              || (Distance(t.phase) == Distance(s.phase) && Left(t.phase) < Left(s.phase))
  {
    hide EnumerateAll, RefreshOne, Wake, DeadlineToAlarmClock, NextWatchdog;
  }

  // ---- the account of a round -----------------------------------------------------------------------

  /** What the latest round enumerated, the names this led to, and what became of the first of them so far. */
  datatype Account = Account(found: Result<seq<string>, InspectionError>, names: seq<Pending<string>>, fates: seq<Fate>)

  function AccountOf(u: Setup, es: seq<Event>): Account {
    if es == [] then Account(Ok([]), [], []) else AccountThen(u, AccountOf(u, es[..|es| - 1]), es[|es| - 1])
  }

  function AccountThen(u: Setup, a: Account, e: Event): Account {
    match e
    case Enumerated(_, found, names) => Account(found, names, [])
    case Refreshed(_, _, inspected, answer) => a.(fates := a.fates + [FateOf(u.config, inspected, answer)])
    case _ => a
  }

  /** The reports of the first `n` names, in order. */
  function ReportsOf(config: Config, names: seq<Pending<string>>, fates: seq<Fate>, n: nat): seq<CompanionError>
    requires n <= |names| && n <= |fates|
  {
    if n == 0 then [] else ReportsOf(config, names, fates, n - 1) + Reports(config, names[n - 1], fates[n - 1])
  }

  lemma {:induction false} ReportsStay(config: Config, names: seq<Pending<string>>, fates: seq<Fate>, f: Fate, n: nat)
    requires n <= |names| && n <= |fates|
    ensures ReportsOf(config, names, fates + [f], n) == ReportsOf(config, names, fates, n)
  {
    hide Reports;
    if n == 0 {
    } else {
      ReportsStay(config, names, fates, f, n - 1);
    }
  }

  function ErrorsSoFar(u: Setup, a: Account): seq<CompanionError>
    requires |a.fates| <= |a.names|
  {
    EnumerationErrors(u.config, a.found) + ReportsOf(u.config, a.names, a.fates, |a.fates|)
  }

  predicate AfterRound(p: Phase) {
    p.EnteringWait? || Waiting(p) || p.Leaving?
  }

  /** A round goes through its targets; its errors are those of its enumeration and then those of its containers, each
      of which has one fate. */
  ghost predicate Accounted(u: Setup, s: State, a: Account) {
    && (s.phase.Refreshing? || AfterRound(s.phase) ==>
          && Drains(a.names, Targets(u.config, u.explicit, a.found))
          && |a.fates| <= |a.names| && s.errors == ErrorsSoFar(u, a))
    && (s.phase.Refreshing? ==> s.phase.todo == a.names[|a.fates|..])
    && (AfterRound(s.phase) ==> |a.fates| == |a.names|)
  }

  lemma AccountOne(u: Setup, s: State, e: Event, a: Account)
    requires s.phase.Refreshing? && s.phase.todo != [] && RefreshOne(u, s, e).Some? && Accounted(u, s, a)
    ensures Accounted(u, RefreshOne(u, s, e).value, a.(fates := a.fates + [FateOf(u.config, e.inspected, e.answer)]))
  {
    hide Reports, StoreAfter, FateOf, Drains, Targets, EnumerationErrors;
    ReportsStay(u.config, a.names, a.fates, FateOf(u.config, e.inspected, e.answer), |a.fates|);
  }

  lemma AccountNone(u: Setup, s: State, e: Event)
    requires s.phase.Enumerating? && EnumerateAll(u, s, e).Some?
    ensures Accounted(u, EnumerateAll(u, s, e).value, Account(e.found, e.names, []))
  {
    hide Drains, Targets, EnumerationErrors;
  }

  /** The other steps leave the account as it is. */
  lemma AccountKept(u: Setup, s: State, e: Event, a: Account)
    requires Step(u, s, e).Some? && !e.Refreshed? && !e.Enumerated? && Accounted(u, s, a)
    ensures Accounted(u, Step(u, s, e).value, a)
  {
    hide Wake, DeadlineToAlarmClock, NextWatchdog, EnumerateAll, RefreshOne, ErrorsSoFar, OutcomeOf, Drains, Targets;
  }

  lemma AccountStep(u: Setup, s: State, e: Event, a: Account)
    requires Step(u, s, e).Some? && Accounted(u, s, a)
    ensures Accounted(u, Step(u, s, e).value, AccountThen(u, a, e))
  {
    hide FateOf, EnumerateAll, RefreshOne, Accounted, EnterWait, Wake;
    if e.Refreshed? {
      AccountOne(u, s, e, a);
      LaterAccounted(u, RefreshOne(u, s, e).value, e.at,
                     a.(fates := a.fates + [FateOf(u.config, e.inspected, e.answer)]));
    } else if e.Enumerated? {
      AccountNone(u, s, e);
      LaterAccounted(u, EnumerateAll(u, s, e).value, e.at, Account(e.found, e.names, []));
    } else {
      hide Step;
      AccountKept(u, s, e, a);
    }
  }

  lemma LaterAccounted(u: Setup, s: State, at: int, a: Account)
    requires Accounted(u, s, a)
    ensures Accounted(u, s.(clock := at), a)
  {
    hide ErrorsSoFar, Drains, Targets;
  }

  lemma {:induction false} RoundsAreAccounted(u: Setup, s: State, es: seq<Event>)
    requires Accounted(u, s, AccountOf(u, [])) && Exec(u, s, es).Some?
    ensures Accounted(u, Exec(u, s, es).value, AccountOf(u, es))
  {
    hide Step, Accounted, AccountThen;
    if es == [] {
    } else {
      var front, e := es[..|es| - 1], es[|es| - 1];
      RoundsAreAccounted(u, s, front);
      AccountStep(u, Exec(u, s, front).value, e, AccountOf(u, front));
    }
  }

  function CountReported(config: Config, names: seq<Pending<string>>, fates: seq<Fate>, n: nat): nat
    requires n <= |names| && n <= |fates|
  {
    if n == 0 then 0
    else CountReported(config, names, fates, n - 1) +
         if IsReported(config, names[n - 1].explicit, fates[n - 1]) then 1 else 0
  }

  lemma {:induction false} ReportsAreCounted(config: Config, names: seq<Pending<string>>, fates: seq<Fate>, n: nat)
    requires n <= |names| && n <= |fates|
    ensures |ReportsOf(config, names, fates, n)| == CountReported(config, names, fates, n)
  {
    if n == 0 {
    } else {
      ReportsAreCounted(config, names, fates, n - 1);
    }
  }

  /** After a round, every one of its targets has exactly one fate, and there are as many errors as the configuration
      makes reportable, and one more if enumeration failed. */
  lemma RoundAccounting(u: Setup, clock: int, store: Store, es: seq<Event>)
    requires Exec(u, Start(clock, store), es).Some? && AfterRound(Exec(u, Start(clock, store), es).value.phase)
    ensures var a := AccountOf(u, es);
            && Drains(a.names, Targets(u.config, u.explicit, a.found))
            && |a.fates| == |a.names|
            && |Exec(u, Start(clock, store), es).value.errors| ==
               |EnumerationErrors(u.config, a.found)| + CountReported(u.config, a.names, a.fates, |a.fates|)
  {
    hide Exec, AccountOf, ReportsOf, Drains, Targets, EnumerationErrors;
    AccountedAtStart(u, clock, store);
    RoundsAreAccounted(u, Start(clock, store), es);
    var a := AccountOf(u, es);
    ReportsAreCounted(u.config, a.names, a.fates, |a.fates|);
  }

  lemma AccountedAtStart(u: Setup, clock: int, store: Store)
    ensures Accounted(u, Start(clock, store), AccountOf(u, []))
  {
  }

  // ---- outcomes ----------------------------------------------------------------------------------------

  predicate Signalled(es: seq<Event>) {
    exists k :: 0 <= k < |es| && es[k].SignalSent?
  }

  /** What READY failed with, if it did. */
  function ReadyFailure(es: seq<Event>): Option<int> {
    if es == [] then None else FailureThen(ReadyFailure(es[..|es| - 1]), es[|es| - 1])
  }

  function FailureThen(failure: Option<int>, e: Event): Option<int> {
    if e.Announced? then e.failure else failure
  }

  predicate BeforeRounds(p: Phase) {
    p.Creating? || p.Announcing?
  }

  /** How far a run can be, given how often it refreshes and what has happened. */
  ghost predicate OnCourse(u: Setup, s: State, starts: nat, failure: Option<int>, a: Account) {
    var oneShot := u.config.refreshSeconds.None?;
    && (BeforeRounds(s.phase) ==> starts == 0 && failure.None?)
    && (failure.Some? ==> starts == 0 && s.phase == Stopped(Err([Systemd(failure.value)])))
    && (s.phase.Looping? && oneShot ==> starts == 0)
    && (!s.phase.Stopped? && !BeforeRounds(s.phase) && !s.phase.Looping? ==> starts >= 1 && (oneShot ==> starts == 1))
    && (Waiting(s.phase) ==> !oneShot)
    && (s.phase.Leaving? && !oneShot ==> s.pending)
    && (s.phase.Stopped? && failure.None? ==>
          && starts >= 1
          && |a.fates| == |a.names|
          && (oneShot ==>
                && starts == 1
                && s.phase.outcome == if ErrorsSoFar(u, a) == [] then Ok(()) else Err(ErrorsSoFar(u, a)))
          && (!oneShot ==> s.pending && s.phase.outcome == Ok(())))
  }

  lemma OnCourseStep(u: Setup, s: State, e: Event, starts: nat, failure: Option<int>, a: Account)
    requires Step(u, s, e).Some? && Accounted(u, s, a) && OnCourse(u, s, starts, failure, a)
    ensures OnCourse(u, Step(u, s, e).value, StartsThen(starts, e), FailureThen(failure, e), AccountThen(u, a, e))
  {
    hide EnumerateAll, RefreshOne, Wake, DeadlineToAlarmClock, NextWatchdog, ErrorsSoFar, FateOf, Drains, Targets;
  }

  lemma {:induction false} StaysOnCourse(u: Setup, clock: int, store: Store, es: seq<Event>)
    requires Exec(u, Start(clock, store), es).Some?
    ensures OnCourse(u, Exec(u, Start(clock, store), es).value, Starts(es), ReadyFailure(es), AccountOf(u, es))
  {
    hide Step, OnCourse, Accounted, AccountThen, StartsThen, FailureThen;
    if es == [] {
      OnCourseAtStart(u, clock, store);
    } else {
      var front, e := es[..|es| - 1], es[|es| - 1];
      StaysOnCourse(u, clock, store, front);
      AccountedAtStart(u, clock, store);
      RoundsAreAccounted(u, Start(clock, store), front);
      OnCourseStep(u, Exec(u, Start(clock, store), front).value, e,
                   Starts(front), ReadyFailure(front), AccountOf(u, front));
    }
  }

  lemma OnCourseAtStart(u: Setup, clock: int, store: Store)
    ensures OnCourse(u, Start(clock, store), Starts([]), ReadyFailure([]), AccountOf(u, []))
  {
  }

  lemma {:induction false} PendingIsSignalled(u: Setup, clock: int, store: Store, es: seq<Event>)
    requires Exec(u, Start(clock, store), es).Some?
    ensures Exec(u, Start(clock, store), es).value.pending <==> Signalled(es)
  {
    hide Step;
    if es == [] {
    } else {
      var front, e := es[..|es| - 1], es[|es| - 1];
      PendingIsSignalled(u, clock, store, front);
      PendingStep(u, Exec(u, Start(clock, store), front).value, e);
      assert forall k :: 0 <= k < |front| ==> front[k] == es[k];
      if Signalled(front) {
        var k :| 0 <= k < |front| && front[k].SignalSent?;
        assert es[k].SignalSent?;
      }
    }
  }

  lemma PendingStep(u: Setup, s: State, e: Event)
    requires Step(u, s, e).Some?
    ensures Step(u, s, e).value.pending == (s.pending || e.SignalSent?)
  {
    hide EnumerateAll, RefreshOne, Wake, DeadlineToAlarmClock, NextWatchdog;
  }

  /** How a run may end: with an error and no round at all when READY fails; with one round and its errors, enumeration
      first, in one-shot mode; and otherwise fine, after a signal, whatever the errors. */
  ghost predicate EndsAs(u: Setup, es: seq<Event>, outcome: Outcome) {
    var a := AccountOf(u, es);
    if ReadyFailure(es).Some? then Starts(es) == 0 && outcome == Err([Systemd(ReadyFailure(es).value)])
    else if u.config.refreshSeconds.None? then
      && Starts(es) == 1 && |a.fates| == |a.names|
      && outcome == if ErrorsSoFar(u, a) == [] then Ok(()) else Err(ErrorsSoFar(u, a))
    else Starts(es) >= 1 && outcome == Ok(()) && Signalled(es)
  }

  lemma RunOutcome(u: Setup, clock: int, store: Store, es: seq<Event>)
    requires Exec(u, Start(clock, store), es).Some? && Exec(u, Start(clock, store), es).value.phase.Stopped?
    ensures EndsAs(u, es, Exec(u, Start(clock, store), es).value.phase.outcome)
  {
    hide Exec, AccountOf, Starts, ReadyFailure, ErrorsSoFar, Signalled;
    StaysOnCourse(u, clock, store, es);
    PendingIsSignalled(u, clock, store, es);
  }

  /** Without a round there is nothing in the store that was not there before. */
  lemma {:induction false} NoRoundNoPublication(u: Setup, clock: int, store: Store, es: seq<Event>)
    requires Exec(u, Start(clock, store), es).Some? && Starts(es) == 0
    ensures Exec(u, Start(clock, store), es).value.store == store
    ensures var phase := Exec(u, Start(clock, store), es).value.phase;
            BeforeRounds(phase) || phase.Looping? || phase.Stopped?
  {
    hide EnumerateAll, RefreshOne, Wake, DeadlineToAlarmClock, NextWatchdog;
    if es == [] {
    } else {
      NoRoundNoPublication(u, clock, store, es[..|es| - 1]);
    }
  }
}
