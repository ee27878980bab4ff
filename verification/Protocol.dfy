/** The order of what the program does, in every run, said in terms of its events alone. */
module Protocol {
  import opened Wrappers
  import opened Common
  import opened Redis
  import opened Refresh
  import opened Machine

  /** What the program itself does in a run: its events without the signals. */
  function Steps(es: seq<Event>): seq<Event> {
    if es == [] then [] else StepsThen(Steps(es[..|es| - 1]), es[|es| - 1])
  }

  function StepsThen(ss: seq<Event>, e: Event): seq<Event> {
    if e.SignalSent? then ss else ss + [e]
  }

  predicate RoundEnds(e: Event) {
    e.Enumerated? || e.Refreshed?
  }

  predicate WokeBy(e: Event, source: Source) {
    e.Woke? && e.source == source
  }

  predicate Says(e: Event, status: Status) {
    e.Notified? && e.status == status
  }

  /** What the program may do after the steps `ss`. A round is announced first, at the start, when READY is sent or when
      the refresh alarm wakes a wait; then it enumerates, and refreshes one container after the other; then it announces
      the wait, which it enters. The wait looks for signals before every select, and after every ping. */
  predicate MayFollow(u: Setup, ss: seq<Event>, e: Event) {
    if ss == [] then e.Created? else
    var last := ss[|ss| - 1];
    match e
    case Created(_) => false
    case Announced(_, _) => last.Created? && u.config.systemd
    case Notified(_, _, InRefresh) =>
      (last.Created? && !u.config.systemd) || (last.Announced? && last.failure.None?) || WokeBy(last, ByRefresh)
    case Enumerated(_, _, _) => Says(last, InRefresh)
    case Refreshed(_, _, _, _) => last.Enumerated? || last.Refreshed?
    case Notified(_, _, InWait) => RoundEnds(last) || WokeBy(last, ByWatchdog)
    case WaitEntered(_) => Says(last, InWait) && |ss| >= 2 && RoundEnds(ss[|ss| - 2])
    case Polled(_) =>
      || (last.WaitEntered? && u.config.refreshSeconds.Some?)
      || (Says(last, InWait) && |ss| >= 2 && WokeBy(ss[|ss| - 2], ByWatchdog))
    case Armed(_) => last.Polled?
    case Woke(_, _) => last.Armed?
    case Stopping(_) =>
      (last.WaitEntered? && u.config.refreshSeconds.None?) || last.Polled? || WokeBy(last, BySignal)
    case SignalSent(_) => false
  }

  /** Where the program is after the steps `ss`. */
  predicate IsAt(u: Setup, p: Phase, ss: seq<Event>) {
    if ss == [] then p.Creating? else
    var last := ss[|ss| - 1];
    match p
    case Creating => false
    case Announcing => last.Created? && u.config.systemd
    case Looping =>
      (last.Created? && !u.config.systemd) || (last.Announced? && last.failure.None?) || WokeBy(last, ByRefresh)
    case Enumerating => Says(last, InRefresh)
    case Refreshing(_) => RoundEnds(last)
    case EnteringWait => Says(last, InWait) && |ss| >= 2 && RoundEnds(ss[|ss| - 2])
    case Polling(_) =>
      || (last.WaitEntered? && u.config.refreshSeconds.Some?)
      || (Says(last, InWait) && |ss| >= 2 && WokeBy(ss[|ss| - 2], ByWatchdog))
    case Arming(_) => last.Polled?
    case Selecting(_, _) => last.Armed?
    case Pinging(_) => WokeBy(last, ByWatchdog)
    case Leaving => (last.WaitEntered? && u.config.refreshSeconds.None?) || last.Polled? || WokeBy(last, BySignal)
    case Stopped(_) => last.Stopping? || (last.Announced? && last.failure.Some?)
  }

  lemma FollowsStep(u: Setup, s: State, e: Event, ss: seq<Event>)
    requires Step(u, s, e).Some? && IsAt(u, s.phase, ss)
    ensures IsAt(u, Step(u, s, e).value.phase, StepsThen(ss, e))
    ensures !e.SignalSent? ==> MayFollow(u, ss, e)
  {
    hide EnumerateAll, RefreshOne, Wake, DeadlineToAlarmClock, NextWatchdog;
  }

  /** In every run, every step follows the steps before it in the order of the program. */
  lemma {:induction false} InOrder(u: Setup, clock: int, store: Store, es: seq<Event>)
    requires Exec(u, Start(clock, store), es).Some?
    ensures IsAt(u, Exec(u, Start(clock, store), es).value.phase, Steps(es))
    ensures var ss := Steps(es); forall k :: 0 <= k < |ss| ==> MayFollow(u, ss[..k], ss[k])
  {
    hide Step, IsAt, MayFollow, StepsThen;
    if es == [] {
      NothingYet(u, clock, store);
    } else {
      var front, e := es[..|es| - 1], es[|es| - 1];
      InOrder(u, clock, store, front);
      FollowsStep(u, Exec(u, Start(clock, store), front).value, e, Steps(front));
      OneMoreStep(u, Steps(front), e);
    }
  }

  lemma NothingYet(u: Setup, clock: int, store: Store)
    ensures IsAt(u, Start(clock, store).phase, [])
  {
  }

  lemma OneMoreStep(u: Setup, ss: seq<Event>, e: Event)
    requires forall k :: 0 <= k < |ss| ==> MayFollow(u, ss[..k], ss[k])
    requires !e.SignalSent? ==> MayFollow(u, ss, e)
    ensures var ts := StepsThen(ss, e); forall k :: 0 <= k < |ts| ==> MayFollow(u, ts[..k], ts[k])
  {
    hide MayFollow;
    var ts := StepsThen(ss, e);
    assert forall k :: 0 <= k < |ss| ==> ts[..k] == ss[..k] && ts[k] == ss[k];
    assert |ts| > |ss| ==> ts[..|ss|] == ss;
  }
}
