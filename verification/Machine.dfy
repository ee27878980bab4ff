/** The companion as a timed state machine. A run is a sequence of events: the steps of the program, each with the time
    it is over, and the signals that arrive in between. Where something within a step counts from an earlier time, the
    event has that as well: the clock reading of a notification, the moment the server stores a publication. Times are
    in ticks of a monotone clock. */
module Machine {
  import opened Wrappers
  import opened Common
  import opened Binary64
  import opened DockerInspector
  import opened Redis
  import opened Refresh

  datatype Setup = Setup(config: Config, explicit: seq<string>)

  // ---- alarm clocks --------------------------------------------------------------------------

  /** A channel to wait on: ready at once, ready `wait` after it was set, or never. */
  datatype Alarm = Immediate | After(setAt: int, wait: nat) | Disabled
  {
    predicate MayFire(t: int) {
      match this
      case Immediate => true
      case After(s, w) => s + w <= t
      case Disabled => false
    }
  }

  function DeadlineToAlarmClock(now: int, deadline: Option<int>): Alarm {
    match deadline
    case None => Disabled
    case Some(d) => if now > d then Immediate else After(now, d - now)
  }

  /** No alarm goes off before its deadline, and one without a deadline never does. */
  lemma AlarmsKeepDeadlines(now: int, deadline: Option<int>, t: int)
    requires now <= t
    ensures DeadlineToAlarmClock(now, deadline).MayFire(t) <==> deadline.Some? && deadline.value <= t
  {
  }

  // ---- events and states -----------------------------------------------------------------------

  datatype Status = InRefresh | InWait

  datatype Source = BySignal | ByRefresh | ByWatchdog

  datatype Event =
    | Created(at: int)
    | Announced(at: int, failure: Option<int>)
    | Notified(at: int, read: int, status: Status)
    | Enumerated(at: int, found: Result<seq<string>, InspectionError>, names: seq<Pending<string>>)
    | Refreshed(at: int, stored: int, inspected: Result<Inspection, InspectionError>,
                answer: Result<(), PublishingError>)
    | WaitEntered(at: int)
    | Polled(at: int)
    | Armed(at: int)
    | Woke(at: int, source: Source)
    | Stopping(at: int)
    | SignalSent(at: int)

  type Outcome = Result<(), seq<CompanionError>>

  /** Where the program is: about to do what. */
  datatype Phase =
    | Creating
    | Announcing
    | Looping
    | Enumerating
    | Refreshing(todo: seq<Pending<string>>)
    | EnteringWait
    | Polling(refresh: Alarm)
    | Arming(refresh: Alarm)
    | Selecting(refresh: Alarm, watchdog: Alarm)
    | Pinging(refresh: Alarm)
    | Leaving
    | Stopped(outcome: Outcome)

  datatype State = State(phase: Phase, clock: int, nextWatchdog: Option<int>, pending: bool,
                         store: Store, errors: seq<CompanionError>)

  function Start(clock: int, store: Store): State {
    State(Creating, clock, None, false, store, [])
  }

  /** Within the loop of `wait`. */
  predicate Waiting(p: Phase) {
    p.Polling? || p.Arming? || p.Selecting? || p.Pinging?
  }

  // ---- steps --------------------------------------------------------------------------------------

  /** The interval between alive pings, in ticks. */
  function WatchdogTicks(watchdog: nat): nat {
    Times45(watchdog) * US
  }

  /** The alarm for the next ping, after a notification whose clock reading was `read`. */
  function NextWatchdog(config: Config, before: Option<int>, read: int): Option<int> {
    if config.systemd && config.watchdogMicroseconds.Some?
    then Some(read + WatchdogTicks(config.watchdogMicroseconds.value)) else before
  }

  function StoreAfter(config: Config, store: Store, fate: Fate, at: int): Store {
    match fate case Published(p) => Put(config, store, p, at) case _ => store
  }

  function OutcomeOf(config: Config, errors: seq<CompanionError>): Outcome {
    if errors == [] || config.refreshSeconds.Some? then Ok(()) else Err(errors)
  }

  predicate SameTimers(s: State, t: State) {
    s.clock == t.clock && s.nextWatchdog == t.nextWatchdog && s.pending == t.pending
  }

  ghost predicate NotifiedAs(s: State, e: Event, status: Status) {
    e.Notified? && e.status == status && s.clock <= e.read <= e.at
  }

  ghost function Notify(u: Setup, s: State, e: Event, status: Status, next: Phase): Option<State> {
    if NotifiedAs(s, e, status)
    then Some(s.(nextWatchdog := NextWatchdog(u.config, s.nextWatchdog, e.read), phase := next)) else None
  }

  ghost function RefreshOne(u: Setup, s: State, e: Event): (t: Option<State>)
    requires s.phase.Refreshing? && s.phase.todo != []
    ensures t.Some? ==> e.Refreshed? && s.clock <= e.stored <= e.at
    ensures t.Some? ==> t.value.phase == Refreshing(s.phase.todo[1..]) && SameTimers(s, t.value)
  {
    if !e.Refreshed? || !(s.clock <= e.stored <= e.at) then None else
    var fate := FateOf(u.config, e.inspected, e.answer);
    Some(s.(phase := Refreshing(s.phase.todo[1..]),
            errors := s.errors + Reports(u.config, s.phase.todo[0], fate),
            store := StoreAfter(u.config, s.store, fate, e.stored)))
  }

  ghost function EnumerateAll(u: Setup, s: State, e: Event): (t: Option<State>)
    ensures t.Some? ==> e.Enumerated? && t.value.phase == Refreshing(e.names) && SameTimers(s, t.value)
    ensures t.Some? ==> t.value.store == s.store && t.value.errors == EnumerationErrors(u.config, e.found)
  {
    if e.Enumerated? && Drains(e.names, Targets(u.config, u.explicit, e.found))
    then Some(s.(phase := Refreshing(e.names), errors := EnumerationErrors(u.config, e.found))) else None
  }

  function EnterWait(u: Setup, at: int): (p: Phase)
    ensures p == match u.config.refreshSeconds case None => Leaving case Some(r) => Polling(After(at, r * SEC))
  {
    match u.config.refreshSeconds
    case None => Leaving
    case Some(r) => Polling(DeadlineToAlarmClock(at, Some(at + r * SEC)))
  }

  function Wake(s: State, e: Event): (t: Option<State>)
    requires s.phase.Selecting?
    ensures t.Some? ==> e.Woke? && (e.source.BySignal? ==> s.pending)
    ensures t.Some? ==> SameTimers(s, t.value) && s.store == t.value.store && s.errors == t.value.errors
    ensures t.Some? ==> t.value.phase == match e.source
                                         case BySignal => Leaving
                                         case ByRefresh => Looping
                                         case ByWatchdog => Pinging(s.phase.refresh)
  {
    if !e.Woke? then None else
    match e.source
    case BySignal => if s.pending then Some(s.(phase := Leaving)) else None
    case ByRefresh => if s.phase.refresh.MayFire(e.at) then Some(s.(phase := Looping)) else None
    case ByWatchdog => if s.phase.watchdog.MayFire(e.at) then Some(s.(phase := Pinging(s.phase.refresh))) else None
  }

  /** What the program does next, and where that leaves it. */
  ghost function Move(u: Setup, s: State, e: Event): Option<State> {
    match s.phase
    case Creating =>
      if e.Created? then Some(s.(nextWatchdog := if u.config.watchdogMicroseconds.Some? then Some(e.at) else None,
                                 phase := if u.config.systemd then Announcing else Looping)) else None
    case Announcing =>
      if !e.Announced? then None else
      Some(s.(phase := match e.failure case None => Looping case Some(c) => Stopped(Err([Systemd(c)]))))
    case Looping => Notify(u, s, e, InRefresh, Enumerating)
    case Enumerating => EnumerateAll(u, s, e)
    case Refreshing(todo) => if todo != [] then RefreshOne(u, s, e) else Notify(u, s, e, InWait, EnteringWait)
    case EnteringWait => if e.WaitEntered? then Some(s.(phase := EnterWait(u, e.at))) else None
    case Polling(refresh) =>
      if e.Polled? then Some(s.(phase := if s.pending then Leaving else Arming(refresh))) else None
    case Arming(refresh) =>
      if e.Armed? then Some(s.(phase := Selecting(refresh, DeadlineToAlarmClock(e.at, s.nextWatchdog)))) else None
    case Selecting(_, _) => Wake(s, e)
    case Pinging(refresh) => Notify(u, s, e, InWait, Polling(refresh))
    case Leaving => if e.Stopping? then Some(s.(phase := Stopped(OutcomeOf(u.config, s.errors)))) else None
    case Stopped(_) => None
  }

  /** One event; signals may arrive whenever the program runs. Time never goes back. */
  ghost function Step(u: Setup, s: State, e: Event): Option<State> {
    if e.at < s.clock || s.phase.Stopped? then None
    else if e.SignalSent? then Some(s.(clock := e.at, pending := true))
    else match Move(u, s, e) case None => None case Some(t) => Some(t.(clock := e.at))
  }

  ghost function Exec(u: Setup, s: State, es: seq<Event>): Option<State> {
    if es == [] then Some(s) else
    match Exec(u, s, es[..|es| - 1])
    case None => None
    case Some(m) => Step(u, m, es[|es| - 1])
  }

  lemma ExecMore(u: Setup, s: State, es: seq<Event>, e: Event)
    ensures Exec(u, s, es + [e]) == match Exec(u, s, es) case None => None case Some(m) => Step(u, m, e)
  {
    hide Step;
    assert (es + [e])[..|es|] == es;
  }

  /** Every prefix of a run is a run. */
  lemma {:induction false} ExecPrefix(u: Setup, s: State, es: seq<Event>, k: nat)
    requires k <= |es| && Exec(u, s, es).Some?
    ensures Exec(u, s, es[..k]).Some? && Exec(u, s, es[..k]).value.clock <= Exec(u, s, es).value.clock
    ensures k < |es| ==> es[k].at >= Exec(u, s, es[..k]).value.clock && Step(u, Exec(u, s, es[..k]).value, es[k]).Some?
    decreases |es|
  {
    hide Move;
    if k == |es| {
      assert es[..k] == es;
    } else {
      assert es[..|es| - 1][..k] == es[..k];
      ExecPrefix(u, s, es[..|es| - 1], k);
    }
  }

  lemma {:induction false} ExecJoin(u: Setup, s: State, es: seq<Event>, fs: seq<Event>)
    ensures Exec(u, s, es + fs) == match Exec(u, s, es) case None => None case Some(m) => Exec(u, m, fs)
    decreases |fs|
  {
    hide Step;
    if fs == [] {
      assert es + fs == es;
    } else {
      var front := fs[..|fs| - 1];
      assert (es + fs)[..|es + fs| - 1] == es + front;
      ExecJoin(u, s, es, front);
    }
  }

  // ---- the steps one by one ------------------------------------------------------------------------

  lemma StepSignal(u: Setup, s: State, at: int)
    requires !s.phase.Stopped? && s.clock <= at
    ensures Step(u, s, SignalSent(at)) == Some(s.(clock := at, pending := true))
  {
  }

  lemma StepCreated(u: Setup, s: State, at: int)
    requires s.phase.Creating? && s.clock <= at
    ensures Step(u, s, Created(at)) ==
            Some(s.(clock := at, nextWatchdog := if u.config.watchdogMicroseconds.Some? then Some(at) else None,
                    phase := if u.config.systemd then Announcing else Looping))
  {
  }

  lemma StepAnnounced(u: Setup, s: State, at: int, failure: Option<int>)
    requires s.phase.Announcing? && s.clock <= at
    ensures Step(u, s, Announced(at, failure)) ==
            Some(s.(clock := at, phase := if failure.Some? then Stopped(Err([Systemd(failure.value)])) else Looping))
  {
  }

  /** Which notifications there are, and what follows them. */
  predicate Announces(p: Phase, status: Status, next: Phase): (b: bool)
    ensures b ==> !p.Stopped?
  {
    match p
    case Looping => status == InRefresh && next == Enumerating
    case Refreshing(todo) => todo == [] && status == InWait && next == EnteringWait
    case Pinging(refresh) => status == InWait && next == Polling(refresh)
    case _ => false
  }

  lemma StepNotified(u: Setup, s: State, at: int, read: int, status: Status, next: Phase)
    requires Announces(s.phase, status, next) && s.clock <= read <= at
    ensures Step(u, s, Notified(at, read, status)) ==
            Some(s.(clock := at, nextWatchdog := NextWatchdog(u.config, s.nextWatchdog, read), phase := next))
  {
  }

  lemma StepEnumerated(u: Setup, s: State, at: int, found: Result<seq<string>, InspectionError>,
                       names: seq<Pending<string>>)
    requires s.phase.Enumerating? && s.clock <= at && Drains(names, Targets(u.config, u.explicit, found))
    ensures Step(u, s, Enumerated(at, found, names)) ==
            Some(s.(clock := at, phase := Refreshing(names), errors := EnumerationErrors(u.config, found)))
  {
  }

  lemma StepRefreshed(u: Setup, s: State, at: int, stored: int,
                      inspected: Result<Inspection, InspectionError>, answer: Result<(), PublishingError>)
    requires s.phase.Refreshing? && s.phase.todo != [] && s.clock <= stored <= at
    ensures var fate := FateOf(u.config, inspected, answer);
            Step(u, s, Refreshed(at, stored, inspected, answer)) ==
            Some(s.(clock := at, phase := Refreshing(s.phase.todo[1..]),
                    errors := s.errors + Reports(u.config, s.phase.todo[0], fate),
                    store := StoreAfter(u.config, s.store, fate, stored)))
  {
    hide FateOf, Reports, StoreAfter;
  }

  lemma StepWaitEntered(u: Setup, s: State, at: int)
    requires s.phase.EnteringWait? && s.clock <= at
    ensures Step(u, s, WaitEntered(at)) == Some(s.(clock := at, phase := EnterWait(u, at)))
  {
  }

  lemma StepPolled(u: Setup, s: State, at: int)
    requires s.phase.Polling? && s.clock <= at
    ensures Step(u, s, Polled(at)) ==
            Some(s.(clock := at, phase := if s.pending then Leaving else Arming(s.phase.refresh)))
  {
  }

  lemma StepArmed(u: Setup, s: State, at: int)
    requires s.phase.Arming? && s.clock <= at
    ensures Step(u, s, Armed(at)) ==
            Some(s.(clock := at, phase := Selecting(s.phase.refresh, DeadlineToAlarmClock(at, s.nextWatchdog))))
  {
    hide DeadlineToAlarmClock;
  }

  /** Whether a select may end this way. */
  predicate MayWake(s: State, at: int, source: Source)
    requires s.phase.Selecting?
  {
    match source
    case BySignal => s.pending
    case ByRefresh => s.phase.refresh.MayFire(at)
    case ByWatchdog => s.phase.watchdog.MayFire(at)
  }

  lemma StepWoke(u: Setup, s: State, at: int, source: Source)
    requires s.phase.Selecting? && s.clock <= at && MayWake(s, at, source)
    ensures Step(u, s, Woke(at, source)) ==
            Some(s.(clock := at, phase := match source
                                          case BySignal => Leaving
                                          case ByRefresh => Looping
                                          case ByWatchdog => Pinging(s.phase.refresh)))
  {
  }

  lemma StepStopping(u: Setup, s: State, at: int)
    requires s.phase.Leaving? && s.clock <= at
    ensures Step(u, s, Stopping(at)) == Some(s.(clock := at, phase := Stopped(OutcomeOf(u.config, s.errors))))
  {
  }
}
