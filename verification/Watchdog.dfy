/** Alive pings over whole runs: never too far apart, and never more than needed. */
module Watchdog {
  import opened Wrappers
  import opened Binary64
  import opened Redis
  import opened Machine

  // ---- the latest ping, and the deadline the latest wake-up waited for -----------------------------

  function LastPing(es: seq<Event>): (last: Option<Event>)
    ensures last.Some? ==> last.value.Notified?
  {
    if es == [] then None
    else if es[|es| - 1].Notified? then Some(es[|es| - 1])
    else LastPing(es[..|es| - 1])
  }

  /** When the first alarm of a select was due. */
  function EarliestDeadline(s: State): int
    requires s.phase.Selecting? && s.phase.refresh.After?
  {
    var refresh := s.phase.refresh.setAt + s.phase.refresh.wait;
    if s.nextWatchdog.Some? && s.nextWatchdog.value < refresh then s.nextWatchdog.value else refresh
  }

  /** The earliest deadline of the latest select that an alarm ended. */
  ghost function Due(u: Setup, t0: State, es: seq<Event>): int
    requires Exec(u, t0, es).Some?
  {
    if es == [] then 0 else
    var front, e := es[..|es| - 1], es[|es| - 1];
    var s := Exec(u, t0, front).value;
    if e.Woke? && s.phase.Selecting? && s.phase.refresh.After? then EarliestDeadline(s) else Due(u, t0, front)
  }

  // ---- the assumption on the environment ------------------------------------------------------------

  ghost predicate Watched(u: Setup, d: nat) {
    u.config.systemd && u.config.watchdogMicroseconds == Some(d)
  }

  /** A ping after `es` comes in time: a round, from the clock reading of the ping that begins it to the end of the one
      that ends it, lasts less than the watchdog interval, and a wake-up, through to the ping it leads to, is late by
      less than what 45% leaves of the interval. */
  ghost predicate InTime(u: Setup, t0: State, es: seq<Event>, e: Event, d: nat)
    requires Exec(u, t0, es).Some?
  {
    e.Notified? && LastPing(es).Some? ==>
      if Exec(u, t0, es).value.phase.Refreshing?
      then e.at - LastPing(es).value.read < d * US
      else e.at - Due(u, t0, es) < d * US - WatchdogTicks(d)
  }

  ghost predicate Punctual(u: Setup, t0: State, es: seq<Event>, d: nat)
    requires Exec(u, t0, es).Some?
  {
    forall k :: 0 <= k < |es| ==> Exec(u, t0, es[..k]).Some? && InTime(u, t0, es[..k], es[k], d)
  }

  // ---- the invariant ------------------------------------------------------------------------------------

  predicate RefreshArmed(refresh: Alarm) {
    refresh.After?
  }

  /** Who is waiting for what: the watchdog alarm is set from the latest ping, and no select sleeps past it. */
  ghost predicate PingsKept(s: State, last: Option<Event>, due: int, ticks: nat) {
    && (s.phase.Creating? || s.phase.Announcing? ==> last.None?)
    && (last.Some? ==>
          && last.value.Notified? && last.value.read <= last.value.at <= s.clock
          && s.nextWatchdog == Some(last.value.read + ticks))
    && (match s.phase
        case Creating => true
        case Announcing => true
        case Looping => last.Some? ==> due <= last.value.read + ticks
        case Pinging(r) => last.Some? && due <= last.value.read + ticks && RefreshArmed(r)
        case Polling(r) => last.Some? && RefreshArmed(r)
        case Arming(r) => last.Some? && RefreshArmed(r)
        case Selecting(r, _) => last.Some? && RefreshArmed(r)
        case Stopped(_) => true
        case _ => last.Some?)
  }

  lemma PingsStep(u: Setup, s: State, e: Event, last: Option<Event>, due: int, d: nat)
    requires Watched(u, d) && Step(u, s, e).Some? && PingsKept(s, last, due, WatchdogTicks(d))
    ensures PingsKept(Step(u, s, e).value,
                      if e.Notified? then Some(e) else last,
                      if e.Woke? && s.phase.Selecting? && s.phase.refresh.After? then EarliestDeadline(s) else due,
                      WatchdogTicks(d))
  {
    hide WatchdogTicks, EnumerateAll, RefreshOne, EnterWait, DeadlineToAlarmClock, Wake;
  }

  lemma {:induction false} PingsStayKept(u: Setup, clock: int, store: Store, es: seq<Event>, d: nat)
    requires Watched(u, d) && Exec(u, Start(clock, store), es).Some?
    ensures PingsKept(Exec(u, Start(clock, store), es).value, LastPing(es), Due(u, Start(clock, store), es),
                      WatchdogTicks(d))
  {
    hide Step, WatchdogTicks, EarliestDeadline;
    if es == [] {
    } else {
      var front, e := es[..|es| - 1], es[|es| - 1];
      PingsStayKept(u, clock, store, front, d);
      PingsStep(u, Exec(u, Start(clock, store), front).value, e, LastPing(front), Due(u, Start(clock, store), front),
                d);
    }
  }

  // ---- when the alarm goes off ---------------------------------------------------------------------------

  /** After every ping in every run the next alarm is at 45% of the watchdog interval, in whole microseconds, from the
      clock reading of that ping; whatever the interval, it is never beyond half of it. A microsecond has 1000 ticks. */
  lemma AlarmIsAt45Percent(u: Setup, clock: int, store: Store, es: seq<Event>, d: nat)
    requires Watched(u, d) && Exec(u, Start(clock, store), es).Some? && LastPing(es).Some?
    ensures var next := Exec(u, Start(clock, store), es).value.nextWatchdog;
            && next.Some?
            && (d < 0x2_0000_0000_0000 ==> next.value == LastPing(es).value.read + 9 * d / 20 * 1000)
            && (d < 0x1_0000_0000_0000_0000 ==> 0 <= 2 * (next.value - LastPing(es).value.read) <= d * 1000)
  {
    hide Exec, LastPing, Due, Times45;
    PingsStayKept(u, clock, store, es, d);
    TicksAre(d);
  }

  lemma TicksAre(d: nat)
    ensures d < 0x2_0000_0000_0000 ==> WatchdogTicks(d) == 9 * d / 20 * 1000
    ensures d < 0x1_0000_0000_0000_0000 ==> 2 * WatchdogTicks(d) <= d * 1000
  {
    hide Times45;
    if d < TWO_49 {
      Times45IsExact(d);
    }
    if d < TWO_64 {
      Times45IsUnderHalf(d);
    }
  }

  /** While a select waits, its watchdog channel is ready exactly from the time of the next alarm on. */
  ghost predicate AlarmReady(s: State) {
    s.phase.Selecting? ==>
      forall t :: s.clock <= t ==> (s.phase.watchdog.MayFire(t) <==> s.nextWatchdog.Some? && s.nextWatchdog.value <= t)
  }

  lemma AlarmReadyStep(u: Setup, s: State, e: Event)
    requires Step(u, s, e).Some? && AlarmReady(s)
    ensures AlarmReady(Step(u, s, e).value)
  {
    hide EnumerateAll, RefreshOne, Wake, DeadlineToAlarmClock, NextWatchdog, Alarm.MayFire;
    if s.phase.Arming? && e.Armed? {
      forall t | e.at <= t
        ensures DeadlineToAlarmClock(e.at, s.nextWatchdog).MayFire(t) <==>
                s.nextWatchdog.Some? && s.nextWatchdog.value <= t
      {
        AlarmsKeepDeadlines(e.at, s.nextWatchdog, t);
      }
    }
  }

  lemma {:induction false} AlarmStaysReady(u: Setup, clock: int, store: Store, es: seq<Event>)
    requires Exec(u, Start(clock, store), es).Some?
    ensures AlarmReady(Exec(u, Start(clock, store), es).value)
  {
    hide Step, AlarmReady;
    if es == [] {
      NotSelecting(clock, store);
    } else {
      AlarmStaysReady(u, clock, store, es[..|es| - 1]);
      AlarmReadyStep(u, Exec(u, Start(clock, store), es[..|es| - 1]).value, es[|es| - 1]);
    }
  }

  lemma NotSelecting(clock: int, store: Store)
    ensures AlarmReady(Start(clock, store))
  {
  }

  /** Without a watchdog interval there is never an alarm, so nothing but signals and refreshes ends a wait. */
  lemma {:induction false} NoWatchdogNoAlarm(u: Setup, clock: int, store: Store, es: seq<Event>)
    requires u.config.watchdogMicroseconds.None? && Exec(u, Start(clock, store), es).Some?
    ensures Exec(u, Start(clock, store), es).value.nextWatchdog.None?
    ensures forall k :: 0 <= k < |es| && es[k].Woke? ==> !es[k].source.ByWatchdog?
  {
    hide Step;
    if es == [] {
    } else {
      var front, e := es[..|es| - 1], es[|es| - 1];
      NoWatchdogNoAlarm(u, clock, store, front);
      AlarmStaysReady(u, clock, store, front);
      NoAlarmStep(u, Exec(u, Start(clock, store), front).value, e);
      assert forall k :: 0 <= k < |front| ==> front[k] == es[k];
    }
  }

  lemma NoAlarmStep(u: Setup, s: State, e: Event)
    requires u.config.watchdogMicroseconds.None? && Step(u, s, e).Some? && s.nextWatchdog.None? && AlarmReady(s)
    ensures Step(u, s, e).value.nextWatchdog.None?
    ensures e.Woke? ==> !e.source.ByWatchdog?
  {
    hide EnumerateAll, RefreshOne, DeadlineToAlarmClock;
  }

  // ---- safety --------------------------------------------------------------------------------------------

  /** The gap from one ping to the next one. */
  lemma NextPingInTime(u: Setup, clock: int, store: Store, es: seq<Event>, e: Event, d: nat)
    requires Watched(u, d) && Exec(u, Start(clock, store), es).Some? && LastPing(es).Some? && e.Notified?
    requires Step(u, Exec(u, Start(clock, store), es).value, e).Some?
    requires InTime(u, Start(clock, store), es, e, d)
    ensures e.at - LastPing(es).value.read < d * US
  {
    hide WatchdogTicks, EnumerateAll, RefreshOne, Wake;
    PingsStayKept(u, clock, store, es, d);
  }

  lemma {:induction false} LastPingAt(es: seq<Event>, i: nat)
    requires i < |es| && es[i].Notified? && forall k :: i < k < |es| ==> !es[k].Notified?
    ensures LastPing(es) == Some(es[i])
    decreases |es|
  {
    if i == |es| - 1 {
    } else {
      LastPingAt(es[..|es| - 1], i);
    }
  }

  /** Over a whole run, two successive alive pings are less than the watchdog interval apart, even if the first arrives
      right after its clock reading and the second only at the end of its notification. The lateness that is allowed for
      a wake-up is at least half of the interval. */
  lemma WatchdogIsFed(u: Setup, clock: int, store: Store, es: seq<Event>, d: nat, i: nat, j: nat)
    requires Watched(u, d) && Exec(u, Start(clock, store), es).Some? && Punctual(u, Start(clock, store), es, d)
    requires i < j < |es| && es[i].Notified? && es[j].Notified? && forall k :: i < k < j ==> !es[k].Notified?
    ensures es[j].at - es[i].read < d * US
    ensures 0 < d < TWO_64 ==> 2 * (d * US - WatchdogTicks(d)) >= d * US > 0
  {
    hide Exec, Step, InTime, WatchdogTicks;
    var t0 := Start(clock, store);
    TicksAre(d);
    ExecPrefix(u, t0, es, j);
    assert InTime(u, t0, es[..j], es[j], d);
    LastPingAt(es[..j], i);
    NextPingInTime(u, clock, store, es[..j], es[j], d);
  }

  // ---- thrift --------------------------------------------------------------------------------------------

  /** When the current wait began, and how often the watchdog alarm has ended a select since. */
  function WaitSoFar(es: seq<Event>): (int, nat) {
    if es == [] then (0, 0) else
    var e, (start, pings) := es[|es| - 1], WaitSoFar(es[..|es| - 1]);
    if e.WaitEntered? then (e.at, 0)
    else if e.Woke? && e.source.ByWatchdog? then (start, pings + 1)
    else (start, pings)
  }

  /** After the n-th wake-up at least n - 1 intervals have passed; the next alarm is an interval later. */
  ghost predicate Spaced(s: State, start: int, pings: nat, ticks: nat) {
    Waiting(s.phase) ==>
      && start <= s.clock
      && (pings > 0 ==>
            if s.phase.Pinging? then start + (pings - 1) * ticks <= s.clock
            else s.nextWatchdog.Some? && start + pings * ticks <= s.nextWatchdog.value)
      && (s.phase.Selecting? ==> exists now ::
           now <= s.clock && s.phase.watchdog == DeadlineToAlarmClock(now, s.nextWatchdog))
  }

  lemma SpacedStep(u: Setup, s: State, e: Event, start: int, pings: nat, d: nat)
    requires Watched(u, d) && Step(u, s, e).Some? && Spaced(s, start, pings, WatchdogTicks(d))
    ensures var t := Step(u, s, e).value;
            if e.WaitEntered? then Spaced(t, e.at, 0, WatchdogTicks(d))
            else if e.Woke? && e.source.ByWatchdog? then Spaced(t, start, pings + 1, WatchdogTicks(d))
            else Spaced(t, start, pings, WatchdogTicks(d))
  {
    hide WatchdogTicks, EnumerateAll, RefreshOne;
    var ticks := WatchdogTicks(d);
    if e.Woke? && e.source.ByWatchdog? && s.phase.Selecting? {
      var now :| now <= s.clock && s.phase.watchdog == DeadlineToAlarmClock(now, s.nextWatchdog);
      AlarmsKeepDeadlines(now, s.nextWatchdog, e.at);
    }
    assert pings > 0 ==> (pings - 1) * ticks + ticks == pings * ticks;
    if s.phase.Arming? && e.Armed? {
      assert Step(u, s, e).value.phase.watchdog == DeadlineToAlarmClock(e.at, s.nextWatchdog);
    }
  }

  lemma {:induction false} StaysSpaced(u: Setup, clock: int, store: Store, es: seq<Event>, d: nat)
    requires Watched(u, d) && Exec(u, Start(clock, store), es).Some?
    ensures var (start, pings) := WaitSoFar(es);
            Spaced(Exec(u, Start(clock, store), es).value, start, pings, WatchdogTicks(d))
  {
    hide Step, Spaced, WatchdogTicks;
    if es == [] {
      SpacedAtStart(clock, store, WatchdogTicks(d));
    } else {
      var front, e := es[..|es| - 1], es[|es| - 1];
      StaysSpaced(u, clock, store, front, d);
      var (start, pings) := WaitSoFar(front);
      SpacedStep(u, Exec(u, Start(clock, store), front).value, e, start, pings, d);
    }
  }

  lemma SpacedAtStart(clock: int, store: Store, ticks: nat)
    ensures Spaced(Start(clock, store), 0, 0, ticks)
  {
  }

  /** One wait sends at most one ping per interval, and one more, up to its refresh deadline. */
  lemma PingRate(u: Setup, clock: int, store: Store, es: seq<Event>, d: nat, r: nat)
    requires Watched(u, d) && u.config.refreshSeconds == Some(r) && WatchdogTicks(d) >= 1
    requires Exec(u, Start(clock, store), es).Some?
    requires es != [] && es[|es| - 1].Woke? && es[|es| - 1].source.ByWatchdog?
    ensures var (start, pings) := WaitSoFar(es);
            es[|es| - 1].at <= start + r * SEC ==> pings <= r * SEC / WatchdogTicks(d) + 1
  {
    hide WatchdogTicks, Exec, Spaced;
    StaysSpaced(u, clock, store, es, d);
    var (start, pings) := WaitSoFar(es);
    var ticks := WatchdogTicks(d);
    WokeToPing(u, Start(clock, store), es, start, pings, ticks);
    if es[|es| - 1].at <= start + r * SEC {
      Quotient(pings - 1, ticks, r * SEC);
    }
  }

  lemma WokeToPing(u: Setup, t0: State, es: seq<Event>, start: int, pings: nat, ticks: nat)
    requires es != [] && es[|es| - 1].Woke? && es[|es| - 1].source.ByWatchdog?
    requires Exec(u, t0, es).Some? && Spaced(Exec(u, t0, es).value, start, pings, ticks) && pings > 0
    ensures start + (pings - 1) * ticks <= es[|es| - 1].at
  {
    hide EnumerateAll, RefreshOne;
  }

  lemma Quotient(n: nat, ticks: nat, total: nat)
    requires ticks >= 1 && n * ticks <= total
    ensures n <= total / ticks
  {
    Scale(total / ticks + 1, if total / ticks + 1 <= n then n else total / ticks + 1, ticks);
  }
}
