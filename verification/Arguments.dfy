/** From command line arguments to configuration, and the default schedule. */
module Arguments {
  import opened Wrappers
  import opened Common
  import opened Binary64

  const U32: nat := 0x1_0000_0000

  class Args {
    var verbose: bool
    var quiet: bool
    var expire: nat
    var refresh: Option<nat>
    var envvar: string
    var keyPrefix: string
    var containers: seq<string>
    var dockerNetwork: bool
    var dryRun: bool
    var errorMissingEnvvar: bool
    var errorMissingContainer: bool
    var ignoreMissingEnvvar: bool
    var enumerate: bool
    var systemd: bool

    constructor (expire: nat, refresh: Option<nat>)
      ensures this.expire == expire && this.refresh == refresh
    {
      this.expire, this.refresh := expire, refresh;
      verbose, quiet, dockerNetwork, dryRun, enumerate, systemd := false, false, false, false, false, false;
      errorMissingEnvvar, errorMissingContainer, ignoreMissingEnvvar := false, false, false;
      envvar, keyPrefix, containers := "BEACHHEAD_DOMAINS", "/beachhead/", [];
    }

    /** Quiet and verbose cancel out, a dry run is never quiet, and the refresh defaults to 45% of the expiry. */
    method Transform()
      modifies this`verbose, this`quiet, this`refresh
      ensures refresh == Some(RefreshOf(expire, old(refresh)))
      ensures old(refresh).Some? ==> refresh == old(refresh)
      ensures old(refresh).None? && expire < U32 ==> refresh == Some(9 * expire / 20)
      ensures verbose == (old(verbose) && !old(quiet))
      ensures quiet == (old(quiet) && !old(verbose) && !dryRun)
    {
      if quiet && verbose {
        quiet := false;
        verbose := false;
      }
      if dryRun {
        quiet := false;
      }
      RefreshIs(expire, refresh);
      if refresh.None? {
        refresh := Some(Times45(expire));
      }
    }

    /** Never reaches the unwrap of an absent refresh once the arguments are transformed. */
    function Deconstruct(): (Config, seq<string>)
      reads this
      requires refresh.Some?
    {
      (Config(
         keyPrefix,
         if expire == 0 then None else Some(expire),
         if refresh.value == 0 then None else refresh,
         dockerNetwork,
         envvar,
         dryRun,
         // both flags cancel out
         if errorMissingEnvvar == ignoreMissingEnvvar then Automatic
         else if errorMissingEnvvar then Report
         else Ignore,
         if errorMissingContainer then ReportMissing else IgnoreMissing,
         enumerate,
         systemd,
         None),
       containers)
    }
  }

  function RefreshOf(expire: nat, refresh: Option<nat>): nat {
    match refresh case Some(r) => r case None => Times45(expire)
  }

  /** A refresh that is given is taken, 0 included; otherwise it is 45% of the expiry, rounded down. */
  lemma RefreshIs(expire: nat, refresh: Option<nat>)
    ensures refresh.Some? ==> RefreshOf(expire, refresh) == refresh.value
    ensures refresh.None? && expire < U32 ==> RefreshOf(expire, refresh) == 9 * expire / 20
  {
    hide Times45;
    if expire < U32 {
      Times45IsExact(expire);
    }
  }

  /** What the watchdog reads from the service manager, which answers 0 when it wants no pings. */
  function SystemdConfig(config: Config, watchdogEnabled: Result<nat, int>): Result<Config, int> {
    if !config.systemd then Ok(config) else
    match watchdogEnabled
    case Err(e) => Err(e)
    case Ok(us) => Ok(config.(watchdogMicroseconds := if us == 0 then None else Some(us)))
  }

  /** The whole of `main` up to the run: arguments in, configuration out. */
  method Configure(args: Args, watchdogEnabled: Result<nat, int>)
    returns (r: Result<Config, int>, containers: seq<string>)
    modifies args`verbose, args`quiet, args`refresh
    ensures r.Ok? ==>
              var c := r.value;
              && c.expireSeconds == (if args.expire == 0 then None else Some(args.expire))
              && c.refreshSeconds ==
                 (var s := RefreshOf(args.expire, old(args.refresh)); if s == 0 then None else Some(s))
              && (old(args.refresh) == Some(0) ==> c.refreshSeconds == None)
              && (old(args.refresh).Some? && old(args.refresh).value > 0 ==> c.refreshSeconds == old(args.refresh))
              && (old(args.refresh).None? && 2 < args.expire < U32 ==> c.refreshSeconds == Some(9 * args.expire / 20))
              && (old(args.refresh).None? && args.expire <= 2 ==> c.refreshSeconds == None)
              && (forall us ::
                    c.watchdogMicroseconds == Some(us) <==> args.systemd && watchdogEnabled == Ok(us) && us > 0)
              && c.keyPrefix == args.keyPrefix && c.envvar == args.envvar
              && c.dockerNetwork == args.dockerNetwork && c.dryRun == args.dryRun
              && c.enumerate == args.enumerate && c.systemd == args.systemd
              && (c.missingEnvvar == Report <==> args.errorMissingEnvvar && !args.ignoreMissingEnvvar)
              && (c.missingEnvvar == Ignore <==> args.ignoreMissingEnvvar && !args.errorMissingEnvvar)
              && (c.missingContainer == ReportMissing <==> args.errorMissingContainer)
    ensures r.Err? <==> args.systemd && watchdogEnabled.Err?
    ensures r.Err? ==> r.error == watchdogEnabled.error
    ensures containers == args.containers
  {
    RefreshIs(args.expire, args.refresh);
    args.Transform();
    var (config, names) := args.Deconstruct();
    containers := names;
    r := SystemdConfig(config, watchdogEnabled);
  }

  /** The default refresh: between a third and a half of the expiry, one-shot exactly up to an expiry of 2,
      and otherwise so short that two refresh intervals fit inside one expiry. */
  lemma DefaultSchedule(expire: nat)
    requires expire < U32
    ensures var r := RefreshOf(expire, None);
            && r == 9 * expire / 20 < U32
            && expire / 3 <= r <= expire / 2
            && (r == 0 <==> expire <= 2)
            && (expire > 0 ==> 2 * r < expire)
  {
    hide Times45;
    Times45IsExact(expire);
  }

  /** The usage text promises a default refresh of at least 10 seconds; that holds exactly from an expiry of 23 on. */
  lemma TenSecondsAtLeast(expire: nat)
    requires expire < U32
    ensures RefreshOf(expire, None) >= 10 <==> expire >= 23
  {
    hide Times45;
    Times45IsExact(expire);
  }

  /** An alarm at 45% of any watchdog interval leaves room for a second one before the interval is over. */
  lemma WatchdogStep(d: nat)
    requires 0 < d < TWO_64
    ensures 2 * Times45(d) <= d && Times45(d) < d && Times45(d) < TWO_64 / 2
    ensures d < TWO_49 ==> Times45(d) == 9 * d / 20 && (Times45(d) >= 1 <==> d >= 3)
  {
    hide Times45;
    Times45IsUnderHalf(d);
    if d < TWO_49 {
      Times45IsExact(d);
    }
  }
}
