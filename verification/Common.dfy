/** The configuration. */
module Common {
  import opened Wrappers

  datatype MissingEnvVarHandling = Automatic | Report | Ignore

  datatype MissingContainerHandling = ReportMissing | IgnoreMissing

  datatype Config = Config(
    keyPrefix: string,
    expireSeconds: Option<nat>,        // None: registrations never expire
    refreshSeconds: Option<nat>,       // None: register once and exit
    dockerNetwork: bool,
    envvar: string,
    dryRun: bool,
    missingEnvvar: MissingEnvVarHandling,
    missingContainer: MissingContainerHandling,
    enumerate: bool,
    systemd: bool,
    watchdogMicroseconds: Option<nat>)
}
