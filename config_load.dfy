/** The checks `ValidConfig::new` makes once the file has been parsed: a
    missing `jobs` list ends the process, every job is built in order, `~` in
    the two paths becomes the home directory, and the node must be reachable
    at startup. */
module ConfigLoad {
  import opened Outcomes
  import Strings
  import opened Schedules
  import opened Config
  import opened Lnurl
  import opened Lnd
  import opened Jobs

  const NoJobs: string := "No jobs to run. Add a job in " + DefaultConfigPath
  const NodeUnreachable: string := "Failed to verify connection to LND node."

  /** `ValidConfig::new` after the YAML has been read into `config`. `home`
      is the HOME variable, `connect` the startup connection to the node and
      `now` the clock reading each `Job::new` sees. */
  method NewValidConfig(config: Config, parse: CronParser, codecs: Codecs, now: Instant,
                        home: Option<string>, connect: Connector)
    returns (r: Result<ValidConfig<Job>>)
    ensures config.jobs.None? ==> r == Err(Exit(NoJobs))
    ensures config.jobs.Some? && CreatedAll(config.jobs.value, parse, codecs, now).Err? ==>
              r == Err(CreatedAll(config.jobs.value, parse, codecs, now).failure)
    ensures config.jobs.Some? && CreatedAll(config.jobs.value, parse, codecs, now).Ok? ==>
              var certPath := ExpandHome(config.certPath, home);
              var macaroonPath := ExpandHome(config.macaroonPath, home);
              match connect(config.serverUrl, certPath, macaroonPath)
              case Some(_) => r == Err(Panic(NodeUnreachable))
              case None =>
                r.Ok? && r.value.certPath == certPath && r.value.macaroonPath == macaroonPath &&
                r.value.serverUrl == config.serverUrl &&
                States(r.value.jobs) == CreatedAll(config.jobs.value, parse, codecs, now).value &&
                (forall i :: 0 <= i < |r.value.jobs| ==> fresh(r.value.jobs[i])) &&
                (forall i, j :: 0 <= i < j < |r.value.jobs| ==> r.value.jobs[i] != r.value.jobs[j])
  {
    if config.jobs.None? {
      return Err(Exit(NoJobs));
    }
    var jobs := BuildJobs(config.jobs.value, parse, codecs, now);
    if jobs.Err? {
      return Err(jobs.failure);
    }
    var homeDir := HomeDir(home);
    var certPath := Strings.ReplaceFirst(config.certPath, '~', homeDir);
    var macaroonPath := Strings.ReplaceFirst(config.macaroonPath, '~', homeDir);
    var connection := connect(config.serverUrl, certPath, macaroonPath);
    if connection.Some? {
      return Err(Panic(NodeUnreachable));
    }
    r := Ok(ValidConfig(macaroonPath, certPath, config.serverUrl, jobs.value));
  }
}
