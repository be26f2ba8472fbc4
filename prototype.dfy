/** The earlier single-file program (src/main.rs). Its resolver, `Job::new`,
    `schedule_next` and scheduler loop are the same code as the later
    modules and are modelled there; what differs is its `ValidConfig::new`,
    which has no server URL, expands no `~` and does not contact the node. */
module Prototype {
  import opened Outcomes
  import opened Schedules
  import opened Config
  import opened Lnurl
  import opened Jobs
  import ConfigLoad

  /** The earlier configuration file: no `server_url`. */
  datatype EarlyConfig = EarlyConfig(
    macaroonPath: string,
    certPath: string,
    jobs: Option<seq<ConfigJob>>)

  /** The earlier checked configuration. */
  datatype EarlyValidConfig = EarlyValidConfig(
    macaroonPath: string,
    certPath: string,
    jobs: seq<Job>)

  /** The earlier `ValidConfig::new`: a missing `jobs` list ends the process
      with the same message as the later version, every job is built in
      order, and the two paths are copied as written. */
  method NewEarlyValidConfig(config: EarlyConfig, parse: CronParser, codecs: Codecs, now: Instant)
    returns (r: Result<EarlyValidConfig>)
    ensures config.jobs.None? ==> r == Err(Exit(ConfigLoad.NoJobs))
    ensures config.jobs.Some? ==>
              (r.Ok? <==> CreatedAll(config.jobs.value, parse, codecs, now).Ok?)
    ensures config.jobs.Some? && r.Err? ==>
              r.failure == CreatedAll(config.jobs.value, parse, codecs, now).failure
    ensures r.Ok? ==>
              config.jobs.Some? &&
              r.value.macaroonPath == config.macaroonPath && r.value.certPath == config.certPath &&
              States(r.value.jobs) == CreatedAll(config.jobs.value, parse, codecs, now).value &&
              (forall i :: 0 <= i < |r.value.jobs| ==> fresh(r.value.jobs[i])) &&
              (forall i, j :: 0 <= i < j < |r.value.jobs| ==> r.value.jobs[i] != r.value.jobs[j])
  {
    if config.jobs.None? {
      return Err(Exit(ConfigLoad.NoJobs));
    }
    var jobs := BuildJobs(config.jobs.value, parse, codecs, now);
    if jobs.Err? {
      return Err(jobs.failure);
    }
    r := Ok(EarlyValidConfig(config.macaroonPath, config.certPath, jobs.value));
  }
}
