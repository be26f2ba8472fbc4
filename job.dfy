/** `Job`: a configured job, its parsed schedule, its resolved endpoint and
    the two timestamps the scheduler advances. */
module Jobs {
  import opened Outcomes
  import opened Schedules
  import opened Config
  import opened Lnurl
  import opened Lnd

  /** `Schedule::from_str`, supplied from outside: None for an expression
      the `cron` crate rejects. */
  type CronParser = string -> Option<Schedule>

  /** The value of a `Job`, as `clone()` copies it. */
  datatype JobState = JobState(
    configJob: ConfigJob,
    schedule: Schedule,
    url: string,
    nextRun: Option<Instant>,
    lastRun: Option<Instant>)

  /** `next_run` is one of the schedule's fire times, when present. */
  predicate OnSchedule(j: JobState) {
    j.nextRun.Some? ==> j.nextRun.value in j.schedule.instants
  }

  /** What `Job::new` builds when the clock reads `now`: a job whose
      expression does not parse ends the process, a destination the resolver
      cannot decode panics; otherwise nothing has run yet and the next run is
      the first upcoming fire time. */
  function Created(configJob: ConfigJob, parse: CronParser, codecs: Codecs, now: Instant): (r: Result<JobState>)
    ensures parse(configJob.cronExpression).None? ==>
              r == Err(Exit("Job has an invalid schedule: " + configJob.cronExpression))
    ensures parse(configJob.cronExpression).Some? ==>
              (r.Ok? <==> Resolve(configJob.lnAddressOrLnurl, codecs).Ok?)
    ensures parse(configJob.cronExpression).Some? && r.Err? ==>
              r.failure == Resolve(configJob.lnAddressOrLnurl, codecs).failure
    ensures r.Ok? ==>
              r.value.configJob == configJob && r.value.lastRun == None && OnSchedule(r.value) &&
              r.value.schedule == parse(configJob.cronExpression).value &&
              r.value.url == Resolve(configJob.lnAddressOrLnurl, codecs).value &&
              (r.value.nextRun.None? <==> Upcoming(r.value.schedule, now) == []) &&
              (r.value.nextRun.Some? ==> r.value.nextRun.value > now)
  {
    match parse(configJob.cronExpression)
    case None => Err(Exit("Job has an invalid schedule: " + configJob.cronExpression))
    case Some(schedule) =>
      var nextRun := First(Upcoming(schedule, now));
      match Resolve(configJob.lnAddressOrLnurl, codecs)
      case Err(f) => Err(f)
      case Ok(url) => Ok(JobState(configJob, schedule, url, nextRun, None))
  }

  /** For an ascending schedule the first run is the earliest fire time after
      the clock reading. */
  lemma CreatedRunsAtEarliest(configJob: ConfigJob, parse: CronParser, codecs: Codecs, now: Instant)
    requires Created(configJob, parse, codecs, now).Ok?
    requires Sorted(Created(configJob, parse, codecs, now).value.schedule.instants)
    ensures var j := Created(configJob, parse, codecs, now).value;
            j.nextRun.Some? ==> forall x :: x in j.schedule.instants && x > now ==> j.nextRun.value <= x
  {
    FirstUpcomingIsEarliest(Created(configJob, parse, codecs, now).value.schedule, now);
  }

  /** `schedule_next` may unwrap `last_run` only when upcoming fire times
      exist: it needs `next_run` in that case. */
  predicate CanAdvance(j: JobState, now: Instant) {
    Upcoming(j.schedule, now) != [] ==> j.nextRun.Some?
  }

  /** What `schedule_next` makes of a job when the clock reads `now`: the
      old next run becomes the last run, and the next run is the first
      upcoming fire time other than it. */
  function Advance(j: JobState, now: Instant): (r: JobState)
    requires CanAdvance(j, now)
    ensures r.lastRun == j.nextRun
    ensures r.nextRun.Some? ==> r.nextRun != r.lastRun && r.nextRun.value > now && r.nextRun.value in j.schedule.instants
    ensures r.nextRun.None? <==> forall x :: x in j.schedule.instants && x > now ==> Some(x) == j.nextRun
    ensures r.configJob == j.configJob && r.schedule == j.schedule && r.url == j.url
  {
    var upcoming := Upcoming(j.schedule, now);
    var nextRun := if upcoming == [] then None else FindOther(upcoming, j.nextRun.value);
    assert nextRun.None? ==> forall x :: x in j.schedule.instants && x > now ==> Some(x) == j.nextRun by {
      if nextRun.None? && upcoming != [] {
        forall x | x in j.schedule.instants && x > now ensures Some(x) == j.nextRun {
          var i :| 0 <= i < |upcoming| && upcoming[i] == x;
        }
      }
    }
    j.(lastRun := j.nextRun, nextRun := nextRun)
  }

  /** For an ascending schedule the new next run is the earliest fire time
      after the clock reading that differs from the new last run. */
  lemma AdvanceRunsAtEarliest(j: JobState, now: Instant)
    requires CanAdvance(j, now) && j.nextRun.Some?
    requires Sorted(j.schedule.instants)
    ensures Advance(j, now).nextRun.Some? ==>
              forall x :: x in j.schedule.instants && x > now && x != j.nextRun.value ==>
                Advance(j, now).nextRun.value <= x
  {
    FindOtherIsEarliest(j.schedule, now, j.nextRun.value);
  }

  /** When the clock has not yet reached the next run, `schedule_next` may
      move the next run back: the next run only differs from the last run,
      it need not follow it. */
  lemma AdvanceMayMoveBack(j: JobState)
    requires j.schedule == Schedule([5, 10]) && j.nextRun == Some(10)
    ensures Advance(j, 0).nextRun == Some(5) && Advance(j, 0).lastRun == Some(10)
  {
    assert Upcoming(j.schedule, 0) == [5, 10];
  }

  /** The lines `run` logs, with those of `pay_invoice` in between. */
  datatype RunLog = Running(name: Option<string>) | Payment(verdict: Verdict) | Finished(name: Option<string>)

  function PaymentLines(vs: seq<Verdict>): (lines: seq<RunLog>)
    ensures |lines| == |vs| && forall i :: 0 <= i < |vs| ==> lines[i] == Payment(vs[i])
  {
    seq(|vs|, i requires 0 <= i < |vs| => Payment(vs[i]))
  }

  class Job {
    const configJob: ConfigJob
    const schedule: Schedule
    const url: string
    var nextRun: Option<Instant>
    var lastRun: Option<Instant>

    function State(): JobState
      reads this
    {
      JobState(configJob, schedule, url, nextRun, lastRun)
    }

    constructor FromState(s: JobState)
      ensures State() == s
    {
      configJob := s.configJob;
      schedule := s.schedule;
      url := s.url;
      nextRun := s.nextRun;
      lastRun := s.lastRun;
    }

    /** `Job::new`. */
    static method New(configJob: ConfigJob, parse: CronParser, codecs: Codecs, now: Instant) returns (r: Result<Job>)
      ensures r.Ok? <==> Created(configJob, parse, codecs, now).Ok?
      ensures r.Err? ==> r.failure == Created(configJob, parse, codecs, now).failure
      ensures r.Ok? ==> fresh(r.value) && r.value.State() == Created(configJob, parse, codecs, now).value
    {
      var parsed := parse(configJob.cronExpression);
      if parsed.None? {
        return Err(Exit("Job has an invalid schedule: " + configJob.cronExpression));
      }
      var schedule := parsed.value;
      var nextRun := First(Upcoming(schedule, now));
      var url := Resolve(configJob.lnAddressOrLnurl, codecs);
      if url.Err? {
        return Err(url.failure);
      }
      var job := new Job.FromState(JobState(configJob, schedule, url.value, nextRun, None));
      r := Ok(job);
    }

    /** `clone()`: a new job with the same value. */
    method Clone() returns (c: Job)
      ensures fresh(c) && c.State() == State()
    {
      c := new Job.FromState(State());
    }

    /** `schedule_next`, with the clock reading `now`. */
    method ScheduleNext(now: Instant)
      requires CanAdvance(State(), now)
      modifies this
      ensures State() == Advance(old(State()), now)
    {
      lastRun := nextRun;
      var upcoming := Upcoming(schedule, now);
      nextRun := if upcoming == [] then None else FindOther(upcoming, lastRun.value);
    }

    /** `run`: obtain an invoice, then pay it; a failure of either step ends
      the run with that failure, and "Finished" is logged only after both
      succeed. `invoice` is what was handed to `pay_invoice`, if it was
      called. */
    method Run(config: ValidConfig<Job>, fetchInfo: InfoFetcher, fetchInvoice: InvoiceFetcher, node: LndNode)
      returns (r: Result<()>, invoice: Option<PaymentRequest>, log: seq<RunLog>)
      ensures var negotiated := Negotiate(configJob, url, fetchInfo, fetchInvoice);
              match negotiated
              case Err(f) => r == Err(f) && invoice == None && log == [Running(configJob.name)]
              case Ok(pr) =>
                invoice == Some(pr) && r == PayResult(pr, config, node) &&
                log == [Running(configJob.name)] + PaymentLines(PayLog(pr, config, node)) +
                       (if r.Ok? then [Finished(configJob.name)] else [])
    {
      log := [Running(configJob.name)];
      var service := new LnurlService(configJob);
      var negotiated := service.GetInvoice(url, fetchInfo, fetchInvoice);
      if negotiated.Err? {
        return Err(negotiated.failure), None, log;
      }
      invoice := Some(negotiated.value);
      var paid, verdicts := PayInvoice(negotiated.value, configJob, config, node);
      log := log + PaymentLines(verdicts);
      if paid.Err? {
        return Err(paid.failure), invoice, log;
      }
      log := log + [Finished(configJob.name)];
      r := Ok(());
    }
  }

  /** The values of a sequence of jobs. */
  function States(jobs: seq<Job>): (s: seq<JobState>)
    reads jobs
    ensures |s| == |jobs| && forall i :: 0 <= i < |jobs| ==> s[i] == jobs[i].State()
  {
    seq(|jobs|, i reads jobs requires 0 <= i < |jobs| => jobs[i].State())
  }

  /** `jobs.iter().map(|job| Job::new(job.to_owned())).collect()`: the jobs in
      order, or the failure of the first one that cannot be built (which ends
      the process). */
  function CreatedAll(configJobs: seq<ConfigJob>, parse: CronParser, codecs: Codecs, now: Instant): Result<seq<JobState>>
    decreases |configJobs|
  {
    if |configJobs| == 0 then Ok([])
    else
      match Created(configJobs[0], parse, codecs, now)
      case Err(f) => Err(f)
      case Ok(first) =>
        match CreatedAll(configJobs[1..], parse, codecs, now)
        case Err(f) => Err(f)
        case Ok(rest) => Ok([first] + rest)
  }

  /** The jobs map one to one, in order: all are built exactly when each one
      is, the i-th being built from the i-th entry; otherwise the failure is
      that of the first entry that cannot be built. */
  lemma {:induction false} CreatedAllOneToOne(configJobs: seq<ConfigJob>, parse: CronParser, codecs: Codecs, now: Instant)
    ensures CreatedAll(configJobs, parse, codecs, now).Ok? <==>
              forall i :: 0 <= i < |configJobs| ==> Created(configJobs[i], parse, codecs, now).Ok?
    ensures CreatedAll(configJobs, parse, codecs, now).Ok? ==>
              var built := CreatedAll(configJobs, parse, codecs, now).value;
              |built| == |configJobs| &&
              forall i :: 0 <= i < |configJobs| ==> Created(configJobs[i], parse, codecs, now) == Ok(built[i])
    ensures CreatedAll(configJobs, parse, codecs, now).Err? ==>
              exists k :: 0 <= k < |configJobs| &&
                (forall i :: 0 <= i < k ==> Created(configJobs[i], parse, codecs, now).Ok?) &&
                Created(configJobs[k], parse, codecs, now) == Err(CreatedAll(configJobs, parse, codecs, now).failure)
    decreases |configJobs|
  {
    if |configJobs| > 0 {
      var tail := configJobs[1..];
      CreatedAllOneToOne(tail, parse, codecs, now);
      assert forall i :: 1 <= i < |configJobs| ==> configJobs[i] == tail[i - 1];
      if Created(configJobs[0], parse, codecs, now).Ok? && CreatedAll(tail, parse, codecs, now).Err? {
        var k :| 0 <= k < |tail| &&
          (forall i :: 0 <= i < k ==> Created(tail[i], parse, codecs, now).Ok?) &&
          Created(tail[k], parse, codecs, now) == Err(CreatedAll(tail, parse, codecs, now).failure);
        assert Created(configJobs[k + 1], parse, codecs, now) == Err(CreatedAll(configJobs, parse, codecs, now).failure);
      }
    }
  }

  /** `prefix` followed by the jobs of `built`, or its failure. */
  function Prepend(prefix: seq<JobState>, built: Result<seq<JobState>>): Result<seq<JobState>> {
    match built
    case Err(f) => Err(f)
    case Ok(rest) => Ok(prefix + rest)
  }

  lemma PrependTwice(prefix: seq<JobState>, s: JobState, built: Result<seq<JobState>>)
    ensures Prepend(prefix, Prepend([s], built)) == Prepend(prefix + [s], built)
  {
    if built.Ok? {
      assert prefix + ([s] + built.value) == (prefix + [s]) + built.value;
    }
  }

  /** Before the loop nothing is built and every entry remains. */
  lemma BuildStart(configJobs: seq<ConfigJob>, parse: CronParser, codecs: Codecs, now: Instant)
    ensures Prepend([], CreatedAll(configJobs[0..], parse, codecs, now)) == CreatedAll(configJobs, parse, codecs, now)
  {
    assert configJobs[0..] == configJobs;
    match CreatedAll(configJobs, parse, codecs, now)
    case Err(_) =>
    case Ok(rest) => assert [] + rest == rest;
  }

  /** Building entry `i` either ends the whole map with its failure or moves
      it from the remaining entries to the built prefix. */
  lemma BuildOneMore(configJobs: seq<ConfigJob>, i: nat, built: seq<JobState>, parse: CronParser, codecs: Codecs, now: Instant)
    requires i < |configJobs|
    requires Prepend(built, CreatedAll(configJobs[i..], parse, codecs, now)) == CreatedAll(configJobs, parse, codecs, now)
    ensures var one := Created(configJobs[i], parse, codecs, now);
            var all := CreatedAll(configJobs, parse, codecs, now);
            (one.Err? ==> all == Err(one.failure)) &&
            (one.Ok? ==> Prepend(built + [one.value], CreatedAll(configJobs[i + 1..], parse, codecs, now)) == all)
  {
    var tail := configJobs[i..];
    assert tail[0] == configJobs[i] && tail[1..] == configJobs[i + 1..];
    var one := Created(configJobs[i], parse, codecs, now);
    if one.Ok? {
      var rest := CreatedAll(configJobs[i + 1..], parse, codecs, now);
      assert CreatedAll(tail, parse, codecs, now) == Prepend([one.value], rest);
      PrependTwice(built, one.value, rest);
    }
  }

  /** Once no entry remains, the built prefix is the whole map. */
  lemma BuildEnd(configJobs: seq<ConfigJob>, built: seq<JobState>, parse: CronParser, codecs: Codecs, now: Instant)
    requires Prepend(built, CreatedAll(configJobs[|configJobs|..], parse, codecs, now)) == CreatedAll(configJobs, parse, codecs, now)
    ensures CreatedAll(configJobs, parse, codecs, now) == Ok(built)
  {
    assert configJobs[|configJobs|..] == [];
    assert built + [] == built;
  }

  /** The loop behind `map(Job::new).collect()`: fresh, distinct jobs whose
      values are those of `CreatedAll`. */
  method BuildJobs(configJobs: seq<ConfigJob>, parse: CronParser, codecs: Codecs, now: Instant) returns (r: Result<seq<Job>>)
    ensures r.Ok? <==> CreatedAll(configJobs, parse, codecs, now).Ok?
    ensures r.Err? ==> r.failure == CreatedAll(configJobs, parse, codecs, now).failure
    ensures r.Ok? ==> States(r.value) == CreatedAll(configJobs, parse, codecs, now).value
    ensures r.Ok? ==> forall i :: 0 <= i < |r.value| ==> fresh(r.value[i])
    ensures r.Ok? ==> forall i, j :: 0 <= i < j < |r.value| ==> r.value[i] != r.value[j]
  {
    var jobs: seq<Job> := [];
    ghost var built: seq<JobState> := [];
    var i := 0;
    BuildStart(configJobs, parse, codecs, now);
    while i < |configJobs|
      invariant 0 <= i <= |configJobs|
      invariant Prepend(built, CreatedAll(configJobs[i..], parse, codecs, now)) == CreatedAll(configJobs, parse, codecs, now)
      invariant |jobs| == |built| && forall k :: 0 <= k < |jobs| ==> jobs[k].State() == built[k]
      invariant forall k :: 0 <= k < |jobs| ==> fresh(jobs[k])
      invariant forall k, l :: 0 <= k < l < |jobs| ==> jobs[k] != jobs[l]
    {
      BuildOneMore(configJobs, i, built, parse, codecs, now);
      var job := Job.New(configJobs[i], parse, codecs, now);
      if job.Err? {
        return Err(job.failure);
      }
      var next := jobs + [job.value];
      assert forall k :: 0 <= k < |jobs| ==> next[k] == jobs[k] && jobs[k] != job.value;
      jobs := next;
      built := built + [job.value.State()];
      i := i + 1;
    }
    BuildEnd(configJobs, built, parse, codecs, now);
    assert States(jobs) == built;
    r := Ok(jobs);
  }
}
