/** `run_scheduler`: repeatedly pick the due job with the earliest next run,
    wait for it, advance it in place and hand a copy of it to a new task,
    until no job is due. Waiting advances the model's clock; spawning a task
    appends the copy to the list of dispatched jobs. */
module Scheduler {
  import opened Outcomes
  import opened Schedules
  import opened Config
  import opened Jobs

  /** The filter: a job is due when it has a next run that it has not
      already fired. */
  predicate Eligible(j: JobState) {
    j.nextRun.Some? && j.nextRun != j.lastRun
  }

  /** `filter(..).min_by_key(|job| job.next_run)`: the position of the due job
      with the earliest next run, the first such job on a tie, or None when
      no job is due. */
  function Select(jobs: seq<JobState>): (r: Option<nat>)
    ensures r.Some? ==> r.value < |jobs| && Eligible(jobs[r.value])
    decreases |jobs|
  {
    if |jobs| == 0 then None
    else
      var last := |jobs| - 1;
      var best := Select(jobs[..last]);
      if Eligible(jobs[last]) && (best.None? || jobs[last].nextRun.value < jobs[best.value].nextRun.value)
      then Some(last)
      else best
  }

  /** The selected job is due and has the earliest next run of all due jobs,
      strictly earlier than every due job before it; nothing is selected
      exactly when no job is due. */
  lemma {:induction false} SelectIsEarliest(jobs: seq<JobState>)
    ensures Select(jobs).None? <==> forall i :: 0 <= i < |jobs| ==> !Eligible(jobs[i])
    ensures Select(jobs).Some? ==>
              var k := Select(jobs).value;
              (forall i :: 0 <= i < |jobs| && Eligible(jobs[i]) ==> jobs[k].nextRun.value <= jobs[i].nextRun.value) &&
              (forall i :: 0 <= i < k && Eligible(jobs[i]) ==> jobs[k].nextRun.value < jobs[i].nextRun.value)
    decreases |jobs|
  {
    if |jobs| > 0 {
      var last := |jobs| - 1;
      var init := jobs[..last];
      assert forall i :: 0 <= i < last ==> init[i] == jobs[i];
      SelectIsEarliest(init);
    }
  }

  /** The selection is determined by its contract: the due job that no due
      job precedes in (next run, position) order. */
  lemma SelectUnique(jobs: seq<JobState>, k: nat)
    requires k < |jobs| && Eligible(jobs[k])
    requires forall i :: 0 <= i < |jobs| && Eligible(jobs[i]) ==> jobs[k].nextRun.value <= jobs[i].nextRun.value
    requires forall i :: 0 <= i < k && Eligible(jobs[i]) ==> jobs[k].nextRun.value < jobs[i].nextRun.value
    ensures Select(jobs) == Some(k)
  {
    SelectIsEarliest(jobs);
  }

  /** `TimeDelta::num_seconds`: whole seconds, truncated toward zero. */
  function WholeSecondsOf(nanos: int): (s: int)
    ensures nanos >= 0 ==> 0 <= s * NanosPerSecond <= nanos < s * NanosPerSecond + NanosPerSecond
    ensures nanos < 0 ==> s * NanosPerSecond - NanosPerSecond < nanos <= s * NanosPerSecond <= 0
  {
    if nanos >= 0 then nanos / NanosPerSecond else -((-nanos) / NanosPerSecond)
  }

  /** Truncation toward zero: the whole seconds lie between `nanos` and zero,
      less than a second from `nanos`. */
  lemma WholeSecondsOfBounds(nanos: int)
    ensures var s := WholeSecondsOf(nanos);
            (nanos >= 0 ==> s * NanosPerSecond <= nanos < s * NanosPerSecond + NanosPerSecond) &&
            (nanos < 0 ==> s * NanosPerSecond - NanosPerSecond < nanos <= s * NanosPerSecond)
  {
  }

  const U64Modulus: int := 0x1_0000_0000_0000_0000

  /** `x as u64` from a signed integer: two's-complement wrap-around. */
  function AsU64(x: int): (u: int)
    ensures 0 <= u < U64Modulus && (x - u) % U64Modulus == 0
  {
    x % U64Modulus
  }

  /** The cast keeps a value a `u64` can hold and adds 2^64 to a negative
      value an `i64` can hold. */
  lemma AsU64Wraps(x: int)
    ensures 0 <= AsU64(x) < U64Modulus
    ensures 0 <= x < U64Modulus ==> AsU64(x) == x
    ensures -U64Modulus <= x < 0 ==> AsU64(x) == x + U64Modulus
  {
  }

  /** `job_next_run.signed_duration_since(now).num_seconds() as u64`: the
      `u64` value congruent, modulo 2^64, to the whole seconds until the due
      time. */
  function WaitSeconds(nextRun: Instant, now: Instant): (w: nat)
    ensures w < U64Modulus
    ensures (w - WholeSecondsOf(nextRun - now)) % U64Modulus == 0
  {
    AsU64(WholeSecondsOf(nextRun - now))
  }

  /** A due time less than a second away, or passed by less than a second,
      gives no wait. */
  lemma WaitWithinASecond(nextRun: Instant, now: Instant)
    requires -NanosPerSecond < nextRun - now < NanosPerSecond
    ensures WaitSeconds(nextRun, now) == 0
  {
    AsU64Wraps(WholeSecondsOf(nextRun - now));
  }

  /** A future due time gives the whole seconds until it: the sleep ends less
      than a second before the due time. */
  lemma WaitAhead(nextRun: Instant, now: Instant)
    requires 0 <= nextRun - now < U64Modulus * NanosPerSecond
    ensures var w := WaitSeconds(nextRun, now);
            now + w * NanosPerSecond <= nextRun < now + w * NanosPerSecond + NanosPerSecond
  {
    var s := WholeSecondsOf(nextRun - now);
    WholeSecondsOfBounds(nextRun - now);
    assert s < U64Modulus;
    AsU64Wraps(s);
  }

  /** A due time passed by a second or more wraps around: the wait is
      2^64 minus the whole seconds overdue, not zero. */
  lemma WaitOverdue(nextRun: Instant, now: Instant)
    requires -U64Modulus * NanosPerSecond < nextRun - now <= -NanosPerSecond
    ensures WaitSeconds(nextRun, now) == U64Modulus - (now - nextRun) / NanosPerSecond
    ensures WaitSeconds(nextRun, now) > 0
  {
    var d := now - nextRun;
    assert 1 <= d / NanosPerSecond;
    assert d / NanosPerSecond < U64Modulus;
    AsU64Wraps(WholeSecondsOf(nextRun - now));
  }

  /** The loop sleeps exactly when the whole seconds to the due time are not
      zero modulo 2^64, for at least a second in either direction. */
  lemma SleepsWhenASecondOff(nextRun: Instant, now: Instant)
    requires -U64Modulus * NanosPerSecond < nextRun - now < U64Modulus * NanosPerSecond
    ensures WaitSeconds(nextRun, now) > 0 <==> (nextRun - now >= NanosPerSecond || nextRun - now <= -NanosPerSecond)
  {
    if nextRun - now >= NanosPerSecond {
      WaitAhead(nextRun, now);
    } else if nextRun - now <= -NanosPerSecond {
      WaitOverdue(nextRun, now);
    }
  }

  /** The clock once the wait is over: `tokio::time::sleep` runs only for a
      positive wait. */
  function AfterWait(clock: Instant, wait: nat): (c: Instant)
    ensures c >= clock
  {
    if wait > 0 then clock + wait * NanosPerSecond else clock
  }

  /** One pass of the loop body: nothing is due, or the job at `index` was
      selected, the loop waited `wait` seconds until `clock`, and the job was
      advanced to `snapshot`. */
  datatype Step = Drained | Fired(index: nat, wait: nat, clock: Instant, snapshot: JobState)

  function NextStep(jobs: seq<JobState>, clock: Instant): (step: Step)
    ensures step.Drained? <==> Select(jobs).None?
    ensures step.Fired? ==> Select(jobs) == Some(step.index) && step.index < |jobs|
  {
    match Select(jobs)
    case None => Drained
    case Some(k) =>
      var wait := WaitSeconds(jobs[k].nextRun.value, clock);
      var now := AfterWait(clock, wait);
      Fired(k, wait, now, Advance(jobs[k], now))
  }

  /** What the loop records: a sleep, and a job handed to a new task (its
      position and the copy the task receives). */
  datatype Event = Slept(seconds: nat) | Spawned(index: nat, job: JobState)

  function StepEvents(step: Step): (events: seq<Event>)
    ensures step.Drained? <==> events == []
    ensures step.Fired? ==> events[|events| - 1] == Spawned(step.index, step.snapshot)
    ensures step.Fired? ==> (|events| == 2 <==> step.wait > 0) && |events| <= 2
    ensures step.Fired? && step.wait > 0 ==> events[0] == Slept(step.wait)
  {
    match step
    case Drained => []
    case Fired(k, wait, _, snapshot) => (if wait > 0 then [Slept(wait)] else []) + [Spawned(k, snapshot)]
  }

  /** A run of the loop: what it recorded, whether it stopped because no job
      was due, and the jobs at the end. */
  datatype Run = Run(events: seq<Event>, drained: bool, jobs: seq<JobState>)

  /** The loop, from `jobs` and the clock reading `clock`, for at most `fuel`
      passes. The job vector keeps its length, and the loop can stop by
      itself only in a pass it still has. */
  function RunSpec(jobs: seq<JobState>, clock: Instant, fuel: nat): (r: Run)
    ensures |r.jobs| == |jobs|
    ensures r.drained ==> fuel > 0
    decreases fuel, 0
  {
    if fuel == 0 then Run([], false, jobs) else Continue(jobs, NextStep(jobs, clock), fuel - 1)
  }

  /** The rest of the loop once one pass has chosen `step`: a pass that
      finds nothing due stops it. */
  function Continue(jobs: seq<JobState>, step: Step, fuel: nat): (r: Run)
    requires step.Fired? ==> step.index < |jobs|
    ensures |r.jobs| == |jobs|
    ensures r.drained ==> step.Drained? || fuel > 0
    decreases fuel, 1
  {
    match step
    case Drained => Run([], true, jobs)
    case Fired(k, _, now, snapshot) =>
      var rest := RunSpec(jobs[k := snapshot], now, fuel);
      Run(StepEvents(step) + rest.events, rest.drained, rest.jobs)
  }

  /** The job vector after a pass: the selected job is replaced by its
      advanced value and no other job changes. */
  function Apply(jobs: seq<JobState>, step: Step): (r: seq<JobState>)
    requires step.Fired? ==> step.index < |jobs|
    ensures |r| == |jobs|
  {
    if step.Fired? then jobs[step.index := step.snapshot] else jobs
  }

  /** A pass changes only the job it selected: the vector keeps its length
      and order, and every other job keeps its value. */
  lemma ApplyKeepsOthers(jobs: seq<JobState>, step: Step)
    requires step.Fired? ==> step.index < |jobs|
    ensures var after := Apply(jobs, step);
            |after| == |jobs| &&
            (step.Fired? ==> after[step.index] == step.snapshot) &&
            forall i :: 0 <= i < |jobs| && !(step.Fired? && i == step.index) ==> after[i] == jobs[i]
  {
  }

  /** A run with `prefix` recorded before it. */
  function Extend(prefix: seq<Event>, run: Run): Run {
    Run(prefix + run.events, run.drained, run.jobs)
  }

  /** The jobs handed to tasks, in dispatch order. */
  function Dispatched(events: seq<Event>): seq<JobState> {
    if |events| == 0 then []
    else (if events[0].Spawned? then [events[0].job] else []) + Dispatched(events[1..])
  }

  /** When no job is due the loop stops at once and dispatches nothing. */
  lemma NothingDueNothingDispatched(jobs: seq<JobState>, clock: Instant, fuel: nat)
    requires fuel > 0
    requires forall i :: 0 <= i < |jobs| ==> !Eligible(jobs[i])
    ensures RunSpec(jobs, clock, fuel) == Run([], true, jobs)
  {
  }

  /** A pass that fires dispatches exactly the advanced job. */
  lemma StepDispatches(step: Step)
    requires step.Fired?
    ensures Dispatched(StepEvents(step)) == [step.snapshot]
  {
    var ev := StepEvents(step);
    if step.wait > 0 {
      assert ev[1..] == [Spawned(step.index, step.snapshot)];
      assert Dispatched(ev[1..][1..]) == [] by {
        assert ev[1..][1..] == [];
      }
    } else {
      assert ev[1..] == [];
    }
  }

  /** The loop stops only when no job is due. */
  lemma {:induction false} DrainedMeansNothingDue(jobs: seq<JobState>, clock: Instant, fuel: nat)
    ensures var run := RunSpec(jobs, clock, fuel);
            run.drained ==> forall i :: 0 <= i < |run.jobs| ==> !Eligible(run.jobs[i])
    decreases fuel
  {
    if fuel > 0 {
      var step := NextStep(jobs, clock);
      if step.Fired? {
        DrainedMeansNothingDue(Apply(jobs, step), step.clock, fuel - 1);
        assert RunSpec(jobs, clock, fuel).jobs == RunSpec(Apply(jobs, step), step.clock, fuel - 1).jobs;
        assert RunSpec(jobs, clock, fuel).drained == RunSpec(Apply(jobs, step), step.clock, fuel - 1).drained;
      } else {
        SelectIsEarliest(jobs);
        assert RunSpec(jobs, clock, fuel) == Run([], true, jobs);
      }
    }
  }

  /** Each pass that does not stop dispatches one job: a run that stopped
      dispatched fewer than `fuel` jobs, one that did not dispatched exactly
      `fuel`. */
  lemma {:induction false} DispatchCount(jobs: seq<JobState>, clock: Instant, fuel: nat)
    ensures var run := RunSpec(jobs, clock, fuel);
            (run.drained ==> |Dispatched(run.events)| < fuel) &&
            (!run.drained ==> |Dispatched(run.events)| == fuel)
    decreases fuel, 0
  {
    if fuel > 0 {
      var step := NextStep(jobs, clock);
      ContinueCount(jobs, step, fuel - 1);
      assert RunSpec(jobs, clock, fuel) == Continue(jobs, step, fuel - 1);
    } else {
      assert RunSpec(jobs, clock, fuel) == Run([], false, jobs);
      assert Dispatched([]) == [];
    }
  }

  lemma {:induction false} ContinueCount(jobs: seq<JobState>, step: Step, fuel: nat)
    requires step.Fired? ==> step.index < |jobs|
    ensures var run := Continue(jobs, step, fuel);
            (run.drained ==> |Dispatched(run.events)| < fuel + 1) &&
            (!run.drained ==> |Dispatched(run.events)| == fuel + 1)
    decreases fuel, 1
  {
    if step.Fired? {
      var rest := RunSpec(Apply(jobs, step), step.clock, fuel);
      assert Continue(jobs, step, fuel) == Run(StepEvents(step) + rest.events, rest.drained, rest.jobs);
      DispatchCount(Apply(jobs, step), step.clock, fuel);
      DispatchedAppend(StepEvents(step), rest.events);
      StepDispatches(step);
    } else {
      assert Continue(jobs, step, fuel) == Run([], true, jobs);
      assert Dispatched([]) == [];
    }
  }

  lemma {:induction false} DispatchedAppend(a: seq<Event>, b: seq<Event>)
    ensures Dispatched(a + b) == Dispatched(a) + Dispatched(b)
    decreases |a|
  {
    if |a| > 0 {
      assert (a + b)[0] == a[0];
      assert (a + b)[1..] == a[1..] + b;
      DispatchedAppend(a[1..], b);
    } else {
      assert a + b == b;
    }
  }

  /** Every dispatched copy has fired its next run: `last_run` is present
      and the new `next_run`, if any, differs from it. */
  lemma {:induction false} DispatchedHaveFired(jobs: seq<JobState>, clock: Instant, fuel: nat)
    ensures forall s :: s in Dispatched(RunSpec(jobs, clock, fuel).events) ==> HasFired(s)
    decreases fuel, 0
  {
    if fuel > 0 {
      var step := NextStep(jobs, clock);
      if step.Fired? {
        SelectIsEarliest(jobs);
        assert HasFired(step.snapshot);
      }
      ContinueHaveFired(jobs, step, fuel - 1);
    } else {
      assert RunSpec(jobs, clock, fuel).events == [];
    }
  }

  /** The copy a task receives has fired: its last run is present and its
      next run, if any, differs from it. */
  predicate HasFired(s: JobState) {
    s.lastRun.Some? && (s.nextRun.Some? ==> s.nextRun != s.lastRun)
  }

  lemma {:induction false} ContinueHaveFired(jobs: seq<JobState>, step: Step, fuel: nat)
    requires step.Fired? ==> step.index < |jobs| && HasFired(step.snapshot)
    ensures forall s :: s in Dispatched(Continue(jobs, step, fuel).events) ==> HasFired(s)
    decreases fuel, 1
  {
    if step.Fired? {
      var rest := RunSpec(Apply(jobs, step), step.clock, fuel);
      assert Continue(jobs, step, fuel).events == StepEvents(step) + rest.events;
      DispatchedHaveFired(Apply(jobs, step), step.clock, fuel);
      DispatchedAppend(StepEvents(step), rest.events);
      StepDispatches(step);
    } else {
      assert Continue(jobs, step, fuel).events == [];
    }
  }

  /** Fire times are whole seconds. */
  lemma WholeSecondsMember(s: Schedule, x: Instant)
    requires WholeSeconds(s) && x in s.instants
    ensures x % NanosPerSecond == 0
  {
    var i :| 0 <= i < |s.instants| && s.instants[i] == x;
  }

  /** Two different whole seconds are at least a second apart. */
  lemma WholeSecondsApart(n: Instant, t: Instant)
    requires n % NanosPerSecond == 0 && t % NanosPerSecond == 0
    requires n != t && n > t - NanosPerSecond
    ensures n > t
  {
    var a, b := n / NanosPerSecond, t / NanosPerSecond;
    assert n == a * NanosPerSecond && t == b * NanosPerSecond;
    assert (b - 1) * NanosPerSecond == t - NanosPerSecond;
    assert b - 1 < a;
    assert a != b;
    assert (b + 1) * NanosPerSecond <= a * NanosPerSecond;
  }

  /** Spawning early is bounded: once the wait for a due time `t` is over,
      the clock is past `t` less one second. */
  lemma WaitEndsWithinASecond(t: Instant, clock: Instant)
    requires t - clock < U64Modulus * NanosPerSecond
    ensures AfterWait(clock, WaitSeconds(t, clock)) > t - NanosPerSecond
  {
    if t - clock >= 0 {
      WaitAhead(t, clock);
    }
  }

  /** Before the loop: every fire time is a whole second, every next run is
      a fire time, and no fire time lies 2^64 seconds or more past the
      clock. */
  predicate InHorizon(jobs: seq<JobState>, clock: Instant) {
    forall i :: 0 <= i < |jobs| ==>
      WholeSeconds(jobs[i].schedule) && OnSchedule(jobs[i]) &&
      forall x :: x in jobs[i].schedule.instants ==> x - clock < U64Modulus * NanosPerSecond
  }

  /** `(t, k)` comes before `(t2, k2)`: an earlier time, or the same time at
      an earlier position. */
  predicate Precedes(t: Instant, k: nat, t2: Instant, k2: nat) {
    t < t2 || (t == t2 && k < k2)
  }

  /** Every due job comes after `(t, k)`. */
  predicate DueAfter(jobs: seq<JobState>, t: Instant, k: nat) {
    forall i :: 0 <= i < |jobs| && Eligible(jobs[i]) ==> Precedes(t, k, jobs[i].nextRun.value, i)
  }

  /** A dispatch of a job that fired at a time and position after `(t, k)`. */
  predicate FiredAfter(t: Instant, k: nat, e: Event) {
    e.Spawned? ==> e.job.lastRun.Some? && Precedes(t, k, e.job.lastRun.value, e.index)
  }

  /** Jobs are dispatched in (fire time, position) order: by time, and on a
      tie in the order of the job vector. */
  predicate InDispatchOrder(events: seq<Event>) {
    forall i, j :: 0 <= i < j < |events| ==> Earlier(events[i], events[j])
  }

  /** `b` is not a dispatch that `a`, if a dispatch, comes after. */
  predicate Earlier(a: Event, b: Event) {
    a.Spawned? ==> a.job.lastRun.Some? && FiredAfter(a.job.lastRun.value, a.index, b)
  }

  /** A pass that fires keeps the horizon and leaves every due job after the
      one it fired: the advanced job moves past its old next run, and the
      other due jobs already came after it. */
  lemma StepMovesOn(jobs: seq<JobState>, clock: Instant)
    requires InHorizon(jobs, clock) && NextStep(jobs, clock).Fired?
    ensures var step := NextStep(jobs, clock);
            var fired := jobs[step.index].nextRun;
            fired.Some? && step.snapshot.lastRun == fired &&
            InHorizon(Apply(jobs, step), step.clock) &&
            DueAfter(Apply(jobs, step), fired.value, step.index)
  {
    var step := NextStep(jobs, clock);
    var k := step.index;
    var j := jobs[k];
    var t := j.nextRun.value;
    var next := Apply(jobs, step);
    SelectIsEarliest(jobs);
    assert step.snapshot == Advance(j, step.clock);
    assert t in j.schedule.instants;
    WaitEndsWithinASecond(t, clock);
    assert step.clock > t - NanosPerSecond;
    if step.snapshot.nextRun.Some? {
      var n := step.snapshot.nextRun.value;
      WholeSecondsMember(j.schedule, n);
      WholeSecondsMember(j.schedule, t);
      WholeSecondsApart(n, t);
    }
    forall i | 0 <= i < |next|
      ensures WholeSeconds(next[i].schedule) && OnSchedule(next[i]) &&
              forall x :: x in next[i].schedule.instants ==> x - step.clock < U64Modulus * NanosPerSecond
    {
      assert next[i].schedule == jobs[i].schedule;
    }
    forall i | 0 <= i < |next| && Eligible(next[i])
      ensures Precedes(t, k, next[i].nextRun.value, i)
    {
      if i != k {
        assert next[i] == jobs[i];
      }
    }
  }

  lemma InDispatchOrderAppend(a: seq<Event>, b: seq<Event>)
    requires InDispatchOrder(a) && InDispatchOrder(b)
    requires forall i, j :: 0 <= i < |a| && 0 <= j < |b| ==> Earlier(a[i], b[j])
    ensures InDispatchOrder(a + b)
  {
    var ab := a + b;
    forall i, j | 0 <= i < j < |ab| ensures Earlier(ab[i], ab[j]) {
      if j < |a| {
        assert ab[i] == a[i] && ab[j] == a[j];
        assert Earlier(a[i], a[j]);
      } else if i < |a| {
        assert ab[i] == a[i] && ab[j] == b[j - |a|];
        assert Earlier(a[i], b[j - |a|]);
      } else {
        assert ab[i] == b[i - |a|] && ab[j] == b[j - |a|];
        assert Earlier(b[i - |a|], b[j - |a|]);
      }
    }
  }

  /** Events in dispatch order that all fired after `(t, k)`. */
  predicate OrderedAfter(events: seq<Event>, t: Instant, k: nat) {
    InDispatchOrder(events) && forall i :: 0 <= i < |events| ==> FiredAfter(t, k, events[i])
  }

  /** The events of a pass that fired after `(t, k)`, followed by events in
      order that all fired after it, are in order and all after `(t, k)`. */
  lemma PrefixKeepsOrder(t: Instant, k: nat, step: Step, rest: seq<Event>)
    requires step.Fired? && step.snapshot.lastRun.Some?
    requires Precedes(t, k, step.snapshot.lastRun.value, step.index)
    requires OrderedAfter(rest, step.snapshot.lastRun.value, step.index)
    ensures OrderedAfter(StepEvents(step) + rest, t, k)
  {
    var head := StepEvents(step);
    assert forall i :: 0 <= i < |head| && head[i].Spawned? ==> head[i] == Spawned(step.index, step.snapshot);
    InDispatchOrderAppend(head, rest);
    forall i | 0 <= i < |head + rest| ensures FiredAfter(t, k, (head + rest)[i]) {
      if i >= |head| {
        assert (head + rest)[i] == rest[i - |head|];
      }
    }
  }

  /** From jobs that are all due after `(t, k)`, the loop dispatches in
      order and only after `(t, k)`. */
  lemma {:induction false} InOrderFrom(jobs: seq<JobState>, clock: Instant, fuel: nat, t: Instant, k: nat)
    requires InHorizon(jobs, clock) && DueAfter(jobs, t, k)
    ensures OrderedAfter(RunSpec(jobs, clock, fuel).events, t, k)
    decreases fuel
  {
    if fuel > 0 {
      var step := NextStep(jobs, clock);
      if step.Fired? {
        var next := Apply(jobs, step);
        StepMovesOn(jobs, clock);
        var fired := jobs[step.index].nextRun.value;
        assert step.snapshot.lastRun == Some(fired);
        assert Precedes(t, k, fired, step.index) by {
          assert Eligible(jobs[step.index]);
        }
        InOrderFrom(next, step.clock, fuel - 1, fired, step.index);
        var rest := RunSpec(next, step.clock, fuel - 1).events;
        assert RunSpec(jobs, clock, fuel).events == StepEvents(step) + rest;
        PrefixKeepsOrder(t, k, step, rest);
      } else {
        assert RunSpec(jobs, clock, fuel).events == [];
      }
    }
  }

  /** Within the horizon the loop dispatches jobs in (fire time, position)
      order. It relies on whole-second schedules: an advanced job with a fire
      time less than a second before its old next run could be selected
      again at that earlier time. */
  lemma DispatchOrder(jobs: seq<JobState>, clock: Instant, fuel: nat)
    requires InHorizon(jobs, clock)
    ensures InDispatchOrder(RunSpec(jobs, clock, fuel).events)
  {
    var first := Select(jobs);
    SelectIsEarliest(jobs);
    if first.Some? {
      InOrderFrom(jobs, clock, fuel, jobs[first.value].nextRun.value - 1, 0);
    } else {
      InOrderFrom(jobs, clock, fuel, 0, 0);
    }
  }

  /** A pass that fires moves its events into the recorded prefix. */
  lemma ExtendByPass(prefix: seq<Event>, jobs: seq<JobState>, after: seq<JobState>, clock: Instant, fuel: nat, step: Step)
    requires fuel > 0 && step == NextStep(jobs, clock) && step.Fired? && after == Apply(jobs, step)
    ensures Extend(prefix, RunSpec(jobs, clock, fuel)) ==
            Extend(prefix + StepEvents(step), RunSpec(after, step.clock, fuel - 1))
  {
    var rest := RunSpec(after, step.clock, fuel - 1);
    assert RunSpec(jobs, clock, fuel) == Extend(StepEvents(step), rest);
    assert prefix + (StepEvents(step) + rest.events) == (prefix + StepEvents(step)) + rest.events;
  }

  /** A pass that finds nothing due ends the run. */
  lemma EndByPass(prefix: seq<Event>, jobs: seq<JobState>, clock: Instant, fuel: nat)
    requires fuel > 0 && NextStep(jobs, clock).Drained?
    ensures Extend(prefix, RunSpec(jobs, clock, fuel)) == Run(prefix, true, jobs)
  {
    assert prefix + [] == prefix;
  }

  /** No job object occurs twice. */
  predicate Distinct(jobs: seq<Job>)
    decreases |jobs|
  {
    |jobs| == 0 || (jobs[0] !in jobs[1..] && Distinct(jobs[1..]))
  }

  /** `Distinct` holds exactly when any two positions hold different jobs. */
  lemma {:induction false} DistinctIndices(jobs: seq<Job>)
    ensures Distinct(jobs) <==> forall i, j :: 0 <= i < j < |jobs| ==> jobs[i] != jobs[j]
    decreases |jobs|
  {
    if |jobs| > 0 {
      var tail := jobs[1..];
      DistinctIndices(tail);
      assert forall i :: 1 <= i < |jobs| ==> jobs[i] == tail[i - 1];
      if forall i, j :: 0 <= i < j < |jobs| ==> jobs[i] != jobs[j] {
        assert forall i, j :: 0 <= i < j < |tail| ==> tail[i] != tail[j] by {
          forall i, j | 0 <= i < j < |tail| ensures tail[i] != tail[j] {
            assert jobs[i + 1] != jobs[j + 1];
          }
        }
        assert jobs[0] !in tail by {
          forall i | 0 <= i < |tail| ensures tail[i] != jobs[0] {
            assert jobs[0] != jobs[i + 1];
          }
        }
      }
    }
  }

  /** In distinct jobs, the one at `k` is at no other position. */
  lemma DistinctAt(jobs: seq<Job>, k: nat)
    requires Distinct(jobs) && k < |jobs|
    ensures forall i :: 0 <= i < |jobs| && i != k ==> jobs[i] != jobs[k]
  {
    DistinctIndices(jobs);
  }

  /** `config.jobs.clone()`: fresh jobs with the same values. */
  method CloneJobs(jobs: seq<Job>) returns (copies: seq<Job>)
    ensures States(copies) == States(jobs)
    ensures forall i :: 0 <= i < |copies| ==> fresh(copies[i])
    ensures forall i, j :: 0 <= i < j < |copies| ==> copies[i] != copies[j]
  {
    copies := [];
    var i := 0;
    while i < |jobs|
      invariant 0 <= i <= |jobs| && |copies| == i
      invariant forall j :: 0 <= j < i ==> copies[j].State() == jobs[j].State()
      invariant forall j :: 0 <= j < i ==> fresh(copies[j])
      invariant forall j, l :: 0 <= j < l < i ==> copies[j] != copies[l]
    {
      var c := jobs[i].Clone();
      copies := copies + [c];
      i := i + 1;
    }
  }

  /** The loop body: select, wait, `schedule_next` in place, clone the job
      for the new task. */
  method Pass(jobs: seq<Job>, clock: Instant) returns (step: Step)
    requires Distinct(jobs)
    modifies jobs
    ensures step == NextStep(old(States(jobs)), clock)
    ensures States(jobs) == Apply(old(States(jobs)), step)
    ensures step.Fired? ==> step.snapshot == jobs[step.index].State()
  {
    var k := Select(States(jobs));
    if k.None? {
      return Drained;
    }
    ghost var before := States(jobs);
    var i := k.value;
    DistinctAt(jobs, i);
    var job := jobs[i];
    assert job.State() == before[i];
    var wait := WaitSeconds(job.nextRun.value, clock);
    var now := clock;
    if wait > 0 {
      now := clock + wait * NanosPerSecond;
    }
    ghost var expected := NextStep(before, clock);
    assert expected == Fired(i, wait, now, Advance(before[i], now));
    job.ScheduleNext(now);
    var copy := job.Clone();
    step := Fired(i, wait, now, copy.State());
    assert step == expected;
    assert forall l :: 0 <= l < |jobs| && l != i ==> jobs[l].State() == before[l];
    assert States(jobs) == before[i := step.snapshot];
  }

  /** One pass of the loop body, with the ghost bookkeeping that ties it to
      `RunSpec`: `events` and `clock` are what the loop holds before the pass,
      and `target` is the whole run being followed. */
  method PassWithin(jobs: seq<Job>, clock: Instant, events: seq<Event>, ghost model: seq<JobState>,
                    ghost left: nat, ghost target: Run)
    returns (done: bool, events': seq<Event>, clock': Instant, ghost model': seq<JobState>)
    requires Distinct(jobs)
    requires States(jobs) == model && left > 0
    requires Extend(events, RunSpec(model, clock, left)) == target
    modifies jobs
    ensures States(jobs) == model'
    ensures done ==> Run(events', true, model') == target
    ensures !done ==> Extend(events', RunSpec(model', clock', left - 1)) == target
  {
    var step := Pass(jobs, clock);
    if step.Drained? {
      EndByPass(events, model, clock, left);
      done, events', clock', model' := true, events, clock, model;
    } else {
      ExtendByPass(events, model, Apply(model, step), clock, left, step);
      done, events', clock', model' := false, events + StepEvents(step), step.clock, Apply(model, step);
    }
  }

  /** A run whose passes are used up ends with what was recorded so far. */
  lemma EndByFuel(events: seq<Event>, model: seq<JobState>, clock: Instant, target: Run)
    requires Extend(events, RunSpec(model, clock, 0)) == target
    ensures target.events == events && !target.drained
  {
    assert events + [] == events;
  }

  /** The `loop` of `run_scheduler` over `jobs`, for at most `fuel` passes. */
  method Drive(jobs: seq<Job>, start: Instant, fuel: nat) returns (events: seq<Event>, drained: bool)
    requires Distinct(jobs)
    modifies jobs
    ensures events == RunSpec(old(States(jobs)), start, fuel).events
    ensures drained == RunSpec(old(States(jobs)), start, fuel).drained
    ensures States(jobs) == RunSpec(old(States(jobs)), start, fuel).jobs
  {
    ghost var target := RunSpec(States(jobs), start, fuel);
    var clock := start;
    events := [];
    drained := false;
    var left := fuel;
    ghost var model := States(jobs);
    assert [] + target.events == target.events;
    while left > 0
      invariant States(jobs) == model
      invariant Extend(events, RunSpec(model, clock, left)) == target
    {
      var done;
      done, events, clock, model := PassWithin(jobs, clock, events, model, left, target);
      if done {
        drained := true;
        return;
      }
      left := left - 1;
    }
    EndByFuel(events, model, clock, target);
  }

  /** `run_scheduler` from the clock reading `start`, for at most `fuel`
      passes: it records what the loop does and whether it stopped because
      no job was due. The jobs of `config` are not changed. */
  method RunScheduler(config: ValidConfig<Job>, start: Instant, fuel: nat) returns (events: seq<Event>, drained: bool)
    ensures events == RunSpec(States(config.jobs), start, fuel).events
    ensures drained == RunSpec(States(config.jobs), start, fuel).drained
  {
    var jobs := CloneJobs(config.jobs);
    DistinctIndices(jobs);
    events, drained := Drive(jobs, start, fuel);
  }
}
