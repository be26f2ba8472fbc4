# lnrecc in Dafny

lnrecc pays Lightning invoices on a cron schedule. Each configured job
names a cron expression, an amount in satoshis and a destination. The
destination is either a Lightning Address (`user@domain`, LUD-16) or a
bech32 LNURL (LUD-01). The scheduler repeatedly picks the due job with the
earliest next run, waits until it is due, advances it to its next fire time
and hands a copy to a new task. That task runs the LNURL-pay exchange
(LUD-06, with the LUD-12 `comment` parameter) to get an invoice, then pays
the invoice through an LND node and logs the payment updates it streams
back.

This project models that core and proves properties of the model:

- `Schedules`: a parsed cron schedule as a finite sequence of fire times,
  with `upcoming` and `find(|t| t != last)`.
- `Strings`: `split`, ASCII `to_uppercase`, `replacen(.., 1)` and decimal
  formatting.
- `Config`: the configuration records and the expansion of `~` in paths.
- `Lnurl`: destination resolution, and the `LnurlService` class together
  with its three chained steps.
- `Lnd`: the `pay_invoice` request and the loop that reads the payment
  status stream.
- `Jobs`: the `Job` class (`new`, `clone`, `schedule_next`, `run`) and the
  in-order building of all configured jobs.
- `ConfigLoad`: `ValidConfig::new` after the YAML file has been parsed.
- `Scheduler`: `run_scheduler`. The pure function `RunSpec` specifies the
  whole run on job values. The imperative loop `Drive` works on `Job`
  objects in place. It is proved to record the same events as `RunSpec`, to
  stop exactly when `RunSpec` does, and to leave the `Job` objects holding
  the job values `RunSpec` ends with.
- `Prototype`: the earlier single-file program in `src/main.rs`. Its
  resolver, `Job::new`, `schedule_next` and scheduler loop are the same code
  as in the later files, so the same members model them. In
  `src/main.rs`, these are:
  - the resolver at lines 15-32, modelled by `Lnurl.Resolve` and
    `Lnurl.ResolveLightningAddress`;
  - the loop at lines 73-114, modelled by `Scheduler.RunScheduler` and the
    lemmas about `RunSpec`, with the same filter, the same first-minimum
    selection and the same exit when nothing is due;
  - `Job::new` at lines 170-196, modelled by `Jobs.Created`;
  - `schedule_next` at lines 198-205, modelled by `Jobs.Job.ScheduleNext`.

  Its own `ValidConfig::new` is modelled separately.

Things the program reads from the outside world become parameters:

- the clock (`Instant`, in nanoseconds);
- the cron parser;
- the bech32 and UTF-8 decoders;
- the two HTTP+JSON fetches;
- the node connection;
- the payment stream;
- the HOME variable.

## Where the code and the intended behaviour differ

The model follows the code in all three cases.

- **Overdue jobs.** The intended behaviour is that an overdue job runs at
  once, with no wait. The code casts the signed number of whole seconds to `u64`. A job overdue by
  one second or more therefore gets a wait of 2^64 minus the seconds
  overdue, which is effectively forever. `Scheduler.WaitOverdue` states
  this.
- **Next-run ordering.** The intended behaviour is that advancing a job
  moves its next run past its last run. The code only guarantees that the new next run differs
  from the last run. When the clock has not reached the old next run, an
  earlier fire time can become the new next run.
  `Jobs.AdvanceMayMoveBack` exhibits this. Under the scheduler's own
  conditions the next run does move forward: the wait ends less than a
  second before the due time, and fire times are whole seconds.
  `Scheduler.StepMovesOn` proves it in that setting.
- **Undecodable LNURL.** The intended behaviour is that a destination
  which is neither a Lightning Address nor a valid LNURL is reported as an
  error. The code calls `expect` on the bech32 and UTF-8 decoding results
  (src/lnurl.rs:110,112), so the whole process panics and stops. The model
  represents this as `Err(Panic(DecodeFailed))` or `Err(Panic(Utf8Failed))`
  from `Lnurl.Resolve`, a failure that no caller handles.

## Model

| member | source | states |
|---|---|---|
| Scheduler.Eligible | src/scheduler.rs:16 | the filter of the loop: a job is due exactly when it has a next run and that next run is not its last run; its consequences are stated by `Scheduler.Select` and `Scheduler.SelectIsEarliest` |
| Scheduler.Select | src/scheduler.rs:12-17 | the chosen position, if any, is in range and names a job whose next run is present and differs from its last run |
| Scheduler.SelectIsEarliest | src/scheduler.rs:16-17 | nothing is chosen exactly when no job is due; the chosen job's next run is at most every due job's, and strictly before every due job at an earlier position (first minimum on ties) |
| Scheduler.SelectUnique | src/scheduler.rs:16-17 | any due job that is earliest and strictly earlier than all due jobs before it is the one selected, so the selection is fully determined |
| Scheduler.WholeSecondsOf | src/scheduler.rs:25-27 | `num_seconds()`: a non-negative duration gives the whole seconds it contains, and a negative one the negated whole seconds of its magnitude; equivalently, the result times one second lies between zero and the duration, less than a second from it |
| Scheduler.AsU64 | src/scheduler.rs:27 | the `as u64` cast: the result is a `u64` value congruent to its input modulo 2^64 |
| Scheduler.WholeSecondsOfBounds | src/scheduler.rs:25-27 | `num_seconds` truncates toward zero: the result lies within one second of the duration, on the side of zero |
| Scheduler.AsU64Wraps | src/scheduler.rs:27 | the `as u64` cast keeps values in range and adds 2^64 to negative values |
| Scheduler.WaitSeconds | src/scheduler.rs:21-27 | the wait is the `u64` value, below 2^64, that is congruent modulo 2^64 to the whole seconds from the clock reading to the due time |
| Scheduler.WaitWithinASecond | src/scheduler.rs:25-29 | a due time less than a second away, in either direction, gives a wait of zero, so no sleep |
| Scheduler.WaitAhead | src/scheduler.rs:25-36 | for a future due time, the sleep ends at the due time or less than a second before it |
| Scheduler.WaitOverdue | src/scheduler.rs:25-29 | a due time one second or more in the past gives a positive wait of 2^64 minus the whole seconds overdue |
| Scheduler.SleepsWhenASecondOff | src/scheduler.rs:29-36 | the loop sleeps exactly when the due time is at least one second away from the clock, in either direction |
| Scheduler.WaitEndsWithinASecond | src/scheduler.rs:25-36 | once the wait for a due time is over, the clock is less than a second before the due time or past it |
| Scheduler.AfterWait | src/scheduler.rs:29-36 | the clock never goes back across a wait |
| Scheduler.NextStep | src/scheduler.rs:12-45 | one pass stops exactly when the selection is empty; otherwise it fires the selected position |
| Scheduler.StepEvents | src/scheduler.rs:29-45 | what one pass records: nothing when nothing is due; otherwise a sleep of the wait, only when the wait is positive, followed by the spawn of the advanced copy |
| Scheduler.RunSpec | src/scheduler.rs:11-53 | the whole loop on job values, pass after pass, for at most `fuel` passes: the job vector keeps its length, and the loop can stop by itself only while passes remain; what it records is stated by the lemmas below |
| Scheduler.Continue | src/scheduler.rs:19-52 | the rest of the loop once a pass has been chosen: a pass that finds nothing due stops the loop, one that fires records its events before the rest; the vector keeps its length |
| Scheduler.ApplyKeepsOthers | src/scheduler.rs:9-38 | a pass keeps the vector's length and order, replaces the selected job by its advanced value and changes no other job |
| Scheduler.StepDispatches | src/scheduler.rs:38-45 | a pass that fires dispatches exactly one copy, the advanced job |
| Scheduler.NothingDueNothingDispatched | src/scheduler.rs:47-51 | with no job due, the loop stops at once, dispatches nothing and leaves the jobs as they were |
| Scheduler.DrainedMeansNothingDue | src/scheduler.rs:47-51 | a run that stopped by itself ends with no job due |
| Scheduler.DispatchCount | src/scheduler.rs:11-53 | every pass that does not stop dispatches exactly one job: a run that stopped dispatched fewer jobs than its bound, one that did not stop dispatched exactly its bound |
| Scheduler.ContinueCount | src/scheduler.rs:19-46 | the same count for the rest of a run once a pass has been chosen |
| Scheduler.DispatchedHaveFired | src/scheduler.rs:38-45 | every copy handed to a task has a last run, and its next run, if any, differs from it |
| Scheduler.ContinueHaveFired | src/scheduler.rs:38-45 | the same for the rest of a run once a pass has been chosen |
| Scheduler.StepMovesOn | src/scheduler.rs:12-38 | within the horizon (whole-second fire times, next runs on the schedule, no fire time 2^64 seconds ahead), a pass keeps the horizon, the advanced job's last run is its old next run, and every job still due comes after the fired one in (time, position) order |
| Scheduler.InOrderFrom | src/scheduler.rs:11-53 | from jobs all due after a given (time, position), the loop dispatches in order and only after it |
| Scheduler.DispatchOrder | src/scheduler.rs:12-17 | within the horizon, consecutive dispatches have non-decreasing fire times, and equal fire times go in vector order |
| Scheduler.CloneJobs | src/scheduler.rs:9 | `config.jobs.clone()` gives fresh, distinct jobs with the same values |
| Scheduler.Pass | src/scheduler.rs:12-45 | the loop body on `Job` objects matches `NextStep` on their values; afterwards the vector holds the advanced job and nothing else changed, and the copy handed to the task is the job after `schedule_next` |
| Scheduler.PassWithin | src/scheduler.rs:11-53 | after one pass the job values are the tracked model; a pass that finds nothing due ends the run with what was recorded, and otherwise the recorded events followed by the rest of the run are still the whole run |
| Scheduler.Drive | src/scheduler.rs:11-53 | the imperative loop records exactly the sleeps and dispatches of `RunSpec`, and stops by itself exactly when `RunSpec` does; afterwards the `Job` objects hold the job values `RunSpec` ends with |
| Scheduler.RunScheduler | src/scheduler.rs:8-54 | `run_scheduler` records what `RunSpec` describes for the values of the configured jobs |
| Schedules.After | src/job.rs:36 | the upcoming fire times are exactly the schedule's fire times after the clock |
| Schedules.Upcoming | src/job.rs:36 | `schedule.upcoming(Utc)` at the clock reading: the schedule's fire times after it, in schedule order (stated by `Schedules.After`) |
| Schedules.First | src/job.rs:36 | `.next()`: the first upcoming fire time, or none when there is none (stated by `Schedules.FirstUpcomingIsEarliest`) |
| Schedules.AfterSorted | src/job.rs:52-54 | an ascending schedule gives ascending upcoming fire times |
| Schedules.FirstOtherIndex | src/job.rs:52-55 | the position of the first element that differs, with all elements before it equal |
| Schedules.FindOther | src/job.rs:52-55 | `find(\|t\| t != last)` gives nothing exactly when every element equals `last`; otherwise it gives an element that differs |
| Schedules.FirstUpcomingIsEarliest | src/job.rs:36 | for an ascending schedule, the first upcoming fire time is the earliest one after the clock, and there is none exactly when no fire time follows the clock |
| Schedules.FindOtherIsEarliest | src/job.rs:52-55 | for an ascending schedule, the next run is the earliest fire time after the clock other than the last run, and there is none exactly when no other fire time follows |
| Jobs.Created | src/job.rs:21-47 | an unparsable expression ends the process with its message; otherwise a job is built exactly when the destination resolves; it has no last run, the resolver's URL and the first upcoming fire time as next run; when the expression parses but the job is not built, the failure is the resolver's |
| Jobs.CreatedRunsAtEarliest | src/job.rs:36 | for an ascending schedule, the first next run is the earliest fire time after the clock |
| Jobs.Advance | src/job.rs:49-56 | the last run becomes the old next run; a new next run differs from it, follows the clock and is a fire time; there is none exactly when no fire time after the clock differs from the old next run; nothing else changes |
| Jobs.AdvanceRunsAtEarliest | src/job.rs:52-55 | for an ascending schedule, the new next run is the earliest fire time after the clock that differs from the new last run |
| Jobs.AdvanceMayMoveBack | src/job.rs:52-55 | a new next run can lie before the last run when the clock has not reached it |
| Jobs.Job.New | src/job.rs:21-47 | `Job::new` yields a fresh job with the value of `Created`, or its failure |
| Jobs.Job.Clone | src/scheduler.rs:40 | `clone` gives a fresh job with the same value |
| Jobs.Job.ScheduleNext | src/job.rs:49-56 | `schedule_next` updates the fields in place to `Advance` of the old value; it may unwrap only when upcoming fire times exist |
| Jobs.Job.Run | src/job.rs:58-74 | a failed invoice request ends the run before `pay_invoice`; otherwise the invoice is paid, the payment lines are logged, and "Finished" follows only when payment succeeds |
| Jobs.CreatedAll | src/config.rs:81 | `jobs.iter().map(Job::new).collect()` on job values: every entry built in order, or the failure of the first that cannot be built (stated by `Jobs.CreatedAllOneToOne`) |
| Jobs.CreatedAllOneToOne | src/config.rs:81 | the jobs map one to one and in order onto the entries; building fails exactly when some entry fails, with the failure of the first one |
| Jobs.BuildJobs | src/config.rs:81 | the loop behind `collect` builds fresh, distinct jobs with the values of `CreatedAll`, or returns its failure |
| ConfigLoad.NewValidConfig | src/config.rs:75-98 | no `jobs` list ends the process; job failures pass through; `~` is expanded in both paths; the server URL is kept; an unreachable node panics; otherwise the jobs are those built |
| Prototype.NewEarlyValidConfig | src/main.rs:140-157 | no `jobs` list ends the process; otherwise each entry becomes a job in order and the paths are copied as written |
| Config.HomeDir | src/config.rs:84 | `env::var("HOME").unwrap_or("~")`: the home directory, or `~` when HOME is unset |
| Config.ExpandHome | src/config.rs:86-87 | `path.replacen("~", &home_dir, 1)`; its properties are stated by the three lemmas that follow |
| Config.ExpandHomeFirstTilde | src/config.rs:86-87 | only the first `~` is replaced by the home directory, wherever it stands; the rest is kept |
| Config.ExpandHomeWithoutTilde | src/config.rs:86-87 | a path without `~` is unchanged |
| Config.ExpandHomeUnset | src/config.rs:84-87 | with HOME unset, the replacement is `~` itself and the path is unchanged |
| Strings.Split | src/lnurl.rs:101 | `split` gives at least one piece and no piece holds the separator |
| Strings.JoinSplit | src/lnurl.rs:101 | joining the pieces with the separator gives the string back |
| Strings.SplitAtFirst | src/lnurl.rs:101 | the first piece is the text before the first separator |
| Strings.ToUpper | src/lnurl.rs:108 | upper-casing keeps the length, leaves no lower-case ASCII letter and changes only those letters |
| Strings.ToUpperIdempotent | src/lnurl.rs:108 | upper-casing twice is upper-casing once |
| Strings.Decimal | src/lnurl.rs:65-70 | the formatted amount is digits only, without a leading zero |
| Strings.DecimalRoundTrip | src/lnurl.rs:65-70 | reading the decimal text back gives the number |
| Strings.DecimalInjective | src/lnurl.rs:65-70 | different amounts give different texts |
| Strings.ReplaceFirst | src/config.rs:86-87 | `replacen(from, to, 1)` on a one-character pattern: the string with its first `from`, if any, replaced by `to` (stated by `Strings.ReplaceFirstAt`) |
| Strings.ReplaceFirstAt | src/config.rs:86-87 | `replacen(.., 1)` replaces only the first occurrence |
| Lnurl.Resolve | src/lnurl.rs:99-116 | the resolver never returns an error value: it can fail only on an input without `@`, and then by panicking. For such an input, a bech32 decoding failure of the upper-cased text panics with "Failed to decode lnurl", a UTF-8 failure of the decoded bytes panics with "Failed to convert lnurl bytes to utf8", and otherwise the decoded text is the URL |
| Lnurl.ResolveLightningAddress | src/lnurl.rs:100-106 | `local@domain`, followed by anything from a second `@` on, resolves to `https://domain/.well-known/lnurlp/local` |
| Lnurl.ResolveIgnoresCase | src/lnurl.rs:107-115 | an LNURL is upper-cased before decoding, so its case does not matter |
| Lnurl.Millisats | src/lnurl.rs:68 | the millisatoshi amount fits in a `u32`, and it is exactly 1000 times the amount if and only if the amount is at most 4294967 |
| Lnurl.MillisatsWrapAboveLimit | src/lnurl.rs:68 | one satoshi above the limit requests 704 millisatoshi |
| Lnurl.RequestUrl | src/lnurl.rs:65-70 | the `format!` of the callback request: the callback, `?amount=`, the millisatoshi amount, `&comment=` and the memo or nothing, without URL-encoding (stated by `Lnurl.RequestUrlAmount`) |
| Lnurl.RequestUrlAmount | src/lnurl.rs:65-70 | the request URL is the callback, `?amount=`, digits without a leading zero that read back as the amount times 1000, `&comment=` and the memo or nothing, so up to the `u32` limit the URL is the one `format!` builds |
| Lnurl.RequestUrlExample | src/lnurl.rs:65-70 | `https://pay.example/cb`, 10000 satoshi and memo "hi" give `https://pay.example/cb?amount=10000000&comment=hi` |
| Lnurl.InfoFailureSkipsInvoiceFetch | src/lnurl.rs:86-90 | a failed info fetch ends the exchange with its error, whatever the second endpoint would answer |
| Lnurl.Negotiate | src/lnurl.rs:82-96 | what `get_invoice` yields from the two fetch results: the first fetch error, else the second, else the fetched invoice (stated by `Lnurl.NegotiateSucceeds` and `Lnurl.InfoFailureSkipsInvoiceFetch`) |
| Lnurl.NegotiateSucceeds | src/lnurl.rs:82-96 | an invoice is obtained exactly when both fetches succeed, and it is the body fetched from the request URL |
| Lnurl.LnurlService.constructor | src/lnurl.rs:38-44 | a new service holds the job and has fetched nothing |
| Lnurl.LnurlService.GetInfo | src/lnurl.rs:46-52 | a successful fetch stores the info; a failed one returns its error and leaves `info` |
| Lnurl.LnurlService.Validate | src/lnurl.rs:54-57 | the placeholder check always passes and changes nothing |
| Lnurl.LnurlService.GetPaymentRequest | src/lnurl.rs:59-80 | without info it fails with "No callback found" before any fetch; otherwise it fetches the request URL and stores the invoice, or returns the fetch error and leaves `payment_request` |
| Lnurl.LnurlService.GetInvoice | src/lnurl.rs:82-96 | the chained steps give exactly `Negotiate`; on success the stored invoice is returned; a successful info fetch leaves its body in `info`; a failed info fetch changes no field; any failure leaves `payment_request` as it was |
| Lnd.FromI32 | src/nodes/lnd.rs:37 | a status code is known exactly when it is 0 to 3 |
| Lnd.Classify | src/nodes/lnd.rs:39-49 | Succeeded is logged as success, InFlight as in process, and every other status as failed, each in both directions |
| Lnd.Verdicts | src/nodes/lnd.rs:34-50 | one verdict per update, in stream order, up to the first code that is not a status |
| Lnd.Request | src/nodes/lnd.rs:24-29 | the request carries the invoice's `pr` unchanged and a 30-second timeout |
| Lnd.PayIgnoresOutcome | src/nodes/lnd.rs:34-52 | with a valid stream, the call succeeds exactly when the stream is not broken, whatever the statuses; every update is logged |
| Lnd.InFlightThenSucceeded | src/nodes/lnd.rs:34-52 | the updates InFlight, Succeeded give the log "in process", "success" and `Ok` |
| Lnd.FailedStillSucceeds | src/nodes/lnd.rs:34-52 | a Failed update is logged as failed and the call still returns `Ok` |
| Lnd.StreamResult | src/nodes/lnd.rs:34-52 | how the stream loop ends: a panic at the first code that is not a status, else the transport error, else `Ok`, whatever the statuses were (stated by `Lnd.PayIgnoresOutcome`) |
| Lnd.PayResult | src/nodes/lnd.rs:10-53 | what `pay_invoice` returns: the connection error, else the submission error, else the result of the stream loop |
| Lnd.PayLog | src/nodes/lnd.rs:10-53 | what `pay_invoice` logs: nothing when the connection or the submission fails, else the verdicts of the stream |
| Lnd.PayInvoice | src/nodes/lnd.rs:10-53 | `pay_invoice` returns `PayResult` and logs `PayLog`: connection and submission errors pass through with nothing logged, otherwise the stream decides |
| Lnd.ReadStream | src/nodes/lnd.rs:34-52 | the `while let` loop logs the verdicts of `Verdicts`; it panics at an unknown code, returns a transport error, and otherwise returns `Ok` |

## Left out

- File I/O and YAML are not modelled: the config file existence check, writing the default config, reading the file and deserialising it. `ConfigLoad.NewValidConfig` starts from the parsed `Config`.
- Networking is not modelled: the `reqwest`/JSON fetches and the `tonic_lnd` connection, submission and stream. They are parameters that return a value or an error message. The status updates are reduced to their status codes.
- Cron parsing and the `cron` crate's `upcoming` are not modelled. A schedule is a finite sequence of fire times, so a schedule that repeats forever is cut off at some point.
- bech32 decoding and the UTF-8 check are parameters (`Codecs`); BIP 173 checksums are not modelled.
- The fee limit `(amount as f32 * 0.01).ceil()` is left out because it is floating-point arithmetic. `max_fee_sats` is never read by the payment code.
- tokio concurrency is left out. `sleep` advances the model's clock and `spawn` appends the copy to the event list. The spawned task's work is modelled separately by `Jobs.Job.Run`, not interleaved with the loop.
- The clock moves only when the loop sleeps, and computation takes no time. Each pass reads the clock twice: `Utc::now()` before the wait (src/scheduler.rs:21) and `upcoming(Utc)` inside `schedule_next` (src/job.rs:54). The model uses `clock` for the first reading and `AfterWait(clock, wait)` for the second.
- `Scheduler.RunScheduler`: the loop runs for at most `fuel` passes. A schedule that never ends would keep the real loop running forever.
- `Scheduler.DispatchOrder`: proved only within the horizon, where fire times are whole seconds (cron has no finer field), next runs lie on the schedule, and no fire time is 2^64 seconds ahead. Outside it, an advanced job can be selected again at an earlier time.
- `Strings.ToUpper`: upper-cases only ASCII letters. Rust's `to_uppercase` (src/lnurl.rs:108) runs before anything checks that the input is bech32, and it also maps some non-ASCII characters: some to ASCII letters ('ſ' becomes 'S', 'ı' becomes 'I'), some to two characters ('ß' becomes "SS"). On such inputs the model hands the decoder a different string than the program does.
- `Lnurl.Millisats`: `amount * 1000` in `u32` is modelled with release-build wrap-around. A debug build panics on overflow instead.
- `println!` and `log` output are not modelled. The exceptions are the payment verdict lines and the "Running"/"Finished" lines of `run`, which are modelled as values.
- The stream's transport error is modelled as ending the stream after the updates received before it.
- The placeholder `Job::run` of `src/main.rs`, which only sleeps and prints, and the CLI structures are left out.
