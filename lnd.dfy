/** `pay_invoice`: connect to the LND node, submit the invoice through the
    router's `send_payment_v2`, and read the stream of payment updates,
    logging one verdict per update. The node is supplied from outside. */
module Lnd {
  import opened Outcomes
  import opened Config
  import opened Lnurl

  const PaymentTimeoutSeconds: int := 30

  /** The fields of `SendPaymentRequest` the model keeps. */
  datatype SendPaymentRequest = SendPaymentRequest(paymentRequest: string, timeoutSeconds: int)

  /** `lnrpc::payment::PaymentStatus`. */
  datatype PaymentStatus = Unknown | InFlight | Succeeded | Failed

  /** `PaymentStatus::from_i32`: the wire codes 0 to 3; any other code is not
      a status. */
  function FromI32(code: int): (s: Option<PaymentStatus>)
    ensures s.Some? <==> 0 <= code <= 3
  {
    if code == 0 then Some(Unknown)
    else if code == 1 then Some(InFlight)
    else if code == 2 then Some(Succeeded)
    else if code == 3 then Some(Failed)
    else None
  }

  /** The line logged for one update. */
  datatype Verdict =
    | Success     // "Payment success..."
    | InProcess   // "Payment in process..."
    | Failure     // "Payment failed..."

  function Classify(status: PaymentStatus): (v: Verdict)
    ensures v == Success <==> status == Succeeded
    ensures v == InProcess <==> status == InFlight
    ensures v == Failure <==> status in {Unknown, Failed}
  {
    match status
    case Succeeded => Success
    case InFlight => InProcess
    case _ => Failure
  }

  /** The updates the node streams, then how the stream ends: closed by the
      node (None) or broken at the transport level (the error's text). */
  datatype PaymentStream = PaymentStream(updates: seq<int>, transportError: Option<string>)

  datatype Submission = Rejected(message: string) | Accepted(stream: PaymentStream)

  /** `tonic_lnd::connect(server_url, cert_path, macaroon_path)`: None when the
      connection is made, otherwise the error's text. */
  type Connector = (string, string, string) -> Option<string>

  /** The payment node as the code sees it. */
  datatype LndNode = LndNode(connect: Connector, submit: SendPaymentRequest -> Submission)

  const UnwrapOnNone: string := "called `Option::unwrap()` on a `None` value"

  /** The verdicts logged for a stream of status codes: one per update, in
      stream order, up to the first code that is not a status. */
  function Verdicts(codes: seq<int>): (vs: seq<Verdict>)
    ensures |vs| <= |codes|
    ensures forall i :: 0 <= i < |vs| ==> FromI32(codes[i]).Some? && vs[i] == Classify(FromI32(codes[i]).value)
    ensures |vs| < |codes| ==> FromI32(codes[|vs|]).None?
    decreases |codes|
  {
    if |codes| == 0 then []
    else match FromI32(codes[0])
      case None => []
      case Some(status) => [Classify(status)] + Verdicts(codes[1..])
  }

  /** The request `pay_invoice` submits: the invoice's `pr` unchanged and a
      30 second timeout. */
  function Request(invoice: PaymentRequest): (q: SendPaymentRequest)
    ensures q.paymentRequest == invoice.pr && q.timeoutSeconds == 30
  {
    SendPaymentRequest(invoice.pr, PaymentTimeoutSeconds)
  }

  /** What `pay_invoice` returns: a connection, submission or transport error
      is returned as an error; a code that is not a status panics; otherwise
      the call succeeds, whatever the payment's verdicts were. */
  function PayResult<J>(invoice: PaymentRequest, config: ValidConfig<J>, node: LndNode): Result<()> {
    match node.connect(config.serverUrl, config.certPath, config.macaroonPath)
    case Some(e) => Err(Error(e))
    case None =>
      match node.submit(Request(invoice))
      case Rejected(e) => Err(Error(e))
      case Accepted(stream) => StreamResult(stream)
  }

  /** How reading the stream ends: a panic at the first code that is not a
      status, otherwise the transport error if there is one, otherwise
      success. */
  function StreamResult(stream: PaymentStream): Result<()> {
    if |Verdicts(stream.updates)| < |stream.updates| then Err(Panic(UnwrapOnNone))
    else if stream.transportError.Some? then Err(Error(stream.transportError.value))
    else Ok(())
  }

  /** The verdicts `pay_invoice` logs. */
  function PayLog<J>(invoice: PaymentRequest, config: ValidConfig<J>, node: LndNode): seq<Verdict> {
    match node.connect(config.serverUrl, config.certPath, config.macaroonPath)
    case Some(_) => []
    case None =>
      match node.submit(Request(invoice))
      case Rejected(_) => []
      case Accepted(stream) => Verdicts(stream.updates)
  }

  /** A payment that ends in failure is not an error: once a stream of valid
      statuses is closed by the node, the call succeeds and has logged the
      verdict of every update. */
  lemma PayIgnoresOutcome<J>(invoice: PaymentRequest, config: ValidConfig<J>, node: LndNode)
    requires node.connect(config.serverUrl, config.certPath, config.macaroonPath).None?
    requires node.submit(Request(invoice)).Accepted?
    requires forall i :: 0 <= i < |node.submit(Request(invoice)).stream.updates| ==>
               0 <= node.submit(Request(invoice)).stream.updates[i] <= 3
    ensures node.submit(Request(invoice)).stream.transportError.None? <==> PayResult(invoice, config, node) == Ok(())
    ensures |PayLog(invoice, config, node)| == |node.submit(Request(invoice)).stream.updates|
  {
  }

  lemma InFlightThenSucceeded<J>(invoice: PaymentRequest, config: ValidConfig<J>, node: LndNode)
    requires node.connect(config.serverUrl, config.certPath, config.macaroonPath).None?
    requires node.submit(Request(invoice)) == Accepted(PaymentStream([1, 2], None))
    ensures PayResult(invoice, config, node) == Ok(())
    ensures PayLog(invoice, config, node) == [InProcess, Success]
  {
    assert Verdicts([1, 2]) == [InProcess] + Verdicts([2]);
  }

  lemma FailedStillSucceeds<J>(invoice: PaymentRequest, config: ValidConfig<J>, node: LndNode)
    requires node.connect(config.serverUrl, config.certPath, config.macaroonPath).None?
    requires node.submit(Request(invoice)) == Accepted(PaymentStream([3], None))
    ensures PayResult(invoice, config, node) == Ok(())
    ensures PayLog(invoice, config, node) == [Failure]
  {
    assert Verdicts([3]) == [Failure] + Verdicts([]);
  }

  /** `pay_invoice`. The fee limit is not modelled. */
  method PayInvoice<J>(invoice: PaymentRequest, job: ConfigJob, config: ValidConfig<J>, node: LndNode)
    returns (r: Result<()>, log: seq<Verdict>)
    ensures r == PayResult(invoice, config, node)
    ensures log == PayLog(invoice, config, node)
  {
    var connection := node.connect(config.serverUrl, config.certPath, config.macaroonPath);
    if connection.Some? {
      return Err(Error(connection.value)), [];
    }
    var request := SendPaymentRequest(invoice.pr, PaymentTimeoutSeconds);
    var submission := node.submit(request);
    if submission.Rejected? {
      return Err(Error(submission.message)), [];
    }
    r, log := ReadStream(submission.stream);
  }

  /** The verdicts from position `i` on: the verdict of the update at `i`,
      if it is a status, followed by those after it. */
  lemma VerdictsFrom(codes: seq<int>, i: nat)
    requires i < |codes|
    ensures Verdicts(codes[i..]) ==
              if FromI32(codes[i]).None? then [] else [Classify(FromI32(codes[i]).value)] + Verdicts(codes[i + 1..])
  {
    var rest := codes[i..];
    assert rest[0] == codes[i] && rest[1..] == codes[i + 1..];
  }

  /** Reading one more status update moves its verdict from the verdicts
      still to come onto the end of the log. */
  lemma VerdictsStep(codes: seq<int>, i: nat, log: seq<Verdict>)
    requires i < |codes| && FromI32(codes[i]).Some?
    requires log + Verdicts(codes[i..]) == Verdicts(codes)
    ensures (log + [Classify(FromI32(codes[i]).value)]) + Verdicts(codes[i + 1..]) == Verdicts(codes)
  {
    VerdictsFrom(codes, i);
    var verdict := Classify(FromI32(codes[i]).value);
    assert (log + [verdict]) + Verdicts(codes[i + 1..]) == log + ([verdict] + Verdicts(codes[i + 1..]));
  }

  /** The `while let` loop over the stream of updates. */
  method ReadStream(stream: PaymentStream) returns (r: Result<()>, log: seq<Verdict>)
    ensures r == StreamResult(stream)
    ensures log == Verdicts(stream.updates)
  {
    var updates := stream.updates;
    log := [];
    var i := 0;
    assert updates[i..] == updates;
    while i < |updates|
      invariant 0 <= i <= |updates|
      invariant |log| == i
      invariant log + Verdicts(updates[i..]) == Verdicts(updates)
    {
      var status := FromI32(updates[i]);
      VerdictsFrom(updates, i);
      if status.None? {
        assert log + [] == log;
        return Err(Panic(UnwrapOnNone)), log;
      }
      var verdict;
      match status.value {
        case Succeeded => verdict := Success;
        case InFlight => verdict := InProcess;
        case _ => verdict := Failure;
      }
      assert verdict == Classify(status.value);
      VerdictsStep(updates, i, log);
      log := log + [verdict];
      i := i + 1;
    }
    assert updates[i..] == [];
    assert log + [] == log;
    if stream.transportError.Some? {
      return Err(Error(stream.transportError.value)), log;
    }
    r := Ok(());
  }
}
