/** Destination resolution (a Lightning Address or a bech32 LNURL becomes an
    endpoint URL) and the two-step LNURL-pay exchange that turns the endpoint
    into an invoice. HTTP, JSON decoding, bech32 and UTF-8 decoding are
    supplied from outside as functions. */
module Lnurl {
  import opened Outcomes
  import opened Strings
  import opened Config

  newtype byte = x: int | 0 <= x < 256

  /** The two decoders the resolver calls: `bech32::decode` (only the data
      part of its result is used) and `str::from_utf8`. */
  datatype Codecs = Codecs(bech32: string -> Option<seq<byte>>, utf8: seq<byte> -> Option<string>)

  const DecodeFailed: string := "Failed to decode lnurl"
  const Utf8Failed: string := "Failed to convert lnurl bytes to utf8"

  /** `get_url_from_ln_address_or_lnurl`. An address with `@` becomes the
      LUD-16 well-known URL built from the first two `@`-separated pieces;
      anything else is upper-cased and decoded as a bech32 LNURL (LUD-01),
      and a decoding failure panics. It never returns an error value. */
  function Resolve(address: string, codecs: Codecs): (r: Result<string>)
    ensures r.Err? ==> '@' !in address && r.failure.Panic?
    ensures '@' !in address ==>
              match codecs.bech32(ToUpper(address))
              case None => r == Err(Panic(DecodeFailed))
              case Some(data) =>
                (codecs.utf8(data).None? ==> r == Err(Panic(Utf8Failed))) &&
                (codecs.utf8(data).Some? ==> r == Ok(codecs.utf8(data).value))
  {
    if '@' in address then
      var parts := Split(address, '@');
      assert |parts| >= 2 by { SplitHasSeparator(address, '@'); }
      Ok("https://" + parts[1] + "/.well-known/lnurlp/" + parts[0])
    else
      match codecs.bech32(ToUpper(address))
      case None => Err(Panic(DecodeFailed))
      case Some(data) =>
        match codecs.utf8(data)
        case None => Err(Panic(Utf8Failed))
        case Some(url) => Ok(url)
  }

  /** A Lightning Address `local@domain` resolves to
      `https://domain/.well-known/lnurlp/local`; anything from a second `@`
      on is ignored. */
  lemma ResolveLightningAddress(local: string, domain: string, rest: string, codecs: Codecs)
    requires '@' !in local && '@' !in domain
    requires rest == [] || rest[0] == '@'
    ensures Resolve(local + "@" + domain + rest, codecs) == Ok("https://" + domain + "/.well-known/lnurlp/" + local)
  {
    var address := local + "@" + domain + rest;
    assert address[|local|] == '@';
    assert address == local + ['@'] + (domain + rest);
    SplitAtFirst(local, domain + rest, '@');
    if rest == [] {
      SplitWithout(domain, '@');
      assert domain + rest == domain;
    } else {
      assert domain + rest == domain + ['@'] + rest[1..];
      SplitAtFirst(domain, rest[1..], '@');
    }
  }

  /** An LNURL is decoded without regard to case. */
  lemma ResolveIgnoresCase(address: string, codecs: Codecs)
    requires '@' !in address
    ensures Resolve(ToUpper(address), codecs) == Resolve(address, codecs)
  {
    ToUpperIdempotent(address);
    assert '@' !in ToUpper(address);
  }

  /** The body of the first LNURL-pay response; only `callback` is read. */
  datatype LnurlInfo = LnurlInfo(callback: string)

  /** The body of the second response (`LnurlPaymentRequestResponse`). */
  datatype PaymentRequest = PaymentRequest(pr: string)

  type InfoFetcher = string -> Http<LnurlInfo>
  type InvoiceFetcher = string -> Http<PaymentRequest>

  const NoCallback: string := "No callback found"
  const NoPaymentRequest: string := "No payment request found"

  /** The largest amount whose millisatoshi value fits in a `u32`. */
  const MaxExactSats: int := 4294967

  /** `amount_in_sats * 1000` computed in `u32`, wrapping around as a
      release build does. */
  function Millisats(sats: u32): (m: int)
    ensures 0 <= m < 0x1_0000_0000
    ensures sats as int <= MaxExactSats <==> m == sats as int * 1000
  {
    (sats as int * 1000) % 0x1_0000_0000
  }

  /** One satoshi more than the limit requests 704 millisatoshi. */
  lemma MillisatsWrapAboveLimit()
    ensures Millisats((MaxExactSats + 1) as u32) == 704
  {
  }

  /** The LUD-06 callback request with the LUD-12 `comment` parameter:
      `{callback}?amount={msat}&comment={memo or ""}`, without URL-encoding. */
  function RequestUrl(callback: string, job: ConfigJob): string {
    callback + "?amount=" + Decimal(Millisats(job.amountSats)) + "&comment=" + job.memo.GetOr("")
  }

  /** The `amount` parameter is the decimal text of the millisatoshi amount,
      without leading zeros: it reads back as `amount * 1000` for amounts up
      to the `u32` limit. */
  lemma RequestUrlAmount(callback: string, job: ConfigJob)
    requires job.amountSats as int <= MaxExactSats
    ensures exists digits: string ::
              |digits| >= 1 && (|digits| == 1 || digits[0] != '0') &&
              (forall i :: 0 <= i < |digits| ==> IsDigit(digits[i])) &&
              DigitsValue(digits) == job.amountSats as int * 1000 &&
              RequestUrl(callback, job) == callback + "?amount=" + digits + "&comment=" + job.memo.GetOr("")
  {
    DecimalRoundTrip(Millisats(job.amountSats));
    var d := Decimal(Millisats(job.amountSats));
    assert |d| == 1 || d[0] != '0';
  }

  lemma RequestUrlExample(job: ConfigJob)
    requires job.amountSats == 10000 && job.memo == Some("hi")
    ensures RequestUrl("https://pay.example/cb", job) == "https://pay.example/cb?amount=10000000&comment=hi"
  {
    assert Millisats(job.amountSats) == 10000000;
    TenMillionDigits();
  }

  lemma TenMillionDigits()
    ensures Decimal(10000000) == "10000000"
  {
    DecimalTimesTen(1);
    assert Decimal(10) == "10";
    DecimalTimesTen(10);
    assert Decimal(100) == "100";
    DecimalTimesTen(100);
    assert Decimal(1000) == "1000";
    DecimalTimesTen(1000);
    assert Decimal(10000) == "10000";
    DecimalTimesTen(10000);
    assert Decimal(100000) == "100000";
    DecimalTimesTen(100000);
    assert Decimal(1000000) == "1000000";
    DecimalTimesTen(1000000);
    assert Decimal(10000000) == "10000000";
  }

  /** What `get_invoice` yields: the info fetch, the (always passing)
      validation, then the payment-request fetch, stopping at the first
      failure. */
  function Negotiate(job: ConfigJob, url: string, fetchInfo: InfoFetcher, fetchInvoice: InvoiceFetcher): Result<PaymentRequest> {
    match fetchInfo(url)
    case HttpError(m) => Err(Error(m))
    case Response(info) =>
      match fetchInvoice(RequestUrl(info.callback, job))
      case HttpError(m) => Err(Error(m))
      case Response(pr) => Ok(pr)
  }

  /** A failed info fetch ends the exchange: the second endpoint is never
      consulted, so its behaviour cannot influence the outcome. */
  lemma InfoFailureSkipsInvoiceFetch(job: ConfigJob, url: string, fetchInfo: InfoFetcher, f: InvoiceFetcher, g: InvoiceFetcher)
    requires fetchInfo(url).HttpError?
    ensures Negotiate(job, url, fetchInfo, f) == Negotiate(job, url, fetchInfo, g) == Err(Error(fetchInfo(url).message))
  {
  }

  /** An invoice is obtained exactly when both fetches succeed, and it is the
      body returned for the request URL built from the callback. */
  lemma NegotiateSucceeds(job: ConfigJob, url: string, fetchInfo: InfoFetcher, fetchInvoice: InvoiceFetcher)
    ensures Negotiate(job, url, fetchInfo, fetchInvoice).Ok? <==>
              fetchInfo(url).Response? && fetchInvoice(RequestUrl(fetchInfo(url).body.callback, job)).Response?
    ensures Negotiate(job, url, fetchInfo, fetchInvoice).Ok? ==>
              Negotiate(job, url, fetchInfo, fetchInvoice).value == fetchInvoice(RequestUrl(fetchInfo(url).body.callback, job)).body
  {
  }

  /** `LnurlService`: the job it pays for and what each step has fetched. */
  class LnurlService {
    const configJob: ConfigJob
    var info: Option<LnurlInfo>
    var paymentRequest: Option<PaymentRequest>

    constructor (configJob: ConfigJob)
      ensures this.configJob == configJob && info == None && paymentRequest == None
    {
      this.configJob := configJob;
      info := None;
      paymentRequest := None;
    }

    /** GET `url` and store its `callback`; a failed fetch leaves `info`. */
    method GetInfo(url: string, fetchInfo: InfoFetcher) returns (r: Result<()>)
      modifies this`info
      ensures fetchInfo(url).Response? ==> r == Ok(()) && info == Some(fetchInfo(url).body)
      ensures fetchInfo(url).HttpError? ==> r == Err(Error(fetchInfo(url).message)) && info == old(info)
    {
      var response := fetchInfo(url);
      match response
      case HttpError(m) => r := Err(Error(m));
      case Response(body) =>
        info := Some(body);
        r := Ok(());
    }

    /** The placeholder check: it always passes and changes nothing. */
    method Validate() returns (r: Result<()>)
      ensures r == Ok(())
    {
      r := Ok(());
    }

    /** Build the callback request from `info`, GET it and store the invoice.
      Without `info` it fails before any fetch. */
    method GetPaymentRequest(fetchInvoice: InvoiceFetcher) returns (r: Result<()>)
      modifies this`paymentRequest
      ensures info.None? ==> r == Err(Error(NoCallback)) && paymentRequest == old(paymentRequest)
      ensures info.Some? ==>
                var response := fetchInvoice(RequestUrl(info.value.callback, configJob));
                match response
                case HttpError(m) => r == Err(Error(m)) && paymentRequest == old(paymentRequest)
                case Response(pr) => r == Ok(()) && paymentRequest == Some(pr)
    {
      if info.None? {
        return Err(Error(NoCallback));
      }
      var callback := info.value.callback;
      var requestUrl := RequestUrl(callback, configJob);
      var response := fetchInvoice(requestUrl);
      match response
      case HttpError(m) => r := Err(Error(m));
      case Response(pr) =>
        paymentRequest := Some(pr);
        r := Ok(());
    }

    /** `get_invoice`: the three steps chained with `?`, then the stored
      invoice. */
    method GetInvoice(url: string, fetchInfo: InfoFetcher, fetchInvoice: InvoiceFetcher) returns (r: Result<PaymentRequest>)
      modifies this`info, this`paymentRequest
      ensures r == Negotiate(configJob, url, fetchInfo, fetchInvoice)
      ensures r.Ok? ==> paymentRequest == Some(r.value)
      ensures fetchInfo(url).HttpError? ==> info == old(info) && paymentRequest == old(paymentRequest)
      ensures fetchInfo(url).Response? ==> info == Some(fetchInfo(url).body)
      ensures r.Err? ==> paymentRequest == old(paymentRequest)
    {
      var fetched := GetInfo(url, fetchInfo);
      if fetched.Err? {
        return Err(fetched.failure);
      }
      // `validate()?` cannot fail: the placeholder always passes
      var validated := Validate();
      var requested := GetPaymentRequest(fetchInvoice);
      if requested.Err? {
        return Err(requested.failure);
      }
      match paymentRequest
      case Some(pr) => r := Ok(pr);
      case None => r := Err(Error(NoPaymentRequest));
    }
  }
}
