/**
 * `make_request` (test_requests.js:68-156) and the initial call that starts
 * it (test_requests.js:51-64): one request at a time, HEAD first, with a
 * fallback request or a restart decided from the result of the last one.
 *
 * The `request` library is an oracle: the n-th request issued receives
 * `answers[n]`. The callback's own call of `make_request` stays a
 * self-call: `MakeRequest` is a self-recursive method. `process.exit(1)`
 * becomes the `ExitOne` action.
 */
module Prober {
  import opened JsString
  import opened SslMismatch

  datatype HttpMethod = HEAD | GET

  /**
   * What the request library hands to the callback: a response, or an error
   * object. A `reason` of "" stands for an absent (falsy) `error.reason`.
   */
  datatype RawResult =
    | Response(statusCode: int)
    | Failure(code: string, connect: bool, reason: string, host: string)

  /** The error codes treated as timeouts. */
  const TimeoutCodes: set<string> := {"ETIMEDOUT", "ESOCKETTIMEDOUT"}

  /** The classes the callback tells apart, in the order it tests them. */
  datatype Outcome =
    | Status(code: int)
    | Timeout(connect: bool)
    | NotFound
    | TlsReason(reason: string, host: string)
    | Unclassified

  function Classify(r: RawResult): (o: Outcome)
    ensures o.Status? <==> r.Response?
    ensures o.Status? ==> o.code == r.statusCode
    // a timeout code wins over everything else the error carries
    ensures r.Failure? && r.code in TimeoutCodes ==> o == Timeout(r.connect)
    ensures o.NotFound? <==> r.Failure? && r.code !in TimeoutCodes && r.code == "ENOTFOUND"
    // the reason is only looked at for codes that are neither
    ensures o.TlsReason? ==> r.Failure? && r.code !in TimeoutCodes && r.code != "ENOTFOUND"
    ensures o.TlsReason? ==> o == TlsReason(r.reason, r.host) && r.reason != ""
    ensures r.Failure? && r.code !in TimeoutCodes && r.code != "ENOTFOUND" && r.reason != "" ==>
      o == TlsReason(r.reason, r.host)
    ensures o.Unclassified? <==>
      r.Failure? && r.code !in TimeoutCodes && r.code != "ENOTFOUND" && r.reason == ""
  {
    match r
    case Response(code) => Status(code)
    case Failure(code, connect, reason, host) =>
      if code == "ETIMEDOUT" || code == "ESOCKETTIMEDOUT" then Timeout(connect)
      else if code == "ENOTFOUND" then NotFound
      else if reason != "" then TlsReason(reason, host)
      else Unclassified
  }

  /**
   * What the callback does next: another `make_request(req_options, shown,
   * retry)`, `process.exit(1)`, or nothing.
   */
  datatype Action = FollowUp(shown: HttpMethod, retry: bool) | ExitOne | Halt

  /** The two fields of `req_options` the callback writes. */
  datatype Options = Options(uri: string, verb: HttpMethod)

  /**
   * `check_ssl_mismatch(uri, host, reason)` as the callback sees it: a total
   * function of the three strings, the command-line URL being fixed.
   */
  type Resolver = (string, string, string) -> Option<string>

  /** The resolver of this program, for the URL given on the command line. */
  function ResolverFor(url: string): (check: Resolver)
    ensures forall uri, host, reason :: check(uri, host, reason) == Resolve(uri, host, reason, url)
  {
    (uri, host, reason) => Resolve(uri, host, reason, url)
  }

  /** What the resolver hands back for this outcome, when it is called at all. */
  function Correction(uri: string, o: Outcome, checkMismatch: bool, check: Resolver): Option<string>
  {
    if o.TlsReason? && checkMismatch then check(uri, o.host, o.reason) else None
  }

  /** `!result` is false: the resolver gave a non-empty string. */
  predicate Fixed(c: Option<string>)
  {
    c.Some? && c.value != ""
  }

  /**
   * One callback: from the options before it, the `retry` flag of the
   * request and the outcome, the next action and the options after it.
   */
  function Step(opts: Options, retry: bool, o: Outcome, checkMismatch: bool, check: Resolver): (r: (Action, Options))
    // only timeouts and unknown hosts exit, and only when no retry is left
    ensures r.0 == ExitOne <==> (o.Timeout? || o.NotFound?) && !retry
    // a restart happens exactly when the mismatch was fixed, whatever `retry` is
    ensures r.0 == FollowUp(HEAD, true) <==> Fixed(Correction(opts.uri, o, checkMismatch, check))
    ensures r.0 == FollowUp(HEAD, true) ==>
      r.1 == opts.(uri := "https://" + Correction(opts.uri, o, checkMismatch, check).value)
    // every other follow-up is a GET without retry, and needs retry
    ensures r.0.FollowUp? && r.0 != FollowUp(HEAD, true) ==> retry && r.0 == FollowUp(GET, false)
    ensures o.Status? ==>
      if o.code != 200 && retry then r == (FollowUp(GET, false), opts.(verb := GET))
      else r == (Halt, opts)
    // the timeout and unknown-host fallbacks leave `req_options` alone
    ensures o.Timeout? || o.NotFound? ==> r.1 == opts && (retry ==> r.0 == FollowUp(GET, false))
    // an unfixed mismatch writes GET and never exits
    ensures o.TlsReason? && !Fixed(Correction(opts.uri, o, checkMismatch, check)) ==>
      r == (if retry then FollowUp(GET, false) else Halt, opts.(verb := GET))
    ensures o.Unclassified? ==> r == (Halt, opts)
  {
    match o
    case Status(code) =>
      if code != 200 && retry then (FollowUp(GET, false), opts.(verb := GET)) else (Halt, opts)
    case Timeout(_) => (if retry then FollowUp(GET, false) else ExitOne, opts)
    case NotFound => (if retry then FollowUp(GET, false) else ExitOne, opts)
    case TlsReason(reason, host) =>
      var fix := Correction(opts.uri, o, checkMismatch, check);
      if Fixed(fix) then (FollowUp(HEAD, true), opts.(uri := "https://" + fix.value))
      else (if retry then FollowUp(GET, false) else Halt, opts.(verb := GET))
    case Unclassified => (Halt, opts)
  }

  /** `req_options`, the one object every request of a run shares. */
  class ReqOptions {
    var uri: string
    var verb: HttpMethod
    const maxRedirects: int
    const timeout: int

    /** The object literal built before the first request. */
    constructor (url: string, redirects: int, timeout: int)
      ensures Value() == Options(url, HEAD)
      ensures maxRedirects == redirects && this.timeout == timeout
    {
      uri := url;
      verb := HEAD;
      maxRedirects := redirects;
      this.timeout := timeout;
    }

    function Value(): Options
      reads this
    {
      Options(uri, verb)
    }
  }

  /**
   * The callback of one request: classifies the result, updates `opts` where
   * the source does, and says what happens next.
   */
  method OnResult(opts: ReqOptions, retry: bool, result: RawResult, checkMismatch: bool, url: string)
    returns (next: Action)
    modifies opts
    ensures (next, opts.Value()) == Step(old(opts.Value()), retry, Classify(result), checkMismatch, ResolverFor(url))
  {
    next := Halt;
    if result.Failure? {
      if result.code == "ETIMEDOUT" || result.code == "ESOCKETTIMEDOUT" {
        if result.connect {
          // connection timeout
          next := if retry then FollowUp(GET, false) else ExitOne;
        } else {
          // read timeout
          next := if retry then FollowUp(GET, false) else ExitOne;
        }
      } else if result.code == "ENOTFOUND" {
        next := if retry then FollowUp(GET, false) else ExitOne;
      } else if result.reason != "" {
        if checkMismatch {
          var fix := CheckSslMismatch(opts.uri, result.host, result.reason, url);
          if fix.None? || fix.value == "" {
            opts.verb := GET;
            if retry {
              next := FollowUp(GET, false);
            }
          } else {
            opts.uri := "https://" + fix.value;
            next := FollowUp(HEAD, true);
          }
        } else {
          opts.verb := GET;
          if retry {
            next := FollowUp(GET, false);
          }
        }
      }
      // any other error is only logged
    } else if result.statusCode != 200 && retry {
      opts.verb := GET;
      next := FollowUp(GET, false);
    }
  }

  /**
   * One issued request: the `method` argument of `make_request` (`shown`,
   * only printed), the method and URI actually sent (`req_options.method`
   * and `req_options.uri`), and
   * its `retry` flag.
   */
  datatype Request = Request(shown: HttpMethod, verb: HttpMethod, uri: string, retry: bool)
  {
    /** The `req_options` fields this request was sent with. */
    function Sent(): Options
    {
      Options(uri, verb)
    }
  }

  /** How a run ends: nothing more to do, `process.exit(1)`, or the oracle has no answer left. */
  datatype Ending = Halted | Exited | Unanswered

  /**
   * The requests issued from a request with these options, shown method and
   * flag, when that request receives `answers[n]` and every later request
   * the next answer; how the run ends; and the options `req_options` holds
   * once the run is over.
   */
  function Run(opts: Options, shown: HttpMethod, retry: bool, answers: seq<RawResult>, n: nat,
               checkMismatch: bool, check: Resolver): (r: (seq<Request>, Ending, Options))
    requires n <= |answers|
    ensures |r.0| >= 1 && r.0[0] == Request(shown, opts.verb, opts.uri, retry)
    // a request is issued only after the previous one was answered
    ensures |r.0| <= |answers| - n + 1
    ensures r.1 == Unanswered <==> |r.0| == |answers| - n + 1
    decreases |answers| - n
  {
    var request := Request(shown, opts.verb, opts.uri, retry);
    if n == |answers| then ([request], Unanswered, opts)
    else
      var step := Step(opts, retry, Classify(answers[n]), checkMismatch, check);
      match step.0
      case FollowUp(l, rt) =>
        var rest := Run(step.1, l, rt, answers, n + 1, checkMismatch, check);
        ([request] + rest.0, rest.1, rest.2)
      case ExitOne => ([request], Exited, step.1)
      case Halt => ([request], Halted, step.1)
  }

  /**
   * `make_request(req_options, shown, retry)`: issues a request with the
   * current options, hands answer `n` to the callback, and carries on with
   * the request the callback asks for, if any. `opts` is left as the run
   * leaves it.
   */
  method MakeRequest(opts: ReqOptions, shown: HttpMethod, retry: bool, answers: seq<RawResult>, n: nat,
                     checkMismatch: bool, url: string)
    returns (trace: seq<Request>, ending: Ending)
    requires n <= |answers|
    modifies opts
    ensures (trace, ending, opts.Value()) == Run(old(opts.Value()), shown, retry, answers, n, checkMismatch, ResolverFor(url))
    decreases |answers| - n
  {
    var request := Request(shown, opts.verb, opts.uri, retry);
    if n == |answers| {
      return [request], Unanswered;
    }
    var next := OnResult(opts, retry, answers[n], checkMismatch, url);
    match next
    case FollowUp(l, rt) =>
      var rest;
      rest, ending := MakeRequest(opts, l, rt, answers, n + 1, checkMismatch, url);
      trace := [request] + rest;
    case ExitOne =>
      trace, ending := [request], Exited;
    case Halt =>
      trace, ending := [request], Halted;
  }

  /**
   * The probe: builds `req_options` from the command-line values and issues
   * `make_request(req_options, 'HEAD', true)`.
   */
  method Probe(url: string, redirects: int, timeout: int, checkMismatch: bool, answers: seq<RawResult>)
    returns (trace: seq<Request>, ending: Ending)
    ensures var r := Run(Options(url, HEAD), HEAD, true, answers, 0, checkMismatch, ResolverFor(url));
      trace == r.0 && ending == r.1
  {
    var opts := new ReqOptions(url, redirects, timeout);
    trace, ending := MakeRequest(opts, HEAD, true, answers, 0, checkMismatch, url);
  }
}
