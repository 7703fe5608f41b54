/**
 * Properties of whole runs of the probe: how each request follows from the
 * previous one and its answer, how a run ends, and what that implies for
 * the number of requests.
 */
module ProberLemmas {
  import opened SslMismatch
  import opened Prober

  /**
   * Every request after the first is the follow-up the callback of the
   * previous request asked for, sent with the options that callback left.
   */
  lemma {:induction false} TraceFollowsStep(opts: Options, shown: HttpMethod, retry: bool,
                                            answers: seq<RawResult>, n: nat,
                                            checkMismatch: bool, check: Resolver, k: nat)
    requires n <= |answers|
    requires k + 1 < |Run(opts, shown, retry, answers, n, checkMismatch, check).0|
    ensures var t := Run(opts, shown, retry, answers, n, checkMismatch, check).0;
      n + k < |answers| &&
      Step(t[k].Sent(), t[k].retry, Classify(answers[n + k]), checkMismatch, check) ==
        (FollowUp(t[k + 1].shown, t[k + 1].retry), t[k + 1].Sent())
    decreases k
  {
    assert Request(shown, opts.verb, opts.uri, retry).Sent() == opts;
    var t := Run(opts, shown, retry, answers, n, checkMismatch, check).0;
    var step := Step(opts, retry, Classify(answers[n]), checkMismatch, check);
    match step.0
    case FollowUp(l, rt) =>
      var rest := Run(step.1, l, rt, answers, n + 1, checkMismatch, check).0;
      assert t == [Request(shown, opts.verb, opts.uri, retry)] + rest;
      if k > 0 {
        TraceFollowsStep(step.1, l, rt, answers, n + 1, checkMismatch, check, k - 1);
        assert t[k] == rest[k - 1] && t[k + 1] == rest[k];
      }
    case ExitOne =>
    case Halt =>
  }

  /**
   * How a run that does not run out of answers ends: the callback of its
   * last request asked for `process.exit(1)` or for nothing.
   */
  lemma {:induction false} RunEndsWithLastStep(opts: Options, shown: HttpMethod, retry: bool,
                                               answers: seq<RawResult>, n: nat,
                                               checkMismatch: bool, check: Resolver)
    requires n <= |answers|
    requires Run(opts, shown, retry, answers, n, checkMismatch, check).1 != Unanswered
    ensures var (t, e, _) := Run(opts, shown, retry, answers, n, checkMismatch, check);
      n + |t| - 1 < |answers| &&
      Step(t[|t| - 1].Sent(), t[|t| - 1].retry, Classify(answers[n + |t| - 1]), checkMismatch, check).0 ==
        (if e == Exited then ExitOne else Halt)
    decreases |answers| - n
  {
    assert Request(shown, opts.verb, opts.uri, retry).Sent() == opts;
    var step := Step(opts, retry, Classify(answers[n]), checkMismatch, check);
    match step.0
    case FollowUp(l, rt) =>
      var rest := Run(step.1, l, rt, answers, n + 1, checkMismatch, check);
      RunEndsWithLastStep(step.1, l, rt, answers, n + 1, checkMismatch, check);
      var t := [Request(shown, opts.verb, opts.uri, retry)] + rest.0;
      assert t[|t| - 1] == rest.0[|rest.0| - 1];
    case ExitOne =>
    case Halt =>
  }

  /**
   * What a run leaves in `req_options`: the options its last request was
   * sent with, as the callback of that request left them; or untouched,
   * when that request was never answered.
   */
  lemma {:induction false} OptionsLeftByRun(opts: Options, shown: HttpMethod, retry: bool,
                                            answers: seq<RawResult>, n: nat,
                                            checkMismatch: bool, check: Resolver)
    requires n <= |answers|
    ensures var (t, e, after) := Run(opts, shown, retry, answers, n, checkMismatch, check);
      e == Unanswered ==> after == t[|t| - 1].Sent()
    ensures var (t, e, after) := Run(opts, shown, retry, answers, n, checkMismatch, check);
      e != Unanswered ==>
        n + |t| - 1 < |answers| &&
        after == Step(t[|t| - 1].Sent(), t[|t| - 1].retry, Classify(answers[n + |t| - 1]), checkMismatch, check).1
    decreases |answers| - n
  {
    var request := Request(shown, opts.verb, opts.uri, retry);
    assert request.Sent() == opts;
    if n < |answers| {
      var step := Step(opts, retry, Classify(answers[n]), checkMismatch, check);
      match step.0
      case FollowUp(l, rt) =>
        var rest := Run(step.1, l, rt, answers, n + 1, checkMismatch, check);
        OptionsLeftByRun(step.1, l, rt, answers, n + 1, checkMismatch, check);
        var t := [request] + rest.0;
        assert t[|t| - 1] == rest.0[|rest.0| - 1];
      case ExitOne =>
      case Halt =>
    }
  }

  /** Every follow-up is either a restart after a fix or a GET fallback from a request that had retry. */
  lemma FollowUpShape(opts: Options, shown: HttpMethod, retry: bool, answers: seq<RawResult>, n: nat,
                      checkMismatch: bool, check: Resolver, k: nat)
    requires n <= |answers|
    requires 0 < k < |Run(opts, shown, retry, answers, n, checkMismatch, check).0|
    ensures var t := Run(opts, shown, retry, answers, n, checkMismatch, check).0;
      var fix := Correction(t[k - 1].uri, Classify(answers[n + k - 1]), checkMismatch, check);
      (t[k].retry <==> t[k].shown == HEAD) &&
      (t[k].retry <==> Fixed(fix)) &&
      (t[k].retry ==> t[k].uri == "https://" + fix.value && t[k].verb == t[k - 1].verb) &&
      (!t[k].retry ==> t[k - 1].retry && t[k].shown == GET && t[k].uri == t[k - 1].uri)
  {
    TraceFollowsStep(opts, shown, retry, answers, n, checkMismatch, check, k - 1);
  }

  /**
   * A 200 response, or an error that is neither a timeout, an unknown host
   * nor a TLS error, ends the run: no further request, and no exit.
   */
  lemma QuietAnswerEndsRun(opts: Options, shown: HttpMethod, retry: bool, answers: seq<RawResult>, n: nat,
                           checkMismatch: bool, check: Resolver, k: nat)
    requires n + k < |answers|
    requires answers[n + k] == Response(200) || Classify(answers[n + k]).Unclassified?
    requires k < |Run(opts, shown, retry, answers, n, checkMismatch, check).0|
    ensures var (t, e, _) := Run(opts, shown, retry, answers, n, checkMismatch, check);
      |t| == k + 1 && e == Halted
  {
    var t := Run(opts, shown, retry, answers, n, checkMismatch, check).0;
    if k + 1 < |t| {
      TraceFollowsStep(opts, shown, retry, answers, n, checkMismatch, check, k);
    } else {
      RunEndsWithLastStep(opts, shown, retry, answers, n, checkMismatch, check);
    }
  }

  /**
   * `process.exit(1)` happens only after a timeout or an unknown host on a
   * request without retry; a TLS error never exits.
   */
  lemma ExitOnlyAfterTimeoutOrNotFound(opts: Options, shown: HttpMethod, retry: bool,
                                       answers: seq<RawResult>, n: nat,
                                       checkMismatch: bool, check: Resolver)
    requires n <= |answers|
    requires Run(opts, shown, retry, answers, n, checkMismatch, check).1 == Exited
    ensures var t := Run(opts, shown, retry, answers, n, checkMismatch, check).0;
      var o := Classify(answers[n + |t| - 1]);
      n + |t| - 1 < |answers| && !t[|t| - 1].retry && (o.Timeout? || o.NotFound?)
  {
    RunEndsWithLastStep(opts, shown, retry, answers, n, checkMismatch, check);
  }

  /**
   * The timeout and unknown-host fallbacks resend the same options: the
   * follow-up is announced as GET but sends whatever method was set before.
   */
  lemma FallbackKeepsOptions(opts: Options, shown: HttpMethod, retry: bool, answers: seq<RawResult>, n: nat,
                             checkMismatch: bool, check: Resolver, k: nat)
    requires n <= |answers|
    requires 0 < k < |Run(opts, shown, retry, answers, n, checkMismatch, check).0|
    requires Classify(answers[n + k - 1]).Timeout? || Classify(answers[n + k - 1]).NotFound?
    ensures var t := Run(opts, shown, retry, answers, n, checkMismatch, check).0;
      t[k] == Request(GET, t[k - 1].verb, t[k - 1].uri, false)
  {
    TraceFollowsStep(opts, shown, retry, answers, n, checkMismatch, check, k - 1);
  }

  /** So a first request that times out is followed by a request labelled GET that sends HEAD. */
  lemma TimeoutFallbackSendsHead(url: string, answers: seq<RawResult>, checkMismatch: bool, check: Resolver)
    requires |answers| > 0 && Classify(answers[0]).Timeout?
    ensures var t := Run(Options(url, HEAD), HEAD, true, answers, 0, checkMismatch, check).0;
      |t| >= 2 && t[1] == Request(GET, HEAD, url, false)
  {
    var t := Run(Options(url, HEAD), HEAD, true, answers, 0, checkMismatch, check).0;
    assert |t| >= 2;
    FallbackKeepsOptions(Options(url, HEAD), HEAD, true, answers, 0, checkMismatch, check, 1);
  }

  /**
   * Every fallback passes `retry = false`, so without a restart a run issues
   * at most two requests, and only one when it starts without retry.
   */
  lemma AtMostTwoWithoutRestart(opts: Options, shown: HttpMethod, retry: bool, answers: seq<RawResult>, n: nat,
                                checkMismatch: bool, check: Resolver)
    requires n <= |answers|
    requires var t := Run(opts, shown, retry, answers, n, checkMismatch, check).0;
      forall k :: 0 < k < |t| ==> !t[k].retry
    ensures |Run(opts, shown, retry, answers, n, checkMismatch, check).0| <= if retry then 2 else 1
  {
    var t := Run(opts, shown, retry, answers, n, checkMismatch, check).0;
    if |t| >= 2 {
      FollowUpShape(opts, shown, retry, answers, n, checkMismatch, check, 1);
    }
    if |t| >= 3 {
      FollowUpShape(opts, shown, retry, answers, n, checkMismatch, check, 2);
    }
  }

  /** With the mismatch check off nothing restarts, so a run has at most two requests. */
  lemma NoMismatchCheckAtMostTwo(opts: Options, shown: HttpMethod, retry: bool, answers: seq<RawResult>, n: nat,
                                 check: Resolver)
    requires n <= |answers|
    ensures |Run(opts, shown, retry, answers, n, false, check).0| <= if retry then 2 else 1
  {
    var t := Run(opts, shown, retry, answers, n, false, check).0;
    forall k | 0 < k < |t| ensures !t[k].retry {
      FollowUpShape(opts, shown, retry, answers, n, false, check, k);
    }
    AtMostTwoWithoutRestart(opts, shown, retry, answers, n, false, check);
  }

  /** Two answers that differ at most in their `connect` flag. */
  predicate SameButConnect(a: RawResult, b: RawResult)
  {
    a == b || (a.Failure? && b.Failure? && b == a.(connect := b.connect))
  }

  /** The `connect` flag of a timeout only changes the message, never what happens next. */
  lemma {:induction false} ConnectFlagNeverDecides(opts: Options, shown: HttpMethod, retry: bool,
                                                   a1: seq<RawResult>, a2: seq<RawResult>, n: nat,
                                                   checkMismatch: bool, check: Resolver)
    requires n <= |a1| == |a2|
    requires forall i :: n <= i < |a1| ==> SameButConnect(a1[i], a2[i])
    ensures Run(opts, shown, retry, a1, n, checkMismatch, check) ==
            Run(opts, shown, retry, a2, n, checkMismatch, check)
    decreases |a1| - n
  {
    if n < |a1| {
      var o1, o2 := Classify(a1[n]), Classify(a2[n]);
      assert Step(opts, retry, o1, checkMismatch, check) == Step(opts, retry, o2, checkMismatch, check);
      var step := Step(opts, retry, o1, checkMismatch, check);
      if step.0.FollowUp? {
        ConnectFlagNeverDecides(step.1, step.0.shown, step.0.retry, a1, a2, n + 1, checkMismatch, check);
      }
    }
  }

  /** A TLS error for which the resolver proposes a fix, whatever the URI. */
  ghost predicate AlwaysFixable(a: RawResult, check: Resolver)
  {
    Classify(a).TlsReason? && forall u :: Fixed(check(u, a.host, a.reason))
  }

  /**
   * When every answer is a TLS error the resolver can fix, every callback
   * restarts: the run goes on for as long as there are answers. The code
   * sets no bound on the number of attempts.
   */
  lemma {:induction false} RestartsNeverEnd(opts: Options, shown: HttpMethod, retry: bool,
                                            answers: seq<RawResult>, n: nat, check: Resolver)
    requires n <= |answers|
    requires forall i :: n <= i < |answers| ==> AlwaysFixable(answers[i], check)
    ensures var (t, e, _) := Run(opts, shown, retry, answers, n, true, check);
      |t| == |answers| - n + 1 && e == Unanswered &&
      forall k :: 0 < k < |t| ==> t[k].shown == HEAD && t[k].retry
    decreases |answers| - n
  {
    if n < |answers| {
      var o := Classify(answers[n]);
      assert AlwaysFixable(answers[n], check);
      assert Fixed(check(opts.uri, answers[n].host, answers[n].reason));
      var step := Step(opts, retry, o, true, check);
      assert step.0 == FollowUp(HEAD, true);
      RestartsNeverEnd(step.1, HEAD, true, answers, n + 1, check);
      var rest := Run(step.1, HEAD, true, answers, n + 1, true, check).0;
      var t := Run(opts, shown, retry, answers, n, true, check).0;
      assert t == [Request(shown, opts.verb, opts.uri, retry)] + rest;
      assert forall k :: 0 < k < |t| ==> t[k] == rest[k - 1];
    }
  }

  /** The answer of `NoAttemptBound` is fixable for every URI. */
  lemma ListedWwwAnswerIsFixable(a: RawResult, url: string)
    requires a == Failure("", false, "DNS:www.x", "x.")
    ensures AlwaysFixable(a, ResolverFor(url))
  {
    forall u ensures Fixed(ResolverFor(url)(u, a.host, a.reason)) {
      ListedWwwNameAlwaysFixes(u, a.host, a.reason, url);
    }
  }

  /**
   * Concretely: a certificate for "www.x" on a host "x." answered again and
   * again makes the probe restart after every answer, however many there are.
   */
  lemma NoAttemptBound(url: string, answers: seq<RawResult>)
    requires forall i :: 0 <= i < |answers| ==> answers[i] == Failure("", false, "DNS:www.x", "x.")
    ensures var (t, e, _) := Run(Options(url, HEAD), HEAD, true, answers, 0, true, ResolverFor(url));
      |t| == |answers| + 1 && e == Unanswered
  {
    forall i | 0 <= i < |answers| ensures AlwaysFixable(answers[i], ResolverFor(url)) {
      ListedWwwAnswerIsFixable(answers[i], url);
    }
    RestartsNeverEnd(Options(url, HEAD), HEAD, true, answers, 0, ResolverFor(url));
  }
}
