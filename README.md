# test_requests: a link-health probe, modelled in Dafny

`test_requests.js` is a small Node.js link-health checker. It sends a HEAD
request to one URL. Depending on the result it may fall back to a GET
request, exit with status 1, or stop.

With the `-m` flag, a TLS hostname-mismatch error triggers a second step.
The program looks at the certificate's alternative names. If the only
difference is a missing or extra `www.`, it restarts the probe on a
corrected URI.

This project models three parts of the program:
- the decision logic of `make_request`;
- its updates to the shared `req_options` object;
- the string heuristic `check_ssl_mismatch`.

Dafny proves properties of that model. The model follows the code as
written. In places the code does less than its header comment
(test_requests.js:1-7) and the comment above `check_ssl_mismatch`
suggest; "Behaviour worth knowing" below lists those places.

Files and modules:

- `js_string.dfy`, module `JsString`: `split` with a non-empty string
  separator, the string operation that gets a module of its own.
  - `IndexOf` is the helper that defines `Split`: the first occurrence of
    the separator. The program itself never calls `indexOf`.
  - `Join` is the inverse of `Split`, used only to state what a split
    keeps. The program itself never calls `join`.
  - `Option`, for `null`/`undefined`.
- `ssl_mismatch.dfy`, module `SslMismatch`: `check_ssl_mismatch`.
  - `Resolve`, a specification function giving what the callback receives.
  - `CheckSslMismatch`, a method with the source's two early-return index
    loops.
  - Lemmas about the heuristic's edge behaviour.
- `prober.dfy`, module `Prober`: `make_request` and the first call.
  - `Classify` sorts a result into the classes the callback tests, in the
    order it tests them.
  - `Step` is one callback, stated as a function: the next action and the
    new `method`/`uri` of `req_options`.
  - `ReqOptions` is the mutable options object.
  - `OnResult` is the callback as a method that updates that object.
  - `Run` is the specification of a whole run.
  - `MakeRequest` is the self-recursive request method.
  - `Probe` builds the options and issues the first `HEAD` request.
- `prober_lemmas.dfy`, module `ProberLemmas`: properties of whole runs.

The `request` library is an oracle. The model takes a sequence of answers,
and the n-th request issued receives the n-th answer. A run records every
request issued. Each recorded request holds:
- the `method` argument passed to `make_request` (`shown`, which is only
  printed);
- the method and URI actually sent, read from `req_options`;
- the `retry` flag.

A run ends in one of three ways:
- `Halted`: nothing more to do;
- `Exited`: `process.exit(1)`;
- `Unanswered`: the oracle has no answer left.

`check_ssl_mismatch` is called by `make_request`. `Run` and the lemmas
take it as a `Resolver` function value. `Probe` instantiates that with
`ResolverFor(url)`, which is `Resolve` for the command-line URL.

Behaviour worth knowing (the model follows the code):
- There is no bound on the number of attempts. Every successful mismatch
  fix restarts with `retry = true`. `NoAttemptBound` exhibits runs of any
  length.
- A TLS error with no retry left never calls `process.exit(1)`. Only
  timeouts and `ENOTFOUND` exit (`ExitOnlyAfterTimeoutOrNotFound`).
- The timeout and `ENOTFOUND` fallbacks announce a GET request but do not
  set `req_options.method`. The follow-up therefore sends the previous
  method, normally HEAD (`TimeoutFallbackSendsHead`).
- The "www" test is the regular expression `/www./`. It is unanchored and
  its dot is unescaped, so it is not a prefix test. When it matches a
  hostname without a literal `www.`, no fix is found
  (`LooseRegexMatchNeverFixes`).
- The pieces of `reason.split('DNS:')` keep whatever follows each name up
  to the next `DNS:`, such as the `", "` that separates the names. For
  example, with the reason `"DNS:a, DNS:b"` and the hostname `"www.a."`,
  the candidate is `"a"` but the piece is `"a, "`, so no fix is found
  (`ListedNameWithSeparatorNeverMatches`).
- On the non-www side the proposal is `'www.' + url`, built from the
  command-line URL. The URI that failed is not used
  (`NonWwwFixUsesCommandLineUrl`). The restart then targets
  `'https://' + 'www.' + url`.
- An unclassified error is only logged: no follow-up and no exit
  (`QuietAnswerEndsRun`).

## Model

| member | source | states |
|---|---|---|
| JsString.IndexOfFindsFirst | test_requests.js:167 | the place where `split` cuts is the first occurrence of the separator, and there is none exactly when the separator does not occur |
| JsString.Split | test_requests.js:167 | `split` with a string separator always yields at least one piece |
| JsString.PiecesLackSeparator | test_requests.js:167 | no piece of a split contains the separator |
| JsString.SplitJoin | test_requests.js:167 | joining the pieces of a split with the separator gives back the original string |
| JsString.SplitLeadingSeparator | test_requests.js:167 | a reason that starts with "DNS:" has an empty first piece, followed by the pieces of the rest |
| JsString.SecondPieceFollowsFirstSeparator | test_requests.js:184 | `split(sep)[1]` is the text right after the first separator; it ends at the end of the string when there are exactly two pieces, and right where another separator starts when there are more |
| SslMismatch.DropLast | test_requests.js:170 | `slice(0, -1)` removes exactly the last character, whatever it is |
| SslMismatch.WwwRegexTestMatchesAnywhere | test_requests.js:176 | `/www./.test(h)` holds exactly when, at some index of `h`, "www" is followed by a character other than a line terminator |
| SslMismatch.CheckSslMismatch | test_requests.js:166-201 | the resolver, with its two early-return loops over the alternative names, hands back exactly what `Resolve` specifies; its `alt_names.length == 0` guard is unreachable, because a split always has a piece |
| SslMismatch.LastCharNeverMatters | test_requests.js:170 | the last character of the hostname never changes the outcome |
| SslMismatch.FirstPieceNeverCompared | test_requests.js:181-194 | only the pieces after the first "DNS:" are compared; changing the text before it changes nothing |
| SslMismatch.FixProposedIff | test_requests.js:176-200 | a proposal is made exactly when the toggled hostname equals some piece at index 1 or later and, on the www side, the URI contains "www." |
| SslMismatch.WwwFixIsTextAfterFirstWww | test_requests.js:184 | on the www side the proposal is the text of the URI right after its first "www.", with no "www." in it; it runs to the end of the URI or stops right where a second "www." starts |
| SslMismatch.NonWwwFixUsesCommandLineUrl | test_requests.js:189-197 | on the non-www side the proposal does not depend on the URI and is "www." followed by the command-line URL |
| SslMismatch.LooseRegexMatchNeverFixes | test_requests.js:176-179 | when `/www./` matches but the hostname has no literal "www.", the candidate is undefined and nothing is proposed |
| SslMismatch.ListedNameWithSeparatorNeverMatches | test_requests.js:181-187 | with reason "DNS:a, DNS:b" and hostname "www.a.", no fix is proposed, because the piece is "a, " |
| SslMismatch.ListedWwwNameAlwaysFixes | test_requests.js:189-197 | with reason "DNS:www.x" and hostname "x.", the proposal is "www." + url for every URI |
| Prober.Classify | test_requests.js:73-142 | results are tested in a fixed order: a response, then the two timeout codes, then `ENOTFOUND`, then a non-empty `reason`, and anything else is unclassified; every failure with another code and a non-empty `reason` is a TLS reason carrying that reason and host |
| Prober.Step | test_requests.js:73-153 | one callback: exit exactly on a timeout or `ENOTFOUND` without retry; restart with HEAD and retry exactly when the resolver's result is truthy, with uri "https://" + result; every other follow-up is GET without retry and needs retry; status, TLS and unclassified rules; which options each branch writes |
| Prober.ReqOptions.constructor | test_requests.js:51-59 | the options start with the command-line URL and method HEAD, and carry the redirect limit and the timeout |
| Prober.OnResult | test_requests.js:70-155 | the callback, as a method that updates `req_options` in place, has exactly the effect and the next action `Step` gives |
| Prober.Run | test_requests.js:68-156 | a run, with the options it leaves behind, starts with the given request; it issues at most one request more than there are answers, and runs out of answers exactly when it issues one more |
| Prober.MakeRequest | test_requests.js:68-156 | the self-recursive request method issues exactly the requests of `Run` from the current options, ends the same way, and leaves `req_options` holding the options `Run` ends with |
| Prober.Probe | test_requests.js:51-64 | the probe issues exactly the requests of a run that starts with HEAD, retry on, at the command-line URL |
| ProberLemmas.TraceFollowsStep | test_requests.js:68-156 | every request after the first is the follow-up that the previous request's callback asked for, sent with the options that callback left |
| ProberLemmas.RunEndsWithLastStep | test_requests.js:73-153 | a run that does not run out of answers ends as its last callback decided: exit or stop |
| ProberLemmas.OptionsLeftByRun | test_requests.js:68-156 | after a run `req_options` holds what the callback of the last request left, or, when that request got no answer, the options it was sent with |
| ProberLemmas.FollowUpShape | test_requests.js:119-150 | a follow-up is labelled HEAD exactly when it has retry, and that happens exactly after a fix, at "https://" + fix with the method unchanged; otherwise it is a GET that follows a request with retry |
| ProberLemmas.QuietAnswerEndsRun | test_requests.js:140-153 | a 200 response, or an unclassified error, is the last request of the run, which halts without exit |
| ProberLemmas.ExitOnlyAfterTimeoutOrNotFound | test_requests.js:75-107 | an exit happens only after a timeout or `ENOTFOUND` on a request without retry |
| ProberLemmas.FallbackKeepsOptions | test_requests.js:75-107 | after a timeout or `ENOTFOUND` the follow-up is labelled GET, has no retry and sends the same method and URI as before |
| ProberLemmas.TimeoutFallbackSendsHead | test_requests.js:51-91 | when the first request times out, the second is labelled GET but sends HEAD to the same URL |
| ProberLemmas.AtMostTwoWithoutRestart | test_requests.js:81-150 | without a restart a run has at most two requests, and only one when it starts without retry |
| ProberLemmas.NoMismatchCheckAtMostTwo | test_requests.js:109-137 | with the mismatch check off, a run has at most two requests |
| ProberLemmas.ConnectFlagNeverDecides | test_requests.js:75-96 | answers that differ only in their `connect` flag give the same run |
| ProberLemmas.RestartsNeverEnd | test_requests.js:123-126 | if the resolver fixes every answer, every follow-up is a HEAD with retry, and the run only ends when the answers run out |
| ProberLemmas.NoAttemptBound | test_requests.js:112-126 | for any number of answers of one fixable kind, the probe issues one request more than there are answers |

## Left out

- Command-line parsing (test_requests.js:10-47) is left out. That covers the defaults, the `'10000'` timeout fallback and the exit when no URL is given. The URL, timeout, redirect limit and mismatch flag are plain inputs.
- The `request` library is left out: the network, TLS, redirects, timeout enforcement and `elapsedTime`. Its results come from the answer oracle.
- The redirect limit and the timeout are carried in `ReqOptions` but never read. The `time: true` option is not modelled.
- All console output is left out, including the `JSON.stringify` of errors. The `method` argument of `make_request` is kept only as the recorded label `shown`.
- `process.exit(1)` is left out as a real effect. It is the `ExitOne` action and the `Exited` ending.
- The asynchronous nesting of the callbacks is not modelled. A callback calls `make_request` for the next request before it ends (test_requests.js:81, 120, 126 and 150) and only then logs a blank line (test_requests.js:154). Every write to `req_options` comes before that call, and the next callback runs only after the current one, so the model treats the callbacks as sequential.
- `multi_url` (test_requests.js:49) is computed and never used.
- `error.host` is modelled as a string. If it is absent, `slice` throws in the source; the model does not cover that.
- `error.connect` is modelled as a boolean. An absent `connect` behaves like `false` and, as `ConnectFlagNeverDecides` shows, changes nothing.
- `error.reason` is modelled as a string. An absent or empty `reason` is the empty string, which the source treats as falsy.
- The `statusCode != 200` comparison is on integers. The model does not cover JavaScript's loose equality on non-numbers.
- The regular expression object `/www./g` is created anew on every call, so its `lastIndex` is always 0. The model assumes this.
- Strings are modelled as sequences of characters, while JavaScript strings are sequences of UTF-16 code units. Four of the string operations used give the same result in both views: `split` on an ASCII separator, concatenation, equality and `/www./.test`. The regular expression agrees because "www" is ASCII, a surrogate code unit is never `w`, and no surrogate half is a line terminator, so its `.` matching one code unit or one character makes no difference. `slice(0, -1)` is the one that differs, as the next line explains.
- SslMismatch.DropLast: removes the last character, while `slice(0, -1)` removes the last UTF-16 code unit. The two differ only for a hostname that ends in a character outside the Basic Multilingual Plane, where JavaScript leaves half a surrogate pair behind. Hostnames in TLS errors are ASCII (internationalised names travel as punycode), so the model does not cover that case.
