/**
 * `check_ssl_mismatch` (test_requests.js:166-201): a heuristic that looks
 * for a missing or extra "www." in a TLS hostname-mismatch error and, when
 * the toggled hostname is one of the certificate's alternative names,
 * proposes the host to retry with.
 *
 * The JavaScript callback `callback(null, x)` becomes a returned
 * `Option<string>`: `None` stands for both `null` and `undefined`.
 */
module SslMismatch {
  import opened JsString

  /** The marker the alternative names are split on. */
  const DNS := "DNS:"
  /** The literal the hostname and the URI are split on. */
  const WWW := "www."

  /** `hostname.slice(0, -1)`: drops the last character, whatever it is. */
  function DropLast(hostname: string): (h: string)
    ensures |hostname| > 0 ==> hostname == h + [hostname[|hostname| - 1]]
    ensures |hostname| == 0 ==> h == ""
  {
    if |hostname| == 0 then hostname else hostname[..|hostname| - 1]
  }

  /** The characters JavaScript's `.` in a regular expression does not match. */
  predicate IsLineTerminator(c: char)
  {
    c == '\n' || c == '\r' || c == '\U{2028}' || c == '\U{2029}'
  }

  /**
   * `/www./g.test(h)` on a freshly created expression (so `lastIndex` is 0):
   * scans `h` for "www" followed by any one character other than a line
   * terminator. The pattern is neither anchored nor is its dot escaped.
   */
  predicate WwwRegexTest(h: string)
    decreases |h|
  {
    |h| >= 4 && (WwwDotAt(h, 0) || WwwRegexTest(h[1..]))
  }

  /** The scan finds a match exactly when the pattern matches at some index. */
  lemma {:induction false} WwwRegexTestMatchesAnywhere(h: string)
    ensures WwwRegexTest(h) <==> exists i :: 0 <= i < |h| - 3 && WwwDotAt(h, i)
    decreases |h|
  {
    if |h| >= 4 {
      WwwRegexTestMatchesAnywhere(h[1..]);
      forall i | 0 < i < |h| - 3 ensures WwwDotAt(h, i) == WwwDotAt(h[1..], i - 1) {
        assert h[i..i + 3] == h[1..][i - 1..i + 2];
      }
      if WwwRegexTest(h[1..]) {
        var i :| 0 <= i < |h[1..]| - 3 && WwwDotAt(h[1..], i);
        assert WwwDotAt(h, i + 1);
      }
    }
  }

  /** The pattern `www.` matches `h` at index `i`. */
  predicate WwwDotAt(h: string, i: nat)
    requires i + 4 <= |h|
  {
    h[i..i + 3] == "www" && !IsLineTerminator(h[i + 3])
  }

  /** Some `alt_names[i]` with `i >= 1` equals `candidate` (`undefined` equals none). */
  predicate MatchesAltName(altNames: seq<string>, candidate: Option<string>)
  {
    candidate.Some? && exists i :: 1 <= i < |altNames| && altNames[i] == candidate.value
  }

  /** `s.split('www.')[1]`, which is `undefined` when `s` holds no "www.". */
  function AfterFirstWww(s: string): Option<string>
  {
    var parts := Split(s, WWW);
    if |parts| >= 2 then Some(parts[1]) else None
  }

  /** The hostname the certificate is searched for: the "www." toggle of the trimmed hostname. */
  function Candidate(hostname: string): Option<string>
  {
    var h := DropLast(hostname);
    if WwwRegexTest(h) then AfterFirstWww(h) else Some(WWW + h)
  }

  /**
   * What `check_ssl_mismatch(uri, hostname, reason)` passes to its callback,
   * `url` being the URL given on the command line.
   */
  function Resolve(uri: string, hostname: string, reason: string, url: string): Option<string>
  {
    if !MatchesAltName(Split(reason, DNS), Candidate(hostname)) then None
    else if WwwRegexTest(DropLast(hostname)) then AfterFirstWww(uri)
    else Some(WWW + url)
  }

  /** The resolver, scanning the alternative names with index loops that return early. */
  method CheckSslMismatch(uri: string, hostname: string, reason: string, url: string)
    returns (result: Option<string>)
    ensures result == Resolve(uri, hostname, reason, url)
  {
    var altNames := Split(reason, DNS);
    var wwwStart := false;
    var host: Option<string> := Some(DropLast(hostname));
    if |altNames| == 0 {
      // a split always yields at least one piece
      assert false;
    }
    wwwStart := WwwRegexTest(host.value);
    if wwwStart {
      host := AfterFirstWww(host.value);
      for i := 1 to |altNames|
        invariant forall j :: 1 <= j < i ==> Some(altNames[j]) != host
      {
        if Some(altNames[i]) == host {
          result := AfterFirstWww(uri);
          return;
        }
      }
    } else {
      host := Some(WWW + host.value);
      for i := 1 to |altNames|
        invariant forall j :: 1 <= j < i ==> Some(altNames[j]) != host
      {
        if Some(altNames[i]) == host {
          result := Some(WWW + url);
          return;
        }
      }
    }
    result := None;
  }

  /** The last character of the hostname never influences the outcome: it is always cut. */
  lemma LastCharNeverMatters(uri: string, host: string, c: char, d: char, reason: string, url: string)
    ensures Resolve(uri, host + [c], reason, url) == Resolve(uri, host + [d], reason, url)
  {
    assert DropLast(host + [c]) == host == DropLast(host + [d]);
  }

  /** Only the pieces after the first "DNS:" are compared: the text before it is never a name. */
  lemma FirstPieceNeverCompared(uri: string, hostname: string, r1: string, r2: string, url: string)
    requires Split(r1, DNS)[1..] == Split(r2, DNS)[1..]
    ensures Resolve(uri, hostname, r1, url) == Resolve(uri, hostname, r2, url)
  {
    var a1, a2 := Split(r1, DNS), Split(r2, DNS);
    assert |a1| == |a2|;
    assert forall i :: 1 <= i < |a1| ==> a1[i] == a1[1..][i - 1] == a2[i];
  }

  /**
   * A correction is proposed exactly when the toggled hostname is one of the
   * alternative names after the first "DNS:" and, on the www side, the
   * request URI holds a literal "www.".
   */
  lemma FixProposedIff(uri: string, hostname: string, reason: string, url: string)
    ensures Resolve(uri, hostname, reason, url).Some? <==>
      MatchesAltName(Split(reason, DNS), Candidate(hostname)) &&
      (WwwRegexTest(DropLast(hostname)) ==> Contains(uri, WWW))
  {
    IndexOfFindsFirst(uri, WWW);
    if Contains(uri, WWW) {
      assert |Split(uri, WWW)| >= 2;
    }
  }

  /**
   * On the www side the proposed host is the part of the URI after its first
   * "www.", cut short at the next "www." if there is one; the scheme and
   * everything before that "www." are dropped.
   */
  lemma WwwFixIsTextAfterFirstWww(uri: string, hostname: string, reason: string, url: string, r: string)
    requires WwwRegexTest(DropLast(hostname))
    requires Resolve(uri, hostname, reason, url) == Some(r)
    ensures var before := Split(uri, WWW)[0];
      !Contains(before, WWW) && !Contains(r, WWW) &&
      |before| + |WWW| + |r| <= |uri| && uri[..|before| + |WWW| + |r|] == before + WWW + r
    // the proposal runs to the end of the URI or stops right before its second "www."
    ensures var e := |Split(uri, WWW)[0]| + |WWW| + |r|; e == |uri| || OccursAt(uri, WWW, e)
  {
    assert AfterFirstWww(uri) == Some(r);
    TextAfterFirstWww(uri, r);
  }

  /** `split('www.')[1]`, when there is one, is the text between the first "www." and the next one or the end. */
  lemma TextAfterFirstWww(s: string, r: string)
    requires AfterFirstWww(s) == Some(r)
    ensures var before := Split(s, WWW)[0];
      !Contains(before, WWW) && !Contains(r, WWW) &&
      |before| + |WWW| + |r| <= |s| && s[..|before| + |WWW| + |r|] == before + WWW + r
    ensures var e := |Split(s, WWW)[0]| + |WWW| + |r|; e == |s| || OccursAt(s, WWW, e)
  {
    SecondPieceFollowsFirstSeparator(s, WWW);
    PiecesLackSeparator(s, WWW);
  }

  /**
   * On the non-www side the proposal is "www." put in front of the URL from
   * the command line, whatever the request URI is.
   */
  lemma NonWwwFixUsesCommandLineUrl(u1: string, u2: string, hostname: string, reason: string, url: string)
    requires !WwwRegexTest(DropLast(hostname))
    ensures Resolve(u1, hostname, reason, url) == Resolve(u2, hostname, reason, url)
    ensures Resolve(u1, hostname, reason, url).Some? ==> Resolve(u1, hostname, reason, url) == Some(WWW + url)
  {
  }

  /**
   * When the unescaped dot lets `/www./` match a hostname with no literal
   * "www." in it, the toggled hostname is `undefined` and nothing matches.
   */
  lemma LooseRegexMatchNeverFixes(uri: string, hostname: string, reason: string, url: string)
    requires WwwRegexTest(DropLast(hostname)) && !Contains(DropLast(hostname), WWW)
    ensures Resolve(uri, hostname, reason, url) == None
  {
    IndexOfFindsFirst(DropLast(hostname), WWW);
  }

  /**
   * The pieces of a split keep whatever follows a name up to the next
   * "DNS:", so in "DNS:a, DNS:b" the first name is the piece "a, " and a
   * hostname "www.a." finds no match although "a" is listed.
   */
  lemma ListedNameWithSeparatorNeverMatches(uri: string, hostname: string, reason: string, url: string)
    requires hostname == "www.a." && reason == "DNS:a, DNS:b"
    ensures Resolve(uri, hostname, reason, url) == None
  {
    ExampleReasonPieces(reason);
    ExampleWwwCandidate(hostname);
    assert !MatchesAltName(["", "a, ", "b"], Some("a")) by {
      assert "a, " != "a";
    }
  }

  lemma ExampleReasonPieces(r: string)
    requires r == "DNS:a, DNS:b"
    ensures Split(r, DNS) == ["", "a, ", "b"]
  {
    var t := r[4..];
    assert r == DNS + t by {
      assert r[..4] == DNS;
    }
    SplitLeadingSeparator(t, DNS);
    ExampleTailPieces(t);
  }

  lemma ExampleTailPieces(r: string)
    requires r == "a, DNS:b"
    ensures Split(r, DNS) == ["a, ", "b"]
  {
    ExampleTailIndex(r);
    SplitAtFirst(r, DNS, 3);
    var b := r[7..];
    assert r[..3] == "a, " && b == "b";
    assert Split(b, DNS) == [b];
  }

  lemma ExampleTailIndex(r: string)
    requires r == "a, DNS:b"
    ensures IndexOf(r, DNS) == Some(3)
  {
    IndexOfSkipsFirst(r, DNS);
    ExampleGapIndex(r[1..]);
  }

  lemma ExampleGapIndex(r: string)
    requires r == ", DNS:b"
    ensures IndexOf(r, DNS) == Some(2)
  {
    IndexOfSkipsFirst(r, DNS);
    var t := r[1..];
    IndexOfSkipsFirst(t, DNS);
    assert OccursAt(t[1..], DNS, 0);
  }

  lemma ExampleWwwCandidate(hostname: string)
    requires hostname == "www.a."
    ensures Candidate(hostname) == Some("a")
  {
    var h := DropLast(hostname);
    assert h == "www.a";
    assert WwwDotAt(h, 0);
    assert WwwRegexTest(h);
    assert OccursAt(h, WWW, 0);
    SplitAtFirst(h, WWW, 0);
    var rest := h[4..];
    assert rest == "a";
    assert Split(rest, WWW) == [rest];
  }

  /**
   * A certificate for "www.x" and a host "x.": the non-www branch finds
   * "www.x" listed and proposes "www." + url, whatever the URI.
   */
  lemma ListedWwwNameAlwaysFixes(uri: string, hostname: string, reason: string, url: string)
    requires hostname == "x." && reason == "DNS:www.x"
    ensures Resolve(uri, hostname, reason, url) == Some(WWW + url)
  {
    var h := DropLast(hostname);
    assert h == "x";
    var name := reason[4..];
    assert reason == DNS + name by {
      assert reason[..4] == DNS;
    }
    SplitLeadingSeparator(name, DNS);
    assert name == "www.x";
    ExampleNameIndex(name);
    var altNames := Split(reason, DNS);
    assert altNames == ["", name];
    assert !WwwRegexTest(h);
    assert Candidate(hostname) == Some(WWW + h);
    assert altNames[1] == WWW + h;
    assert MatchesAltName(altNames, Candidate(hostname));
  }

  lemma ExampleNameIndex(name: string)
    requires name == "www.x"
    ensures Split(name, DNS) == [name]
  {
    IndexOfSkipsFirst(name, DNS);
    var t := name[1..];
    IndexOfSkipsFirst(t, DNS);
    assert |t[1..]| < |DNS|;
  }
}
