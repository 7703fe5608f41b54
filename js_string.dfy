/**
 * `String.prototype.split` with a non-empty string separator, the string
 * operation of the link checker that gets a module of its own.
 * The program calls neither `indexOf` nor `join`: `IndexOf` is the helper
 * that defines `Split` (the first occurrence of the separator), and `Join`
 * is its inverse, used only to characterise what `Split` keeps.
 */
module JsString {

  /** `null` / `undefined` on the JavaScript side. */
  datatype Option<+T> = None | Some(value: T)

  /** `sep` occurs in `s` starting at index `j`. */
  predicate OccursAt(s: string, sep: string, j: nat)
  {
    j + |sep| <= |s| && s[j..j + |sep|] == sep
  }

  /** `sep` occurs somewhere in `s`. */
  predicate Contains(s: string, sep: string)
  {
    exists j: nat :: j <= |s| && OccursAt(s, sep, j)
  }

  /** The first index at which `sep` occurs in `s`, or None when it does not occur; `Split` cuts there. */
  function IndexOf(s: string, sep: string): (r: Option<nat>)
    ensures r.Some? ==> OccursAt(s, sep, r.value)
    decreases |s|
  {
    if |s| < |sep| then
      None
    else if OccursAt(s, sep, 0) then
      Some(0)
    else
      match IndexOf(s[1..], sep)
      case None => None
      case Some(i) =>
        assert s[1..][i..i + |sep|] == s[i + 1..i + 1 + |sep|];
        Some(i + 1)
  }

  /** IndexOf finds the first occurrence, and finds one whenever there is one. */
  lemma {:induction false} IndexOfFindsFirst(s: string, sep: string)
    ensures IndexOf(s, sep).Some? ==> forall j: nat :: j < IndexOf(s, sep).value ==> !OccursAt(s, sep, j)
    ensures IndexOf(s, sep).None? <==> !Contains(s, sep)
    decreases |s|
  {
    if IndexOf(s, sep).Some? {
      assert OccursAt(s, sep, IndexOf(s, sep).value);
    }
    if |s| >= |sep| && !OccursAt(s, sep, 0) {
      IndexOfFindsFirst(s[1..], sep);
      OccursShift(s, sep);
      if Contains(s, sep) {
        var j: nat :| j <= |s| && OccursAt(s, sep, j);
        assert OccursAt(s[1..], sep, j - 1);
      }
    }
  }

  /** An occurrence past the first character is an occurrence in the rest of the string. */
  lemma OccursShift(s: string, sep: string)
    requires |s| > 0
    ensures forall j: nat :: 0 < j ==> OccursAt(s, sep, j) == OccursAt(s[1..], sep, j - 1)
  {
    forall j: nat | 0 < j ensures OccursAt(s, sep, j) == OccursAt(s[1..], sep, j - 1) {
      if j + |sep| <= |s| {
        assert s[1..][j - 1..j - 1 + |sep|] == s[j..j + |sep|];
      }
    }
  }

  /** A first character that cannot start the separator only shifts the index. */
  lemma IndexOfSkipsFirst(s: string, sep: string)
    requires |sep| > 0 && |s| > 0 && s[0] != sep[0]
    ensures IndexOf(s, sep) == match IndexOf(s[1..], sep)
                               case None => None
                               case Some(i) => Some(i + 1)
  {
    if |s| >= |sep| {
      assert s[..|sep|][0] != sep[0];
    }
  }

  /**
   * `s.split(sep)` for a non-empty separator: the pieces between the
   * occurrences of `sep`, scanning left to right. There is always at least
   * one piece.
   */
  function Split(s: string, sep: string): (r: seq<string>)
    requires |sep| > 0
    ensures |r| >= 1
    decreases |s|
  {
    var k := IndexOf(s, sep);
    if k.None? then [s] else [s[..k.value]] + Split(s[k.value + |sep|..], sep)
  }

  /** No piece of a split contains the separator. */
  lemma {:induction false} PiecesLackSeparator(s: string, sep: string)
    requires |sep| > 0
    ensures forall k :: 0 <= k < |Split(s, sep)| ==> !Contains(Split(s, sep)[k], sep)
    decreases |s|
  {
    var p := Split(s, sep);
    match IndexOf(s, sep)
    case None =>
      IndexOfFindsFirst(s, sep);
      assert p == [s];
    case Some(i) =>
      var rest := s[i + |sep|..];
      var q := Split(rest, sep);
      SplitAtFirst(s, sep, i);
      assert p == [s[..i]] + q;
      PiecesLackSeparator(rest, sep);
      TextBeforeFirstLacksSeparator(s, sep, i);
      forall k | 0 <= k < |p| ensures !Contains(p[k], sep) {
        if k > 0 {
          assert p[k] == q[k - 1];
        }
      }
  }

  /** The text before the first occurrence of the separator does not contain it. */
  lemma TextBeforeFirstLacksSeparator(s: string, sep: string, i: nat)
    requires |sep| > 0 && IndexOf(s, sep) == Some(i)
    ensures !Contains(s[..i], sep)
  {
    var head := s[..i];
    IndexOfFindsFirst(s, sep);
    forall j: nat | OccursAt(head, sep, j) ensures OccursAt(s, sep, j) && j < i {
      assert head[j..j + |sep|] == s[j..j + |sep|];
    }
  }

  /** Split cuts at the first occurrence of the separator and goes on with the rest. */
  lemma SplitAtFirst(s: string, sep: string, i: nat)
    requires |sep| > 0 && IndexOf(s, sep) == Some(i)
    ensures Split(s, sep) == [s[..i]] + Split(s[i + |sep|..], sep)
  {
  }

  /** A string that starts with the separator splits into an empty piece and the rest's pieces. */
  lemma SplitLeadingSeparator(t: string, sep: string)
    requires |sep| > 0
    ensures Split(sep + t, sep) == [""] + Split(t, sep)
  {
    var s := sep + t;
    assert s[..|sep|] == sep;
    SplitAtFirst(s, sep, 0);
    assert s[|sep|..] == t;
  }

  /** The pieces put back together with the separator between them: the inverse of `Split`. */
  function Join(parts: seq<string>, sep: string): string
    requires |parts| >= 1
    decreases |parts|
  {
    if |parts| == 1 then parts[0] else parts[0] + sep + Join(parts[1..], sep)
  }

  /** Splitting loses nothing: joining the pieces with the separator gives the string back. */
  lemma {:induction false} SplitJoin(s: string, sep: string)
    requires |sep| > 0
    ensures Join(Split(s, sep), sep) == s
    decreases |s|
  {
    match IndexOf(s, sep)
    case None =>
    case Some(i) =>
      var rest := s[i + |sep|..];
      var p, q := Split(s, sep), Split(rest, sep);
      SplitAtFirst(s, sep, i);
      assert p == [s[..i]] + q;
      assert p[0] == s[..i] && p[1..] == q;
      SplitJoin(rest, sep);
      assert Join(p, sep) == s[..i] + sep + Join(q, sep);
      assert s == s[..i] + s[i..i + |sep|] + rest;
  }

  /**
   * The first piece of a split is a prefix of the string, and it ends where
   * the first separator starts, or is the whole string when there is none.
   */
  lemma FirstPieceIsPrefix(s: string, sep: string)
    requires |sep| > 0
    ensures var p := Split(s, sep); |p[0]| <= |s| && s[..|p[0]|] == p[0]
    ensures var p := Split(s, sep); |p| == 1 ==> p[0] == s
    ensures var p := Split(s, sep); |p| >= 2 ==> OccursAt(s, sep, |p[0]|)
  {
  }

  /**
   * The second piece of a split is the text right after the first
   * separator, up to the next separator or the end of the string: it ends
   * at the end of the string when there are two pieces, and at the start of
   * another separator when there are more.
   */
  lemma SecondPieceFollowsFirstSeparator(s: string, sep: string)
    requires |sep| > 0 && |Split(s, sep)| >= 2
    ensures var p := Split(s, sep);
      |p[0]| + |sep| + |p[1]| <= |s| &&
      s[..|p[0]| + |sep| + |p[1]|] == p[0] + sep + p[1]
    ensures var p := Split(s, sep); var e := |p[0]| + |sep| + |p[1]|;
      (|p| == 2 ==> e == |s|) && (|p| > 2 ==> OccursAt(s, sep, e))
  {
    var i := IndexOf(s, sep).value;
    var rest := s[i + |sep|..];
    SplitAtFirst(s, sep, i);
    FirstPieceIsPrefix(rest, sep);
    SeparatorThenPrefix(s, sep, i, Split(rest, sep)[0]);
    SecondPieceEnd(s, sep, i);
  }

  /** Where the second piece ends: at the end of `s`, or where a third piece's separator starts. */
  lemma SecondPieceEnd(s: string, sep: string, i: nat)
    requires |sep| > 0 && IndexOf(s, sep) == Some(i)
    ensures var p := Split(s, sep);
      |p| >= 2 &&
      (|p| == 2 ==> |p[0]| + |sep| + |p[1]| == |s|) &&
      (|p| > 2 ==> OccursAt(s, sep, |p[0]| + |sep| + |p[1]|))
  {
    var m := i + |sep|;
    var p, q := Split(s, sep), Split(s[m..], sep);
    assert p == [s[..i]] + q by {
      SplitAtFirst(s, sep, i);
    }
    assert (|q| == 1 ==> q[0] == s[m..]) && (|q| >= 2 ==> OccursAt(s[m..], sep, |q[0]|)) by {
      FirstPieceIsPrefix(s[m..], sep);
    }
    PieceAfterSeparatorEnds(s, sep, i, p, q);
  }

  /**
   * When the pieces `p` of `s` are the text before a separator at `i`
   * followed by the pieces `q` of what comes after it, the second piece ends
   * where the first piece of `q` ends: at the end of `s`, or at a separator.
   */
  lemma PieceAfterSeparatorEnds(s: string, sep: string, i: nat, p: seq<string>, q: seq<string>)
    requires i + |sep| <= |s| && |q| >= 1 && p == [s[..i]] + q
    requires |q| == 1 ==> q[0] == s[i + |sep|..]
    requires |q| >= 2 ==> OccursAt(s[i + |sep|..], sep, |q[0]|)
    ensures |p| >= 2 &&
      (|p| == 2 ==> |p[0]| + |sep| + |p[1]| == |s|) &&
      (|p| > 2 ==> OccursAt(s, sep, |p[0]| + |sep| + |p[1]|))
  {
    assert |p[0]| == i && p[1] == q[0];
    if |q| >= 2 {
      OccursInSuffix(s, sep, i + |sep|, |q[0]|);
    }
  }

  /** An occurrence in a suffix of `s` is an occurrence in `s`, shifted by where the suffix starts. */
  lemma OccursInSuffix(s: string, sep: string, m: nat, j: nat)
    requires m <= |s| && OccursAt(s[m..], sep, j)
    ensures OccursAt(s, sep, m + j)
  {
    assert s[m..][j..j + |sep|] == s[m + j..m + j + |sep|];
  }

  /** A separator at `i` followed by a prefix `t` of what comes after it. */
  lemma SeparatorThenPrefix(s: string, sep: string, i: nat, t: string)
    requires OccursAt(s, sep, i)
    requires |t| <= |s| - i - |sep| && s[i + |sep|..][..|t|] == t
    ensures s[..i + |sep| + |t|] == s[..i] + sep + t
  {
    var m, n := i + |sep|, i + |sep| + |t|;
    assert s[m..n] == t;
    assert s[..n] == s[..i] + s[i..m] + s[m..n];
  }
}
