/**
 * The parse of the ping summary both revisions share:
 * `re.search(r"Average = ([0-9]+)ms", out)` and `int(m.group(1))`.
 */
module PingOutput {
  import opened Wrappers

  const Anchor := "Average = "

  /**
   * What running `ping -n 1 host` gave: nothing, because launching it raised
   * (no binary, the 5 second timeout, undecodable output), or an exit code
   * and the captured standard output.
   */
  datatype PingRun = NotRun | Exited(code: int, stdout: string)

  predicate IsDigit(c: char)
  {
    '0' <= c <= '9'
  }

  /** The length of the run of ASCII digits starting at `j`. */
  function DigitRun(s: string, j: nat): (n: nat)
    requires j <= |s|
    ensures j + n <= |s|
    ensures forall i :: j <= i < j + n ==> IsDigit(s[i])
    ensures j + n == |s| || !IsDigit(s[j + n])
    decreases |s| - j
  {
    if j < |s| && IsDigit(s[j]) then 1 + DigitRun(s, j + 1) else 0
  }

  /**
   * The group of a match of the pattern starting at `i`: the anchor text,
   * then one or more digits, then "ms". Since 'm' is no digit, the greedy
   * `[0-9]+` can only match the whole run, and backtracking to a shorter run
   * never helps.
   */
  function MatchAt(s: string, i: nat): (r: Option<string>)
    requires i <= |s|
    ensures r.Some? ==> AnchorAt(s, i) && |r.value| >= 1 && forall k :: 0 <= k < |r.value| ==> IsDigit(r.value[k])
  {
    var j := i + |Anchor|;
    if AnchorAt(s, i) then
      var n := DigitRun(s, j);
      if n >= 1 && j + n + 2 <= |s| && s[j + n..j + n + 2] == "ms" then Some(s[j..j + n])
      else None
    else None
  }

  /** The anchor text is written at `i`. */
  predicate AnchorAt(s: string, i: nat)
    requires i <= |s|
  {
    i + |Anchor| <= |s| && s[i..i + |Anchor|] == Anchor
  }

  /** The leftmost position at or after `from` where the pattern matches. */
  function FirstMatch(s: string, from: nat): (r: Option<nat>)
    requires from <= |s|
    ensures r.Some? ==> from <= r.value <= |s| && MatchAt(s, r.value).Some?
    ensures r.Some? ==> forall j :: from <= j < r.value ==> MatchAt(s, j).None?
    ensures r.None? ==> forall j :: from <= j <= |s| ==> MatchAt(s, j).None?
    decreases |s| - from
  {
    if MatchAt(s, from).Some? then Some(from)
    else if from == |s| then None
    else FirstMatch(s, from + 1)
  }

  /** `int()` of a run of ASCII digits. */
  function DecimalValue(d: string): nat
    requires forall i :: 0 <= i < |d| ==> IsDigit(d[i])
    decreases |d|
  {
    if d == [] then 0
    else
      var c := d[|d| - 1];
      assert IsDigit(c);
      10 * DecimalValue(d[..|d| - 1]) + (c as int - '0' as int)
  }

  /** Decimal digits of `n` with no leading zero (just "0" for zero). */
  function DecimalString(n: nat): (r: string)
    ensures |r| >= 1 && forall i :: 0 <= i < |r| ==> IsDigit(r[i])
    decreases n
  {
    var last := [('0' as int + n % 10) as char];
    if n < 10 then last else DecimalString(n / 10) + last
  }

  /** The average in milliseconds, when the output holds the pattern. */
  function AverageMs(out: string): (r: Option<nat>)
    ensures r.None? <==> forall i :: 0 <= i <= |out| ==> MatchAt(out, i).None?
    ensures r.Some? ==> exists i :: (0 <= i <= |out| && MatchAt(out, i).Some?
      && (forall j :: 0 <= j < i ==> MatchAt(out, j).None?)
      && r.value == DecimalValue(MatchAt(out, i).value))
  {
    match FirstMatch(out, 0)
    case None => None
    case Some(i) => Some(DecimalValue(MatchAt(out, i).value))
  }

  // ----------------------------------------------------------------------
  // Lemmas

  /** Reading back the digits of a number gives the number. */
  lemma {:induction false} DecimalRoundTrip(n: nat)
    ensures DecimalValue(DecimalString(n)) == n
    decreases n
  {
    var last := [('0' as int + n % 10) as char];
    if n >= 10 {
      DecimalRoundTrip(n / 10);
      var d := DecimalString(n / 10) + last;
      assert d[..|d| - 1] == DecimalString(n / 10);
    }
  }

  /** The pattern matches where the anchor, the digits of `n` and "ms" are written. */
  lemma MatchWritten(pre: string, n: nat, rest: string)
    ensures var s := pre + Anchor + DecimalString(n) + "ms" + rest;
      MatchAt(s, |pre|) == Some(DecimalString(n))
  {
    MatchDigits(pre, DecimalString(n), rest);
  }

  /** The pattern matches where the anchor, a run of digits and "ms" are written. */
  lemma MatchDigits(pre: string, d: string, rest: string)
    requires |d| >= 1 && forall k :: 0 <= k < |d| ==> IsDigit(d[k])
    ensures MatchAt(pre + Anchor + d + "ms" + rest, |pre|) == Some(d)
  {
    var s := pre + Anchor + d + "ms" + rest;
    var j := |pre| + |Anchor|;
    assert s[|pre|..j] == Anchor;
    assert AnchorAt(s, |pre|);
    assert s[j..j + |d|] == d;
    assert s[j + |d|..j + |d| + 2] == "ms";
    forall i | j <= i < j + |d|
      ensures IsDigit(s[i])
    {
      assert s[i] == d[i - j];
    }
    assert s[j + |d|] == 'm';
    DigitRunOf(s, j, |d|);
  }

  /** The anchor text does not start where the text does not begin with 'A'. */
  lemma NoAnchorWithoutA(s: string, j: nat)
    requires j < |s| && s[j] != 'A'
    ensures !AnchorAt(s, j)
  {
    if j + |Anchor| <= |s| {
      assert s[j..j + |Anchor|][0] == s[j];
    }
  }

  /** A run of exactly `n` digits starting at `j` has length `n`. */
  lemma {:induction false} DigitRunOf(s: string, j: nat, n: nat)
    requires j + n <= |s|
    requires forall i :: j <= i < j + n ==> IsDigit(s[i])
    requires j + n == |s| || !IsDigit(s[j + n])
    ensures DigitRun(s, j) == n
    decreases n
  {
    if n > 0 {
      DigitRunOf(s, j + 1, n - 1);
    }
  }

  /** The first match is the one after which, from `from` on, nothing matches earlier. */
  lemma {:induction false} FirstMatchIs(s: string, from: nat, i: nat)
    requires from <= i <= |s| && MatchAt(s, i).Some?
    requires forall j :: from <= j < i ==> MatchAt(s, j).None?
    ensures FirstMatch(s, from) == Some(i)
    decreases i - from
  {
    if from < i {
      FirstMatchIs(s, from + 1, i);
    }
  }

  /**
   * Output in which the summary "Average = <n>ms" is the first place the
   * anchor text starts parses to the average written there.
   */
  lemma AverageWritten(pre: string, n: nat, rest: string)
    requires forall j :: 0 <= j < |pre| ==> !AnchorAt(pre + Anchor + DecimalString(n) + "ms" + rest, j)
    ensures AverageMs(pre + Anchor + DecimalString(n) + "ms" + rest) == Some(n)
  {
    var s := pre + Anchor + DecimalString(n) + "ms" + rest;
    MatchWritten(pre, n, rest);
    FirstMatchIs(s, 0, |pre|);
    DecimalRoundTrip(n);
  }

  /** What Windows `ping -n 1` prints before the average, with the minimum and maximum round trips. */
  function WindowsLead(lo: nat, hi: nat): (r: string)
    ensures |r| > 1 && r[0] == 'A' && r[1] == 'p'
    ensures forall j :: 0 < j < |r| ==> r[j] != 'A'
  {
    var w1, w2, w3, w4 := "pproximate", " round trip", " times in", " milli-seconds:";
    var w5, w6, w7 := "\r\n    ", "Minimum = ", "ms, Maximum = ";
    var d1, d2 := DecimalString(lo), DecimalString(hi);
    assert 'A' !in w1 && 'A' !in w2 && 'A' !in w3 && 'A' !in w4;
    assert 'A' !in w5 && 'A' !in w6 && 'A' !in w7 && 'A' !in "ms, ";
    assert 'A' !in d1 && 'A' !in d2;
    var tail := w1 + w2 + w3 + w4 + w5 + w6 + d1 + w7 + d2 + "ms, ";
    assert 'A' !in tail;
    var r := "A" + tail;
    assert forall j :: 0 < j < |r| ==> r[j] == tail[j - 1];
    r
  }

  /**
   * The summary Windows ping writes, "Approximate round trip times …
   * Minimum = <lo>ms, Maximum = <hi>ms, Average = <n>ms", parses to n:
   * the 'A' of "Approximate" starts no anchor.
   */
  lemma WindowsSummaryParses(lo: nat, hi: nat, n: nat, rest: string)
    ensures AverageMs(WindowsLead(lo, hi) + Anchor + DecimalString(n) + "ms" + rest) == Some(n)
  {
    var pre := WindowsLead(lo, hi);
    var s := pre + Anchor + DecimalString(n) + "ms" + rest;
    forall j | 0 <= j < |pre|
      ensures !AnchorAt(s, j)
    {
      assert s[j] == pre[j];
      if j == 0 {
        assert s[1] == 'p' && s[0..|Anchor|][1] == s[1] && Anchor[1] == 'v';
      } else {
        NoAnchorWithoutA(s, j);
      }
    }
    AverageWritten(pre, n, rest);
  }

  /** Output without the anchor text has no average. */
  lemma NoAnchorNoAverage(out: string)
    requires forall i :: 0 <= i <= |out| ==> !AnchorAt(out, i)
    ensures AverageMs(out) == None
  {
  }
}
