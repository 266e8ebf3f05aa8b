/**
  The cutoff of a comparison: the newest of its source times, in microseconds, rounded up to a
  millisecond.  The rounding divides with truncation toward zero, so it is a ceiling for times from
  1970 on only.
 */
module SourceCutoff {
  import opened Prelude

  datatype CutoffError = NoSources | OutOfRange

  const MAX_SAFE := 0x1F_FFFF_FFFF_FFFF

  /** Division of big integers: toward zero. */
  function Truncated(a: int, b: int): int
    requires b > 0
  {
    if a >= 0 then a / b else -((-a) / b)
  }

  function Rounded(newest: int): int { Truncated(newest + 999, 1000) }

  predicate IsNewest(times: seq<int>, t: int) { t in times && forall i | 0 <= i < |times| :: times[i] <= t }

  /** The newest time rounded up, unless there is none or it is out of range. */
  ghost predicate IsCutoff(times: seq<int>, r: Result<int, CutoffError>) {
    if times == [] then r == Err(NoSources)
    else exists t ::
      (IsNewest(times, t) &&
       r == if -9007199254740991 <= Rounded(t) <= 9007199254740991 then Ok(Rounded(t)) else Err(OutOfRange))
  }

  /** newestTimestamp, up to the printing of the millisecond. */
  method NewestTimestamp(times: seq<int>) returns (r: Result<int, CutoffError>)
    ensures IsCutoff(times, r)
  {
    var newest: Option<int> := None;
    for i := 0 to |times|
      invariant i == 0 <==> newest.None?
      invariant newest.Some? ==> IsNewest(times[..i], newest.value)
    {
      if newest.None? || times[i] > newest.value { newest := Some(times[i]); }
    }
    assert times[..|times|] == times;
    if newest.None? { return Err(NoSources); }
    var ceiling := Truncated(newest.value + 999, 1000);
    assert IsNewest(times, newest.value);
    r := if -MAX_SAFE <= ceiling <= MAX_SAFE then Ok(ceiling) else Err(OutOfRange);
  }

  /** `ms` is the first millisecond at or after `t`. */
  predicate IsCeiling(t: int, ms: int) { 1000 * (ms - 1) < t <= 1000 * ms }

  /** No source lies after the cutoff, and the cutoff is less than two milliseconds after the newest one. */
  lemma CutoffCovers(t: int)
    ensures t <= 1000 * Rounded(t) < t + 2000
  {
    if t + 999 < 0 {
      var n := -(t + 999);
      assert n / 1000 * 1000 <= n < n / 1000 * 1000 + 1000;
    }
  }

  /**
    The cutoff is the first millisecond at or after the newest source exactly when that source is
    after the last millisecond before 1970, or lies one microsecond after a whole millisecond.
   */
  lemma CeilingExactly(t: int)
    ensures IsCeiling(t, Rounded(t)) <==> t > -1000 || t % 1000 == 1
  {
    if t + 999 < 0 {
      var n := -(t + 999);
      var q, r := n / 1000, n % 1000;
      assert n == 1000 * q + r && Rounded(t) == -q;
      assert t == 1000 * (-q - 1) + (1 - r);
      assert r == 0 ==> t % 1000 == 1;
      assert r == 1 ==> t == 1000 * (-q - 1);
      if r > 1 { assert t == 1000 * (-q - 2) + (1001 - r); }
    }
  }

  lemma NewestUnique(a: seq<int>, b: seq<int>, s: int, t: int)
    requires IsNewest(a, s) && IsNewest(b, t) && forall x :: x in a <==> x in b
    ensures s == t
  {
    assert s in b && t in a;
    var i :| 0 <= i < |b| && b[i] == s;
    var j :| 0 <= j < |a| && a[j] == t;
  }

  /** The order of the sources, and their repetition, do not matter to the cutoff. */
  lemma CutoffOrderIndependent(a: seq<int>, b: seq<int>, r: Result<int, CutoffError>, q: Result<int, CutoffError>)
    requires IsCutoff(a, r) && IsCutoff(b, q) && forall x :: x in a <==> x in b
    ensures r == q
  {
    assert (a != [] ==> a[0] in b) && (b != [] ==> b[0] in a);
    if a != [] {
      var s :| IsNewest(a, s) && r == if -MAX_SAFE <= Rounded(s) <= MAX_SAFE then Ok(Rounded(s)) else Err(OutOfRange);
      var t :| IsNewest(b, t) && q == if -MAX_SAFE <= Rounded(t) <= MAX_SAFE then Ok(Rounded(t)) else Err(OutOfRange);
      NewestUnique(a, b, s, t);
    }
  }
}
