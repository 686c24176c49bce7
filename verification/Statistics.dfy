/** The order statistics and the rounding the monitor's Python code relies on
    (bin/redhat_monitor/redhat_auto_monitor.py), over reals. */
module Statistics {

  // -------------------------------------------------------------------------- sorting

  ghost predicate Sorted(s: seq<real>) {
    forall i, j :: 0 <= i < j < |s| ==> s[i] <= s[j]
  }

  ghost predicate Within(s: seq<real>, lo: real, hi: real) {
    forall i :: 0 <= i < |s| ==> lo <= s[i] <= hi
  }

  function Insert(s: seq<real>, x: real): (r: seq<real>)
    ensures |r| == |s| + 1
  {
    if s == [] || s[|s| - 1] <= x then s + [x]
    else Insert(s[..|s| - 1], x) + [s[|s| - 1]]
  }

  function Sort(s: seq<real>): (r: seq<real>)
    ensures |r| == |s|
  {
    if s == [] then [] else Insert(Sort(s[..|s| - 1]), s[|s| - 1])
  }

  lemma {:induction false} InsertKeepsValues(s: seq<real>, x: real)
    ensures multiset(Insert(s, x)) == multiset(s)[x := multiset(s)[x] + 1]
  {
    if s != [] {
      var init, last := s[..|s| - 1], s[|s| - 1];
      assert s == init + [last];
      InsertKeepsValues(init, x);
    }
  }

  /** Sorting permutes. */
  lemma {:induction false} SortPermutes(s: seq<real>)
    ensures multiset(Sort(s)) == multiset(s)
  {
    if s != [] {
      var init, last := s[..|s| - 1], s[|s| - 1];
      assert s == init + [last];
      SortPermutes(init);
      InsertKeepsValues(Sort(init), last);
    }
  }

  lemma SortedWithin(s: seq<real>, lo: real, hi: real)
    requires Within(s, lo, hi)
    ensures Within(Sort(s), lo, hi)
  {
    SortPermutes(s);
    var t := Sort(s);
    forall i | 0 <= i < |t| ensures lo <= t[i] <= hi {
      assert t[i] in multiset(t);
      var j :| 0 <= j < |s| && s[j] == t[i];
    }
  }

  lemma {:induction false} InsertSorted(s: seq<real>, x: real)
    requires Sorted(s)
    ensures Sorted(Insert(s, x))
  {
    if s != [] && s[|s| - 1] > x {
      var init, last := s[..|s| - 1], s[|s| - 1];
      InsertSorted(init, x);
      InsertKeepsValues(init, x);
      var r := Insert(init, x);
      forall i | 0 <= i < |r| ensures r[i] <= last {
        assert r[i] in multiset(r);
        assert r[i] == x || r[i] in init;
      }
    }
  }

  lemma {:induction false} SortSorted(s: seq<real>)
    ensures Sorted(Sort(s))
  {
    if s != [] {
      SortSorted(s[..|s| - 1]);
      InsertSorted(Sort(s[..|s| - 1]), s[|s| - 1]);
    }
  }

  /** Sorting keeps a sorted sequence as it is. */
  lemma {:induction false} SortIdentity(s: seq<real>)
    requires Sorted(s)
    ensures Sort(s) == s
  {
    if s != [] {
      SortIdentity(s[..|s| - 1]);
      assert s == s[..|s| - 1] + [s[|s| - 1]];
    }
  }

  // ------------------------------------------------------------- median and percentile

  function Middle(s: seq<real>): real
    requires s != []
  {
    if |s| % 2 == 1 then s[|s| / 2] else (s[|s| / 2 - 1] + s[|s| / 2]) / 2.0
  }

  /** `statistics.median`. */
  function Median(s: seq<real>): real
    requires s != []
  {
    Middle(Sort(s))
  }

  lemma MedianWithin(s: seq<real>, lo: real, hi: real)
    requires s != [] && Within(s, lo, hi)
    ensures lo <= Median(s) <= hi
  {
    SortedWithin(s, lo, hi);
  }

  lemma MiddleGrows(s: seq<real>, t: seq<real>)
    requires s != [] && |t| == |s| + 1 && Sorted(t) && (forall i :: 0 <= i < |s| ==> s[i] == t[i])
    ensures Middle(s) <= Middle(t)
  {
    var m := |s| / 2;
    if |s| == 2 * m + 1 {
      assert |t| / 2 == m + 1 && t[m] <= t[m + 1];
    } else {
      assert |t| / 2 == m && t[m - 1] <= t[m];
    }
  }

  /** Adding a value that is not below any other does not lower the median. */
  lemma MedianGrows(s: seq<real>, x: real)
    requires s != [] && Sorted(s + [x])
    ensures Sorted(s) && Median(s) <= Median(s + [x])
  {
    var t := s + [x];
    forall i, j | 0 <= i < j < |s| ensures s[i] <= s[j] { assert t[i] <= t[j]; }
    SortIdentity(s);
    SortIdentity(t);
    MiddleGrows(s, t);
  }

  /** Linear interpolation in a list, at a position that may fall between two entries. */
  function Interpolate(vals: seq<real>, pos: real): real
    requires 0.0 <= pos <= (|vals| - 1) as real
  {
    var i := pos.Floor;
    if i as real == pos then vals[i]
    else Mix(vals[i], vals[i + 1], pos - i as real)
  }

  function Mix(a: real, b: real, frac: real): real {
    a * (1.0 - frac) + b * frac
  }

  lemma MulBetween(d: real, frac: real)
    requires 0.0 <= d && 0.0 <= frac <= 1.0
    ensures 0.0 <= d * frac <= d
  {
  }

  lemma MixUp(a: real, b: real, frac: real, d: real)
    requires b == a + d && 0.0 <= d && 0.0 <= frac <= 1.0
    ensures a <= Mix(a, b, frac) <= b
  {
    MulBetween(d, frac);
    assert Mix(a, a + d, frac) == a + d * frac;
  }

  lemma MixDown(a: real, b: real, frac: real, d: real)
    requires a == b + d && 0.0 <= d && 0.0 <= frac <= 1.0
    ensures b <= Mix(a, b, frac) <= a
  {
    MulBetween(d, frac);
    assert Mix(b + d, b, frac) == b + d - d * frac;
  }

  lemma MixBetween(a: real, b: real, frac: real, lo: real, hi: real)
    requires lo <= a <= hi && lo <= b <= hi && 0.0 <= frac <= 1.0
    ensures lo <= Mix(a, b, frac) <= hi
  {
    if a <= b { MixUp(a, b, frac, b - a); } else { MixDown(a, b, frac, a - b); }
  }

  lemma InterpolateWithin(vals: seq<real>, pos: real, lo: real, hi: real)
    requires 0.0 <= pos <= (|vals| - 1) as real && Within(vals, lo, hi)
    ensures lo <= Interpolate(vals, pos) <= hi
  {
    var i := pos.Floor;
    if i as real != pos {
      MixBetween(vals[i], vals[i + 1], pos - i as real, lo, hi);
    }
  }

  function Position(n: nat, p: real): (pos: real)
    requires n >= 1 && 0.0 <= p <= 100.0
    ensures 0.0 <= pos <= (n - 1) as real
  {
    var last, part := (n - 1) as real, p / 100.0;
    MulBetween(last, part);
    last * part
  }

  /** `percentile` of the detector. */
  function Percentile(s: seq<real>, p: real): real
    requires s != [] && 0.0 <= p <= 100.0
  {
    Interpolate(Sort(s), Position(|s|, p))
  }

  lemma PercentileWithin(s: seq<real>, p: real, lo: real, hi: real)
    requires s != [] && 0.0 <= p <= 100.0 && Within(s, lo, hi)
    ensures lo <= Percentile(s, p) <= hi
  {
    SortedWithin(s, lo, hi);
    InterpolateWithin(Sort(s), Position(|s|, p), lo, hi);
  }

  // ------------------------------------------------------------------------- rounding

  /** Python's `round`: the nearest integer, ties to the even one. */
  function Round(x: real): (r: int)
    ensures -0.5 <= x - r as real <= 0.5
  {
    var f := x.Floor;
    var d := x - f as real;
    if d < 0.5 || (d == 0.5 && f % 2 == 0) then f else f + 1
  }

  lemma RoundExact(k: int)
    ensures Round(k as real) == k
  {
  }

  function Abs(x: real): real { if x < 0.0 then -x else x }
}
