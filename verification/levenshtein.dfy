/**
 * The bounded edit distance used for typo suggestions (source/levenshtein.cpp).
 *
 * `Lev` is the ordinary Levenshtein distance, written as the textbook
 * recurrence. `Distance` is the banded two-row dynamic programme of the
 * source, proved to compute `BoundedDistance`, which is `Lev` capped at the
 * cutoff except when one of the strings is empty.
 */
module Levenshtein {

  /** std::numeric_limits<int>::max(), the "infinity" of the dynamic programme. */
  const IntMax: int := 0x7FFF_FFFF

  function Min(x: int, y: int): int { if x <= y then x else y }

  function Max(x: int, y: int): int { if x >= y then x else y }

  function Min3(x: int, y: int, z: int): int { Min(Min(x, y), z) }

  /** Ordinary Levenshtein distance: deletions, insertions and substitutions cost 1. */
  function Lev(a: string, b: string): nat
    decreases |a| + |b|
  {
    if |a| == 0 then |b|
    else if |b| == 0 then |a|
    else
      var a', b' := a[..|a| - 1], b[..|b| - 1];
      Min3(Lev(a', b) + 1, Lev(a, b') + 1, Lev(a', b') + (if a[|a| - 1] == b[|b| - 1] then 0 else 1))
  }

  /**
   * What `distance(lhs, rhs, cutoff)` returns: the length of the other string
   * when one is empty (not capped), otherwise the Levenshtein distance capped
   * at the cutoff.
   */
  function BoundedDistance(a: string, b: string, cutoff: nat): nat
  {
    if |a| == 0 || |b| == 0 then Lev(a, b) else Min(Lev(a, b), cutoff)
  }

  // ---------------------------------------------------------------------------
  // Properties of the reference distance

  lemma {:induction false} LevSymmetric(a: string, b: string)
    ensures Lev(a, b) == Lev(b, a)
    decreases |a| + |b|
  {
    if |a| > 0 && |b| > 0 {
      var a', b' := a[..|a| - 1], b[..|b| - 1];
      LevSymmetric(a', b);
      LevSymmetric(a, b');
      LevSymmetric(a', b');
    }
  }

  /** The distance is at least the difference of the lengths. */
  lemma {:induction false} LevLengthGap(a: string, b: string)
    ensures Lev(a, b) >= |a| - |b| && Lev(a, b) >= |b| - |a|
    decreases |a| + |b|
  {
    if |a| > 0 && |b| > 0 {
      var a', b' := a[..|a| - 1], b[..|b| - 1];
      LevLengthGap(a', b);
      LevLengthGap(a, b');
      LevLengthGap(a', b');
    }
  }

  lemma {:induction false} LevIdentical(a: string)
    ensures Lev(a, a) == 0
    decreases |a|
  {
    if |a| > 0 {
      LevIdentical(a[..|a| - 1]);
    }
  }

  /** Dropping the last character of the second string costs at most one edit. */
  lemma {:induction false} LevDropLastRight(a: string, b: string)
    requires |b| > 0
    ensures Lev(a, b[..|b| - 1]) <= Lev(a, b) + 1
    decreases |a| + |b|
  {
    var b' := b[..|b| - 1];
    if |a| == 0 {
    } else if |b| == 1 {
      LevLengthGap(a, b);
    } else {
      var a' := a[..|a| - 1];
      LevDropLastRight(a', b);
      assert Lev(a, b') <= Lev(a', b') + 1;
    }
  }

  lemma LevDropLastLeft(a: string, b: string)
    requires |a| > 0
    ensures Lev(a[..|a| - 1], b) <= Lev(a, b) + 1
  {
    LevSymmetric(a[..|a| - 1], b);
    LevDropLastRight(b, a);
    LevSymmetric(a, b);
  }

  /** When the last characters agree, the best edit script keeps them. */
  lemma LevMatchingLast(a: string, b: string)
    requires |a| > 0 && |b| > 0 && a[|a| - 1] == b[|b| - 1]
    ensures Lev(a, b) == Lev(a[..|a| - 1], b[..|b| - 1])
  {
    LevDropLastRight(a[..|a| - 1], b);
    LevDropLastLeft(a, b[..|b| - 1]);
  }

  /** The recurrence the dynamic programme applies, stated on prefixes. */
  lemma LevCell(s: string, t: string, i: nat, j: nat)
    requires 1 <= i <= |s| && 1 <= j <= |t|
    ensures Lev(s[..i], t[..j]) ==
      if s[i - 1] == t[j - 1] then Lev(s[..i - 1], t[..j - 1])
      else 1 + Min3(Lev(s[..i - 1], t[..j]), Lev(s[..i], t[..j - 1]), Lev(s[..i - 1], t[..j - 1]))
  {
    var a, b := s[..i], t[..j];
    assert a[..|a| - 1] == s[..i - 1];
    assert b[..|b| - 1] == t[..j - 1];
    if s[i - 1] == t[j - 1] {
      LevMatchingLast(a, b);
    }
  }

  lemma BoundedDistanceSymmetric(a: string, b: string, cutoff: nat)
    ensures BoundedDistance(a, b, cutoff) == BoundedDistance(b, a, cutoff)
  {
    LevSymmetric(a, b);
  }

  lemma BoundedDistanceIdentical(a: string, cutoff: nat)
    ensures BoundedDistance(a, a, cutoff) == 0
  {
    LevIdentical(a);
  }

  /** Raising the cutoff never lowers the result. */
  lemma BoundedDistanceMonotone(a: string, b: string, c1: nat, c2: nat)
    requires c1 <= c2
    ensures BoundedDistance(a, b, c1) <= BoundedDistance(a, b, c2)
  {
  }

  /** Inputs whose lengths differ by more than the cutoff are at the cutoff. */
  lemma BoundedDistanceFarApart(a: string, b: string, cutoff: nat)
    requires |a| > 0 && |b| > 0
    requires |a| - |b| > cutoff || |b| - |a| > cutoff
    ensures BoundedDistance(a, b, cutoff) == cutoff
  {
    LevLengthGap(a, b);
  }

  /** Whatever the inputs, the result stays at or below the cutoff exactly when the true distance does. */
  lemma BoundedDistanceWithinCutoff(a: string, b: string, cutoff: nat, limit: int)
    requires limit < cutoff
    ensures BoundedDistance(a, b, cutoff) <= limit <==> Lev(a, b) <= limit
    ensures BoundedDistance(a, b, cutoff) < cutoff <==> Lev(a, b) < cutoff
  {
  }

  // ---------------------------------------------------------------------------
  // The banded two-row dynamic programme

  /** Values are compared after clipping at `c`; above it the band treats everything as "too far". */
  function Clip(v: int, c: int): int { Min(v, c) }

  /** The clipping level: one past the cutoff, but no higher than the "infinity" sentinel. */
  function Ceiling(cutoff: nat): int { Min(cutoff + 1, IntMax) }

  /** Leftmost cell of row `j` the next row may read: one left of the band. */
  function LowestRead(j: nat, cutoff: nat): nat { Max(0, j - cutoff - 1) }

  /** Row `j` agrees with the distances of the prefixes of `t`, from `LowestRead` to the end. */
  ghost predicate RowAgrees(row: seq<int>, s: string, t: string, j: nat, cutoff: nat)
    requires |row| == |s| + 1 && j <= |t|
  {
    forall x :: LowestRead(j, cutoff) <= x <= |s| ==>
      Clip(row[x], Ceiling(cutoff)) == Clip(Lev(s[..x], t[..j]), Ceiling(cutoff))
  }

  lemma ClipMismatch(x: int, y: int, z: int, x': int, y': int, z': int, c: int)
    requires c >= 1
    requires Clip(x, c) == Clip(x', c) && Clip(y, c) == Clip(y', c) && Clip(z, c) == Clip(z', c)
    ensures Clip(1 + Min3(x, y, z), c) == Clip(1 + Min3(x', y', z'), c)
  {
  }

  /** A cell outside the band is more than the cutoff away, like the sentinel it holds. */
  lemma OutsideBand(s: string, t: string, x: nat, j: nat, cutoff: nat)
    requires x <= |s| && j <= |t|
    requires x - j > cutoff || j - x > cutoff
    ensures Clip(IntMax, Ceiling(cutoff)) == Clip(Lev(s[..x], t[..j]), Ceiling(cutoff))
  {
    LevLengthGap(s[..x], t[..j]);
  }

  method Distance(lhs: string, rhs: string, cutoff: int) returns (r: int)
    requires 0 <= cutoff <= IntMax
    ensures r == BoundedDistance(lhs, rhs, cutoff)
  {
    var n, m := |lhs|, |rhs|;
    if n == 0 {
      return m;
    } else if m == 0 {
      return n;
    }
    // The shorter string indexes the row.
    var s, t := lhs, rhs;
    if n > m {
      s, t := rhs, lhs;
      n, m := m, n;
      LevSymmetric(lhs, rhs);
    }
    r := BandedRows(s, t, cutoff);
  }

  /**
   * The row loop of `distance`, with `s` the shorter (row) string and `t`
   * the longer one, both non-empty.
   */
  method BandedRows(s: string, t: string, cutoff: nat) returns (r: int)
    requires 1 <= |s| <= |t| && cutoff <= IntMax
    ensures r == Min(Lev(s, t), cutoff)
  {
    var n, m := |s|, |t|;
    var p, d := StartRows(s, t, cutoff);
    var j := 1;
    while j <= m
      invariant 1 <= j <= m + 1
      invariant p.Length == n + 1 && d.Length == n + 1 && p != d && fresh(p) && fresh(d)
      invariant j == 1 || j - 1 - cutoff <= n
      invariant RowAgrees(p[..], s, t, j - 1, cutoff)
      invariant forall x :: j - 1 + cutoff < x <= n ==> p[x] == IntMax
      invariant forall x :: j - 2 + cutoff < x <= n ==> d[x] == IntMax
    {
      var lo := Max(1, j - cutoff);
      // The source guards j + cutoff against int overflow; unbounded here, the guard is the same minimum.
      var hi := Min(n, j + cutoff);
      if lo > hi {
        // The band left the table: the strings are more than `cutoff` apart.
        BandLeftTable(s, t, j, cutoff);
        return cutoff;
      }
      FillRow(s, t, p, d, j, cutoff, lo, hi);
      p, d := d, p;
      j := j + 1;
    }
    LastCell(p[..], s, t, cutoff);
    r := if p[n] <= cutoff then p[n] else cutoff;
  }

  /** Once row `j` has no cell within the band, the whole distance exceeds the cutoff. */
  lemma BandLeftTable(s: string, t: string, j: nat, cutoff: nat)
    requires 1 <= |s| && j <= |t| && Max(1, j - cutoff) > Min(|s|, j + cutoff)
    ensures Min(Lev(s, t), cutoff) == cutoff
  {
    LevLengthGap(s, t);
  }

  /** The last cell of the final row, clipped at the cutoff, is the bounded distance. */
  lemma LastCell(row: seq<int>, s: string, t: string, cutoff: nat)
    requires |row| == |s| + 1 && cutoff <= IntMax && |t| <= |s| + cutoff
    requires RowAgrees(row, s, t, |t|, cutoff)
    ensures Min(row[|s|], cutoff) == Min(Lev(s, t), cutoff)
  {
    assert s[..|s|] == s && t[..|t|] == t;
    assert Clip(row[|s|], Ceiling(cutoff)) == Clip(Lev(s, t), Ceiling(cutoff));
  }

  /**
   * The two rows of `distance` before the row loop: the previous row holds
   * 0, 1, .. up to the cutoff and the sentinel beyond it, the current row
   * holds the sentinel everywhere.
   */
  method StartRows(s: string, t: string, cutoff: nat) returns (p: array<int>, d: array<int>)
    ensures fresh(p) && fresh(d) && p != d
    ensures p.Length == |s| + 1 && d.Length == |s| + 1
    ensures RowAgrees(p[..], s, t, 0, cutoff)
    ensures forall x :: cutoff < x <= |s| ==> p[x] == IntMax
    ensures forall x :: 0 <= x <= |s| ==> d[x] == IntMax
  {
    var n := |s|;
    p := new int[n + 1];  // previous row
    d := new int[n + 1];  // current row
    var boundary := Min(n, cutoff) + 1;
    var i := 0;
    while i < boundary
      invariant 0 <= i <= boundary
      invariant forall x :: 0 <= x < i ==> p[x] == x
    {
      p[i] := i;
      i := i + 1;
    }
    while i <= n
      invariant boundary <= i <= n + 1
      invariant forall x :: 0 <= x < boundary ==> p[x] == x
      invariant forall x :: boundary <= x < i ==> p[x] == IntMax
    {
      p[i] := IntMax;
      i := i + 1;
    }
    i := 0;
    while i <= n
      modifies d
      invariant 0 <= i <= n + 1
      invariant forall x :: 0 <= x < i ==> d[x] == IntMax
    {
      d[i] := IntMax;
      i := i + 1;
    }
    forall x | 0 <= x <= n
      ensures Clip(p[x], Ceiling(cutoff)) == Clip(Lev(s[..x], t[..0]), Ceiling(cutoff))
    {
      assert Lev(s[..x], t[..0]) == x;
    }
  }

  /**
   * One iteration of the row loop of `distance`: row `j` of the table is
   * written into `d` over the band [lo, hi], reading row `j - 1` from `p`.
   */
  method FillRow(s: string, t: string, p: array<int>, d: array<int>, j: nat, cutoff: nat, lo: nat, hi: nat)
    requires 1 <= |s| && p.Length == |s| + 1 && d.Length == |s| + 1 && p != d
    requires 1 <= j <= |t| && cutoff <= IntMax
    requires lo == Max(1, j - cutoff) && hi == Min(|s|, j + cutoff) && lo <= hi
    requires RowAgrees(p[..], s, t, j - 1, cutoff)
    requires forall x :: j - 2 + cutoff < x <= |s| ==> d[x] == IntMax
    modifies d
    ensures RowAgrees(d[..], s, t, j, cutoff)
    ensures forall x :: j + cutoff < x <= |s| ==> d[x] == IntMax
  {
    var n := |s|;
    ghost var c := Ceiling(cutoff);
    d[0] := j;
    if lo > 1 {
      // Ignore the entry left of the leftmost.
      d[lo - 1] := IntMax;
      OutsideBand(s, t, lo - 1, j, cutoff);
    } else {
      assert s[..0] == [];
    }
    FillBand(s, t, p, d, j, cutoff, lo, hi);
    forall x | hi < x <= n
      ensures Clip(d[x], c) == Clip(Lev(s[..x], t[..j]), c)
    {
      OutsideBand(s, t, x, j, cutoff);
    }
  }

  /** The loop over the band [lo, hi] of row `j`, one cell at a time. */
  method FillBand(s: string, t: string, p: array<int>, d: array<int>, j: nat, cutoff: nat, lo: nat, hi: nat)
    requires p.Length == |s| + 1 && d.Length == |s| + 1 && p != d
    requires 1 <= j <= |t| && cutoff <= IntMax
    requires lo == Max(1, j - cutoff) && hi == Min(|s|, j + cutoff) && lo <= hi
    requires RowAgrees(p[..], s, t, j - 1, cutoff)
    requires Clip(d[lo - 1], Ceiling(cutoff)) == Clip(Lev(s[..lo - 1], t[..j]), Ceiling(cutoff))
    modifies d
    ensures forall x :: lo - 1 <= x <= hi ==>
      Clip(d[x], Ceiling(cutoff)) == Clip(Lev(s[..x], t[..j]), Ceiling(cutoff))
    ensures forall x :: 0 <= x < lo - 1 || hi < x <= |s| ==> d[x] == old(d[x])
  {
    ghost var c := Ceiling(cutoff);
    var i := lo;
    while i <= hi
      invariant lo <= i <= hi + 1
      invariant forall x :: lo - 1 <= x < i ==> Clip(d[x], c) == Clip(Lev(s[..x], t[..j]), c)
      invariant forall x :: 0 <= x < lo - 1 || i <= x <= |s| ==> d[x] == old(d[x])
    {
      FillCell(s, t, p, d, i, j, c);
      i := i + 1;
    }
  }

  /** One cell of the band: `d[i]` from its left, upper and diagonal neighbours. */
  method FillCell(s: string, t: string, p: array<int>, d: array<int>, i: nat, j: nat, ghost c: int)
    requires p.Length == |s| + 1 && d.Length == |s| + 1 && p != d
    requires 1 <= i <= |s| && 1 <= j <= |t| && c >= 1
    requires Clip(d[i - 1], c) == Clip(Lev(s[..i - 1], t[..j]), c)
    requires Clip(p[i], c) == Clip(Lev(s[..i], t[..j - 1]), c)
    requires Clip(p[i - 1], c) == Clip(Lev(s[..i - 1], t[..j - 1]), c)
    modifies d
    ensures Clip(d[i], c) == Clip(Lev(s[..i], t[..j]), c)
    ensures forall x :: 0 <= x < d.Length && x != i ==> d[x] == old(d[x])
  {
    LevCell(s, t, i, j);
    if s[i - 1] == t[j - 1] {
      // Diagonally left and up.
      d[i] := p[i - 1];
    } else {
      // One plus the minimum of left, up and diagonal.
      d[i] := 1 + Min(Min(d[i - 1], p[i]), p[i - 1]);
      ClipMismatch(d[i - 1], p[i], p[i - 1],
                   Lev(s[..i - 1], t[..j]), Lev(s[..i], t[..j - 1]), Lev(s[..i - 1], t[..j - 1]), c);
    }
  }

  method IsDistanceLessThan(lhs: string, rhs: string, cutoff: int) returns (r: bool)
    requires 0 <= cutoff <= IntMax
    ensures r <==> Lev(lhs, rhs) < cutoff
  {
    var dist := Distance(lhs, rhs, cutoff);
    r := dist < cutoff;
  }
}
