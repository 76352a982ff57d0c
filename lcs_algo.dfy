/**
  The sequence-alignment engine: the longest common subsequence (LCS) of two
  line sequences by dynamic programming, the matched index pairs recovered by
  walking the table back, and the add/remove/similarity statistics derived
  from the LCS length.
 */
module LcsAlgo {

  /** A matched pair: line `indexA` of the first sequence equals line `indexB`
      of the second and belongs to the chosen common subsequence. */
  datatype MatchPair = MatchPair(indexA: nat, indexB: nat)

  /** Per-file statistics, the dictionary built by the stats derivation. */
  datatype FileStats = FileStats(
    lenA: nat,
    lenB: nat,
    lcsLen: nat,
    added: int,
    removed: int,
    similarity: real,
    matches: seq<MatchPair>)

  /** The maximum with the table's tie-break: on equality the first operand. */
  function Max(x: int, y: int): (r: int)
    ensures r >= x && r >= y
    ensures r == x || r == y
  {
    if x >= y then x else y
  }

  /** The LCS length of `a` and `b`, by the recurrence the table is filled with:
      it is the entry dp[|a|][|b|] of the table for `a` and `b`. */
  function LcsLength<T(==)>(a: seq<T>, b: seq<T>): (r: nat)
  {
    if |a| == 0 || |b| == 0 then 0
    else if a[|a| - 1] == b[|b| - 1] then LcsLength(a[..|a| - 1], b[..|b| - 1]) + 1
    else Max(LcsLength(a[..|a| - 1], b), LcsLength(a, b[..|b| - 1]))
  }

  /** The LCS length is at most the length of either sequence. */
  lemma {:induction false} LcsBound<T>(a: seq<T>, b: seq<T>)
    ensures LcsLength(a, b) <= |a| && LcsLength(a, b) <= |b|
    decreases |a| + |b|
  {
    if |a| > 0 && |b| > 0 {
      LcsBound(a[..|a| - 1], b[..|b| - 1]);
      LcsBound(a[..|a| - 1], b);
      LcsBound(a, b[..|b| - 1]);
    }
  }

  /** `ms` is a common subsequence of `a` and `b`, given by index pairs: every
      pair is in bounds and names equal elements, and the pairs increase
      strictly in both coordinates. */
  predicate ValidMatching<T(==)>(a: seq<T>, b: seq<T>, ms: seq<MatchPair>)
  {
    && (forall p :: 0 <= p < |ms| ==>
          ms[p].indexA < |a| && ms[p].indexB < |b| && a[ms[p].indexA] == b[ms[p].indexB])
    && (forall p, q :: 0 <= p < q < |ms| ==>
          ms[p].indexA < ms[q].indexA && ms[p].indexB < ms[q].indexB)
  }

  /** The pairs the backtracking walk from (|a|, |b|) collects, in increasing
      order: a match on equal last elements, otherwise a step up when
      dp[i-1][j] >= dp[i][j-1] and a step left when not. */
  function Backtrack<T(==)>(a: seq<T>, b: seq<T>): (ms: seq<MatchPair>)
  {
    if |a| == 0 || |b| == 0 then []
    else if a[|a| - 1] == b[|b| - 1] then
      Backtrack(a[..|a| - 1], b[..|b| - 1]) + [MatchPair(|a| - 1, |b| - 1)]
    else if LcsLength(a[..|a| - 1], b) >= LcsLength(a, b[..|b| - 1]) then
      Backtrack(a[..|a| - 1], b)
    else
      Backtrack(a, b[..|b| - 1])
  }

  /** The reversal of a sequence (the in-place `reverse` of the collected pairs). */
  function Reverse<X>(s: seq<X>): (r: seq<X>)
    ensures |r| == |s|
    ensures forall k :: 0 <= k < |s| ==> r[k] == s[|s| - 1 - k]
  {
    if s == [] then [] else [s[|s| - 1]] + Reverse(s[..|s| - 1])
  }

  /** Reversing after appending puts the appended element first. */
  lemma ReverseAppend<X>(s: seq<X>, x: X)
    ensures Reverse(s + [x]) == [x] + Reverse(s)
  {
    assert (s + [x])[..|s|] == s;
  }

  /** The recurrence, stated on prefixes as the table indexes them. */
  lemma LcsPrefixStep<T>(a: seq<T>, b: seq<T>, i: nat, j: nat)
    requires 0 < i <= |a| && 0 < j <= |b|
    ensures LcsLength(a[..i], b[..j]) ==
      if a[i - 1] == b[j - 1] then LcsLength(a[..i - 1], b[..j - 1]) + 1
      else Max(LcsLength(a[..i - 1], b[..j]), LcsLength(a[..i], b[..j - 1]))
  {
    assert a[..i][..i - 1] == a[..i - 1];
    assert b[..j][..j - 1] == b[..j - 1];
  }

  /** One step of the backtracking walk, stated on prefixes. */
  lemma BacktrackPrefixStep<T>(a: seq<T>, b: seq<T>, i: nat, j: nat)
    requires 0 < i <= |a| && 0 < j <= |b|
    ensures Backtrack(a[..i], b[..j]) ==
      if a[i - 1] == b[j - 1] then Backtrack(a[..i - 1], b[..j - 1]) + [MatchPair(i - 1, j - 1)]
      else if LcsLength(a[..i - 1], b[..j]) >= LcsLength(a[..i], b[..j - 1]) then Backtrack(a[..i - 1], b[..j])
      else Backtrack(a[..i], b[..j - 1])
  {
    assert a[..i][..i - 1] == a[..i - 1];
    assert b[..j][..j - 1] == b[..j - 1];
  }

  /** Fills the (|a|+1) x (|b|+1) table row by row: row 0 and column 0 stay 0,
      equal elements extend the diagonal entry by one, and otherwise an
      entry is the larger of the entries above and to the left. */
  method FillTable<T(==)>(a: seq<T>, b: seq<T>) returns (dp: array2<nat>)
    ensures fresh(dp)
    ensures dp.Length0 == |a| + 1 && dp.Length1 == |b| + 1
    ensures forall i, j :: 0 <= i <= |a| && 0 <= j <= |b| ==> dp[i, j] == LcsLength(a[..i], b[..j])
  {
    var m, n := |a|, |b|;
    dp := new nat[m + 1, n + 1]((_, _) => 0);
    for i := 1 to m + 1
      invariant forall x, y :: 0 <= x < i && 0 <= y <= n ==> dp[x, y] == LcsLength(a[..x], b[..y])
      invariant forall x :: i <= x <= m ==> dp[x, 0] == 0
    {
      var ai := a[i - 1];
      for j := 1 to n + 1
        invariant forall x, y :: 0 <= x < i && 0 <= y <= n ==> dp[x, y] == LcsLength(a[..x], b[..y])
        invariant forall y :: 0 <= y < j ==> dp[i, y] == LcsLength(a[..i], b[..y])
        invariant forall x :: i < x <= m ==> dp[x, 0] == 0
      {
        if ai == b[j - 1] {
          dp[i, j] := dp[i - 1, j - 1] + 1;
        } else {
          dp[i, j] := if dp[i - 1, j] >= dp[i, j - 1] then dp[i - 1, j] else dp[i, j - 1];
        }
        assert dp[i, j] == LcsLength(a[..i], b[..j]) by {
          LcsPrefixStep(a, b, i, j);
        }
      }
    }
  }

  /** Walks the filled table back from (|a|, |b|) while both indexes are
      positive: equal elements give a match and a diagonal step; otherwise
      the walk moves up when dp[i-1][j] >= dp[i][j-1] and left when not. The
      pairs are collected last-first and reversed at the end. */
  method WalkBack<T(==)>(a: seq<T>, b: seq<T>, dp: array2<nat>) returns (matches: seq<MatchPair>)
    requires dp.Length0 == |a| + 1 && dp.Length1 == |b| + 1
    requires forall x, y :: 0 <= x <= |a| && 0 <= y <= |b| ==> dp[x, y] == LcsLength(a[..x], b[..y])
    ensures matches == Backtrack(a, b)
  {
    var i, j := |a|, |b|;
    var collected: seq<MatchPair> := [];
    assert a[..i] == a && b[..j] == b;
    while i > 0 && j > 0
      invariant 0 <= i <= |a| && 0 <= j <= |b|
      invariant Backtrack(a[..i], b[..j]) + Reverse(collected) == Backtrack(a, b)
      decreases i + j
    {
      if a[i - 1] == b[j - 1] {
        var pair := MatchPair(i - 1, j - 1);
        assert Backtrack(a[..i - 1], b[..j - 1]) + Reverse(collected + [pair]) == Backtrack(a, b) by {
          BacktrackPrefixStep(a, b, i, j);
          ReverseAppend(collected, pair);
          assert Backtrack(a[..i - 1], b[..j - 1]) + Reverse(collected + [pair])
              == Backtrack(a[..i - 1], b[..j - 1]) + [pair] + Reverse(collected);
        }
        collected := collected + [pair];
        i, j := i - 1, j - 1;
      } else if dp[i - 1, j] >= dp[i, j - 1] {
        assert Backtrack(a[..i - 1], b[..j]) == Backtrack(a[..i], b[..j]) by {
          BacktrackPrefixStep(a, b, i, j);
        }
        i := i - 1;
      } else {
        assert Backtrack(a[..i], b[..j - 1]) == Backtrack(a[..i], b[..j]) by {
          BacktrackPrefixStep(a, b, i, j);
        }
        j := j - 1;
      }
    }
    assert Backtrack(a[..i], b[..j]) == [];
    assert Backtrack(a[..i], b[..j]) + Reverse(collected) == Reverse(collected);
    matches := Reverse(collected);
  }

  /** The LCS length and matched pairs of `a` and `b`: (0, []) when either is
      empty, otherwise the last entry of the filled table and the pairs of
      the walk back. */
  method LcsDp<T(==)>(a: seq<T>, b: seq<T>) returns (len: nat, matches: seq<MatchPair>)
    ensures len == LcsLength(a, b) && matches == Backtrack(a, b)
    ensures len <= |a| && len <= |b|
    ensures |matches| == len
    ensures ValidMatching(a, b, matches)
    ensures (|a| == 0 || |b| == 0) ==> len == 0 && matches == []
  {
    var m, n := |a|, |b|;
    if m == 0 || n == 0 {
      return 0, [];
    }
    var dp := FillTable(a, b);
    matches := WalkBack(a, b, dp);
    assert a[..m] == a && b[..n] == b;
    len := dp[m, n];
    BacktrackIsCommon(a, b);
    LcsBound(a, b);
  }

  /** The walk yields a common subsequence of `a` and `b` with as many pairs
      as the LCS length. */
  lemma {:induction false} BacktrackIsCommon<T>(a: seq<T>, b: seq<T>)
    ensures ValidMatching(a, b, Backtrack(a, b))
    ensures |Backtrack(a, b)| == LcsLength(a, b)
    decreases |a| + |b|
  {
    if |a| > 0 && |b| > 0 {
      var a', b' := a[..|a| - 1], b[..|b| - 1];
      if a[|a| - 1] == b[|b| - 1] {
        BacktrackIsCommon(a', b');
      } else if LcsLength(a', b) >= LcsLength(a, b') {
        BacktrackIsCommon(a', b);
      } else {
        BacktrackIsCommon(a, b');
      }
    }
  }

  /** No common subsequence is longer than the LCS length: with `Backtrack`,
      this makes LcsLength the length of a LONGEST common subsequence. */
  lemma {:induction false} LongestCommon<T>(a: seq<T>, b: seq<T>, ms: seq<MatchPair>)
    requires ValidMatching(a, b, ms)
    ensures |ms| <= LcsLength(a, b)
    decreases |a| + |b|
  {
    if |ms| == 0 {
      return;
    }
    var m, n := |a|, |b|;
    var last := ms[|ms| - 1];
    if a[m - 1] == b[n - 1] {
      var init := ms[..|ms| - 1];
      assert ValidMatching(a[..m - 1], b[..n - 1], init) by {
        forall p | 0 <= p < |init|
          ensures init[p].indexA < last.indexA && init[p].indexB < last.indexB
        {
          assert init[p] == ms[p];
        }
      }
      LongestCommon(a[..m - 1], b[..n - 1], init);
    } else if last.indexA < m - 1 {
      assert ValidMatching(a[..m - 1], b, ms) by {
        forall p | 0 <= p < |ms| ensures ms[p].indexA <= last.indexA {
        }
      }
      LongestCommon(a[..m - 1], b, ms);
    } else {
      assert last.indexB < n - 1;
      assert ValidMatching(a, b[..n - 1], ms) by {
        forall p | 0 <= p < |ms| ensures ms[p].indexB <= last.indexB {
        }
      }
      LongestCommon(a, b[..n - 1], ms);
    }
  }

  /** The LCS length does not depend on which sequence comes first. */
  lemma {:induction false} LcsSymmetric<T>(a: seq<T>, b: seq<T>)
    ensures LcsLength(a, b) == LcsLength(b, a)
    decreases |a| + |b|
  {
    if |a| > 0 && |b| > 0 {
      LcsSymmetric(a[..|a| - 1], b[..|b| - 1]);
      LcsSymmetric(a[..|a| - 1], b);
      LcsSymmetric(a, b[..|b| - 1]);
    }
  }

  /** Aligning a sequence with itself matches every line with itself. */
  lemma {:induction false} LcsIdentity<T>(a: seq<T>)
    ensures LcsLength(a, a) == |a|
    ensures |Backtrack(a, a)| == |a|
    ensures forall k :: 0 <= k < |a| ==> Backtrack(a, a)[k] == MatchPair(k, k)
  {
    if |a| > 0 {
      LcsIdentity(a[..|a| - 1]);
    }
  }

  /** Sequences with no element in common have LCS length 0 and no matches. */
  lemma LcsDisjoint<T>(a: seq<T>, b: seq<T>)
    requires forall x, y :: 0 <= x < |a| && 0 <= y < |b| ==> a[x] != b[y]
    ensures LcsLength(a, b) == 0 && Backtrack(a, b) == []
  {
  }

  /** A count as a percentage of a positive total: non-negative, zero only
      for a zero count, at most 100 for a count within the total, and 100 for
      the whole total. */
  lemma PercentageBounds(count: nat, total: nat)
    requires total >= 1
    ensures var pct := (count as real / total as real) * 100.0;
      && 0.0 <= pct
      && (pct == 0.0 <==> count == 0)
      && (count <= total ==> pct <= 100.0)
      && (count == total ==> pct == 100.0)
  {
    var q := count as real / total as real;
    assert q * total as real == count as real;
    if count <= total {
      assert (1.0 - q) * total as real == total as real - count as real;
    }
  }

  /** The statistics of two sequences of lengths `lenA` and `lenB` with LCS
      length `lcsLen`: lines added and removed, and the LCS length as a
      percentage of the longer length (taken as at least 1, so that two empty
      sequences give 0 rather than a division by zero). */
  function DeriveStats(lenA: nat, lenB: nat, lcsLen: nat, matches: seq<MatchPair>): (s: FileStats)
    ensures s.lenA == lenA && s.lenB == lenB && s.lcsLen == lcsLen && s.matches == matches
    ensures s.added + lcsLen == lenB && s.removed + lcsLen == lenA
    ensures lcsLen <= lenB ==> s.added >= 0
    ensures lcsLen <= lenA ==> s.removed >= 0
    ensures lcsLen <= Max(lenA, lenB) ==> 0.0 <= s.similarity <= 100.0
    ensures s.similarity == 0.0 <==> lcsLen == 0
    ensures lcsLen == Max(lenA, lenB) && lcsLen > 0 ==> s.similarity == 100.0
  {
    var denominator := Max(1, Max(lenA, lenB));
    var similarity := (lcsLen as real / denominator as real) * 100.0;
    PercentageBounds(lcsLen, denominator);
    FileStats(lenA, lenB, lcsLen, lenB - lcsLen, lenA - lcsLen, similarity, matches)
  }

  /** Aligns `a` with `b` and derives the statistics of the alignment. */
  method ComputeStats<T(==)>(a: seq<T>, b: seq<T>) returns (s: FileStats)
    ensures s == DeriveStats(|a|, |b|, LcsLength(a, b), Backtrack(a, b))
    ensures s.added >= 0 && s.removed >= 0
    ensures s.added + s.lcsLen == |b| && s.removed + s.lcsLen == |a|
    ensures 0.0 <= s.similarity <= 100.0
    ensures ValidMatching(a, b, s.matches) && |s.matches| == s.lcsLen
    ensures |a| == 0 && |b| == 0 ==> s.similarity == 0.0
  {
    var lcsLen, matches := LcsDp(a, b);
    s := DeriveStats(|a|, |b|, lcsLen, matches);
  }

  /** Identical non-empty sequences are 100% similar with nothing added or removed. */
  lemma IdenticalStats<T>(a: seq<T>)
    requires |a| > 0
    ensures var s := DeriveStats(|a|, |a|, LcsLength(a, a), Backtrack(a, a));
      s.similarity == 100.0 && s.added == 0 && s.removed == 0
  {
    LcsIdentity(a);
  }

  /** The alignment of a b c d with a x c d: three matches, the middle line
      replaced. */
  lemma BasicScenario()
    ensures LcsLength(["a", "b", "c", "d"], ["a", "x", "c", "d"]) == 3
    ensures Backtrack(["a", "b", "c", "d"], ["a", "x", "c", "d"])
         == [MatchPair(0, 0), MatchPair(2, 2), MatchPair(3, 3)]
    ensures var s := DeriveStats(4, 4, 3, [MatchPair(0, 0), MatchPair(2, 2), MatchPair(3, 3)]);
      s.added == 1 && s.removed == 1 && s.similarity == 75.0
  {
    var a: seq<string> := ["a", "b", "c", "d"];
    var b: seq<string> := ["a", "x", "c", "d"];
    assert a[..1] == ["a"] && b[..1] == ["a"] && b[..2] == ["a", "x"] && a[..2] == ["a", "b"];
    assert a[..3] == ["a", "b", "c"] && b[..3] == ["a", "x", "c"];
    assert a[..3][..2] == a[..2] && b[..3][..2] == b[..2];
    assert LcsLength(a[..1], b[..1]) == 1;
    assert LcsLength(a[..1], b[..2]) == 1;
    assert LcsLength(a[..2], b[..1]) == 1;
    assert "a" != "x" && "b" != "x";
    assert b[..2][..1] == b[..1] && a[..1][..0] == [] && a[..2][..1] == a[..1];
    assert Backtrack(a[..1], b[..1]) == [MatchPair(0, 0)];
    assert Backtrack(a[..1], b[..2]) == [MatchPair(0, 0)];
    assert Backtrack(a[..2], b[..2]) == [MatchPair(0, 0)];
    assert Backtrack(a[..3], b[..3]) == [MatchPair(0, 0), MatchPair(2, 2)];
    assert Backtrack(a, b) == [MatchPair(0, 0), MatchPair(2, 2), MatchPair(3, 3)];
  }

  /** One side empty: everything on the other side is added (or removed). */
  lemma EmptySideScenario()
    ensures LcsLength([], ["a", "b"]) == 0 && Backtrack([], ["a", "b"]) == []
    ensures var s := DeriveStats(0, 2, 0, []);
      s.added == 2 && s.removed == 0 && s.similarity == 0.0
  {
  }
}
