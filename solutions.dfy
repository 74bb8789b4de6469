/**
 * The search for solutions in main.py: every choice of triangle cells,
 * listed by size and then in the order itertools.combinations yields them,
 * whose house values add up to the target.
 */
module HouseSums {

  /** The value of each of the ten triangle cells. */
  const Houses: seq<int> := [4, 8, 4, 8, 8, 4, 8, 8, 8, 4]

  const TargetSum: int := 36

  predicate Increasing(c: seq<int>)
  {
    forall i, j :: 0 <= i < j < |c| ==> c[i] < c[j]
  }

  predicate Within(c: seq<int>, lo: int, hi: int)
  {
    forall k :: 0 <= k < |c| ==> lo <= c[k] < hi
  }

  /** Strict lexicographic order, a proper prefix coming first. */
  predicate LexLess(a: seq<int>, b: seq<int>)
    decreases |a|
  {
    |b| > 0 && (|a| == 0 || a[0] < b[0] || (a[0] == b[0] && LexLess(a[1..], b[1..])))
  }

  /** x put in front of every list of ss. */
  function Prefix(x: int, ss: seq<seq<int>>): (r: seq<seq<int>>)
    ensures |r| == |ss|
    ensures forall i :: 0 <= i < |ss| ==> r[i] == [x] + ss[i]
  {
    seq(|ss|, i requires 0 <= i < |ss| => [x] + ss[i])
  }

  /**
   * The r-element subsets of lo..hi-1 as increasing lists, in the order of
   * itertools.combinations: those holding lo first, then those that do not.
   */
  function Combos(lo: int, hi: int, r: nat): seq<seq<int>>
    decreases hi - lo
  {
    if r == 0 then [[]]
    else if lo >= hi then []
    else Prefix(lo, Combos(lo + 1, hi, r - 1)) + Combos(lo + 1, hi, r)
  }

  /** Every combination is an increasing list of r values from lo..hi-1. */
  lemma {:induction false} CombosSound(lo: int, hi: int, r: nat)
    ensures forall k :: 0 <= k < |Combos(lo, hi, r)| ==>
      |Combos(lo, hi, r)[k]| == r && Increasing(Combos(lo, hi, r)[k]) && Within(Combos(lo, hi, r)[k], lo, hi)
    decreases hi - lo
  {
    if r > 0 && lo < hi {
      var inner := Combos(lo + 1, hi, r - 1);
      var withLo := Prefix(lo, inner);
      var withoutLo := Combos(lo + 1, hi, r);
      CombosSound(lo + 1, hi, r - 1);
      CombosSound(lo + 1, hi, r);
      var cs := Combos(lo, hi, r);
      assert cs == withLo + withoutLo;
      forall k | 0 <= k < |cs| ensures |cs[k]| == r && Increasing(cs[k]) && Within(cs[k], lo, hi) {
        if k < |withLo| {
          assert cs[k] == [lo] + inner[k];
        } else {
          assert cs[k] == withoutLo[k - |withLo|];
        }
      }
    }
  }

  /** The combinations holding lo are lo followed by a combination of the larger values. */
  lemma CombosWithLo(lo: int, hi: int, r: nat, rest: seq<int>)
    requires r > 0 && lo < hi && rest in Combos(lo + 1, hi, r - 1)
    ensures [lo] + rest in Combos(lo, hi, r)
  {
    var inner := Combos(lo + 1, hi, r - 1);
    var k :| 0 <= k < |inner| && inner[k] == rest;
    assert Prefix(lo, inner)[k] == [lo] + rest;
    assert Combos(lo, hi, r) == Prefix(lo, inner) + Combos(lo + 1, hi, r);
  }

  /** The combinations of the larger values are combinations too. */
  lemma CombosWithoutLo(lo: int, hi: int, r: nat, c: seq<int>)
    requires r > 0 && lo < hi && c in Combos(lo + 1, hi, r)
    ensures c in Combos(lo, hi, r)
  {
    assert Combos(lo, hi, r) == Prefix(lo, Combos(lo + 1, hi, r - 1)) + Combos(lo + 1, hi, r);
  }

  /** Every increasing r-list over lo..hi-1 is one of the combinations. */
  lemma {:induction false} CombosComplete(lo: int, hi: int, r: nat, c: seq<int>)
    requires |c| == r && Increasing(c) && Within(c, lo, hi)
    ensures c in Combos(lo, hi, r)
    decreases hi - lo
  {
    if r == 0 {
      assert c == [];
    } else if c[0] == lo {
      CombosComplete(lo + 1, hi, r - 1, c[1..]);
      CombosWithLo(lo, hi, r, c[1..]);
      assert [lo] + c[1..] == c;
    } else {
      assert Within(c, lo + 1, hi);
      CombosComplete(lo + 1, hi, r, c);
      CombosWithoutLo(lo, hi, r, c);
    }
  }

  /** The combinations are listed in strictly increasing lexicographic order. */
  lemma {:induction false} CombosSorted(lo: int, hi: int, r: nat)
    ensures forall i, j :: 0 <= i < j < |Combos(lo, hi, r)| ==> LexLess(Combos(lo, hi, r)[i], Combos(lo, hi, r)[j])
    decreases hi - lo
  {
    if r > 0 && lo < hi {
      var inner := Combos(lo + 1, hi, r - 1);
      var withLo := Prefix(lo, inner);
      var withoutLo := Combos(lo + 1, hi, r);
      CombosSorted(lo + 1, hi, r - 1);
      CombosSorted(lo + 1, hi, r);
      CombosSound(lo + 1, hi, r);
      var cs := Combos(lo, hi, r);
      assert cs == withLo + withoutLo;
      forall i, j | 0 <= i < j < |cs| ensures LexLess(cs[i], cs[j]) {
        if j < |withLo| {
          assert cs[i][1..] == inner[i] && cs[j][1..] == inner[j];
        } else if i >= |withLo| {
          assert cs[i] == withoutLo[i - |withLo|] && cs[j] == withoutLo[j - |withLo|];
        } else {
          assert cs[i][0] == lo;
          assert cs[j] == withoutLo[j - |withLo|];
          assert cs[j][0] >= lo + 1;
        }
      }
    }
  }

  /** An increasing list drawn from lo..hi-1 has at most hi - lo elements. */
  lemma {:induction false} IncreasingIsShort(c: seq<int>, lo: int, hi: int)
    requires Increasing(c) && Within(c, lo, hi)
    ensures |c| <= if hi < lo then 0 else hi - lo
    decreases |c|
  {
    if |c| > 0 {
      assert Within(c[1..], c[0] + 1, hi);
      IncreasingIsShort(c[1..], c[0] + 1, hi);
    }
  }

  /** The total house value of the chosen cells. */
  function HouseSum(c: seq<int>): int
    requires Within(c, 0, |Houses|)
  {
    if |c| == 0 then 0 else Houses[c[0]] + HouseSum(c[1..])
  }

  /** The lists of cs whose house values reach the target, in their order. */
  function OnTarget(cs: seq<seq<int>>): (r: seq<seq<int>>)
    requires forall k :: 0 <= k < |cs| ==> Within(cs[k], 0, |Houses|)
    ensures forall c :: c in r <==> c in cs && HouseSum(c) == TargetSum
  {
    if |cs| == 0 then []
    else (if HouseSum(cs[0]) == TargetSum then [cs[0]] else []) + OnTarget(cs[1..])
  }

  /** The order of the solutions: smaller sets first, equal sizes lexicographically. */
  predicate SolutionBefore(a: seq<int>, b: seq<int>)
  {
    |a| < |b| || (|a| == |b| && LexLess(a, b))
  }

  predicate SortedSolutions(cs: seq<seq<int>>)
  {
    forall i, j :: 0 <= i < j < |cs| ==> SolutionBefore(cs[i], cs[j])
  }

  /** Keeping only some lists keeps them in order. */
  lemma {:induction false} OnTargetSorted(cs: seq<seq<int>>)
    requires forall k :: 0 <= k < |cs| ==> Within(cs[k], 0, |Houses|)
    requires SortedSolutions(cs)
    ensures SortedSolutions(OnTarget(cs))
  {
    if |cs| > 0 {
      var tail := cs[1..];
      assert SortedSolutions(tail) by {
        assert forall i :: 0 <= i < |tail| ==> tail[i] == cs[i + 1];
      }
      OnTargetSorted(tail);
      var r := OnTarget(cs);
      var rest := OnTarget(tail);
      forall i, j | 0 <= i < j < |r| ensures SolutionBefore(r[i], r[j]) {
        if HouseSum(cs[0]) == TargetSum {
          if i == 0 {
            assert r[j] == rest[j - 1] && r[j] in tail;
            var m :| 0 <= m < |tail| && tail[m] == r[j];
            assert cs[m + 1] == r[j];
          } else {
            assert r[i] == rest[i - 1] && r[j] == rest[j - 1];
          }
        } else {
          assert r == rest;
        }
      }
    }
  }

  /** The combinations of r cells whose house values reach the target, in the order they are generated. */
  function SizeSolutions(r: nat): seq<seq<int>>
  {
    CombosSound(0, |Houses|, r);
    OnTarget(Combos(0, |Houses|, r))
  }

  /** The lists f(r), f(r + 1), ..., f(top) one after another. */
  function Levels(f: nat -> seq<seq<int>>, r: nat, top: nat): seq<seq<int>>
    decreases top + 1 - r
  {
    if r > top then [] else f(r) + Levels(f, r + 1, top)
  }

  /** All solutions: every non-empty set of triangle cells whose house values sum to the target, by size. */
  function FindSolutions(): seq<seq<int>>
  {
    Levels(SizeSolutions, 1, |Houses|)
  }

  /** What makes a list of cell indices a solution. */
  predicate IsSolution(c: seq<int>)
  {
    |c| >= 1 && Increasing(c) && Within(c, 0, |Houses|) && HouseSum(c) == TargetSum
  }

  /** A list is among the size-r solutions exactly when it is a solution with r cells. */
  lemma SizeMember(r: nat, c: seq<int>)
    requires 1 <= r <= |Houses|
    ensures c in SizeSolutions(r) <==> IsSolution(c) && |c| == r
  {
    var cs := Combos(0, |Houses|, r);
    CombosSound(0, |Houses|, r);
    if c in cs {
      var k :| 0 <= k < |cs| && cs[k] == c;
    } else if IsSolution(c) && |c| == r {
      CombosComplete(0, |Houses|, r, c);
    }
  }

  /**
   * When c is in level k exactly if it qualifies and has k cells, and a
   * qualifying c has at most top cells, then c is in levels r..top exactly
   * if it qualifies and has at least r cells.
   */
  lemma {:induction false} LevelsMember(f: nat -> seq<seq<int>>, r: nat, top: nat, c: seq<int>, qualifies: bool)
    requires forall k :: r <= k <= top ==> (c in f(k) <==> qualifies && |c| == k)
    requires qualifies ==> |c| <= top
    ensures c in Levels(f, r, top) <==> qualifies && |c| >= r
    decreases top + 1 - r
  {
    if r <= top {
      LevelsMember(f, r + 1, top, c, qualifies);
      assert Levels(f, r, top) == f(r) + Levels(f, r + 1, top);
    }
  }

  /** Sorted levels, level k holding lists of k cells, concatenate into a sorted list. */
  lemma {:induction false} LevelsSorted(f: nat -> seq<seq<int>>, r: nat, top: nat)
    requires forall k :: r <= k <= top ==> SortedSolutions(f(k))
    requires forall k, i :: r <= k <= top && 0 <= i < |f(k)| ==> |f(k)[i]| == k
    ensures SortedSolutions(Levels(f, r, top))
    ensures forall i :: 0 <= i < |Levels(f, r, top)| ==> |Levels(f, r, top)[i]| >= r
    decreases top + 1 - r
  {
    if r <= top {
      LevelsSorted(f, r + 1, top);
      SortedAppend(Levels(f, r, top), f(r), Levels(f, r + 1, top), r);
    }
  }

  /** The size-r solutions all have r cells and come in lexicographic order. */
  lemma SizeSolutionsSorted(r: nat)
    ensures SortedSolutions(SizeSolutions(r))
    ensures forall k :: 0 <= k < |SizeSolutions(r)| ==> |SizeSolutions(r)[k]| == r
  {
    var cs := Combos(0, |Houses|, r);
    CombosSound(0, |Houses|, r);
    CombosSorted(0, |Houses|, r);
    assert SortedSolutions(cs);
    OnTargetSorted(cs);
    var head := SizeSolutions(r);
    forall k | 0 <= k < |head| ensures |head[k]| == r {
      assert head[k] in cs;
    }
  }

  /** Sorted lists of r-cell solutions followed by sorted lists of larger ones stay sorted. */
  lemma SortedAppend(all: seq<seq<int>>, head: seq<seq<int>>, tail: seq<seq<int>>, r: nat)
    requires all == head + tail
    requires SortedSolutions(head) && SortedSolutions(tail)
    requires forall k :: 0 <= k < |head| ==> |head[k]| == r
    requires forall k :: 0 <= k < |tail| ==> |tail[k]| >= r + 1
    ensures SortedSolutions(all)
    ensures forall k :: 0 <= k < |all| ==> |all[k]| >= r
  {
    forall i, j | 0 <= i < j < |all| ensures SolutionBefore(all[i], all[j]) {
      if j < |head| {
      } else if i >= |head| {
        assert all[i] == tail[i - |head|] && all[j] == tail[j - |head|];
      } else {
        assert all[j] == tail[j - |head|];
      }
    }
  }

  /**
   * The solutions are exactly the non-empty increasing index lists over
   * the ten cells whose house values sum to the target, each once, smaller
   * sets first and equal sizes in lexicographic order.
   */
  lemma FindSolutionsCorrect()
    ensures forall c :: c in FindSolutions() <==> IsSolution(c)
    ensures SortedSolutions(FindSolutions())
  {
    forall c ensures c in FindSolutions() <==> IsSolution(c) {
      forall k | 1 <= k <= |Houses| ensures c in SizeSolutions(k) <==> IsSolution(c) && |c| == k {
        SizeMember(k, c);
      }
      if IsSolution(c) {
        IncreasingIsShort(c, 0, |Houses|);
      }
      LevelsMember(SizeSolutions, 1, |Houses|, c, IsSolution(c));
    }
    forall k | 1 <= k <= |Houses| ensures SortedSolutions(SizeSolutions(k)) {
      SizeSolutionsSorted(k);
    }
    forall k, i | 1 <= k <= |Houses| && 0 <= i < |SizeSolutions(k)| ensures |SizeSolutions(k)[i]| == k {
      SizeSolutionsSorted(k);
    }
    LevelsSorted(SizeSolutions, 1, |Houses|);
  }

  /** Lexicographic order is irreflexive, so a sorted list of solutions repeats none. */
  lemma {:induction false} LexLessIrreflexive(a: seq<int>)
    ensures !LexLess(a, a)
    decreases |a|
  {
    if |a| > 0 {
      LexLessIrreflexive(a[1..]);
    }
  }

  lemma FindSolutionsDistinct()
    ensures forall i, j :: 0 <= i < j < |FindSolutions()| ==> FindSolutions()[i] != FindSolutions()[j]
  {
    FindSolutionsCorrect();
    forall i, j | 0 <= i < j < |FindSolutions()| ensures FindSolutions()[i] != FindSolutions()[j] {
      LexLessIrreflexive(FindSolutions()[i]);
    }
  }
}
