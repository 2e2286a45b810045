/** The order `sortChampions` puts records in, and the in-place sort of the
    filtered array. */
module Sorting {
  import opened Champions
  import Seqs
  import Text

  /** The values of the sort selector: `name`, or one of the four ratings. */
  datatype SortKey = ByName | ByStat(stat: Stat)

  /** `a` may stand before `b`: the comparator returns a value <= 0 for (a, b).
      By name this is ascending name order; by a rating it is `b.info[k] - a.info[k] <= 0`,
      that is descending rating order. */
  predicate Before(key: SortKey, a: Champion, b: Champion) {
    match key
    case ByName => Text.LexLe(a.name, b.name)
    case ByStat(s) => Rating(a.info, s) >= Rating(b.info, s)
  }

  /** `Before` is exactly "the comparator returns at most 0": `a.name.localeCompare(b.name)`
      (by its stand-in) for the name, `b.info[k] - a.info[k]` for a rating. */
  lemma BeforeIsComparator(key: SortKey, a: Champion, b: Champion)
    ensures key.ByName? ==> (Before(key, a, b) <==> Text.LexLe(a.name, b.name))
    ensures key.ByStat? ==> (Before(key, a, b) <==> Rating(b.info, key.stat) - Rating(a.info, key.stat) <= 0)
  {
  }

  lemma BeforeTotal(key: SortKey, a: Champion, b: Champion)
    ensures Before(key, a, b) || Before(key, b, a)
  {
    if key.ByName? {
      Text.LexLeTotal(a.name, b.name);
    }
  }

  lemma BeforeTransitive(key: SortKey, a: Champion, b: Champion, c: Champion)
    requires Before(key, a, b) && Before(key, b, c)
    ensures Before(key, a, c)
  {
    if key.ByName? {
      Text.LexLeTransitive(a.name, b.name, c.name);
    }
  }

  /** Every record may stand before every later record. */
  predicate Sorted(key: SortKey, s: seq<Champion>) {
    forall i, j :: 0 <= i < j < |s| ==> Before(key, s[i], s[j])
  }

  /** Inserts `x` into `p`, passing from the right over every element that must follow it. */
  function Insert(key: SortKey, p: seq<Champion>, x: Champion): (r: seq<Champion>)
    ensures |r| == |p| + 1
    decreases |p|
  {
    if |p| == 0 then [x]
    else if Before(key, p[|p| - 1], x) then p + [x]
    else Insert(key, p[..|p| - 1], x) + [p[|p| - 1]]
  }

  /** The result of sorting `s` under `key`: insertion sort, which is stable. */
  function SortSeq(key: SortKey, s: seq<Champion>): (r: seq<Champion>)
    ensures |r| == |s|
    decreases |s|
  {
    if |s| == 0 then [] else Insert(key, SortSeq(key, s[..|s| - 1]), s[|s| - 1])
  }

  lemma {:induction false} InsertPermutes(key: SortKey, p: seq<Champion>, x: Champion)
    ensures multiset(Insert(key, p, x)) == multiset(p) + multiset{x}
    decreases |p|
  {
    if |p| > 0 && !Before(key, p[|p| - 1], x) {
      InsertPermutes(key, p[..|p| - 1], x);
      assert p == p[..|p| - 1] + [p[|p| - 1]];
    }
  }

  lemma {:induction false} InsertSorted(key: SortKey, p: seq<Champion>, x: Champion)
    requires Sorted(key, p)
    ensures Sorted(key, Insert(key, p, x))
    decreases |p|
  {
    if |p| > 0 {
      var init, last := p[..|p| - 1], p[|p| - 1];
      if Before(key, last, x) {
        forall i | 0 <= i < |p| ensures Before(key, p[i], x) {
          if i < |p| - 1 {
            BeforeTransitive(key, p[i], last, x);
          }
        }
        var r := p + [x];
        assert forall i, j :: 0 <= i < j < |r| ==> Before(key, r[i], r[j]) by {
          forall i, j | 0 <= i < j < |r| ensures Before(key, r[i], r[j]) {
            if j == |p| {
              assert r[i] == p[i];
            } else {
              assert r[i] == p[i] && r[j] == p[j];
            }
          }
        }
      } else {
        BeforeTotal(key, last, x);
        InsertSorted(key, init, x);
        InsertPermutes(key, init, x);
        var q := Insert(key, init, x);
        forall k | 0 <= k < |q| ensures Before(key, q[k], last) {
          assert q[k] in multiset(q);
          if q[k] != x {
            assert q[k] in multiset(init);
            var j :| 0 <= j < |init| && init[j] == q[k];
            assert p[j] == q[k];
          }
        }
        var r := q + [last];
        forall i, j | 0 <= i < j < |r| ensures Before(key, r[i], r[j]) {
          if j == |q| {
            assert r[i] == q[i];
          } else {
            assert r[i] == q[i] && r[j] == q[j];
          }
        }
      }
    }
  }

  /** Sorting yields a sorted permutation of its input. */
  lemma {:induction false} SortSeqSortedPermutation(key: SortKey, s: seq<Champion>)
    ensures Sorted(key, SortSeq(key, s))
    ensures multiset(SortSeq(key, s)) == multiset(s)
    decreases |s|
  {
    if |s| > 0 {
      var init := s[..|s| - 1];
      SortSeqSortedPermutation(key, init);
      InsertSorted(key, SortSeq(key, init), s[|s| - 1]);
      InsertPermutes(key, SortSeq(key, init), s[|s| - 1]);
      assert s == init + [s[|s| - 1]];
    }
  }

  /** Sorting an already sorted sequence leaves it as it is; in particular sorting twice
      by the same key is sorting once. */
  lemma {:induction false} SortSeqOfSorted(key: SortKey, s: seq<Champion>)
    requires Sorted(key, s)
    ensures SortSeq(key, s) == s
    decreases |s|
  {
    if |s| > 0 {
      var init := s[..|s| - 1];
      assert Sorted(key, init);
      SortSeqOfSorted(key, init);
      if |init| > 0 {
        assert Before(key, init[|init| - 1], s[|s| - 1]);
      }
      assert init + [s[|s| - 1]] == s;
    }
  }

  lemma SortSeqIdempotent(key: SortKey, s: seq<Champion>)
    ensures SortSeq(key, SortSeq(key, s)) == SortSeq(key, s)
  {
    SortSeqSortedPermutation(key, s);
    SortSeqOfSorted(key, SortSeq(key, s));
  }

  /** One step of the unfolding of `Insert`: `x` passes over the last element of `p[..j]`. */
  lemma InsertStep(key: SortKey, p: seq<Champion>, j: int, x: Champion)
    requires 0 < j <= |p| && !Before(key, p[j - 1], x)
    ensures Insert(key, p[..j], x) + p[j..] == Insert(key, p[..j - 1], x) + p[j - 1..]
  {
    assert p[..j][..j - 1] == p[..j - 1];
    assert p[j - 1..] == [p[j - 1]] + p[j..];
  }

  /** Exchanging `x` with the element on its left. */
  lemma SwapLeft(t: seq<Champion>, p: seq<Champion>, j: int, x: Champion, rest: seq<Champion>)
    requires 0 < j <= |p| && t == p[..j] + [x] + p[j..] + rest
    ensures t[j - 1 := x][j := p[j - 1]] == p[..j - 1] + [x] + p[j - 1..] + rest
  {
    assert p[..j] == p[..j - 1] + [p[j - 1]];
    assert p[j - 1..] == [p[j - 1]] + p[j..];
  }

  /** Moves `a[i]` left into the sorted prefix `a[..i]`, as `Insert` does. */
  method InsertInPlace(a: array<Champion>, i: int, key: SortKey)
    requires 0 <= i < a.Length
    modifies a
    ensures a[..] == Insert(key, old(a[..i]), old(a[i])) + old(a[i + 1..])
  {
    ghost var p := a[..i];
    ghost var x := a[i];
    ghost var rest := a[i + 1..];
    var j := i;
    assert a[..] == p[..j] + [x] + p[j..] + rest by {
      assert p[..j] == p && p[j..] == [];
      assert a[..] == a[..i] + [a[i]] + a[i + 1..];
    }
    while j > 0 && !Before(key, a[j - 1], a[j])
      invariant 0 <= j <= i
      invariant a[..] == p[..j] + [x] + p[j..] + rest
      invariant Insert(key, p, x) == Insert(key, p[..j], x) + p[j..]
    {
      assert a[j - 1] == p[j - 1] && a[j] == x;
      InsertStep(key, p, j, x);
      SwapLeft(a[..], p, j, x, rest);
      a[j - 1], a[j] := a[j], a[j - 1];
      j := j - 1;
    }
    if j > 0 {
      assert a[j - 1] == p[j - 1] && a[j] == x;
      assert p[..j][j - 1] == p[j - 1];
    }
  }

  /** Every subsequence of a sorted sequence is sorted. */
  lemma {:induction false} SubseqKeepsSorted(key: SortKey, r: seq<Champion>, s: seq<Champion>)
    requires Seqs.IsSubseq(r, s) && Sorted(key, s)
    ensures Sorted(key, r)
    decreases |s|
  {
    if |r| > 0 {
      assert Sorted(key, s[1..]);
      if r[0] == s[0] && Seqs.IsSubseq(r[1..], s[1..]) {
        SubseqKeepsSorted(key, r[1..], s[1..]);
        Seqs.SubseqMembers(r[1..], s[1..]);
        forall j | 0 < j < |r| ensures Before(key, r[0], r[j]) {
          assert r[j] == r[1..][j - 1] && r[j] in r[1..];
          assert r[j] in s[1..];
          var k :| 0 <= k < |s[1..]| && s[1..][k] == r[j];
          assert s[k + 1] == r[j];
        }
        forall i, j | 0 <= i < j < |r| ensures Before(key, r[i], r[j]) {
          if i > 0 {
            assert r[i] == r[1..][i - 1] && r[j] == r[1..][j - 1];
          }
        }
      } else {
        SubseqKeepsSorted(key, r, s[1..]);
      }
    }
  }

  /** Filtering a sorted sequence yields a sorted sequence. */
  lemma FilterKeepsSorted(key: SortKey, p: Champion -> bool, s: seq<Champion>)
    requires Sorted(key, s)
    ensures Sorted(key, Seqs.Filter(p, s))
  {
    Seqs.FilterIsSubseq(p, s);
    SubseqKeepsSorted(key, Seqs.Filter(p, s), s);
  }

  /** Sorting one more element of `s` inserts it into the sorted prefix. */
  lemma SortSeqExtend(key: SortKey, s: seq<Champion>, i: int)
    requires 0 <= i < |s|
    ensures SortSeq(key, s[..i + 1]) == Insert(key, SortSeq(key, s[..i]), s[i])
  {
    assert s[..i + 1][..i] == s[..i];
  }

  /** `a.sort(comparator)`, in place. */
  method InsertionSort(a: array<Champion>, key: SortKey)
    modifies a
    ensures a[..] == SortSeq(key, old(a[..]))
  {
    ghost var s := a[..];
    var i := 0;
    while i < a.Length
      invariant 0 <= i <= a.Length
      invariant a[..i] == SortSeq(key, s[..i])
      invariant a[i..] == s[i..]
    {
      assert a[i] == s[i] && a[i + 1..] == s[i + 1..];
      ghost var ins := Insert(key, SortSeq(key, s[..i]), s[i]);
      InsertInPlace(a, i, key);
      assert a[..] == ins + s[i + 1..];
      SortSeqExtend(key, s, i);
      assert a[..i + 1] == ins && a[i + 1..] == s[i + 1..];
      i := i + 1;
    }
    assert a[..] == a[..a.Length];
    assert s == s[..a.Length];
  }
}
