/**
 * Counting and ordering helpers shared by the per-entity rollups:
 * how often a key occurs, the sum of the counts over a list of distinct
 * keys, and the stable descending sort that Python's
 * `sorted(..., key=..., reverse=True)` and `list.sort(..., reverse=True)` perform.
 */
module Tally {

  /** How many times `x` occurs in `s`. */
  function Count<T(==)>(s: seq<T>, x: T): nat {
    if s == [] then 0 else Count(s[..|s| - 1], x) + (if s[|s| - 1] == x then 1 else 0)
  }

  lemma {:induction false} CountAppend<T>(s: seq<T>, t: seq<T>, x: T)
    ensures Count(s + t, x) == Count(s, x) + Count(t, x)
    decreases |t|
  {
    if t == [] {
      assert s + t == s;
    } else {
      CountAppend(s, t[..|t| - 1], x);
      assert (s + t)[..|s + t| - 1] == s + t[..|t| - 1];
    }
  }

  lemma {:induction false} CountPositive<T>(s: seq<T>, x: T)
    ensures Count(s, x) > 0 <==> x in s
  {
    if s != [] {
      CountPositive(s[..|s| - 1], x);
      assert s == s[..|s| - 1] + [s[|s| - 1]];
    }
  }

  predicate Distinct<T(==)>(s: seq<T>) {
    forall i, j :: 0 <= i < j < |s| ==> s[i] != s[j]
  }

  /** `Count` is the multiplicity of the multiset of `s`. */
  lemma {:induction false} CountMultiset<T>(s: seq<T>, x: T)
    ensures Count(s, x) == multiset(s)[x]
  {
    if s != [] {
      CountMultiset(s[..|s| - 1], x);
      assert s == s[..|s| - 1] + [s[|s| - 1]];
    }
  }

  /** Reordering keeps a list free of repetitions. */
  lemma DistinctPermutation<T>(s: seq<T>, t: seq<T>)
    requires Distinct(s) && multiset(s) == multiset(t)
    ensures Distinct(t)
  {
    forall i, j | 0 <= i < j < |t| ensures t[i] != t[j] {
      if t[i] == t[j] {
        var x := t[i];
        assert t == t[..j] + t[j..];
        CountAppend(t[..j], t[j..], x);
        assert x in t[..j] && x in t[j..];
        CountPositive(t[..j], x);
        CountPositive(t[j..], x);
        CountMultiset(t, x);
        CountMultiset(s, x);
        assert x in multiset(s);
        CountDistinct(s, x);
        assert false;
      }
    }
  }

  /** The sum of `Count(s, k)` over the keys `ks`. */
  function SumCounts<T(==)>(s: seq<T>, ks: seq<T>): nat {
    if ks == [] then 0 else SumCounts(s, ks[..|ks| - 1]) + Count(s, ks[|ks| - 1])
  }

  lemma {:induction false} SumCountsAppendOne<T>(s: seq<T>, x: T, ks: seq<T>)
    ensures SumCounts(s + [x], ks) == SumCounts(s, ks) + Count(ks, x)
  {
    if ks != [] {
      SumCountsAppendOne(s, x, ks[..|ks| - 1]);
      CountAppend(s, [x], ks[|ks| - 1]);
    }
  }

  lemma {:induction false} CountDistinct<T>(ks: seq<T>, x: T)
    requires Distinct(ks) && x in ks
    ensures Count(ks, x) == 1
  {
    var p := ks[..|ks| - 1];
    if ks[|ks| - 1] == x {
      CountPositive(p, x);
    } else {
      assert x in p;
      CountDistinct(p, x);
    }
  }

  /**
   * Counting every element of `s` once per distinct key covers `s` exactly:
   * the per-key tallies of a rollup add up to the number of rows folded in.
   */
  lemma {:induction false} SumCountsCovers<T>(s: seq<T>, ks: seq<T>)
    requires Distinct(ks)
    requires forall x <- s :: x in ks
    ensures SumCounts(s, ks) == |s|
    decreases |s|
  {
    if s == [] {
      SumCountsEmpty(ks);
    } else {
      var p, x := s[..|s| - 1], s[|s| - 1];
      assert s == p + [x];
      SumCountsCovers(p, ks);
      SumCountsAppendOne(p, x, ks);
      CountDistinct(ks, x);
    }
  }

  lemma {:induction false} SumCountsEmpty<T>(ks: seq<T>)
    ensures SumCounts([], ks) == 0
  {
    if ks != [] {
      SumCountsEmpty(ks[..|ks| - 1]);
    }
  }

  /** The sum of `val` over the elements of `s`. */
  function SumOf<T>(s: seq<T>, val: T -> nat): nat {
    if s == [] then 0 else SumOf(s[..|s| - 1], val) + val(s[|s| - 1])
  }

  lemma {:induction false} SumOfAppend<T>(s: seq<T>, t: seq<T>, val: T -> nat)
    ensures SumOf(s + t, val) == SumOf(s, val) + SumOf(t, val)
    decreases |t|
  {
    if t == [] {
      assert s + t == s;
    } else {
      SumOfAppend(s, t[..|t| - 1], val);
      assert (s + t)[..|s + t| - 1] == s + t[..|t| - 1];
    }
  }

  /** Reordering a list does not change its sum. */
  lemma {:induction false} SumOfPermutation<T>(s: seq<T>, t: seq<T>, val: T -> nat)
    requires multiset(s) == multiset(t)
    ensures SumOf(s, val) == SumOf(t, val)
    decreases |s|
  {
    if s == [] {
      assert |t| == |multiset(t)| == 0;
    } else {
      var p, x := s[..|s| - 1], s[|s| - 1];
      assert s == p + [x];
      assert x in multiset(t);
      var k :| 0 <= k < |t| && t[k] == x;
      var rest := t[..k] + t[k + 1..];
      RemoveAtCount(t, k);
      RemoveAtSum(t, k, val);
      assert multiset(p) == multiset(s) - multiset{x};
      SumOfPermutation(p, rest, val);
    }
  }

  /** Taking out the element at `k` removes it from the multiset. */
  lemma RemoveAtCount<T>(t: seq<T>, k: nat)
    requires k < |t|
    ensures multiset(t[..k] + t[k + 1..]) == multiset(t) - multiset{t[k]}
  {
    var a, x, b := t[..k], t[k], t[k + 1..];
    assert t == a + [x] + b;
  }

  /** Taking out the element at `k` removes its value from the sum. */
  lemma RemoveAtSum<T>(t: seq<T>, k: nat, val: T -> nat)
    requires k < |t|
    ensures SumOf(t, val) == SumOf(t[..k] + t[k + 1..], val) + val(t[k])
  {
    var a, x, b := t[..k], t[k], t[k + 1..];
    assert t == (a + [x]) + b;
    SumOfAppend(a + [x], b, val);
    SumOfAppend(a, b, val);
    assert (a + [x])[..|a|] == a;
  }

  // --------------------------------------------------------------- sorting

  /** Non-increasing by `key`. */
  predicate SortedDesc<T>(s: seq<T>, key: T -> int) {
    forall i, j :: 0 <= i < j < |s| ==> key(s[i]) >= key(s[j])
  }

  /** Insert `x` after every element whose key is at least its own (keeps equal keys in arrival order). */
  function InsertDesc<T>(x: T, s: seq<T>, key: T -> int): seq<T> {
    if s == [] then [x]
    else if key(s[0]) >= key(x) then [s[0]] + InsertDesc(x, s[1..], key)
    else [x] + s
  }

  /** A stable sort by `key`, largest first. */
  function SortDesc<T>(s: seq<T>, key: T -> int): seq<T> {
    if s == [] then [] else InsertDesc(s[|s| - 1], SortDesc(s[..|s| - 1], key), key)
  }

  lemma {:induction false} InsertDescCorrect<T>(x: T, s: seq<T>, key: T -> int)
    requires SortedDesc(s, key)
    ensures SortedDesc(InsertDesc(x, s, key), key)
    ensures multiset(InsertDesc(x, s, key)) == multiset(s) + multiset{x}
    ensures |InsertDesc(x, s, key)| == |s| + 1
  {
    if s == [] {
    } else if key(s[0]) >= key(x) {
      InsertDescCorrect(x, s[1..], key);
      assert s == [s[0]] + s[1..];
      HeadBounds(s, key);
      BoundedHead(s[0], x, s[1..], InsertDesc(x, s[1..], key), key);
    } else {
      assert s == [s[0]] + s[1..];
      HeadBounds(s, key);
      BoundedHead(x, s[0], s[1..], s, key);
    }
  }

  /** In a sequence sorted largest first, the head's key bounds every key. */
  lemma HeadBounds<T>(s: seq<T>, key: T -> int)
    requires s != [] && SortedDesc(s, key)
    ensures forall z <- s :: key(z) <= key(s[0])
    ensures forall z <- s[1..] :: key(z) <= key(s[0])
  {
    forall z <- s ensures key(z) <= key(s[0]) {
      var i :| 0 <= i < |s| && s[i] == z;
    }
  }

  /** A sorted `rest` whose elements are `y` and those of `t`, all keyed at most `key(h)`, stays sorted behind `h`. */
  lemma BoundedHead<T>(h: T, y: T, t: seq<T>, rest: seq<T>, key: T -> int)
    requires SortedDesc(rest, key)
    requires multiset(rest) == multiset(t) + multiset{y}
    requires key(y) <= key(h) && forall z <- t :: key(z) <= key(h)
    ensures SortedDesc([h] + rest, key)
  {
    var r := [h] + rest;
    forall j | 0 < j < |r| ensures key(r[0]) >= key(r[j]) {
      assert r[j] == rest[j - 1];
      assert r[j] in multiset(rest);
    }
  }

  /** The sort returns a permutation of its input, largest key first. */
  lemma {:induction false} SortDescCorrect<T>(s: seq<T>, key: T -> int)
    ensures SortedDesc(SortDesc(s, key), key)
    ensures multiset(SortDesc(s, key)) == multiset(s)
    ensures |SortDesc(s, key)| == |s|
  {
    if s != [] {
      SortDescCorrect(s[..|s| - 1], key);
      InsertDescCorrect(s[|s| - 1], SortDesc(s[..|s| - 1], key), key);
      assert s == s[..|s| - 1] + [s[|s| - 1]];
    }
  }
}
