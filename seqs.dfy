/**
 * Sequence operations that stand for the relational queries of the data
 * store: WHERE (Filter), ORDER BY ... DESC (SortDesc), LIMIT (Take),
 * COUNT(*) (CountWhere), and uniqueness of a column (Distinct).
 */
module Seqs {

  function Filter<T>(s: seq<T>, p: T -> bool): (r: seq<T>)
    ensures |r| <= |s|
    ensures forall i :: 0 <= i < |r| ==> r[i] in s && p(r[i])
    ensures forall i :: 0 <= i < |s| && p(s[i]) ==> s[i] in r
  {
    if |s| == 0 then []
    else (if p(s[0]) then [s[0]] else []) + Filter(s[1..], p)
  }

  /** A column is unique: no two rows at different positions share its value. */
  ghost predicate Distinct<T, K>(s: seq<T>, key: T -> K)
  {
    forall i, j :: 0 <= i < j < |s| ==> key(s[i]) != key(s[j])
  }

  /** Deleting rows keeps a unique column unique. */
  lemma {:induction false} FilterDistinct<T, K>(s: seq<T>, p: T -> bool, key: T -> K)
    requires Distinct(s, key)
    ensures Distinct(Filter(s, p), key)
  {
    if |s| > 0 {
      assert Distinct(s[1..], key) by {
        forall i, j | 0 <= i < j < |s[1..]| ensures key(s[1..][i]) != key(s[1..][j]) {
          assert s[1..][i] == s[i + 1] && s[1..][j] == s[j + 1];
        }
      }
      FilterDistinct(s[1..], p, key);
      var rest := Filter(s[1..], p);
      if p(s[0]) {
        var r := [s[0]] + rest;
        forall i, j | 0 <= i < j < |r| ensures key(r[i]) != key(r[j]) {
          if i == 0 {
            assert r[j] in s[1..];
            var k :| 0 <= k < |s[1..]| && s[1..][k] == r[j];
            assert s[k + 1] == r[j];
          } else {
            assert r[i] == rest[i - 1] && r[j] == rest[j - 1];
          }
        }
      } else {
        assert Filter(s, p) == rest;
      }
    }
  }

  /** Appending a row whose key is new keeps the column unique. */
  lemma DistinctAppend<T, K>(s: seq<T>, x: T, key: T -> K)
    requires Distinct(s, key)
    requires forall y :: y in s ==> key(y) != key(x)
    ensures Distinct(s + [x], key)
  {
    var r := s + [x];
    forall i, j | 0 <= i < j < |r| ensures key(r[i]) != key(r[j]) {
      if j == |s| {
        assert r[i] in s;
      } else {
        assert r[i] == s[i] && r[j] == s[j];
      }
    }
  }

  /** `SELECT COUNT(*) ... WHERE p`. */
  function CountWhere<T>(s: seq<T>, p: T -> bool): nat
  {
    if |s| == 0 then 0
    else (if p(s[0]) then 1 else 0) + CountWhere(s[1..], p)
  }

  /** COUNT(*) equals the number of rows the same WHERE selects. */
  lemma {:induction false} CountIsFilterLength<T>(s: seq<T>, p: T -> bool)
    ensures CountWhere(s, p) == |Filter(s, p)|
  {
    if |s| > 0 {
      CountIsFilterLength(s[1..], p);
    }
  }

  /** Every element of a sequence is at least as large, by `key`, as every later one. */
  ghost predicate NonIncreasing<T>(s: seq<T>, key: T -> int)
  {
    forall i, j :: 0 <= i < j < |s| ==> key(s[i]) >= key(s[j])
  }

  /**
   * Inserts `x` after every element with a strictly larger key, so `x` goes
   * ahead of the elements whose key equals its own.
   */
  function InsertDesc<T>(x: T, s: seq<T>, key: T -> int): seq<T>
  {
    if |s| == 0 then [x]
    else if key(s[0]) > key(x) then [s[0]] + InsertDesc(x, s[1..], key)
    else [x] + s
  }

  lemma {:induction false} InsertDescMultiset<T>(x: T, s: seq<T>, key: T -> int)
    ensures multiset(InsertDesc(x, s, key)) == multiset(s) + multiset{x}
  {
    if |s| > 0 {
      assert s == [s[0]] + s[1..];
      if key(s[0]) > key(x) {
        InsertDescMultiset(x, s[1..], key);
      }
    }
  }

  /** A sorted tail stays sorted under a head at least as large as all of it. */
  lemma ConsNonIncreasing<T>(h: T, s: seq<T>, key: T -> int)
    requires NonIncreasing(s, key)
    requires forall i :: 0 <= i < |s| ==> key(s[i]) <= key(h)
    ensures NonIncreasing([h] + s, key)
  {
    var r := [h] + s;
    forall i, j | 0 <= i < j < |r| ensures key(r[i]) >= key(r[j]) {
      assert r[j] == s[j - 1];
      if i > 0 {
        assert r[i] == s[i - 1];
      }
    }
  }

  /** Inserting keeps every key under a bound that the element and the sequence respect. */
  lemma {:induction false} InsertDescBounded<T>(x: T, s: seq<T>, key: T -> int, b: int)
    requires key(x) <= b && forall i :: 0 <= i < |s| ==> key(s[i]) <= b
    ensures forall i :: 0 <= i < |InsertDesc(x, s, key)| ==> key(InsertDesc(x, s, key)[i]) <= b
  {
    if |s| > 0 && key(s[0]) > key(x) {
      InsertDescBounded(x, s[1..], key, b);
      var rest := InsertDesc(x, s[1..], key);
      forall i | 0 <= i < |[s[0]] + rest| ensures key(([s[0]] + rest)[i]) <= b {
        if i > 0 {
          assert ([s[0]] + rest)[i] == rest[i - 1];
        }
      }
    }
  }

  lemma {:induction false} InsertDescSorted<T>(x: T, s: seq<T>, key: T -> int)
    requires NonIncreasing(s, key)
    ensures NonIncreasing(InsertDesc(x, s, key), key)
    ensures |InsertDesc(x, s, key)| == |s| + 1
  {
    if |s| == 0 {
    } else if key(s[0]) > key(x) {
      var tail := s[1..];
      assert NonIncreasing(tail, key) by {
        forall i, j | 0 <= i < j < |tail| ensures key(tail[i]) >= key(tail[j]) {
          assert tail[i] == s[i + 1] && tail[j] == s[j + 1];
        }
      }
      InsertDescSorted(x, tail, key);
      assert forall i :: 0 <= i < |tail| ==> key(tail[i]) <= key(s[0]) by {
        forall i | 0 <= i < |tail| ensures key(tail[i]) <= key(s[0]) {
          assert tail[i] == s[i + 1];
        }
      }
      InsertDescBounded(x, tail, key, key(s[0]));
      ConsNonIncreasing(s[0], InsertDesc(x, tail, key), key);
    } else {
      ConsNonIncreasing(x, s, key);
    }
  }

  /**
   * `ORDER BY key DESC`, as an insertion sort from the back: each element goes
   * ahead of the later ones with an equal key, so ties keep table order.
   */
  function SortDesc<T>(s: seq<T>, key: T -> int): seq<T>
  {
    if |s| == 0 then [] else InsertDesc(s[0], SortDesc(s[1..], key), key)
  }

  /** The sort orders by non-increasing key and is a permutation of its input. */
  lemma {:induction false} SortDescSorts<T>(s: seq<T>, key: T -> int)
    ensures NonIncreasing(SortDesc(s, key), key)
    ensures multiset(SortDesc(s, key)) == multiset(s)
    ensures |SortDesc(s, key)| == |s|
  {
    if |s| > 0 {
      var rest := SortDesc(s[1..], key);
      SortDescSorts(s[1..], key);
      InsertDescSorted(s[0], rest, key);
      InsertDescMultiset(s[0], rest, key);
      assert s == [s[0]] + s[1..];
    }
  }

  /** Two rows with one key come out in table order. */
  lemma SortDescTies<T>(a: T, b: T, key: T -> int)
    requires key(a) == key(b)
    ensures SortDesc([a, b], key) == [a, b]
  {
    assert [a, b][1..] == [b];
    assert SortDesc([b], key) == [b];
  }

  /** `LIMIT n`. */
  function Take<T>(s: seq<T>, n: nat): (r: seq<T>)
    ensures |r| == if |s| < n then |s| else n
    ensures r == s[..|r|]
  {
    if |s| <= n then s else s[..n]
  }

  /** In a sorted sequence nothing after position `m` is larger than anything before it. */
  lemma DroppedBelowKept<T>(s: seq<T>, m: nat, x: T, y: T, key: T -> int)
    requires NonIncreasing(s, key) && m <= |s|
    requires x in s[m..] && y in s[..m]
    ensures key(x) <= key(y)
  {
    var j :| 0 <= j < |s[m..]| && s[m..][j] == x;
    var i :| 0 <= i < m && s[..m][i] == y;
    assert s[i] == y && s[m + j] == x;
  }

  /**
   * Taking the first `n` of a sorted sequence keeps the `n` largest: every
   * element left out is no larger than any element kept.
   */
  lemma TakeKeepsLargest<T>(s: seq<T>, n: nat, key: T -> int)
    requires NonIncreasing(s, key)
    ensures NonIncreasing(Take(s, n), key)
    ensures multiset(Take(s, n)) <= multiset(s)
    ensures forall x, y :: x in multiset(s) - multiset(Take(s, n)) && y in Take(s, n) ==> key(x) <= key(y)
  {
    var kept := Take(s, n);
    var m := |kept|;
    var dropped := s[m..];
    assert s == kept + dropped;
    assert multiset(s) - multiset(kept) == multiset(dropped);
    forall x, y | x in multiset(dropped) && y in kept ensures key(x) <= key(y) {
      DroppedBelowKept(s, m, x, y, key);
    }
    PrefixSorted(s, m, key);
  }

  lemma PrefixSorted<T>(s: seq<T>, m: nat, key: T -> int)
    requires NonIncreasing(s, key) && m <= |s|
    ensures NonIncreasing(s[..m], key)
  {
    forall i, j | 0 <= i < j < m ensures key(s[..m][i]) >= key(s[..m][j]) {
      assert s[..m][i] == s[i] && s[..m][j] == s[j];
    }
  }

  /** `ORDER BY key DESC LIMIT n`: the `n` largest elements, largest first. */
  function Top<T>(s: seq<T>, key: T -> int, n: nat): (r: seq<T>)
    ensures NonIncreasing(r, key)
    ensures |r| == if |s| < n then |s| else n
    ensures multiset(r) <= multiset(s)
    ensures forall x, y :: x in multiset(s) - multiset(r) && y in r ==> key(x) <= key(y)
  {
    var sorted := SortDesc(s, key);
    SortDescSorts(s, key);
    TakeKeepsLargest(sorted, n, key);
    Take(sorted, n)
  }

  /** One instance of `Top`'s promise: an element left out is no larger than the `k`-th kept. */
  lemma TopOmitsNoLarger<T>(s: seq<T>, key: T -> int, n: nat, x: T, k: nat)
    requires x in multiset(s) - multiset(Top(s, key, n)) && k < |Top(s, key, n)|
    ensures key(x) <= key(Top(s, key, n)[k])
  {
    var r := Top(s, key, n);
    assert r[k] in r;
  }
}
