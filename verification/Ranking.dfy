/** Stable sorting by a key, largest first, and what taking the first few of the result means. */
module Ranking {
  import opened Prelude

  /** Places `x` after every element whose key is at least its own. */
  function Place<T>(s: seq<T>, x: T, key: T -> real): seq<T> {
    if s == [] then [x]
    else if key(s[0]) >= key(x) then [s[0]] + Place(s[1..], x, key)
    else [x] + s
  }

  function Ranked<T>(s: seq<T>, key: T -> real): seq<T> {
    if s == [] then [] else Place(Ranked(s[..|s| - 1], key), s[|s| - 1], key)
  }

  function Take<T>(s: seq<T>, n: nat): seq<T> { s[..Min(|s|, n)] }

  ghost predicate Descending<T>(s: seq<T>, key: T -> real) {
    forall i, j | 0 <= i < j < |s| :: key(s[i]) >= key(s[j])
  }

  /** The elements with one key, in order. */
  function WithKey<T>(s: seq<T>, key: T -> real, k: real): seq<T> {
    if s == [] then [] else (if key(s[0]) == k then [s[0]] else []) + WithKey(s[1..], key, k)
  }

  lemma {:induction false} WithKeyAppend<T>(a: seq<T>, b: seq<T>, key: T -> real, k: real)
    ensures WithKey(a + b, key, k) == WithKey(a, key, k) + WithKey(b, key, k)
  {
    if a == [] {
      assert a + b == b;
    } else {
      var head := if key(a[0]) == k then [a[0]] else [];
      WithKeyAppend(a[1..], b, key, k);
      assert (a + b)[1..] == a[1..] + b;
      Regroup(head, WithKey(a[1..], key, k), WithKey(b, key, k));
    }
  }

  lemma Regroup<T>(a: seq<T>, b: seq<T>, c: seq<T>)
    ensures (a + b) + c == a + (b + c)
  {
  }

  lemma {:induction false} WithKeyNone<T>(s: seq<T>, key: T -> real, k: real)
    requires forall x | x in s :: key(x) != k
    ensures WithKey(s, key, k) == []
  {
    if s != [] {
      assert s[0] in s;
      WithKeyNone(s[1..], key, k);
    }
  }

  /** Placing inserts at one point: after the keys that are as large, before the first smaller one. */
  lemma {:induction false} PlaceSplits<T>(s: seq<T>, x: T, key: T -> real) returns (i: nat)
    ensures i <= |s| && Place(s, x, key) == s[..i] + [x] + s[i..]
    ensures forall j | 0 <= j < i :: key(s[j]) >= key(x)
    ensures i < |s| ==> key(s[i]) < key(x)
  {
    if s != [] && key(s[0]) >= key(x) {
      i := PlaceSplits(s[1..], x, key);
      assert [s[0]] + (s[1..][..i] + [x] + s[1..][i..]) == s[..i + 1] + [x] + s[i + 1..];
      i := i + 1;
    } else {
      i := 0;
    }
  }

  lemma {:induction false} InsertionSorted<T>(s: seq<T>, x: T, i: nat, key: T -> real)
    requires Descending(s, key) && i <= |s|
    requires (i > 0 ==> key(s[i - 1]) >= key(x)) && (i < |s| ==> key(s[i]) < key(x))
    ensures Descending(s[..i] + [x] + s[i..], key)
  {
    var r := s[..i] + [x] + s[i..];
    forall a, b | 0 <= a < b < |r| ensures key(r[a]) >= key(r[b]) {
      if a < i {
        assert r[a] == s[a] && key(s[a]) >= key(s[i - 1]);
      } else if b > i {
        assert r[b] == s[b - 1] && key(s[i]) >= key(s[b - 1]);
      }
    }
  }

  lemma {:induction false} PlacedKeeps<T>(s: seq<T>, x: T, key: T -> real)
    ensures multiset(Place(s, x, key)) == multiset(s) + multiset{x}
  {
    if s != [] {
      assert s == [s[0]] + s[1..];
      if key(s[0]) >= key(x) {
        PlacedKeeps(s[1..], x, key);
      }
    }
  }

  lemma {:induction false} PlacedSorted<T>(s: seq<T>, x: T, key: T -> real)
    requires Descending(s, key)
    ensures Descending(Place(s, x, key), key)
  {
    var i := PlaceSplits(s, x, key);
    InsertionSorted(s, x, i, key);
  }

  lemma {:induction false} PlacedStable<T>(s: seq<T>, x: T, key: T -> real, k: real)
    requires Descending(s, key)
    ensures WithKey(Place(s, x, key), key, k) == WithKey(s, key, k) + WithKey([x], key, k)
  {
    if s == [] {
    } else if key(s[0]) >= key(x) {
      var head, rest := if key(s[0]) == k then [s[0]] else [], s[1..];
      PlacedStable(rest, x, key, k);
      assert ([s[0]] + Place(rest, x, key))[1..] == Place(rest, x, key);
      Regroup(head, WithKey(rest, key, k), WithKey([x], key, k));
    } else {
      WithKeyAppend([x], s, key, k);
      if key(x) == k {
        WithKeyNone(s, key, k);
      } else {
        WithKeyNone([x], key, k);
      }
    }
  }

  /** Ranking sorts, keeps every element, and keeps the order of elements with equal keys. */
  lemma {:induction false} RankedIsStableSort<T>(s: seq<T>, key: T -> real)
    ensures Descending(Ranked(s, key), key)
    ensures multiset(Ranked(s, key)) == multiset(s)
    ensures forall k :: WithKey(Ranked(s, key), key, k) == WithKey(s, key, k)
  {
    if s != [] {
      var init, x := s[..|s| - 1], s[|s| - 1];
      RankedIsStableSort(init, key);
      PlacedSorted(Ranked(init, key), x, key);
      PlacedKeeps(Ranked(init, key), x, key);
      assert s == init + [x];
      forall k ensures WithKey(Ranked(s, key), key, k) == WithKey(s, key, k) {
        PlacedStable(Ranked(init, key), x, key, k);
        WithKeyAppend(init, [x], key, k);
      }
    }
  }

  /** The head of a ranking is the first of the elements with the largest key. */
  lemma {:induction false} RankedHead<T>(s: seq<T>, key: T -> real) returns (i: nat)
    requires s != []
    ensures i < |s| && Ranked(s, key) != [] && Ranked(s, key)[0] == s[i]
    ensures forall j | 0 <= j < |s| :: key(s[j]) <= key(s[i])
    ensures forall j | 0 <= j < i :: key(s[j]) < key(s[i])
  {
    var n := |s| - 1;
    var init, x := s[..n], s[n];
    PlaceHead(Ranked(init, key), x, key);
    if n == 0 {
      i := 0;
    } else {
      i := RankedHead(init, key);
      assert forall j | 0 <= j < n :: s[j] == init[j];
      if key(x) > key(init[i]) {
        forall j | 0 <= j < n ensures key(s[j]) < key(x) {
          assert key(init[j]) <= key(init[i]);
        }
        i := n;
      } else {
        forall j | 0 <= j < |s| ensures key(s[j]) <= key(s[i]) {
          assert j < n ==> key(init[j]) <= key(init[i]);
        }
      }
    }
  }

  lemma PlaceHead<T>(s: seq<T>, x: T, key: T -> real)
    ensures Place(s, x, key) != []
    ensures Place(s, x, key)[0] == if s == [] || key(s[0]) < key(x) then x else s[0]
  {
  }

  lemma MultisetSplit<T>(r: seq<T>, m: nat)
    requires m <= |r|
    ensures multiset(r[..m]) <= multiset(r) && multiset(r) - multiset(r[..m]) == multiset(r[m..])
  {
    assert r == r[..m] + r[m..];
  }

  lemma {:induction false} SortedSplit<T>(r: seq<T>, m: nat, key: T -> real)
    requires Descending(r, key) && m <= |r|
    ensures Descending(r[..m], key)
    ensures forall x, y | x in r[..m] && y in r[m..] :: key(x) >= key(y)
  {
    forall x, y | x in r[..m] && y in r[m..] ensures key(x) >= key(y) {
      var i :| 0 <= i < m && r[i] == x;
      var j :| 0 <= j < |r| - m && r[m..][j] == y;
      assert r[m + j] == y;
    }
  }

  lemma {:induction false} RankedLength<T>(s: seq<T>, key: T -> real)
    ensures |Ranked(s, key)| == |s|
  {
    RankedIsStableSort(s, key);
    assert |Ranked(s, key)| == |multiset(Ranked(s, key))| == |multiset(s)| == |s|;
  }

  /** The first `n` of a ranking are `n` of the elements, and no element left out beats one taken. */
  lemma {:induction false} TakeIsTop<T>(s: seq<T>, n: nat, key: T -> real)
    ensures var top := Take(Ranked(s, key), n);
            && |top| == Min(|s|, n) && Descending(top, key)
            && multiset(top) <= multiset(s)
            && forall x, y | x in top && y in multiset(s) - multiset(top) :: key(x) >= key(y)
  {
    RankedIsStableSort(s, key);
    RankedLength(s, key);
    var r, m := Ranked(s, key), Min(|s|, n);
    MultisetSplit(r, m);
    SortedSplit(r, m, key);
    assert Take(r, n) == r[..m];
  }

  /** An element is taken, unless `n` others are that have keys at least as large. */
  lemma {:induction false} TakenOrBeaten<T>(s: seq<T>, n: nat, key: T -> real, x: T)
    requires x in s
    ensures var top := Take(Ranked(s, key), n);
            x in top || (|top| == n && forall y | y in top :: key(y) >= key(x))
  {
    TakeIsTop(s, n, key);
    RankedIsStableSort(s, key);
    var top, r := Take(Ranked(s, key), n), Ranked(s, key);
    assert x in multiset(s) && x in multiset(r);
    if x !in top {
      assert multiset(top)[x] == 0;
      assert x in multiset(s) - multiset(top);
      assert |top| < n ==> top == r;
    }
  }
}
