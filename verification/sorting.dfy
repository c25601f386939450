/** `[...s].sort((a, b) => key(b) - key(a))`: a stable sort into
    non-increasing key order, computed on a copy. */
module Sorting {
  import opened Seqs

  ghost predicate SortedDesc<T>(s: seq<T>, key: T -> int) {
    forall i, j :: 0 <= i < j < |s| ==> key(s[i]) >= key(s[j])
  }

  /** Inserts `x` ahead of the first element whose key is not greater than
      its own, which keeps earlier-inserted equal keys behind it. */
  function Insert<T>(x: T, s: seq<T>, key: T -> int): (r: seq<T>)
    ensures SortedDesc(s, key) ==> SortedDesc(r, key)
    ensures multiset(r) == multiset(s) + multiset{x}
    ensures |r| == |s| + 1
    ensures r[0] == x || (|s| > 0 && r[0] == s[0])
    decreases |s|
  {
    if |s| == 0 || key(s[0]) <= key(x) then
      ConsSorted(x, s, key);
      [x] + s
    else
      var tail := Insert(x, s[1..], key);
      HeadTail(s);
      ConsSorted(s[0], s[1..], key);
      ConsSorted(s[0], tail, key);
      [s[0]] + tail
  }

  /** A sorted sequence stays sorted under a head no smaller than its first
      key, and its tail is sorted too. */
  lemma ConsSorted<T>(y: T, t: seq<T>, key: T -> int)
    ensures SortedDesc(t, key) && (|t| > 0 ==> key(y) >= key(t[0])) ==> SortedDesc([y] + t, key)
    ensures SortedDesc([y] + t, key) ==> SortedDesc(t, key)
  {
    var r := [y] + t;
    if SortedDesc(t, key) && (|t| > 0 ==> key(y) >= key(t[0])) {
      forall i, j | 0 <= i < j < |r|
        ensures key(r[i]) >= key(r[j])
      {
        if i > 0 {
          assert r[i] == t[i - 1] && r[j] == t[j - 1];
        } else {
          assert r[j] == t[j - 1];
        }
      }
    }
    if SortedDesc(r, key) {
      forall i, j | 0 <= i < j < |t|
        ensures key(t[i]) >= key(t[j])
      {
        assert t[i] == r[i + 1] && t[j] == r[j + 1];
      }
    }
  }

  /** The sort the views use: non-increasing by `key`, same elements. */
  function SortDesc<T>(s: seq<T>, key: T -> int): (r: seq<T>)
    ensures SortedDesc(r, key)
    ensures multiset(r) == multiset(s)
    ensures |r| == |s|
    decreases |s|
  {
    if |s| == 0 then []
    else
      assert s == [s[0]] + s[1..];
      Insert(s[0], SortDesc(s[1..], key), key)
  }

  function HasKey<T>(key: T -> int, k: int): T -> bool {
    x => key(x) == k
  }

  /** One step of `Filter` on a sequence with a known head. */
  lemma FilterCons<T>(y: T, t: seq<T>, p: T -> bool)
    ensures Filter([y] + t, p) == (if p(y) then [y] else []) + Filter(t, p)
  {
    assert ([y] + t)[0] == y && ([y] + t)[1..] == t;
  }

  lemma InsertUnfold<T>(x: T, s: seq<T>, key: T -> int)
    requires |s| > 0 && key(s[0]) > key(x)
    ensures Insert(x, s, key) == [s[0]] + Insert(x, s[1..], key)
  {
  }

  lemma HeadTail<T>(s: seq<T>)
    requires |s| > 0
    ensures s == [s[0]] + s[1..]
  {
  }

  /** At most one of two singleton-or-empty heads is present, so their order
      does not matter. */
  lemma SwapHeads<T>(h0: seq<T>, hx: seq<T>, rest: seq<T>)
    requires h0 == [] || hx == []
    ensures h0 + (hx + rest) == hx + (h0 + rest)
  {
    if h0 == [] {
      assert h0 + (hx + rest) == hx + rest == hx + (h0 + rest);
    } else {
      assert hx + (h0 + rest) == h0 + rest == h0 + (hx + rest);
    }
  }

  lemma {:induction false} FilterInsert<T>(x: T, s: seq<T>, key: T -> int, k: int)
    ensures Filter(Insert(x, s, key), HasKey(key, k))
         == (if key(x) == k then [x] else []) + Filter(s, HasKey(key, k))
    decreases |s|
  {
    if |s| == 0 || key(s[0]) <= key(x) {
      FilterCons(x, s, HasKey(key, k));
    } else {
      var p := HasKey(key, k);
      var tail := Insert(x, s[1..], key);
      var rest := Filter(s[1..], p);
      var hx: seq<T> := if key(x) == k then [x] else [];
      var h0: seq<T> := if p(s[0]) then [s[0]] else [];
      assert h0 == [] || hx == [] by {
        assert p(s[0]) <==> key(s[0]) == k;
      }
      calc {
        Filter(Insert(x, s, key), p);
        { InsertUnfold(x, s, key); }
        Filter([s[0]] + tail, p);
        { FilterCons(s[0], tail, p); }
        h0 + Filter(tail, p);
        { FilterInsert(x, s[1..], key, k); }
        h0 + (hx + rest);
        { SwapHeads(h0, hx, rest); }
        hx + (h0 + rest);
        { FilterCons(s[0], s[1..], p); }
        hx + Filter([s[0]] + s[1..], p);
        { HeadTail(s); }
        hx + Filter(s, p);
      }
    }
  }

  /** Stability: the elements sharing any one key keep their original
      relative order. */
  lemma {:induction false} SortDescStable<T>(s: seq<T>, key: T -> int, k: int)
    ensures Filter(SortDesc(s, key), HasKey(key, k)) == Filter(s, HasKey(key, k))
    decreases |s|
  {
    if |s| > 0 {
      SortDescStable(s[1..], key, k);
      FilterInsert(s[0], SortDesc(s[1..], key), key, k);
    }
  }
}
