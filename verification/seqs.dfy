/** Order-preserving operations on sequences that the stores and the views
    share: `Array.filter`, `Array.find`, and `slice`/`substring` prefixes. */
module Seqs {
  import opened Common

  /** `a` is an order-preserving subsequence of `b`. */
  ghost predicate IsSubseq<T>(a: seq<T>, b: seq<T>)
    decreases |b|
  {
    if |a| == 0 then true
    else if |b| == 0 then false
    else (a[0] == b[0] && IsSubseq(a[1..], b[1..])) || IsSubseq(a, b[1..])
  }

  /** `Array.prototype.filter`: the elements satisfying `p`, in their original order. */
  function Filter<T>(s: seq<T>, p: T -> bool): (r: seq<T>)
    ensures forall i :: 0 <= i < |r| ==> r[i] in s && p(r[i])
    ensures forall i :: 0 <= i < |s| && p(s[i]) ==> s[i] in r
    ensures IsSubseq(r, s)
    ensures (forall i :: 0 <= i < |s| ==> p(s[i])) ==> r == s
  {
    if |s| == 0 then []
    else if p(s[0]) then [s[0]] + Filter(s[1..], p)
    else Filter(s[1..], p)
  }

  /** `filter` keeps every copy of a passing element and no copy of any other. */
  lemma {:induction false} FilterMultiset<T>(s: seq<T>, p: T -> bool)
    ensures forall x :: multiset(Filter(s, p))[x] == if p(x) then multiset(s)[x] else 0
    decreases |s|
  {
    if |s| > 0 {
      FilterMultiset(s[1..], p);
      assert s == [s[0]] + s[1..];
      assert multiset(s) == multiset{s[0]} + multiset(s[1..]);
    }
  }

  /** Filtering the concatenation filters each part: the kept elements of an
      appended element come last. */
  lemma {:induction false} FilterAppend<T>(s: seq<T>, x: T, p: T -> bool)
    ensures Filter(s + [x], p) == Filter(s, p) + (if p(x) then [x] else [])
    decreases |s|
  {
    if |s| == 0 {
      assert s + [x] == [x];
      assert Filter([x], p) == (if p(x) then [x] else []) + Filter([x][1..], p);
    } else {
      assert (s + [x])[0] == s[0];
      assert (s + [x])[1..] == s[1..] + [x];
      FilterAppend(s[1..], x, p);
    }
  }

  /** Removing the one element that fails `p` shortens the sequence by exactly one. */
  lemma {:induction false} FilterDropsOne<T>(s: seq<T>, p: T -> bool, k: nat)
    requires k < |s| && !p(s[k])
    requires forall i :: 0 <= i < |s| && i != k ==> p(s[i])
    ensures |Filter(s, p)| == |s| - 1
    decreases |s|
  {
    if k == 0 {
      assert forall i :: 0 <= i < |s[1..]| ==> p(s[1..][i]) by {
        forall i | 0 <= i < |s[1..]| ensures p(s[1..][i]) {
          assert s[1..][i] == s[i + 1];
        }
      }
    } else {
      forall i | 0 <= i < |s[1..]| && i != k - 1 ensures p(s[1..][i]) {
        assert s[1..][i] == s[i + 1];
      }
      FilterDropsOne(s[1..], p, k - 1);
    }
  }

  /** `Array.prototype.find` by position: the index of the first element
      satisfying `p`, or `None` when there is none. */
  function FindFirst<T>(s: seq<T>, p: T -> bool): (r: Option<nat>)
    ensures r.None? <==> forall i :: 0 <= i < |s| ==> !p(s[i])
    ensures r.Some? ==> r.value < |s| && p(s[r.value])
    ensures r.Some? ==> forall j :: 0 <= j < r.value ==> !p(s[j])
  {
    if |s| == 0 then None
    else if p(s[0]) then Some(0)
    else match FindFirst(s[1..], p)
      case None => None
      case Some(k) => Some(k + 1)
  }

  function Min(a: int, b: int): int { if a <= b then a else b }

  function Max(a: int, b: int): int { if a >= b then a else b }

  /** `s.substring(0, n)` / `s.slice(0, n)` for a non-negative `n`: the first
      `n` elements, or all of them when there are fewer. */
  function Take<T>(s: seq<T>, n: nat): (r: seq<T>)
    ensures |r| == Min(n, |s|)
    ensures r == s[..|r|]
  {
    s[..Min(n, |s|)]
  }

  /** `s.slice(0, end)` with `end` possibly `undefined` or negative: absent
      keeps everything, a negative end counts back from the end of `s`. */
  function SliceTo<T>(s: seq<T>, end: Option<int>): (r: seq<T>)
    ensures end.None? ==> r == s
    ensures end.Some? && end.value >= 0 ==> |r| == Min(end.value, |s|)
    ensures end.Some? && end.value < 0 ==> |r| == Max(0, |s| + end.value)
    ensures r == s[..|r|]
  {
    match end
    case None => s
    case Some(n) => if n >= 0 then s[..Min(n, |s|)] else s[..Max(0, |s| + n)]
  }
}
