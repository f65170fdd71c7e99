/** The two array operations every component of the dashboard is built from:
    `Array.prototype.filter` (here `Keep`) and `Array.prototype.slice` (here `Slice`),
    with the order-preservation facts the components rely on. */
module Seqs {
  import opened Wrappers

  /** `a` can be obtained from `b` by deleting elements, keeping the rest in order. */
  ghost predicate IsSubsequence<T>(a: seq<T>, b: seq<T>)
    decreases |b|
  {
    if a == [] then true
    else if b == [] then false
    else (a[0] == b[0] && IsSubsequence(a[1..], b[1..])) || IsSubsequence(a, b[1..])
  }

  /** Every element of a subsequence is an element of the whole sequence. */
  lemma {:induction false} SubsequenceMembers<T>(a: seq<T>, b: seq<T>)
    requires IsSubsequence(a, b)
    ensures forall x :: x in a ==> x in b
    decreases |b|
  {
    if a != [] {
      assert b != [];
      if a[0] == b[0] && IsSubsequence(a[1..], b[1..]) {
        SubsequenceMembers(a[1..], b[1..]);
        assert a == [a[0]] + a[1..];
      } else {
        SubsequenceMembers(a, b[1..]);
      }
    }
  }

  /** `s.filter(p)`: the elements of `s` that satisfy `p`, in their original order
      (`KeepCounts` adds that each is kept as often as it occurs in `s`). */
  function Keep<T(!new)>(s: seq<T>, p: T -> bool): (r: seq<T>)
    ensures |r| <= |s|
    ensures IsSubsequence(r, s)
    ensures forall x :: x in r <==> x in s && p(x)
    decreases |s|
  {
    if s == [] then []
    else
      var rest := Keep(s[1..], p);
      assert s == [s[0]] + s[1..];
      if p(s[0]) then
        var r := [s[0]] + rest;
        assert r[0] == s[0] && r[1..] == rest;
        r
      else
        rest
  }

  /** `filter` keeps each element the callback accepts exactly as often as it occurs,
      and no other element. */
  lemma {:induction false} KeepCounts<T(!new)>(s: seq<T>, p: T -> bool)
    ensures forall x :: multiset(Keep(s, p))[x] == if p(x) then multiset(s)[x] else 0
    decreases |s|
  {
    if s != [] {
      KeepCounts(s[1..], p);
      assert s == [s[0]] + s[1..];
      assert multiset(s) == multiset{s[0]} + multiset(s[1..]);
      if p(s[0]) {
        assert multiset(Keep(s, p)) == multiset{s[0]} + multiset(Keep(s[1..], p));
      }
    }
  }

  /** Filtering with a predicate that every element satisfies removes nothing. */
  lemma {:induction false} KeepAll<T(!new)>(s: seq<T>, p: T -> bool)
    requires forall i :: 0 <= i < |s| ==> p(s[i])
    ensures Keep(s, p) == s
    decreases |s|
  {
    if s != [] {
      KeepAll(s[1..], p);
      assert p(s[0]);
      assert s == [s[0]] + s[1..];
    }
  }

  /** How `slice` reads one of its arguments against a length: a negative value counts
      back from the end, and the result is clamped into 0..len. */
  function SliceIndex(len: nat, k: int): (r: nat)
    ensures r <= len
    ensures 0 <= k <= len ==> r == k
    ensures len < k ==> r == len
    ensures k < 0 ==> r == Max(0, len + k)
  {
    if k < 0 then (if len + k < 0 then 0 else len + k)
    else if k < len then k
    else len
  }

  /** `s.slice(start, end)`, for arrays and strings alike. */
  function Slice<T>(s: seq<T>, start: int, end: int): (r: seq<T>)
    ensures |r| <= |s|
    ensures end == 0 ==> r == []
    ensures 0 <= start && 0 <= end ==> |r| == Max(0, Min(end, |s|) - start)
    ensures 0 <= start ==> forall k :: 0 <= k < |r| ==> start + k < |s| && r[k] == s[start + k]
  {
    var a, b := SliceIndex(|s|, start), SliceIndex(|s|, end);
    if a < b then s[a..b] else []
  }
}
