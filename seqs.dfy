/** List operations the C# code performs on `List<T>`: `RemoveAll` (a filter),
    `Remove` (drop the first equal element) and a sequence of `Remove` calls. */
module Seqs {

  /** The elements of `s` that satisfy `p`, in their original order. */
  function Filter<T>(s: seq<T>, p: T -> bool): (r: seq<T>)
    ensures |r| <= |s|
    ensures forall i :: 0 <= i < |r| ==> r[i] in s && p(r[i])
    ensures forall i :: 0 <= i < |s| && p(s[i]) ==> s[i] in r
  {
    if s == [] then [] else (if p(s[0]) then [s[0]] else []) + Filter(s[1..], p)
  }

  /** The elements of `s` that do not satisfy `p`, in their original order. */
  function Reject<T>(s: seq<T>, p: T -> bool): (r: seq<T>)
    ensures |r| <= |s|
    ensures forall i :: 0 <= i < |r| ==> r[i] in s && !p(r[i])
    ensures forall i :: 0 <= i < |s| && !p(s[i]) ==> s[i] in r
  {
    if s == [] then [] else (if p(s[0]) then [] else [s[0]]) + Reject(s[1..], p)
  }

  /** `List.Remove(x)`: the first element equal to `x` is dropped, if any.
      A list without `x` is left alone, and otherwise it is exactly one
      shorter. */
  function RemoveFirst<T(==)>(s: seq<T>, x: T): (r: seq<T>)
    ensures x !in s ==> r == s
    ensures x in s ==> |r| == |s| - 1
  {
    if s == [] then []
    else if s[0] == x then s[1..]
    else
      assert s == [s[0]] + s[1..];
      [s[0]] + RemoveFirst(s[1..], x)
  }

  /** `Remove` drops the first occurrence: when the first `x` is at `k`, the
      result is the list without position `k`. */
  lemma {:induction false} RemoveFirstAt<T>(s: seq<T>, x: T, k: nat)
    requires k < |s| && s[k] == x && x !in s[..k]
    ensures RemoveFirst(s, x) == s[..k] + s[k + 1..]
  {
    if k > 0 {
      assert s[0] == s[..k][0];
      var t := s[1..];
      assert t[..k - 1] == s[1..k];
      assert x !in t[..k - 1];
      RemoveFirstAt(t, x, k - 1);
      assert s[..k] == [s[0]] + t[..k - 1];
      assert t[k..] == s[k + 1..];
    }
  }

  /** `Remove` takes away one occurrence of the element, if any, and keeps
      every other element. */
  lemma {:induction false} RemoveFirstMultiset<T>(s: seq<T>, x: T)
    ensures multiset(RemoveFirst(s, x)) == multiset(s) - multiset{x}
  {
    if s != [] {
      var t := s[1..];
      assert s == [s[0]] + t;
      if s[0] != x {
        RemoveFirstMultiset(t, x);
        assert multiset([s[0]] + RemoveFirst(t, x)) == multiset{s[0]} + multiset(RemoveFirst(t, x));
      }
    }
  }

  /** `foreach (var x in xs) list.Remove(x);`: one occurrence is taken
      away per listed element, as far as there are occurrences left. */
  function RemoveEach<T(==)>(s: seq<T>, xs: seq<T>): (r: seq<T>)
    ensures multiset(r) == multiset(s) - multiset(xs)
    decreases |xs|
  {
    if xs == [] then s
    else
      var t := RemoveFirst(s, xs[0]);
      RemoveFirstMultiset(s, xs[0]);
      assert xs == [xs[0]] + xs[1..];
      assert multiset(xs) == multiset{xs[0]} + multiset(xs[1..]);
      SubtractTwice(multiset(s), multiset{xs[0]}, multiset(xs[1..]));
      RemoveEach(t, xs[1..])
  }

  /** Taking away `b` and then `c` takes away `b + c`. */
  lemma SubtractTwice<T>(a: multiset<T>, b: multiset<T>, c: multiset<T>)
    ensures a - b - c == a - (b + c)
  {
    forall e ensures (a - b - c)[e] == (a - (b + c))[e] {
    }
  }

  lemma {:induction false} FilterAppend<T>(a: seq<T>, b: seq<T>, p: T -> bool)
    ensures Filter(a + b, p) == Filter(a, p) + Filter(b, p)
  {
    if a == [] {
      assert a + b == b;
    } else {
      assert (a + b)[1..] == a[1..] + b;
      FilterAppend(a[1..], b, p);
    }
  }

  lemma {:induction false} RejectAppend<T>(a: seq<T>, b: seq<T>, p: T -> bool)
    ensures Reject(a + b, p) == Reject(a, p) + Reject(b, p)
  {
    if a == [] {
      assert a + b == b;
    } else {
      assert (a + b)[1..] == a[1..] + b;
      RejectAppend(a[1..], b, p);
    }
  }

  /** Filtering is idempotent: a second filter with the same test keeps everything. */
  lemma {:induction false} FilterIdempotent<T>(s: seq<T>, p: T -> bool)
    ensures Filter(Filter(s, p), p) == Filter(s, p)
  {
    if s != [] {
      var g := Filter(s[1..], p);
      FilterIdempotent(s[1..], p);
      if p(s[0]) {
        var f := Filter(s, p);
        assert f == [s[0]] + g;
        assert f != [] && f[0] == s[0] && f[1..] == g;
        calc {
          Filter(f, p);
          [f[0]] + Filter(f[1..], p);
          [s[0]] + Filter(g, p);
          [s[0]] + g;
        }
      } else {
        assert Filter(s, p) == g;
      }
    }
  }

  /** Nothing is rejected from a list whose every element passes. */
  lemma {:induction false} RejectNone<T>(s: seq<T>, p: T -> bool)
    requires forall i :: 0 <= i < |s| ==> p(s[i])
    ensures Reject(s, p) == []
  {
    if s != [] {
      assert forall i :: 0 <= i < |s[1..]| ==> s[1..][i] == s[i + 1];
      RejectNone(s[1..], p);
    }
  }

  /** Nothing is kept from a list whose every element fails. */
  lemma {:induction false} FilterNone<T>(s: seq<T>, p: T -> bool)
    requires forall i :: 0 <= i < |s| ==> !p(s[i])
    ensures Filter(s, p) == []
  {
    if s != [] {
      assert forall i :: 0 <= i < |s[1..]| ==> s[1..][i] == s[i + 1];
      FilterNone(s[1..], p);
    }
  }

  /** `Remove` on a list whose head is another element keeps the head. */
  lemma RemoveFirstSkip<T>(y: T, rest: seq<T>, x: T)
    requires y != x
    ensures RemoveFirst([y] + rest, x) == [y] + RemoveFirst(rest, x)
  {
    assert ([y] + rest)[0] == y && ([y] + rest)[1..] == rest;
  }

  /** Removals of elements other than the head leave the head in front. */
  lemma {:induction false} RemoveEachSkip<T>(y: T, rest: seq<T>, xs: seq<T>)
    requires y !in xs
    ensures RemoveEach([y] + rest, xs) == [y] + RemoveEach(rest, xs)
    decreases |xs|
  {
    if xs != [] {
      assert y != xs[0] && y !in xs[1..];
      RemoveFirstSkip(y, rest, xs[0]);
      RemoveEachSkip(y, RemoveFirst(rest, xs[0]), xs[1..]);
    }
  }

  /** The two-pass removal of `EventManager.Trigger` and `RequestManager.SetValue`
      (collect the rejected bindings, then `Remove` each) equals a filter. */
  lemma {:induction false} RemoveEachRejected<T>(s: seq<T>, p: T -> bool)
    ensures RemoveEach(s, Reject(s, p)) == Filter(s, p)
  {
    if s != [] {
      var t := s[1..];
      assert s == [s[0]] + t;
      RemoveEachRejected(t, p);
      if p(s[0]) {
        assert Reject(s, p) == Reject(t, p);
        assert s[0] !in Reject(t, p);
        RemoveEachSkip(s[0], t, Reject(t, p));
      } else {
        var r := Reject(s, p);
        assert r == [s[0]] + Reject(t, p);
        assert r[0] == s[0] && r[1..] == Reject(t, p);
        assert RemoveFirst(s, s[0]) == t;
      }
    }
  }

  /** `foreach (var item in toRemove) list.Remove(item);` */
  method RemoveAllListed<T(==)>(list: seq<T>, toRemove: seq<T>) returns (remaining: seq<T>)
    ensures remaining == RemoveEach(list, toRemove)
  {
    remaining := list;
    for j := 0 to |toRemove|
      invariant RemoveEach(remaining, toRemove[j..]) == RemoveEach(list, toRemove)
    {
      assert toRemove[j..][0] == toRemove[j] && toRemove[j..][1..] == toRemove[j + 1..];
      remaining := RemoveFirst(remaining, toRemove[j]);
    }
    assert toRemove[|toRemove|..] == [];
  }

  /** The collect-then-remove pruning: when `toRemove` holds exactly the
      elements failing `p`, in order, one `Remove` per collected element
      leaves exactly the passing elements, in order. */
  method RemoveRejected<T(==)>(list: seq<T>, toRemove: seq<T>, ghost p: T -> bool) returns (remaining: seq<T>)
    requires toRemove == Reject(list, p)
    ensures remaining == Filter(list, p)
  {
    remaining := RemoveAllListed(list, toRemove);
    RemoveEachRejected(list, p);
  }
}
