/** The ECMAScript `Array.prototype` operations the store and the read loop rely on:
    `pop` (as `Last`/`DropLast`), `slice` with relative indices, and `filter`. */
module Arrays {

  /** The element `pop()` returns from a non-empty array. */
  function Last<T>(a: seq<T>): T
    requires |a| > 0
  {
    a[|a| - 1]
  }

  /** What `pop()` leaves behind in a non-empty array. */
  function DropLast<T>(a: seq<T>): (r: seq<T>)
    requires |a| > 0
    ensures |r| == |a| - 1 && r + [Last(a)] == a
  {
    a[..|a| - 1]
  }

  function Min(a: nat, b: nat): nat
  {
    if a < b then a else b
  }

  /** An ECMAScript relative index: a negative `k` counts back from `len`,
      and the result is clamped into `0..len`. */
  function RelativeIndex(k: int, len: nat): (r: nat)
    ensures r <= len
  {
    if k < 0 then (if len + k < 0 then 0 else len + k)
    else if k > len then len
    else k
  }

  /** `a.slice(start, end)`; a call with `end` omitted is `Slice(a, start, |a|)`. */
  function Slice<T>(a: seq<T>, start: int, end: int): (r: seq<T>)
    ensures |r| <= |a|
  {
    var from := RelativeIndex(start, |a|);
    var to := RelativeIndex(end, |a|);
    if from < to then a[from..to] else []
  }

  /** The first `n` elements of `a`, or all of them when there are fewer. */
  function Take<T>(a: seq<T>, n: nat): seq<T>
  {
    a[..Min(n, |a|)]
  }

  /** Taking at least as many elements as there are keeps them all. */
  lemma TakeAll<T>(a: seq<T>, n: nat)
    requires |a| <= n
    ensures Take([] + a, n) == a
  {
    assert [] + a == a;
  }

  /** `a` back to front. */
  function Reverse<T>(a: seq<T>): seq<T>
    decreases |a|
  {
    if |a| == 0 then [] else Reverse(a[1..]) + [a[0]]
  }

  /** Reversal turns a concatenation around. */
  lemma {:induction false} ReverseAppend<T>(a: seq<T>, b: seq<T>)
    ensures Reverse(a + b) == Reverse(b) + Reverse(a)
    decreases |a|
  {
    if |a| == 0 {
      assert a + b == b;
    } else {
      assert (a + b)[1..] == a[1..] + b;
      ReverseAppend(a[1..], b);
    }
  }

  /** Taking `n` after putting `rest` in front of the first `n` of a sequence is
      taking `n` of the whole. */
  lemma TakeAfterTake<T>(rest: seq<T>, first: seq<T>, before: seq<T>, n: nat)
    ensures Take(rest + Take(first + before, n), n) == Take(rest + first + before, n)
  {
    assert rest + first + before == rest + (first + before);
  }

  /** `a.slice(0, n)` keeps the first `n` elements, or all of them when there are fewer. */
  lemma SliceHead<T>(a: seq<T>, n: nat)
    ensures Slice(a, 0, n) == Take(a, n)
  {
  }

  /** `a.slice(-n)`: the last `n` elements, or all of them when there are fewer;
      since `-0` is `0`, `n == 0` keeps everything. */
  function SliceLast<T>(a: seq<T>, n: nat): (r: seq<T>)
    ensures r == if n == 0 then a else a[|a| - Min(n, |a|)..]
  {
    Slice(a, -(n as int), |a|)
  }

  /** Cutting to the last `n` before appending more and cutting again is the
      same as cutting once at the end. */
  lemma SliceLastAppend<T>(a: seq<T>, y: seq<T>, n: nat)
    ensures SliceLast(SliceLast(a, n) + y, n) == SliceLast(a + y, n)
  {
    if n > 0 {
      var k := |a| - Min(n, |a|);
      var b := a[k..] + y;
      assert b == (a + y)[k..];
      var m := |b| - Min(n, |b|);
      assert k + m == |a + y| - Min(n, |a + y|);
      assert b[m..] == (a + y)[k + m..];
    }
  }

  lemma AppendAssociates<T>(a: seq<T>, b: seq<T>, c: seq<T>)
    ensures a + b + c == a + (b + c)
  {
  }

  /** `a.filter(keep)`: the elements `keep` accepts, in their original order. */
  function Filter<T>(a: seq<T>, keep: T -> bool): (r: seq<T>)
    ensures |r| <= |a|
    ensures forall i :: 0 <= i < |r| ==> r[i] in a && keep(r[i])
    ensures forall i :: 0 <= i < |a| && keep(a[i]) ==> a[i] in r
    decreases |a|
  {
    if |a| == 0 then []
    else (if keep(a[0]) then [a[0]] else []) + Filter(a[1..], keep)
  }

  /** Filtering is element-wise: it distributes over concatenation, so the
      survivors of the front stay in front of the survivors of the back. */
  lemma {:induction false} FilterAppend<T>(a: seq<T>, b: seq<T>, keep: T -> bool)
    ensures Filter(a + b, keep) == Filter(a, keep) + Filter(b, keep)
    decreases |a|
  {
    if |a| == 0 {
      assert a + b == b;
    } else {
      assert (a + b)[1..] == a[1..] + b;
      FilterAppend(a[1..], b, keep);
    }
  }

  /** An array every element of which passes is returned unchanged. */
  lemma {:induction false} FilterKeepsAll<T>(a: seq<T>, keep: T -> bool)
    requires forall i :: 0 <= i < |a| ==> keep(a[i])
    ensures Filter(a, keep) == a
    decreases |a|
  {
    if |a| > 0 {
      FilterKeepsAll(a[1..], keep);
      assert [a[0]] + a[1..] == a;
    }
  }

  /** Filtering twice with the same test is filtering once. */
  lemma FilterIdempotent<T>(a: seq<T>, keep: T -> bool)
    ensures Filter(Filter(a, keep), keep) == Filter(a, keep)
  {
    var r := Filter(a, keep);
    forall i | 0 <= i < |r|
      ensures keep(r[i])
    {
      assert r[i] in r;
    }
    FilterKeepsAll(r, keep);
  }
}
