/** The sequence operations behind the JavaScript array methods the
    application uses: `filter` with a predicate and `filter` by position. */
module Lists {

  /** `s.filter(p)`: the elements of `s` that satisfy `p`, in order. */
  function Filter<T>(s: seq<T>, p: T -> bool): (r: seq<T>)
    ensures |r| <= |s|
  {
    if s == [] then [] else (if p(s[0]) then [s[0]] else []) + Filter(s[1..], p)
  }

  /** The filtered sequence holds exactly the elements of `s` that satisfy
      `p`. */
  lemma {:induction false} FilterMembers<T>(s: seq<T>, p: T -> bool)
    ensures forall x :: x in Filter(s, p) <==> x in s && p(x)
    ensures forall k :: 0 <= k < |Filter(s, p)| ==> p(Filter(s, p)[k])
  {
    if s != [] {
      FilterMembers(s[1..], p);
      assert s == [s[0]] + s[1..];
    }
  }

  /** Filtering a concatenation filters each part: the kept elements stay
      in the order they had. */
  lemma {:induction false} FilterConcat<T>(a: seq<T>, b: seq<T>, p: T -> bool)
    ensures Filter(a + b, p) == Filter(a, p) + Filter(b, p)
  {
    if a == [] {
      assert a + b == b;
    } else {
      var head := if p(a[0]) then [a[0]] else [];
      assert (a + b)[0] == a[0];
      assert (a + b)[1..] == a[1..] + b;
      calc {
        Filter(a + b, p);
        head + Filter(a[1..] + b, p);
        { FilterConcat(a[1..], b, p); }
        head + (Filter(a[1..], p) + Filter(b, p));
        (head + Filter(a[1..], p)) + Filter(b, p);
        Filter(a, p) + Filter(b, p);
      }
    }
  }

  /** Filtering a sequence whose every element passes changes nothing. */
  lemma {:induction false} FilterKeepsAll<T>(s: seq<T>, p: T -> bool)
    requires forall k :: 0 <= k < |s| ==> p(s[k])
    ensures Filter(s, p) == s
  {
    if s != [] {
      FilterKeepsAll(s[1..], p);
    }
  }

  /** Filtering twice with the same predicate is filtering once. */
  lemma FilterIdempotent<T>(s: seq<T>, p: T -> bool)
    ensures Filter(Filter(s, p), p) == Filter(s, p)
  {
    FilterMembers(s, p);
    FilterKeepsAll(Filter(s, p), p);
  }

  /** The positions from `i` on of `s` whose element satisfies `p`
      (`KeptPositionsExact`). */
  function KeptPositions<T>(s: seq<T>, p: T -> bool, i: nat): (idx: seq<nat>)
    requires i <= |s|
    ensures |idx| <= |s| - i
    ensures forall k :: 0 <= k < |idx| ==> i <= idx[k] < |s|
    decreases |s| - i
  {
    if i == |s| then [] else (if p(s[i]) then [i] else []) + KeptPositions(s, p, i + 1)
  }

  /** Every kept position holds an element that satisfies `p`. */
  lemma {:induction false} KeptPositionsSatisfy<T>(s: seq<T>, p: T -> bool, i: nat)
    requires i <= |s|
    ensures forall k :: 0 <= k < |KeptPositions(s, p, i)| ==> p(s[KeptPositions(s, p, i)[k]])
    decreases |s| - i
  {
    if i < |s| {
      KeptPositionsSatisfy(s, p, i + 1);
      var rest := KeptPositions(s, p, i + 1);
      var idx := KeptPositions(s, p, i);
      if p(s[i]) {
        assert idx == [i] + rest;
        assert forall k :: 0 < k < |idx| ==> idx[k] == rest[k - 1];
      } else {
        assert idx == rest;
      }
    }
  }

  /** The positions in `q` strictly increase. */
  predicate Increasing(q: seq<nat>) {
    forall j, k :: 0 <= j < k < |q| ==> q[j] < q[k]
  }

  /** A position below every position of an increasing list can be put in
      front of it. */
  lemma ConsIncreasing(x: nat, q: seq<nat>)
    requires Increasing(q)
    requires forall k :: 0 <= k < |q| ==> x < q[k]
    ensures Increasing([x] + q)
  {
    var r := [x] + q;
    forall j, k | 0 <= j < k < |r| ensures r[j] < r[k] {
      assert r[k] == q[k - 1];
      if j > 0 {
        assert r[j] == q[j - 1];
      }
    }
  }

  /** The kept positions are listed in increasing order. */
  lemma {:induction false} KeptPositionsIncreasing<T>(s: seq<T>, p: T -> bool, i: nat)
    requires i <= |s|
    ensures Increasing(KeptPositions(s, p, i))
    decreases |s| - i
  {
    if i < |s| {
      KeptPositionsIncreasing(s, p, i + 1);
      var rest := KeptPositions(s, p, i + 1);
      if p(s[i]) {
        assert KeptPositions(s, p, i) == [i] + rest;
        ConsIncreasing(i, rest);
      } else {
        assert KeptPositions(s, p, i) == rest;
      }
    }
  }

  /** Every position from `i` on whose element satisfies `p` is kept. */
  lemma {:induction false} KeptPositionsComplete<T>(s: seq<T>, p: T -> bool, i: nat)
    requires i <= |s|
    ensures forall m :: i <= m < |s| && p(s[m]) ==> m in KeptPositions(s, p, i)
    decreases |s| - i
  {
    if i < |s| {
      KeptPositionsComplete(s, p, i + 1);
      var rest := KeptPositions(s, p, i + 1);
      var idx := KeptPositions(s, p, i);
      if p(s[i]) {
        assert idx == [i] + rest;
      } else {
        assert idx == rest;
      }
    }
  }

  /** The kept positions are exactly those whose element satisfies `p`,
      listed in increasing order. */
  lemma KeptPositionsExact<T>(s: seq<T>, p: T -> bool, i: nat)
    requires i <= |s|
    ensures forall k :: 0 <= k < |KeptPositions(s, p, i)| ==> p(s[KeptPositions(s, p, i)[k]])
    ensures forall j, k :: 0 <= j < k < |KeptPositions(s, p, i)| ==> KeptPositions(s, p, i)[j] < KeptPositions(s, p, i)[k]
    ensures forall m :: i <= m < |s| && p(s[m]) ==> m in KeptPositions(s, p, i)
  {
    KeptPositionsSatisfy(s, p, i);
    KeptPositionsIncreasing(s, p, i);
    KeptPositionsComplete(s, p, i);
  }

  /** The filtered sequence is exactly `s` read at its kept positions: the
      elements that satisfy `p`, each once, in their original order. */
  lemma {:induction false} FilterAtKeptPositions<T>(s: seq<T>, p: T -> bool, i: nat)
    requires i <= |s|
    ensures |Filter(s[i..], p)| == |KeptPositions(s, p, i)|
    ensures forall k :: 0 <= k < |Filter(s[i..], p)| ==>
      Filter(s[i..], p)[k] == s[KeptPositions(s, p, i)[k]]
    decreases |s| - i
  {
    if i < |s| {
      FilterAtKeptPositions(s, p, i + 1);
      FilterAtKeptStep(s, p, i, Filter(s[i + 1..], p), KeptPositions(s, p, i + 1));
    }
  }

  /** Filtering the suffix from `i` looks at `s[i]` and then filters the
      suffix from `i + 1`. */
  lemma FilterFrom<T>(s: seq<T>, p: T -> bool, i: nat)
    requires i < |s|
    ensures Filter(s[i..], p) == (if p(s[i]) then [s[i]] else []) + Filter(s[i + 1..], p)
  {
    var t := s[i..];
    assert t[0] == s[i];
    assert t[1..] == s[i + 1..];
  }

  /** The inductive step of `FilterAtKeptPositions`. */
  lemma FilterAtKeptStep<T>(s: seq<T>, p: T -> bool, i: nat, rest: seq<T>, restIdx: seq<nat>)
    requires i < |s|
    requires rest == Filter(s[i + 1..], p) && restIdx == KeptPositions(s, p, i + 1)
    requires |rest| == |restIdx|
    requires forall k :: 0 <= k < |rest| ==> rest[k] == s[restIdx[k]]
    ensures |Filter(s[i..], p)| == |KeptPositions(s, p, i)|
    ensures forall k :: 0 <= k < |Filter(s[i..], p)| ==>
      Filter(s[i..], p)[k] == s[KeptPositions(s, p, i)[k]]
  {
    FilterFrom(s, p, i);
    var f, idx := Filter(s[i..], p), KeptPositions(s, p, i);
    assert idx == (if p(s[i]) then [i] else []) + restIdx;
    if p(s[i]) {
      forall k | 0 <= k < |f| ensures f[k] == s[idx[k]] {
        if k > 0 {
          assert f[k] == rest[k - 1];
          assert idx[k] == restIdx[k - 1];
        }
      }
    } else {
      assert f == rest;
      assert idx == restIdx;
    }
  }

  /** `s.filter((_, j) => j !== i)`: the element at position `i` dropped,
      or `s` itself when `i` is not a position of `s`. */
  function RemoveAt<T>(s: seq<T>, i: int): (r: seq<T>)
    ensures 0 <= i < |s| ==> r == s[..i] + s[i + 1..]
    ensures !(0 <= i < |s|) ==> r == s
  {
    if s == [] then [] else (if i == 0 then [] else [s[0]]) + RemoveAt(s[1..], i - 1)
  }

  /** `s.filter((_, j) => j !== i).map((x, j) => withIndex(x, j + 1))`:
      the element at position `i` dropped (nothing dropped when `i` is not
      a position) and every remaining element, in order, rewritten with
      its new one-based position. */
  function RemoveRenumbered<T>(s: seq<T>, i: int, withIndex: (T, int) -> T): (r: seq<T>)
    ensures |r| == if 0 <= i < |s| then |s| - 1 else |s|
    ensures forall k :: 0 <= k < |r| ==> r[k] == withIndex(s[if 0 <= i <= k then k + 1 else k], k + 1)
  {
    Renumbered(RemoveAt(s, i), withIndex)
  }

  /** `s.map((x, j) => withIndex(x, j + 1))`: every element rewritten with
      its one-based position. */
  function Renumbered<T>(s: seq<T>, withIndex: (T, int) -> T): (r: seq<T>)
    ensures |r| == |s|
    ensures forall k :: 0 <= k < |s| ==> r[k] == withIndex(s[k], k + 1)
  {
    seq(|s|, k requires 0 <= k < |s| => withIndex(s[k], k + 1))
  }
}
