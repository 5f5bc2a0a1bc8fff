/** Three-component values indexed by axis, as the game's `Vec3` and its
    per-axis tuples are. */
module Vectors {

  /** An axis index: 0 is X, 1 is Y, 2 is Z. */
  type Axis = i: int | 0 <= i < 3

  datatype Triple<T> = Triple(x: T, y: T, z: T) {

    /** The component on axis `i`. */
    function At(i: Axis): T {
      if i == 0 then x else if i == 1 then y else z
    }

    /** This triple with the component on axis `i` replaced by `v`. */
    function With(i: Axis, v: T): (r: Triple<T>)
      ensures r.At(i) == v
      ensures forall j: Axis :: j != i ==> r.At(j) == At(j)
    {
      if i == 0 then Triple(v, y, z)
      else if i == 1 then Triple(x, v, z)
      else Triple(x, y, v)
    }
  }

  /** Positions, speeds and rotations. Python floats and the engine's
      single-precision vectors are taken as exact reals. */
  type Vec3 = Triple<real>

  const Zero: Vec3 := Triple(0.0, 0.0, 0.0)

  function Abs(r: real): real {
    if r < 0.0 then -r else r
  }

  function IntAbs(n: int): nat {
    if n < 0 then -n else n
  }
}

module Wrappers {

  datatype Option<+T> = None | Some(value: T)

  datatype Result<+R, +E> = Success(value: R) | Failure(error: E)
}

/** Python's `filter` over a list, with the facts the field manager relies on. */
module Seqs {

  function Filter<T>(f: T -> bool, s: seq<T>): (r: seq<T>)
    ensures |r| <= |s|
  {
    if |s| == 0 then []
    else (if f(s[0]) then [s[0]] else []) + Filter(f, s[1..])
  }

  /** Every kept element passes the test. */
  lemma {:induction false} FilterSound<T>(f: T -> bool, s: seq<T>)
    ensures forall k | 0 <= k < |Filter(f, s)| :: f(Filter(f, s)[k])
  {
    if |s| > 0 {
      FilterSound(f, s[1..]);
    }
  }

  /** Each element passing the test is kept as often as it occurs; the others are dropped. */
  lemma {:induction false} FilterCounts<T>(f: T -> bool, s: seq<T>)
    ensures forall x :: multiset(Filter(f, s))[x] == (if f(x) then multiset(s)[x] else 0)
  {
    if |s| > 0 {
      FilterCounts(f, s[1..]);
      assert s == [s[0]] + s[1..];
    }
  }

  /** Filtering a concatenation filters each part in turn, so the original order is kept. */
  lemma {:induction false} FilterAppend<T>(f: T -> bool, a: seq<T>, b: seq<T>)
    ensures Filter(f, a + b) == Filter(f, a) + Filter(f, b)
  {
    if |a| == 0 {
      assert a + b == b;
    } else {
      var head := if f(a[0]) then [a[0]] else [];
      assert (a + b)[0] == a[0];
      assert (a + b)[1..] == a[1..] + b;
      assert Filter(f, a + b) == head + Filter(f, a[1..] + b);
      FilterAppend(f, a[1..], b);
      assert Filter(f, a) == head + Filter(f, a[1..]);
    }
  }
}
