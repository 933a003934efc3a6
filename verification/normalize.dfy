/** The min/max rescaling of crime-4's `normalizeData` and its inverse in
    `predictFuture`, over real numbers. */
module Normalization {
  import opened Wrappers

  /** The minimum and maximum of a tensor. */
  datatype Bounds = Bounds(min: real, max: real)

  function Min(s: seq<real>): (m: real)
    requires s != []
    ensures m in s
    ensures forall k :: 0 <= k < |s| ==> m <= s[k]
  {
    if |s| == 1 then s[0]
    else
      var m := Min(s[1..]);
      assert forall k :: 1 <= k < |s| ==> s[k] == s[1..][k - 1];
      if s[0] <= m then s[0] else m
  }

  function Max(s: seq<real>): (m: real)
    requires s != []
    ensures m in s
    ensures forall k :: 0 <= k < |s| ==> s[k] <= m
  {
    if |s| == 1 then s[0]
    else
      var m := Max(s[1..]);
      assert forall k :: 1 <= k < |s| ==> s[k] == s[1..][k - 1];
      if m <= s[0] then s[0] else m
  }

  /** `tensor.min()` and `tensor.max()`; an empty tensor has no bounds. */
  function BoundsOf(s: seq<real>): (b: Option<Bounds>)
    ensures b.Some? <==> s != []
    ensures b.Some? ==> b.value.min in s && b.value.max in s
    ensures b.Some? ==> forall k :: 0 <= k < |s| ==> b.value.min <= s[k] <= b.value.max
  {
    if s == [] then None else Some(Bounds(Min(s), Max(s)))
  }

  /** `(v - min) / (max - min)`. When `max == min` the division has no real
      value (JavaScript gives NaN or an infinity): that is `None`. */
  function Normalize(v: real, b: Bounds): (n: Option<real>)
    ensures n.Some? <==> b.max != b.min
    ensures n.Some? ==> n.value * (b.max - b.min) == v - b.min
  {
    if b.max == b.min then None else Some((v - b.min) / (b.max - b.min))
  }

  /** `p * (max - min) + min`. */
  function Denormalize(p: real, b: Bounds): real {
    p * (b.max - b.min) + b.min
  }

  /** Every value of a tensor, rescaled with the same bounds. */
  function NormalizeAll(s: seq<real>, b: Bounds): (r: seq<Option<real>>)
    ensures |r| == |s|
  {
    seq(|s|, k requires 0 <= k < |s| => Normalize(s[k], b))
  }

  /** Rescaling and then undoing the rescale gives the value back, whenever
      the bounds differ. */
  lemma DenormalizeNormalize(v: real, b: Bounds)
    requires b.max != b.min
    ensures Denormalize(Normalize(v, b).value, b) == v
  {
  }

  /** Undoing the rescale and then rescaling gives the prediction back. */
  lemma NormalizeDenormalize(p: real, b: Bounds)
    requires b.max != b.min
    ensures Normalize(Denormalize(p, b), b) == Some(p)
  {
    var d := b.max - b.min;
    var n := Normalize(Denormalize(p, b), b).value;
    assert n * d == p * d;
    Cancel(n, p, d);
  }

  lemma Cancel(x: real, y: real, d: real)
    requires d != 0.0 && x * d == y * d
    ensures x == y
  {
    assert (x - y) * d == 0.0;
  }

  /** Multiplying by a positive number keeps the order both ways. */
  lemma ScaleOrder(x: real, y: real, d: real)
    requires d > 0.0
    ensures x < y <==> x * d < y * d
    ensures x <= y <==> x * d <= y * d
  {
    assert (y - x) * d == y * d - x * d;
  }

  /** A value within the bounds lands in [0, 1], the minimum at 0 and the
      maximum at 1. */
  lemma NormalizeUnit(v: real, b: Bounds)
    requires b.min < b.max && b.min <= v <= b.max
    ensures 0.0 <= Normalize(v, b).value <= 1.0
    ensures v == b.min ==> Normalize(v, b).value == 0.0
    ensures v == b.max ==> Normalize(v, b).value == 1.0
  {
    UnitQuotient(Normalize(v, b).value, v - b.min, b.max - b.min);
  }

  /** A number that scales an amount between 0 and `d` up to `d` is in
      [0, 1], and is 0 or 1 at the ends. */
  lemma UnitQuotient(n: real, x: real, d: real)
    requires d > 0.0 && 0.0 <= x <= d && n * d == x
    ensures 0.0 <= n <= 1.0
    ensures x == 0.0 ==> n == 0.0
    ensures x == d ==> n == 1.0
  {
    assert 0.0 * d == 0.0 && 1.0 * d == d;
    ScaleOrder(0.0, n, d);
    ScaleOrder(n, 1.0, d);
    if x == 0.0 {
      Cancel(n, 0.0, d);
    }
    if x == d {
      Cancel(n, 1.0, d);
    }
  }

  /** Rescaling keeps the order of values. */
  lemma NormalizeMonotone(v: real, w: real, b: Bounds)
    requires b.min < b.max
    ensures v < w <==> Normalize(v, b).value < Normalize(w, b).value
  {
    ScaleOrder(Normalize(v, b).value, Normalize(w, b).value, b.max - b.min);
  }

  /** The values of the tensor itself land in [0, 1], its minimum at 0 and its
      maximum at 1, in their original order. */
  lemma NormalizeWithin(s: seq<real>, k: int, j: int)
    requires 0 <= k < |s| && 0 <= j < |s|
    requires BoundsOf(s).value.min != BoundsOf(s).value.max
    ensures 0.0 <= Normalize(s[k], BoundsOf(s).value).value <= 1.0
    ensures s[k] == BoundsOf(s).value.min ==> Normalize(s[k], BoundsOf(s).value).value == 0.0
    ensures s[k] == BoundsOf(s).value.max ==> Normalize(s[k], BoundsOf(s).value).value == 1.0
    ensures s[k] < s[j] <==> Normalize(s[k], BoundsOf(s).value).value < Normalize(s[j], BoundsOf(s).value).value
  {
    var b := BoundsOf(s).value;
    assert b.min <= s[k] <= b.max;
    NormalizeUnit(s[k], b);
    NormalizeMonotone(s[k], s[j], b);
  }

  /** The rescale is undefined exactly when every value of the tensor is the
      same. */
  lemma BoundsDegenerate(s: seq<real>)
    requires s != []
    ensures BoundsOf(s).value.min == BoundsOf(s).value.max <==> forall k :: 0 <= k < |s| ==> s[k] == s[0]
  {
    var b := BoundsOf(s).value;
    if forall k :: 0 <= k < |s| ==> s[k] == s[0] {
      var i :| 0 <= i < |s| && s[i] == b.min;
      var j :| 0 <= j < |s| && s[j] == b.max;
    }
  }

  /** The month indices 0 .. n-1 as a tensor. */
  function Indices(n: nat): (s: seq<real>)
    ensures |s| == n
  {
    seq(n, k requires 0 <= k < n => k as real)
  }

  /** The index tensor's bounds are 0 and n-1, so its rescale is undefined
      exactly when there is a single month. */
  lemma IndicesBounds(n: nat)
    requires n >= 1
    ensures BoundsOf(Indices(n)) == Some(Bounds(0.0, (n - 1) as real))
    ensures BoundsOf(Indices(n)).value.min == BoundsOf(Indices(n)).value.max <==> n == 1
  {
    var s := Indices(n);
    var b := BoundsOf(s).value;
    assert s[0] == 0.0 && s[n - 1] == (n - 1) as real;
    var i :| 0 <= i < n && s[i] == b.min;
    var j :| 0 <= j < n && s[j] == b.max;
  }

  /** Integer counts as real numbers. */
  function AsReals(s: seq<int>): (r: seq<real>)
    ensures |r| == |s|
    ensures forall k :: 0 <= k < |s| ==> r[k] == s[k] as real
  {
    seq(|s|, k requires 0 <= k < |s| => s[k] as real)
  }
}
