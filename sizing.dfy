/**
 * The size randomizer (`resize_sign`): a target length is drawn in [42, 300],
 * the longer side of the sign becomes that length and the other side is
 * scaled by the same ratio and truncated. The recorded size is the target
 * length, not the resulting width and height.
 */
module Sizing {
  import opened Results
  import opened Rand

  const MinSize: int := 42
  const MaxSize: int := 300

  datatype Dims = Dims(width: int, height: int)

  /** A resized sign: its new pixel size and the size recorded for it. */
  datatype Resized = Resized(dims: Dims, size: int)

  /**
   * The new dimensions for a `width` x `height` image whose longer side is to
   * become `maxSize`. A square image takes the second branch (height first).
   */
  function TargetDims(width: nat, height: nat, maxSize: nat): (r: Result<Dims>)
    ensures r.Failure? <==> width == 0 && height == 0
    ensures r.Failure? ==> r.error == ZeroDivision
    ensures r.Success? && width > height ==>
              r.value.width == maxSize &&
              r.value.height * width <= maxSize * height < (r.value.height + 1) * width
    ensures r.Success? && width <= height ==>
              r.value.height == maxSize &&
              r.value.width * height <= maxSize * width < (r.value.width + 1) * height
    ensures r.Success? ==> 0 <= r.value.width <= maxSize && 0 <= r.value.height <= maxSize
  {
    if width > height then
      var h := maxSize * height / width;
      FloorBounds(maxSize, height, width);
      Success(Dims(maxSize, h))
    else if height == 0 then
      Failure(ZeroDivision)
    else
      var w := maxSize * width / height;
      FloorBounds(maxSize, width, height);
      Success(Dims(w, maxSize))
  }

  /** Truncating `m * other / longer` gives the largest side that keeps the ratio, and never exceeds `m`. */
  lemma FloorBounds(m: nat, other: nat, longer: nat)
    requires 0 < longer && other <= longer
    ensures (m * other / longer) * longer <= m * other < (m * other / longer + 1) * longer
    ensures 0 <= m * other / longer <= m
  {
    var n := m * other;
    var q := n / longer;
    var rem := n % longer;
    assert n == q * longer + rem && 0 <= rem < longer;
    assert (q + 1) * longer == q * longer + longer;
    assert n <= m * longer by {
      assert m * longer - n == m * (longer - other);
    }
    if q > m {
      assert q * longer == m * longer + (q - m) * longer;
      AtLeastOneStep(q - m, longer);
      assert false;
    }
  }

  /** The truncated side is 0 exactly when `m * other` falls short of `longer`. */
  lemma FloorIsZero(m: nat, other: nat, longer: nat)
    requires 0 < longer && other <= longer
    ensures m * other / longer == 0 <==> m * other < longer
  {
    FloorBounds(m, other, longer);
    var q := m * other / longer;
    if q >= 1 {
      assert q * longer >= longer;
    }
  }

  /**
   * `resize_sign` with the size draw `u`: `random.randint(42, 300)`, the new
   * dimensions, then the resize, which the imaging library refuses when a
   * side would be 0 pixels.
   */
  function ResizeSign(width: nat, height: nat, u: nat): (r: Result<Resized>)
    ensures r.Failure? <==>
              (width == 0 && height == 0) ||
              (width > height && (MinSize + u % 259) * height < width) ||
              (width <= height && (MinSize + u % 259) * width < height)
    ensures r.Success? ==> r.value.size == MinSize + u % 259
    ensures r.Success? ==> MinSize <= r.value.size <= MaxSize
    ensures r.Success? ==> 1 <= r.value.dims.width <= r.value.size && 1 <= r.value.dims.height <= r.value.size
    ensures r.Success? ==> (r.value.dims.width == r.value.size || r.value.dims.height == r.value.size)
    ensures r.Success? && width > height ==> r.value.dims.width == r.value.size
    ensures r.Success? && width <= height ==> r.value.dims.height == r.value.size
    ensures r.Success? ==> TargetDims(width, height, r.value.size) == Success(r.value.dims)
  {
    var maxSize := RandInt(MinSize, MaxSize, u).value;
    assert width > height ==> (maxSize * height / width == 0 <==> maxSize * height < width) by {
      if width > height { FloorIsZero(maxSize, height, width); }
    }
    assert 0 < height && width <= height ==> (maxSize * width / height == 0 <==> maxSize * width < height) by {
      if 0 < height && width <= height { FloorIsZero(maxSize, width, height); }
    }
    match TargetDims(width, height, maxSize)
    case Failure(f) => Failure(f)
    case Success(d) =>
      if d.width == 0 || d.height == 0 then Failure(ZeroSizedResize)
      else Success(Resized(d, maxSize))
  }

  /** A 100 x 50 sign with target 200 becomes exactly 200 x 100. */
  lemma ResizeExample()
    ensures TargetDims(100, 50, 200) == Success(Dims(200, 100))
  {
  }

  /** A square sign becomes `maxSize` x `maxSize`. */
  lemma SquareKeepsSquare(side: nat, maxSize: nat)
    requires side > 0
    ensures TargetDims(side, side, maxSize) == Success(Dims(maxSize, maxSize))
  {
    DivCancel(maxSize, side);
  }

  lemma DivCancel(a: nat, d: nat)
    requires d > 0
    ensures a * d / d == a
  {
    var q := a * d / d;
    var rem := a * d % d;
    assert a * d == q * d + rem && 0 <= rem < d;
    assert (a - q) * d == rem;
    if a > q {
      AtLeastOneStep(a - q, d);
      assert false;
    } else if a < q {
      AtLeastOneStep(q - a, d);
      assert false;
    }
  }

  lemma AtLeastOneStep(k: int, d: int)
    requires k >= 1 && d > 0
    ensures k * d >= d
  {
    assert k * d == d + (k - 1) * d;
  }
}
