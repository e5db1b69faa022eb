/**
 * The three-lane float vector of the metric and its small helpers
 * (src/util/float3operations.hpp): the 4th power, zeroing, the two `fma`
 * overloads, `fabs`, the element-wise array kernels and the per-sample
 * decoder `convertPointer` used when packing planes.
 *
 * Float lanes are modelled as reals, so every operation here is exact.
 */
module Float3 {
  import opened Geometry

  /** `sycl::float3`. */
  datatype F3 = F3(x: real, y: real, z: real)

  const Zero: F3 := F3(0.0, 0.0, 0.0)

  function Splat(s: real): F3 { F3(s, s, s) }

  function Add(a: F3, b: F3): F3 { F3(a.x + b.x, a.y + b.y, a.z + b.z) }

  function Sub(a: F3, b: F3): F3 { F3(a.x - b.x, a.y - b.y, a.z - b.z) }

  /** Lane-wise product, `a * b` on two vectors. */
  function Mul(a: F3, b: F3): F3 { F3(a.x * b.x, a.y * b.y, a.z * b.z) }

  /** `a * s` for a scalar `s`. */
  function Scale(a: F3, s: real): F3 { F3(a.x * s, a.y * s, a.z * s) }

  /** Lane `c` (0 = x, 1 = y, 2 = z). */
  function Lane(a: F3, c: nat): real
    requires c < 3
  {
    if c == 0 then a.x else if c == 1 then a.y else a.z
  }

  predicate NonNeg(a: F3) { a.x >= 0.0 && a.y >= 0.0 && a.z >= 0.0 }

  function RMax(a: real, b: real): real { if a >= b then a else b }

  /** `sycl::max(v, 0.0f)` lane by lane. */
  function MaxZero(a: F3): F3 { F3(RMax(a.x, 0.0), RMax(a.y, 0.0), RMax(a.z, 0.0)) }

  /** Product of two lanes. */
  function Times(a: real, b: real): real { a * b }

  lemma TimesPositive(a: real, b: real)
    requires (a > 0.0 && b > 0.0) || (a < 0.0 && b < 0.0)
    ensures Times(a, b) > 0.0
  {
    if a > 0.0 { TimesPosPos(a, b); } else { TimesNegNeg(a, b); }
  }

  lemma TimesPosPos(a: real, b: real)
    requires a > 0.0 && b > 0.0
    ensures Times(a, b) > 0.0
  {}

  lemma TimesNegNeg(a: real, b: real)
    requires a < 0.0 && b < 0.0
    ensures Times(a, b) > 0.0
  {}

  /** A square is non-negative, and positive away from zero. */
  lemma SquareSign(a: real)
    ensures Times(a, a) >= 0.0
    ensures a != 0.0 ==> Times(a, a) > 0.0
  {
    if a != 0.0 { TimesPositive(a, a); }
  }

  /** Scalar `tothe4th`: `x*x` squared. Non-negative, and zero only at zero. */
  function Tothe4thScalar(v: real): (r: real)
    ensures r >= 0.0
    ensures r == 0.0 <==> v == 0.0
  {
    var s := Times(v, v);
    SquareSign(v);
    SquareSign(s);
    Times(s, s)
  }

  /** `tothe4th` is even: the sign of its argument is lost. */
  lemma Tothe4thEven(v: real)
    ensures Tothe4thScalar(-v) == Tothe4thScalar(v)
  {
    assert Times(-v, -v) == Times(v, v);
  }

  /** Vector `tothe4th`: the scalar 4th power in every lane, hence non-negative, and zero only for the zero vector. */
  function Tothe4th(v: F3): (r: F3)
    ensures NonNeg(r)
    ensures r == Zero <==> v == Zero
  {
    F3(Tothe4thScalar(v.x), Tothe4thScalar(v.y), Tothe4thScalar(v.z))
  }

  /** `zeroVec`: sets all three lanes of one element to zero and touches nothing else. */
  method ZeroVec(a: array<F3>, i: int)
    requires 0 <= i < a.Length
    modifies a
    ensures a[i] == Zero
    ensures forall j :: 0 <= j < a.Length && j != i ==> a[j] == old(a[j])
  {
    a[i] := a[i].(z := 0.0);
    a[i] := a[i].(y := 0.0);
    a[i] := a[i].(x := 0.0);
  }

  /** `fma(a, b, c)` with a vector `b`: `a*b + c` in every lane. */
  function FmaVec(a: F3, b: F3, c: real): (r: F3)
    ensures r == Add(Mul(a, b), Splat(c))
  {
    var p := Mul(a, b);
    F3(p.x + c, p.y + c, p.z + c)
  }

  /** `fma(a, b, c)` with a scalar `b`: every lane scaled by `b`, then `c` added. */
  function FmaScalar(a: F3, b: real, c: real): (r: F3)
    ensures r == Add(Scale(a, b), Splat(c))
  {
    var p := Scale(a, b);
    F3(p.x + c, p.y + c, p.z + c)
  }

  /** The scalar overload is the vector overload with `b` broadcast to all lanes. */
  lemma FmaOverloadsAgree(a: F3, b: real, c: real)
    ensures FmaScalar(a, b, c) == FmaVec(a, Splat(b), c)
  {
    assert Mul(a, Splat(b)) == Scale(a, b);
  }

  function RAbs(a: real): real { if a < 0.0 then -a else a }

  /** `fabs` lane by lane: non-negative and equal to each lane up to sign. */
  function Fabs(a: F3): (r: F3)
    ensures NonNeg(r)
    ensures forall k :: 0 <= k < 3 ==> Lane(r, k) == Lane(a, k) || Lane(r, k) == -Lane(a, k)
  {
    F3(RAbs(a.x), RAbs(a.y), RAbs(a.z))
  }

  /** `fabs` does not see the sign of its argument. */
  lemma FabsEven(a: F3)
    ensures Fabs(Scale(a, -1.0)) == Fabs(a)
  {}

  /**
   * Size of the 1-D launch `multarray`, `subarray`, `rgb_to_linear` and
   * `rgb_to_positive_xyb` use: `min(256, width)` items per group,
   * `(width - 1) / th + 1` groups. It covers every index below `width` and
   * overshoots by less than one group.
   */
  function Launch1D(width: int): (g: int)
    requires width >= 1
    ensures width <= g < width + 256
  {
    var th := Min(256, width);
    CeilDiv(width, th) * th
  }

  /**
   * `multarray`: every work-item `x < width` stores `src1[x] * src2[x]` into
   * `dst[x]`. The arrays may alias: item `x` reads and writes only index `x`.
   */
  method MultArray(src1: array<real>, src2: array<real>, dst: array<real>, width: int)
    requires width >= 1 && width <= src1.Length && width <= src2.Length && width <= dst.Length
    modifies dst
    ensures forall x :: 0 <= x < width ==> dst[x] == old(src1[x]) * old(src2[x])
    ensures forall x :: width <= x < dst.Length ==> dst[x] == old(dst[x])
  {
    var g := Launch1D(width);
    var id := 0;
    while id < g
      invariant 0 <= id <= g
      invariant forall x :: 0 <= x < Min(id, width) ==> dst[x] == old(src1[x]) * old(src2[x])
      invariant forall x :: Min(id, width) <= x < dst.Length ==> dst[x] == old(dst[x])
      invariant forall x :: Min(id, width) <= x < src1.Length ==> src1[x] == old(src1[x])
      invariant forall x :: Min(id, width) <= x < src2.Length ==> src2[x] == old(src2[x])
    {
      if id < width {
        dst[id] := src1[id] * src2[id];
      }
      id := id + 1;
    }
  }

  /** `subarray`: every work-item `x < width` stores `src1[x] - src2[x]` into `dst[x]`. */
  method SubArray(src1: array<real>, src2: array<real>, dst: array<real>, width: int)
    requires width >= 1 && width <= src1.Length && width <= src2.Length && width <= dst.Length
    modifies dst
    ensures forall x :: 0 <= x < width ==> dst[x] == old(src1[x]) - old(src2[x])
    ensures forall x :: width <= x < dst.Length ==> dst[x] == old(dst[x])
  {
    var g := Launch1D(width);
    var id := 0;
    while id < g
      invariant 0 <= id <= g
      invariant forall x :: 0 <= x < Min(id, width) ==> dst[x] == old(src1[x]) - old(src2[x])
      invariant forall x :: Min(id, width) <= x < dst.Length ==> dst[x] == old(dst[x])
      invariant forall x :: Min(id, width) <= x < src1.Length ==> src1[x] == old(src1[x])
      invariant forall x :: Min(id, width) <= x < src2.Length ==> src2[x] == old(src2[x])
    {
      if id < width {
        dst[id] := src1[id] - src2[id];
      }
      id := id + 1;
    }
  }

  /** One byte of a source plane. */
  type Byte = b: int | 0 <= b < 256

  /** The sample encodings the packer accepts. */
  datatype InputMemType = UINT16 | HALF | FLOAT

  /**
   * Interpretations of raw half and single precision samples; IEEE decoding
   * is not part of this model, so the caller supplies them.
   */
  datatype FloatDecoders = FloatDecoders(half: seq<Byte> -> real, single: seq<Byte> -> real)

  function ElemBytes(t: InputMemType): nat
  {
    match t
    case UINT16 => 2
    case HALF => 2
    case FLOAT => 4
  }

  /** Byte offset of element `j` of the row that starts at byte `i * stride`. */
  function ElementOffset(t: InputMemType, i: int, j: int, stride: int): int
  {
    i * stride + ElemBytes(t) * j
  }

  /** A 16-bit sample as stored by the (little-endian) device. */
  function Uint16At(src: seq<Byte>, off: int): (v: int)
    requires 0 <= off && off + 2 <= |src|
    ensures 0 <= v <= 65535
  {
    src[off] as int + 256 * (src[off + 1] as int)
  }

  /**
   * `convertPointer<T>`: sample `j` of row `i`. A 16-bit sample is divided
   * by 65535, so it lands in [0, 1]; half and single samples are handed to
   * the decoders as their raw bytes.
   */
  function ConvertPointer(t: InputMemType, src: seq<Byte>, i: int, j: int, stride: int, dec: FloatDecoders): (r: real)
    requires 0 <= ElementOffset(t, i, j, stride) && ElementOffset(t, i, j, stride) + ElemBytes(t) <= |src|
    ensures t == UINT16 ==> 0.0 <= r <= 1.0
  {
    var off := ElementOffset(t, i, j, stride);
    match t
    case UINT16 => Uint16At(src, off) as real / 65535.0
    case HALF => dec.half(src[off .. off + 2])
    case FLOAT => dec.single(src[off .. off + 4])
  }

  /** A 16-bit sample decodes to 0 exactly when both its bytes are 0, and to 1 exactly when both are 255. */
  lemma Uint16Endpoints(src: seq<Byte>, i: int, j: int, stride: int, dec: FloatDecoders)
    requires 0 <= ElementOffset(UINT16, i, j, stride) && ElementOffset(UINT16, i, j, stride) + 2 <= |src|
    ensures var off := ElementOffset(UINT16, i, j, stride);
            ConvertPointer(UINT16, src, i, j, stride, dec) == 0.0 <==> src[off] == 0 && src[off + 1] == 0
    ensures var off := ElementOffset(UINT16, i, j, stride);
            ConvertPointer(UINT16, src, i, j, stride, dec) == 1.0 <==> src[off] == 255 && src[off + 1] == 255
  {
    var off := ElementOffset(UINT16, i, j, stride);
    var v := Uint16At(src, off);
    assert v as real / 65535.0 == 1.0 <==> v == 65535;
  }

  /** `convertPointer` reads only the bytes of element `j` of row `i`: buffers that agree there decode alike. */
  lemma ConvertPointerReadsOneElement(t: InputMemType, a: seq<Byte>, b: seq<Byte>, i: int, j: int, stride: int, dec: FloatDecoders)
    requires 0 <= ElementOffset(t, i, j, stride)
    requires ElementOffset(t, i, j, stride) + ElemBytes(t) <= |a| && ElementOffset(t, i, j, stride) + ElemBytes(t) <= |b|
    requires forall k :: ElementOffset(t, i, j, stride) <= k < ElementOffset(t, i, j, stride) + ElemBytes(t) ==> a[k] == b[k]
    ensures ConvertPointer(t, a, i, j, stride, dec) == ConvertPointer(t, b, i, j, stride, dec)
  {
    var off := ElementOffset(t, i, j, stride);
    assert a[off .. off + ElemBytes(t)] == b[off .. off + ElemBytes(t)];
  }
}
