/**
 * Conversion of one source plane of any sample depth to floats
 * (src/ffvship_utility/gpuColorToLinear/anyDepthToFloat.hpp).
 *
 * Integer samples of 8 to 16 bits are tightly bit-packed, most significant
 * bit first: sample `x` of row `y` is the `bits`-bit field that starts at bit
 * `bits * x` of the row, which starts at byte `stride * y`; it is scaled to
 * [0, 1] by dividing by `2^bits - 1`. Half and single precision samples are
 * read as 2 or 4 raw bytes and handed to the caller's decoders.
 *
 * Raw integers stay below 2^16, where a `float` is exact, so they are
 * modelled as integers and the final division as a real division.
 */
module AnyDepth {
  import opened Geometry
  import opened Float3

  /** `Sample_Type`; the enum's values are the constructors' positions, 0 to 7. */
  datatype SampleType = ColorFloat | ColorHalf | Color8Bit | Color9Bit | Color10Bit | Color12Bit | Color14Bit | Color16Bit

  /** Bits one sample occupies in a row. */
  function SampleBits(t: SampleType): nat
  {
    match t
    case ColorFloat => 32
    case ColorHalf => 16
    case Color8Bit => 8
    case Color9Bit => 9
    case Color10Bit => 10
    case Color12Bit => 12
    case Color14Bit => 14
    case Color16Bit => 16
  }

  predicate IsInteger(t: SampleType)
  {
    !t.ColorFloat? && !t.ColorHalf?
  }

  /* ---------------------------------------------------------------------- */
  /* Bit fields, most significant bit first                                  */
  /* ---------------------------------------------------------------------- */

  function Pow2(n: nat): (r: nat)
    ensures r >= 1
    ensures n >= 1 ==> r >= 2
  {
    if n == 0 then 1 else 2 * Pow2(n - 1)
  }

  lemma {:induction false} Pow2Add(a: nat, b: nat)
    ensures Pow2(a + b) == Pow2(a) * Pow2(b)
  {
    if b > 0 {
      Pow2Add(a, b - 1);
      MulDouble(Pow2(a), Pow2(b - 1), Pow2(b));
    }
  }

  /** `2^n == 2^a * 2^(n - a)`. */
  lemma Pow2Split(n: nat, a: nat)
    requires a <= n
    ensures Pow2(n) == Pow2(a) * Pow2(n - a)
  {
    Pow2Add(a, n - a);
  }

  /** `2 * (a * p) == a * p2` where `p2 == 2 * p`. */
  lemma MulDouble(a: int, p: int, p2: int)
    requires p2 == 2 * p
    ensures 2 * (a * p) == a * p2
  {
  }

  lemma MulAssoc(a: int, b: int, c: int)
    ensures a * (b * c) == (a * b) * c
  {
  }

  lemma MulDistrib(a: int, b: int, c: int)
    ensures (a + b) * c == a * c + b * c
  {
  }

  /** A quotient below `k` when the dividend is below `m * k`. */
  lemma DivLess(v: int, m: int, k: int)
    requires 0 <= v < m * k && m >= 1
    ensures v / m < k
  {
    var q := v / m;
    assert v == m * q + v % m;
    if q >= k {
      MulMono(k, q, m);
    }
  }

  lemma ModSmall(q: int, k: int)
    requires 0 <= q < k
    ensures q % k == q
  {
    DivModUnique(k, 0, q);
  }

  /** A count `a` out of `d` is a ratio in [0, 1], 0 only for none and 1 only for all. */
  lemma RatioBounds(a: int, d: int)
    requires 0 <= a <= d && d >= 1
    ensures 0.0 <= a as real / d as real <= 1.0
    ensures a as real / d as real == 0.0 <==> a == 0
    ensures a as real / d as real == 1.0 <==> a == d
  {
    var r := a as real / d as real;
    assert r * d as real == a as real;
  }

  lemma Pow2Byte()
    ensures Pow2(8) == 256
  {
  }

  /** Bit `k` of the byte sequence, counting from the most significant bit of byte 0. */
  function Bit(b: seq<Byte>, k: nat): (r: nat)
    requires k < 8 * |b|
    ensures r <= 1
  {
    (b[k / 8] as int / Pow2(7 - k % 8)) % 2
  }

  /** The `n`-bit unsigned integer whose bits, most significant first, are bits `s .. s + n - 1`. */
  function BitsAt(b: seq<Byte>, s: nat, n: nat): nat
    requires s + n <= 8 * |b|
  {
    if n == 0 then 0 else 2 * BitsAt(b, s, n - 1) + Bit(b, s + n - 1)
  }

  /** An `n`-bit field holds less than `2^n`. */
  lemma {:induction false} BitsBound(b: seq<Byte>, s: nat, n: nat)
    requires s + n <= 8 * |b|
    ensures BitsAt(b, s, n) < Pow2(n)
  {
    if n > 0 {
      BitsBound(b, s, n - 1);
    }
  }

  /**
   * A field of `mn == m + n` bits is its first `m` bits shifted left by `n`,
   * plus its last `n` bits, which start at bit `sm == s + m`.
   */
  lemma {:induction false} BitsSplit(b: seq<Byte>, s: nat, m: nat, n: nat, sm: nat, mn: nat)
    requires sm == s + m && mn == m + n && s + mn <= 8 * |b|
    ensures BitsAt(b, s, mn) == BitsAt(b, s, m) * Pow2(n) + BitsAt(b, sm, n)
  {
    if n > 0 {
      BitsSplit(b, s, m, n - 1, sm, mn - 1);
      SameBit(b, s + mn - 1, sm + n - 1);
      ShiftBit(BitsAt(b, s, m), Pow2(n - 1), Pow2(n), BitsAt(b, sm, n - 1), Bit(b, sm + n - 1),
               BitsAt(b, s, mn), BitsAt(b, sm, n));
      assert BitsAt(b, s, mn) == BitsAt(b, s, m) * Pow2(n) + BitsAt(b, sm, n);
    } else {
      assert BitsAt(b, s, mn) == BitsAt(b, s, m) * Pow2(n) + BitsAt(b, sm, n);
    }
  }

  lemma SameBit(b: seq<Byte>, k1: nat, k2: nat)
    requires k1 == k2 && k1 < 8 * |b|
    ensures Bit(b, k1) == Bit(b, k2)
  {
  }

  /** One more bit `c` appended to both `a * p + r` (giving `f`) and `r` (giving `g`): `f == a * p2 + g` with `p2 == 2 * p`. */
  lemma ShiftBit(a: int, p: int, p2: int, r: int, c: int, f: int, g: int)
    requires p2 == 2 * p && f == 2 * (a * p + r) + c && g == 2 * r + c
    ensures f == a * p2 + g
  {
  }

  /** Dividing a non-negative number by a positive one gives a non-negative quotient no larger than it. */
  lemma DivBounds(v: int, m: int)
    requires v >= 0 && m >= 1
    ensures 0 <= v / m <= v
  {
    var q := v / m;
    assert v == m * q + v % m;
    if q < 0 {
      MulAtLeast(m, -q);
    } else if q > v {
      MulAtLeast(q, m);
    }
  }

  lemma DivTwice(v: nat, a: nat)
    ensures v / Pow2(a + 1) == (v / Pow2(a)) / 2
  {
    var m := Pow2(a);
    var q, r := v / m, v % m;
    var q2, r2 := q / 2, q % 2;
    assert v == m * q + r;
    assert m * q == 2 * m * q2 + m * r2;
    assert 0 <= m * r2 + r < 2 * m;
    DivModUnique(2 * m, q2, m * r2 + r);
  }

  lemma ModDouble(q: nat, n: nat)
    requires n >= 1
    ensures q % Pow2(n) == 2 * ((q / 2) % Pow2(n - 1)) + q % 2
  {
    var p := Pow2(n - 1);
    var q2, r0 := q / 2, q % 2;
    var t, r1 := q2 / p, q2 % p;
    assert q2 == p * t + r1;
    assert q == 2 * p * t + (2 * r1 + r0);
    DivModUnique(2 * p, t, 2 * r1 + r0);
  }

  /** `(8q + c) / 8 == q + c / 8` and `(8q + c) % 8 == c % 8` for `c >= 0`. */
  lemma DivAddMultiple(q: int, c: int)
    requires c >= 0
    ensures (8 * q + c) / 8 == q + c / 8 && (8 * q + c) % 8 == c % 8
  {
    assert 8 * q + c == 8 * (q + c / 8) + c % 8;
    DivModUnique(8, q + c / 8, c % 8);
  }

  /** Bits `i .. i + n - 1` of byte `p` (bit 0 the most significant) are `(b[p] >> (8 - i - n)) & (2^n - 1)`. */
  lemma {:induction false} ByteBits(b: seq<Byte>, p: nat, i: nat, n: nat)
    requires p < |b| && i + n <= 8
    ensures BitsAt(b, 8 * p + i, n) == (b[p] as int / Pow2(8 - i - n)) % Pow2(n)
  {
    if n > 0 {
      var v := b[p] as int;
      var e := 8 - i - n;
      var q := v / Pow2(e);
      DivBounds(v, Pow2(e));
      var k := 8 * p + i + n - 1;
      ByteBits(b, p, i, n - 1);
      assert BitsAt(b, 8 * p + i, n - 1) == (v / Pow2(e + 1)) % Pow2(n - 1);
      DivTwice(v, e);
      assert BitsAt(b, 8 * p + i, n - 1) == (q / 2) % Pow2(n - 1);
      DivModUnique(8, p, i + n - 1);
      assert k / 8 == p && 7 - k % 8 == e;
      assert Bit(b, k) == q % 2;
      assert BitsAt(b, 8 * p + i, n) == 2 * BitsAt(b, 8 * p + i, n - 1) + Bit(b, k);
      ModDouble(q, n);
    }
  }

  /** The last `8 - off` bits of byte `p`: `b[p] & ((1 << (8 - off)) - 1)`. */
  lemma LowBits(b: seq<Byte>, p: nat, off: nat)
    requires p < |b| && off < 8
    ensures BitsAt(b, 8 * p + off, 8 - off) == b[p] as int % Pow2(8 - off)
  {
    ByteBits(b, p, off, 8 - off);
  }

  /** `LowBits` for a field starting at bit `s == 8 * p + off`. */
  lemma LowBitsAt(b: seq<Byte>, s: nat, p: nat, off: nat)
    requires p < |b| && off < 8 && s == 8 * p + off
    ensures BitsAt(b, s, 8 - off) == b[p] as int % Pow2(8 - off)
  {
    LowBits(b, p, off);
  }

  /** The first `r` bits of byte `p`: `b[p] >> (8 - r)`. */
  lemma HighBits(b: seq<Byte>, p: nat, r: nat)
    requires p < |b| && r <= 8
    ensures BitsAt(b, 8 * p, r) == b[p] as int / Pow2(8 - r)
  {
    ByteBits(b, p, 0, r);
    var v := b[p] as int;
    var m, k := Pow2(8 - r), Pow2(r);
    Pow2Add(8 - r, r);
    Pow2Byte();
    assert v < m * k;
    DivLess(v, m, k);
    DivBounds(v, m);
    ModSmall(v / m, k);
  }

  /** All eight bits of byte `p`, starting at bit `s == 8 * p`, are the byte itself. */
  lemma FullByteAt(b: seq<Byte>, s: nat, p: nat)
    requires p < |b| && s == 8 * p
    ensures BitsAt(b, s, 8) == b[p] as int
  {
    HighBits(b, p, 8);
  }

  /** All eight bits of byte `p` are the byte itself. */
  lemma FullByte(b: seq<Byte>, p: nat)
    requires p < |b|
    ensures BitsAt(b, 8 * p, 8) == b[p] as int
  {
    HighBits(b, p, 8);
  }

  /** A field depends only on the bytes it overlaps, bytes `s / 8` to `(s + n - 1) / 8`. */
  lemma {:induction false} BitsReadOnly(a: seq<Byte>, b: seq<Byte>, s: nat, n: nat)
    requires s + n <= 8 * |a| && s + n <= 8 * |b|
    requires forall k :: s / 8 <= k <= (s + n - 1) / 8 ==> a[k] == b[k]
    ensures BitsAt(a, s, n) == BitsAt(b, s, n)
  {
    if n > 0 {
      BitsReadOnly(a, b, s, n - 1);
      assert a[(s + n - 1) / 8] == b[(s + n - 1) / 8];
    }
  }

  /* ---------------------------------------------------------------------- */
  /* Where a sample lives                                                    */
  /* ---------------------------------------------------------------------- */

  /** A plane of `height` rows of `stride` bytes, each row holding `width` samples of `bits` bits. */
  predicate PlaneHolds(bits: nat, plane: seq<Byte>, stride: int, width: int, height: int)
  {
    bits >= 8 && width >= 1 && height >= 1 && bits * width <= 8 * stride && stride * height <= |plane|
  }

  predicate PlaneFits(t: SampleType, plane: seq<Byte>, stride: int, width: int, height: int)
  {
    PlaneHolds(SampleBits(t), plane, stride, width, height)
  }

  /** Every sample of the plane lies inside it. */
  lemma SampleInPlane(bits: nat, plane: seq<Byte>, stride: int, width: int, height: int, i: int)
    requires PlaneHolds(bits, plane, stride, width, height) && 0 <= i < width * height
    ensures 0 <= stride * (i / width) && 0 <= i % width < width
    ensures 8 * (stride * (i / width)) + bits * (i % width) + bits <= 8 * |plane|
  {
    var x, y := i % width, i / width;
    RowMajorSplit(i, width, height);
    assert stride >= 1;
    MulMono(0, y, stride);
    MulMono(x + 1, width, bits);
    MulMono(y + 1, height, stride);
    assert stride * y + stride == stride * (y + 1);
  }

  /**
   * Bit position of sample `i` in the plane: its row `i / width` starts at
   * byte `stride * (i / width)`, its column `i % width` at bit
   * `bits * (i % width)` of that row. The whole field lies inside the plane.
   */
  function SampleStart(bits: nat, plane: seq<Byte>, i: int, stride: int, width: int, height: int): (s: nat)
    requires PlaneHolds(bits, plane, stride, width, height) && 0 <= i < width * height
    ensures s + bits <= 8 * |plane|
  {
    SampleInPlane(bits, plane, stride, width, height, i);
    8 * (stride * (i / width)) + bits * (i % width)
  }

  /* ---------------------------------------------------------------------- */
  /* getBitIntegerArray                                                      */
  /* ---------------------------------------------------------------------- */

  /** The `bits`-bit field at bit `s`, scaled to [0, 1] by `2^bits - 1`. */
  function IntegerSample(plane: seq<Byte>, s: nat, bits: nat): (r: real)
    requires bits >= 1 && s + bits <= 8 * |plane|
    ensures 0.0 <= r <= 1.0
    ensures r == 0.0 <==> BitsAt(plane, s, bits) == 0
    ensures r == 1.0 <==> BitsAt(plane, s, bits) == Pow2(bits) - 1
  {
    BitsBound(plane, s, bits);
    RatioBounds(BitsAt(plane, s, bits), Pow2(bits) - 1);
    BitsAt(plane, s, bits) as real / (Pow2(bits) - 1) as real
  }

  /**
   * The tail loop of `getBitIntegerArray` (and its closing `if`): starting
   * at byte `pos` with `remain` bits still to add, each whole byte is added
   * shifted left by `remain - 8`, then the first `remain` bits of the next
   * byte. The result is `val` plus the `remain`-bit field at byte `pos`; a
   * `remain` of 0 or less adds nothing.
   */
  method AccumulateTail(plane: seq<Byte>, val: int, pos: int, remain: int) returns (v: int)
    requires 0 <= pos && (remain > 0 ==> 8 * pos + remain <= 8 * |plane|)
    ensures remain > 0 ==> v == val + BitsAt(plane, 8 * pos, remain)
    ensures remain <= 0 ==> v == val
  {
    v := val;
    var p := pos;
    var rem := remain;
    ghost var done := 0;
    while rem >= 8
      invariant remain <= 0 ==> rem == remain && v == val
      invariant remain > 0 ==> 0 <= rem && done == remain - rem && 8 * p == 8 * pos + done
      invariant remain > 0 ==> v == val + BitsAt(plane, 8 * pos, done) * Pow2(rem)
      decreases rem
    {
      TailStep(plane, pos, done, rem, p);
      v := v + plane[p] as int * Pow2(rem - 8);
      rem := rem - 8;
      p := p + 1;
      done := done + 8;
    }
    if remain > 0 {
      BitsSplit(plane, 8 * pos, done, rem, 8 * p, remain);
    }
    if rem > 0 {
      HighBits(plane, p, rem);
      v := v + plane[p] as int / Pow2(8 - rem);
    }
  }

  /** One whole byte of the tail: the field grows by 8 bits and the shift shrinks by 8. */
  lemma TailStep(plane: seq<Byte>, pos: int, done: nat, rem: int, p: int)
    requires 0 <= pos && 8 <= rem && 8 * p == 8 * pos + done && 8 * pos + done + rem <= 8 * |plane|
    ensures 0 <= p < |plane|
    ensures BitsAt(plane, 8 * pos, done) * Pow2(rem) + plane[p] as int * Pow2(rem - 8)
         == BitsAt(plane, 8 * pos, done + 8) * Pow2(rem - 8)
  {
    BitsSplit(plane, 8 * pos, done, 8, 8 * p, done + 8);
    FullByte(plane, p);
    Pow2Byte();
    Pow2Split(rem, 8);
    ShiftByte(BitsAt(plane, 8 * pos, done), plane[p] as int, Pow2(8), Pow2(rem - 8), Pow2(rem),
              BitsAt(plane, 8 * pos, done + 8));
  }

  /** Appending byte `c` to `a` and shifting by `q`: `a << (8 + log q)` plus `c << log q`. */
  lemma ShiftByte(a: int, c: int, p8: int, q: int, pq: int, f: int)
    requires p8 == 256 && f == a * p8 + c && pq == p8 * q
    ensures a * pq + c * q == f * q
  {
    MulAssoc(a, p8, q);
    MulDistrib(a * p8, c, q);
  }

  /** Where the first byte of sample `i` starts: byte `stride * y + bits * x / 8`, bit `bits * x % 8`. */
  lemma FirstByte(bits: nat, plane: seq<Byte>, i: int, stride: int, width: int, height: int)
    requires PlaneHolds(bits, plane, stride, width, height) && 0 <= i < width * height
    ensures var s := SampleStart(bits, plane, i, stride, width, height);
            s / 8 == stride * (i / width) + bits * (i % width) / 8 && s % 8 == bits * (i % width) % 8
  {
    SampleInPlane(bits, plane, stride, width, height, i);
    DivAddMultiple(stride * (i / width), bits * (i % width));
  }

  /**
   * `getBitIntegerArray<bits>` with the number of bits left after the first
   * byte taken as `bits - 8 + bitoffset`: sample `i` is the `bits`-bit field
   * of its row, most significant bit first, scaled to [0, 1].
   */
  method GetBitIntegerArray(plane: seq<Byte>, i: int, stride: int, width: int, height: int, bits: nat) returns (r: real)
    requires PlaneHolds(bits, plane, stride, width, height) && 0 <= i < width * height
    ensures r == IntegerSample(plane, SampleStart(bits, plane, i, stride, width, height), bits)
  {
    ghost var s := SampleStart(bits, plane, i, stride, width, height);
    FirstByte(bits, plane, i, stride, width, height);
    var x := i % width;
    var y := i / width;
    var bitoffset := (bits * x) % 8;
    var p := stride * y + (bits * x) / 8;
    LowBitsAt(plane, s, p, bitoffset);
    var val := (plane[p] as int % Pow2(8 - bitoffset)) * Pow2(bits - 8 + bitoffset);
    p := p + 1;
    var remain := bits - 8 + bitoffset;
    val := AccumulateTail(plane, val, p, remain);
    BitsSplit(plane, s, 8 - bitoffset, remain, 8 * p, bits);
    r := val as real / (Pow2(bits) - 1) as real;
  }

  /**
   * The raw integer `getBitIntegerArray` computes as written, where the bits
   * left after the first byte are `bits - bitoffset - 8`: the first byte's
   * last `8 - off` bits shifted into place, plus a tail of only
   * `bits - off - 8` bits, added unshifted.
   */
  function AsWrittenRaw(plane: seq<Byte>, s: nat, bits: nat): (v: int)
    requires bits >= 8 && s + bits <= 8 * |plane|
  {
    AsWrittenFrom(plane, s / 8, s % 8, bits)
  }

  /** `AsWrittenRaw` for a sample whose first byte is `p` and whose bit offset in it is `off`. */
  function AsWrittenFrom(plane: seq<Byte>, p: nat, off: nat, bits: nat): int
    requires bits >= 8 && off < 8 && 8 * p + off + bits <= 8 * |plane|
  {
    var tail := bits - off - 8;
    (plane[p] as int % Pow2(8 - off)) * Pow2(bits - 8 + off) + (if tail > 0 then BitsAt(plane, 8 * (p + 1), tail) else 0)
  }

  /** `getBitIntegerArray<bits>` exactly as written (see `AsWrittenRaw`). */
  method GetBitIntegerArrayAsWritten(plane: seq<Byte>, i: int, stride: int, width: int, height: int, bits: nat)
    returns (r: real)
    requires PlaneHolds(bits, plane, stride, width, height) && 0 <= i < width * height
    ensures r == AsWrittenRaw(plane, SampleStart(bits, plane, i, stride, width, height), bits) as real / (Pow2(bits) - 1) as real
  {
    ghost var s := SampleStart(bits, plane, i, stride, width, height);
    FirstByte(bits, plane, i, stride, width, height);
    var x := i % width;
    var y := i / width;
    var bitoffset := (bits * x) % 8;
    var p := stride * y + (bits * x) / 8;
    var val := (plane[p] as int % Pow2(8 - bitoffset)) * Pow2(bits - 8 + bitoffset);
    p := p + 1;
    var remain := bits - bitoffset - 8;
    val := AccumulateTail(plane, val, p, remain);
    r := val as real / (Pow2(bits) - 1) as real;
  }

  /** On a byte-aligned sample the two counts of remaining bits agree, and the as-written value is the field. */
  lemma AsWrittenAligned(plane: seq<Byte>, s: nat, bits: nat)
    requires bits >= 8 && s + bits <= 8 * |plane| && s % 8 == 0
    ensures AsWrittenRaw(plane, s, bits) == BitsAt(plane, s, bits)
  {
    var p := s / 8;
    var c := plane[p] as int;
    assert s == 8 * p;
    assert AsWrittenRaw(plane, s, bits) == AsWrittenFrom(plane, p, 0, bits);
    Pow2Byte();
    ModSmall(c, 256);
    FullByteAt(plane, s, p);
    BitsSplit(plane, s, 8, bits - 8, 8 * (p + 1), bits);
  }

  /** Whole-byte depths (8 and 16 bits) never leave byte alignment, so the as-written unpacker is exact for them. */
  lemma AsWrittenExactForWholeBytes(plane: seq<Byte>, i: int, stride: int, width: int, height: int, bits: nat)
    requires PlaneHolds(bits, plane, stride, width, height) && 0 <= i < width * height && bits % 8 == 0
    ensures AsWrittenRaw(plane, SampleStart(bits, plane, i, stride, width, height), bits)
         == BitsAt(plane, SampleStart(bits, plane, i, stride, width, height), bits)
  {
    FirstByte(bits, plane, i, stride, width, height);
    var x := i % width;
    var k := bits / 8;
    assert bits * x == 8 * (k * x) by {
      MulAssoc(8, k, x);
    }
    DivAddMultiple(k * x, 0);
    AsWrittenAligned(plane, SampleStart(bits, plane, i, stride, width, height), bits);
  }

  /**
   * A 10-bit field starting two bits into byte `p` ends four bits into byte
   * `p + 1`. As written, the unpacker stops after byte `p` and so drops those
   * four bits, the top of byte `p + 1`: whenever that byte is 16 or more the
   * value read is too small.
   */
  lemma AsWrittenOffsetTwo(plane: seq<Byte>, s: nat)
    requires s % 8 == 2 && s + 10 <= 8 * |plane|
    ensures s / 8 + 1 < |plane|
    ensures AsWrittenRaw(plane, s, 10) + plane[s / 8 + 1] as int / 16 == BitsAt(plane, s, 10)
  {
    var p := s / 8;
    assert s == 8 * p + 2;
    assert AsWrittenRaw(plane, s, 10) == AsWrittenFrom(plane, p, 2, 10);
    LowBitsAt(plane, s, p, 2);
    HighBits(plane, p + 1, 4);
    BitsSplit(plane, s, 6, 4, 8 * (p + 1), 10);
    assert Pow2(4) == 16;
  }

  /**
   * In every 10-bit plane the sample in column 1 starts two bits into its
   * second byte (bit 10 of the row), so the as-written unpacker loses the
   * top four bits of the byte after it. With row bytes 0, 0, 255 the sample
   * is 15 and is read as 0.
   */
  lemma AsWrittenLosesLowBits(plane: seq<Byte>, i: int, stride: int, width: int, height: int)
    requires PlaneHolds(10, plane, stride, width, height) && 0 <= i < width * height && i % width == 1
    ensures SampleStart(10, plane, i, stride, width, height) % 8 == 2
    ensures SampleStart(10, plane, i, stride, width, height) / 8 + 1 < |plane|
    ensures AsWrittenRaw(plane, SampleStart(10, plane, i, stride, width, height), 10)
            + plane[SampleStart(10, plane, i, stride, width, height) / 8 + 1] as int / 16
         == BitsAt(plane, SampleStart(10, plane, i, stride, width, height), 10)
  {
    FirstByte(10, plane, i, stride, width, height);
    AsWrittenOffsetTwo(plane, SampleStart(10, plane, i, stride, width, height));
  }

  /* ---------------------------------------------------------------------- */
  /* PickValue                                                               */
  /* ---------------------------------------------------------------------- */

  /**
   * `PickValue<T>`: sample `i` of the plane, in row `i / width` and column
   * `i % width`. Single and half precision samples are the 4 or 2 bytes of
   * element `column` of the row, decoded by `dec`; integer samples are their
   * bit field scaled to [0, 1].
   */
  function Sample(t: SampleType, plane: seq<Byte>, i: int, stride: int, width: int, height: int, dec: FloatDecoders): (r: real)
    requires PlaneFits(t, plane, stride, width, height) && 0 <= i < width * height
    ensures IsInteger(t) ==> 0.0 <= r <= 1.0
  {
    SampleInPlane(SampleBits(t), plane, stride, width, height, i);
    var line, column := i / width, i % width;
    match t
    case ColorFloat => dec.single(plane[stride * line + 4 * column .. stride * line + 4 * column + 4])
    case ColorHalf => dec.half(plane[stride * line + 2 * column .. stride * line + 2 * column + 2])
    case _ => IntegerSample(plane, SampleStart(SampleBits(t), plane, i, stride, width, height), SampleBits(t))
  }

  /** `PickValue<T>`: the integer depths run `getBitIntegerArray`. */
  method PickValue(t: SampleType, plane: seq<Byte>, i: int, stride: int, width: int, height: int, dec: FloatDecoders)
    returns (r: real)
    requires PlaneFits(t, plane, stride, width, height) && 0 <= i < width * height
    ensures r == Sample(t, plane, i, stride, width, height, dec)
  {
    if IsInteger(t) {
      r := GetBitIntegerArray(plane, i, stride, width, height, SampleBits(t));
    } else {
      r := Sample(t, plane, i, stride, width, height, dec);
    }
  }

  /** An 8-bit sample is byte `column` of its row over 255. */
  lemma EightBitSample(plane: seq<Byte>, i: int, stride: int, width: int, height: int, dec: FloatDecoders)
    requires PlaneFits(Color8Bit, plane, stride, width, height) && 0 <= i < width * height
    ensures 0 <= stride * (i / width) + i % width < |plane|
    ensures Sample(Color8Bit, plane, i, stride, width, height, dec) == plane[stride * (i / width) + i % width] as real / 255.0
  {
    SampleInPlane(8, plane, stride, width, height, i);
    var p := stride * (i / width) + i % width;
    assert SampleStart(8, plane, i, stride, width, height) == 8 * p;
    FullByte(plane, p);
    Pow2Byte();
  }

  /** A 16-bit sample is bytes `2 * column` (high) and `2 * column + 1` (low) of its row over 65535. */
  lemma SixteenBitSample(plane: seq<Byte>, i: int, stride: int, width: int, height: int, dec: FloatDecoders)
    requires PlaneFits(Color16Bit, plane, stride, width, height) && 0 <= i < width * height
    ensures 0 <= stride * (i / width) + 2 * (i % width) && stride * (i / width) + 2 * (i % width) + 1 < |plane|
    ensures var p := stride * (i / width) + 2 * (i % width);
            Sample(Color16Bit, plane, i, stride, width, height, dec) == (256 * plane[p] as int + plane[p + 1] as int) as real / 65535.0
  {
    SampleInPlane(16, plane, stride, width, height, i);
    var p := stride * (i / width) + 2 * (i % width);
    assert SampleStart(16, plane, i, stride, width, height) == 8 * p;
    BitsSplit(plane, 8 * p, 8, 8, 8 * (p + 1), 16);
    FullByte(plane, p);
    FullByte(plane, p + 1);
    Pow2Byte();
    Pow2Add(8, 8);
    assert Pow2(16) == 65536;
    assert BitsAt(plane, 8 * p, 16) == 256 * plane[p] as int + plane[p + 1] as int;
  }

  /**
   * An integer sample reads only the bytes it overlaps: row offsets
   * `bits * column / 8` to `(bits * column + bits - 1) / 8`.
   */
  lemma SampleReadsOnlyItsBytes(t: SampleType, a: seq<Byte>, b: seq<Byte>, i: int, stride: int, width: int, height: int,
                                dec: FloatDecoders)
    requires IsInteger(t) && PlaneFits(t, a, stride, width, height) && PlaneFits(t, b, stride, width, height)
    requires 0 <= i < width * height
    requires forall k :: stride * (i / width) + SampleBits(t) * (i % width) / 8 <= k
                           <= stride * (i / width) + (SampleBits(t) * (i % width) + SampleBits(t) - 1) / 8 ==>
               0 <= k < |a| && 0 <= k < |b| && a[k] == b[k]
    ensures Sample(t, a, i, stride, width, height, dec) == Sample(t, b, i, stride, width, height, dec)
  {
    var bits := SampleBits(t);
    var s := SampleStart(bits, a, i, stride, width, height);
    assert s == SampleStart(bits, b, i, stride, width, height);
    SampleInPlane(bits, a, stride, width, height, i);
    var row, c := stride * (i / width), bits * (i % width);
    DivAddMultiple(row, c);
    DivAddMultiple(row, c + bits - 1);
    BitsReadOnly(a, b, s, bits);
  }

  /* ---------------------------------------------------------------------- */
  /* convertToFloatPlane and its switch                                      */
  /* ---------------------------------------------------------------------- */

  /** `convertToFloatPlane<T>`: one work-item per sample writes `output_plane[x]`; nothing past `width * height` changes. */
  method ConvertToFloatPlane(out: array<real>, t: SampleType, plane: seq<Byte>, stride: int, width: int, height: int,
                             dec: FloatDecoders)
    requires PlaneFits(t, plane, stride, width, height) && width * height <= out.Length
    modifies out
    ensures forall x :: 0 <= x < width * height ==> out[x] == Sample(t, plane, x, stride, width, height, dec)
    ensures forall x :: width * height <= x < out.Length ==> out[x] == old(out[x])
  {
    var total := width * height;
    var x := 0;
    while x < total
      invariant 0 <= x <= total
      invariant forall j :: 0 <= j < x ==> out[j] == Sample(t, plane, j, stride, width, height, dec)
      invariant forall j :: total <= j < out.Length ==> out[j] == old(out[j])
    {
      out[x] := PickValue(t, plane, x, stride, width, height, dec);
      x := x + 1;
    }
  }

  /** The `Sample_Type` with enum value `code`, for the eight listed values. */
  function SampleTypeOf(code: int): (t: SampleType)
    requires 0 <= code < 8
  {
    [ColorFloat, ColorHalf, Color8Bit, Color9Bit, Color10Bit, Color12Bit, Color14Bit, Color16Bit][code]
  }

  /** Enum values and constructors correspond one to one. */
  lemma SampleTypeOfInjective(c: int, d: int)
    requires 0 <= c < 8 && 0 <= d < 8 && SampleTypeOf(c) == SampleTypeOf(d)
    ensures c == d
  {
  }

  /**
   * `convertToFloatPlaneSwitch`: the conversion for the eight listed sample
   * types, reporting failure (`true`, the source's `1`) for any other value
   * of the enum, in which case the output plane is left as it was.
   */
  method ConvertToFloatPlaneSwitch(out: array<real>, plane: seq<Byte>, stride: int, width: int, height: int, code: int,
                                   dec: FloatDecoders) returns (failed: bool)
    requires 0 <= code < 8 ==> PlaneFits(SampleTypeOf(code), plane, stride, width, height) && width * height <= out.Length
    modifies out
    ensures failed <==> !(0 <= code < 8)
    ensures !failed ==> forall x :: 0 <= x < width * height ==>
              out[x] == Sample(SampleTypeOf(code), plane, x, stride, width, height, dec)
    ensures !failed ==> forall x :: width * height <= x < out.Length ==> out[x] == old(out[x])
    ensures failed ==> out[..] == old(out[..])
  {
    if 0 <= code < 8 {
      ConvertToFloatPlane(out, SampleTypeOf(code), plane, stride, width, height, dec);
      failed := false;
    } else {
      failed := true;
    }
  }
}
