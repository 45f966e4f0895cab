/** The AVX2 instructions of the ternary kernels, lane by lane, and the weights they unpack. */
module Avx2 {

  type byte = x: int | 0 <= x < 256
  type i8 = x: int | -128 <= x < 128
  type i16 = x: int | -0x8000 <= x < 0x8000
  type i32 = x: int | -0x8000_0000 <= x < 0x8000_0000

  predicate Lanes<T>(v: seq<T>, n: nat) {
    |v| == n
  }

  // ---- Bits ----

  /** Logical shift right. */
  function Shr(x: nat, k: nat): nat {
    if k == 0 then x else Shr(x / 2, k - 1)
  }

  /** Bitwise and. */
  function And(x: nat, y: nat): (r: nat)
    ensures r <= x
  {
    if x == 0 || y == 0 then 0 else (x % 2) * (y % 2) + 2 * And(x / 2, y / 2)
  }

  /** The 32-bit two's-complement value that differs from `x` by a multiple of 2^32. */
  function Wrap32(x: int): i32
    decreases if -0x8000_0000 <= x < 0x8000_0000 then 0 else if x < 0 then -x else x
  {
    if x >= 0x8000_0000 then Wrap32(x - 0x1_0000_0000)
    else if x < -0x8000_0000 then Wrap32(x + 0x1_0000_0000)
    else x
  }

  function Sat16(x: int): i16 {
    if x < -0x8000 then -0x8000 else if x > 0x7FFF then 0x7FFF else x
  }

  function Signed(b: byte): i8 {
    if b < 128 then b else b - 256
  }

  // ---- Instructions ----

  /** `_mm256_set1_epi64x` of 8 bytes read from memory */
  function Broadcast8(p: seq<byte>): seq<byte>
    requires Lanes(p, 8)
  {
    seq(32, i requires 0 <= i < 32 => p[i % 8])
  }

  /** `_mm256_set1_epi8` */
  function Set1Epi8(b: byte): seq<byte> {
    seq(32, i requires 0 <= i < 32 => b)
  }

  /** `_mm256_set1_epi16` */
  function Set1Epi16(x: i16): (r: seq<i16>)
    ensures Lanes(r, 16) && forall i :: 0 <= i < 16 ==> r[i] == x
  {
    seq(16, i requires 0 <= i < 16 => x)
  }

  /** `_mm256_set1_epi32` of a word given by its value */
  function Set1Epi32(x: nat): seq<byte> {
    seq(32, i requires 0 <= i < 32 => ByteOf(x, i % 4))
  }

  /** `_mm256_and_si256` */
  function AndSi256(a: seq<byte>, b: seq<byte>): (r: seq<byte>)
    requires Lanes(a, 32) && Lanes(b, 32)
    ensures Lanes(r, 32) && forall i :: 0 <= i < 32 ==> r[i] == And(a[i], b[i])
  {
    seq(32, i requires 0 <= i < 32 => And(a[i], b[i]))
  }

  /** A 16-bit and a 32-bit word from its bytes, the lowest first. */
  function Join16(lo: nat, hi: nat): nat {
    lo + 0x100 * hi
  }

  function Join32(a: nat, b: nat, c: nat, d: nat): nat {
    a + 0x100 * b + 0x1_0000 * c + 0x100_0000 * d
  }

  function Word16(v: seq<byte>, j: nat): nat
    requires Lanes(v, 32) && j < 16
  {
    Join16(v[2 * j], v[2 * j + 1])
  }

  function Word32(v: seq<byte>, j: nat): nat
    requires Lanes(v, 32) && j < 8
  {
    Join32(v[4 * j], v[4 * j + 1], v[4 * j + 2], v[4 * j + 3])
  }

  /** `_mm256_srli_epi16`: the bytes of every 16-bit lane shifted right */
  function SrliEpi16(v: seq<byte>, k: nat): (r: seq<byte>)
    requires Lanes(v, 32)
    ensures Lanes(r, 32)
    ensures forall i :: 0 <= i < 32 ==> r[i] == ByteOf(Shr(Word16(v, i / 2), k), i % 2)
  {
    seq(32, i requires 0 <= i < 32 => ByteOf(Shr(Word16(v, i / 2), k), i % 2))
  }

  /** `_mm256_srli_epi32`: the bytes of every 32-bit lane shifted right */
  function SrliEpi32(v: seq<byte>, k: nat): (r: seq<byte>)
    requires Lanes(v, 32)
    ensures Lanes(r, 32)
    ensures forall i :: 0 <= i < 32 ==> r[i] == ByteOf(Shr(Word32(v, i / 4), k), i % 4)
  {
    seq(32, i requires 0 <= i < 32 => ByteOf(Shr(Word32(v, i / 4), k), i % 4))
  }

  /** Byte `m` of a word, the lowest first. */
  function ByteOf(x: nat, m: nat): byte
    requires m < 4
  {
    if m == 0 then x % 0x100
    else if m == 1 then x / 0x100 % 0x100
    else if m == 2 then x / 0x1_0000 % 0x100
    else x / 0x100_0000 % 0x100
  }

  /** `_mm256_unpacklo_epi8`: interleave the low 8 bytes of each 128-bit half */
  function UnpackLoEpi8(a: seq<byte>, b: seq<byte>): (r: seq<byte>)
    requires Lanes(a, 32) && Lanes(b, 32)
    ensures Lanes(r, 32)
    ensures forall i :: 0 <= i < 32 ==>
              r[i] == if i % 2 == 0 then a[16 * (i / 16) + i % 16 / 2] else b[16 * (i / 16) + i % 16 / 2]
  {
    seq(32, i requires 0 <= i < 32 =>
      var k := 16 * (i / 16) + i % 16 / 2;
      if i % 2 == 0 then a[k] else b[k])
  }

  /** `_mm256_unpacklo_epi16`: interleave the low 4 byte pairs of each 128-bit half */
  function UnpackLoEpi16(a: seq<byte>, b: seq<byte>): (r: seq<byte>)
    requires Lanes(a, 32) && Lanes(b, 32)
    ensures Lanes(r, 32)
    ensures forall i :: 0 <= i < 32 ==>
              var k := 16 * (i / 16) + 2 * (i % 16 / 4) + i % 2;
              r[i] == if i % 4 < 2 then a[k] else b[k]
  {
    seq(32, i requires 0 <= i < 32 =>
      var k := 16 * (i / 16) + 2 * (i % 16 / 4) + i % 2;
      if i % 4 < 2 then a[k] else b[k])
  }

  function PairSum(x0: int, y0: int, x1: int, y1: int): int {
    x0 * y0 + x1 * y1
  }

  /** `_mm256_maddubs_epi16`: unsigned times signed bytes, neighbours added with saturation */
  function MaddubsEpi16(w: seq<byte>, a: seq<i8>): (r: seq<i16>)
    requires Lanes(w, 32) && Lanes(a, 32)
    ensures Lanes(r, 16)
    ensures forall i :: 0 <= i < 16 ==> r[i] == Sat16(PairSum(w[2 * i], a[2 * i], w[2 * i + 1], a[2 * i + 1]))
  {
    seq(16, i requires 0 <= i < 16 => Sat16(PairSum(w[2 * i], a[2 * i], w[2 * i + 1], a[2 * i + 1])))
  }

  /** `_mm256_madd_epi16`: signed words, neighbours added */
  function MaddEpi16(x: seq<i16>, y: seq<i16>): (r: seq<i32>)
    requires Lanes(x, 16) && Lanes(y, 16)
    ensures Lanes(r, 8)
    ensures forall i :: 0 <= i < 8 ==> r[i] == Wrap32(PairSum(x[2 * i], y[2 * i], x[2 * i + 1], y[2 * i + 1]))
  {
    seq(8, i requires 0 <= i < 8 => Wrap32(PairSum(x[2 * i], y[2 * i], x[2 * i + 1], y[2 * i + 1])))
  }

  function Sum(x: int, y: int): int {
    x + y
  }

  /** `_mm256_add_epi32` */
  function AddEpi32(x: seq<i32>, y: seq<i32>): (r: seq<i32>)
    requires Lanes(x, 8) && Lanes(y, 8)
    ensures Lanes(r, 8) && forall i :: 0 <= i < 8 ==> r[i] == Wrap32(Sum(x[i], y[i]))
  {
    seq(8, i requires 0 <= i < 8 => Wrap32(Sum(x[i], y[i])))
  }

  /** `_mm256_cvtepi8_epi16` of one half of the unpacked weights */
  function WidenBytes(v: seq<byte>): (r: seq<i16>)
    requires Lanes(v, 16)
    ensures Lanes(r, 16) && forall i :: 0 <= i < 16 ==> r[i] == Signed(v[i])
  {
    seq(16, i requires 0 <= i < 16 => Signed(v[i]))
  }

  /** `_mm256_cvtepi8_epi16` of one half of the activations */
  function WidenSigned(v: seq<i8>): (r: seq<i16>)
    requires Lanes(v, 16)
    ensures Lanes(r, 16) && forall i :: 0 <= i < 16 ==> r[i] == v[i]
  {
    seq(16, i requires 0 <= i < 16 => v[i])
  }

  // ---- The weight fields ----

  /** The 2-bit field `f` of a byte. */
  function Field(b: byte, f: nat): (r: nat)
    requires f < 4
    ensures r < 4
  {
    Shr(b, 2 * f) % 4
  }

  lemma MaskIsMod4(x: nat)
    ensures And(x, 3) == x % 4
  {
    assert And(x / 2 / 2, 0) == 0;
    assert And(x / 2, 1) == x / 2 % 2;
  }

  lemma Shifts(x: nat)
    ensures Shr(x, 0) == x && Shr(x, 2) == x / 4 && Shr(x, 4) == x / 16 && Shr(x, 6) == x / 64
  {
    ShiftTwo(x, 0);
    ShiftTwo(x, 2);
    ShiftTwo(x / 4, 0);
    ShiftTwo(x, 4);
    ShiftTwo(x / 4, 2);
    ShiftTwo(x / 16, 0);
  }

  lemma ShiftTwo(x: nat, k: nat)
    ensures Shr(x, k + 2) == Shr(x / 4, k)
  {
    assert Shr(x, k + 2) == Shr(x / 2, k + 1) == Shr(x / 2 / 2, k);
  }

  /** The kernels' masks are 3 in every byte. */
  lemma Masks()
    ensures Set1Epi32(0x03030303) == Set1Epi8(3)
  {
    forall i | 0 <= i < 32 ensures ByteOf(0x03030303, i % 4) == 3 { }
  }

  /** Shifting 16-bit lanes and masking picks the same field of every byte as shifting the bytes
      alone would. */
  lemma Shift16Field(v: seq<byte>, f: nat, i: nat)
    requires Lanes(v, 32) && f < 4 && i < 32
    ensures And(SrliEpi16(v, 2 * f)[i], 3) == Field(v[i], f)
  {
    var j, k := i / 2, i % 2;
    assert i == 2 * j + k;
    MaskIsMod4(SrliEpi16(v, 2 * f)[i]);
    Word16Field(v, j, k, f);
  }

  lemma Word16Field(v: seq<byte>, j: nat, k: nat, f: nat)
    requires Lanes(v, 32) && j < 16 && k < 2 && f < 4
    ensures ByteOf(Shr(Word16(v, j), 2 * f), k) % 4 == Field(v[2 * j + k], f)
  {
    Word16Bytes(v[2 * j], v[2 * j + 1], f);
  }

  lemma Word16Bytes(lo: byte, hi: byte, f: nat)
    requires f < 4
    ensures ByteOf(Shr(Join16(lo, hi), 2 * f), 0) % 4 == Field(lo, f)
    ensures ByteOf(Shr(Join16(lo, hi), 2 * f), 1) % 4 == Field(hi, f)
  {
    LowField(lo, hi, f);
    HighField(lo, hi, f);
    ModMod(Shr(hi, 2 * f));
  }

  lemma ModMod(x: nat)
    ensures x % 0x100 % 4 == x % 4
  {
    var q, r := x / 0x100, x % 0x100;
    assert x == r + 4 * (0x40 * q);
    ModShift(r, 0x40 * q);
  }

  lemma ModShift(x: nat, m: nat)
    ensures (x + 4 * m) % 4 == x % 4
  {
  }

  /** Fields of the low byte and of the rest of a word `lo + 256 * rest`. */
  lemma LowField(lo: byte, rest: nat, f: nat)
    requires f < 4
    ensures Shr(lo + 0x100 * rest, 2 * f) % 0x100 % 4 == Field(lo, f)
  {
    var x := lo + 0x100 * rest;
    ModMod(Shr(x, 2 * f));
    Shifts(x);
    Shifts(lo);
    if f == 0 {
      ModShift(lo, 0x40 * rest);
    } else if f == 1 {
      assert x / 4 == lo / 4 + 4 * (0x10 * rest);
      ModShift(lo / 4, 0x10 * rest);
    } else if f == 2 {
      assert x / 16 == lo / 16 + 4 * (4 * rest);
      ModShift(lo / 16, 4 * rest);
    } else {
      assert x / 64 == lo / 64 + 4 * rest;
      ModShift(lo / 64, rest);
    }
  }

  lemma HighField(lo: byte, rest: nat, f: nat)
    requires f < 4
    ensures Shr(lo + 0x100 * rest, 2 * f) / 0x100 == Shr(rest, 2 * f)
  {
    var x := lo + 0x100 * rest;
    Shifts(x);
    Shifts(rest);
    if f == 1 {
      assert x / 4 / 0x100 == x / 0x100 / 4;
    } else if f == 2 {
      assert x / 16 / 0x100 == x / 0x100 / 16;
    } else if f == 3 {
      assert x / 64 / 0x100 == x / 0x100 / 64;
    }
  }

  lemma Shift32Field(v: seq<byte>, f: nat, i: nat)
    requires Lanes(v, 32) && f < 4 && i < 32
    ensures And(SrliEpi32(v, 2 * f)[i], 3) == Field(v[i], f)
  {
    var j, k := i / 4, i % 4;
    assert i == 4 * j + k;
    MaskIsMod4(SrliEpi32(v, 2 * f)[i]);
    Word32Field(v, j, k, f);
  }

  lemma Word32Field(v: seq<byte>, j: nat, k: nat, f: nat)
    requires Lanes(v, 32) && j < 8 && k < 4 && f < 4
    ensures ByteOf(Shr(Word32(v, j), 2 * f), k) % 4 == Field(v[4 * j + k], f)
  {
    Word32Bytes(v[4 * j], v[4 * j + 1], v[4 * j + 2], v[4 * j + 3], f);
  }

  lemma Word32Bytes(a: byte, b: byte, c: byte, d: byte, f: nat)
    requires f < 4
    ensures var x := Shr(Join32(a, b, c, d), 2 * f);
            && ByteOf(x, 0) % 4 == Field(a, f) && ByteOf(x, 1) % 4 == Field(b, f)
            && ByteOf(x, 2) % 4 == Field(c, f) && ByteOf(x, 3) % 4 == Field(d, f)
  {
    var x := Shr(Join32(a, b, c, d), 2 * f);
    var bcd, cd := b + 0x100 * c + 0x1_0000 * d, c + 0x100 * d;
    LowField(a, bcd, f);
    HighField(a, bcd, f);
    LowField(b, cd, f);
    HighField(b, cd, f);
    LowField(c, d, f);
    HighField(c, d, f);
    ModMod(Shr(d, 2 * f));
    assert x / 0x1_0000 == x / 0x100 / 0x100;
    assert x / 0x100_0000 == x / 0x100 / 0x100 / 0x100;
  }

  // ---- The unpacked weights ----

  function Interleave(idx0: seq<byte>, idx1: seq<byte>, idx2: seq<byte>, idx3: seq<byte>): (r: seq<byte>)
    requires Lanes(idx0, 32) && Lanes(idx1, 32) && Lanes(idx2, 32) && Lanes(idx3, 32)
    ensures Lanes(r, 32)
  {
    UnpackLoEpi16(UnpackLoEpi8(idx0, idx1), UnpackLoEpi8(idx2, idx3))
  }

  /** The unpack with 16-bit shifts. */
  function Unpack16(p: seq<byte>): (r: seq<byte>)
    requires Lanes(p, 8)
    ensures Lanes(r, 32)
  {
    var v, mask := Broadcast8(p), Set1Epi8(3);
    Interleave(AndSi256(v, mask), AndSi256(SrliEpi16(v, 2), mask),
               AndSi256(SrliEpi16(v, 4), mask), AndSi256(SrliEpi16(v, 6), mask))
  }

  /** The unpack with 32-bit shifts. */
  function Unpack32(p: seq<byte>): (r: seq<byte>)
    requires Lanes(p, 8)
    ensures Lanes(r, 32)
  {
    var v, mask := Broadcast8(p), Set1Epi32(0x03030303);
    Interleave(AndSi256(v, mask), AndSi256(SrliEpi32(v, 2), mask),
               AndSi256(SrliEpi32(v, 4), mask), AndSi256(SrliEpi32(v, 6), mask))
  }

  lemma InterleaveAt(i0: seq<byte>, i1: seq<byte>, i2: seq<byte>, i3: seq<byte>, e: nat)
    requires Lanes(i0, 32) && Lanes(i1, 32) && Lanes(i2, 32) && Lanes(i3, 32) && e < 32
    ensures var k := 16 * (e / 16) + e % 16 / 4;
            && k < 32
            && Interleave(i0, i1, i2, i3)[e] ==
                 if e % 4 == 0 then i0[k] else if e % 4 == 1 then i1[k] else if e % 4 == 2 then i2[k] else i3[k]
  {
    var a, b := UnpackLoEpi8(i0, i1), UnpackLoEpi8(i2, i3);
    var m := 16 * (e / 16) + 2 * (e % 16 / 4) + e % 2;
    assert UnpackLoEpi16(a, b)[e] == if e % 4 < 2 then a[m] else b[m];
    assert m / 16 == e / 16 && m % 16 / 2 == e % 16 / 4 && m % 2 == e % 2;
  }

  /** Both unpacks give element `e` the 2-bit field `e % 4` of packed byte `e % 16 / 4`: each half
      uses the first four of the eight packed bytes. */
  lemma UnpackedWeight(p: seq<byte>, e: nat)
    requires Lanes(p, 8) && e < 32
    ensures Unpack16(p)[e] == Field(p[e % 16 / 4], e % 4)
    ensures Unpack32(p)[e] == Field(p[e % 16 / 4], e % 4)
  {
    var v, mask := Broadcast8(p), Set1Epi8(3);
    var k := LaneIndex(e);
    LaneIndexOf(e);
    Masks();
    Fields16(v, k);
    Fields32(v, k);
    PickField(AndSi256(v, mask), AndSi256(SrliEpi16(v, 2), mask),
              AndSi256(SrliEpi16(v, 4), mask), AndSi256(SrliEpi16(v, 6), mask), v[k], e);
    PickField(AndSi256(v, mask), AndSi256(SrliEpi32(v, 2), mask),
              AndSi256(SrliEpi32(v, 4), mask), AndSi256(SrliEpi32(v, 6), mask), v[k], e);
  }

  /** The byte of a vector whose fields the unpack gives to element `e`. */
  function LaneIndex(e: nat): nat {
    16 * (e / 16) + e % 16 / 4
  }

  lemma LaneIndexOf(e: nat)
    requires e < 32
    ensures LaneIndex(e) < 32 && LaneIndex(e) % 8 == e % 16 / 4
  {
    assert e / 16 == 0 || e / 16 == 1;
  }

  lemma PickField(i0: seq<byte>, i1: seq<byte>, i2: seq<byte>, i3: seq<byte>, b: byte, e: nat)
    requires Lanes(i0, 32) && Lanes(i1, 32) && Lanes(i2, 32) && Lanes(i3, 32) && e < 32 && LaneIndex(e) < 32
    requires var k := LaneIndex(e);
             i0[k] == Field(b, 0) && i1[k] == Field(b, 1) && i2[k] == Field(b, 2) && i3[k] == Field(b, 3)
    ensures Interleave(i0, i1, i2, i3)[e] == Field(b, e % 4)
  {
    InterleaveAt(i0, i1, i2, i3, e);
  }

  lemma Fields16(v: seq<byte>, k: nat)
    requires Lanes(v, 32) && k < 32
    ensures And(v[k], 3) == Field(v[k], 0) && And(SrliEpi16(v, 2)[k], 3) == Field(v[k], 1)
    ensures And(SrliEpi16(v, 4)[k], 3) == Field(v[k], 2) && And(SrliEpi16(v, 6)[k], 3) == Field(v[k], 3)
  {
    MaskIsMod4(v[k]);
    Shift16Field(v, 1, k);
    Shift16Field(v, 2, k);
    Shift16Field(v, 3, k);
  }

  lemma Fields32(v: seq<byte>, k: nat)
    requires Lanes(v, 32) && k < 32
    ensures And(SrliEpi32(v, 2)[k], 3) == Field(v[k], 1)
    ensures And(SrliEpi32(v, 4)[k], 3) == Field(v[k], 2) && And(SrliEpi32(v, 6)[k], 3) == Field(v[k], 3)
  {
    Shift32Field(v, 1, k);
    Shift32Field(v, 2, k);
    Shift32Field(v, 3, k);
  }
}
