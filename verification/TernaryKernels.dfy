/** The two AVX2 ternary dot-product kernels against one scalar sum. */
module TernaryKernels {
  import opened Avx2

  const SAFE_BLOCKS: nat := 1398101

  // ---- The scalar sum ----

  /** The operands cover `n` blocks: 8 packed bytes and 32 activations each. */
  predicate Fits(packed: seq<byte>, acts: seq<i8>, n: nat) {
    |packed| >= 8 * n && |acts| >= 32 * n
  }

  /** The packed byte that holds the weight the unpack selects for element `e`. */
  function ByteIndex(e: nat): nat {
    8 * (e / 32) + e % 16 / 4
  }

  function Product(w: nat, a: int): int {
    w * a
  }

  /** What the elements of `n` blocks contribute. */
  function Terms(packed: seq<byte>, acts: seq<i8>, n: nat): (r: seq<int>)
    requires Fits(packed, acts, n)
    ensures |r| == 32 * n
    ensures forall e :: 0 <= e < 32 * n ==>
              ByteIndex(e) < |packed| && r[e] == Product(Field(packed[ByteIndex(e)], e % 4), acts[e])
  {
    assert forall e :: 0 <= e < 32 * n ==> ByteIndex(e) < 8 * n by {
      forall e | 0 <= e < 32 * n ensures ByteIndex(e) < 8 * n {
        LowHalf(e, n);
      }
    }
    seq(32 * n, e requires 0 <= e < 32 * n => Product(Field(packed[ByteIndex(e)], e % 4), acts[e]))
  }

  /** Every term lies between 3 times the least and 3 times the greatest activation. */
  predicate SmallTerms(t: seq<int>) {
    forall e :: 0 <= e < |t| ==> -384 <= t[e] <= 381
  }

  lemma ProductRange(w: nat, a: int)
    requires w < 4 && -128 <= a < 128
    ensures -384 <= Product(w, a) <= 381
  {
    if w == 0 { } else if w == 1 { } else if w == 2 { } else { assert w == 3; }
  }

  lemma TermsAreSmall(packed: seq<byte>, acts: seq<i8>, n: nat)
    requires Fits(packed, acts, n)
    ensures SmallTerms(Terms(packed, acts, n))
  {
    var t := Terms(packed, acts, n);
    forall e | 0 <= e < |t| ensures -384 <= t[e] <= 381 {
      ProductRange(Field(packed[ByteIndex(e)], e % 4), acts[e]);
    }
  }

  function Dot(t: seq<int>, e: nat): int
    requires e <= |t|
  {
    if e == 0 then 0 else Dot(t, e - 1) + t[e - 1]
  }

  // ---- What a lane holds ----

  datatype Kernel = Maddubs | BitNet32

  /** Which two pairs of elements of a block end up in a lane: neighbours in the 16-bit kernel,
      one from each half in the 32-bit kernel. */
  function First(k: Kernel, lane: nat): nat {
    if k.Maddubs? then 4 * lane else 2 * lane
  }

  function Second(k: Kernel, lane: nat): nat {
    if k.Maddubs? then 4 * lane + 2 else 16 + 2 * lane
  }

  function Two(t: seq<int>, e: nat): int
    requires e + 2 <= |t|
  {
    t[e] + t[e + 1]
  }

  function LaneBlock(k: Kernel, t: seq<int>, b: nat, lane: nat): int
    requires 32 * b + 32 <= |t| && lane < 8
  {
    Two(t, 32 * b + First(k, lane)) + Two(t, 32 * b + Second(k, lane))
  }

  /** The exact sum of a lane after `b` blocks. */
  function Lane(k: Kernel, t: seq<int>, b: nat, lane: nat): int
    requires 32 * b <= |t| && lane < 8
  {
    if b == 0 then 0 else Lane(k, t, b - 1, lane) + LaneBlock(k, t, b - 1, lane)
  }

  lemma {:induction false} LaneRange(k: Kernel, t: seq<int>, b: nat, lane: nat)
    requires 32 * b <= |t| && lane < 8 && SmallTerms(t)
    ensures -1536 * b <= Lane(k, t, b, lane) <= 1524 * b
    decreases b
  {
    if b > 0 {
      LaneRange(k, t, b - 1, lane);
    }
  }

  /** The sixteen pairs of a block, from pair `i` on. */
  function PairsFrom(t: seq<int>, b: nat, i: nat): int
    requires 32 * b + 32 <= |t| && i <= 16
    decreases 16 - i, |t|
  {
    if i == 16 then 0 else Two(t, 32 * b + 2 * i) + PairsFrom(t, b, i + 1)
  }

  lemma {:induction false} DotBlock(t: seq<int>, b: nat, i: nat)
    requires 32 * b + 32 <= |t| && i <= 16
    ensures Dot(t, 32 * (b + 1)) == Dot(t, 32 * b + 2 * i) + PairsFrom(t, b, i)
    decreases 16 - i
  {
    if i < 16 {
      var e := 32 * b + 2 * i;
      assert Dot(t, e + 2) == Dot(t, e + 1) + t[e + 1];
      DotBlock(t, b, i + 1);
    }
  }

  /** The four pairs that two neighbouring lanes of the 16-bit kernel take. */
  lemma FourPairs(t: seq<int>, b: nat, i: nat)
    requires 32 * b + 32 <= |t| && i <= 12
    ensures PairsFrom(t, b, i) ==
              Two(t, 32 * b + 2 * i) + Two(t, 32 * b + (2 * i + 2))
              + Two(t, 32 * b + (2 * i + 4)) + Two(t, 32 * b + (2 * i + 6)) + PairsFrom(t, b, i + 4)
  {
    assert PairsFrom(t, b, i) == Two(t, 32 * b + 2 * i) + PairsFrom(t, b, i + 1);
    assert PairsFrom(t, b, i + 1) == Two(t, 32 * b + 2 * (i + 1)) + PairsFrom(t, b, i + 2);
    assert PairsFrom(t, b, i + 2) == Two(t, 32 * b + 2 * (i + 2)) + PairsFrom(t, b, i + 3);
    assert PairsFrom(t, b, i + 3) == Two(t, 32 * b + 2 * (i + 3)) + PairsFrom(t, b, i + 4);
  }

  function LanesFrom(k: Kernel, t: seq<int>, b: nat, lane: nat): int
    requires 32 * b <= |t| && lane <= 8
    decreases 8 - lane, |t|
  {
    if lane == 8 then 0 else Lane(k, t, b, lane) + LanesFrom(k, t, b, lane + 1)
  }

  function BlockLanesFrom(k: Kernel, t: seq<int>, b: nat, lane: nat): int
    requires 32 * b + 32 <= |t| && lane <= 8
    decreases 8 - lane, |t|
  {
    if lane == 8 then 0 else LaneBlock(k, t, b, lane) + BlockLanesFrom(k, t, b, lane + 1)
  }

  /** Each kernel puts every pair of a block into exactly one lane. */
  lemma LanesCoverBlock(k: Kernel, t: seq<int>, b: nat)
    requires 32 * b + 32 <= |t|
    ensures BlockLanesFrom(k, t, b, 0) == PairsFrom(t, b, 0)
  {
    FourPairs(t, b, 0);
    FourPairs(t, b, 4);
    FourPairs(t, b, 8);
    FourPairs(t, b, 12);
    match k
    case Maddubs => MaddubsCovers(t, b, 0);
    case BitNet32 => BitNetCovers(t, b);
  }

  lemma {:induction false} MaddubsCovers(t: seq<int>, b: nat, lane: nat)
    requires 32 * b + 32 <= |t| && lane <= 8
    ensures BlockLanesFrom(Maddubs, t, b, lane) == PairsFrom(t, b, 2 * lane)
    decreases 8 - lane
  {
    if lane < 8 {
      MaddubsCovers(t, b, lane + 1);
      assert PairsFrom(t, b, 2 * lane) == Two(t, 32 * b + 2 * (2 * lane)) + PairsFrom(t, b, 2 * lane + 1);
      assert PairsFrom(t, b, 2 * lane + 1) == Two(t, 32 * b + 2 * (2 * lane + 1)) + PairsFrom(t, b, 2 * lane + 2);
    }
  }

  /** The lower and the upper eight pairs, lane by lane. */
  lemma {:induction false} BitNetHalves(t: seq<int>, b: nat, lane: nat)
    requires 32 * b + 32 <= |t| && lane <= 8
    ensures BlockLanesFrom(BitNet32, t, b, lane)
            == PairsFrom(t, b, lane) - PairsFrom(t, b, 8) + PairsFrom(t, b, 8 + lane)
    decreases 8 - lane
  {
    if lane < 8 {
      BitNetHalves(t, b, lane + 1);
      assert PairsFrom(t, b, 8 + lane) == Two(t, 32 * b + 2 * (8 + lane)) + PairsFrom(t, b, 8 + (lane + 1));
      assert PairsFrom(t, b, lane) == Two(t, 32 * b + 2 * lane) + PairsFrom(t, b, lane + 1);
    }
  }

  lemma BitNetCovers(t: seq<int>, b: nat)
    requires 32 * b + 32 <= |t|
    ensures BlockLanesFrom(BitNet32, t, b, 0) == PairsFrom(t, b, 0)
  {
    BitNetHalves(t, b, 0);
  }

  lemma {:induction false} LanesGrow(k: Kernel, t: seq<int>, b: nat, lane: nat)
    requires 32 * b + 32 <= |t| && lane <= 8
    ensures LanesFrom(k, t, b + 1, lane) == LanesFrom(k, t, b, lane) + BlockLanesFrom(k, t, b, lane)
    decreases 8 - lane
  {
    if lane < 8 {
      LanesGrow(k, t, b, lane + 1);
    }
  }

  /** In both kernels the eight lanes together hold the scalar sum. */
  lemma {:induction false} LanesAreDot(k: Kernel, t: seq<int>, b: nat)
    requires 32 * b <= |t|
    ensures LanesFrom(k, t, b, 0) == Dot(t, 32 * b)
    decreases b
  {
    if b == 0 {
      NoBlocks(k, t, 0);
    } else {
      LanesAreDot(k, t, b - 1);
      LanesGrow(k, t, b - 1, 0);
      LanesCoverBlock(k, t, b - 1);
      DotBlock(t, b - 1, 0);
    }
  }

  lemma {:induction false} NoBlocks(k: Kernel, t: seq<int>, lane: nat)
    requires lane <= 8
    ensures LanesFrom(k, t, 0, lane) == 0
    decreases 8 - lane
  {
    if lane < 8 {
      NoBlocks(k, t, lane + 1);
    }
  }

  // ---- One block through the instructions ----

  function BlockMaddubs(w: seq<byte>, a: seq<i8>): (r: seq<i32>)
    requires Lanes(w, 32) && Lanes(a, 32)
    ensures Lanes(r, 8)
  {
    MaddEpi16(MaddubsEpi16(w, a), Set1Epi16(1))
  }

  /** The products of one half of a block in the 32-bit kernel. */
  function BlockHalf(w: seq<byte>, a: seq<i8>): (r: seq<i32>)
    requires Lanes(w, 16) && Lanes(a, 16)
    ensures Lanes(r, 8)
  {
    MaddEpi16(WidenBytes(w), WidenSigned(a))
  }

  /** The unpacked weights and activations of one block, and what its elements contribute. */
  ghost predicate IsBlock(w: seq<byte>, a: seq<i8>, t: seq<int>) {
    && Lanes(w, 32) && Lanes(a, 32) && Lanes(t, 32) && SmallTerms(t)
    && forall e :: 0 <= e < 32 ==> w[e] < 4 && t[e] == Product(w[e], a[e])
  }

  /** Nothing saturates or wraps inside a block of the 16-bit kernel. */
  lemma MaddubsLane(w: seq<byte>, a: seq<i8>, t: seq<int>, lane: nat)
    requires IsBlock(w, a, t) && lane < 8
    ensures BlockMaddubs(w, a)[lane] == LaneBlock(Maddubs, t, 0, lane)
  {
    var products := MaddubsEpi16(w, a);
    var i, j := 2 * lane, 2 * lane + 1;
    MaddubsPair(w, a, t, i);
    MaddubsPair(w, a, t, j);
    assert PairSum(products[i], 1, products[j], 1) == products[i] + products[j];
  }

  lemma MaddubsPair(w: seq<byte>, a: seq<i8>, t: seq<int>, i: nat)
    requires IsBlock(w, a, t) && i < 16
    ensures MaddubsEpi16(w, a)[i] == Two(t, 2 * i)
  {
    assert t[2 * i] == Product(w[2 * i], a[2 * i]);
    assert t[2 * i + 1] == Product(w[2 * i + 1], a[2 * i + 1]);
  }

  /** Nothing wraps inside a block of the 32-bit kernel. */
  lemma BitNetHalf(w: seq<byte>, a: seq<i8>, t: seq<int>, half: nat, lane: nat)
    requires IsBlock(w, a, t) && lane < 8 && (half == 0 || half == 16)
    ensures BlockHalf(w[half..half + 16], a[half..half + 16])[lane] == Two(t, half + 2 * lane)
  {
    var i := half + 2 * lane;
    assert w[half..half + 16][2 * lane] == w[i] && w[half..half + 16][2 * lane + 1] == w[i + 1];
    assert a[half..half + 16][2 * lane] == a[i] && a[half..half + 16][2 * lane + 1] == a[i + 1];
    assert t[i] == Product(w[i], a[i]) && t[i + 1] == Product(w[i + 1], a[i + 1]);
  }

  function PackedBlock(packed: seq<byte>, b: nat): (r: seq<byte>)
    requires 8 * b + 8 <= |packed|
    ensures Lanes(r, 8)
  {
    packed[8 * b..8 * b + 8]
  }

  function ActBlock(acts: seq<i8>, b: nat): (r: seq<i8>)
    requires 32 * b + 32 <= |acts|
    ensures Lanes(r, 32)
  {
    acts[32 * b..32 * b + 32]
  }

  lemma BlockIndex(b: nat, e: nat)
    requires e < 32
    ensures ByteIndex(32 * b + e) == 8 * b + e % 16 / 4 && (32 * b + e) % 4 == e % 4
  {
    InBlock(b, e);
    ModBlock(b, e);
  }

  lemma InBlock(b: nat, e: nat)
    requires e < 32
    ensures (32 * b + e) / 32 == b
  {
  }

  lemma ModBlock(b: nat, e: nat)
    ensures (32 * b + e) % 16 == e % 16 && (32 * b + e) % 4 == e % 4
  {
    SixteenRemainder(2 * b + e / 16, e % 16);
    FourRemainder(8 * b + e / 4, e % 4);
    assert 32 * b + e == 16 * (2 * b + e / 16) + e % 16;
    assert 32 * b + e == 4 * (8 * b + e / 4) + e % 4;
  }

  lemma SixteenRemainder(q: nat, r: nat)
    requires r < 16
    ensures (16 * q + r) % 16 == r
  {
  }

  lemma FourRemainder(q: nat, r: nat)
    requires r < 4
    ensures (4 * q + r) % 4 == r
  {
  }

  /** The packed bytes and activations of one block, and what its elements contribute. */
  ghost predicate IsPackedBlock(p: seq<byte>, a: seq<i8>, t: seq<int>) {
    && Lanes(p, 8) && Lanes(a, 32) && Lanes(t, 32) && SmallTerms(t)
    && forall e :: 0 <= e < 32 ==> t[e] == Product(Field(p[e % 16 / 4], e % 4), a[e])
  }

  lemma BlockOfTerms(packed: seq<byte>, acts: seq<i8>, n: nat, b: nat)
    requires Fits(packed, acts, n) && b < n
    ensures IsPackedBlock(PackedBlock(packed, b), ActBlock(acts, b), Terms(packed, acts, n)[32 * b..32 * b + 32])
  {
    TermsAreSmall(packed, acts, n);
    var t := Terms(packed, acts, n)[32 * b..32 * b + 32];
    var p, a := PackedBlock(packed, b), ActBlock(acts, b);
    forall e | 0 <= e < 32 ensures t[e] == Product(Field(p[e % 16 / 4], e % 4), a[e]) {
      BlockIndex(b, e);
      assert t[e] == Terms(packed, acts, n)[32 * b + e];
    }
  }

  lemma Unpacked(p: seq<byte>, a: seq<i8>, t: seq<int>)
    requires IsPackedBlock(p, a, t)
    ensures IsBlock(Unpack16(p), a, t) && IsBlock(Unpack32(p), a, t)
  {
    forall e | 0 <= e < 32 ensures Unpack16(p)[e] == Unpack32(p)[e] == Field(p[e % 16 / 4], e % 4) {
      UnpackedWeight(p, e);
    }
  }

  // ---- The kernels ----

  lemma WrapPeriod(x: int)
    ensures Wrap32(x + 0x1_0000_0000) == Wrap32(x)
  {
  }

  /** Wrapping a partial sum early does not change the wrapped sum. */
  lemma {:induction false} WrapAdd(x: int, y: int)
    ensures Wrap32(Wrap32(x) + y) == Wrap32(x + y)
    decreases if -0x8000_0000 <= x < 0x8000_0000 then 0 else if x < 0 then -x else x
  {
    if x >= 0x8000_0000 {
      WrapAdd(x - 0x1_0000_0000, y);
      WrapPeriod(x - 0x1_0000_0000 + y);
    } else if x < -0x8000_0000 {
      WrapAdd(x + 0x1_0000_0000, y);
      WrapPeriod(x + y);
    }
  }

  datatype Status = Done | NotMultipleOf32

  /** What a kernel requires of its pointers: room for the blocks it reads and the lanes it writes. */
  predicate Readable(packed: array<byte>, acts: array<i8>, output: array<i32>, count: nat) {
    count % 32 == 0 && count > 0 ==>
      packed.Length >= 8 * (count / 32) && acts.Length >= count && output.Length >= 8
  }

  /** The lanes of the accumulator after `b` blocks. */
  ghost predicate Accumulated(k: Kernel, acc: seq<i32>, t: seq<int>, b: nat) {
    && Lanes(acc, 8) && 32 * b <= |t|
    && forall lane :: 0 <= lane < 8 ==> acc[lane] == Wrap32(Lane(k, t, b, lane))
  }

  lemma LaneBlockSlice(k: Kernel, t: seq<int>, b: nat, lane: nat)
    requires 32 * b + 32 <= |t| && lane < 8
    ensures LaneBlock(k, t, b, lane) == LaneBlock(k, t[32 * b..32 * b + 32], 0, lane)
  {
  }

  lemma Accumulate(k: Kernel, acc: seq<i32>, add: seq<i32>, t: seq<int>, b: nat)
    requires Accumulated(k, acc, t, b) && 32 * b + 32 <= |t| && Lanes(add, 8)
    requires forall lane :: 0 <= lane < 8 ==> add[lane] == LaneBlock(k, t, b, lane)
    ensures Accumulated(k, AddEpi32(acc, add), t, b + 1)
  {
    forall lane | 0 <= lane < 8 ensures AddEpi32(acc, add)[lane] == Wrap32(Lane(k, t, b + 1, lane)) {
      WrapAdd(Lane(k, t, b, lane), LaneBlock(k, t, b, lane));
    }
  }

  lemma AccumulateTwo(k: Kernel, acc: seq<i32>, lo: seq<i32>, hi: seq<i32>, t: seq<int>, b: nat)
    requires Accumulated(k, acc, t, b) && 32 * b + 32 <= |t| && Lanes(lo, 8) && Lanes(hi, 8)
    requires forall lane :: 0 <= lane < 8 ==> lo[lane] as int + hi[lane] == LaneBlock(k, t, b, lane)
    ensures Accumulated(k, AddEpi32(AddEpi32(acc, lo), hi), t, b + 1)
  {
    forall lane | 0 <= lane < 8
      ensures AddEpi32(AddEpi32(acc, lo), hi)[lane] == Wrap32(Lane(k, t, b + 1, lane))
    {
      AddTwice(Lane(k, t, b, lane), lo[lane], hi[lane]);
    }
  }

  lemma AddTwice(x: int, lo: int, hi: int)
    ensures Wrap32(Sum(Wrap32(Sum(Wrap32(x), lo)), hi)) == Wrap32(x + (lo + hi))
  {
    WrapAdd(x, lo);
    WrapAdd(x + lo, hi);
  }

  lemma MaddubsBlock(w: seq<byte>, a: seq<i8>, t: seq<int>, b: nat)
    requires 32 * b + 32 <= |t| && IsBlock(w, a, t[32 * b..32 * b + 32])
    ensures forall lane :: 0 <= lane < 8 ==> BlockMaddubs(w, a)[lane] == LaneBlock(Maddubs, t, b, lane)
  {
    forall lane | 0 <= lane < 8 ensures BlockMaddubs(w, a)[lane] == LaneBlock(Maddubs, t, b, lane) {
      MaddubsLane(w, a, t[32 * b..32 * b + 32], lane);
      LaneBlockSlice(Maddubs, t, b, lane);
    }
  }

  lemma BitNetBlock(w: seq<byte>, a: seq<i8>, t: seq<int>, b: nat)
    requires 32 * b + 32 <= |t| && IsBlock(w, a, t[32 * b..32 * b + 32])
    ensures forall lane :: 0 <= lane < 8 ==>
              BlockHalf(w[0..16], a[0..16])[lane] as int + BlockHalf(w[16..32], a[16..32])[lane]
              == LaneBlock(BitNet32, t, b, lane)
  {
    forall lane | 0 <= lane < 8
      ensures BlockHalf(w[0..16], a[0..16])[lane] as int + BlockHalf(w[16..32], a[16..32])[lane]
              == LaneBlock(BitNet32, t, b, lane)
    {
      BitNetHalf(w, a, t[32 * b..32 * b + 32], 0, lane);
      BitNetHalf(w, a, t[32 * b..32 * b + 32], 16, lane);
      LaneBlockSlice(BitNet32, t, b, lane);
    }
  }

  /** The loop body of the 16-bit kernel. */
  method MaddubsStep(acc: seq<i32>, p: seq<byte>, a: seq<i8>, ghost t: seq<int>, ghost b: nat) returns (r: seq<i32>)
    requires Accumulated(Maddubs, acc, t, b) && 32 * b + 32 <= |t| && IsPackedBlock(p, a, t[32 * b..32 * b + 32])
    ensures Accumulated(Maddubs, r, t, b + 1)
  {
    var weights := Unpack16(p);
    Unpacked(p, a, t[32 * b..32 * b + 32]);
    MaddubsBlock(weights, a, t, b);
    var widened := BlockMaddubs(weights, a);
    Accumulate(Maddubs, acc, widened, t, b);
    r := AddEpi32(acc, widened);
  }

  /** The loop body of the 32-bit kernel. */
  method BitNetStep(acc: seq<i32>, p: seq<byte>, a: seq<i8>, ghost t: seq<int>, ghost b: nat) returns (r: seq<i32>)
    requires Accumulated(BitNet32, acc, t, b) && 32 * b + 32 <= |t| && IsPackedBlock(p, a, t[32 * b..32 * b + 32])
    ensures Accumulated(BitNet32, r, t, b + 1)
  {
    var weights := Unpack32(p);
    Unpacked(p, a, t[32 * b..32 * b + 32]);
    BitNetBlock(weights, a, t, b);
    var prodLo := BlockHalf(weights[0..16], a[0..16]);
    var prodHi := BlockHalf(weights[16..32], a[16..32]);
    AccumulateTwo(BitNet32, acc, prodLo, prodHi, t, b);
    r := AddEpi32(acc, prodLo);
    r := AddEpi32(r, prodHi);
  }

  /** The loop over the blocks. */
  method MaddubsBlocks(packed: array<byte>, acts: array<i8>, n: nat) returns (accumulator: seq<i32>)
    requires Fits(packed[..], acts[..], n)
    ensures Accumulated(Maddubs, accumulator, Terms(packed[..], acts[..], n), n)
  {
    accumulator := seq(8, i requires 0 <= i < 8 => 0);
    ghost var t := Terms(packed[..], acts[..], n);
    for b := 0 to n
      invariant Accumulated(Maddubs, accumulator, t, b)
    {
      var p, a := packed[8 * b..8 * b + 8], acts[32 * b..32 * b + 32];
      assert p == PackedBlock(packed[..], b) && a == ActBlock(acts[..], b);
      BlockOfTerms(packed[..], acts[..], n, b);
      accumulator := MaddubsStep(accumulator, p, a, t, b);
    }
  }

  method MaddubsDotProduct(packed: array<byte>, acts: array<i8>, output: array<i32>, count: nat) returns (r: Status)
    requires Readable(packed, acts, output, count)
    modifies output
    ensures r == (if count % 32 == 0 then Done else NotMultipleOf32)
    ensures r == NotMultipleOf32 || count == 0 ==> output[..] == old(output[..])
    ensures r == Done && count > 0 ==>
              && Fits(old(packed[..]), old(acts[..]), count / 32)
              && Accumulated(Maddubs, output[..8], Terms(old(packed[..]), old(acts[..]), count / 32), count / 32)
              && output[8..] == old(output[8..])
  {
    if count == 0 { return Done; }
    if count % 32 != 0 { return NotMultipleOf32; }
    var accumulator := MaddubsBlocks(packed, acts, count / 32);
    Store(output, accumulator);
    r := Done;
  }

  /** The loop over the blocks. */
  method BitNet32Blocks(packed: array<byte>, acts: array<i8>, n: nat) returns (accumulator: seq<i32>)
    requires Fits(packed[..], acts[..], n)
    ensures Accumulated(BitNet32, accumulator, Terms(packed[..], acts[..], n), n)
  {
    accumulator := seq(8, i requires 0 <= i < 8 => 0);
    ghost var t := Terms(packed[..], acts[..], n);
    for b := 0 to n
      invariant Accumulated(BitNet32, accumulator, t, b)
    {
      var p, a := packed[8 * b..8 * b + 8], acts[32 * b..32 * b + 32];
      assert p == PackedBlock(packed[..], b) && a == ActBlock(acts[..], b);
      BlockOfTerms(packed[..], acts[..], n, b);
      accumulator := BitNetStep(accumulator, p, a, t, b);
    }
  }

  method BitNet32DotProduct(packed: array<byte>, acts: array<i8>, output: array<i32>, count: nat) returns (r: Status)
    requires Readable(packed, acts, output, count)
    modifies output
    ensures r == (if count % 32 == 0 then Done else NotMultipleOf32)
    ensures r == NotMultipleOf32 || count == 0 ==> output[..] == old(output[..])
    ensures r == Done && count > 0 ==>
              && Fits(old(packed[..]), old(acts[..]), count / 32)
              && Accumulated(BitNet32, output[..8], Terms(old(packed[..]), old(acts[..]), count / 32), count / 32)
              && output[8..] == old(output[8..])
  {
    if count == 0 { return Done; }
    if count % 32 != 0 { return NotMultipleOf32; }
    var accumulator := BitNet32Blocks(packed, acts, count / 32);
    Store(output, accumulator);
    r := Done;
  }

  /** `_mm256_storeu_si256` */
  method Store(output: array<i32>, lanes: seq<i32>)
    requires Lanes(lanes, 8) && output.Length >= 8
    modifies output
    ensures output[..8] == lanes && output[8..] == old(output[8..])
  {
    for i := 0 to 8
      invariant forall j :: 0 <= j < i ==> output[j] == lanes[j]
      invariant forall j :: 8 <= j < output.Length ==> output[j] == old(output[j])
    {
      output[i] := lanes[i];
    }
  }

  /** The dispatcher: the container format selects the kernel. */
  method DispatchDotProduct(is32Bit: bool, packed: array<byte>, acts: array<i8>, output: array<i32>, count: nat)
    returns (r: Status)
    requires Readable(packed, acts, output, count)
    modifies output
    ensures r == (if count % 32 == 0 then Done else NotMultipleOf32)
    ensures r == NotMultipleOf32 || count == 0 ==> output[..] == old(output[..])
    ensures r == Done && count > 0 ==>
              && Fits(old(packed[..]), old(acts[..]), count / 32)
              && Accumulated(if is32Bit then BitNet32 else Maddubs, output[..8],
                             Terms(old(packed[..]), old(acts[..]), count / 32), count / 32)
              && output[8..] == old(output[8..])
  {
    if is32Bit {
      r := BitNet32DotProduct(packed, acts, output, count);
    } else {
      r := MaddubsDotProduct(packed, acts, output, count);
    }
  }

  // ---- What the results mean ----

  function TotalFrom(v: seq<i32>, lane: nat): int
    requires Lanes(v, 8) && lane <= 8
    decreases 8 - lane, |v|
  {
    if lane == 8 then 0 else v[lane] + TotalFrom(v, lane + 1)
  }

  /** Up to the safe number of blocks no lane wraps, in either kernel and for any operands. */
  lemma LanesExact(k: Kernel, t: seq<int>, n: nat, lane: nat)
    requires 32 * n <= |t| && SmallTerms(t) && lane < 8 && n <= SAFE_BLOCKS
    ensures Wrap32(Lane(k, t, n, lane)) == Lane(k, t, n, lane)
  {
    LaneRange(k, t, n, lane);
    InRange(Lane(k, t, n, lane), n);
  }

  lemma InRange(x: int, n: nat)
    requires n <= SAFE_BLOCKS && -1536 * n <= x <= 1524 * n
    ensures Wrap32(x) == x
  {
  }

  lemma {:induction false} TotalIsLanes(k: Kernel, v: seq<i32>, t: seq<int>, n: nat, lane: nat)
    requires SmallTerms(t) && n <= SAFE_BLOCKS && Accumulated(k, v, t, n) && lane <= 8
    ensures TotalFrom(v, lane) == LanesFrom(k, t, n, lane)
    decreases 8 - lane
  {
    if lane < 8 {
      LanesExact(k, t, n, lane);
      TotalIsLanes(k, v, t, n, lane + 1);
    }
  }

  /** The two kernels agree: the output lanes of each sum to the scalar dot product. */
  lemma KernelsAgree(a: seq<i32>, b: seq<i32>, packed: seq<byte>, acts: seq<i8>, n: nat)
    requires Fits(packed, acts, n) && n <= SAFE_BLOCKS
    requires Accumulated(Maddubs, a, Terms(packed, acts, n), n)
    requires Accumulated(BitNet32, b, Terms(packed, acts, n), n)
    ensures TotalFrom(a, 0) == TotalFrom(b, 0) == Dot(Terms(packed, acts, n), 32 * n)
  {
    var t := Terms(packed, acts, n);
    TermsAreSmall(packed, acts, n);
    TotalIsLanes(Maddubs, a, t, n, 0);
    TotalIsLanes(BitNet32, b, t, n, 0);
    LanesAreDot(Maddubs, t, n);
    LanesAreDot(BitNet32, t, n);
  }

  // ---- The bound is tight ----

  function FullWeights(n: nat): (r: seq<byte>)
    ensures |r| == n && forall i :: 0 <= i < n ==> r[i] == 255
  {
    seq(n, i requires 0 <= i < n => 255)
  }

  function LowActs(n: nat): (r: seq<i8>)
    ensures |r| == n && forall i :: 0 <= i < n ==> r[i] == -128
  {
    seq(n, i requires 0 <= i < n => -128)
  }

  lemma FullField(f: nat)
    requires f < 4
    ensures Field(255, f) == 3
  {
    Shifts(255);
  }

  lemma LowTerms(n: nat, e: nat)
    requires e < 32 * n
    ensures Terms(FullWeights(8 * n), LowActs(32 * n), n)[e] == -384
  {
    FullField(e % 4);
  }

  lemma {:induction false} LowLane(k: Kernel, t: seq<int>, b: nat, lane: nat)
    requires 32 * b <= |t| && lane < 8 && forall e :: 0 <= e < |t| ==> t[e] == -384
    ensures Lane(k, t, b, lane) == -1536 * b
    decreases b
  {
    if b > 0 {
      LowLane(k, t, b - 1, lane);
    }
  }

  ghost predicate AlwaysExact(k: Kernel, n: nat) {
    forall packed: seq<byte>, acts: seq<i8>, lane: nat {:trigger Lane(k, Terms(packed, acts, n), n, lane)} ::
      |packed| == 8 * n && |acts| == 32 * n && lane < 8 ==>
        Wrap32(Lane(k, Terms(packed, acts, n), n, lane)) == Lane(k, Terms(packed, acts, n), n, lane)
  }

  /** The lanes of a kernel are exact for all operands of `n` blocks if and only if `n` is at most
      1398101, that is, for a `count` of at most 44739232. */
  lemma ExactIff(k: Kernel, n: nat)
    ensures AlwaysExact(k, n) <==> n <= SAFE_BLOCKS
  {
    if n <= SAFE_BLOCKS {
      forall packed: seq<byte>, acts: seq<i8>, lane: nat | |packed| == 8 * n && |acts| == 32 * n && lane < 8
        ensures Wrap32(Lane(k, Terms(packed, acts, n), n, lane)) == Lane(k, Terms(packed, acts, n), n, lane)
      {
        TermsAreSmall(packed, acts, n);
        LanesExact(k, Terms(packed, acts, n), n, lane);
      }
    } else {
      var packed, acts := FullWeights(8 * n), LowActs(32 * n);
      var t := Terms(packed, acts, n);
      forall e | 0 <= e < |t| ensures t[e] == -384 {
        LowTerms(n, e);
      }
      LowLane(k, t, n, 0);
      assert Lane(k, Terms(packed, acts, n), n, 0) < -0x8000_0000;
    }
  }

  /** The weights of an element come from the first four bytes of its group of eight: the other
      four never influence a result. */
  lemma UpperBytesUnused(p: seq<byte>, q: seq<byte>, acts: seq<i8>, n: nat)
    requires Fits(p, acts, n) && Fits(q, acts, n)
    requires forall i :: 0 <= i < 8 * n && i % 8 < 4 ==> p[i] == q[i]
    ensures Terms(p, acts, n) == Terms(q, acts, n)
  {
    forall e | 0 <= e < 32 * n ensures Terms(p, acts, n)[e] == Terms(q, acts, n)[e] {
      LowHalf(e, n);
      assert p[ByteIndex(e)] == q[ByteIndex(e)];
    }
  }

  lemma LowHalf(e: nat, n: nat)
    requires e < 32 * n
    ensures ByteIndex(e) < 8 * n && ByteIndex(e) % 8 < 4
  {
    InHalf(e / 32, e % 16 / 4);
  }

  lemma InHalf(q: nat, r: nat)
    requires r < 8
    ensures (8 * q + r) % 8 == r
  {
  }
}
