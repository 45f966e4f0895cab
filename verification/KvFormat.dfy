/** The bytes of a cache file, one by one. */
module KvFormat {
  import opened Avx2
  import opened KvCache

  /** Numbers are written with their lowest byte first. */
  lemma LowestFirst(n: nat)
    ensures LE(n, 4) == [n % 0x100, n / 0x100 % 0x100, n / 0x1_0000 % 0x100, n / 0x100_0000 % 0x100]
    ensures LE(n, 8) == LE(n, 4) + LE(n / 0x1_0000_0000, 4)
  {
    FourBytes(n);
    EightBytes(n);
  }

  lemma FourBytes(n: nat)
    ensures LE(n, 4) == [n % 0x100, n / 0x100 % 0x100, n / 0x1_0000 % 0x100, n / 0x100_0000 % 0x100]
  {
    var a := n / 0x100;
    var b := a / 0x100;
    assert b == n / 0x1_0000 && b / 0x100 == n / 0x100_0000;
    assert LE(n, 4) == [n % 0x100] + LE(a, 3) && LE(a, 3) == [a % 0x100] + LE(b, 2);
    assert LE(b, 2) == [b % 0x100] + LE(b / 0x100, 1) && LE(b / 0x100, 1) == [b / 0x100 % 0x100] + LE(b / 0x1_0000, 0);
  }

  lemma EightBytes(n: nat)
    ensures LE(n, 8) == [n % 0x100, n / 0x100 % 0x100, n / 0x1_0000 % 0x100, n / 0x100_0000 % 0x100]
                        + LE(n / 0x1_0000_0000, 4)
  {
    var a := n / 0x100;
    var b := a / 0x100;
    var c := b / 0x100;
    assert b == n / 0x1_0000 && c == n / 0x100_0000 && c / 0x100 == n / 0x1_0000_0000;
    assert LE(n, 8) == [n % 0x100] + LE(a, 7) && LE(a, 7) == [a % 0x100] + LE(b, 6);
    assert LE(b, 6) == [b % 0x100] + LE(c, 5) && LE(c, 5) == [c % 0x100] + LE(c / 0x100, 4);
  }

  // ---- One tensor ----

  lemma {:induction false} DimsLayout(shape: seq<u64>, j: nat)
    ensures |DumpDims(shape)| == 8 * |shape|
    ensures j < |shape| ==> DumpDims(shape)[8 * j..8 * j + 8] == LE(shape[j], 8)
    decreases |shape|
  {
    if shape != [] {
      var first, rest := LE(shape[0], 8), DumpDims(shape[1..]);
      DimsLayout(shape[1..], if j == 0 then 0 else j - 1);
      if 0 < j < |shape| {
        assert (first + rest)[8 * j..8 * j + 8] == rest[8 * (j - 1)..8 * (j - 1) + 8];
      }
    }
  }

  lemma {:induction false} FloatsLayout(data: seq<Float>, j: nat)
    requires j < |data|
    ensures DumpFloats(data)[4 * j..4 * j + 4] == data[j]
    decreases |data|
  {
    var first: seq<byte>, rest: seq<byte> := data[0], DumpFloats(data[1..]);
    if j > 0 {
      FloatsLayout(data[1..], j - 1);
      assert (first + rest)[4 * j..4 * j + 4] == rest[4 * (j - 1)..4 * (j - 1) + 4];
    }
  }

  function TensorSize(t: Tensor): nat {
    4 + 8 * |t.shape| + 8 + 4 * |t.data|
  }

  /** A tensor is its rank in four bytes, its dimensions in eight bytes each, the number of its
      floats in eight bytes, and the floats. */
  lemma {:induction false} TensorLayout(t: Tensor)
    ensures var s, r := DumpTensor(t), |t.shape|;
            && |s| == TensorSize(t)
            && s[..4] == LE(r, 4)
            && (forall j :: 0 <= j < r ==> s[4 + 8 * j..4 + 8 * j + 8] == LE(t.shape[j], 8))
            && s[4 + 8 * r..4 + 8 * r + 8] == LE(|t.data|, 8)
            && (forall j :: 0 <= j < |t.data| ==> s[12 + 8 * r + 4 * j..12 + 8 * r + 4 * j + 4] == t.data[j])
  {
    DimsLayout(t.shape, 0);
    PartsLayout(LE(|t.shape|, 4), DumpDims(t.shape), LE(|t.data|, 8), DumpFloats(t.data));
    forall j: nat | j < |t.shape| ensures DumpTensor(t)[4 + 8 * j..4 + 8 * j + 8] == LE(t.shape[j], 8) {
      DimAt(t, j);
    }
    forall j: nat | j < |t.data|
      ensures DumpTensor(t)[12 + 8 * |t.shape| + 4 * j..12 + 8 * |t.shape| + 4 * j + 4] == t.data[j]
    {
      FloatAt(t, j);
    }
  }

  lemma {:induction false} DimAt(t: Tensor, j: nat)
    requires j < |t.shape|
    ensures 4 + 8 * j + 8 <= |DumpTensor(t)| && DumpTensor(t)[4 + 8 * j..4 + 8 * j + 8] == LE(t.shape[j], 8)
  {
    DimsLayout(t.shape, j);
    SliceIn(LE(|t.shape|, 4), DumpDims(t.shape), LE(|t.data|, 8) + DumpFloats(t.data), 8 * j, 8);
  }

  lemma {:induction false} FloatAt(t: Tensor, j: nat)
    requires j < |t.data|
    ensures var at := 12 + 8 * |t.shape| + 4 * j; at + 4 <= |DumpTensor(t)| && DumpTensor(t)[at..at + 4] == t.data[j]
  {
    DimsLayout(t.shape, 0);
    FloatsLayout(t.data, j);
    FloatIn(LE(|t.shape|, 4), DumpDims(t.shape), LE(|t.data|, 8), DumpFloats(t.data), 4 * j);
  }

  lemma PartsLayout(a: seq<byte>, b: seq<byte>, c: seq<byte>, d: seq<byte>)
    ensures var s := a + (b + (c + d)); s[..|a|] == a && s[|a| + |b|..|a| + |b| + |c|] == c
  {
  }

  lemma SliceIn(a: seq<byte>, b: seq<byte>, c: seq<byte>, at: nat, n: nat)
    requires at + n <= |b|
    ensures (a + (b + c))[|a| + at..|a| + at + n] == b[at..at + n]
  {
  }

  lemma FloatIn(a: seq<byte>, b: seq<byte>, c: seq<byte>, d: seq<byte>, at: nat)
    requires at + 4 <= |d|
    ensures var n := |a| + |b| + |c|; (a + (b + (c + d)))[n + at..n + at + 4] == d[at..at + 4]
  {
  }

  // ---- The file ----

  /** Where tensor `i` starts. */
  function Offset(c: seq<Tensor>, i: nat): nat
    requires i <= |c|
  {
    if i == 0 then 4 else Offset(c, i - 1) + TensorSize(c[i - 1])
  }

  lemma {:induction false} DumpTensorsConcat(a: seq<Tensor>, b: seq<Tensor>)
    ensures DumpTensors(a + b) == DumpTensors(a) + DumpTensors(b)
    decreases |a|
  {
    if a == [] {
      assert a + b == b;
    } else {
      DumpTensorsConcat(a[1..], b);
      assert (a + b)[1..] == a[1..] + b;
      Assoc(DumpTensor(a[0]), DumpTensors(a[1..]), DumpTensors(b));
    }
  }

  lemma {:induction false} OffsetIs(c: seq<Tensor>, i: nat)
    requires i <= |c|
    ensures Offset(c, i) == 4 + |DumpTensors(c[..i])|
  {
    if i > 0 {
      OffsetIs(c, i - 1);
      TensorLayout(c[i - 1]);
      assert c[..i] == c[..i - 1] + [c[i - 1]];
      DumpTensorsConcat(c[..i - 1], [c[i - 1]]);
      OneTensor(c[i - 1]);
    }
  }

  lemma OneTensor(t: Tensor)
    ensures DumpTensors([t]) == DumpTensor(t)
  {
    assert [t][1..] == [] && DumpTensor(t) + [] == DumpTensor(t);
  }

  lemma {:induction false} DumpParts(c: seq<Tensor>, i: nat)
    requires i < |c|
    ensures DumpTensors(c) == DumpTensors(c[..i]) + (DumpTensor(c[i]) + DumpTensors(c[i + 1..]))
  {
    var t := [c[i]];
    CutAround(c, i);
    DumpTensorsConcat(c[..i], t + c[i + 1..]);
    DumpTensorsConcat(t, c[i + 1..]);
    OneTensor(c[i]);
  }

  lemma CutAround(c: seq<Tensor>, i: nat)
    requires i < |c|
    ensures c == c[..i] + ([c[i]] + c[i + 1..])
  {
  }

  lemma MiddleOf(a: seq<byte>, b: seq<byte>, t: seq<byte>, d: seq<byte>)
    ensures var s := a + (b + (t + d)); var n := |a| + |b|;
            |s| == n + |t| + |d| && s[..|a|] == a && s[n..n + |t|] == t
  {
  }

  lemma WholeOffset(c: seq<Tensor>)
    ensures Offset(c, |c|) == 4 + |DumpTensors(c)|
  {
    OffsetIs(c, |c|);
    assert c[..|c|] == c;
  }

  /** A file is the number of tensors in four bytes and then the tensors, one behind the other. */
  lemma {:induction false} FileLayout(c: seq<Tensor>, i: nat)
    requires i < |c|
    ensures |Dump(c)| == Offset(c, |c|) && Dump(c)[..4] == LE(|c|, 4)
    ensures Offset(c, i) + TensorSize(c[i]) <= |Dump(c)|
    ensures Dump(c)[Offset(c, i)..Offset(c, i) + TensorSize(c[i])] == DumpTensor(c[i])
  {
    WholeOffset(c);
    OffsetIs(c, i);
    DumpParts(c, i);
    TensorLayout(c[i]);
    MiddleOf(LE(|c|, 4), DumpTensors(c[..i]), DumpTensor(c[i]), DumpTensors(c[i + 1..]));
  }

  // ---- Lengths that no buffer can have ----

  /** A file that announces 2^61 floats or more makes the load panic for its capacity, and one that
      announces 2^62 or more overflows the size in bytes, whatever follows. */
  lemma HugeLength(n: nat, tail: seq<byte>)
    requires n < 0x1_0000_0000_0000_0000
    ensures var file := LE(1, 4) + (LE(0, 4) + (LE(n, 8) + tail));
            && (0x2000_0000_0000_0000 <= n < 0x4000_0000_0000_0000 ==> Load(file) == CapacityPanic)
            && (n >= 0x4000_0000_0000_0000 ==> Load(file) == Overflow)
            && (n < 0x2000_0000_0000_0000 && |tail| < 4 * n ==> Load(file) == Eof)
  {
    Sizes();
    LoadDumpedNumber(n, 8, tail);
    LoadDumpedNumber(0, 4, LE(n, 8) + tail);
    LoadDumpedNumber(1, 4, LE(0, 4) + (LE(n, 8) + tail));
  }
}
