/** The binary file of a key-value cache: little-endian, length-prefixed, nested. */
module KvCache {
  import opened Text
  import opened Avx2

  /** A 32-bit float is its four bytes. */
  type Float = s: seq<byte> | |s| == 4 witness [0, 0, 0, 0]
  type u64 = x: int | 0 <= x < 0x1_0000_0000_0000_0000

  const MAX_FLOATS: nat := 0x2000_0000_0000_0000
  const OVERFLOW_FLOATS: nat := 0x4000_0000_0000_0000

  datatype Tensor = Tensor(shape: seq<u64>, data: seq<Float>)

  // ---- Numbers ----

  /** The low `k` bytes of `n`, the lowest first. */
  function LE(n: nat, k: nat): (r: seq<byte>)
    ensures |r| == k
  {
    if k == 0 then [] else [n % 0x100] + LE(n / 0x100, k - 1)
  }

  function FromLE(s: seq<byte>): nat {
    if s == [] then 0 else s[0] + 0x100 * FromLE(s[1..])
  }

  function Size(k: nat): nat {
    if k == 0 then 1 else 0x100 * Size(k - 1)
  }

  lemma Sizes()
    ensures Size(4) == 0x1_0000_0000 && Size(8) == 0x1_0000_0000_0000_0000
  {
    assert Size(4) == 0x100 * (0x100 * Size(2)) && Size(2) == 0x100 * (0x100 * Size(0));
    assert Size(8) == 0x100 * (0x100 * Size(6)) && Size(6) == 0x100 * (0x100 * Size(4));
  }

  lemma {:induction false} FromLEBound(s: seq<byte>)
    ensures FromLE(s) < Size(|s|)
  {
    if s != [] {
      FromLEBound(s[1..]);
    }
  }

  lemma {:induction false} FromToLE(n: nat, k: nat)
    requires n < Size(k)
    ensures FromLE(LE(n, k)) == n
  {
    if k > 0 {
      FromToLE(n / 0x100, k - 1);
      assert LE(n, k)[1..] == LE(n / 0x100, k - 1);
    }
  }

  lemma {:induction false} ToFromLE(s: seq<byte>)
    ensures LE(FromLE(s), |s|) == s
  {
    if s != [] {
      ToFromLE(s[1..]);
      LowByte(s[0], FromLE(s[1..]));
      assert s == [s[0]] + s[1..];
    }
  }

  lemma LowByte(b: byte, m: nat)
    ensures (b + 0x100 * m) % 0x100 == b && (b + 0x100 * m) / 0x100 == m
  {
  }

  // ---- Writing ----

  function DumpDims(shape: seq<u64>): seq<byte> {
    if shape == [] then [] else LE(shape[0], 8) + DumpDims(shape[1..])
  }

  function DumpFloats(data: seq<Float>): (r: seq<byte>)
    ensures |r| == 4 * |data|
  {
    if data == [] then [] else data[0] + DumpFloats(data[1..])
  }

  /** The counts are cast to 32 and 64 bits before they are written. */
  function DumpTensor(t: Tensor): seq<byte> {
    LE(|t.shape|, 4) + (DumpDims(t.shape) + (LE(|t.data|, 8) + DumpFloats(t.data)))
  }

  function DumpTensors(c: seq<Tensor>): seq<byte> {
    if c == [] then [] else DumpTensor(c[0]) + DumpTensors(c[1..])
  }

  function Dump(c: seq<Tensor>): seq<byte> {
    LE(|c|, 4) + DumpTensors(c)
  }

  // ---- Reading ----

  /** A value and the bytes behind it; the end of the file; a panic, because no vector can have the
      capacity; or a buffer size whose computation overflows 64 bits, with which the model ends. */
  datatype Parse<+T> = Read(value: T, rest: seq<byte>) | Eof | CapacityPanic | Overflow {
    predicate IsFailure() { !Read? }

    function PropagateFailure<U>(): Parse<U>
      requires IsFailure()
    {
      match this
      case Eof => Eof
      case CapacityPanic => CapacityPanic
      case Overflow => Overflow
    }

    function Extract(): (T, seq<byte>)
      requires Read?
    {
      (value, rest)
    }
  }

  function LoadNumber(s: seq<byte>, k: nat): (r: Parse<nat>)
    ensures r.Read? ==> |r.rest| + k == |s|
  {
    if |s| < k then Eof else Read(FromLE(s[..k]), s[k..])
  }

  function LoadDims(s: seq<byte>, n: nat): (r: Parse<seq<u64>>)
    ensures r.Read? ==> |r.value| == n
  {
    if n == 0 then Read([], s)
    else
      var (d, rest) :- LoadNumber(s, 8);
      var (ds, end) :- LoadDims(rest, n - 1);
      FromLEBound(s[..8]);
      Sizes();
      Read([d] + ds, end)
  }

  function Floats(s: seq<byte>, n: nat): (r: seq<Float>)
    requires |s| == 4 * n
    ensures |r| == n
  {
    if n == 0 then [] else [s[..4]] + Floats(s[4..], n - 1)
  }

  /** `vec![0u8; n * 4]` and `read_exact`. The product overflows from 2^62 on, and a capacity of 2^63
      bytes or more panics. */
  function LoadFloats(s: seq<byte>, n: nat): (r: Parse<seq<Float>>)
    ensures r.Read? ==> |r.value| == n
  {
    if n >= OVERFLOW_FLOATS then Overflow
    else if n >= MAX_FLOATS then CapacityPanic
    else if |s| < 4 * n then Eof
    else Read(Floats(s[..4 * n], n), s[4 * n..])
  }

  function LoadTensor(s: seq<byte>): Parse<Tensor> {
    var (rank, s1) :- LoadNumber(s, 4);
    var (shape, s2) :- LoadDims(s1, rank);
    var (len, s3) :- LoadNumber(s2, 8);
    var (data, s4) :- LoadFloats(s3, len);
    Read(Tensor(shape, data), s4)
  }

  function LoadTensors(s: seq<byte>, n: nat): (r: Parse<seq<Tensor>>)
    ensures r.Read? ==> |r.value| == n
    decreases n, |s|
  {
    if n == 0 then Read([], s)
    else
      var (t, rest) :- LoadTensor(s);
      var (ts, end) :- LoadTensors(rest, n - 1);
      Read([t] + ts, end)
  }

  function Load(s: seq<byte>): Parse<seq<Tensor>> {
    var (n, rest) :- LoadNumber(s, 4);
    LoadTensors(rest, n)
  }

  // ---- Reading what was written ----

  lemma LoadDumpedNumber(n: nat, k: nat, tail: seq<byte>)
    requires n < Size(k)
    ensures LoadNumber(LE(n, k) + tail, k) == Read(n, tail)
  {
    FromToLE(n, k);
    assert (LE(n, k) + tail)[..k] == LE(n, k) && (LE(n, k) + tail)[k..] == tail;
  }

  lemma {:induction false} LoadDumpedDims(shape: seq<u64>, tail: seq<byte>)
    ensures LoadDims(DumpDims(shape) + tail, |shape|) == Read(shape, tail)
  {
    if shape == [] {
      assert DumpDims(shape) + tail == tail;
    } else {
      var rest := DumpDims(shape[1..]) + tail;
      Sizes();
      LoadDumpedNumber(shape[0], 8, rest);
      LoadDumpedDims(shape[1..], tail);
      Assoc(LE(shape[0], 8), DumpDims(shape[1..]), tail);
      assert shape == [shape[0]] + shape[1..];
    }
  }

  lemma {:induction false} FloatsOfDump(data: seq<Float>)
    ensures Floats(DumpFloats(data), |data|) == data
  {
    if data != [] {
      var s := DumpFloats(data);
      assert s[..4] == data[0] && s[4..] == DumpFloats(data[1..]);
      FloatsOfDump(data[1..]);
      assert data == [data[0]] + data[1..];
    }
  }

  lemma LoadDumpedFloats(data: seq<Float>, tail: seq<byte>)
    requires |data| < 0x2000_0000_0000_0000
    ensures LoadFloats(DumpFloats(data) + tail, |data|) == Read(data, tail)
  {
    var s := DumpFloats(data) + tail;
    assert s[..4 * |data|] == DumpFloats(data) && s[4 * |data|..] == tail;
    FloatsOfDump(data);
  }

  /** The rank fits the 32-bit field. A vector of floats never has 2^61 elements. */
  predicate TensorFits(t: Tensor) {
    |t.shape| < 0x1_0000_0000
  }

  predicate Allocatable(t: Tensor) {
    |t.data| < 0x2000_0000_0000_0000
  }

  lemma LoadDumpedTensor(t: Tensor, tail: seq<byte>)
    requires TensorFits(t) && Allocatable(t)
    ensures LoadTensor(DumpTensor(t) + tail) == Read(t, tail)
  {
    Sizes();
    var s3 := DumpFloats(t.data) + tail;
    var s2 := LE(|t.data|, 8) + s3;
    var s1 := DumpDims(t.shape) + s2;
    LoadDumpedFloats(t.data, tail);
    LoadDumpedNumber(|t.data|, 8, s3);
    LoadDumpedDims(t.shape, s2);
    LoadDumpedNumber(|t.shape|, 4, s1);
    TensorParts(LE(|t.shape|, 4), DumpDims(t.shape), LE(|t.data|, 8), DumpFloats(t.data), tail);
  }

  lemma TensorParts(a: seq<byte>, b: seq<byte>, c: seq<byte>, d: seq<byte>, tail: seq<byte>)
    ensures (a + (b + (c + d))) + tail == a + (b + (c + (d + tail)))
  {
  }

  lemma Assoc(a: seq<byte>, b: seq<byte>, c: seq<byte>)
    ensures a + b + c == a + (b + c)
  {
  }

  lemma LoadTensorsStep(s: seq<byte>, n: nat, t: Tensor, rest: seq<byte>, ts: seq<Tensor>, end: seq<byte>)
    requires n > 0 && LoadTensor(s) == Read(t, rest) && LoadTensors(rest, n - 1) == Read(ts, end)
    ensures LoadTensors(s, n) == Read([t] + ts, end)
  {
  }

  lemma {:induction false} LoadDumpedTensors(c: seq<Tensor>, tail: seq<byte>)
    requires forall i :: 0 <= i < |c| ==> TensorFits(c[i]) && Allocatable(c[i])
    ensures LoadTensors(DumpTensors(c) + tail, |c|) == Read(c, tail)
  {
    if c == [] {
      assert DumpTensors(c) + tail == tail;
    } else {
      var rest := DumpTensors(c[1..]) + tail;
      LoadDumpedTensor(c[0], rest);
      LoadDumpedTensors(c[1..], tail);
      LoadTensorsStep(DumpTensor(c[0]) + rest, |c|, c[0], rest, c[1..], tail);
      Assoc(DumpTensor(c[0]), DumpTensors(c[1..]), tail);
      assert c == [c[0]] + c[1..];
    }
  }

  /** The counts fit the 32-bit fields of the format. */
  predicate Fits(c: seq<Tensor>) {
    |c| < 0x1_0000_0000 && forall i :: 0 <= i < |c| ==> TensorFits(c[i])
  }

  lemma LoadedRankFits(s: seq<byte>)
    ensures LoadTensor(s).Read? ==> TensorFits(LoadTensor(s).value)
  {
    if |s| >= 4 {
      FromLEBound(s[..4]);
      Sizes();
    }
  }

  lemma LoadTensorsParts(s: seq<byte>, n: nat)
    requires n > 0 && LoadTensors(s, n).Read?
    ensures var t := LoadTensor(s);
            t.Read? && LoadTensors(t.rest, n - 1).Read?
            && LoadTensors(s, n).value == [t.value] + LoadTensors(t.rest, n - 1).value
  {
  }

  lemma {:induction false} LoadedFits(s: seq<byte>, n: nat)
    ensures var r := LoadTensors(s, n); r.Read? ==> forall i :: 0 <= i < n ==> TensorFits(r.value[i])
    decreases n
  {
    if n > 0 {
      var t := LoadTensor(s);
      if t.Read? {
        LoadedRankFits(s);
        LoadedFits(t.rest, n - 1);
        if LoadTensors(s, n).Read? {
          LoadTensorsParts(s, n);
        }
      }
    }
  }

  lemma LoadedCountsFit(s: seq<byte>)
    ensures Load(s).Read? ==> Fits(Load(s).value)
  {
    if |s| >= 4 {
      FromLEBound(s[..4]);
      Sizes();
      LoadedFits(s[4..], FromLE(s[..4]));
    }
  }

  lemma LoadDump(c: seq<Tensor>, tail: seq<byte>)
    requires Fits(c) && forall i :: 0 <= i < |c| ==> Allocatable(c[i])
    ensures Load(Dump(c) + tail) == Read(c, tail)
  {
    var rest := DumpTensors(c) + tail;
    Sizes();
    LoadDumpedNumber(|c|, 4, rest);
    LoadDumpedTensors(c, tail);
    assert Dump(c) + tail == LE(|c|, 4) + rest;
  }

  /** For every cache that memory can hold: loading its dump, followed by any other bytes, restores
      it and consumes exactly the dump, if and only if the counts fit their fields. */
  lemma LoadDumpIff(c: seq<Tensor>, tail: seq<byte>)
    requires forall i :: 0 <= i < |c| ==> Allocatable(c[i])
    ensures Load(Dump(c) + tail) == Read(c, tail) <==> Fits(c)
  {
    LoadedCountsFit(Dump(c) + tail);
    if Fits(c) {
      LoadDump(c, tail);
    }
  }

  // ---- Writing what was read ----

  lemma DumpLoadedNumber(s: seq<byte>, k: nat)
    ensures var r := LoadNumber(s, k); r.Read? ==> LE(r.value, k) + r.rest == s
  {
    if |s| >= k {
      ToFromLE(s[..k]);
    }
  }

  lemma {:induction false} DumpLoadedDims(s: seq<byte>, n: nat)
    ensures var r := LoadDims(s, n); r.Read? ==> DumpDims(r.value) + r.rest == s
    decreases n
  {
    var r := LoadDims(s, n);
    if r.Read? {
      if n == 0 {
        assert [] + s == s;
      } else {
        var d := LoadNumber(s, 8);
        DumpLoadedNumber(s, 8);
        DumpLoadedDims(d.rest, n - 1);
        var ds := LoadDims(d.rest, n - 1);
        assert r.value[1..] == ds.value;
        assert LE(d.value, 8) + DumpDims(ds.value) + r.rest == LE(d.value, 8) + (DumpDims(ds.value) + r.rest);
      }
    }
  }

  lemma {:induction false} DumpOfFloats(s: seq<byte>, n: nat)
    requires |s| == 4 * n
    ensures DumpFloats(Floats(s, n)) == s
    decreases n
  {
    if n > 0 {
      DumpOfFloats(s[4..], n - 1);
      assert Floats(s, n)[1..] == Floats(s[4..], n - 1);
      assert s == s[..4] + s[4..];
    }
  }

  lemma DumpLoadedFloats(s: seq<byte>, n: nat)
    ensures var r := LoadFloats(s, n); r.Read? ==> DumpFloats(r.value) + r.rest == s
  {
    if n < MAX_FLOATS && |s| >= 4 * n {
      DumpOfFloats(s[..4 * n], n);
      assert s == s[..4 * n] + s[4 * n..];
    }
  }

  lemma DumpLoadedTensor(s: seq<byte>)
    ensures var r := LoadTensor(s); r.Read? ==> DumpTensor(r.value) + r.rest == s
  {
    var r := LoadTensor(s);
    if r.Read? {
      var rank := LoadNumber(s, 4);
      var shape := LoadDims(rank.rest, rank.value);
      var len := LoadNumber(shape.rest, 8);
      DumpLoadedNumber(s, 4);
      DumpLoadedDims(rank.rest, rank.value);
      DumpLoadedNumber(shape.rest, 8);
      DumpLoadedFloats(len.rest, len.value);
      TensorParts(LE(rank.value, 4), DumpDims(shape.value), LE(len.value, 8), DumpFloats(r.value.data), r.rest);
    }
  }

  lemma {:induction false} DumpLoadedTensors(s: seq<byte>, n: nat)
    ensures var r := LoadTensors(s, n); r.Read? ==> DumpTensors(r.value) + r.rest == s
    decreases n
  {
    var r := LoadTensors(s, n);
    if r.Read? {
      if n == 0 {
        assert [] + s == s;
      } else {
        var t := LoadTensor(s);
        DumpLoadedTensor(s);
        DumpLoadedTensors(t.rest, n - 1);
        var ts := LoadTensors(t.rest, n - 1);
        assert r.value[1..] == ts.value;
        Assoc(DumpTensor(t.value), DumpTensors(ts.value), r.rest);
      }
    }
  }

  /** Dumping what was loaded from any file gives back the bytes that were consumed. */
  lemma DumpLoad(s: seq<byte>)
    ensures var r := Load(s); r.Read? ==> Dump(r.value) + r.rest == s
  {
    var r := Load(s);
    if r.Read? {
      var n := LoadNumber(s, 4);
      DumpLoadedNumber(s, 4);
      DumpLoadedTensors(n.rest, n.value);
      Assoc(LE(n.value, 4), DumpTensors(r.value), r.rest);
    }
  }

  // ---- Truncated files ----

  lemma NumberGrows(s: seq<byte>, x: seq<byte>, k: nat)
    ensures var r := LoadNumber(s, k); r.Read? ==> LoadNumber(s + x, k) == Read(r.value, r.rest + x)
  {
    if |s| >= k {
      assert (s + x)[..k] == s[..k] && (s + x)[k..] == s[k..] + x;
    }
  }

  lemma {:induction false} DimsGrow(s: seq<byte>, x: seq<byte>, n: nat)
    ensures var r := LoadDims(s, n);
            !r.CapacityPanic? && !r.Overflow? && (r.Read? ==> LoadDims(s + x, n) == Read(r.value, r.rest + x))
    decreases n
  {
    if n > 0 {
      NumberGrows(s, x, 8);
      var d := LoadNumber(s, 8);
      if d.Read? {
        DimsGrow(d.rest, x, n - 1);
      }
    }
  }

  /** A result other than the end of the file does not depend on what follows. */
  ghost predicate Settled<T>(r: Parse<T>, longer: Parse<T>, x: seq<byte>) {
    match r
    case Read(v, rest) => longer == Read(v, rest + x)
    case CapacityPanic => longer == CapacityPanic
    case Overflow => longer == Overflow
    case Eof => true
  }

  lemma FloatsGrow(s: seq<byte>, x: seq<byte>, n: nat)
    ensures Settled(LoadFloats(s, n), LoadFloats(s + x, n), x)
  {
    if n < MAX_FLOATS && |s| >= 4 * n {
      assert (s + x)[..4 * n] == s[..4 * n] && (s + x)[4 * n..] == s[4 * n..] + x;
    }
  }

  lemma TensorGrows(s: seq<byte>, x: seq<byte>)
    ensures Settled(LoadTensor(s), LoadTensor(s + x), x)
  {
    NumberGrows(s, x, 4);
    var rank := LoadNumber(s, 4);
    if rank.Read? {
      DimsGrow(rank.rest, x, rank.value);
      var shape := LoadDims(rank.rest, rank.value);
      if shape.Read? {
        NumberGrows(shape.rest, x, 8);
        var len := LoadNumber(shape.rest, 8);
        if len.Read? {
          FloatsGrow(len.rest, x, len.value);
        }
      }
    }
  }

  lemma {:induction false} TensorsGrow(s: seq<byte>, x: seq<byte>, n: nat)
    ensures Settled(LoadTensors(s, n), LoadTensors(s + x, n), x)
    decreases n
  {
    if n > 0 {
      TensorGrows(s, x);
      var t := LoadTensor(s);
      if t.Read? {
        TensorsGrow(t.rest, x, n - 1);
      }
    }
  }

  lemma LoadGrows(s: seq<byte>, x: seq<byte>)
    ensures Settled(Load(s), Load(s + x), x)
  {
    NumberGrows(s, x, 4);
    var n := LoadNumber(s, 4);
    if n.Read? {
      TensorsGrow(n.rest, x, n.value);
    }
  }

  /** Every proper prefix of a dump is refused as too short. */
  lemma TruncatedIsEof(c: seq<Tensor>, k: nat)
    requires Fits(c) && (forall i :: 0 <= i < |c| ==> Allocatable(c[i])) && k < |Dump(c)|
    ensures Load(Dump(c)[..k]) == Eof
  {
    var s := Dump(c);
    assert s[..k] + s[k..] == s && s + [] == s;
    LoadDump(c, []);
    LoadGrows(s[..k], s[k..]);
  }

  // ---- The engine ----

  /** How a load ends. A panic does not return; the caller sees it unwind. */
  datatype LoadStatus = Loaded | TooShort | Panicked | Overflowed

  /** The outcome of a loop that has collected `done` and still has to read `rest`. */
  function After<T>(done: seq<T>, rest: Parse<seq<T>>): Parse<seq<T>> {
    if rest.Read? then Read(done + rest.value, rest.rest) else rest
  }

  lemma AfterNothing<T>(rest: Parse<seq<T>>)
    ensures After([], rest) == rest
  {
    if rest.Read? {
      assert [] + rest.value == rest.value;
    }
  }

  lemma AfterStep<T>(done: seq<T>, x: T, rest: Parse<seq<T>>)
    ensures After(done, After([x], rest)) == After(done + [x], rest)
  {
    if rest.Read? {
      assert done + ([x] + rest.value) == done + [x] + rest.value;
    }
  }

  lemma LoadsNext(done: seq<Tensor>, s: seq<byte>, n: nat)
    requires n > 0
    ensures var t := LoadTensor(s);
            if t.Read? then After(done, LoadTensors(s, n)) == After(done + [t.value], LoadTensors(t.rest, n - 1))
            else After(done, LoadTensors(s, n)) == t.PropagateFailure()
  {
    var t := LoadTensor(s);
    if t.Read? {
      AfterStep(done, t.value, LoadTensors(t.rest, n - 1));
    }
  }

  function StatusOf<T>(r: Parse<T>): LoadStatus {
    match r
    case Read(_, _) => Loaded
    case Eof => TooShort
    case CapacityPanic => Panicked
    case Overflow => Overflowed
  }

  class KvEngine {
    var activeKvCache: Option<seq<Tensor>>

    constructor ()
      ensures activeKvCache == None
    {
      activeKvCache := None;
    }

    /** Writes the cache in memory to a file; without one there is nothing to write. */
    method DumpKvCache() returns (file: Option<seq<byte>>)
      ensures file == match activeKvCache case None => None case Some(c) => Some(Dump(c))
    {
      if activeKvCache.None? {
        return None;
      }
      var cache := activeKvCache.value;
      var bytes := LE(|cache|, 4);
      assert cache[0..] == cache;
      for i := 0 to |cache|
        invariant bytes + DumpTensors(cache[i..]) == Dump(cache)
      {
        assert cache[i..][1..] == cache[i + 1..];
        var t := DumpTensorLoop(cache[i]);
        assert bytes + (t + DumpTensors(cache[i + 1..])) == bytes + t + DumpTensors(cache[i + 1..]);
        bytes := bytes + t;
      }
      assert bytes + [] == bytes;
      file := Some(bytes);
    }

    static method DumpTensorLoop(t: Tensor) returns (bytes: seq<byte>)
      ensures bytes == DumpTensor(t)
    {
      bytes := LE(|t.shape|, 4);
      ghost var rank := bytes;
      assert t.shape[0..] == t.shape;
      for i := 0 to |t.shape|
        invariant bytes + DumpDims(t.shape[i..]) == rank + DumpDims(t.shape)
      {
        assert t.shape[i..][1..] == t.shape[i + 1..];
        var d := LE(t.shape[i], 8);
        assert bytes + (d + DumpDims(t.shape[i + 1..])) == bytes + d + DumpDims(t.shape[i + 1..]);
        bytes := bytes + d;
      }
      assert bytes + [] == bytes;
      bytes := bytes + LE(|t.data|, 8) + DumpFloats(t.data);
      assert bytes == rank + DumpDims(t.shape) + LE(|t.data|, 8) + DumpFloats(t.data);
    }

    /** Reads a cache from a file; a file that is too short and a panic leave the old cache in place. */
    method LoadKvCache(file: seq<byte>) returns (status: LoadStatus)
      modifies this
      ensures match Load(file)
              case Read(c, _) => status == Loaded && activeKvCache == Some(c)
              case Eof => status == TooShort && activeKvCache == old(activeKvCache)
              case CapacityPanic => status == Panicked && activeKvCache == old(activeKvCache)
              case Overflow => status == Overflowed
    {
      var count := LoadNumber(file, 4);
      if count.Eof? {
        return TooShort;
      }
      var newCache := LoadTensorsLoop(count.rest, count.value);
      if newCache.Read? {
        activeKvCache := Some(newCache.value);
      }
      status := StatusOf(newCache);
    }

    static method LoadTensorsLoop(s: seq<byte>, n: nat) returns (r: Parse<seq<Tensor>>)
      ensures r == LoadTensors(s, n)
    {
      var newCache: seq<Tensor>, rest := [], s;
      AfterNothing(LoadTensors(s, n));
      for i := 0 to n
        invariant LoadTensors(s, n) == After(newCache, LoadTensors(rest, n - i))
      {
        var t := LoadTensorLoop(rest);
        LoadsNext(newCache, rest, n - i);
        if !t.Read? {
          return t.PropagateFailure();
        }
        newCache, rest := newCache + [t.value], t.rest;
      }
      assert newCache + [] == newCache;
      r := Read(newCache, rest);
    }

    static method LoadTensorLoop(s: seq<byte>) returns (r: Parse<Tensor>)
      ensures r == LoadTensor(s)
    {
      var rank := LoadNumber(s, 4);
      if !rank.Read? {
        return Eof;
      }
      var shape: seq<u64>, rest := [], rank.rest;
      AfterNothing(LoadDims(rest, rank.value));
      for i := 0 to rank.value
        invariant LoadDims(rank.rest, rank.value) == After(shape, LoadDims(rest, rank.value - i))
      {
        var d := LoadNumber(rest, 8);
        if !d.Read? {
          return Eof;
        }
        FromLEBound(rest[..8]);
        Sizes();
        AfterStep(shape, d.value, LoadDims(d.rest, rank.value - i - 1));
        shape, rest := shape + [d.value], d.rest;
      }
      assert shape + [] == shape;
      var len := LoadNumber(rest, 8);
      if !len.Read? {
        return Eof;
      }
      var data := LoadFloats(len.rest, len.value);
      r := if data.Read? then Read(Tensor(shape, data.value), data.rest) else data.PropagateFailure();
    }
  }
}
