/** The byte-buffer side of the sound effects: 16-bit signed little-endian
    samples packed into Java `byte`s, buffers concatenated, and two buffers
    mixed sample by sample with clamping. Sample values themselves (sine,
    noise, envelope) are floating point and enter as inputs. */
module SoundBuffers {
  /** A Java `byte`. */
  type Byte = x: int | -128 <= x < 128

  /** A Java `short`. */
  type Short = x: int | -32768 <= x < 32768

  const ShortMin: int := -32768
  const ShortMax: int := 32767

  /** `v & 0xFF` on a two's-complement int: its low eight bits. */
  function LowBits(v: int): (r: int)
    ensures 0 <= r < 256
  {
    v % 256
  }

  /** `v >> 8`: arithmetic shift, rounding towards minus infinity. */
  function ShiftRight8(v: int): (r: int)
    ensures r * 256 <= v < r * 256 + 256
  {
    v / 256
  }

  /** The `(byte)` cast of a value in 0..255: its two's-complement reading. */
  function ToByte(u: int): (b: Byte)
    requires 0 <= u < 256
    ensures b == u || b == u - 256
  {
    if u < 128 then u else u - 256
  }

  /** The `(short)` cast of an int: wrap-around to 16 bits. */
  function ToShort(v: int): (s: Short)
    ensures ShortMin <= v <= ShortMax ==> s == v
  {
    var m := v % 65536;
    if m < 32768 then m else m - 65536
  }

  /** `(byte) (sample & 0xFF)`: the first (low) byte of a sample. */
  function LowByte(sample: int): Byte
  {
    ToByte(LowBits(sample))
  }

  /** `(byte) ((sample >> 8) & 0xFF)`: the second (high) byte of a sample. */
  function HighByte(sample: int): Byte
  {
    ToByte(LowBits(ShiftRight8(sample)))
  }

  /** `(short) ((hi << 8) | (lo & 0xFF))`: the sample stored as `lo, hi`.
      The low eight bits of `hi << 8` are zero and `lo & 0xFF` lies below 256,
      so the bitwise or is the sum. */
  function Unpack(hi: Byte, lo: Byte): Short
  {
    ToShort(hi * 256 + LowBits(lo))
  }

  /** Unpacking the two packed bytes of a 16-bit sample gives it back. */
  lemma UnpackPack(s: Short)
    ensures Unpack(HighByte(s), LowByte(s)) == s
  {
    var q := ShiftRight8(s);
    assert -128 <= q < 128;
    assert LowBits(LowByte(s)) == LowBits(s);
    assert HighByte(s) == q;
    assert q * 256 + LowBits(s) == s;
  }

  /** Packing an unpacked sample gives back the two bytes. */
  lemma PackUnpack(hi: Byte, lo: Byte)
    ensures HighByte(Unpack(hi, lo)) == hi && LowByte(Unpack(hi, lo)) == lo
  {
    var u := LowBits(lo);
    var s := hi * 256 + u;
    assert Unpack(hi, lo) == s;
    assert ShiftRight8(s) == hi;
    assert LowBits(s) == u;
  }

  /** The packed form of a sequence of samples: each sample as low byte then
      high byte. */
  function Packed(samples: seq<Short>): (data: seq<Byte>)
    ensures |data| == 2 * |samples|
  {
    if samples == [] then []
    else
      var last := samples[|samples| - 1];
      Packed(samples[..|samples| - 1]) + [LowByte(last), HighByte(last)]
  }

  /** Sample `i` sits at bytes `2 * i` and `2 * i + 1` of the packed form. */
  lemma {:induction false} PackedAt(samples: seq<Short>, i: int)
    requires 0 <= i < |samples|
    ensures Packed(samples)[2 * i] == LowByte(samples[i])
    ensures Packed(samples)[2 * i + 1] == HighByte(samples[i])
  {
    var init := samples[..|samples| - 1];
    if i < |samples| - 1 {
      PackedAt(init, i);
    }
  }

  /** Every sample can be read back from its packed form. */
  lemma PackedRoundTrip(samples: seq<Short>, i: int)
    requires 0 <= i < |samples|
    ensures Unpack(Packed(samples)[2 * i + 1], Packed(samples)[2 * i]) == samples[i]
  {
    PackedAt(samples, i);
    UnpackPack(samples[i]);
  }

  /** The sample loop of `tone` and `noise`: sample `i` is written at
      `2 * i` (low byte) and `2 * i + 1` (high byte) of a buffer of twice the
      number of samples. */
  method PackSamples(samples: seq<Short>) returns (data: array<Byte>)
    ensures fresh(data)
    ensures data[..] == Packed(samples)
  {
    data := new Byte[2 * |samples|];
    for i := 0 to |samples|
      invariant data[..2 * i] == Packed(samples[..i])
    {
      var sample := samples[i];
      var idx := i * 2;
      data[idx] := LowByte(sample);
      data[idx + 1] := HighByte(sample);
      assert samples[..i + 1][..i] == samples[..i];
      assert data[..2 * i + 2] == data[..2 * i] + [data[idx], data[idx + 1]];
    }
    assert samples[..|samples|] == samples;
    assert data[..] == data[..2 * |samples|];
  }

  /** The parts laid end to end, in argument order. */
  function Concatenation(parts: seq<seq<Byte>>): (out: seq<Byte>)
    ensures |out| == TotalLength(parts)
  {
    if parts == [] then [] else Concatenation(parts[..|parts| - 1]) + parts[|parts| - 1]
  }

  /** The sum of the part lengths: the first loop of `concat`. */
  function TotalLength(parts: seq<seq<Byte>>): (n: nat)
  {
    if parts == [] then 0 else TotalLength(parts[..|parts| - 1]) + |parts[|parts| - 1]|
  }

  /** The offset at which part `j` starts: the lengths of the parts before it. */
  function Offset(parts: seq<seq<Byte>>, j: int): (n: nat)
    requires 0 <= j <= |parts|
    ensures n <= TotalLength(parts)
  {
    OffsetBound(parts, j);
    TotalLength(parts[..j])
  }

  lemma {:induction false} OffsetBound(parts: seq<seq<Byte>>, j: int)
    requires 0 <= j <= |parts|
    ensures TotalLength(parts[..j]) <= TotalLength(parts)
    decreases |parts|
  {
    if j < |parts| {
      var init := parts[..|parts| - 1];
      assert parts[..j] == init[..j];
      OffsetBound(init, j);
    } else {
      assert parts[..j] == parts;
    }
  }

  /** Part `j` sits contiguously at its offset in the concatenation. */
  lemma {:induction false} ConcatenationHoldsParts(parts: seq<seq<Byte>>, j: int)
    requires 0 <= j < |parts|
    ensures Offset(parts, j) + |parts[j]| <= |Concatenation(parts)|
    ensures Concatenation(parts)[Offset(parts, j)..Offset(parts, j) + |parts[j]|] == parts[j]
    decreases |parts|
  {
    var init := parts[..|parts| - 1];
    assert parts[..|parts|] == parts;
    if j == |parts| - 1 {
      assert parts[..j] == init;
    } else {
      assert parts[..j] == init[..j];
      ConcatenationHoldsParts(init, j);
    }
  }

  /** `concat`: sums the part lengths, then copies each part in turn at the
      running offset. */
  method Concat(parts: seq<seq<Byte>>) returns (out: array<Byte>)
    ensures fresh(out)
    ensures out[..] == Concatenation(parts)
  {
    var total := 0;
    for j := 0 to |parts|
      invariant total == TotalLength(parts[..j])
    {
      assert parts[..j + 1][..j] == parts[..j];
      total := total + |parts[j]|;
    }
    assert parts[..|parts|] == parts;
    out := new Byte[total];
    var offset := 0;
    for j := 0 to |parts|
      invariant offset == TotalLength(parts[..j]) && offset <= out.Length
      invariant out[..offset] == Concatenation(parts[..j])
    {
      var part := parts[j];
      assert parts[..j + 1][..j] == parts[..j];
      OffsetBound(parts, j + 1);
      forall k | 0 <= k < |part| {
        out[offset + k] := part[k];
      }
      assert out[..offset + |part|] == out[..offset] + part;
      offset := offset + |part|;
    }
  }

  /** `Math.max` on lengths. */
  function MaxLength(m: int, n: int): (r: int)
    ensures r >= m && r >= n && (r == m || r == n)
  {
    if m >= n then m else n
  }

  /** The sample a buffer holds at byte index `i`, or 0 when the buffer has
      no complete sample there (past its end, or a trailing odd byte). */
  function SampleAt(buf: seq<Byte>, i: int): (s: Short)
    requires 0 <= i
    ensures i + 1 >= |buf| ==> s == 0
    ensures i + 1 < |buf| ==> s == Unpack(buf[i + 1], buf[i])
  {
    if i + 1 < |buf| then Unpack(buf[i + 1], buf[i]) else 0
  }

  /** `Math.max(min, Math.min(max, v))` with the bounds of `short`. */
  function Clamp16(v: int): (s: Short)
    ensures ShortMin <= v <= ShortMax ==> s == v
    ensures v > ShortMax ==> s == ShortMax
    ensures v < ShortMin ==> s == ShortMin
  {
    if v > ShortMax then ShortMax else if v < ShortMin then ShortMin else v
  }

  /** The mixed, clamped sample at byte index `i`. `gain` is
      `(int) (sa * gainA + sb * gainB)`, a floating-point computation left
      abstract. */
  function Mixed(a: seq<Byte>, b: seq<Byte>, gain: (int, int) -> int, i: int): Short
    requires 0 <= i
  {
    Clamp16(gain(SampleAt(a, i), SampleAt(b, i)))
  }

  /** The bytes `mix` writes from index `i` on, for an output of length
      `max`: the low byte of the mixed sample at `i`, then its high byte when
      there is room, then the bytes from `i + 2`. */
  function MixFrom(a: seq<Byte>, b: seq<Byte>, gain: (int, int) -> int, i: nat, max: nat): (out: seq<Byte>)
    ensures |out| == if i < max then max - i else 0
    decreases max - i
  {
    if i >= max then []
    else if i + 1 < max then [LowByte(Mixed(a, b, gain, i)), HighByte(Mixed(a, b, gain, i))] + MixFrom(a, b, gain, i + 2, max)
    else [LowByte(Mixed(a, b, gain, i))]
  }

  /** The buffer `mix` produces: as long as the longer input. */
  function MixOf(a: seq<Byte>, b: seq<Byte>, gain: (int, int) -> int): (out: seq<Byte>)
    ensures |out| == MaxLength(|a|, |b|)
  {
    MixFrom(a, b, gain, 0, MaxLength(|a|, |b|))
  }

  /** In the bytes written from `j` on, sample number `d` (byte `j + 2 * d`
      of the output) is stored as its low byte and, when there is room, its
      high byte. */
  lemma {:induction false} MixFromAt(a: seq<Byte>, b: seq<Byte>, gain: (int, int) -> int, j: nat, max: nat, d: nat)
    requires j + 2 * d < max
    decreases d
    ensures MixFrom(a, b, gain, j, max)[2 * d] == LowByte(Mixed(a, b, gain, j + 2 * d))
    ensures j + 2 * d + 1 < max ==>
      MixFrom(a, b, gain, j, max)[2 * d + 1] == HighByte(Mixed(a, b, gain, j + 2 * d))
  {
    if d > 0 {
      MixFromAt(a, b, gain, j + 2, max, d - 1);
    }
  }

  /** The body of `mix` up to the writes: read a sample from each input at
      byte index `i` (0 where it has none), mix them and clamp the result to
      the range of `short`. */
  method MixAt(a: seq<Byte>, b: seq<Byte>, gain: (int, int) -> int, i: nat) returns (mixed: Short)
    ensures mixed == Mixed(a, b, gain, i)
  {
    var sa := 0;
    var sb := 0;
    if i + 1 < |a| {
      sa := Unpack(a[i + 1], a[i]);
    }
    if i + 1 < |b| {
      sb := Unpack(b[i + 1], b[i]);
    }
    var v := gain(sa, sb);
    if v > ShortMax {
      v := ShortMax;
    }
    if v < ShortMin {
      v := ShortMin;
    }
    mixed := v;
  }

  /** `mix`: one pass over even indices, mixing the samples at each and
      writing the low byte and, when there is room, the high byte. */
  method Mix(a: seq<Byte>, b: seq<Byte>, gain: (int, int) -> int) returns (out: array<Byte>)
    ensures fresh(out)
    ensures out[..] == MixOf(a, b, gain)
  {
    var max := MaxLength(|a|, |b|);
    out := new Byte[max];
    ghost var spec := MixOf(a, b, gain);
    var i := 0;
    ghost var h := 0;
    while i < max
      invariant 0 <= i <= max + 1 && i == 2 * h
      invariant forall k :: 0 <= k < i && k < max ==> out[k] == spec[k]
    {
      var mixed := MixAt(a, b, gain, i);
      MixFromAt(a, b, gain, 0, max, h);
      out[i] := LowByte(mixed);
      if i + 1 < out.Length {
        out[i + 1] := HighByte(mixed);
      }
      i, h := i + 2, h + 1;
    }
    assert out[..] == spec;
  }

  /** Every complete sample of the mixed buffer reads back as the clamped
      mix of the input samples at that position, which lies in the range of
      `short`. */
  lemma MixSamples(a: seq<Byte>, b: seq<Byte>, gain: (int, int) -> int, d: nat)
    requires 2 * d + 1 < MaxLength(|a|, |b|)
    ensures Unpack(MixOf(a, b, gain)[2 * d + 1], MixOf(a, b, gain)[2 * d]) ==
      Clamp16(gain(SampleAt(a, 2 * d), SampleAt(b, 2 * d)))
  {
    MixFromAt(a, b, gain, 0, MaxLength(|a|, |b|), d);
    UnpackPack(Mixed(a, b, gain, 2 * d));
  }

  /** When the output length is odd, its last byte holds only the low byte
      of the last mixed sample, and neither input has a full sample there. */
  lemma MixOddTail(a: seq<Byte>, b: seq<Byte>, gain: (int, int) -> int, d: nat)
    requires MaxLength(|a|, |b|) == 2 * d + 1
    ensures MixOf(a, b, gain)[2 * d] == LowByte(Clamp16(gain(0, 0)))
  {
    MixFromAt(a, b, gain, 0, MaxLength(|a|, |b|), d);
  }

  /** Mixing a buffer of whole samples with an empty one under a gain that
      keeps the first sample and ignores silence gives the buffer back. */
  lemma MixWithSilence(a: seq<Byte>, gain: (int, int) -> int)
    requires |a| % 2 == 0
    requires forall s: Short :: gain(s, 0) == s
    ensures MixOf(a, [], gain) == a
  {
    var out := MixOf(a, [], gain);
    forall k | 0 <= k < |a|
      ensures out[k] == a[k]
    {
      var d := k / 2;
      assert k == 2 * d || k == 2 * d + 1;
      assert 2 * d + 1 < |a|;
      MixFromAt(a, [], gain, 0, |a|, d);
      PackUnpack(a[2 * d + 1], a[2 * d]);
    }
  }
}
