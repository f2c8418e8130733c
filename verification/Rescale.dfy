/** Rescaling of src/filter_rescale.c, and how its results read back from the bytes of src/filter_pcm.c. */
module Rescale {
  import opened Bytes
  import opened FilterPcm

  const INT_MAX: int := 0x7FFF_FFFF

  /** Conversion to a C `int` of 32 bits. */
  function ToInt(v: int): int {
    (v + 0x8000_0000) % 0x1_0000_0000 - 0x8000_0000
  }

  /** Two to the power of `n`, as a signed number. */
  function Two(n: nat): (p: int)
    ensures p >= 1
  {
    Pow2(n)
  }

  /** Half a step of the output scale: what is added to round. */
  function Half(outbits: nat, bits: nat): (h: int)
    requires outbits < bits
    ensures h >= 1
  {
    Two(bits - outbits)
  }

  /** One step of the output scale, in input units. */
  function StepSize(outbits: nat, bits: nat): (s: int)
    requires outbits < bits
    ensures s >= 1
  {
    Two(bits + 1 - outbits)
  }

  function Clip(sample: int, one: int): int {
    if sample >= one then one - 1 else if sample < -one then -one else sample
  }

  /** `rescale_cb`; the shift by `bits` is defined up to 30. */
  function RescaleCb(outbits: nat, sample: int, bits: nat): int
    requires bits <= 30
  {
    if bits <= outbits then sample
    else Clip(ToInt(sample + Half(outbits, bits)), Two(bits)) / StepSize(outbits, bits)
  }

  datatype Format = Any | Mono8 | Mono16 | Stereo16 | Stereo24In3 | Stereo24In4 | Stereo32 | Stereo32Be | Unsupported

  /** How the filter lays out a format: FORMAT_SAMPLESIZE, FORMAT_SHIFT and FORMAT_NCHANNELS of jitter.h. */
  function LayoutOf(format: Format): Layout
    requires format != Any && format != Unsupported
  {
    match format
    case Mono8 => Layout(1, 8, 1)
    case Mono16 => Layout(2, 16, 1)
    case Stereo16 => Layout(2, 16, 2)
    case Stereo24In3 => Layout(3, 24, 2)
    case Stereo24In4 => Layout(4, 24, 2)
    case Stereo32 => Layout(4, 32, 2)
    case Stereo32Be => Layout(4, 32, 2)
  }

  /** The context of the callback. */
  class Context {
    var outbits: int
    var one: int

    constructor ()
    {
      outbits, one := 0, 0;
    }

    /** `rescale_init`: a PCM format gets the width that the filter gives its samples; another one is refused. */
    method Init(bits: nat, format: Format) returns (ok: bool)
      requires bits <= 30
      modifies this
      ensures ok <==> format != Unsupported
      ensures ok ==> outbits == if format == Any then bits else LayoutOf(format).shift
      ensures ok && outbits < 32 ==> one == Pow2(outbits)
      ensures !ok ==> outbits == old(outbits) && one == old(one)
    {
      var out := bits;
      match format {
        case Any =>
        case Mono8 => out := 8;
        case Mono16 => out := 16;
        case Stereo16 => out := 16;
        case Stereo24In3 => out := 24;
        case Stereo24In4 => out := 24;
        case Stereo32 => out := 32;
        case Stereo32Be => out := 32;
        case Unsupported => return false;
      }
      outbits := out;
      one := if out < 32 then Pow2(out) else 0;
      return true;
    }

    /** `rescale_cb`, with the shift to the right rounding down. A sample with more bits than the output comes out within
        the output's range. */
    method Callback(sample: int, bits: nat) returns (r: int)
      requires bits <= 30 && 0 <= outbits
      ensures r == RescaleCb(outbits, sample, bits)
      ensures 1 <= outbits < bits ==> -Two(outbits - 1) <= r < Two(outbits - 1)
    {
      hide Two, ToInt;
      if 1 <= outbits < bits {
        Fits(outbits, sample, bits);
      }
      if bits <= outbits {
        return sample;
      }
      var scale := Two(bits);
      var rounded := ToInt(sample + Two(bits - outbits));
      if rounded >= scale {
        rounded := scale - 1;
      } else if rounded < -scale {
        rounded := -scale;
      }
      return rounded / Two(bits + 1 - outbits);
    }
  }

  // ----- dividing by a step -----

  lemma Product(n: int, step: int)
    requires n >= 1 && step >= 1
    ensures n * step >= step
  {
    assert (n - 1) * step >= 0;
  }

  lemma DivDefinition(v: int, step: int)
    requires step >= 1
    ensures (v / step) * step <= v < (v / step) * step + step
  {
    assert v == (v / step) * step + v % step;
  }

  lemma DivUnique(v: int, step: int, q: int)
    requires step >= 1 && q * step <= v < q * step + step
    ensures v / step == q
  {
    var d := v / step;
    DivDefinition(v, step);
    if d < q {
      Product(q - d, step);
    } else if d > q {
      Product(d - q, step);
    }
  }

  lemma DivMonotone(x: int, y: int, step: int)
    requires step >= 1 && x <= y
    ensures x / step <= y / step
  {
    DivDefinition(x, step);
    DivDefinition(y, step);
    var p, q := x / step, y / step;
    if p > q {
      Product(p - q, step);
    }
  }

  lemma DivBounds(v: int, step: int, bound: int)
    requires step >= 1 && -(bound * step) <= v < bound * step
    ensures -bound <= v / step < bound
  {
    assert (-bound) * step == -(bound * step) && (bound - 1) * step == bound * step - step;
    DivUnique((-bound) * step, step, -bound);
    DivUnique(bound * step - 1, step, bound - 1);
    DivMonotone((-bound) * step, v, step);
    DivMonotone(v, bound * step - 1, step);
  }

  // ----- rounding -----

  lemma Steps(outbits: nat, bits: nat)
    requires 1 <= outbits < bits
    ensures StepSize(outbits, bits) == 2 * Half(outbits, bits)
    ensures Two(bits) == Two(outbits - 1) * StepSize(outbits, bits)
  {
    PowerOfSum(outbits - 1, bits + 1 - outbits);
  }

  lemma {:induction false} PowBelow(n: nat, m: nat)
    requires n <= m
    ensures Two(n) <= Two(m)
    decreases m - n
  {
    if n < m {
      PowBelow(n + 1, m);
    }
  }

  lemma PowThirty()
    ensures Two(30) == 0x4000_0000
  {
    assert Pow2(10) == 0x400;
    assert Pow2(20) == 0x10_0000;
  }

  /** The bounds within which nothing overflows for 30 bits or fewer. */
  lemma Ranges(outbits: nat, bits: nat)
    requires 1 <= outbits < bits <= 30
    ensures Half(outbits, bits) <= Two(bits) <= 0x4000_0000
  {
    PowThirty();
    PowBelow(bits, 30);
    PowBelow(bits - outbits, bits);
  }

  /** The result always fits into `outbits` signed bits, even when the rounding add overflows. */
  lemma Fits(outbits: nat, sample: int, bits: nat)
    requires 1 <= outbits < bits <= 30
    ensures -Two(outbits - 1) <= RescaleCb(outbits, sample, bits) < Two(outbits - 1)
  {
    hide Two;
    Steps(outbits, bits);
    DivBounds(Clip(ToInt(sample + Half(outbits, bits)), Two(bits)), StepSize(outbits, bits), Two(outbits - 1));
  }

  /** A sample that is not clipped is rounded to the nearest step, upwards from the middle. */
  lemma Nearest(outbits: nat, sample: int, bits: nat)
    requires 1 <= outbits < bits <= 30
    requires -Two(bits) <= sample + Half(outbits, bits) < Two(bits)
    ensures var error := RescaleCb(outbits, sample, bits) * StepSize(outbits, bits) - sample;
            -StepSize(outbits, bits) < 2 * error <= StepSize(outbits, bits)
  {
    hide Two, Half, StepSize;
    Ranges(outbits, bits);
    Steps(outbits, bits);
    DivDefinition(sample + Half(outbits, bits), StepSize(outbits, bits));
  }

  /** Larger samples give larger results, as long as the rounding add stays in range. */
  lemma Monotone(outbits: nat, a: int, b: int, bits: nat)
    requires 1 <= outbits < bits <= 30
    requires -0x8000_0000 <= a <= b && b + Half(outbits, bits) <= INT_MAX
    ensures RescaleCb(outbits, a, bits) <= RescaleCb(outbits, b, bits)
  {
    hide Two, Half, StepSize;
    Ranges(outbits, bits);
    var half, one := Half(outbits, bits), Two(bits);
    assert ToInt(a + half) == a + half && ToInt(b + half) == b + half;
    DivMonotone(Clip(a + half, one), Clip(b + half, one), StepSize(outbits, bits));
  }

  /** The order is lost exactly when `sample` plus half a step leaves the range of an `int`: the largest samples
      then come out as the smallest value. */
  lemma OverflowFlips(outbits: nat, sample: int, bits: nat)
    requires 1 <= outbits < bits <= 30 && 0 <= sample <= INT_MAX
    ensures sample + Half(outbits, bits) > INT_MAX <==> RescaleCb(outbits, sample, bits) < 0
    ensures sample + Half(outbits, bits) > INT_MAX ==> RescaleCb(outbits, sample, bits) == -Two(outbits - 1)
  {
    hide Two, Half, StepSize;
    Ranges(outbits, bits);
    Steps(outbits, bits);
    var half, step, one, bound := Half(outbits, bits), StepSize(outbits, bits), Two(bits), Two(outbits - 1);
    if sample + half > INT_MAX {
      assert ToInt(sample + half) == sample + half - 0x1_0000_0000 < -one;
      assert (-bound) * step == -one;
      DivUnique(-one, step, -bound);
    } else {
      assert ToInt(sample + half) == sample + half;
      DivUnique(0, step, 0);
      DivMonotone(0, Clip(sample + half, one), step);
    }
  }

  // ----- reading the bytes back -----

  /** The unsigned value of little-endian bytes. */
  function Unsigned(bytes: seq<byte>): (v: int)
    ensures 0 <= v
  {
    if bytes == [] then 0 else bytes[0] + 256 * Unsigned(bytes[1..])
  }

  /** The two's-complement value of little-endian bytes. */
  function Signed(bytes: seq<byte>): int {
    var v, range := Unsigned(bytes), Two(8 * |bytes|);
    if 2 * v >= range then v - range else v
  }

  /** The value fits into `n` signed bytes. */
  predicate FitsBytes(v: int, n: nat) {
    -Two(8 * n) <= 2 * v < Two(8 * n)
  }

  /** The formats in which every byte of a sample is used: 8, 16, 24 and 32 bits, and 24 bits in 4 bytes. */
  predicate LittleEndian(layout: Layout) {
    layout.samplesize > 0 && layout.shift % 8 == 0 && 8 * (layout.samplesize - 1) <= layout.shift <= 8 * layout.samplesize
  }

  /** The `n` low bytes of a number. */
  function LowBytes(v: int, n: nat): (r: seq<byte>)
    ensures |r| == n
    decreases n
  {
    if n == 0 then [] else [v % 256] + LowBytes(v / 256, n - 1)
  }

  lemma ByteOfShifted(v: int, k: nat)
    ensures ByteOf(v, k + 1) == ByteOf(v / 256, k)
  {
    PowerOfSum(8, 8 * k);
    assert Pow2(8) == 256;
    var p: int := Pow2(8 * k);
    DivDefinition(v, 256);
    DivDefinition(v / 256, p);
    var q := (v / 256) / p;
    assert (q * p) * 256 == q * (256 * p);
    DivUnique(v, 256 * p, q);
  }

  lemma {:induction false} LowBytesAt(v: int, n: nat, k: nat)
    requires k < n
    ensures LowBytes(v, n)[k] == ByteOf(v, k)
    decreases k
  {
    hide ByteOf;
    if k > 0 {
      LowBytesAt(v / 256, n - 1, k - 1);
      ByteOfShifted(v, k - 1);
      assert LowBytes(v, n)[k] == LowBytes(v / 256, n - 1)[k - 1];
    } else {
      LowestByte(v);
    }
  }

  lemma LowestByte(v: int)
    ensures ByteOf(v, 0) == v % 256
  {
    assert Pow2(0) == 1;
  }

  /** What is left of a number above its `n` low bytes. */
  function Upper(v: int, n: nat): int
    decreases n
  {
    if n == 0 then v else Upper(v / 256, n - 1)
  }

  lemma PowerOfByte(n: nat)
    requires n > 0
    ensures Two(8 * n) == 256 * Two(8 * (n - 1))
  {
    PowerOfSum(8, 8 * (n - 1));
    assert Pow2(8) == 256;
  }

  lemma {:induction false} UnsignedLow(v: int, n: nat)
    ensures v == Upper(v, n) * Two(8 * n) + Unsigned(LowBytes(v, n))
    ensures Unsigned(LowBytes(v, n)) < Two(8 * n)
    decreases n
  {
    hide Two;
    if n > 0 {
      UnsignedLow(v / 256, n - 1);
      PowerOfByte(n);
      assert LowBytes(v, n)[1..] == LowBytes(v / 256, n - 1);
      DivDefinition(v, 256);
      Reorder(Upper(v, n), 256, Two(8 * (n - 1)));
    } else {
      assert Two(0) == 1 by { TwoZero(); }
    }
  }

  lemma TwoZero()
    ensures Two(0) == 1
  {
  }

  lemma Reorder(a: int, b: int, c: int)
    ensures (a * c) * b == a * (b * c)
  {
  }

  lemma SignedLow(v: int, n: nat)
    ensures Signed(LowBytes(v, n)) == v <==> FitsBytes(v, n)
    ensures FitsBytes(Signed(LowBytes(v, n)), n)
  {
    hide Two, Upper, Unsigned, LowBytes;
    UnsignedLow(v, n);
    var range, q := Two(8 * n), Upper(v, n);
    WholeRanges(q, range);
  }

  lemma WholeRanges(q: int, range: int)
    requires range >= 1
    ensures q >= 1 ==> q * range >= range
    ensures q <= -2 ==> q * range <= -range - range
    ensures q == 0 ==> q * range == 0
    ensures q == -1 ==> q * range == -range
  {
    if q >= 1 { Product(q, range); }
    if q <= -2 {
      Product(-q - 1, range);
      assert (-q - 1) * range == -(q * range) - range;
    }
  }

  function Zeros(n: nat): seq<byte> {
    seq(n, _ => 0)
  }

  lemma {:induction false} UnsignedShifted(bytes: seq<byte>, j: nat)
    ensures Unsigned(Zeros(j) + bytes) == Unsigned(bytes) * Two(8 * j)
    decreases j
  {
    if j > 0 {
      UnsignedShifted(bytes, j - 1);
      assert (Zeros(j) + bytes)[1..] == Zeros(j - 1) + bytes;
      ByteMore(Unsigned(bytes), j);
    } else {
      assert Zeros(0) + bytes == bytes;
    }
  }

  lemma ByteMore(v: int, j: nat)
    requires j > 0
    ensures 256 * (v * Two(8 * (j - 1))) == v * Two(8 * j)
  {
    PowerOfSum(8, 8 * (j - 1));
    assert Pow2(8) == 256;
  }

  lemma SignedShifted(bytes: seq<byte>, j: nat)
    ensures Signed(Zeros(j) + bytes) == Signed(bytes) * Two(8 * j)
  {
    var shifted := Zeros(j) + bytes;
    UnsignedShifted(bytes, j);
    PowerOfSum(8 * |bytes|, 8 * j);
    assert 8 * |shifted| == 8 * |bytes| + 8 * j;
    ScaleSigned(Unsigned(bytes), Two(8 * |bytes|), Two(8 * j));
  }

  lemma ScaleSigned(v: int, range: int, p: int)
    requires p >= 1
    ensures (2 * v >= range <==> 2 * (v * p) >= range * p) && (v - range) * p == v * p - range * p
  {
    ScaleOrder(2 * v, range, p);
    Reorder(2, v, p);
    assert (2 * v) * p == 2 * (v * p);
  }

  lemma ScaleOrder(a: int, b: int, p: int)
    requires p >= 1
    ensures a >= b <==> a * p >= b * p
  {
    if a < b {
      Product(b - a, p);
    } else {
      assert (a - b) * p >= 0;
    }
  }

  /** The bytes of a sample: zeros for the bits it lacks, then its low bytes. */
  lemma SampleBytesShape(layout: Layout, sample: int, bits: nat)
    requires LittleEndian(layout)
    ensures var j := Leading(layout, bits);
      j <= layout.samplesize && SampleBytes(layout, sample, bits) == Zeros(j) + LowBytes(sample, layout.samplesize - j)
  {
    var j := Leading(layout, bits);
    forall i | 0 <= i < layout.samplesize
      ensures SampleBytes(layout, sample, bits)[i] == (Zeros(j) + LowBytes(sample, layout.samplesize - j))[i]
    {
      if i >= j {
        LowBytesAt(sample, layout.samplesize - j, i - j);
      }
    }
  }

  /** The bytes of a sample read back as the sample, moved up by the zero bytes below it, exactly when the
      sample fits into the bytes above them. */
  lemma ReadBack(layout: Layout, sample: int, bits: nat)
    requires LittleEndian(layout)
    ensures Leading(layout, bits) <= layout.samplesize
    ensures Signed(SampleBytes(layout, sample, bits)) == sample * Two(8 * Leading(layout, bits))
       <==> FitsBytes(sample, layout.samplesize - Leading(layout, bits))
  {
    var j := Leading(layout, bits);
    var n := layout.samplesize - j;
    SampleBytesShape(layout, sample, bits);
    SignedShifted(LowBytes(sample, n), j);
    SignedLow(sample, n);
    var low, p := Signed(LowBytes(sample, n)), Two(8 * j);
    ScaleOrder(low, sample, p);
    ScaleOrder(sample, low, p);
  }

  /** What is in the bytes of the output is the rescaled sample; a sample that is too narrow is moved up, if it fits. */
  ghost predicate ReadsBack(layout: Layout, sample: int, bits: nat, bytes: seq<byte>)
    requires bits <= 30
  {
    if layout.shift < bits then
      Signed(bytes) == RescaleCb(layout.shift, sample, bits)
    else
      var j := Leading(layout, bits);
      j <= layout.samplesize
      && (Signed(bytes) == sample * Two(8 * j) <==> FitsBytes(sample, layout.samplesize - j))
  }

  /** Rescaled to the width of the format and laid out in it, every sample reads back so. */
  lemma RescaledReadBack(layout: Layout, sample: int, bits: nat)
    requires LittleEndian(layout) && 1 <= layout.shift && bits <= 30
    ensures ReadsBack(layout, sample, bits, SampleBytes(layout, RescaleCb(layout.shift, sample, bits), bits))
  {
    hide SampleBytes, Signed, RescaleCb, Two;
    if layout.shift < bits {
      NarrowedReadBack(layout, sample, bits);
    } else {
      Unscaled(layout.shift, sample, bits);
      ReadBack(layout, sample, bits);
    }
  }

  lemma NarrowedReadBack(layout: Layout, sample: int, bits: nat)
    requires LittleEndian(layout) && 1 <= layout.shift < bits <= 30
    ensures var r := RescaleCb(layout.shift, sample, bits); Signed(SampleBytes(layout, r, bits)) == r
  {
    hide SampleBytes, Signed, RescaleCb, Two;
    var r := RescaleCb(layout.shift, sample, bits);
    ReadBack(layout, r, bits);
    Fits(layout.shift, sample, bits);
    NarrowFits(layout, r);
    TwoZero();
  }

  lemma NarrowFits(layout: Layout, r: int)
    requires LittleEndian(layout) && 1 <= layout.shift && -Two(layout.shift - 1) <= r < Two(layout.shift - 1)
    ensures FitsBytes(r, layout.samplesize)
  {
    PowBelow(layout.shift, 8 * layout.samplesize);
    assert Two(layout.shift) == 2 * Two(layout.shift - 1);
  }

  lemma Unscaled(outbits: nat, sample: int, bits: nat)
    requires bits <= outbits && bits <= 30
    ensures RescaleCb(outbits, sample, bits) == sample
  {
  }

  /** A decoder whose output has a little-endian format: what it rescales is what a reader of the output finds. */
  method DecoderSample(format: Format, sample: int, bits: nat) returns (bytes: seq<byte>)
    requires bits <= 30 && format != Any && format != Unsupported && format != Stereo32Be
    ensures ReadsBack(LayoutOf(format), sample, bits, bytes)
  {
    hide SampleBytes, RescaleCb, Two, ReadsBack, LayoutOf, LittleEndian;
    var layout := LayoutOf(format);
    LayoutLittle(format);
    var context := new Context();
    var _ := context.Init(0, format);
    var r := context.Callback(sample, bits);
    RescaledReadBack(layout, sample, bits);
    return SampleBytes(layout, r, bits);
  }

  lemma LayoutLittle(format: Format)
    requires format != Any && format != Unsupported && format != Stereo32Be
    ensures LittleEndian(LayoutOf(format)) && LayoutOf(format).shift >= 1
  {
  }
}
