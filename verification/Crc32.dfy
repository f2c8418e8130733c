/** The checksum of clients/crc32.c: a reflected CRC-32 over a NUL-terminated
    message, one bit at a time, and the burst errors it always detects. */
module Crc32 {
  import opened Bytes

  const POLYNOMIAL: nat := 0xEDB88320
  const ALL_ONES: nat := 0xFFFFFFFF

  /** A C `unsigned int` of 32 bits. */
  type Word = w: nat | w <= ALL_ONES

  // ----- specification -----

  /** One turn of the inner loop: the mask is all ones when the low bit is set, and zero otherwise. */
  function BitStep(crc: Word): Word {
    XorWord(crc / 2, Mask(crc))
  }

  function XorWord(a: Word, b: Word): (r: Word)
    ensures r == Xor(a, b)
  {
    WordBound();
    XorBounded(a, b, 32);
    Xor(a, b)
  }

  lemma WordBound()
    ensures Pow2(32) == ALL_ONES + 1 && Pow2(31) == 0x80000000
  {
    assert Pow2(8) == 0x100;
    assert Pow2(16) == 0x10000;
    assert Pow2(24) == 0x1000000;
  }

  function BitSteps(crc: Word, n: nat): Word
    decreases n
  {
    if n == 0 then crc else BitSteps(BitStep(crc), n - 1)
  }

  /** The inner loop runs eight times. */
  function BitsPerByte(): nat { 8 }

  /** One turn of the outer loop. */
  function ByteStep(crc: Word, b: byte): Word {
    BitSteps(XorWord(crc, b), BitsPerByte())
  }

  /** The register after a whole message, started from `crc`. */
  function Run(crc: Word, message: seq<byte>): Word
    decreases message
  {
    if message == [] then crc else Run(ByteStep(crc, message[0]), message[1..])
  }

  /** The complement of the final register. */
  function Checksum(message: seq<byte>): Word {
    ALL_ONES - Run(ALL_ONES, message)
  }

  /** `n` is the length of the C string that starts at `buffer[0]`. */
  predicate IsStringLength(buffer: seq<byte>, n: nat) {
    n < |buffer| && buffer[n] == 0 && forall k :: 0 <= k < n ==> buffer[k] != 0
  }

  // ----- the program -----

  /** The two nested loops; the message ends at its first NUL. */
  method Crc32b(message: array<byte>, ghost length: nat) returns (r: Word)
    requires IsStringLength(message[..], length)
    ensures r == Checksum(message[..length])
  {
    var i := 0;
    var crc: Word := ALL_ONES;
    while message[i] != 0
      invariant 0 <= i <= length
      invariant crc == Run(ALL_ONES, message[..i])
      decreases length - i
    {
      assert message[..i + 1] == message[..i] + [message[i]];
      RunConcat(ALL_ONES, message[..i], [message[i]]);
      crc := XorWord(crc, message[i]);
      ghost var start := crc;
      var j := 7;
      while j >= 0
        invariant -1 <= j <= 7
        invariant BitSteps(start, 8) == BitSteps(crc, j + 1)
      {
        var mask := crc % 2;
        crc := XorWord(crc / 2, POLYNOMIAL * mask);
        j := j - 1;
      }
      i := i + 1;
    }
    r := ALL_ONES - crc;
  }

  lemma {:induction false} RunConcat(crc: Word, left: seq<byte>, right: seq<byte>)
    ensures Run(crc, left + right) == Run(Run(crc, left), right)
    decreases left
  {
    if left == [] {
      assert left + right == right;
    } else {
      assert (left + right)[1..] == left[1..] + right;
      RunConcat(ByteStep(crc, left[0]), left[1..], right);
    }
  }

  // ----- the register is a bijection on 32-bit states -----

  /** The top bit of the polynomial is set, so the top bit of the result tells whether it was folded in. */
  lemma BitStepInjective(a: Word, b: Word)
    requires BitStep(a) == BitStep(b)
    ensures a == b
  {
    TopBit(a);
    TopBit(b);
    if a % 2 == b % 2 {
      XorCancels(a / 2, b / 2, if a % 2 == 1 then POLYNOMIAL else 0);
    }
  }

  lemma TopBit(crc: Word)
    ensures BitStep(crc) >= 0x80000000 <==> crc % 2 == 1
  {
    WordBound();
    if crc % 2 == 1 {
      var low := POLYNOMIAL - 0x80000000;
      XorDisjoint(1, low, 31);
      XorAssociates(crc / 2, 0x80000000, low);
      XorCommutes(crc / 2, 0x80000000);
      XorAssociates(0x80000000, crc / 2, low);
      XorBounded(crc / 2, low, 31);
      XorDisjoint(1, Xor(crc / 2, low), 31);
    } else {
      XorZero(crc / 2);
    }
  }

  lemma {:induction false} BitStepsInjective(a: Word, b: Word, n: nat)
    requires BitSteps(a, n) == BitSteps(b, n)
    ensures a == b
    decreases n
  {
    if n > 0 {
      BitStepsInjective(BitStep(a), BitStep(b), n - 1);
      BitStepInjective(a, b);
    }
  }

  /** Two different registers stay different over any common suffix. */
  lemma {:induction false} RunInjective(a: Word, b: Word, message: seq<byte>)
    requires Run(a, message) == Run(b, message)
    ensures a == b
    decreases message
  {
    hide BitSteps;
    if message != [] {
      var x := message[0];
      RunInjective(ByteStep(a, x), ByteStep(b, x), message[1..]);
      BitStepsInjective(XorWord(a, x), XorWord(b, x), 8);
      XorCancels(a, b, x);
    }
  }

  // ----- which checksum it is -----

  /** The terms of the CRC-32 polynomial below x^32, the highest in the lowest bit. */
  lemma Polynomial()
    ensures POLYNOMIAL == Pow2(31 - 26) + Pow2(31 - 23) + Pow2(31 - 22) + Pow2(31 - 16) + Pow2(31 - 12) + Pow2(31 - 11)
                          + Pow2(31 - 10) + Pow2(31 - 8) + Pow2(31 - 7) + Pow2(31 - 5) + Pow2(31 - 4) + Pow2(31 - 2)
                          + Pow2(31 - 1) + Pow2(31)
  {
    assert Pow2(5) == 0x20;
    assert Pow2(8) == 0x100;
    assert Pow2(9) == 0x200;
    assert Pow2(15) == 0x8000;
    assert Pow2(19) == 0x80000;
    assert Pow2(20) == 0x100000;
    assert Pow2(21) == 0x200000;
    assert Pow2(23) == 0x800000;
    assert Pow2(24) == 0x1000000;
    assert Pow2(26) == 0x4000000;
    assert Pow2(27) == 0x8000000;
    assert Pow2(29) == 0x20000000;
    assert Pow2(30) == 0x40000000;
    assert Pow2(31) == 0x80000000;
  }

  /** A register whose low bit is clear is shifted; the low bit alone gives the polynomial. As steps are linear, this
      fixes them on every register. */
  lemma StepShifts(half: Word)
    requires 2 * half <= ALL_ONES
    ensures BitStep(2 * half) == half && BitStep(1) == 0xEDB88320
  {
    hide Xor;
    XorZero(half);
    XorZero(POLYNOMIAL);
    assert Mask(2 * half) == 0 && Mask(1) == POLYNOMIAL;
  }

  /** As many steps with the low bit clear shift by as many bits. */
  lemma {:induction false} StepsShift(high: Word, n: nat)
    requires high * Pow2(n) <= ALL_ONES
    ensures BitSteps(high * Pow2(n), n) == high
    decreases n
  {
    hide BitStep;
    if n > 0 {
      var half := high * Pow2(n - 1);
      assert high * Pow2(n) == 2 * half;
      StepShifts(half);
      StepsShift(high, n - 1);
    }
  }

  /** A byte takes eight steps: its low bits go in first, and its top bit brings the polynomial. */
  lemma TopBitLast()
    ensures ByteStep(0, 0x80) == 0xEDB88320
  {
    hide BitStep, Xor;
    XorZero(0x80);
    assert Pow2(7) == 0x80;
    StepsShift(1, 7);
    StepsMore(0x80, 7);
    StepShifts(0);
  }

  lemma {:induction false} StepsMore(crc: Word, n: nat)
    ensures BitSteps(crc, n + 1) == BitStep(BitSteps(crc, n))
    decreases n
  {
    hide BitStep;
    if n > 0 {
      StepsMore(BitStep(crc), n - 1);
    }
  }

  /** The register starts with all ones, and is complemented at the end. */
  lemma BothComplements()
    ensures Checksum([]) == 0 && Checksum([0xFF, 0xFF, 0xFF, 0xFF]) == 0xFFFFFFFF
  {
    hide ByteStep;
    OnesOut(0xFFFFFF);
    OnesOut(0xFFFF);
    OnesOut(0xFF);
    OnesOut(0);
    var ones: seq<byte> := [0xFF, 0xFF, 0xFF, 0xFF];
    RunOpened(0xFFFFFFFF, 4);
    RunOpened(0xFFFFFF, 3);
    RunOpened(0xFFFF, 2);
    RunOpened(0xFF, 1);
    assert ones == Ones(4);
  }

  function Ones(n: nat): seq<byte> {
    seq(n, _ => 0xFF)
  }

  lemma RunOpened(crc: Word, n: nat)
    requires n > 0
    ensures Run(crc, Ones(n)) == Run(ByteStep(crc, 0xFF), Ones(n - 1)) && Run(crc, Ones(0)) == crc
  {
    hide ByteStep;
    assert Ones(n)[1..] == Ones(n - 1);
  }

  lemma OnesOut(high: Word)
    requires high * 256 + 0xFF <= ALL_ONES
    ensures ByteStep(high * 256 + 0xFF, 0xFF) == high
  {
    hide BitSteps, Xor;
    assert Pow2(8) == 256;
    XorDisjoint(high, 0xFF, 8);
    XorAssociates(high * 256, 0xFF, 0xFF);
    XorSelf(0xFF);
    XorZero(high * 256);
    StepsShift(high, 8);
  }

  // ----- the difference of two registers -----

  lemma BitStepLinear(a: Word, b: Word)
    ensures XorWord(BitStep(a), BitStep(b)) == BitStep(XorWord(a, b))
  {
    hide Xor;
    var x, y := Mask(a), Mask(b);
    XorExchanges(a / 2, x, b / 2, y);
    XorHalves(a, b);
    MaskLinear(a, b);
  }

  /** The polynomial masked by the low bit. */
  function Mask(crc: Word): Word {
    if crc % 2 == 1 then POLYNOMIAL else 0
  }

  lemma MaskLinear(a: Word, b: Word)
    ensures Xor(Mask(a), Mask(b)) == if (a + b) % 2 == 1 then POLYNOMIAL else 0
  {
    hide Xor;
    XorSelf(POLYNOMIAL);
    XorZero(POLYNOMIAL);
    XorZero(0);
  }

  lemma {:induction false} BitStepsLinear(a: Word, b: Word, n: nat)
    ensures XorWord(BitSteps(a, n), BitSteps(b, n)) == BitSteps(XorWord(a, b), n)
    decreases n
  {
    if n > 0 {
      BitStepLinear(a, b);
      BitStepsLinear(BitStep(a), BitStep(b), n - 1);
    }
  }

  /** While only zeros leave at the bottom, steps are plain shifts. */
  lemma {:induction false} BitStepsOfMultiple(y: nat, n: nat)
    requires y * Pow2(n) <= ALL_ONES
    ensures y <= y * Pow2(n) && BitSteps(y * Pow2(n), n) == y
    decreases n
  {
    hide Xor;
    if n > 0 {
      var half := y * Pow2(n - 1);
      assert y * Pow2(n) == 2 * half;
      XorZero(half);
      assert BitStep(2 * half) == half;
      BitStepsOfMultiple(y, n - 1);
    }
  }

  /** If two windows of `n` bytes lead to the same register, their starting registers differ in the low `n` bytes
      at most; and if they start from the same register, they are the same window. */
  lemma {:induction false} WindowInjective(a: Word, b: Word, v: seq<byte>, w: seq<byte>)
    requires |v| == |w| <= 4
    requires Run(a, v) == Run(b, w)
    ensures Xor(a, b) < Pow2(8 * |v|)
    ensures a == b ==> v == w
    decreases v
  {
    hide BitSteps, Xor;
    if v == [] {
      XorSelf(a);
    } else {
      var a', b' := ByteStep(a, v[0]), ByteStep(b, w[0]);
      WindowInjective(a', b', v[1..], w[1..]);
      var y := XorWord(a', b');
      DifferenceBefore(a, b, v[0], w[0], |v| - 1);
      if a == b {
        XorSelf(a);
        XorIsZero(v[0], w[0]);
        assert v == [v[0]] + v[1..] && w == [w[0]] + w[1..];
        XorIsZero(a', b');
      }
    }
  }

  /** A difference of `n` bytes after one byte was a difference of `n + 1` bytes before it. */
  lemma DifferenceBefore(a: Word, b: Word, x: byte, y: byte, n: nat)
    requires n < 4 && Xor(ByteStep(a, x), ByteStep(b, y)) < Pow2(8 * n)
    ensures Xor(a, b) < Pow2(8 * (n + 1))
    ensures Xor(a, b) == Xor(ByteStep(a, x), ByteStep(b, y)) * 256 + Xor(x, y)
  {
    hide Xor, BitSteps, Pow2, ByteStep;
    var d := XorWord(ByteStep(a, x), ByteStep(b, y));
    ByteShift(d, n);
    ByteStepUndone(a, b, x, y, d);
    SplitDifference(Xor(a, b), x, y, d);
  }

  lemma ByteStepUndone(a: Word, b: Word, x: byte, y: byte, d: Word)
    requires d == Xor(ByteStep(a, x), ByteStep(b, y)) && d * Pow2(8) == d * 256 <= ALL_ONES
    ensures Xor(Xor(a, b), Xor(x, y)) == d * 256
  {
    hide Xor, BitSteps, Pow2;
    var a1, b1 := XorWord(a, x), XorWord(b, y);
    BitStepsLinear(a1, b1, 8);
    BitStepsOfMultiple(d, 8);
    BitStepsInjective(XorWord(a1, b1), d * 256, 8);
    XorExchanges(a, x, b, y);
  }

  lemma ByteShift(d: nat, n: nat)
    requires n < 4 && d < Pow2(8 * n)
    ensures d * Pow2(8) == d * 256 <= Pow2(8 * (n + 1)) - 256 <= ALL_ONES
  {
    PowerOfSum(8 * n, 8);
    PowerOfBytes(n + 1);
    assert Pow2(8) == 256;
  }

  lemma PowerOfBytes(n: nat)
    requires n <= 4
    ensures Pow2(8 * n) <= ALL_ONES + 1
  {
    WordBound();
    assert Pow2(8) == 0x100;
    assert Pow2(16) == 0x10000;
    assert Pow2(24) == 0x1000000;
  }

  lemma SplitDifference(d: nat, x: byte, y: byte, high: nat)
    requires Xor(d, Xor(x, y)) == high * 256
    ensures d == high * 256 + Xor(x, y) && Xor(x, y) < 256
  {
    assert Pow2(8) == 256;
    XorBounded(x, y, 8);
    XorDisjoint(high, Xor(x, y), 8);
    XorAssociates(d, Xor(x, y), Xor(x, y));
    XorSelf(Xor(x, y));
    XorZero(d);
  }

  // ----- the error-detection guarantee -----

  /** Two messages that differ only inside four consecutive bytes never share a checksum. */
  lemma BurstDetected(before: seq<byte>, v: seq<byte>, w: seq<byte>, after: seq<byte>)
    requires |v| == |w| <= 4 && v != w
    ensures Checksum(before + v + after) != Checksum(before + w + after)
  {
    var crc := Run(ALL_ONES, before);
    RunConcat(ALL_ONES, before + v, after);
    RunConcat(ALL_ONES, before + w, after);
    RunConcat(ALL_ONES, before, v);
    RunConcat(ALL_ONES, before, w);
    if Checksum(before + v + after) == Checksum(before + w + after) {
      RunInjective(Run(crc, v), Run(crc, w), after);
      WindowInjective(crc, crc, v, w);
    }
  }

  /** Like WindowInjective, when the last bytes differ in their low `s` bits only. */
  lemma {:induction false} TailInjective(a: Word, b: Word, v: seq<byte>, w: seq<byte>, s: nat)
    requires 1 <= |v| == |w| <= 4 && s <= 8 && Run(a, v) == Run(b, w)
    requires Xor(v[|v| - 1], w[|v| - 1]) < Pow2(s)
    ensures Xor(a, b) < Pow2(8 * (|v| - 1) + s)
    decreases v
  {
    hide BitSteps, Xor, ByteStep, Pow2;
    var a', b', n := ByteStep(a, v[0]), ByteStep(b, w[0]), |v| - 1;
    if n == 0 {
      WindowInjective(a', b', v[1..], w[1..]);
      DifferenceBefore(a, b, v[0], w[0], 0);
      PowerOfZero();
    } else {
      TailInjective(a', b', v[1..], w[1..], s);
      PowerGrows(8 * (n - 1) + s, 8 * n);
      DifferenceBefore(a, b, v[0], w[0], n);
      OneByteMore(Xor(a', b'), v[0], w[0], 8 * (n - 1) + s);
    }
  }

  lemma PowerOfZero()
    ensures Pow2(0) == 1
  {
  }

  lemma PowerGrows(m: nat, n: nat)
    requires m <= n
    ensures Pow2(m) <= Pow2(n)
  {
    hide Pow2;
    PowerOfSum(m, n - m);
    TimesAtLeast(Pow2(m), Pow2(n - m));
  }

  lemma TimesAtLeast(a: nat, b: nat)
    requires b >= 1
    ensures a * b >= a
  {
    assert a * (b - 1) >= 0;
  }

  lemma OneByteMore(d: nat, x: byte, y: byte, n: nat)
    requires d < Pow2(n)
    ensures d * 256 + Xor(x, y) < Pow2(n + 8)
  {
    assert Pow2(8) == 256;
    XorBounded(x, y, 8);
    PowerOfSum(n, 8);
  }

  /** A first byte whose difference starts at bit `s` leads to a small difference only if there was none. */
  lemma FirstByteInjective(crc: Word, x: byte, y: byte, s: nat, high: nat)
    requires s <= 8 && Xor(x, y) == high * Pow2(s) && Xor(ByteStep(crc, x), ByteStep(crc, y)) < Pow2(24 + s)
    ensures ByteStep(crc, x) == ByteStep(crc, y) && x == y
  {
    hide Xor, BitSteps, Pow2;
    var a, b := XorWord(crc, x), XorWord(crc, y);
    var d := XorWord(BitSteps(a, 8), BitSteps(b, 8));
    XorExchanges(crc, x, crc, y);
    XorSelf(crc);
    XorZero(Xor(x, y));
    XorCommutes(0, Xor(x, y));
    BitStepsLinear(a, b, 8);
    ByteXor(x, y);
    ShiftedTogether(high, d, s, Xor(x, y));
    XorIsZero(x, y);
  }

  lemma ByteXor(x: byte, y: byte)
    ensures Xor(x, y) < 256
  {
    assert Pow2(8) == 256;
    XorBounded(x, y, 8);
  }

  lemma ShiftedTogether(high: nat, d: Word, s: nat, diff: Word)
    requires s <= 8 && diff == high * Pow2(s) < 256 && BitSteps(diff, 8) == d < Pow2(24 + s)
    ensures diff == 0
  {
    hide BitSteps, Pow2;
    var p, q := Pow2(s), Pow2(8 - s);
    PowersOfByte(s);
    BitStepsOfMultiple(high, s);
    BitStepsSum(diff, s, 8 - s);
    LessTimes(d, Pow2(24 + s), q);
    BitStepsOfMultiple(d, 8 - s);
    BitStepsInjective(high, d * q, 8 - s);
    MultipleBelow(high, d, p, q);
  }

  lemma PowersOfByte(s: nat)
    requires s <= 8
    ensures Pow2(s) * Pow2(8 - s) == 256 && Pow2(24 + s) * Pow2(8 - s) == ALL_ONES + 1
  {
    PowerOfSum(s, 8 - s);
    PowerOfSum(24 + s, 8 - s);
    assert Pow2(8) == 256;
    WordBound();
  }

  lemma LessTimes(d: nat, p: nat, q: nat)
    requires d < p && q >= 1
    ensures d * q < p * q
  {
    var rest := p - d - 1;
    Distributes(d + 1, rest, q);
    Distributes(d, 1, q);
  }

  lemma Distributes(a: nat, b: nat, q: nat)
    ensures (a + b) * q == a * q + b * q
  {
  }

  lemma MultipleBelow(high: nat, d: nat, p: nat, q: nat)
    requires high * p < p * q && high == d * q && p >= 1 && q >= 1
    ensures high == 0
  {
    if d > 0 {
      ProductAtLeast(d, p, q);
    }
  }

  lemma ProductAtLeast(d: nat, p: nat, q: nat)
    requires d >= 1 && p >= 1 && q >= 1
    ensures (d * q) * p >= p * q
  {
    assert (d - 1) * q >= 0;
    var h := d * q;
    assert h >= q;
    assert (h - q) * p >= 0;
  }

  lemma {:induction false} BitStepsSum(crc: Word, m: nat, n: nat)
    ensures BitSteps(crc, m + n) == BitSteps(BitSteps(crc, m), n)
    decreases m
  {
    hide BitStep;
    if m > 0 {
      BitStepsSum(BitStep(crc), m - 1, n);
    }
  }

  /** The same for any 32 consecutive bits, which may reach into a fifth byte: from bit `s` of the first byte on, and up to
      below bit `s` of the last. The bits of a byte go from the lowest to the highest. */
  lemma BurstOfBitsDetected(before: seq<byte>, v: seq<byte>, w: seq<byte>, after: seq<byte>, s: nat, high: nat)
    requires |v| == |w| == 5 && v != w && s <= 8
    requires Xor(v[0], w[0]) == high * Pow2(s) && Xor(v[4], w[4]) < Pow2(s)
    ensures Checksum(before + v + after) != Checksum(before + w + after)
  {
    hide ByteStep, Xor, Pow2;
    var crc := Run(ALL_ONES, before);
    RunConcat(ALL_ONES, before + v, after);
    RunConcat(ALL_ONES, before + w, after);
    RunConcat(ALL_ONES, before, v);
    RunConcat(ALL_ONES, before, w);
    if Checksum(before + v + after) == Checksum(before + w + after) {
      RunInjective(Run(crc, v), Run(crc, w), after);
      assert v == [v[0]] + v[1..] && w == [w[0]] + w[1..];
      TailInjective(ByteStep(crc, v[0]), ByteStep(crc, w[0]), v[1..], w[1..], s);
      FirstByteInjective(crc, v[0], w[0], s, high);
      WindowInjective(ByteStep(crc, v[0]), ByteStep(crc, w[0]), v[1..], w[1..]);
    }
  }
}
