/** Bytes and the exact arithmetic of powers of two, shared by the other modules. */
module Bytes {

  /** The value of a C `unsigned char`. */
  type byte = b: int | 0 <= b < 256

  function Pow2(n: nat): (r: nat)
    ensures r >= 1
  {
    if n == 0 then 1 else 2 * Pow2(n - 1)
  }

  lemma {:induction false} PowerOfSum(n: nat, m: nat)
    ensures Pow2(n + m) == Pow2(n) * Pow2(m)
    decreases m
  {
    if m > 0 {
      PowerOfSum(n, m - 1);
      assert Pow2(n + m) == 2 * Pow2(n + (m - 1));
    }
  }

  /** Bitwise exclusive or of two unsigned integers. */
  function Xor(a: nat, b: nat): nat {
    if a == 0 && b == 0 then 0 else 2 * Xor(a / 2, b / 2) + (a + b) % 2
  }

  lemma {:induction false} XorCommutes(a: nat, b: nat)
    ensures Xor(a, b) == Xor(b, a)
  {
    if a != 0 || b != 0 {
      XorCommutes(a / 2, b / 2);
    }
  }

  lemma {:induction false} XorAssociates(a: nat, b: nat, c: nat)
    ensures Xor(Xor(a, b), c) == Xor(a, Xor(b, c))
    decreases a + b + c
  {
    hide Xor;
    if a != 0 || b != 0 || c != 0 {
      XorAssociates(a / 2, b / 2, c / 2);
      XorTwice(a, b, c);
      XorTwice(b, c, a);
      XorCommutes(Xor(b, c), a);
      XorCommutes(Xor(b / 2, c / 2), a / 2);
      Parity(a, b, c);
      SameHalves(Xor(Xor(a, b), c), Xor(a, Xor(b, c)));
    } else {
      XorZero(0);
    }
  }

  lemma XorTwice(a: nat, b: nat, c: nat)
    ensures Xor(Xor(a, b), c) / 2 == Xor(Xor(a / 2, b / 2), c / 2)
    ensures Xor(Xor(a, b), c) % 2 == ((a + b) % 2 + c) % 2
  {
    hide Xor;
    XorHalves(a, b);
    XorHalves(Xor(a, b), c);
    ModSum(Xor(a, b), c);
  }

  lemma ModSum(x: nat, c: nat)
    ensures (x + c) % 2 == (x % 2 + c) % 2
  {
  }

  lemma SameHalves(x: nat, y: nat)
    requires x / 2 == y / 2 && x % 2 == y % 2
    ensures x == y
  {
  }

  lemma Parity(a: nat, b: nat, c: nat)
    ensures ((a + b) % 2 + c) % 2 == ((b + c) % 2 + a) % 2
  {
  }

  lemma XorHalves(a: nat, b: nat)
    ensures Xor(a, b) / 2 == Xor(a / 2, b / 2) && Xor(a, b) % 2 == (a + b) % 2
  {
  }

  lemma {:induction false} XorSelf(a: nat)
    ensures Xor(a, a) == 0
  {
    if a != 0 {
      XorSelf(a / 2);
    }
  }

  lemma {:induction false} XorZero(a: nat)
    ensures Xor(a, 0) == a && Xor(0, a) == a
  {
    if a != 0 {
      XorZero(a / 2);
    }
  }

  lemma {:induction false} XorBounded(a: nat, b: nat, n: nat)
    requires a < Pow2(n) && b < Pow2(n)
    ensures Xor(a, b) < Pow2(n)
    decreases n
  {
    if n > 0 {
      XorBounded(a / 2, b / 2, n - 1);
    }
  }

  /** Exclusive or is addition where the operands share no bit. */
  lemma {:induction false} XorDisjoint(high: nat, low: nat, n: nat)
    requires low < Pow2(n)
    ensures Xor(high * Pow2(n), low) == high * Pow2(n) + low
    decreases n
  {
    hide Xor;
    if n == 0 {
      XorZero(high);
    } else {
      var half := high * Pow2(n - 1);
      assert high * Pow2(n) == 2 * half;
      XorDisjoint(high, low / 2, n - 1);
      XorOfDouble(half, low);
    }
  }

  lemma XorOfDouble(a: nat, b: nat)
    ensures Xor(2 * a, b) == 2 * Xor(a, b / 2) + b % 2
  {
    hide Xor;
    var a2 := 2 * a;
    assert a2 / 2 == a && (a2 + b) % 2 == b % 2;
    XorHalves(a2, b);
    assert Xor(a2, b) == 2 * (Xor(a2, b) / 2) + Xor(a2, b) % 2;
  }

  lemma XorCancels(a: nat, b: nat, x: nat)
    requires Xor(a, x) == Xor(b, x)
    ensures a == b
  {
    XorAssociates(a, x, x);
    XorAssociates(b, x, x);
    XorSelf(x);
    XorZero(a);
    XorZero(b);
  }

  lemma XorIsZero(a: nat, b: nat)
    requires Xor(a, b) == 0
    ensures a == b
  {
    XorSelf(b);
    XorCancels(a, b, b);
  }

  /** Four operands may be regrouped in pairs. */
  lemma XorExchanges(a: nat, b: nat, c: nat, d: nat)
    ensures Xor(Xor(a, b), Xor(c, d)) == Xor(Xor(a, c), Xor(b, d))
  {
    XorAssociates(a, b, Xor(c, d));
    XorAssociates(b, c, d);
    XorCommutes(b, c);
    XorAssociates(c, b, d);
    XorAssociates(a, c, Xor(b, d));
  }

  // ----- blocks of bytes -----

  /** The bytes of the blocks, one block behind the other. */
  function Flatten(blocks: seq<seq<byte>>): seq<byte> {
    if blocks == [] then [] else Flatten(blocks[..|blocks| - 1]) + blocks[|blocks| - 1]
  }

  lemma FlattenAppend(blocks: seq<seq<byte>>, block: seq<byte>)
    ensures Flatten(blocks + [block]) == Flatten(blocks) + block
  {
    assert (blocks + [block])[..|blocks|] == blocks;
  }

  lemma FlattenNone()
    ensures Flatten([]) == []
  {
  }

  lemma FlattenOne(block: seq<byte>)
    ensures Flatten([block]) == block
  {
    FlattenAppend([], block);
    assert [] + [block] == [block] && [] + block == block;
  }

  lemma {:induction false} FlattenConcat(left: seq<seq<byte>>, right: seq<seq<byte>>)
    ensures Flatten(left + right) == Flatten(left) + Flatten(right)
    decreases |right|
  {
    hide Flatten;
    FlattenNone();
    if right == [] {
      assert left + right == left;
    } else {
      var init, last := right[..|right| - 1], right[|right| - 1];
      FlattenConcat(left, init);
      assert left + right == (left + init) + [last];
      FlattenAppend(left + init, last);
      FlattenAppend(init, last);
      assert right == init + [last];
      Regroup(Flatten(left), Flatten(init), last);
    }
  }

  lemma Regroup(a: seq<byte>, b: seq<byte>, c: seq<byte>)
    ensures (a + b) + c == a + (b + c)
  {
  }
}
