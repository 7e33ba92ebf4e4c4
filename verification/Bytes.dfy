/**
  Bytes and the bitwise operators the encoders use on them.  Shifts and masks by constants are written as
  quotients and remainders; exclusive or is the only operator that needs a definition of its own.
*/
module Bytes {

  type Byte = x: int | 0 <= x < 256

  function Pow2(k: nat): (r: nat)
    ensures r >= 1
  {
    if k == 0 then 1 else 2 * Pow2(k - 1)
  }

  lemma Pow2Eight()
    ensures Pow2(7) == 128 && Pow2(8) == 256
  {
    assert Pow2(4) == 16;
  }

  /** a without the bit of weight p. */
  function Low(a: nat, p: nat): nat
  {
    if a >= p then a - p else a
  }

  /** Bitwise exclusive or of two numbers of k bits, from the top bit down. */
  function Xor(a: nat, b: nat, k: nat): (r: nat)
    requires a < Pow2(k) && b < Pow2(k)
    ensures r < Pow2(k)
  {
    if k == 0 then 0
    else
      var p := Pow2(k - 1);
      (if (a >= p) == (b >= p) then 0 else p) + Xor(Low(a, p), Low(b, p), k - 1)
  }

  lemma {:induction false} XorComm(a: nat, b: nat, k: nat)
    requires a < Pow2(k) && b < Pow2(k)
    ensures Xor(a, b, k) == Xor(b, a, k)
  {
    if k != 0 {
      XorComm(Low(a, Pow2(k - 1)), Low(b, Pow2(k - 1)), k - 1);
    }
  }

  /** The top bit and the bits under it combine separately. */
  lemma XorTop(a: nat, b: nat, k: nat)
    requires k != 0 && a < Pow2(k) && b < Pow2(k)
    ensures Xor(a, b, k) >= Pow2(k - 1) <==> (a >= Pow2(k - 1)) != (b >= Pow2(k - 1))
    ensures Low(Xor(a, b, k), Pow2(k - 1)) == Xor(Low(a, Pow2(k - 1)), Low(b, Pow2(k - 1)), k - 1)
  {
  }

  lemma {:induction false} XorAssoc(a: nat, b: nat, c: nat, k: nat)
    requires a < Pow2(k) && b < Pow2(k) && c < Pow2(k)
    ensures Xor(Xor(a, b, k), c, k) == Xor(a, Xor(b, c, k), k)
  {
    if k != 0 {
      var p := Pow2(k - 1);
      var ab, bc := Xor(a, b, k), Xor(b, c, k);
      XorTop(a, b, k);
      XorTop(b, c, k);
      XorTop(ab, c, k);
      XorTop(a, bc, k);
      XorAssoc(Low(a, p), Low(b, p), Low(c, p), k - 1);
    }
  }

  lemma {:induction false} XorZero(a: nat, k: nat)
    requires a < Pow2(k)
    ensures Xor(a, 0, k) == a
  {
    if k != 0 {
      XorZero(Low(a, Pow2(k - 1)), k - 1);
    }
  }

  /** Two numbers cancel exactly when they are equal. */
  lemma {:induction false} XorSelf(a: nat, b: nat, k: nat)
    requires a < Pow2(k) && b < Pow2(k)
    ensures Xor(a, b, k) == 0 <==> a == b
  {
    if k != 0 {
      XorSelf(Low(a, Pow2(k - 1)), Low(b, Pow2(k - 1)), k - 1);
    }
  }

  /** A number is determined by its top bit and the bits under it. */
  lemma SameTop(l: nat, r: nat, p: nat)
    requires l >= p <==> r >= p
    requires Low(l, p) == Low(r, p)
    ensures l == r
  {
  }

  lemma XorNothing(k: nat)
    requires k <= 1
    ensures Xor(0, 0, k) == 0
  {
  }

  lemma {:induction false} XorTwice(a: nat, b: nat, k: nat)
    requires a < Pow2(k) && b < Pow2(k)
    ensures Xor(2 * a, 2 * b, k + 1) == 2 * Xor(a, b, k)
  {
    hide Xor;
    if k == 0 {
      XorNothing(0);
      XorNothing(1);
    } else {
      var p := Pow2(k - 1);
      XorTop(2 * a, 2 * b, k + 1);
      XorTop(a, b, k);
      XorTwice(Low(a, p), Low(b, p), k - 1);
      SameTop(Xor(2 * a, 2 * b, k + 1), 2 * Xor(a, b, k), 2 * p);
    }
  }

  /** Exclusive or on bytes, the addition of the field. */
  function Add(a: Byte, b: Byte): Byte
  {
    Pow2Eight();
    Xor(a, b, 8)
  }

  lemma AddLaws(a: Byte, b: Byte, c: Byte)
    ensures Add(a, b) == Add(b, a)
    ensures Add(Add(a, b), c) == Add(a, Add(b, c))
    ensures Add(a, 0) == Add(0, a) == a
    ensures Add(a, b) == 0 <==> a == b
    ensures Add(a, Add(a, b)) == b
  {
    Pow2Eight();
    XorComm(a, b, 8);
    XorComm(a, 0, 8);
    XorAssoc(a, b, c, 8);
    XorZero(a, 8);
    XorSelf(a, b, 8);
    XorAssoc(a, a, b, 8);
    XorSelf(a, a, 8);
    XorComm(b, 0, 8);
    XorZero(b, 8);
  }

  /** Exchanging the middle terms of a sum of four. */
  lemma AddSwap(a: Byte, b: Byte, c: Byte, d: Byte)
    ensures Add(Add(a, b), Add(c, d)) == Add(Add(a, c), Add(b, d))
  {
    AddLaws(a, b, Add(c, d));
    AddLaws(b, c, d);
    AddLaws(c, b, d);
    AddLaws(a, c, Add(b, d));
  }
}
