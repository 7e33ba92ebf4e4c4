/**
  The field with 256 elements that section 7.5 of ISO/IEC 18004:2015 computes in.  Its elements are bytes, its
  addition is exclusive or, and multiplication by the primitive element is Double: a shift reduced by
  x^8 + x^4 + x^3 + x^2 + 1.  Every product the encoder forms has a power of the primitive element on one side,
  so repeated doubling is all the multiplication the theory needs.
*/
module GaloisField {
  import opened Bytes

  /** Multiplication by the primitive element. */
  function Double(x: Byte): Byte
  {
    if x < 128 then 2 * x else Add(2 * x - 256, 0x1d)
  }

  /** Multiplication by the k-th power of the primitive element. */
  function Scale(x: Byte, k: nat): Byte
  {
    if k == 0 then x else Double(Scale(x, k - 1))
  }

  /** The k-th power of the primitive element. */
  function Alpha(k: nat): Byte
  {
    Scale(1, k)
  }

  /** Double in terms of the seven low bits, whose doubles never carry. */
  function Reduce(x: Byte, carry: bool): Byte
  {
    if carry then Add(x, 0x1d) else x
  }

  lemma ReduceAdd(x: Byte, y: Byte, a: bool, b: bool)
    ensures Reduce(Add(x, y), a != b) == Add(Reduce(x, a), Reduce(y, b))
  {
    AddLaws(x, y, 0x1d);
    AddLaws(x, 0x1d, y);
    AddLaws(0x1d, y, 0);
    AddSwap(x, 0x1d, y, 0x1d);
    AddLaws(0x1d, 0x1d, 0);
    AddLaws(Add(x, y), 0, 0);
  }

  lemma DoubleAdd(a: Byte, b: Byte)
    ensures Double(Add(a, b)) == Add(Double(a), Double(b))
  {
    hide Xor, Pow2;
    Pow2Eight();
    var x, y := Low(a, 128), Low(b, 128);
    XorTop(a, b, 8);
    XorTwice(x, y, 7);
    ReduceAdd(2 * x, 2 * y, a >= 128, b >= 128);
  }

  lemma {:induction false} ScaleAdd(a: Byte, b: Byte, k: nat)
    ensures Scale(Add(a, b), k) == Add(Scale(a, k), Scale(b, k))
  {
    if k != 0 {
      ScaleAdd(a, b, k - 1);
      DoubleAdd(Scale(a, k - 1), Scale(b, k - 1));
    }
  }

  lemma {:induction false} ScaleScale(x: Byte, j: nat, k: nat)
    ensures Scale(Scale(x, j), k) == Scale(x, j + k)
  {
    if k != 0 {
      ScaleScale(x, j, k - 1);
    }
  }

  lemma {:induction false} ScaleZero(k: nat)
    ensures Scale(0, k) == 0
  {
    if k != 0 {
      ScaleZero(k - 1);
    }
  }
}
