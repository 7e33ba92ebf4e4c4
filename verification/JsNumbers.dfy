/**
  Numbers as JavaScript computes with them: doubles hold 53 bits, and bitwise operators keep 32.
*/
module JsNumbers {

  const POW_2_53: nat := 0x20_0000_0000_0000

  /** The distance between doubles of the size of a number, if it is not under one. */
  function Spacing(n: nat): (u: nat)
    ensures u >= 1
  {
    if n < POW_2_53 then 1 else 2 * Spacing(n / 2)
  }

  /** The double nearest to a number, of two that are equally near the one whose last bit is zero. */
  function Rounded(n: nat): nat
  {
    var u := Spacing(n);
    var q, r := n / u, n % u;
    if 2 * r < u || (2 * r == u && q % 2 == 0) then q * u else (q + 1) * u
  }

  /** Up to 2^53 nothing is rounded, and the first number that is rounded is the next one. */
  lemma RoundedExact(n: nat)
    ensures n <= POW_2_53 ==> Rounded(n) == n
    ensures n == POW_2_53 + 1 ==> Rounded(n) == POW_2_53
  {
    if n >= POW_2_53 {
      assert n / 2 < POW_2_53 || n > POW_2_53 + 1;
    }
  }

  /** The operand of a bitwise operator, a signed number of 32 bits. */
  function ToInt32(x: int): (r: int)
    ensures -0x8000_0000 <= r < 0x8000_0000 && (x - r) % 0x1_0000_0000 == 0
  {
    var r := x % 0x1_0000_0000;
    if r < 0x8000_0000 then r else r - 0x1_0000_0000
  }
}
