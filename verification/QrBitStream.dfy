/**
  Reading back the data bytes of a symbol in byte mode: the mode indicator, the character count and the bytes
  themselves, four bits at a time (section 7.4 of ISO/IEC 18004:2015).
*/
module QrBitStream {
  import opened Bytes

  /** The high and the low four bits of a byte. */
  function High(b: nat): nat
  {
    b / 16
  }

  function Lower(b: nat): nat
  {
    b % 16
  }

  /** The low four bits of a number in the place of the high ones. */
  function LowHalfUp(b: nat): (r: Byte)
  {
    b * 16 % 256
  }

  /** A place whose high half is free takes four bits there, and keeps its low half. */
  lemma FillHigh(x: nat, b: nat)
    requires x < 16
    ensures Lower(x) == x
    ensures x + LowHalfUp(b) < 256 && High(x + LowHalfUp(b)) == Lower(b) && Lower(x + LowHalfUp(b)) == x
  {
  }

  lemma HighIsSmall(b: Byte)
    ensures High(b) < 16 && Lower(High(b)) == High(b) && High(0) == Lower(0) == 0
  {
  }

  /** The k-th group of four bits. */
  function Nibble(s: seq<Byte>, k: nat): nat
    requires k < 2 * |s|
  {
    if k % 2 == 0 then s[k / 2] / 16 else s[k / 2] % 16
  }

  /** The number written in n groups of four bits from the k-th on. */
  function ReadNumber(s: seq<Byte>, k: nat, n: nat): nat
    requires k + n <= 2 * |s|
  {
    if n == 0 then 0 else 16 * ReadNumber(s, k, n - 1) + Nibble(s, k + n - 1)
  }

  /** How many groups the character count takes. */
  function CountNibbles(version: nat): nat
  {
    if version > 9 then 4 else 2
  }

  /** What a reader of byte-mode data finds: the bytes, if the mode is byte mode and they are all there. */
  datatype Reading = NoByteSegment | Truncated | Message(bytes: seq<nat>)

  function Read(s: seq<Byte>, version: nat): Reading
    requires |s| >= 3
  {
    var first := 1 + CountNibbles(version);
    if Nibble(s, 0) != 4 then NoByteSegment
    else
      var length := ReadNumber(s, 1, CountNibbles(version));
      if first + 2 * length > 2 * |s| then Truncated
      else Message(seq(length, i requires 0 <= i < length => ReadNumber(s, first + 2 * i, 2)))
  }

  /**
    A byte string packed half a byte off, behind h bytes that hold the mode and half of the character count: the
    high half of each byte shares a place with the low half of the one before.
  */
  ghost predicate Packed(s: seq<Byte>, bytes: seq<Byte>, h: nat)
    requires h + |bytes| < |s|
  {
    forall i :: 0 <= i < |bytes| ==> Lower(s[h + i]) == High(bytes[i]) && High(s[h + i + 1]) == Lower(bytes[i])
  }

  /** The state of the shifting loop when the bytes from index on are in their new places. */
  ghost predicate Shifted(s: seq<Byte>, bytes: seq<Byte>, h: nat, index: nat)
    requires h + |bytes| < |s| && index <= |bytes|
  {
    && s[..index] == bytes[..index]
    && s[index + h] < 16 && Lower(s[|bytes| + h]) == 0
    && forall i :: index <= i < |bytes| ==> Lower(s[h + i]) == High(bytes[i]) && High(s[h + i + 1]) == Lower(bytes[i])
  }

  lemma ShiftOne(s: seq<Byte>, bytes: seq<Byte>, h: nat, index: nat)
    requires h >= 1 && h + |bytes| < |s| && index < |bytes| && Shifted(s, bytes, h, index + 1)
    ensures s[index] == bytes[index] && s[index + h + 1] + LowHalfUp(s[index]) < 256 && High(s[index]) < 256
    ensures Shifted(s[index + h + 1 := s[index + h + 1] + LowHalfUp(s[index])][index + h := High(s[index])],
                    bytes, h, index)
  {
    assert s[index] == s[..index + 1][index] == bytes[index];
    FillHigh(s[index + h + 1], s[index]);
    HighIsSmall(s[index]);
    hide High, Lower, LowHalfUp;
    var s1 := s[index + h + 1 := s[index + h + 1] + LowHalfUp(s[index])][index + h := High(s[index])];
    assert s1[..index] == s[..index + 1][..index] == bytes[..index];
    forall i | index <= i < |bytes|
      ensures Lower(s1[h + i]) == High(bytes[i]) && High(s1[h + i + 1]) == Lower(bytes[i])
    {
      if i > index {
        assert Lower(s[h + i]) == High(bytes[i]) && High(s[h + i + 1]) == Lower(bytes[i]);
      }
    }
  }

  lemma ReadPair(s: seq<Byte>, k: nat)
    requires k + 2 <= 2 * |s|
    ensures ReadNumber(s, k, 2) == 16 * Nibble(s, k) + Nibble(s, k + 1)
  {
    assert ReadNumber(s, k, 1) == 16 * ReadNumber(s, k, 0) + Nibble(s, k);
  }

  /** The mode and the character count in the bytes before the packed ones. */
  ghost predicate Header(s: seq<Byte>, n: nat, version: nat)
    requires |s| >= 3
  {
    if version > 9 then
      n < 4096 && s[0] == 0x40 && s[1] == n / 16 && s[2] / 16 == n % 16
    else
      n < 256 && s[0] == 0x40 + n / 16 && s[1] / 16 == n % 16
  }

  lemma ReadsCount(s: seq<Byte>, n: nat, version: nat)
    requires |s| >= 3 && Header(s, n, version)
    ensures Nibble(s, 0) == 4
    ensures ReadNumber(s, 1, CountNibbles(version)) == n
  {
    ReadPair(s, 1);
    if version > 9 {
      assert ReadNumber(s, 1, 3) == 16 * ReadNumber(s, 1, 2) + Nibble(s, 3);
      assert Nibble(s, 1) == 0 && Nibble(s, 2) == s[1] / 16 && Nibble(s, 3) == s[1] % 16 && Nibble(s, 4) == s[2] / 16;
    } else {
      assert Nibble(s, 1) == s[0] % 16 && Nibble(s, 2) == s[1] / 16;
    }
  }

  lemma ReadsByte(s: seq<Byte>, bytes: seq<Byte>, h: nat, i: nat)
    requires h + |bytes| < |s| && Packed(s, bytes, h) && i < |bytes|
    ensures ReadNumber(s, 1 + 2 * h + 2 * i, 2) == bytes[i]
  {
    var k := 1 + 2 * h + 2 * i;
    ReadPair(s, k);
    assert Nibble(s, k) == s[h + i] % 16;
    assert Nibble(s, k + 1) == s[h + i + 1] / 16;
  }

  /** What the header and the packing promise a reader. */
  lemma ReadsBack(s: seq<Byte>, bytes: seq<Byte>, version: nat)
    requires var h := CountNibbles(version) / 2; h + |bytes| < |s| && |s| >= 3 && Packed(s, bytes, h)
    requires Header(s, |bytes|, version)
    ensures Read(s, version) == Message(bytes)
  {
    hide ReadNumber, Nibble, Packed, Header;
    ReadsCount(s, |bytes|, version);
    forall i | 0 <= i < |bytes|
      ensures ReadNumber(s, 1 + CountNibbles(version) + 2 * i, 2) == bytes[i]
    {
      ReadsByte(s, bytes, CountNibbles(version) / 2, i);
    }
  }

  /** The pad bytes alternate from position p to the end. */
  ghost predicate Padded(s: seq<Byte>, p: nat)
  {
    forall i :: p <= i < |s| ==> s[i] == if (i - p) % 2 == 0 then 0xec else 0x11
  }
}
