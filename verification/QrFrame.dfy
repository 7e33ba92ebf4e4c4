/**
  The frame of a QR code symbol: the message is turned into a bit stream, the generator polynomial is built, check
  bytes are appended block by block, and the blocks are interleaved, all in place in the frame's buffers.
*/
module QrFrame {
  import opened Bytes
  import opened JsNumbers
  import opened GaloisField
  import opened GaloisTables
  import opened ReedSolomon
  import opened QrBlocks
  import opened QrBitStream
  import opened QrInterleaving

  // ---------------------------------------------------------------------------------------------------------
  // Reduction of exponents
  // ---------------------------------------------------------------------------------------------------------

  /** One round of the reduction, with one rounding: the byte above the lowest one is folded onto it. */
  function Fold(x: nat): int
    requires x >= 255
  {
    var t := ToInt32(Rounded(x - 255));
    t / 256 + t % 256
  }

  /**
    What the subtraction rounds off and the bits that the bitwise operators drop do not matter together, and what is
    kept is not negative.
  */
  ghost predicate FoldIsExact(x: nat)
    requires x >= 255
  {
    var y := Rounded(x - 255);
    Fold(x) >= 0 && ((y - ToInt32(y)) / 0x1_0000_0000 + (x - 255 - y)) % 255 == 0
  }

  lemma FoldCongruent(x: nat)
    requires x >= 255
    ensures Fold(x) < 0x8000_0000
    ensures var y := Rounded(x - 255);
            exists m: int :: x == Fold(x) + ((y - ToInt32(y)) / 0x1_0000_0000 + (x - 255 - y)) + 255 * m
  {
    hide Rounded, ToInt32;
    var y := Rounded(x - 255);
    var t := ToInt32(y);
    var k := (y - t) / 0x1_0000_0000;
    assert y == t + 0x1_0000_0000 * k;
    assert 0x1_0000_0000 == 255 * 0x101_0101 + 1;
    assert t == Fold(x) + 255 * (t / 256);
    assert x == Fold(x) + (k + (x - 255 - y)) + 255 * (1 + t / 256 + 0x101_0101 * k);
  }

  lemma FoldSmall(x: nat)
    requires 255 <= x < 0x8000_0000
    ensures 0 <= Fold(x) < x && Fold(x) % 255 == x % 255
  {
    hide Rounded;
    var t := x - 255;
    RoundedExact(t);
    assert ToInt32(t) == t;
    assert x == Fold(x) + 0 + 255 * (1 + t / 256);
    CongruentShift(Fold(x), 0, 1 + t / 256);
  }

  lemma FirstFold(x: nat)
    requires x >= 255
    ensures Fold(x) < x && Fold(x) < 0x8000_0000 && (FoldIsExact(x) ==> Fold(x) >= 0)
    ensures Fold(x) >= 0 ==> (Fold(x) % 255 == x % 255 <==> FoldIsExact(x))
  {
    hide Rounded, ToInt32, Fold;
    FoldCongruent(x);
    if x < 0x8000_0000 {
      FoldSmall(x);
    }
    var y := Rounded(x - 255);
    var k := (y - ToInt32(y)) / 0x1_0000_0000 + (x - 255 - y);
    var m: int :| x == Fold(x) + k + 255 * m;
    if Fold(x) >= 0 {
      CongruentShift(Fold(x), k, m);
    }
  }

  lemma CongruentShift(a: int, k: int, m: int)
    ensures (a + k + 255 * m) % 255 == a % 255 <==> k % 255 == 0
  {
    assert (a + k + 255 * m) % 255 == (a + k) % 255;
    var q, r := k / 255, k % 255;
    assert (a + k) % 255 == (a + r) % 255 by {
      assert a + k == (a + r) + 255 * q;
    }
  }

  /**
    Two numbers that are not reduced to their remainders, 1 and 0: the first power of two beyond the operators, and one
    from which the subtraction takes 256 instead of 255.
  */
  lemma ModNDiffers()
    ensures 0x1_0000_0000 % 255 == 1 && Fold(0x1_0000_0000) == 0 && !FoldIsExact(0x1_0000_0000)
    ensures var x := 0xff_0000_0000_0000; x % 255 == 0 && Fold(x) == -1 && !FoldIsExact(x)
  {
    RoundedExact(0xffff_ff01);
    assert ToInt32(0xffff_ff01) == -255;
    SubtractionRounds();
    assert ToInt32(0xfe_ffff_ffff_ff00) == -256;
  }

  lemma SubtractionRounds()
    ensures Rounded(0xff_0000_0000_0000 - 255) == 0xff_0000_0000_0000 - 256
  {
    var n := 0xfe_ffff_ffff_ff01;
    assert Spacing(n / 8) == 1;
    assert n / 4 / 2 == n / 8 && n / 2 / 2 == n / 4;
    assert Spacing(n / 4) == 2 && Spacing(n / 2) == 4 && Spacing(n) == 8;
  }

  /**
    Reduction modulo 255 without division, with operators that keep 32 bits of their operand and a subtraction that
    rounds.
  */
  method ModN(x: nat) returns (r: int)
    ensures x < 0x8000_0000 ==> r == x % 255
    ensures r == x % 255 <==> x < 255 || FoldIsExact(x)
  {
    hide FoldIsExact, Rounded, ToInt32;
    r := x;
    if r >= 255 {
      FirstFold(x);
      if x < 0x8000_0000 {
        FoldSmall(x);
      }
    }
    while r >= 255
      invariant r == x || (r < 0x8000_0000 && x >= 255)
      invariant r != x ==> (r < 0 <==> Fold(x) < 0) && (r >= 0 ==> r % 255 == Fold(x) % 255)
    {
      if r != x {
        FoldSmall(r);
      }
      r := Rounded(r - 255);
      r := ToInt32(r) / 256 + ToInt32(r) % 256;
    }
  }

  // ---------------------------------------------------------------------------------------------------------
  // Room for a message
  // ---------------------------------------------------------------------------------------------------------

  /** The bits of a byte-mode segment: the mode, the character count and the bytes. */
  function SegmentBits(n: nat, version: nat): nat
  {
    4 + 4 * CountNibbles(version) + 8 * n
  }

  /** Messages up to the capacity are those whose segments are not longer than the data bytes. */
  lemma CapacityExact(version: nat, level: nat, n: nat)
    requires 1 <= version <= 40 && 1 <= level <= 4
    ensures n <= Capacity(version, level) <==> SegmentBits(n, version) <= 8 * ShapeOf(version, level).MaxLength()
  {
    hide ShapeOf, Mix;
  }

  // ---------------------------------------------------------------------------------------------------------
  // The frame
  // ---------------------------------------------------------------------------------------------------------

  /** The logarithms of the coefficients of the generator polynomial of degree n, the lowest power first. */
  ghost predicate LogsOfGenerator(p: seq<Byte>, n: nat)
  {
    |p| == n + 1 && forall j :: 0 <= j <= n ==> p[j] < 255 && Alpha(p[j]) == Generator(n)[n - j]
  }

  /** The coefficients themselves, the lowest power first. */
  ghost predicate CoefficientsUpward(p: seq<Byte>, n: nat)
  {
    |p| == n + 1 && forall j :: 0 <= j <= n ==> p[j] == Generator(n)[n - j]
  }

  /** The coefficients after one more factor, counted upward. */
  lemma NextCoefficient(i: nat, j: nat)
    requires j <= i
    ensures Generator(i + 1)[i + 1 - j] == if j > 0 then Add(Generator(i)[i - (j - 1)], Scale(Generator(i)[i - j], i))
                                          else Scale(Generator(i)[i], i)
    ensures Generator(i + 1)[0] == 1
  {
    hide Add, Scale;
    TimesRootAt(Generator(i), i, i + 1 - j);
    GeneratorMonic(i + 1);
    AddLaws(Scale(Generator(i)[i], i), 0, 0);
  }

  lemma AlphaSum(l: nat, k: nat, x: Byte)
    requires Alpha(l) == x
    ensures Alpha((l + k) % 255) == Scale(x, k)
  {
    hide Add;
    ScaleScale(1, l, k);
    ScaleMod(1, l + k);
  }

  /** One product through the tables: the exponent of the sum of logarithms. */
  method Exponential(l: Byte, k: nat) returns (r: Byte)
    requires l < 255 && k < 255
    ensures r == Scale(Alpha(l), k)
  {
    hide Add, Scale;
    var m := ModN(l + k);
    AlphaSum(l, k, Alpha(l));
    r := ExponentAt(m);
  }

  /** One place of the register after a division step. */
  lemma RegisterAt(r: Poly, d: Byte, n: nat, t: nat, p: seq<Byte>)
    requires |r| == n > t && LogsOfGenerator(p, n)
    ensures var f := Add(d, r[0]);
            var shifted := if t + 1 < n then r[t + 1] else 0;
            StepRegister(r, d, Generator(n))[t] ==
              if f == 0 then shifted else Add(shifted, Times(f, Alpha(p[n - (t + 1)])))
  {
    hide Add, Scale, Generator, Times;
    var f := Add(d, r[0]);
    assert StepRegister(r, d, Generator(n))[t] == Add((r[1..] + [0])[t], Times(f, Generator(n)[t + 1]));
    if f == 0 {
      TimesOne(Generator(n)[t + 1]);
      AddLaws((r[1..] + [0])[t], 0, 0);
    }
  }

  lemma ProductByLogs(l: nat, k: nat, f: Byte)
    requires f == Alpha(l)
    ensures Times(f, Alpha(k)) == Scale(Alpha(l), k)
  {
    hide Add, Scale, Times;
    TimesPower(f, k);
  }

  /** The data bytes and the check bytes of block b. */
  ghost function DataOf(words: seq<Byte>, s: Shape, b: nat): seq<Byte>
    requires b < s.Blocks() && |words| >= s.Total() && s.dataBlock > 0
  {
    BlocksAdjacent(s, b);
    BlockBounds(s, b);
    BlockBounds(s, b + 1);
    words[s.DataStart(b)..s.DataStart(b) + s.DataLength(b)]
  }

  ghost function ChecksOf(words: seq<Byte>, s: Shape, b: nat): seq<Byte>
    requires b < s.Blocks() && |words| >= s.Total() && s.dataBlock > 0
  {
    BlocksAdjacent(s, b);
    BlockBounds(s, b);
    BlockBounds(s, b + 1);
    words[s.EccStart(b)..s.EccStart(b) + s.eccBlock]
  }

  ghost predicate Checked(words: seq<Byte>, s: Shape, b: nat)
    requires b < s.Blocks() && |words| >= s.Total() && s.dataBlock > 0 && s.eccBlock > 0
  {
    ChecksOf(words, s, b) == Remainder(DataOf(words, s, b), s.eccBlock)
  }

  /** Writing the check bytes of block b settles that block and leaves the ones before it alone. */
  lemma CheckedStep(before: seq<Byte>, after: seq<Byte>, s: Shape, b: nat)
    requires b < s.Blocks() && |before| == |after| >= s.Total() && s.dataBlock > 0 && s.eccBlock > 0
    requires s.EccStart(b) + s.eccBlock <= |after|
    requires forall k :: 0 <= k < |after| && !(s.EccStart(b) <= k < s.EccStart(b) + s.eccBlock)
               ==> after[k] == before[k]
    requires after[s.EccStart(b)..s.EccStart(b) + s.eccBlock] == Remainder(DataOf(before, s, b), s.eccBlock)
    requires forall c: nat :: c < b ==> Checked(before, s, c)
    ensures forall c: nat :: c <= b ==> Checked(after, s, c)
  {
    hide Remainder, Mix;
    forall c: nat | c <= b
      ensures Checked(after, s, c)
    {
      BlocksAdjacent(s, c);
      BlockBounds(s, c);
      BlockBounds(s, c + 1);
      BlockBounds(s, b);
      assert DataOf(after, s, c) == DataOf(before, s, c);
      if c < b {
        MixRows(c, s.eccBlock, 0);
        MixMono(c + 1, b, s.eccBlock, 0);
        assert ChecksOf(after, s, c) == ChecksOf(before, s, c);
        assert Checked(before, s, c);
      }
    }
  }

  lemma NextColumn(i: nat, n: nat, j: nat)
    ensures Mix(i, n, j + 1) == Mix(i, n, j) + 1
  {
  }

  lemma NextRow(i: nat, n: nat)
    ensures Mix(i + 1, n, 0) == Mix(i, n, n)
  {
  }

  lemma HeaderStays(headed: seq<Byte>, words: seq<Byte>, n: nat, version: nat)
    requires |headed| >= 3 && |words| >= 3 && Header(headed, n, version)
    requires words[0] == headed[0] && words[1] == headed[1] && (version > 9 ==> words[2] == headed[2])
    ensures Header(words, n, version)
  {
  }

  /** The header takes only the free half of the first packed place, and the pad bytes none. */
  lemma PackedStays(packed: seq<Byte>, words: seq<Byte>, bytes: seq<Byte>, h: nat)
    requires h + |bytes| < |packed| && Packed(packed, bytes, h) && h + |bytes| < |words|
    requires Lower(words[h]) == Lower(packed[h])
    requires forall k :: h < k <= h + |bytes| ==> words[k] == packed[k]
    ensures Packed(words, bytes, h)
  {
    hide High, Lower;
    forall i | 0 <= i < |bytes|
      ensures Lower(words[h + i]) == High(bytes[i]) && High(words[h + i + 1]) == Lower(bytes[i])
    {
      assert Lower(packed[h + i]) == High(bytes[i]) && High(packed[h + i + 1]) == Lower(bytes[i]);
    }
  }

  lemma ShiftedIsPacked(s: seq<Byte>, bytes: seq<Byte>, h: nat)
    requires h + |bytes| < |s| && Shifted(s, bytes, h, 0)
    ensures Packed(s, bytes, h) && s[h] < 16 && Lower(s[|bytes| + h]) == 0
  {
  }

  /** What the interleaved bytes hold, read back at the places of the string buffer. */
  ghost function Recovered(output: seq<Byte>, s: Shape): (words: seq<Byte>)
    requires s.dataBlock > 0 && s.eccBlock > 0 && s.Blocks() > 0 && s.Total() <= |output|
    ensures |words| == s.Total()
  {
    seq(s.Total(), p requires 0 <= p < s.Total() => (SourcePlaceInverse(s, p); output[Place(s, p)]))
  }

  class Frame {
    const level: nat
    const version: nat
    const value: seq<Byte>
    const shape: Shape
    var polynomial: seq<Byte>
    var stringBuffer: array<Byte>
    var ecc: array<Byte>

    ghost predicate Sized()
      reads this
    {
      && 1 <= version <= 40 && Sane(shape, version)
      && shape.MaxLength() <= shape.Total() < shape.BufferLength()
      && stringBuffer.Length >= shape.BufferLength()
      && ecc.Length >= shape.BufferLength()
      && stringBuffer != ecc
    }

    /** Builds the generator polynomial in place and replaces its coefficients by their logarithms. */
    method CalculatePolynomial()
      requires Sized()
      modifies this`polynomial
      ensures LogsOfGenerator(polynomial, shape.eccBlock)
    {
      hide Add, Scale, Generator;
      var n := shape.eccBlock;
      polynomial := [1];
      assert CoefficientsUpward(polynomial, 0) by {
        GeneratorMonic(0);
      }
      for i := 0 to n
        invariant CoefficientsUpward(polynomial, i)
      {
        MultiplyInPlace(i);
      }
      for i := 0 to n + 1
        invariant |polynomial| == n + 1
        invariant forall j :: 0 <= j < i ==> polynomial[j] < 255 && Alpha(polynomial[j]) == Generator(n)[n - j]
        invariant forall j :: i <= j <= n ==> polynomial[j] == Generator(n)[n - j]
      {
        GeneratorNonZero(n, n - i);
        var l := LogAt(polynomial[i]);
        polynomial := polynomial[i := l];
      }
    }

    /** One round of the construction: multiplication by x + α^i, from the highest coefficient down. */
    method MultiplyInPlace(i: nat)
      requires i < 254 && CoefficientsUpward(polynomial, i)
      modifies this`polynomial
      ensures CoefficientsUpward(polynomial, i + 1)
    {
      hide Add, Scale, Generator;
      ghost var g, g' := Generator(i), Generator(i + 1);
      polynomial := polynomial + [1];
      NextCoefficient(i, 0);
      var j := i;
      while j > 0
        invariant 0 <= j <= i && |polynomial| == i + 2
        invariant forall t :: 0 <= t <= j ==> polynomial[t] == g[i - t]
        invariant forall t :: j < t <= i + 1 ==> polynomial[t] == g'[i + 1 - t]
      {
        NextCoefficient(i, j);
        if polynomial[j] != 0 {
          var l := LogAt(polynomial[j]);
          var e := Exponential(l, i);
          polynomial := polynomial[j := Add(polynomial[j - 1], e)];
        } else {
          ScaleZero(i);
          AddLaws(polynomial[j - 1], 0, 0);
          polynomial := polynomial[j := polynomial[j - 1]];
        }
        j := j - 1;
      }
      GeneratorNonZero(i, i);
      var l := LogAt(polynomial[0]);
      var e := Exponential(l, i);
      polynomial := polynomial[0 := e];
    }
  
    /** Appends the check bytes of one block: the remainder of a long division, in a shift register in the buffer. */
    method AppendData(data: nat, dataLength: nat, check: nat)
      requires Sized() && LogsOfGenerator(polynomial, shape.eccBlock)
      requires data + dataLength <= check && check + shape.eccBlock < stringBuffer.Length
      modifies stringBuffer
      ensures stringBuffer[check..check + shape.eccBlock]
              == Remainder(old(stringBuffer[data..data + dataLength]), shape.eccBlock)
      ensures forall k :: 0 <= k < stringBuffer.Length && !(check <= k < check + shape.eccBlock)
                ==> stringBuffer[k] == old(stringBuffer[k])
    {
      hide Add, Scale, Times, Generator, StepRegister, Remainder, LogsOfGenerator;
      var n := shape.eccBlock;
      ghost var d := stringBuffer[data..data + dataLength];
      for i := 0 to n
        invariant forall k :: check <= k < check + i ==> stringBuffer[k] == 0
        invariant forall k :: 0 <= k < stringBuffer.Length && !(check <= k < check + n)
                    ==> stringBuffer[k] == old(stringBuffer[k])
      {
        stringBuffer[check + i] := 0;
      }
      assert stringBuffer[check..check + n] == Remainder([], n) by {
        RemainderSnoc([], 0, n);
      }
      assert d[..0] == [];
      for i := 0 to dataLength
        invariant stringBuffer[check..check + n] == Remainder(d[..i], n)
        invariant forall k :: 0 <= k < stringBuffer.Length && !(check <= k < check + n)
                    ==> stringBuffer[k] == old(stringBuffer[k])
      {
        assert d[..i + 1] == d[..i] + [d[i]];
        RemainderSnoc(d[..i], d[i], n);
        assert stringBuffer[data + i] == d[i];
        DivisionStep(data + i, check);
      }
      assert d[..dataLength] == d;
    }

    /** One division step of the shift register. */
    method DivisionStep(data: nat, check: nat)
      requires Sized() && LogsOfGenerator(polynomial, shape.eccBlock)
      requires data < check && check + shape.eccBlock < stringBuffer.Length
      modifies stringBuffer
      ensures stringBuffer[check..check + shape.eccBlock]
              == StepRegister(old(stringBuffer[check..check + shape.eccBlock]), old(stringBuffer[data]),
                              Generator(shape.eccBlock))
      ensures forall k :: 0 <= k < stringBuffer.Length && !(check <= k < check + shape.eccBlock)
                ==> stringBuffer[k] == old(stringBuffer[k])
    {
      hide Add, Scale, Times, Generator, StepRegister, LogsOfGenerator;
      var n := shape.eccBlock;
      ghost var r := stringBuffer[check..check + n];
      ghost var r' := StepRegister(r, stringBuffer[data], Generator(n));
      assert stringBuffer[check] == r[0];
      var feedback := Add(stringBuffer[data], stringBuffer[check]);
      var bit := LogAt(feedback);
      if bit != 255 {
        ShiftAndAdd(check, bit, feedback, r, stringBuffer[data]);
      } else {
        ShiftOnly(check, r, stringBuffer[data]);
      }
      assert stringBuffer[check..check + n] == r';
    }

    /** The register is shifted, and the generator times the byte fed back is added. */
    method ShiftAndAdd(check: nat, bit: Byte, ghost feedback: Byte, ghost r: seq<Byte>, ghost x: Byte)
      requires Sized() && LogsOfGenerator(polynomial, shape.eccBlock) && check + shape.eccBlock < stringBuffer.Length
      requires r == stringBuffer[check..check + shape.eccBlock] && |r| > 0 && feedback == Add(x, r[0])
      requires feedback != 0 && bit < 255 && Alpha(bit) == feedback
      modifies stringBuffer
      ensures forall t :: 0 <= t < shape.eccBlock
                ==> stringBuffer[check + t] == StepRegister(r, x, Generator(shape.eccBlock))[t]
      ensures forall k :: 0 <= k < stringBuffer.Length && !(check <= k < check + shape.eccBlock)
                ==> stringBuffer[k] == old(stringBuffer[k])
    {
      hide Add, Scale, Times, Generator, StepRegister, Alpha;
      var n := shape.eccBlock;
      ghost var r' := StepRegister(r, x, Generator(n));
      for j := 1 to n
        invariant forall t :: 0 <= t < j - 1 ==> stringBuffer[check + t] == r'[t]
        invariant forall t :: j - 1 <= t < n ==> stringBuffer[check + t] == r[t]
        invariant forall k :: 0 <= k < stringBuffer.Length && !(check <= k < check + n)
                    ==> stringBuffer[k] == old(stringBuffer[k])
      {
        RegisterAt(r, x, n, j - 1, polynomial);
        ProductByLogs(bit, polynomial[n - j], feedback);
        var e := Exponential(bit, polynomial[n - j]);
        stringBuffer[check + j - 1] := Add(stringBuffer[check + j], e);
      }
      RegisterAt(r, x, n, n - 1, polynomial);
      ProductByLogs(bit, polynomial[0], feedback);
      var e := Exponential(bit, polynomial[0]);
      AddLaws(e, 0, 0);
      stringBuffer[check + n - 1] := e;
    }

    /** With nothing fed back, the register is only shifted. */
    method ShiftOnly(check: nat, ghost r: seq<Byte>, ghost x: Byte)
      requires Sized() && LogsOfGenerator(polynomial, shape.eccBlock) && check + shape.eccBlock < stringBuffer.Length
      requires r == stringBuffer[check..check + shape.eccBlock] && |r| > 0 && Add(x, r[0]) == 0
      modifies stringBuffer
      ensures forall t :: 0 <= t < shape.eccBlock
                ==> stringBuffer[check + t] == StepRegister(r, x, Generator(shape.eccBlock))[t]
      ensures forall k :: 0 <= k < stringBuffer.Length && !(check <= k < check + shape.eccBlock)
                ==> stringBuffer[k] == old(stringBuffer[k])
    {
      hide Add, Scale, Times, Generator, StepRegister;
      var n := shape.eccBlock;
      ghost var r' := StepRegister(r, x, Generator(n));
      for j := check to check + n
        invariant forall t :: 0 <= t < j - check && t < n - 1 ==> stringBuffer[check + t] == r'[t]
        invariant forall t :: j - check <= t < n ==> stringBuffer[check + t] == r[t]
        invariant forall k :: 0 <= k < stringBuffer.Length && !(check <= k < check + n)
                    ==> stringBuffer[k] == old(stringBuffer[k])
      {
        RegisterAt(r, x, n, j - check, polynomial);
        stringBuffer[j] := stringBuffer[j + 1];
      }
      RegisterAt(r, x, n, n - 1, polynomial);
      stringBuffer[check + n - 1] := 0;
    }

    /** Appends check bytes to all blocks, the short ones first. */
    method AppendEccToData()
      requires Sized() && LogsOfGenerator(polynomial, shape.eccBlock)
      modifies stringBuffer
      ensures forall b: nat :: b < shape.Blocks() ==> Checked(stringBuffer[..], shape, b)
      ensures shape.MaxLength() <= stringBuffer.Length
      ensures stringBuffer[..shape.MaxLength()] == old(stringBuffer[..shape.MaxLength()])
    {
      hide Remainder, LogsOfGenerator, Mix, Checked;
      BlockBounds(shape, 0);
      var data, check := 0, shape.MaxLength();
      for i := 0 to shape.short
        invariant data == shape.DataStart(i) && check == shape.EccStart(i)
        invariant forall b: nat :: b < i ==> Checked(stringBuffer[..], shape, b)
        invariant stringBuffer[..shape.MaxLength()] == old(stringBuffer[..shape.MaxLength()])
      {
        AppendBlock(i, data, shape.dataBlock, check);
        data := data + shape.dataBlock;
        check := check + shape.eccBlock;
      }
      for i := 0 to shape.long
        invariant data == shape.DataStart(shape.short + i) && check == shape.EccStart(shape.short + i)
        invariant forall b: nat :: b < shape.short + i ==> Checked(stringBuffer[..], shape, b)
        invariant stringBuffer[..shape.MaxLength()] == old(stringBuffer[..shape.MaxLength()])
      {
        AppendBlock(shape.short + i, data, shape.dataBlock + 1, check);
        data := data + (shape.dataBlock + 1);
        check := check + shape.eccBlock;
      }
    }

    /** One block of the loop above, with the places of the next one. */
    method AppendBlock(ghost b: nat, data: nat, dataLength: nat, check: nat)
      requires Sized() && LogsOfGenerator(polynomial, shape.eccBlock)
      requires b < shape.Blocks() && data == shape.DataStart(b) && check == shape.EccStart(b)
      requires dataLength == shape.DataLength(b)
      requires forall c: nat :: c < b ==> Checked(stringBuffer[..], shape, c)
      modifies stringBuffer
      ensures forall c: nat :: c <= b ==> Checked(stringBuffer[..], shape, c)
      ensures shape.MaxLength() <= stringBuffer.Length
      ensures stringBuffer[..shape.MaxLength()] == old(stringBuffer[..shape.MaxLength()])
      ensures data + dataLength == shape.DataStart(b + 1) && check + shape.eccBlock == shape.EccStart(b + 1)
    {
      hide Remainder, LogsOfGenerator, Mix, Checked;
      BlocksAdjacent(shape, b);
      BlockBounds(shape, b);
      BlockBounds(shape, b + 1);
      ghost var before := stringBuffer[..];
      assert stringBuffer[data..data + dataLength] == DataOf(before, shape, b);
      AppendData(data, dataLength, check);
      CheckedStep(before, stringBuffer[..], shape, b);
    }

    /** Interleaves data and check bytes of all blocks into the output buffer, which becomes the string buffer. */
    method InterleaveBlocks()
      requires Sized()
      modifies this`stringBuffer, ecc
      ensures stringBuffer == ecc == old(ecc)
      ensures shape.Total() <= stringBuffer.Length && Interleaved(shape, old(stringBuffer[..]), stringBuffer[..])
    {
      CopyInterleaved();
      stringBuffer := ecc;
    }

    /** The copying loops of the above. */
    method CopyInterleaved()
      requires Sized()
      modifies ecc
      ensures Interleaved(shape, old(stringBuffer[..]), ecc[..])
    {
      hide Mix, InBuffer, InOutput, IsCell, OutputFrom;
      var k := 0;
      var d, n := shape.dataBlock, shape.Blocks();
      MixRows(0, n, 0);
      for i := 0 to d
        invariant k == Mix(i, n, 0)
        invariant forall q :: 0 <= q < k ==> OutputFrom(q)
      {
        for j := 0 to shape.short
          invariant k == Mix(i, n, j)
          invariant forall q :: 0 <= q < k ==> OutputFrom(q)
        {
          ShortBlockByte(shape, j, i);
          CopyByte(k, Data(j, i), Mix(j, d, i));
          NextColumn(i, n, j);
          k := k + 1;
        }
        for j := 0 to shape.long
          invariant k == Mix(i, n, shape.short + j)
          invariant forall q :: 0 <= q < k ==> OutputFrom(q)
        {
          LongBlockByte(shape, j, i);
          CopyByte(k, Data(shape.short + j, i), Mix(j, d + 1, Mix(shape.short, d, i)));
          NextColumn(i, n, shape.short + j);
          k := k + 1;
        }
        NextRow(i, n);
      }
      for j := 0 to shape.long
        invariant k == Mix(d, n, j)
        invariant forall q :: 0 <= q < k ==> OutputFrom(q)
      {
        LongBlockByte(shape, j, d);
        CopyByte(k, Data(shape.short + j, d), Mix(j, d + 1, Mix(shape.short, d, d)));
        NextColumn(d, n, j);
        k := k + 1;
      }
      for i := 0 to shape.eccBlock
        invariant k == shape.MaxLength() + Mix(i, n, 0)
        invariant forall q :: 0 <= q < k ==> OutputFrom(q)
      {
        for j := 0 to n
          invariant k == shape.MaxLength() + Mix(i, n, j)
          invariant forall q :: 0 <= q < k ==> OutputFrom(q)
        {
          CheckBlockByte(shape, j, i);
          CopyByte(k, Check(j, i), shape.MaxLength() + Mix(j, shape.eccBlock, i));
          NextColumn(i, n, j);
          k := k + 1;
        }
        NextRow(i, n);
      }
      assert stringBuffer[..] == old(stringBuffer[..]);
      Finished(stringBuffer[..]);
    }

    /** The q-th output byte is in place. */
    ghost predicate OutputFrom(q: nat)
      requires shape.Blocks() > 0
      reads this, ecc, stringBuffer
    {
      q < ecc.Length && Source(shape, q) < stringBuffer.Length && ecc[q] == stringBuffer[Source(shape, q)]
    }

    lemma Finished(input: seq<Byte>)
      requires Sized() && input == stringBuffer[..]
      requires forall q :: 0 <= q < shape.Total() ==> OutputFrom(q)
      ensures Interleaved(shape, input, ecc[..])
    {
      hide Mix, Source;
      forall q | 0 <= q < shape.Total()
        ensures Source(shape, q) < |input| && ecc[..][q] == input[Source(shape, q)]
      {
        assert OutputFrom(q);
      }
    }

    /** One assignment of the loops above. */
    method CopyByte(k: nat, ghost c: Cell, from: nat)
      requires Sized() && IsCell(shape, c) && k == InOutput(shape, c) && from == InBuffer(shape, c)
      requires forall q :: 0 <= q < k ==> OutputFrom(q)
      modifies ecc
      ensures forall q :: 0 <= q <= k ==> OutputFrom(q)
      ensures k < shape.Total()
    {
      hide Mix, InBuffer, InOutput, OutputCell, BufferCell;
      CellInBuffer(shape, c);
      CellInOutput(shape, c);
      BlockBounds(shape, 0);
      assert Source(shape, k) == from;
      hide Source;
      ecc[k] := stringBuffer[from];
      forall q | 0 <= q <= k
        ensures OutputFrom(q)
      {
        if q < k {
          assert old(OutputFrom(q));
        }
      }
    }
  
    /** How many bytes of the message the chosen version takes. */
    function Fitting(): nat
      requires Sane(shape, version)
    {
      var capacity := shape.MaxLength() - (if version > 9 then 3 else 2);
      if |value| < capacity then |value| else capacity
    }

    /** The whole message, or as much of it as there is room for. */
    lemma FittingMeans()
      requires Sane(shape, version)
      ensures Fitting() <= |value| && SegmentBits(Fitting(), version) <= 8 * shape.MaxLength()
      ensures Fitting() == |value| || SegmentBits(Fitting() + 1, version) > 8 * shape.MaxLength()
    {
      hide Mix;
    }

    /** A message segment, the four-bit terminator and the pad bytes, in the first MaxLength bytes. */
    ghost predicate HoldsStream(words: seq<Byte>)
      requires Sane(shape, version)
    {
      var h := CountNibbles(version) / 2;
      && |words| == shape.MaxLength()
      && Read(words, version) == Message(value[..Fitting()])
      && Lower(words[h + Fitting()]) == 0
      && Padded(words, h + Fitting() + 1)
    }

    /** Shifts the first length bytes by h bytes and a half, from the last one down. */
    method Repack(length: nat, h: nat)
      requires h >= 1 && length + h + 1 < stringBuffer.Length
      modifies stringBuffer
      ensures Packed(stringBuffer[..], old(stringBuffer[..length]), h)
      ensures stringBuffer[h] < 16 && Lower(stringBuffer[h + length]) == 0
    {
      ghost var o := stringBuffer[..length];
      var index := length;
      stringBuffer[index + h] := 0;
      stringBuffer[index + h + 1] := 0;
      assert Shifted(stringBuffer[..], o, h, index);
      hide High, LowHalfUp, Shifted;
      while index != 0
        invariant 0 <= index <= length
        invariant Shifted(stringBuffer[..], o, h, index)
      {
        index := index - 1;
        ShiftOne(stringBuffer[..], o, h, index);
        ghost var s := stringBuffer[..];
        var bit := stringBuffer[index];
        // The low half of the place is taken, the high half is free.
        stringBuffer[index + h + 1] := stringBuffer[index + h + 1] + LowHalfUp(bit);
        stringBuffer[index + h] := High(bit);
        assert stringBuffer[..] == s[index + h + 1 := s[index + h + 1] + LowHalfUp(bit)][index + h := High(bit)];
      }
      ShiftedIsPacked(stringBuffer[..], o, h);
    }

    /** Writes pad bytes in pairs from index on; the last pair may end one byte past the data. */
    method Pad(start: nat, end: nat)
      requires start <= end < stringBuffer.Length
      modifies stringBuffer
      ensures Padded(stringBuffer[..end], start)
      ensures forall k :: 0 <= k < stringBuffer.Length && k < start ==> stringBuffer[k] == old(stringBuffer[k])
    {
      var index := start;
      while index < end
        invariant start <= index && (index - start) % 2 == 0
        invariant index <= end + 1
        invariant forall k :: start <= k < index && k < end
                    ==> stringBuffer[k] == if (k - start) % 2 == 0 then 0xec else 0x11
        invariant forall k :: 0 <= k < stringBuffer.Length && k < start ==> stringBuffer[k] == old(stringBuffer[k])
      {
        stringBuffer[index] := 0xec;
        stringBuffer[index + 1] := 0x11;
        index := index + 2;
      }
      forall k | start <= k < end
        ensures stringBuffer[..end][k] == if (k - start) % 2 == 0 then 0xec else 0x11
      {
      }
    }
  
    /** Writes the message to the start of the output buffer; assigning past the end makes the list longer. */
    method LoadValue()
      modifies this`ecc, ecc
      ensures ecc == old(ecc) || fresh(ecc)
      ensures ecc.Length >= |value| && ecc.Length >= old(ecc.Length) && ecc[..|value|] == value
    {
      if |value| > ecc.Length {
        ecc := new Byte[|value|](_ => 0);
      }
      for i := 0 to |value|
        invariant ecc.Length >= |value| && ecc.Length >= old(ecc.Length) && (ecc == old(ecc) || fresh(ecc))
        invariant ecc[..i] == value[..i]
      {
        ecc[i] := value[i];
      }
    }

    /** A copy of a list. */
    static method Slice(a: array<Byte>) returns (copy: array<Byte>)
      ensures fresh(copy) && copy[..] == a[..]
    {
      copy := new Byte[a.Length];
      for i := 0 to a.Length
        invariant copy[..i] == a[..i]
      {
        copy[i] := a[i];
      }
    }

    /** Turns the message into the data bytes of a byte-mode segment, padded to the full length. */
    method ConvertBitStream()
      requires Sane(shape, version)
      requires shape.MaxLength() < shape.BufferLength() <= ecc.Length
      modifies this`ecc, this`stringBuffer, ecc
      ensures fresh(stringBuffer) && stringBuffer != ecc && (ecc == old(ecc) || fresh(ecc))
      ensures stringBuffer.Length == ecc.Length >= shape.BufferLength()
      ensures HoldsStream(stringBuffer[..shape.MaxLength()])
    {
      hide HoldsStream, Mix;
      LoadValue();
      stringBuffer := Slice(ecc);
      var length, maxLength := |value|, shape.MaxLength();
      if length >= maxLength - 2 {
        length := maxLength - 2;
        if version > 9 {
          length := length - 1;
        }
      }
      assert stringBuffer[..length] == value[..length] by {
        assert stringBuffer[..length] == stringBuffer[..][..length] == ecc[..][..length] == ecc[..|value|][..length];
      }
      if version > 9 {
        WriteSegment(length, 2);
      } else {
        WriteSegment(length, 1);
      }
    }

    /** The mode and the character count. */
    method WriteHeader(length: nat, h: nat)
      requires h == CountNibbles(version) / 2 && stringBuffer.Length > 2 && stringBuffer[h] < 16
      requires length < if version > 9 then 4096 else 256
      modifies stringBuffer
      ensures Header(stringBuffer[..], length, version)
      ensures Lower(stringBuffer[h]) == old(Lower(stringBuffer[h]))
      ensures forall k :: h < k < stringBuffer.Length ==> stringBuffer[k] == old(stringBuffer[k])
    {
      FillHigh(stringBuffer[h], length);
      HighIsSmall(stringBuffer[h]);
      if version > 9 {
        stringBuffer[2] := stringBuffer[2] + LowHalfUp(length);
        stringBuffer[1] := length / 16;
        stringBuffer[0] := 0x40 + length / 4096;
      } else {
        stringBuffer[1] := stringBuffer[1] + LowHalfUp(length);
        stringBuffer[0] := 0x40 + length / 16;
      }
    }

    /** The repacked bytes, the header in front of them and the pad bytes behind. */
    method WriteSegment(length: nat, h: nat)
      requires Sane(shape, version)
      requires h == CountNibbles(version) / 2 && length == Fitting() && shape.MaxLength() < stringBuffer.Length
      requires stringBuffer[..length] == value[..length]
      modifies stringBuffer
      ensures HoldsStream(stringBuffer[..shape.MaxLength()])
    {
      hide Read, High, Lower, LowHalfUp, Packed, Header;
      var maxLength := shape.MaxLength();
      Repack(length, h);
      ghost var packed := stringBuffer[..];
      WriteHeader(length, h);
      ghost var headed := stringBuffer[..];
      Pad(length + h + 1, maxLength);
      ghost var words := stringBuffer[..maxLength];
      assert forall k :: 0 <= k <= h + length ==> words[k] == headed[k];
      PackedStays(packed, words, value[..length], h);
      HeaderStays(headed, words, length, version);
      ReadsBack(words, value[..length], version);
    }
  
    /**
      The interleaved bytes can be taken apart again: the data blocks hold the message, and every data block
      followed by its check bytes vanishes at all roots of the generator polynomial.
    */
    ghost predicate Encoded()
      requires Sane(shape, version) && shape.Total() <= stringBuffer.Length
      reads this, stringBuffer
    {
      var words := Recovered(stringBuffer[..], shape);
      && shape.MaxLength() <= |words| && HoldsStream(words[..shape.MaxLength()])
      && forall b: nat :: b < shape.Blocks() ==>
           IsCodeword(DataOf(words, shape, b) + ChecksOf(words, shape, b), shape.eccBlock)
    }

    lemma EncodedBecause(words: seq<Byte>)
      requires Sane(shape, version) && shape.MaxLength() <= shape.Total() <= |words|
      requires HoldsStream(words[..shape.MaxLength()])
      requires forall b: nat :: b < shape.Blocks() ==> Checked(words, shape, b)
      requires shape.Total() <= stringBuffer.Length && Interleaved(shape, words, stringBuffer[..])
      ensures Encoded()
    {
      hide HoldsStream, Mix, Remainder, Source, Place, IsCodeword;
      var w := Recovered(stringBuffer[..], shape);
      assert w == words[..shape.Total()] by {
        forall p | 0 <= p < shape.Total()
          ensures w[p] == words[p]
        {
          SourcePlaceInverse(shape, p);
        }
      }
      assert w[..shape.MaxLength()] == words[..shape.MaxLength()];
      forall b: nat | b < shape.Blocks()
        ensures IsCodeword(DataOf(w, shape, b) + ChecksOf(w, shape, b), shape.eccBlock)
      {
        BlocksAdjacent(shape, b);
        BlockBounds(shape, b);
        BlockBounds(shape, b + 1);
        assert DataOf(w, shape, b) == DataOf(words, shape, b) && ChecksOf(w, shape, b) == ChecksOf(words, shape, b);
        assert Checked(words, shape, b);
        CheckBytesCharacterised(DataOf(w, shape, b), ChecksOf(w, shape, b), shape.eccBlock);
      }
    }

    /** Chooses a version, then encodes, protects and interleaves the message. */
    constructor (value: seq<Byte>, level: nat)
      requires 1 <= level <= 4
      ensures this.value == value && this.level == level && 1 <= version <= 40 && shape == ShapeOf(version, level)
      ensures forall v :: 1 <= v < version ==> SegmentBits(|value|, v) > 8 * ShapeOf(v, level).MaxLength()
      ensures SegmentBits(|value|, version) <= 8 * shape.MaxLength() || version == 40
      ensures Sane(shape, version) && shape.Total() <= stringBuffer.Length && Encoded()
      ensures shape.Total() == Room(version) && Corrects(shape, level)
    {
      this.value := value;
      this.level := level;
      var version, shape := SelectVersion(|value|, level);
      this.version := version;
      this.shape := shape;
      this.polynomial := [];
      this.stringBuffer := new Byte[0];
      this.ecc := new Byte[shape.BufferLength()](_ => 0);
      new;
      hide Mix, ShapeOf, HoldsStream, Encoded, Sane, SegmentBits, Capacity;
      forall v: nat | 1 <= v <= 40 {
        CapacityExact(v, level, |value|);
      }
      Encode();
    }

    /** The bit stream, the check bytes and the interleaving. */
    method Encode()
      requires 1 <= version <= 40 && Sane(shape, version) && ecc.Length == shape.BufferLength()
      modifies this`stringBuffer, this`ecc, this`polynomial, ecc
      ensures shape.Total() <= stringBuffer.Length && Encoded()
    {
      hide Mix, HoldsStream, LogsOfGenerator, Interleaved, Encoded, Checked;
      BlockBounds(shape, 0);
      ConvertBitStream();
      CalculatePolynomial();
      AppendEccToData();
      ghost var words := stringBuffer[..];
      InterleaveBlocks();
      EncodedBecause(words);
    }
  }
}
