/**
  The exponent and logarithm tables, and the proof that they are the powers of the primitive element and the
  inverse of that enumeration.  The tables are looked up through methods, so that no client proof ever opens them.
*/
module GaloisTables {
  import opened Bytes
  import opened GaloisField

  const EXPONENT: seq<seq<Byte>> := [
    [0x01, 0x02, 0x04, 0x08, 0x10, 0x20, 0x40, 0x80, 0x1d, 0x3a, 0x74, 0xe8, 0xcd, 0x87, 0x13, 0x26],
    [0x4c, 0x98, 0x2d, 0x5a, 0xb4, 0x75, 0xea, 0xc9, 0x8f, 0x03, 0x06, 0x0c, 0x18, 0x30, 0x60, 0xc0],
    [0x9d, 0x27, 0x4e, 0x9c, 0x25, 0x4a, 0x94, 0x35, 0x6a, 0xd4, 0xb5, 0x77, 0xee, 0xc1, 0x9f, 0x23],
    [0x46, 0x8c, 0x05, 0x0a, 0x14, 0x28, 0x50, 0xa0, 0x5d, 0xba, 0x69, 0xd2, 0xb9, 0x6f, 0xde, 0xa1],
    [0x5f, 0xbe, 0x61, 0xc2, 0x99, 0x2f, 0x5e, 0xbc, 0x65, 0xca, 0x89, 0x0f, 0x1e, 0x3c, 0x78, 0xf0],
    [0xfd, 0xe7, 0xd3, 0xbb, 0x6b, 0xd6, 0xb1, 0x7f, 0xfe, 0xe1, 0xdf, 0xa3, 0x5b, 0xb6, 0x71, 0xe2],
    [0xd9, 0xaf, 0x43, 0x86, 0x11, 0x22, 0x44, 0x88, 0x0d, 0x1a, 0x34, 0x68, 0xd0, 0xbd, 0x67, 0xce],
    [0x81, 0x1f, 0x3e, 0x7c, 0xf8, 0xed, 0xc7, 0x93, 0x3b, 0x76, 0xec, 0xc5, 0x97, 0x33, 0x66, 0xcc],
    [0x85, 0x17, 0x2e, 0x5c, 0xb8, 0x6d, 0xda, 0xa9, 0x4f, 0x9e, 0x21, 0x42, 0x84, 0x15, 0x2a, 0x54],
    [0xa8, 0x4d, 0x9a, 0x29, 0x52, 0xa4, 0x55, 0xaa, 0x49, 0x92, 0x39, 0x72, 0xe4, 0xd5, 0xb7, 0x73],
    [0xe6, 0xd1, 0xbf, 0x63, 0xc6, 0x91, 0x3f, 0x7e, 0xfc, 0xe5, 0xd7, 0xb3, 0x7b, 0xf6, 0xf1, 0xff],
    [0xe3, 0xdb, 0xab, 0x4b, 0x96, 0x31, 0x62, 0xc4, 0x95, 0x37, 0x6e, 0xdc, 0xa5, 0x57, 0xae, 0x41],
    [0x82, 0x19, 0x32, 0x64, 0xc8, 0x8d, 0x07, 0x0e, 0x1c, 0x38, 0x70, 0xe0, 0xdd, 0xa7, 0x53, 0xa6],
    [0x51, 0xa2, 0x59, 0xb2, 0x79, 0xf2, 0xf9, 0xef, 0xc3, 0x9b, 0x2b, 0x56, 0xac, 0x45, 0x8a, 0x09],
    [0x12, 0x24, 0x48, 0x90, 0x3d, 0x7a, 0xf4, 0xf5, 0xf7, 0xf3, 0xfb, 0xeb, 0xcb, 0x8b, 0x0b, 0x16],
    [0x2c, 0x58, 0xb0, 0x7d, 0xfa, 0xe9, 0xcf, 0x83, 0x1b, 0x36, 0x6c, 0xd8, 0xad, 0x47, 0x8e, 0x00]
  ]

  const LOG: seq<seq<Byte>> := [
    [0xff, 0x00, 0x01, 0x19, 0x02, 0x32, 0x1a, 0xc6, 0x03, 0xdf, 0x33, 0xee, 0x1b, 0x68, 0xc7, 0x4b],
    [0x04, 0x64, 0xe0, 0x0e, 0x34, 0x8d, 0xef, 0x81, 0x1c, 0xc1, 0x69, 0xf8, 0xc8, 0x08, 0x4c, 0x71],
    [0x05, 0x8a, 0x65, 0x2f, 0xe1, 0x24, 0x0f, 0x21, 0x35, 0x93, 0x8e, 0xda, 0xf0, 0x12, 0x82, 0x45],
    [0x1d, 0xb5, 0xc2, 0x7d, 0x6a, 0x27, 0xf9, 0xb9, 0xc9, 0x9a, 0x09, 0x78, 0x4d, 0xe4, 0x72, 0xa6],
    [0x06, 0xbf, 0x8b, 0x62, 0x66, 0xdd, 0x30, 0xfd, 0xe2, 0x98, 0x25, 0xb3, 0x10, 0x91, 0x22, 0x88],
    [0x36, 0xd0, 0x94, 0xce, 0x8f, 0x96, 0xdb, 0xbd, 0xf1, 0xd2, 0x13, 0x5c, 0x83, 0x38, 0x46, 0x40],
    [0x1e, 0x42, 0xb6, 0xa3, 0xc3, 0x48, 0x7e, 0x6e, 0x6b, 0x3a, 0x28, 0x54, 0xfa, 0x85, 0xba, 0x3d],
    [0xca, 0x5e, 0x9b, 0x9f, 0x0a, 0x15, 0x79, 0x2b, 0x4e, 0xd4, 0xe5, 0xac, 0x73, 0xf3, 0xa7, 0x57],
    [0x07, 0x70, 0xc0, 0xf7, 0x8c, 0x80, 0x63, 0x0d, 0x67, 0x4a, 0xde, 0xed, 0x31, 0xc5, 0xfe, 0x18],
    [0xe3, 0xa5, 0x99, 0x77, 0x26, 0xb8, 0xb4, 0x7c, 0x11, 0x44, 0x92, 0xd9, 0x23, 0x20, 0x89, 0x2e],
    [0x37, 0x3f, 0xd1, 0x5b, 0x95, 0xbc, 0xcf, 0xcd, 0x90, 0x87, 0x97, 0xb2, 0xdc, 0xfc, 0xbe, 0x61],
    [0xf2, 0x56, 0xd3, 0xab, 0x14, 0x2a, 0x5d, 0x9e, 0x84, 0x3c, 0x39, 0x53, 0x47, 0x6d, 0x41, 0xa2],
    [0x1f, 0x2d, 0x43, 0xd8, 0xb7, 0x7b, 0xa4, 0x76, 0xc4, 0x17, 0x49, 0xec, 0x7f, 0x0c, 0x6f, 0xf6],
    [0x6c, 0xa1, 0x3b, 0x52, 0x29, 0x9d, 0x55, 0xaa, 0xfb, 0x60, 0x86, 0xb1, 0xbb, 0xcc, 0x3e, 0x5a],
    [0xcb, 0x59, 0x5f, 0xb0, 0x9c, 0xa9, 0xa0, 0x51, 0x0b, 0xf5, 0x16, 0xeb, 0x7a, 0x75, 0x2c, 0xd7],
    [0x4f, 0xae, 0xd5, 0xe9, 0xe6, 0xe7, 0xad, 0xe8, 0x74, 0xd6, 0xf4, 0xea, 0xa8, 0x50, 0x58, 0xaf]
  ]

  function Exponent(i: Byte): Byte
  {
    assert |EXPONENT| == 16 && |EXPONENT[i / 16]| == 16;
    EXPONENT[i / 16][i % 16]
  }

  function Log(i: Byte): Byte
  {
    assert |LOG| == 16 && |LOG[i / 16]| == 16;
    LOG[i / 16][i % 16]
  }

  /** Double as plain arithmetic on the bits of weight 16, 8, 4 and 1, so that table rows can be checked at once. */
  function DoubleByBits(x: Byte): int
  {
    if x < 128 then 2 * x
    else
      var y := 2 * x - 256;
      var y4 := Low(Low(Low(y, 128), 64), 32);
      var y3 := Low(y4, 16);
      var y2 := Low(y3, 8);
      y + 1 + (if y4 >= 16 then -16 else 16) + (if y3 >= 8 then -8 else 8) + (if y2 >= 4 then -4 else 4)
  }

  lemma LowBits(y2: nat)
    requires y2 < 8 && y2 % 2 == 0
    ensures Xor(y2, 5, 3) == y2 + 1 + (if y2 >= 4 then -4 else 4)
  {
    assert Xor(0, 1, 1) == 1;
    assert Xor(0, 1, 2) == 1 && Xor(2, 1, 2) == 3;
    assert Xor(y2, 5, 3) == (if y2 >= 4 then 0 else 4) + Xor(Low(y2, 4), 1, 2);
  }

  lemma MiddleBits(y4: nat)
    requires y4 < 32 && y4 % 2 == 0
    ensures Pow2(5) == 32
    ensures Xor(y4, 29, 5) == (if y4 >= 16 then 0 else 16) + (if Low(y4, 16) >= 8 then 0 else 8)
                              + Xor(Low(Low(y4, 16), 8), 5, 3)
  {
    assert Pow2(3) == 8 && Pow2(4) == 16;
    assert Xor(Low(y4, 16), 13, 4) == (if Low(y4, 16) >= 8 then 0 else 8) + Xor(Low(Low(y4, 16), 8), 5, 3);
  }

  lemma HighBits(y: nat)
    requires y < 256
    ensures Pow2(8) == 256 && Pow2(5) == 32
    ensures Xor(y, 29, 8) == y - Low(Low(Low(y, 128), 64), 32) + Xor(Low(Low(Low(y, 128), 64), 32), 29, 5)
  {
    Pow2Eight();
    assert Pow2(5) == 32 && Pow2(6) == 64;
    assert Xor(Low(y, 128), 29, 7) == (if Low(y, 128) >= 64 then 64 else 0) + Xor(Low(Low(y, 128), 64), 29, 6);
    assert Xor(y, 29, 8) == (if y >= 128 then 128 else 0) + Xor(Low(y, 128), 29, 7);
  }

  /** Doubling a number doubles what is left of it under a bit. */
  lemma LowTwice(z: nat, p: nat)
    ensures Low(2 * z, 2 * p) == 2 * Low(z, p)
  {
  }

  lemma DoubleIsByBits(x: Byte)
    ensures Double(x) == DoubleByBits(x)
  {
    if x >= 128 {
      var y, z := 2 * x - 256, x - 128;
      var z4 := Low(Low(Low(z, 64), 32), 16);
      var y4 := Low(Low(Low(y, 128), 64), 32);
      var y2 := Low(Low(y4, 16), 8);
      LowTwice(z, 64);
      LowTwice(Low(z, 64), 32);
      LowTwice(Low(Low(z, 64), 32), 16);
      assert y4 == 2 * z4 < 32;
      LowTwice(z4, 8);
      LowTwice(Low(z4, 8), 4);
      assert y2 == 2 * Low(Low(z4, 8), 4) < 8;
      FlipIsByBits(y, y4, y2);
    }
  }

  lemma FlipIsByBits(y: Byte, y4: nat, y2: nat)
    requires y4 == Low(Low(Low(y, 128), 64), 32) < 32 && y4 % 2 == 0
    requires y2 == Low(Low(y4, 16), 8) < 8 && y2 % 2 == 0
    ensures Add(y, 29) == y + 1 + (if y4 >= 16 then -16 else 16) + (if Low(y4, 16) >= 8 then -8 else 8)
                          + (if y2 >= 4 then -4 else 4)
  {
    HighBits(y);
    MiddleBits(y4);
    LowBits(y2);
  }

  /** The entry after index i is the double of the entry at i. */
  ghost predicate Next(i: Byte)
  {
    i < 255 && DoubleByBits(Exponent(i)) == Exponent(i + 1)
  }

  /** The tables invert each other at the element x. */
  ghost predicate Inverse(x: Byte)
  {
    Log(x) < 255 && Exponent(Log(x)) == x
  }

  // The tables are checked row by row.

  lemma Powers0(i: Byte)
    requires 0 <= i < 16
    ensures Next(i)
  {
  }

  lemma Logs0(x: Byte)
    requires 1 <= x < 16
    ensures Inverse(x)
  {
    hide Inverse;
    if x < 8 { LowLogs0(x); } else { HighLogs0(x); }
  }

  lemma LowLogs0(x: Byte)
    requires 1 <= x < 8
    ensures Inverse(x)
  {
  }

  lemma HighLogs0(x: Byte)
    requires 8 <= x < 16
    ensures Inverse(x)
  {
  }

  lemma Powers1(i: Byte)
    requires 16 <= i < 32
    ensures Next(i)
  {
  }

  lemma Logs1(x: Byte)
    requires 16 <= x < 32
    ensures Inverse(x)
  {
    hide Inverse;
    if x < 24 { LowLogs1(x); } else { HighLogs1(x); }
  }

  lemma LowLogs1(x: Byte)
    requires 16 <= x < 24
    ensures Inverse(x)
  {
  }

  lemma HighLogs1(x: Byte)
    requires 24 <= x < 32
    ensures Inverse(x)
  {
  }

  lemma Powers2(i: Byte)
    requires 32 <= i < 48
    ensures Next(i)
  {
  }

  lemma Logs2(x: Byte)
    requires 32 <= x < 48
    ensures Inverse(x)
  {
    hide Inverse;
    if x < 40 { LowLogs2(x); } else { HighLogs2(x); }
  }

  lemma LowLogs2(x: Byte)
    requires 32 <= x < 40
    ensures Inverse(x)
  {
  }

  lemma HighLogs2(x: Byte)
    requires 40 <= x < 48
    ensures Inverse(x)
  {
  }

  lemma Powers3(i: Byte)
    requires 48 <= i < 64
    ensures Next(i)
  {
  }

  lemma Logs3(x: Byte)
    requires 48 <= x < 64
    ensures Inverse(x)
  {
    hide Inverse;
    if x < 56 { LowLogs3(x); } else { HighLogs3(x); }
  }

  lemma LowLogs3(x: Byte)
    requires 48 <= x < 56
    ensures Inverse(x)
  {
  }

  lemma HighLogs3(x: Byte)
    requires 56 <= x < 64
    ensures Inverse(x)
  {
  }

  lemma Powers4(i: Byte)
    requires 64 <= i < 80
    ensures Next(i)
  {
  }

  lemma Logs4(x: Byte)
    requires 64 <= x < 80
    ensures Inverse(x)
  {
    hide Inverse;
    if x < 72 { LowLogs4(x); } else { HighLogs4(x); }
  }

  lemma LowLogs4(x: Byte)
    requires 64 <= x < 72
    ensures Inverse(x)
  {
  }

  lemma HighLogs4(x: Byte)
    requires 72 <= x < 80
    ensures Inverse(x)
  {
  }

  lemma Powers5(i: Byte)
    requires 80 <= i < 96
    ensures Next(i)
  {
  }

  lemma Logs5(x: Byte)
    requires 80 <= x < 96
    ensures Inverse(x)
  {
    hide Inverse;
    if x < 88 { LowLogs5(x); } else { HighLogs5(x); }
  }

  lemma LowLogs5(x: Byte)
    requires 80 <= x < 88
    ensures Inverse(x)
  {
  }

  lemma HighLogs5(x: Byte)
    requires 88 <= x < 96
    ensures Inverse(x)
  {
  }

  lemma Powers6(i: Byte)
    requires 96 <= i < 112
    ensures Next(i)
  {
  }

  lemma Logs6(x: Byte)
    requires 96 <= x < 112
    ensures Inverse(x)
  {
    hide Inverse;
    if x < 104 { LowLogs6(x); } else { HighLogs6(x); }
  }

  lemma LowLogs6(x: Byte)
    requires 96 <= x < 104
    ensures Inverse(x)
  {
  }

  lemma HighLogs6(x: Byte)
    requires 104 <= x < 112
    ensures Inverse(x)
  {
  }

  lemma Powers7(i: Byte)
    requires 112 <= i < 128
    ensures Next(i)
  {
  }

  lemma Logs7(x: Byte)
    requires 112 <= x < 128
    ensures Inverse(x)
  {
    hide Inverse;
    if x < 120 { LowLogs7(x); } else { HighLogs7(x); }
  }

  lemma LowLogs7(x: Byte)
    requires 112 <= x < 120
    ensures Inverse(x)
  {
  }

  lemma HighLogs7(x: Byte)
    requires 120 <= x < 128
    ensures Inverse(x)
  {
  }

  lemma Powers8(i: Byte)
    requires 128 <= i < 144
    ensures Next(i)
  {
  }

  lemma Logs8(x: Byte)
    requires 128 <= x < 144
    ensures Inverse(x)
  {
    hide Inverse;
    if x < 136 { LowLogs8(x); } else { HighLogs8(x); }
  }

  lemma LowLogs8(x: Byte)
    requires 128 <= x < 136
    ensures Inverse(x)
  {
  }

  lemma HighLogs8(x: Byte)
    requires 136 <= x < 144
    ensures Inverse(x)
  {
  }

  lemma Powers9(i: Byte)
    requires 144 <= i < 160
    ensures Next(i)
  {
  }

  lemma Logs9(x: Byte)
    requires 144 <= x < 160
    ensures Inverse(x)
  {
    hide Inverse;
    if x < 152 { LowLogs9(x); } else { HighLogs9(x); }
  }

  lemma LowLogs9(x: Byte)
    requires 144 <= x < 152
    ensures Inverse(x)
  {
  }

  lemma HighLogs9(x: Byte)
    requires 152 <= x < 160
    ensures Inverse(x)
  {
  }

  lemma Powers10(i: Byte)
    requires 160 <= i < 176
    ensures Next(i)
  {
  }

  lemma Logs10(x: Byte)
    requires 160 <= x < 176
    ensures Inverse(x)
  {
    hide Inverse;
    if x < 168 { LowLogs10(x); } else { HighLogs10(x); }
  }

  lemma LowLogs10(x: Byte)
    requires 160 <= x < 168
    ensures Inverse(x)
  {
  }

  lemma HighLogs10(x: Byte)
    requires 168 <= x < 176
    ensures Inverse(x)
  {
  }

  lemma Powers11(i: Byte)
    requires 176 <= i < 192
    ensures Next(i)
  {
  }

  lemma Logs11(x: Byte)
    requires 176 <= x < 192
    ensures Inverse(x)
  {
    hide Inverse;
    if x < 184 { LowLogs11(x); } else { HighLogs11(x); }
  }

  lemma LowLogs11(x: Byte)
    requires 176 <= x < 184
    ensures Inverse(x)
  {
  }

  lemma HighLogs11(x: Byte)
    requires 184 <= x < 192
    ensures Inverse(x)
  {
  }

  lemma Powers12(i: Byte)
    requires 192 <= i < 208
    ensures Next(i)
  {
  }

  lemma Logs12(x: Byte)
    requires 192 <= x < 208
    ensures Inverse(x)
  {
    hide Inverse;
    if x < 200 { LowLogs12(x); } else { HighLogs12(x); }
  }

  lemma LowLogs12(x: Byte)
    requires 192 <= x < 200
    ensures Inverse(x)
  {
  }

  lemma HighLogs12(x: Byte)
    requires 200 <= x < 208
    ensures Inverse(x)
  {
  }

  lemma Powers13(i: Byte)
    requires 208 <= i < 224
    ensures Next(i)
  {
  }

  lemma Logs13(x: Byte)
    requires 208 <= x < 224
    ensures Inverse(x)
  {
    hide Inverse;
    if x < 216 { LowLogs13(x); } else { HighLogs13(x); }
  }

  lemma LowLogs13(x: Byte)
    requires 208 <= x < 216
    ensures Inverse(x)
  {
  }

  lemma HighLogs13(x: Byte)
    requires 216 <= x < 224
    ensures Inverse(x)
  {
  }

  lemma Powers14(i: Byte)
    requires 224 <= i < 240
    ensures Next(i)
  {
  }

  lemma Logs14(x: Byte)
    requires 224 <= x < 240
    ensures Inverse(x)
  {
    hide Inverse;
    if x < 232 { LowLogs14(x); } else { HighLogs14(x); }
  }

  lemma LowLogs14(x: Byte)
    requires 224 <= x < 232
    ensures Inverse(x)
  {
  }

  lemma HighLogs14(x: Byte)
    requires 232 <= x < 240
    ensures Inverse(x)
  {
  }

  lemma Powers15(i: Byte)
    requires 240 <= i < 254
    ensures Next(i)
  {
  }

  lemma Logs15(x: Byte)
    requires 240 <= x < 256
    ensures Inverse(x)
  {
    hide Inverse;
    if x < 248 { LowLogs15(x); } else { HighLogs15(x); }
  }

  lemma LowLogs15(x: Byte)
    requires 240 <= x < 248
    ensures Inverse(x)
  {
  }

  lemma HighLogs15(x: Byte)
    requires 248 <= x < 256
    ensures Inverse(x)
  {
  }

  lemma PowersTable(i: Byte)
    requires i < 254
    ensures Next(i)
  {
    if i < 128 {
      if i < 64 {
        if i < 16 { Powers0(i); } else if i < 32 { Powers1(i); } else if i < 48 { Powers2(i); } else { Powers3(i); }
      } else {
        if i < 80 { Powers4(i); } else if i < 96 { Powers5(i); } else if i < 112 { Powers6(i); } else { Powers7(i); }
      }
    } else if i < 192 {
      if i < 144 { Powers8(i); } else if i < 160 { Powers9(i); } else if i < 176 { Powers10(i); } else { Powers11(i); }
    } else {
      if i < 208 { Powers12(i); } else if i < 224 { Powers13(i); }
      else if i < 240 { Powers14(i); } else { Powers15(i); }
    }
  }

  lemma LogsTable(x: Byte)
    requires x != 0
    ensures Inverse(x)
  {
    if x < 128 {
      if x < 64 {
        if x < 16 { Logs0(x); } else if x < 32 { Logs1(x); } else if x < 48 { Logs2(x); } else { Logs3(x); }
      } else {
        if x < 80 { Logs4(x); } else if x < 96 { Logs5(x); } else if x < 112 { Logs6(x); } else { Logs7(x); }
      }
    } else if x < 192 {
      if x < 144 { Logs8(x); } else if x < 160 { Logs9(x); } else if x < 176 { Logs10(x); } else { Logs11(x); }
    } else {
      if x < 208 { Logs12(x); } else if x < 224 { Logs13(x); } else if x < 240 { Logs14(x); } else { Logs15(x); }
    }
  }

  /** The table lists the powers of the primitive element in order. */
  lemma {:induction false} ExponentIsAlpha(i: Byte)
    requires i < 255
    ensures Exponent(i) == Alpha(i)
  {
    if i == 0 {
      assert Exponent(0) == 1;
    } else {
      ExponentIsAlpha(i - 1);
      PowersTable(i - 1);
      DoubleIsByBits(Exponent(i - 1));
    }
  }

  /** The primitive element has order 255. */
  lemma AlphaWraps(order: nat)
    requires order == 255
    ensures Alpha(order) == 1
  {
    ExponentIsAlpha(254);
    assert Exponent(254) == 0x8e;
    DoubleIsByBits(0x8e);
    assert Alpha(order) == Double(Alpha(order - 1));
  }

  /** Every non-zero element is the power its logarithm says. */
  lemma LogIsInverse(x: Byte)
    ensures x == 0 ==> Log(x) == 255
    ensures x != 0 ==> Log(x) < 255 && Alpha(Log(x)) == x
  {
    if x == 0 {
      assert Log(0) == 255;
    } else {
      LogsTable(x);
      ExponentIsAlpha(Log(x));
    }
  }

  /** Every non-zero element is a power of the primitive element. */
  lemma DiscreteLog(x: Byte) returns (l: nat)
    requires x != 0
    ensures l < 255 && Alpha(l) == x
  {
    LogIsInverse(x);
    l := Log(x);
  }

  /** One lookup in the exponent table. */
  method ExponentAt(i: Byte) returns (x: Byte)
    ensures x == if i < 255 then Alpha(i) else 0
  {
    if i < 255 {
      ExponentIsAlpha(i);
    } else {
      assert Exponent(255) == 0;
    }
    x := Exponent(i);
  }

  /** One lookup in the logarithm table; 255 stands for the missing logarithm of zero. */
  method LogAt(x: Byte) returns (l: Byte)
    ensures l == 255 <==> x == 0
    ensures x != 0 ==> Alpha(l) == x
  {
    LogIsInverse(x);
    l := Log(x);
  }
}
