/**
  The block structure of QR code symbols: how many data and check bytes each block has, where a block lies in the
  string buffer, and which version is chosen for a message (section 7.5.1 and table 9 of ISO/IEC 18004:2015).
*/
module QrBlocks {

  /** Position j in row i of a table with n columns. */
  function Mix(i: nat, n: nat, j: nat): (r: nat)
    ensures r >= j
  {
    i * n + j
  }

  /** Blocks of dataBlock bytes, blocks of one byte more, and the check bytes that go with every block. */
  datatype Shape = Shape(short: nat, long: nat, dataBlock: nat, eccBlock: nat) {

    function Blocks(): nat
    {
      short + long
    }

    /** All data bytes together. */
    function MaxLength(): nat
    {
      Mix(dataBlock, short + long, long)
    }

    function DataLength(b: nat): nat
    {
      if b < short then dataBlock else dataBlock + 1
    }

    function DataStart(b: nat): nat
    {
      if b <= short then Mix(b, dataBlock, 0) else Mix(b - short, dataBlock + 1, Mix(short, dataBlock, 0))
    }

    function EccStart(b: nat): nat
    {
      MaxLength() + Mix(b, eccBlock, 0)
    }

    function Total(): nat
    {
      MaxLength() + Mix(eccBlock, short + long, 0)
    }

    /** The length of the buffers the encoder allocates. */
    function BufferLength(): nat
    {
      dataBlock + Mix(dataBlock + eccBlock, short + long, long)
    }
  }

  lemma MixRows(i: nat, n: nat, j: nat)
    ensures Mix(0, n, j) == j
    ensures Mix(i + 1, n, j) == Mix(i, n, j) + n
    ensures Mix(i, n, j) == Mix(i, n, 0) + j
    ensures Mix(i, n, 0) == Mix(n, i, 0)
  {
  }

  lemma MixMono(i: nat, k: nat, n: nat, j: nat)
    requires i <= k
    ensures Mix(i, n, j) <= Mix(k, n, j)
  {
    assert i * n <= k * n;
  }

  /** The blocks lie side by side, the data blocks first. */
  lemma BlocksAdjacent(s: Shape, b: nat)
    requires b < s.Blocks()
    ensures s.DataStart(b + 1) == s.DataStart(b) + s.DataLength(b)
    ensures s.EccStart(b + 1) == s.EccStart(b) + s.eccBlock
  {
    hide Mix;
    if b < s.short {
      MixRows(b, s.dataBlock, 0);
    } else {
      MixRows(b - s.short, s.dataBlock + 1, Mix(s.short, s.dataBlock, 0));
    }
    MixRows(b, s.eccBlock, 0);
  }

  /** The data bytes counted block by block, and the bytes that the buffers have room for. */
  lemma Lengths(s: Shape)
    ensures s.MaxLength() == Mix(s.long, s.dataBlock + 1, Mix(s.short, s.dataBlock, 0))
    ensures s.BufferLength() == s.dataBlock + s.Total()
  {
  }

  lemma BlockBounds(s: Shape, b: nat)
    requires b <= s.Blocks()
    ensures s.DataStart(b) <= s.MaxLength() <= s.EccStart(b) <= s.Total() < s.BufferLength() || s.dataBlock == 0
    ensures s.DataStart(s.Blocks()) == s.MaxLength() && s.EccStart(s.Blocks()) == s.Total()
    ensures s.DataStart(0) == 0 && s.EccStart(0) == s.MaxLength()
  {
    hide Mix;
    Lengths(s);
    var boundary := Mix(s.short, s.dataBlock, 0);
    MixRows(0, s.dataBlock, 0);
    MixRows(0, s.eccBlock, 0);
    MixRows(s.Blocks(), s.eccBlock, 0);
    MixMono(b, s.Blocks(), s.eccBlock, 0);
    MixRows(0, s.dataBlock + 1, boundary);
    if b <= s.short {
      MixMono(b, s.short, s.dataBlock, 0);
    } else {
      MixMono(b - s.short, s.long, s.dataBlock + 1, boundary);
    }
  }

  /** The row of a version in the table of blocks: four entries for each level. */
  function BlockRow(version: nat): seq<nat>
  {
    if version <= 5 then Rows1To5(version)
    else if version <= 10 then Rows6To10(version)
    else if version <= 15 then Rows11To15(version)
    else if version <= 20 then Rows16To20(version)
    else if version <= 25 then Rows21To25(version)
    else if version <= 30 then Rows26To30(version)
    else if version <= 35 then Rows31To35(version)
    else Rows36To40(version)
  }

  function Rows1To5(version: nat): (row: seq<nat>)
    ensures |row| == 16
  {
    match version
    case 1 => [1, 0, 19, 7, 1, 0, 16, 10, 1, 0, 13, 13, 1, 0, 9, 17]
    case 2 => [1, 0, 34, 10, 1, 0, 28, 16, 1, 0, 22, 22, 1, 0, 16, 28]
    case 3 => [1, 0, 55, 15, 1, 0, 44, 26, 2, 0, 17, 18, 2, 0, 13, 22]
    case 4 => [1, 0, 80, 20, 2, 0, 32, 18, 2, 0, 24, 26, 4, 0, 9, 16]
    case _ => [1, 0, 108, 26, 2, 0, 43, 24, 2, 2, 15, 18, 2, 2, 11, 22]
  }

  function Rows6To10(version: nat): (row: seq<nat>)
    ensures |row| == 16
  {
    match version
    case 6 => [2, 0, 68, 18, 4, 0, 27, 16, 4, 0, 19, 24, 4, 0, 15, 28]
    case 7 => [2, 0, 78, 20, 4, 0, 31, 18, 2, 4, 14, 18, 4, 1, 13, 26]
    case 8 => [2, 0, 97, 24, 2, 2, 38, 22, 4, 2, 18, 22, 4, 2, 14, 26]
    case 9 => [2, 0, 116, 30, 3, 2, 36, 22, 4, 4, 16, 20, 4, 4, 12, 24]
    case _ => [2, 2, 68, 18, 4, 1, 43, 26, 6, 2, 19, 24, 6, 2, 15, 28]
  }

  function Rows11To15(version: nat): (row: seq<nat>)
    ensures |row| == 16
  {
    match version
    case 11 => [4, 0, 81, 20, 1, 4, 50, 30, 4, 4, 22, 28, 3, 8, 12, 24]
    case 12 => [2, 2, 92, 24, 6, 2, 36, 22, 4, 6, 20, 26, 7, 4, 14, 28]
    case 13 => [4, 0, 107, 26, 8, 1, 37, 22, 8, 4, 20, 24, 12, 4, 11, 22]
    case 14 => [3, 1, 115, 30, 4, 5, 40, 24, 11, 5, 16, 20, 11, 5, 12, 24]
    case _ => [5, 1, 87, 22, 5, 5, 41, 24, 5, 7, 24, 30, 11, 7, 12, 24]
  }

  function Rows16To20(version: nat): (row: seq<nat>)
    ensures |row| == 16
  {
    match version
    case 16 => [5, 1, 98, 24, 7, 3, 45, 28, 15, 2, 19, 24, 3, 13, 15, 30]
    case 17 => [1, 5, 107, 28, 10, 1, 46, 28, 1, 15, 22, 28, 2, 17, 14, 28]
    case 18 => [5, 1, 120, 30, 9, 4, 43, 26, 17, 1, 22, 28, 2, 19, 14, 28]
    case 19 => [3, 4, 113, 28, 3, 11, 44, 26, 17, 4, 21, 26, 9, 16, 13, 26]
    case _ => [3, 5, 107, 28, 3, 13, 41, 26, 15, 5, 24, 30, 15, 10, 15, 28]
  }

  function Rows21To25(version: nat): (row: seq<nat>)
    ensures |row| == 16
  {
    match version
    case 21 => [4, 4, 116, 28, 17, 0, 42, 26, 17, 6, 22, 28, 19, 6, 16, 30]
    case 22 => [2, 7, 111, 28, 17, 0, 46, 28, 7, 16, 24, 30, 34, 0, 13, 24]
    case 23 => [4, 5, 121, 30, 4, 14, 47, 28, 11, 14, 24, 30, 16, 14, 15, 30]
    case 24 => [6, 4, 117, 30, 6, 14, 45, 28, 11, 16, 24, 30, 30, 2, 16, 30]
    case _ => [8, 4, 106, 26, 8, 13, 47, 28, 7, 22, 24, 30, 22, 13, 15, 30]
  }

  function Rows26To30(version: nat): (row: seq<nat>)
    ensures |row| == 16
  {
    match version
    case 26 => [10, 2, 114, 28, 19, 4, 46, 28, 28, 6, 22, 28, 33, 4, 16, 30]
    case 27 => [8, 4, 122, 30, 22, 3, 45, 28, 8, 26, 23, 30, 12, 28, 15, 30]
    case 28 => [3, 10, 117, 30, 3, 23, 45, 28, 4, 31, 24, 30, 11, 31, 15, 30]
    case 29 => [7, 7, 116, 30, 21, 7, 45, 28, 1, 37, 23, 30, 19, 26, 15, 30]
    case _ => [5, 10, 115, 30, 19, 10, 47, 28, 15, 25, 24, 30, 23, 25, 15, 30]
  }

  function Rows31To35(version: nat): (row: seq<nat>)
    ensures |row| == 16
  {
    match version
    case 31 => [13, 3, 115, 30, 2, 29, 46, 28, 42, 1, 24, 30, 23, 28, 15, 30]
    case 32 => [17, 0, 115, 30, 10, 23, 46, 28, 10, 35, 24, 30, 19, 35, 15, 30]
    case 33 => [17, 1, 115, 30, 14, 21, 46, 28, 29, 19, 24, 30, 11, 46, 15, 30]
    case 34 => [13, 6, 115, 30, 14, 23, 46, 28, 44, 7, 24, 30, 59, 1, 16, 30]
    case _ => [12, 7, 121, 30, 12, 26, 47, 28, 39, 14, 24, 30, 22, 41, 15, 30]
  }

  function Rows36To40(version: nat): (row: seq<nat>)
    ensures |row| == 16
  {
    match version
    case 36 => [6, 14, 121, 30, 6, 34, 47, 28, 46, 10, 24, 30, 2, 64, 15, 30]
    case 37 => [17, 4, 122, 30, 29, 14, 46, 28, 49, 10, 24, 30, 24, 46, 15, 30]
    case 38 => [4, 18, 122, 30, 13, 32, 46, 28, 48, 14, 24, 30, 42, 32, 15, 30]
    case 39 => [20, 4, 117, 30, 40, 7, 47, 28, 43, 22, 24, 30, 10, 67, 15, 30]
    case _ => [19, 6, 118, 30, 18, 31, 47, 28, 34, 34, 24, 30, 20, 61, 15, 30]
  }

  function ShapeOf(version: nat, level: nat): Shape
    requires 1 <= version <= 40 && 1 <= level <= 4
  {
    Entry(BlockRow(version), level)
  }

  function Entry(row: seq<nat>, level: nat): Shape
    requires 1 <= level <= 4
  {
    var index := (level - 1) * 4;
    if index + 3 < |row| then Shape(row[index], row[index + 1], row[index + 2], row[index + 3]) else Shape(0, 0, 0, 0)
  }

  /** What the encoder relies on in every entry of the table. */
  ghost predicate Sane(s: Shape, version: nat)
  {
    0 < s.short && 9 <= s.dataBlock && 7 <= s.eccBlock <= 30
    && 9 <= s.MaxLength() <= (if version <= 9 then 257 else 4098)
  }

  ghost predicate RowSane(row: seq<nat>, version: nat)
  {
    |row| == 16
    && Sane(Shape(row[0], row[1], row[2], row[3]), version)
    && Sane(Shape(row[4], row[5], row[6], row[7]), version)
    && Sane(Shape(row[8], row[9], row[10], row[11]), version)
    && Sane(Shape(row[12], row[13], row[14], row[15]), version)
  }

  lemma EntrySane(row: seq<nat>, version: nat, level: nat)
    requires RowSane(row, version) && 1 <= level <= 4
    ensures Sane(Entry(row, level), version)
  {
    assert level == 1 || level == 2 || level == 3 || level == 4;
  }

  // The table is checked in groups of rows.

  lemma Sane1To5(version: nat)
    requires 1 <= version <= 5
    ensures RowSane(Rows1To5(version), version)
  {
  }

  lemma Sane6To10(version: nat)
    requires 6 <= version <= 10
    ensures RowSane(Rows6To10(version), version)
  {
  }

  lemma Sane11To15(version: nat)
    requires 11 <= version <= 15
    ensures RowSane(Rows11To15(version), version)
  {
  }

  lemma Sane16To20(version: nat)
    requires 16 <= version <= 20
    ensures RowSane(Rows16To20(version), version)
  {
  }

  lemma Sane21To25(version: nat)
    requires 21 <= version <= 25
    ensures RowSane(Rows21To25(version), version)
  {
  }

  lemma Sane26To30(version: nat)
    requires 26 <= version <= 30
    ensures RowSane(Rows26To30(version), version)
  {
  }

  lemma Sane31To35(version: nat)
    requires 31 <= version <= 35
    ensures RowSane(Rows31To35(version), version)
  {
  }

  lemma Sane36To40(version: nat)
    requires 36 <= version <= 40
    ensures RowSane(Rows36To40(version), version)
  {
  }

  lemma RowsSane(version: nat)
    requires 1 <= version <= 40
    ensures RowSane(BlockRow(version), version)
  {
    hide RowSane, Rows1To5, Rows6To10, Rows11To15, Rows16To20, Rows21To25, Rows26To30, Rows31To35, Rows36To40;
    if version <= 5 { Sane1To5(version); }
    else if version <= 10 { Sane6To10(version); }
    else if version <= 15 { Sane11To15(version); }
    else if version <= 20 { Sane16To20(version); }
    else if version <= 25 { Sane21To25(version); }
    else if version <= 30 { Sane26To30(version); }
    else if version <= 35 { Sane31To35(version); }
    else { Sane36To40(version); }
  }

  lemma TableSane(version: nat, level: nat)
    requires 1 <= version <= 40 && 1 <= level <= 4
    ensures Sane(ShapeOf(version, level), version)
  {
    hide BlockRow, RowSane, Sane, Entry;
    RowsSane(version);
    EntrySane(BlockRow(version), version, level);
  }

  // ---------------------------------------------------------------------------------------------------------
  // The table and the symbol
  // ---------------------------------------------------------------------------------------------------------

  /** How many modules are on each side of a symbol. */
  function Width(version: nat): nat
  {
    17 + 4 * version
  }

  /** How many alignment patterns are on each side, the corners of the finders included. */
  function Alignments(version: nat): nat
  {
    if version <= 1 then 0 else version / 7 + 2
  }

  /**
    The modules that hold no data: three finders with their separators, the two timing lines between them, the format
    information twice with the dark module, from version 7 on the version information twice, and the alignment
    patterns, of which none is on a finder, and those on a timing line share five modules with it.
  */
  function FunctionModules(version: nat): nat
  {
    var n := Alignments(version);
    3 * 64 + 2 * (Width(version) - 16) + (2 * 15 + 1) + (if version >= 7 then 2 * 18 else 0)
    + if n == 0 then 0 else 25 * (n * n - 3) - 10 * (n - 2)
  }

  /** How many bytes a symbol has room for. */
  function Room(version: nat): int
  {
    (Width(version) * Width(version) - FunctionModules(version)) / 8
  }

  /**
    Two check bytes correct one byte, and a block is not longer than the field has non-zero elements.  A level corrects
    9, 17, 23 or 30 percent of the bytes of a block at least, and 12, 20, 29 or 34 at most.
  */
  ghost predicate Corrects(s: Shape, level: nat)
  {
    var corrected, shortest := 100 * (s.eccBlock / 2), s.dataBlock + s.eccBlock;
    var longest := shortest + if s.long > 0 then 1 else 0;
    && longest <= 255
    && match level
       case 1 => 9 * longest <= corrected <= 12 * shortest
       case 2 => 17 * longest <= corrected <= 20 * shortest
       case 3 => 23 * longest <= corrected <= 29 * shortest
       case _ => 30 * longest <= corrected <= 34 * shortest
  }

  /** An entry fills its symbol exactly, with blocks that correct what the level promises. */
  ghost predicate Fits(s: Shape, version: nat, level: nat)
  {
    && s.Total() == Room(version) && Corrects(s, level)
    && (version >= 4 ==> s.eccBlock % 2 == 0)
  }

  /** More check bytes than in the level below. */
  ghost predicate Stronger(low: Shape, high: Shape)
  {
    Mix(low.eccBlock, low.short + low.long, 0) < Mix(high.eccBlock, high.short + high.long, 0)
  }

  ghost predicate RowFits(row: seq<nat>, version: nat)
    requires |row| == 16
  {
    var l, m := Shape(row[0], row[1], row[2], row[3]), Shape(row[4], row[5], row[6], row[7]);
    var q, h := Shape(row[8], row[9], row[10], row[11]), Shape(row[12], row[13], row[14], row[15]);
    && Fits(l, version, 1) && Fits(m, version, 2) && Fits(q, version, 3) && Fits(h, version, 4)
    && Stronger(l, m) && Stronger(m, q) && Stronger(q, h)
  }

  // Row by row, beside the number of bytes that the symbol has room for.

  lemma Fits1()
    ensures RowFits(Rows1To5(1), 1)
  {
    assert Room(1) == 26;
  }

  lemma Fits2()
    ensures RowFits(Rows1To5(2), 2)
  {
    assert Room(2) == 44;
  }

  lemma Fits3()
    ensures RowFits(Rows1To5(3), 3)
  {
    assert Room(3) == 70;
  }

  lemma Fits4()
    ensures RowFits(Rows1To5(4), 4)
  {
    assert Room(4) == 100;
  }

  lemma Fits5()
    ensures RowFits(Rows1To5(5), 5)
  {
    assert Room(5) == 134;
  }

  lemma Fits6()
    ensures RowFits(Rows6To10(6), 6)
  {
    assert Room(6) == 172;
  }

  lemma Fits7()
    ensures RowFits(Rows6To10(7), 7)
  {
    assert Room(7) == 196;
  }

  lemma Fits8()
    ensures RowFits(Rows6To10(8), 8)
  {
    assert Room(8) == 242;
  }

  lemma Fits9()
    ensures RowFits(Rows6To10(9), 9)
  {
    assert Room(9) == 292;
  }

  lemma Fits10()
    ensures RowFits(Rows6To10(10), 10)
  {
    assert Room(10) == 346;
  }

  lemma Fits11()
    ensures RowFits(Rows11To15(11), 11)
  {
    assert Room(11) == 404;
  }

  lemma Fits12()
    ensures RowFits(Rows11To15(12), 12)
  {
    assert Room(12) == 466;
  }

  lemma Fits13()
    ensures RowFits(Rows11To15(13), 13)
  {
    assert Room(13) == 532;
  }

  lemma Fits14()
    ensures RowFits(Rows11To15(14), 14)
  {
    assert Room(14) == 581;
  }

  lemma Fits15()
    ensures RowFits(Rows11To15(15), 15)
  {
    assert Room(15) == 655;
  }

  lemma Fits16()
    ensures RowFits(Rows16To20(16), 16)
  {
    assert Room(16) == 733;
  }

  lemma Fits17()
    ensures RowFits(Rows16To20(17), 17)
  {
    assert Room(17) == 815;
  }

  lemma Fits18()
    ensures RowFits(Rows16To20(18), 18)
  {
    assert Room(18) == 901;
  }

  lemma Fits19()
    ensures RowFits(Rows16To20(19), 19)
  {
    assert Room(19) == 991;
  }

  lemma Fits20()
    ensures RowFits(Rows16To20(20), 20)
  {
    assert Room(20) == 1085;
  }

  lemma Fits21()
    ensures RowFits(Rows21To25(21), 21)
  {
    assert Room(21) == 1156;
  }

  lemma Fits22()
    ensures RowFits(Rows21To25(22), 22)
  {
    assert Room(22) == 1258;
  }

  lemma Fits23()
    ensures RowFits(Rows21To25(23), 23)
  {
    assert Room(23) == 1364;
  }

  lemma Fits24()
    ensures RowFits(Rows21To25(24), 24)
  {
    assert Room(24) == 1474;
  }

  lemma Fits25()
    ensures RowFits(Rows21To25(25), 25)
  {
    assert Room(25) == 1588;
  }

  lemma Fits26()
    ensures RowFits(Rows26To30(26), 26)
  {
    assert Room(26) == 1706;
  }

  lemma Fits27()
    ensures RowFits(Rows26To30(27), 27)
  {
    assert Room(27) == 1828;
  }

  lemma Fits28()
    ensures RowFits(Rows26To30(28), 28)
  {
    assert Room(28) == 1921;
  }

  lemma Fits29()
    ensures RowFits(Rows26To30(29), 29)
  {
    assert Room(29) == 2051;
  }

  lemma Fits30()
    ensures RowFits(Rows26To30(30), 30)
  {
    assert Room(30) == 2185;
  }

  lemma Fits31()
    ensures RowFits(Rows31To35(31), 31)
  {
    assert Room(31) == 2323;
  }

  lemma Fits32()
    ensures RowFits(Rows31To35(32), 32)
  {
    assert Room(32) == 2465;
  }

  lemma Fits33()
    ensures RowFits(Rows31To35(33), 33)
  {
    assert Room(33) == 2611;
  }

  lemma Fits34()
    ensures RowFits(Rows31To35(34), 34)
  {
    assert Room(34) == 2761;
  }

  lemma Fits35()
    ensures RowFits(Rows31To35(35), 35)
  {
    assert Room(35) == 2876;
  }

  lemma Fits36()
    ensures RowFits(Rows36To40(36), 36)
  {
    assert Room(36) == 3034;
  }

  lemma Fits37()
    ensures RowFits(Rows36To40(37), 37)
  {
    assert Room(37) == 3196;
  }

  lemma Fits38()
    ensures RowFits(Rows36To40(38), 38)
  {
    assert Room(38) == 3362;
  }

  lemma Fits39()
    ensures RowFits(Rows36To40(39), 39)
  {
    assert Room(39) == 3532;
  }

  lemma Fits40()
    ensures RowFits(Rows36To40(40), 40)
  {
    assert Room(40) == 3706;
  }

  lemma Fits1To5(version: nat)
    requires 1 <= version <= 5
    ensures RowFits(Rows1To5(version), version)
  {
    hide RowFits, Rows1To5;
    Fits1();
    Fits2();
    Fits3();
    Fits4();
    Fits5();
  }

  lemma Fits6To10(version: nat)
    requires 6 <= version <= 10
    ensures RowFits(Rows6To10(version), version)
  {
    hide RowFits, Rows6To10;
    Fits6();
    Fits7();
    Fits8();
    Fits9();
    Fits10();
  }

  lemma Fits11To15(version: nat)
    requires 11 <= version <= 15
    ensures RowFits(Rows11To15(version), version)
  {
    hide RowFits, Rows11To15;
    Fits11();
    Fits12();
    Fits13();
    Fits14();
    Fits15();
  }

  lemma Fits16To20(version: nat)
    requires 16 <= version <= 20
    ensures RowFits(Rows16To20(version), version)
  {
    hide RowFits, Rows16To20;
    Fits16();
    Fits17();
    Fits18();
    Fits19();
    Fits20();
  }

  lemma Fits21To25(version: nat)
    requires 21 <= version <= 25
    ensures RowFits(Rows21To25(version), version)
  {
    hide RowFits, Rows21To25;
    Fits21();
    Fits22();
    Fits23();
    Fits24();
    Fits25();
  }

  lemma Fits26To30(version: nat)
    requires 26 <= version <= 30
    ensures RowFits(Rows26To30(version), version)
  {
    hide RowFits, Rows26To30;
    Fits26();
    Fits27();
    Fits28();
    Fits29();
    Fits30();
  }

  lemma Fits31To35(version: nat)
    requires 31 <= version <= 35
    ensures RowFits(Rows31To35(version), version)
  {
    hide RowFits, Rows31To35;
    Fits31();
    Fits32();
    Fits33();
    Fits34();
    Fits35();
  }

  lemma Fits36To40(version: nat)
    requires 36 <= version <= 40
    ensures RowFits(Rows36To40(version), version)
  {
    hide RowFits, Rows36To40;
    Fits36();
    Fits37();
    Fits38();
    Fits39();
    Fits40();
  }

  lemma RowsFit(version: nat)
    requires 1 <= version <= 40
    ensures |BlockRow(version)| == 16 && RowFits(BlockRow(version), version)
  {
    hide RowFits, Rows1To5, Rows6To10, Rows11To15, Rows16To20, Rows21To25, Rows26To30, Rows31To35, Rows36To40;
    if version <= 5 { Fits1To5(version); }
    else if version <= 10 { Fits6To10(version); }
    else if version <= 15 { Fits11To15(version); }
    else if version <= 20 { Fits16To20(version); }
    else if version <= 25 { Fits21To25(version); }
    else if version <= 30 { Fits26To30(version); }
    else if version <= 35 { Fits31To35(version); }
    else { Fits36To40(version); }
  }

  /** Every entry fills its symbol exactly, and has more check bytes than those of the levels below. */
  lemma TableFits(version: nat, level: nat)
    requires 1 <= version <= 40 && 1 <= level <= 4
    ensures Fits(ShapeOf(version, level), version, level)
    ensures level > 1 ==> Stronger(ShapeOf(version, level - 1), ShapeOf(version, level))
  {
    hide BlockRow, Fits, Stronger;
    RowsFit(version);
    assert level == 1 || level == 2 || level == 3 || level == 4;
  }

  /** The longest message that the constructor places in a version. */
  function Capacity(version: nat, level: nat): int
    requires 1 <= version <= 40 && 1 <= level <= 4
  {
    ShapeOf(version, level).MaxLength() - (if version <= 9 then 2 else 3)
  }

  /** Chooses the first version with room for the message, and the largest one when there is none. */
  method SelectVersion(valueLength: nat, level: nat) returns (version: nat, shape: Shape)
    requires 1 <= level <= 4
    ensures 1 <= version <= 40 && shape == ShapeOf(version, level) && Sane(shape, version)
    ensures forall v :: 1 <= v < version ==> valueLength > Capacity(v, level)
    ensures valueLength <= Capacity(version, level) || version == 40
    ensures Fits(shape, version, level)
  {
    hide ShapeOf, Sane, Fits;
    version := 0;
    shape := Shape(0, 0, 0, 0);
    while version < 40
      invariant 0 <= version <= 40
      invariant version != 0 ==> shape == ShapeOf(version, level)
      invariant forall v :: 1 <= v <= version ==> valueLength > Capacity(v, level)
    {
      version := version + 1;
      shape := ShapeOf(version, level);
      var index := shape.dataBlock * (shape.short + shape.long) + shape.long - 3 + (if version <= 9 then 1 else 0);
      if valueLength <= index {
        break;
      }
    }
    TableSane(version, level);
    TableFits(version, level);
  }
}
