/**
  The order in which data and check bytes of the blocks are placed in the symbol (section 7.6 of ISO/IEC
  18004:2015), as a map from places in the output to places in the string buffer, and its inverse.
*/
module QrInterleaving {
  import opened QrBlocks

  // ---------------------------------------------------------------------------------------------------------
  // Tables laid out row by row
  // ---------------------------------------------------------------------------------------------------------

  /** The row and the position in the row of a place in a table with n columns. */
  function Quot(p: nat, n: nat): nat
    requires n > 0
  {
    p / n
  }

  function Rem(p: nat, n: nat): (r: nat)
    requires n > 0
    ensures r < n
  {
    p % n
  }

  lemma MulMono(n: nat, a: nat, b: nat)
    requires a <= b
    ensures n * a <= n * b
  {
  }

  lemma MixDivMod(i: nat, n: nat, j: nat)
    requires j < n
    ensures Quot(Mix(i, n, j), n) == i && Rem(Mix(i, n, j), n) == j
  {
    var q, r := (i * n + j) / n, (i * n + j) % n;
    assert n * q + r == i * n + j;
    if q < i {
      MulMono(n, q + 1, i);
    } else if q > i {
      MulMono(n, i + 1, q);
    }
  }

  lemma MixOf(p: nat, n: nat)
    requires n > 0
    ensures p == Mix(Quot(p, n), n, Rem(p, n))
  {
  }

  lemma MixBelow(i: nat, d: nat, n: nat, j: nat)
    requires i < d && j < n
    ensures Mix(i, n, j) < Mix(d, n, 0)
  {
    MulMono(n, i + 1, d);
  }

  lemma MixSplit(i: nat, n: nat, j: nat)
    ensures Mix(i, n, j) == Mix(i, n, 0) + j
    ensures Mix(i, n, 0) == Mix(n, i, 0)
  {
  }

  lemma DivBelow(p: nat, n: nat, m: nat)
    requires n > 0 && p < Mix(m, n, 0)
    ensures Quot(p, n) < m
  {
    MixOf(p, n);
    if Quot(p, n) >= m {
      MulMono(n, m, Quot(p, n));
    }
  }

  // ---------------------------------------------------------------------------------------------------------
  // The bytes of the blocks
  // ---------------------------------------------------------------------------------------------------------

  /** The i-th byte of the data or of the check bytes of block b. */
  datatype Cell = Data(b: nat, i: nat) | Check(b: nat, i: nat)

  ghost predicate IsCell(s: Shape, c: Cell)
  {
    c.b < s.Blocks() && c.i < if c.Data? then s.DataLength(c.b) else s.eccBlock
  }

  /** Where a byte lies in the string buffer. */
  function InBuffer(s: Shape, c: Cell): nat
  {
    match c
    case Data(b, i) => s.DataStart(b) + i
    case Check(b, i) => s.EccStart(b) + i
  }

  /** Where a byte is placed in the output: column by column, the short blocks missing from the last column. */
  function InOutput(s: Shape, c: Cell): nat
    requires IsCell(s, c)
  {
    match c
    case Data(b, i) =>
      if i < s.dataBlock then Mix(i, s.Blocks(), b) else Mix(s.dataBlock, s.Blocks(), b - s.short)
    case Check(b, i) => s.MaxLength() + Mix(i, s.Blocks(), b)
  }

  /** The byte at a place of the string buffer. */
  function BufferCell(s: Shape, p: nat): Cell
    requires s.dataBlock > 0 && s.eccBlock > 0
  {
    var d, boundary := s.dataBlock, Mix(s.short, s.dataBlock, 0);
    if p < boundary then Data(Quot(p, d), Rem(p, d))
    else if p < s.MaxLength() then Data(s.short + Quot(p - boundary, d + 1), Rem(p - boundary, d + 1))
    else Check(Quot(p - s.MaxLength(), s.eccBlock), Rem(p - s.MaxLength(), s.eccBlock))
  }

  /** The byte at a place of the output. */
  function OutputCell(s: Shape, q: nat): Cell
    requires s.Blocks() > 0
  {
    var n, full := s.Blocks(), Mix(s.dataBlock, s.Blocks(), 0);
    if q < full then Data(Rem(q, n), Quot(q, n))
    else if q < s.MaxLength() then Data(s.short + (q - full), s.dataBlock)
    else Check(Rem(q - s.MaxLength(), n), Quot(q - s.MaxLength(), n))
  }

  /** The data bytes, counted block by block. */
  lemma MaxLengthByBlocks(s: Shape)
    ensures s.MaxLength() == Mix(s.long, s.dataBlock + 1, Mix(s.short, s.dataBlock, 0))
    ensures s.MaxLength() == Mix(s.dataBlock, s.Blocks(), 0) + s.long
  {
  }

  lemma CellInBuffer(s: Shape, c: Cell)
    requires s.dataBlock > 0 && s.eccBlock > 0 && IsCell(s, c)
    ensures InBuffer(s, c) < s.Total() && (InBuffer(s, c) < s.MaxLength() <==> c.Data?)
    ensures BufferCell(s, InBuffer(s, c)) == c
  {
    hide Mix, Quot, Rem;
    MaxLengthByBlocks(s);
    var d, e, b, i := s.dataBlock, s.eccBlock, c.b, c.i;
    if c.Check? {
      MixSplit(b, e, i);
      MixDivMod(b, e, i);
      MixBelow(b, s.Blocks(), e, i);
      MixSplit(e, s.Blocks(), 0);
    } else {
      MixSplit(s.long, d + 1, Mix(s.short, d, 0));
      if b < s.short {
        MixSplit(b, d, i);
        MixDivMod(b, d, i);
        MixBelow(b, s.short, d, i);
      } else {
        var m := b - s.short;
        MixSplit(m, d + 1, i);
        MixSplit(m, d + 1, Mix(s.short, d, 0));
        MixDivMod(m, d + 1, i);
        MixBelow(m, s.long, d + 1, i);
        MixZero(d + 1);
      }
    }
  }

  lemma MixZero(n: nat)
    ensures Mix(0, n, 0) == 0
  {
  }

  lemma CellInOutput(s: Shape, c: Cell)
    requires IsCell(s, c)
    ensures InOutput(s, c) < s.Total() && (InOutput(s, c) < s.MaxLength() <==> c.Data?)
    ensures OutputCell(s, InOutput(s, c)) == c
  {
    hide Mix, Quot, Rem;
    MaxLengthByBlocks(s);
    var n, d, b, i := s.Blocks(), s.dataBlock, c.b, c.i;
    if c.Check? {
      MixDivMod(i, n, b);
      MixBelow(i, s.eccBlock, n, b);
    } else if i < d {
      MixDivMod(i, n, b);
      MixBelow(i, d, n, b);
    } else {
      MixSplit(d, n, b - s.short);
    }
  }

  lemma BufferIsCells(s: Shape, p: nat)
    requires s.dataBlock > 0 && s.eccBlock > 0 && p < s.Total()
    ensures IsCell(s, BufferCell(s, p)) && InBuffer(s, BufferCell(s, p)) == p
  {
    hide Mix, Quot, Rem;
    MaxLengthByBlocks(s);
    var d, e := s.dataBlock, s.eccBlock;
    var boundary := Mix(s.short, d, 0);
    if p < boundary {
      MixOf(p, d);
      MixSplit(Quot(p, d), d, Rem(p, d));
      DivBelow(p, d, s.short);
    } else if p < s.MaxLength() {
      var r := p - boundary;
      MixOf(r, d + 1);
      MixSplit(Quot(r, d + 1), d + 1, Rem(r, d + 1));
      MixSplit(Quot(r, d + 1), d + 1, boundary);
      MixSplit(s.long, d + 1, boundary);
      DivBelow(r, d + 1, s.long);
      MixZero(d + 1);
    } else {
      var r := p - s.MaxLength();
      MixOf(r, e);
      MixSplit(Quot(r, e), e, Rem(r, e));
      MixSplit(e, s.Blocks(), 0);
      DivBelow(r, e, s.Blocks());
    }
  }

  lemma OutputIsCells(s: Shape, q: nat)
    requires s.Blocks() > 0 && q < s.Total()
    ensures IsCell(s, OutputCell(s, q)) && InOutput(s, OutputCell(s, q)) == q
  {
    hide Mix, Quot, Rem;
    MaxLengthByBlocks(s);
    var n, full := s.Blocks(), Mix(s.dataBlock, s.Blocks(), 0);
    if q < full {
      MixOf(q, n);
      DivBelow(q, n, s.dataBlock);
    } else if q < s.MaxLength() {
      MixSplit(s.dataBlock, n, q - full);
    } else {
      MixOf(q - s.MaxLength(), n);
      DivBelow(q - s.MaxLength(), n, s.eccBlock);
    }
  }

  /** The index expressions of the three loops over the blocks. */
  lemma ShortBlockByte(s: Shape, j: nat, i: nat)
    requires j < s.short && i < s.dataBlock
    ensures IsCell(s, Data(j, i)) && InBuffer(s, Data(j, i)) == Mix(j, s.dataBlock, i)
    ensures InOutput(s, Data(j, i)) == Mix(i, s.Blocks(), j)
  {
  }

  lemma LongBlockByte(s: Shape, j: nat, i: nat)
    requires j < s.long && i <= s.dataBlock
    ensures IsCell(s, Data(s.short + j, i))
    ensures InBuffer(s, Data(s.short + j, i)) == Mix(j, s.dataBlock + 1, Mix(s.short, s.dataBlock, i))
    ensures InOutput(s, Data(s.short + j, i))
            == if i < s.dataBlock then Mix(i, s.Blocks(), s.short + j) else Mix(s.dataBlock, s.Blocks(), j)
  {
  }

  lemma CheckBlockByte(s: Shape, j: nat, i: nat)
    requires j < s.Blocks() && i < s.eccBlock
    ensures IsCell(s, Check(j, i)) && InBuffer(s, Check(j, i)) == s.MaxLength() + Mix(j, s.eccBlock, i)
    ensures InOutput(s, Check(j, i)) == s.MaxLength() + Mix(i, s.Blocks(), j)
  {
  }

  // ---------------------------------------------------------------------------------------------------------
  // The permutation
  // ---------------------------------------------------------------------------------------------------------

  /** The place in the string buffer of the q-th interleaved byte. */
  function Source(s: Shape, q: nat): nat
    requires s.Blocks() > 0
  {
    InBuffer(s, OutputCell(s, q))
  }

  /** The place among the interleaved bytes of the p-th byte of the string buffer. */
  function Place(s: Shape, p: nat): nat
    requires s.dataBlock > 0 && s.eccBlock > 0 && p < s.Total()
  {
    BufferIsCells(s, p);
    InOutput(s, BufferCell(s, p))
  }

  /** Source and Place are inverse to each other, so the interleaving is a permutation. */
  lemma SourcePlaceInverse(s: Shape, p: nat)
    requires s.dataBlock > 0 && s.eccBlock > 0 && p < s.Total() && s.Blocks() > 0
    ensures Place(s, p) < s.Total() && Source(s, Place(s, p)) == p
    ensures Source(s, p) < s.Total() && Place(s, Source(s, p)) == p
  {
    hide InBuffer, InOutput, BufferCell, OutputCell;
    BufferIsCells(s, p);
    CellInOutput(s, BufferCell(s, p));
    OutputIsCells(s, p);
    CellInBuffer(s, OutputCell(s, p));
  }

  /** Data bytes come before check bytes, then earlier bytes of a block before later ones, then block by block. */
  predicate Before(c: Cell, d: Cell)
  {
    if c.Data? != d.Data? then c.Data? else c.i < d.i || (c.i == d.i && c.b < d.b)
  }

  lemma PlacedBefore(s: Shape, c: Cell, d: Cell)
    requires IsCell(s, c) && IsCell(s, d) && Before(c, d)
    ensures InOutput(s, c) < InOutput(s, d)
  {
    hide Mix;
    MaxLengthByBlocks(s);
    var n := s.Blocks();
    MixSplit(d.i, n, d.b);
    MixSplit(c.i, n, c.b);
    if c.Data? && d.Check? {
      if c.i < s.dataBlock {
        MixBelow(c.i, s.dataBlock, n, c.b);
      } else {
        MixSplit(s.dataBlock, n, c.b - s.short);
      }
    } else if c.i < d.i {
      MixBelow(c.i, d.i, n, c.b);
      if d.Data? && d.i == s.dataBlock {
        MixSplit(s.dataBlock, n, d.b - s.short);
      }
    } else if c.Data? && c.i == s.dataBlock {
      MixSplit(s.dataBlock, n, c.b - s.short);
      MixSplit(s.dataBlock, n, d.b - s.short);
    }
  }

  /** The order of the interleaved bytes: with the permutation, it says where each byte is. */
  lemma InterleavedInOrder(s: Shape, c: Cell, d: Cell)
    requires IsCell(s, c) && IsCell(s, d)
    ensures InOutput(s, c) < InOutput(s, d) <==> Before(c, d)
  {
    hide InOutput;
    if Before(c, d) {
      PlacedBefore(s, c, d);
    } else if c != d {
      PlacedBefore(s, d, c);
    }
  }

  /** An output buffer that holds the interleaved bytes of an input buffer. */
  ghost predicate Interleaved<T>(s: Shape, input: seq<T>, output: seq<T>)
    requires s.Blocks() > 0 && s.Total() <= |output|
  {
    forall q :: 0 <= q < s.Total() ==> Source(s, q) < |input| && output[q] == input[Source(s, q)]
  }

  /** Reading the output at the place of each byte recovers every data block and every block of check bytes. */
  lemma Deinterleave<T>(s: Shape, input: seq<T>, output: seq<T>, c: Cell)
    requires s.dataBlock > 0 && s.eccBlock > 0 && IsCell(s, c)
    requires s.Total() <= |output| && Interleaved(s, input, output)
    ensures InOutput(s, c) < |output| && InBuffer(s, c) < |input|
    ensures output[InOutput(s, c)] == input[InBuffer(s, c)]
  {
    hide InBuffer, InOutput, BufferCell, OutputCell;
    CellInOutput(s, c);
    assert Source(s, InOutput(s, c)) == InBuffer(s, c);
  }
}
