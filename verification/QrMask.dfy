/**
  Data masking (section 7.8 of ISO/IEC 18004:2015): which modules each of the eight masks inverts, the loops that
  find them by counting, the triangular table of modules that no mask may touch, and the choice of a mask.
*/
module QrMask {

  // ---------------------------------------------------------------------------------------------------------
  // The table of function modules
  // ---------------------------------------------------------------------------------------------------------

  /** The place of an unordered pair of coordinates in the table. */
  function MaskBit(x: nat, y: nat): nat
  {
    if x > y then (x + x * x) / 2 + y else (y + y * y) / 2 + x
  }

  function Triangle(n: nat): nat
  {
    if n == 0 then 0 else n + Triangle(n - 1)
  }

  lemma {:induction false} TriangleFormula(n: nat)
    ensures (n + n * n) / 2 == Triangle(n)
    ensures n + n * n == 2 * Triangle(n)
  {
    if n != 0 {
      TriangleFormula(n - 1);
      assert n * n == (n - 1) * (n - 1) + 2 * n - 1;
    }
  }

  lemma {:induction false} TriangleMono(m: nat, n: nat)
    requires m < n
    ensures Triangle(m) + m < Triangle(n)
    decreases n
  {
    if m < n - 1 {
      TriangleMono(m, n - 1);
    }
  }

  /** Two modules share a place exactly when they are the same pair in some order. */
  lemma MaskBitInjective(x: nat, y: nat, u: nat, v: nat)
    ensures MaskBit(x, y) == MaskBit(u, v) <==> (x == u && y == v) || (x == v && y == u)
  {
    var hi, lo := if x > y then x else y, if x > y then y else x;
    var hi', lo' := if u > v then u else v, if u > v then v else u;
    TriangleFormula(hi);
    TriangleFormula(hi');
    assert MaskBit(x, y) == Triangle(hi) + lo && MaskBit(u, v) == Triangle(hi') + lo';
    if hi < hi' {
      TriangleMono(hi, hi');
    } else if hi' < hi {
      TriangleMono(hi', hi);
    }
  }

  /** The table of the mask has room for every module of a frame of width w. */
  lemma MaskBitBound(x: nat, y: nat, w: nat)
    requires x < w && y < w
    ensures MaskBit(x, y) < (w + w * w) / 2
  {
    var hi := if x > y then x else y;
    TriangleFormula(hi);
    TriangleFormula(w);
    TriangleMono(hi, w);
  }

  // ---------------------------------------------------------------------------------------------------------
  // The masks
  // ---------------------------------------------------------------------------------------------------------

  /** Table 10: the modules that mask m inverts, x counting columns and y rows. */
  ghost predicate Condition(m: nat, x: nat, y: nat)
  {
    match m
    case 0 => (y + x) % 2 == 0
    case 1 => y % 2 == 0
    case 2 => x % 3 == 0
    case 3 => (y + x) % 3 == 0
    case 4 => (y / 2 + x / 3) % 2 == 0
    case 5 => Product(y, x) % 2 + Product(y, x) % 3 == 0
    case 6 => (Product(y, x) % 2 + Product(y, x) % 3) % 2 == 0
    case 7 => ((y + x) % 2 + Product(y, x) % 3) % 2 == 0
    case _ => false
  }

  /** The product of row and column in the conditions of some masks. */
  function Product(y: nat, x: nat): nat
  {
    y * x
  }

  lemma ProductParts(x: nat, y: nat, m: nat)
    requires m > 0
    ensures Product(y, x) % m == ((y % m) * (x % m)) % m
  {
    var a, b, r, t := y / m, x / m, y % m, x % m;
    assert y * x == (m * a + r) * (m * b + t) == m * (a * m * b + a * t + r * b) + r * t;
    ModShift(a * m * b + a * t + r * b, m, r * t);
  }

  lemma SmallMultiple(m: int, k: int)
    requires -m < m * k < m
    ensures k == 0
  {
  }

  lemma ModShift(q: int, m: nat, r: int)
    requires m > 0
    ensures (m * q + r) % m == r % m
  {
    var d := (m * q + r) / m - r / m;
    assert m * (q - d) == (m * q + r) % m - r % m;
    SmallMultiple(m, q - d);
  }

  /** Products modulo two and three, by cases on the factors. */
  lemma SmallProducts(x: nat, y: nat)
    ensures Product(y, x) % 2 == if x % 2 == 1 && y % 2 == 1 then 1 else 0
    ensures Product(y, x) % 3 == if x % 3 == 0 || y % 3 == 0 then 0 else if x % 3 == y % 3 then 1 else 2
  {
    hide Product;
    ProductParts(x, y, 2);
    ProductParts(x, y, 3);
    var a, b := y % 2, x % 2;
    assert a == 0 || a == 1;
    assert b == 0 || b == 1;
    var c, d := y % 3, x % 3;
    assert c == 0 || c == 1 || c == 2;
    assert d == 0 || d == 1 || d == 2;
  }

  // What the counters of the loops say about the conditions of the table.

  lemma ThirdOf(x: nat, turns: nat, r: nat)
    requires r < 3 && x == 3 * turns + r
    ensures x % 3 == r
  {
  }

  lemma Counting2(x: nat, y: nat, r3x: nat, turnsX: nat)
    requires r3x < 3 && x == 3 * turnsX + r3x
    ensures Condition(2, x, y) <==> r3x == 0
  {
  }

  lemma Counting3(x: nat, y: nat, r3x: nat, turnsX: nat)
    requires r3x < 3 && x + y == 3 * turnsX + r3x
    ensures Condition(3, x, y) <==> r3x == 0
  {
  }

  /** Whether the blocks of two rows and three columns before a module are odd in number. */
  ghost predicate OddTurns(y: nat, turns: nat)
  {
    (y / 2 + turns) % 2 == 1
  }

  lemma OddTurnsStep(y: nat, turns: nat)
    ensures OddTurns(y, 0) <==> y / 2 % 2 == 1
    ensures OddTurns(y, turns + 1) <==> !OddTurns(y, turns)
  {
  }

  lemma Counting4(x: nat, y: nat, r3x: nat, turns: nat, r3y: bool)
    requires r3x < 3 && x == 3 * turns + r3x && r3y == OddTurns(y, turns)
    ensures Condition(4, x, y) <==> !r3y
  {
    ThirdWhole(x, turns, r3x);
  }

  lemma ThirdWhole(x: nat, turns: nat, r: nat)
    requires r < 3 && x == 3 * turns + r
    ensures x / 3 == turns
  {
  }

  lemma Counting5(x: nat, y: nat, r3x: nat, turnsX: nat, r3y: nat, turnsY: nat)
    requires r3x < 3 && x == 3 * turnsX + r3x && r3y < 3 && y == 3 * turnsY + r3y
    ensures Condition(5, x, y) <==> !(x % 2 == 1 && y % 2 == 1) && (r3x == 0 || r3y == 0)
  {
    hide Product;
    ThirdOf(x, turnsX, r3x);
    ThirdOf(y, turnsY, r3y);
    SmallProducts(x, y);
  }

  lemma Counting6(x: nat, y: nat, r3x: nat, turnsX: nat, r3y: nat, turnsY: nat)
    requires r3x < 3 && x == 3 * turnsX + r3x && r3y < 3 && y == 3 * turnsY + r3y
    ensures Condition(6, x, y)
            <==> ((if x % 2 == 1 && y % 2 == 1 then 1 else 0) + (if r3x != 0 && r3x == r3y then 1 else 0)) % 2 == 0
  {
    hide Product;
    ThirdOf(x, turnsX, r3x);
    ThirdOf(y, turnsY, r3y);
    SmallProducts(x, y);
  }

  lemma Counting7(x: nat, y: nat, r3x: nat, turnsX: nat, r3y: nat, turnsY: nat)
    requires r3x < 3 && x == 3 * turnsX + r3x && r3y < 3 && y == 3 * turnsY + r3y
    ensures Condition(7, x, y) <==> ((if r3x != 0 && r3x == r3y then 1 else 0) + (x + y) % 2) % 2 == 0
  {
    hide Product;
    ThirdOf(x, turnsX, r3x);
    ThirdOf(y, turnsY, r3y);
    SmallProducts(x, y);
  }

  // ---------------------------------------------------------------------------------------------------------
  // The frame while it is masked
  // ---------------------------------------------------------------------------------------------------------

  /** The module at place c of a buffer with rows of length w, after the first n places have been masked. */
  ghost function Partly(modules: seq<bool>, mask: seq<bool>, w: nat, m: nat, n: nat, c: nat): bool
    requires c < |modules| && w > 0
  {
    modules[c] != (c < n && Selected(mask, w, m, c))
  }

  ghost predicate Selected(mask: seq<bool>, w: nat, m: nat, c: nat)
    requires w > 0
  {
    Condition(m, c % w, c / w) && !Reserved(mask, c % w, c / w)
  }

  ghost predicate Reserved(mask: seq<bool>, x: nat, y: nat)
  {
    MaskBit(x, y) < |mask| && mask[MaskBit(x, y)]
  }

  /** A frame with a mask applied. */
  ghost function Masked(modules: seq<bool>, mask: seq<bool>, w: nat, m: nat): (r: seq<bool>)
    requires w > 0
    ensures |r| == |modules|
  {
    seq(|modules|, c requires 0 <= c < |modules| => Partly(modules, mask, w, m, |modules|, c))
  }

  /** Masking twice restores the frame, and modules with a function are never touched. */
  lemma MaskTwice(modules: seq<bool>, mask: seq<bool>, w: nat, m: nat)
    requires w > 0
    ensures Masked(Masked(modules, mask, w, m), mask, w, m) == modules
    ensures forall c :: 0 <= c < |modules| && Reserved(mask, c % w, c / w)
              ==> Masked(modules, mask, w, m)[c] == modules[c]
  {
    hide Condition, Reserved;
  }

  /** The place of a module in a buffer with rows of length w. */
  function Place(x: nat, y: nat, w: nat): nat
  {
    x + y * w
  }

  lemma PlaceParts(x: nat, y: nat, w: nat)
    requires x < w && y < w
    ensures Place(x, y, w) % w == x && Place(x, y, w) / w == y && Place(x, y, w) < w * w
  {
    PlaceBound(y, w);
    var p := Place(x, y, w);
    Divided(p, w);
    SameRow(p / w, p % w, y, x, w);
  }

  lemma Divided(p: nat, w: nat)
    requires w > 0
    ensures p == Product(p / w, w) + p % w && p % w < w
  {
  }

  /** A place lies in one row only. */
  lemma SameRow(q: nat, r: nat, y: nat, x: nat, w: nat)
    requires Product(q, w) + r == Product(y, w) + x && r < w && x < w
    ensures q == y && r == x
  {
    hide Product;
    if q < y {
      RowsApart(q, y, w);
    } else if y < q {
      RowsApart(y, q, w);
    }
  }

  lemma RowsApart(y: nat, z: nat, w: nat)
    requires y < z
    ensures Product(y, w) + w <= Product(z, w)
  {
    assert (z - y - 1) * w >= 0;
  }

  lemma PlaceBound(y: nat, w: nat)
    requires y < w
    ensures y * w + w <= w * w
  {
    assert (w - y - 1) * w >= 0;
  }

  lemma PlaceSteps(x: nat, y: nat, w: nat)
    ensures Place(x + 1, y, w) == Place(x, y, w) + 1
    ensures Place(w, y, w) == Place(0, y + 1, w)
    ensures Place(0, 0, w) == 0 && Place(0, w, w) == w * w
  {
  }

  /** The lowest penalty under 30000 among the first n masks. */
  function Lowest(p: seq<int>, n: nat): int
    requires n <= |p|
  {
    if n == 0 then 30000 else if p[n - 1] < Lowest(p, n - 1) then p[n - 1] else Lowest(p, n - 1)
  }

  /** Mask m is the first one with the lowest penalty under 30000 among the first n, or 0 if there is none. */
  ghost predicate IsBest(p: seq<int>, m: nat, n: nat)
    requires n <= |p|
  {
    if forall k :: 0 <= k < n ==> p[k] >= 30000 then m == 0
    else
      m < n && p[m] < 30000 && (forall k :: 0 <= k < n ==> p[m] <= p[k]) && (forall k :: 0 <= k < m ==> p[m] < p[k])
  }

  /** The penalties of a frame under the eight masks. */
  ghost function Penalties(badness: seq<bool> -> int, modules: seq<bool>, mask: seq<bool>, w: nat): (p: seq<int>)
    requires w > 0
    ensures |p| == 8
  {
    seq(8, m requires 0 <= m < 8 => badness(Masked(modules, mask, w, m)))
  }

  lemma BestStart(p: seq<int>)
    ensures IsBest(p, 0, 0)
  {
  }

  lemma {:induction false} LowestIsBest(p: seq<int>, m: nat, n: nat)
    requires n <= |p| && IsBest(p, m, n)
    ensures Lowest(p, n) == if m < n && p[m] < 30000 then p[m] else 30000
  {
    if n > 0 {
      if m == n - 1 && p[m] < 30000 {
        LowestAbove(p, n - 1, p[m]);
      } else {
        LowestIsBest(p, m, n - 1);
      }
    }
  }

  lemma {:induction false} LowestAbove(p: seq<int>, n: nat, x: int)
    requires n <= |p| && x < 30000 && forall k :: 0 <= k < n ==> x < p[k]
    ensures x < Lowest(p, n)
  {
    if n > 0 {
      LowestAbove(p, n - 1, x);
    }
  }

  lemma BestStep(p: seq<int>, m: nat, n: nat)
    requires n < |p| && IsBest(p, m, n)
    ensures IsBest(p, if p[n] < Lowest(p, n) then n else m, n + 1)
  {
    hide Lowest;
    LowestIsBest(p, m, n);
    if m < n && p[m] < 30000 {
      BestAfterBest(p, m, n);
    } else {
      BestAfterNone(p, m, n);
    }
  }

  lemma BestAfterBest(p: seq<int>, m: nat, n: nat)
    requires n < |p| && IsBest(p, m, n) && m < n && p[m] < 30000
    ensures IsBest(p, if p[n] < p[m] then n else m, n + 1)
  {
    assert !(forall k :: 0 <= k < n + 1 ==> p[k] >= 30000);
  }

  lemma BestAfterNone(p: seq<int>, m: nat, n: nat)
    requires n < |p| && IsBest(p, m, n) && !(m < n && p[m] < 30000)
    ensures IsBest(p, if p[n] < 30000 then n else m, n + 1)
  {
  }

  class Drawing {
    const width: nat
    var buffer: array<bool>
    var mask: array<bool>

    ghost predicate Valid()
      reads this
    {
      width > 0 && buffer.Length == width * width && mask.Length == (width + width * width) / 2 + 1 && mask != buffer
    }

    /** A frame without any function modules. */
    constructor (version: nat)
      ensures Valid() && width == 17 + 4 * version && fresh(buffer) && fresh(mask)
      ensures forall x: nat, y: nat :: !Reserved(mask[..], x, y)
    {
      var w: nat := 17 + 4 * version;
      width := w;
      buffer := new bool[w * w](_ => false);
      mask := new bool[(w + w * w) / 2 + 1](_ => false);
    }

    /** Reserves a module, and the one mirrored at the diagonal with it. */
    method SetMask(x: nat, y: nat)
      requires Valid() && x < width && y < width
      modifies mask
      ensures forall u: nat, v: nat :: Reserved(mask[..], u, v)
                <==> old(Reserved(mask[..], u, v)) || (u == x && v == y) || (u == y && v == x)
    {
      MaskBitBound(x, y, width);
      mask[MaskBit(x, y)] := true;
      forall u: nat, v: nat
        ensures Reserved(mask[..], u, v)
                <==> old(Reserved(mask[..], u, v)) || (u == x && v == y) || (u == y && v == x)
      {
        MaskBitInjective(u, v, x, y);
      }
    }

    method IsMasked(x: nat, y: nat) returns (r: bool)
      ensures r == Reserved(mask[..], x, y)
    {
      var bit := MaskBit(x, y);
      r := bit < mask.Length && mask[bit];
    }

    /** The first n places are masked, the others are as they were. */
    ghost predicate MaskedUpTo(modules: seq<bool>, m: nat, n: nat)
      requires width > 0
      reads this, buffer, mask
    {
      && |modules| == buffer.Length
      && forall c: nat :: c < buffer.Length ==> buffer[c] == Partly(modules, mask[..], width, m, n, c)
    }

    /** Inverts a module if the mask selects it and it has no function. */
    method FlipIf(selected: bool, x: nat, y: nat, ghost modules: seq<bool>, ghost m: nat)
      requires Valid() && x < width && y < width
      requires selected == Condition(m, x, y) && MaskedUpTo(modules, m, Place(x, y, width))
      modifies buffer
      ensures MaskedUpTo(modules, m, Place(x + 1, y, width))
    {
      hide Condition, Reserved, Place;
      var c := Place(x, y, width);
      PlaceParts(x, y, width);
      PlaceSteps(x, y, width);
      var reserved := IsMasked(x, y);
      if selected && !reserved {
        buffer[c] := !buffer[c];
      }
    }

    lemma WholeFrame(modules: seq<bool>, m: nat)
      requires Valid() && MaskedUpTo(modules, m, width * width)
      ensures buffer[..] == Masked(modules, mask[..], width, m)
    {
      hide Condition, Reserved;
    }

    lemma Start(m: nat)
      requires Valid()
      ensures MaskedUpTo(buffer[..], m, Place(0, 0, width))
    {
      hide Condition, Reserved;
    }

    lemma Whole(modules: seq<bool>, m: nat)
      requires Valid() && MaskedUpTo(modules, m, Place(0, width, width))
      ensures buffer[..] == Masked(modules, mask[..], width, m)
    {
      PlaceSteps(0, 0, width);
      WholeFrame(modules, m);
    }

    // The eight masks, with counters instead of remainders.

    method ApplyMask0()
      requires Valid()
      modifies buffer
      ensures buffer[..] == Masked(old(buffer[..]), mask[..], width, 0)
    {
      hide Place, MaskedUpTo;
      Start(0);
      for y := 0 to width
        invariant MaskedUpTo(old(buffer[..]), 0, Place(0, y, width))
      {
        for x := 0 to width
          invariant MaskedUpTo(old(buffer[..]), 0, Place(x, y, width))
        {
          FlipIf((x + y) % 2 == 0, x, y, old(buffer[..]), 0);
        }
        PlaceSteps(0, y, width);
      }
      Whole(old(buffer[..]), 0);
    }

    method ApplyMask1()
      requires Valid()
      modifies buffer
      ensures buffer[..] == Masked(old(buffer[..]), mask[..], width, 1)
    {
      hide Place, MaskedUpTo;
      Start(1);
      for y := 0 to width
        invariant MaskedUpTo(old(buffer[..]), 1, Place(0, y, width))
      {
        for x := 0 to width
          invariant MaskedUpTo(old(buffer[..]), 1, Place(x, y, width))
        {
          FlipIf(y % 2 == 0, x, y, old(buffer[..]), 1);
        }
        PlaceSteps(0, y, width);
      }
      Whole(old(buffer[..]), 1);
    }

    method ApplyMask2()
      requires Valid()
      modifies buffer
      ensures buffer[..] == Masked(old(buffer[..]), mask[..], width, 2)
    {
      hide Place, MaskedUpTo, Condition;
      Start(2);
      for y := 0 to width
        invariant MaskedUpTo(old(buffer[..]), 2, Place(0, y, width))
      {
        var r3x := 0;
        ghost var turnsX := 0;
        for x := 0 to width
          invariant MaskedUpTo(old(buffer[..]), 2, Place(x, y, width))
          invariant r3x <= 3 && x == 3 * turnsX + r3x
        {
          if r3x == 3 {
            r3x := 0;
            turnsX := turnsX + 1;
          }
          Counting2(x, y, r3x, turnsX);
          FlipIf(r3x == 0, x, y, old(buffer[..]), 2);
          r3x := r3x + 1;
        }
        PlaceSteps(0, y, width);
      }
      Whole(old(buffer[..]), 2);
    }

    method ApplyMask3()
      requires Valid()
      modifies buffer
      ensures buffer[..] == Masked(old(buffer[..]), mask[..], width, 3)
    {
      hide Place, MaskedUpTo, Condition;
      Start(3);
      var r3y := 0;
      ghost var turnsY := 0;
      for y := 0 to width
        invariant MaskedUpTo(old(buffer[..]), 3, Place(0, y, width))
        invariant r3y <= 3 && y == 3 * turnsY + r3y
      {
        if r3y == 3 {
          r3y := 0;
          turnsY := turnsY + 1;
        }
        var r3x := r3y;
        ghost var turnsX := turnsY;
        for x := 0 to width
          invariant MaskedUpTo(old(buffer[..]), 3, Place(x, y, width))
          invariant r3x <= 3 && x + y == 3 * turnsX + r3x
        {
          if r3x == 3 {
            r3x := 0;
            turnsX := turnsX + 1;
          }
          Counting3(x, y, r3x, turnsX);
          FlipIf(r3x == 0, x, y, old(buffer[..]), 3);
          r3x := r3x + 1;
        }
        PlaceSteps(0, y, width);
        r3y := r3y + 1;
      }
      Whole(old(buffer[..]), 3);
    }

    method ApplyMask4()
      requires Valid()
      modifies buffer
      ensures buffer[..] == Masked(old(buffer[..]), mask[..], width, 4)
    {
      hide Place, MaskedUpTo, Condition, OddTurns;
      Start(4);
      for y := 0 to width
        invariant MaskedUpTo(old(buffer[..]), 4, Place(0, y, width))
      {
        var r3x, r3y := 0, y / 2 % 2 == 1;
        ghost var turns := 0;
        OddTurnsStep(y, turns);
        for x := 0 to width
          invariant MaskedUpTo(old(buffer[..]), 4, Place(x, y, width))
          invariant r3x <= 3 && x == 3 * turns + r3x && r3y == OddTurns(y, turns)
        {
          if r3x == 3 {
            OddTurnsStep(y, turns);
            r3x := 0;
            r3y := !r3y;
            turns := turns + 1;
          }
          Counting4(x, y, r3x, turns, r3y);
          FlipIf(!r3y, x, y, old(buffer[..]), 4);
          r3x := r3x + 1;
        }
        PlaceSteps(0, y, width);
      }
      Whole(old(buffer[..]), 4);
    }

    method ApplyMask5()
      requires Valid()
      modifies buffer
      ensures buffer[..] == Masked(old(buffer[..]), mask[..], width, 5)
    {
      hide Place, MaskedUpTo, Condition;
      Start(5);
      var r3y := 0;
      ghost var turnsY := 0;
      for y := 0 to width
        invariant MaskedUpTo(old(buffer[..]), 5, Place(0, y, width))
        invariant r3y <= 3 && y == 3 * turnsY + r3y
      {
        if r3y == 3 {
          r3y := 0;
          turnsY := turnsY + 1;
        }
        var r3x := 0;
        ghost var turnsX := 0;
        for x := 0 to width
          invariant MaskedUpTo(old(buffer[..]), 5, Place(x, y, width))
          invariant r3x <= 3 && x == 3 * turnsX + r3x
        {
          if r3x == 3 {
            r3x := 0;
            turnsX := turnsX + 1;
          }
          Counting5(x, y, r3x, turnsX, r3y, turnsY);
          FlipIf(!(x % 2 == 1 && y % 2 == 1) && (r3x == 0 || r3y == 0), x, y, old(buffer[..]), 5);
          r3x := r3x + 1;
        }
        PlaceSteps(0, y, width);
        r3y := r3y + 1;
      }
      Whole(old(buffer[..]), 5);
    }

    method ApplyMask6()
      requires Valid()
      modifies buffer
      ensures buffer[..] == Masked(old(buffer[..]), mask[..], width, 6)
    {
      hide Place, MaskedUpTo, Condition;
      Start(6);
      var r3y := 0;
      ghost var turnsY := 0;
      for y := 0 to width
        invariant MaskedUpTo(old(buffer[..]), 6, Place(0, y, width))
        invariant r3y <= 3 && y == 3 * turnsY + r3y
      {
        if r3y == 3 {
          r3y := 0;
          turnsY := turnsY + 1;
        }
        var r3x := 0;
        ghost var turnsX := 0;
        for x := 0 to width
          invariant MaskedUpTo(old(buffer[..]), 6, Place(x, y, width))
          invariant r3x <= 3 && x == 3 * turnsX + r3x
        {
          if r3x == 3 {
            r3x := 0;
            turnsX := turnsX + 1;
          }
          Counting6(x, y, r3x, turnsX, r3y, turnsY);
          FlipIf(((if x % 2 == 1 && y % 2 == 1 then 1 else 0) + (if r3x != 0 && r3x == r3y then 1 else 0)) % 2 == 0,
                 x, y, old(buffer[..]), 6);
          r3x := r3x + 1;
        }
        PlaceSteps(0, y, width);
        r3y := r3y + 1;
      }
      Whole(old(buffer[..]), 6);
    }

    method ApplyMask7()
      requires Valid()
      modifies buffer
      ensures buffer[..] == Masked(old(buffer[..]), mask[..], width, 7)
    {
      hide Place, MaskedUpTo, Condition;
      Start(7);
      var r3y := 0;
      ghost var turnsY := 0;
      for y := 0 to width
        invariant MaskedUpTo(old(buffer[..]), 7, Place(0, y, width))
        invariant r3y <= 3 && y == 3 * turnsY + r3y
      {
        if r3y == 3 {
          r3y := 0;
          turnsY := turnsY + 1;
        }
        var r3x := 0;
        ghost var turnsX := 0;
        for x := 0 to width
          invariant MaskedUpTo(old(buffer[..]), 7, Place(x, y, width))
          invariant r3x <= 3 && x == 3 * turnsX + r3x
        {
          if r3x == 3 {
            r3x := 0;
            turnsX := turnsX + 1;
          }
          Counting7(x, y, r3x, turnsX, r3y, turnsY);
          FlipIf(((if r3x != 0 && r3x == r3y then 1 else 0) + (x + y) % 2) % 2 == 0, x, y, old(buffer[..]), 7);
          r3x := r3x + 1;
        }
        PlaceSteps(0, y, width);
        r3y := r3y + 1;
      }
      Whole(old(buffer[..]), 7);
    }

    /** Applies the mask with the given number. */
    method ApplyMask(m: nat)
      requires Valid()
      modifies buffer
      ensures buffer[..] == Masked(old(buffer[..]), mask[..], width, m)
    {
      match m
      case 0 => ApplyMask0();
      case 1 => ApplyMask1();
      case 2 => ApplyMask2();
      case 3 => ApplyMask3();
      case 4 => ApplyMask4();
      case 5 => ApplyMask5();
      case 6 => ApplyMask6();
      case 7 => ApplyMask7();
      case _ =>
        assert buffer[..] == Masked(buffer[..], mask[..], width, m);
    }
  
    /** A copy of a list. */
    static method Slice(a: array<bool>) returns (copy: array<bool>)
      ensures fresh(copy) && copy[..] == a[..]
    {
      copy := new bool[a.Length];
      for i := 0 to a.Length
        invariant copy[..i] == a[..i]
      {
        copy[i] := a[i];
      }
    }

    /** Tries all masks and leaves the frame with the best of them applied. */
    method SelectMask(badness: seq<bool> -> int) returns (bit: nat)
      requires Valid()
      modifies this`buffer, buffer
      ensures Valid() && mask[..] == old(mask[..])
      ensures bit < 8 && IsBest(Penalties(badness, old(buffer[..]), mask[..], width), bit, 8)
      ensures buffer[..] == Masked(old(buffer[..]), mask[..], width, bit)
    {
      hide Masked, IsBest;
      var saved := Slice(buffer);
      ghost var modules := saved[..];
      ghost var p := Penalties(badness, modules, mask[..], width);
      bit := 0;
      var best := 30000;
      BestStart(p);
      var i := 0;
      while i < 8
        invariant 0 <= i <= 8 && bit < 8 && bit <= i
        invariant i == 8 ==> bit < 7
        invariant Valid() && (buffer == old(buffer) || fresh(buffer)) && fresh(saved) && saved != buffer
        invariant buffer[..] == modules && saved[..] == modules && mask[..] == old(mask[..])
        invariant IsBest(p, bit, i) && best == Lowest(p, i)
      {
        ApplyMask(i);
        var current := badness(buffer[..]);
        BestStep(p, bit, i);
        if current < best {
          best := current;
          bit := i;
        }
        if bit == 7 {
          break;
        }
        buffer := Slice(saved);
        i := i + 1;
      }
      if bit != i {
        ApplyMask(bit);
      }
    }
  }
}
