/**
  The error-correction code of section 7.5 of ISO/IEC 18004:2015: multiplication in the field, generator
  polynomials, check bytes by polynomial long division, and what makes them the only right ones.
  Polynomials are sequences of coefficients, the highest power first.
*/
module ReedSolomon {
  import opened Bytes
  import opened GaloisField
  import opened GaloisTables

  type Poly = seq<Byte>

  // ---------------------------------------------------------------------------------------------------------
  // The multiplicative structure
  // ---------------------------------------------------------------------------------------------------------

  lemma ScaleWraps(x: Byte, order: nat)
    requires order == 255
    ensures Scale(x, order) == x
  {
    hide Add, Double, Scale;
    if x == 0 {
      ScaleZero(order);
    } else {
      var l := DiscreteLog(x);
      AlphaWraps(order);
      ScaleScale(1, l, order);
      ScaleScale(1, order, l);
    }
  }

  lemma {:induction false} ScaleMod(x: Byte, k: nat)
    ensures Scale(x, k) == Scale(x, k % 255)
  {
    hide Add, Double, Scale;
    if k >= 255 {
      var order := 255;
      ScaleWraps(x, order);
      ScaleScale(x, order, k - order);
      ScaleMod(x, k - order);
      ModLess(k);
    }
  }

  lemma ModLess(k: nat)
    requires k >= 255
    ensures (k - 255) % 255 == k % 255
  {
  }

  function Elements(s: seq<Byte>): set<Byte>
  {
    set x | x in s
  }

  lemma {:induction false} ElementsCount(s: seq<Byte>)
    ensures |Elements(s)| <= |s|
  {
    if s != [] {
      ElementsCount(s[1..]);
      assert Elements(s) == {s[0]} + Elements(s[1..]);
    }
  }

  /** The numbers from 1 to n. */
  function UpTo(n: nat): set<int>
  {
    if n == 0 then {} else UpTo(n - 1) + {n}
  }

  lemma {:induction false} UpToCount(n: nat)
    ensures |UpTo(n)| == n
    ensures forall x :: x in UpTo(n) <==> 0 < x <= n
  {
    if n != 0 {
      UpToCount(n - 1);
    }
  }

  /** If the power j repeats the power i, the others still reach every element. */
  lemma StillReached(all: seq<Byte>, i: nat, j: nat, x: Byte)
    requires |all| == 255 && forall k :: 0 <= k < 255 ==> all[k] == Alpha(k)
    requires i < 255 && j < 255 && i != j && all[i] == all[j] && x != 0
    ensures x in all[..j] + all[j + 1..]
  {
    hide Scale;
    var l := DiscreteLog(x);
    var k := if l == j then i else l;
    var s := all[..j] + all[j + 1..];
    assert s[if k < j then k else k - 1] == all[k] == x;
  }

  /** The first 255 powers of the primitive element are different, because there are 255 elements to reach. */
  lemma AlphaInjective(i: nat, j: nat)
    requires i < 255 && j < 255 && Alpha(i) == Alpha(j)
    ensures i == j
  {
    hide Scale, Alpha, UpTo;
    if i != j {
      var n := 255;
      var all: seq<Byte> := seq(n, k requires 0 <= k => Alpha(k));
      var s: seq<Byte> := all[..j] + all[j + 1..];
      UpToCount(n);
      forall x: Byte | x in UpTo(n)
        ensures x in Elements(s)
      {
        StillReached(all, i, j, x);
      }
      ElementsCount(s);
      SubsetCount(UpTo(n), Elements(s));
    }
  }

  lemma SubsetCount(a: set<int>, b: set<Byte>)
    requires a <= b
    ensures |a| <= |b|
  {
    assert b == a + (b - a);
  }

  lemma ModCancel(l: nat, i: nat, j: nat)
    requires (l + i) % 255 == (l + j) % 255
    ensures i % 255 == j % 255
  {
    var d := (l + i) / 255 - (l + j) / 255;
    assert i - j == 255 * d;
    assert i == j + 255 * d;
  }

  lemma ScaleInjective(x: Byte, i: nat, j: nat)
    requires x != 0 && Scale(x, i) == Scale(x, j)
    ensures i % 255 == j % 255
  {
    var l := DiscreteLog(x);
    ScaleScale(1, l, i);
    ScaleScale(1, l, j);
    ScaleMod(1, l + i);
    ScaleMod(1, l + j);
    AlphaInjective((l + i) % 255, (l + j) % 255);
    ModCancel(l, i, j);
  }

  lemma ScaleDiffers(x: Byte, i: nat, j: nat)
    requires x != 0 && i < 255 && j < 255 && i != j
    ensures Scale(x, i) != Scale(x, j)
  {
    hide Scale;
    if Scale(x, i) == Scale(x, j) {
      ScaleInjective(x, i, j);
    }
  }

  /** The product of two field elements: the multiples of x that the bits of f select. */
  function Times(f: Byte, x: Byte): Byte
  {
    Pow2Eight();
    TimesBits(f, x, 8)
  }

  function TimesBits(f: nat, x: Byte, k: nat): Byte
    requires f < Pow2(k)
  {
    if k == 0 then 0
    else Add(if f >= Pow2(k - 1) then Scale(x, k - 1) else 0, TimesBits(Low(f, Pow2(k - 1)), x, k - 1))
  }

  lemma {:induction false} TimesBitsAdd(f: nat, g: nat, x: Byte, k: nat)
    requires f < Pow2(k) && g < Pow2(k)
    ensures TimesBits(Xor(f, g, k), x, k) == Add(TimesBits(f, x, k), TimesBits(g, x, k))
  {
    hide Add;
    AddLaws(0, 0, 0);
    if k != 0 {
      var p, s := Pow2(k - 1), Scale(x, k - 1);
      var u, v := TimesBits(Low(f, p), x, k - 1), TimesBits(Low(g, p), x, k - 1);
      XorTop(f, g, k);
      TimesBitsAdd(Low(f, p), Low(g, p), x, k - 1);
      AddSwap(if f >= p then s else 0, u, if g >= p then s else 0, v);
      AddLaws(s, s, 0);
      AddLaws(s, 0, 0);
    }
  }

  lemma {:induction false} TimesBitsTwice(f: nat, x: Byte, k: nat)
    requires f < Pow2(k)
    ensures TimesBits(2 * f, x, k + 1) == Double(TimesBits(f, x, k))
  {
    hide Add;
    AddLaws(0, 0, 0);
    if k != 0 {
      var p, s := Pow2(k - 1), Scale(x, k - 1);
      var u := TimesBits(Low(f, p), x, k - 1);
      TimesBitsTwice(Low(f, p), x, k - 1);
      DoubleAdd(if f >= p then s else 0, u);
      assert Low(2 * f, 2 * p) == 2 * Low(f, p);
    }
  }

  /** x^8 is x^4 + x^3 + x^2 + 1. */
  lemma TimesReduction(x: Byte)
    ensures Times(29, x) == Scale(x, 8)
  {
    hide Add;
    Pow2Eight();
    assert Pow2(4) == 16 && Pow2(6) == 64;
    var s2, s3, s4 := Scale(x, 2), Scale(x, 3), Scale(x, 4);
    AddLaws(0, 0, 0);
    AddLaws(x, 0, 0);
    var low := Add(s2, x);
    assert TimesBits(1, x, 2) == x by { assert TimesBits(1, x, 1) == Add(x, 0); AddLaws(x, 0, 0); }
    assert TimesBits(5, x, 3) == low;
    assert TimesBits(13, x, 4) == Add(s3, low);
    assert TimesBits(29, x, 5) == Add(s4, Add(s3, low));
    AddLaws(Add(s4, Add(s3, low)), 0, 0);
    assert TimesBits(29, x, 6) == Add(s4, Add(s3, low));
    assert TimesBits(29, x, 7) == Add(s4, Add(s3, low));
    assert Times(29, x) == Add(s4, Add(s3, low));
    if x == 0 {
      ScaleZero(2); ScaleZero(3); ScaleZero(4); ScaleZero(8);
    } else {
      var l := DiscreteLog(x);
      PowersOfAlpha();
      ScaleScale(1, l, 2); ScaleScale(1, l, 3); ScaleScale(1, l, 4); ScaleScale(1, l, 8);
      ScaleScale(1, 2, l); ScaleScale(1, 3, l); ScaleScale(1, 4, l); ScaleScale(1, 8, l);
      ScaleAdd(4, 1, l);
      ScaleAdd(8, Add(4, 1), l);
      ScaleAdd(16, Add(8, Add(4, 1)), l);
    }
  }

  lemma SumOfBits()
    ensures Add(16, Add(8, Add(4, 1))) == 29
  {
    Pow2Eight();
    assert Pow2(3) == 8 && Pow2(4) == 16 && Pow2(6) == 64;
    assert Xor(4, 1, 4) == 5 && Xor(4, 1, 6) == 5 && Add(4, 1) == 5;
    assert Xor(8, 5, 4) == 13 && Xor(8, 5, 6) == 13 && Add(8, 5) == 13;
    assert Xor(16, 13, 6) == 29 && Add(16, 13) == 29;
  }

  lemma PowersOfAlpha()
    ensures Alpha(2) == 4 && Alpha(3) == 8 && Alpha(4) == 16 && Alpha(8) == 29
    ensures Add(16, Add(8, Add(4, 1))) == 29
  {
    Pow2Eight();
    assert Alpha(2) == 4 && Alpha(4) == 16 && Alpha(6) == 64;
    assert Alpha(8) == Add(0, 29);
    AddLaws(29, 0, 0);
    SumOfBits();
  }

  lemma TimesAdd(f: Byte, g: Byte, x: Byte)
    ensures Times(Add(f, g), x) == Add(Times(f, x), Times(g, x))
  {
    Pow2Eight();
    TimesBitsAdd(f, g, x, 8);
  }

  lemma TimesDouble(f: Byte, x: Byte)
    ensures Times(Double(f), x) == Double(Times(f, x))
  {
    Pow2Eight();
    hide Add;
    AddLaws(0, 0, 0);
    var y := Low(f, 128);
    var t := TimesBits(y, x, 7);
    TimesBitsTwice(y, x, 7);
    AddLaws(t, 0, 0);
    if f >= 128 {
      TimesAdd(2 * y, 29, x);
      TimesReduction(x);
      DoubleAdd(Scale(x, 7), t);
      AddLaws(Scale(x, 8), Times(2 * y, x), 0);
    }
  }

  /** Products are sums of logarithms. */
  lemma {:induction false} TimesAlpha(k: nat, x: Byte)
    ensures Times(Alpha(k), x) == Scale(x, k)
  {
    if k == 0 {
      TimesOne(x);
    } else {
      TimesAlpha(k - 1, x);
      TimesDouble(Alpha(k - 1), x);
    }
  }

  lemma TimesOne(x: Byte)
    ensures Times(1, x) == x && Times(0, x) == 0
  {
    Pow2Eight();
    assert Pow2(4) == 16;
    AddLaws(0, 0, 0);
    AddLaws(x, 0, 0);
    assert TimesBits(0, x, 0) == 0 && TimesBits(0, x, 1) == 0 && TimesBits(1, x, 1) == x;
    assert TimesBits(1, x, 2) == x && TimesBits(0, x, 2) == 0;
    assert TimesBits(1, x, 4) == x && TimesBits(0, x, 4) == 0;
    assert TimesBits(1, x, 6) == x && TimesBits(0, x, 6) == 0;
    assert TimesBits(1, x, 7) == x && TimesBits(0, x, 7) == 0;
  }

  // ---------------------------------------------------------------------------------------------------------
  // Polynomials and their values
  // ---------------------------------------------------------------------------------------------------------

  function AddSeq(p: Poly, q: Poly): (r: Poly)
    requires |p| == |q|
    ensures |r| == |p|
  {
    seq(|p|, i requires 0 <= i < |p| => Add(p[i], q[i]))
  }

  function ScaleSeq(p: Poly, k: nat): (r: Poly)
    ensures |r| == |p|
  {
    seq(|p|, i requires 0 <= i < |p| => Scale(p[i], k))
  }

  function TimesSeq(f: Byte, p: Poly): (r: Poly)
    ensures |r| == |p|
  {
    seq(|p|, i requires 0 <= i < |p| => Times(f, p[i]))
  }

  /** The value of p at the k-th power of the primitive element. */
  function Eval(p: Poly, k: nat): Byte
  {
    if p == [] then 0 else Add(Scale(Eval(p[..|p| - 1], k), k), p[|p| - 1])
  }

  lemma Trivial(x: Byte, k: nat)
    ensures Scale(x, 0) == x && Eval([], k) == 0 && Add(x, 0) == x
  {
    AddLaws(x, 0, 0);
  }

  lemma EvalSnoc(p: Poly, x: Byte, k: nat)
    ensures Eval(p + [x], k) == Add(Scale(Eval(p, k), k), x)
  {
    hide Add;
    assert (p + [x])[..|p|] == p;
  }

  lemma {:induction false} EvalConcat(p: Poly, q: Poly, k: nat)
    ensures Eval(p + q, k) == Add(Scale(Eval(p, k), k * |q|), Eval(q, k))
  {
    hide Add, Scale;
    if q == [] {
      assert p + q == p;
      Trivial(Eval(p, k), k);
    } else {
      var r, x, m := q[..|q| - 1], q[|q| - 1], k * (|q| - 1);
      assert q == r + [x] && p + q == (p + r) + [x];
      EvalConcat(p, r, k);
      EvalSnoc(p + r, x, k);
      EvalSnoc(r, x, k);
      ScaleAdd(Scale(Eval(p, k), m), Eval(r, k), k);
      ScaleScale(Eval(p, k), m, k);
      assert m + k == k * |q|;
      AddLaws(Scale(Eval(p, k), k * |q|), Scale(Eval(r, k), k), x);
    }
  }

  lemma {:induction false} EvalAddSeq(p: Poly, q: Poly, k: nat)
    requires |p| == |q|
    ensures Eval(AddSeq(p, q), k) == Add(Eval(p, k), Eval(q, k))
  {
    hide Add;
    var n := |p|;
    if n == 0 {
      AddLaws(0, 0, 0);
    } else {
      assert AddSeq(p, q)[..n - 1] == AddSeq(p[..n - 1], q[..n - 1]);
      EvalAddSeq(p[..n - 1], q[..n - 1], k);
      var u, v := Eval(p[..n - 1], k), Eval(q[..n - 1], k);
      ScaleAdd(u, v, k);
      AddSwap(Scale(u, k), Scale(v, k), p[n - 1], q[n - 1]);
    }
  }

  lemma {:induction false} EvalScaleSeq(p: Poly, j: nat, k: nat)
    ensures Eval(ScaleSeq(p, j), k) == Scale(Eval(p, k), j)
  {
    hide Add;
    var n := |p|;
    if n == 0 {
      ScaleZero(j);
    } else {
      assert ScaleSeq(p, j)[..n - 1] == ScaleSeq(p[..n - 1], j);
      EvalScaleSeq(p[..n - 1], j, k);
      var u := Eval(p[..n - 1], k);
      ScaleAdd(Scale(u, k), p[n - 1], j);
      ScaleScale(u, j, k);
      ScaleScale(u, k, j);
    }
  }

  lemma EvalTimesSeq(f: Byte, p: Poly, k: nat)
    ensures Eval(TimesSeq(f, p), k) == Times(f, Eval(p, k))
  {
    hide Add;
    if f == 0 {
      forall i | 0 <= i < |p|
        ensures TimesSeq(f, p)[i] == 0
      {
        TimesOne(p[i]);
      }
      TimesOne(Eval(p, k));
      EvalZeros(TimesSeq(f, p), k);
    } else {
      var l := DiscreteLog(f);
      forall i | 0 <= i < |p|
        ensures TimesSeq(f, p)[i] == ScaleSeq(p, l)[i]
      {
        TimesAlpha(l, p[i]);
      }
      assert TimesSeq(f, p) == ScaleSeq(p, l);
      EvalScaleSeq(p, l, k);
      TimesAlpha(l, Eval(p, k));
    }
  }

  ghost predicate Zeros(p: Poly)
  {
    forall i :: 0 <= i < |p| ==> p[i] == 0
  }

  lemma {:induction false} EvalZeros(p: Poly, k: nat)
    requires Zeros(p)
    ensures Eval(p, k) == 0
  {
    hide Add;
    if p != [] {
      EvalZeros(p[..|p| - 1], k);
      ScaleZero(k);
      AddLaws(0, 0, 0);
    }
  }

  // ---------------------------------------------------------------------------------------------------------
  // Generator polynomials
  // ---------------------------------------------------------------------------------------------------------

  /** p multiplied by x + (the i-th power of the primitive element). */
  function TimesRoot(p: Poly, i: nat): (r: Poly)
    ensures |r| == |p| + 1
  {
    AddSeq(p + [0], [0] + ScaleSeq(p, i))
  }

  /** The product of x + α^i for all i below n. */
  function Generator(n: nat): (g: Poly)
    ensures |g| == n + 1
  {
    if n == 0 then [1] else TimesRoot(Generator(n - 1), n - 1)
  }

  lemma EvalTimesRoot(p: Poly, i: nat, k: nat)
    ensures Eval(TimesRoot(p, i), k) == Add(Scale(Eval(p, k), k), Scale(Eval(p, k), i))
  {
    hide Add, Scale, Eval;
    EvalAddSeq(p + [0], [0] + ScaleSeq(p, i), k);
    EvalSnoc(p, 0, k);
    AddLaws(Scale(Eval(p, k), k), 0, 0);
    EvalConcat([0], ScaleSeq(p, i), k);
    EvalZeros([0], k);
    ScaleZero(k * |p|);
    AddLaws(Eval(ScaleSeq(p, i), k), 0, 0);
    EvalScaleSeq(p, i, k);
  }

  lemma SumOfScales(e: Byte, k: nat, m: nat)
    requires m < 255
    ensures Add(Scale(e, k), Scale(e, m)) == 0 <==> e == 0 || k % 255 == m
  {
    hide Add;
    AddLaws(Scale(e, k), Scale(e, m), 0);
    if e == 0 {
      ScaleZero(k);
      ScaleZero(m);
    } else if k % 255 == m {
      ScaleMod(e, k);
    } else if Scale(e, k) == Scale(e, m) {
      ScaleInjective(e, k, m);
    }
  }

  /** The generator polynomial vanishes at the first n powers of the primitive element and nowhere else. */
  lemma {:induction false} GeneratorRoots(n: nat, k: nat)
    requires n <= 255
    ensures Eval(Generator(n), k) == 0 <==> k % 255 < n
  {
    hide Add, Scale;
    if n == 0 {
      EvalSnoc([], 1, k);
      ScaleZero(k);
      AddLaws(1, 0, 0);
      assert [] + [1 as Byte] == [1];
    } else {
      GeneratorRoots(n - 1, k);
      EvalTimesRoot(Generator(n - 1), n - 1, k);
      SumOfScales(Eval(Generator(n - 1), k), k, n - 1);
    }
  }

  lemma {:induction false} GeneratorMonic(n: nat)
    ensures Generator(n)[0] == 1
  {
    if n != 0 {
      GeneratorMonic(n - 1);
      AddLaws(1, 0, 0);
    }
  }

  /** The recurrence of the coefficients. */
  lemma TimesRootAt(p: Poly, i: nat, k: nat)
    requires k <= |p|
    ensures TimesRoot(p, i)[k] == Add(if k < |p| then p[k] else 0, if k > 0 then Scale(p[k - 1], i) else 0)
  {
    hide Add;
  }

  /** Two neighbouring coefficients of a generator polynomial, and a third one, stay in proportion. */
  lemma RatioStep(a: Byte, b: Byte, c: Byte, n: nat, m: nat)
    requires m > 0
    requires Add(Scale(a, m), a) == Add(Scale(b, n), Scale(b, m - 1))
    requires if m == 1 then c == 0 else Add(Scale(b, m - 1), b) == Add(Scale(c, n), Scale(c, m - 2))
    ensures var a', b' := Add(a, Scale(b, n)), Add(b, Scale(c, n));
            Add(Scale(a', m), a') == Add(Scale(b', n + 1), Scale(b', m - 1))
  {
    hide Add, Scale;
    ScaleAdd(a, Scale(b, n), m);
    ScaleScale(b, n, m);
    AddSwap(Scale(a, m), Scale(b, n + m), a, Scale(b, n));
    Cancel(Scale(b, n), Scale(b, m - 1), Scale(b, n + m));

    ScaleAdd(b, Scale(c, n), n + 1);
    ScaleAdd(b, Scale(c, n), m - 1);
    ScaleScale(c, n, n + 1);
    ScaleScale(c, n, m - 1);
    var second := Add(Scale(c, n + (n + 1)), Scale(c, n + (m - 1)));
    AddSwap(Scale(b, n + 1), Scale(c, n + (n + 1)), Scale(b, m - 1), Scale(c, n + (m - 1)));
    assert second == Add(Scale(b, n + m), Scale(b, n + 1)) by {
      if m == 1 {
        ScaleZero(n + (n + 1));
        ScaleZero(n + (m - 1));
        AddLaws(0, 0, 0);
        AddLaws(Scale(b, n + 1), Scale(b, n + 1), 0);
      } else {
        ScaleAdd(Scale(c, n), Scale(c, m - 2), n + 1);
        ScaleScale(c, n, n + 1);
        ScaleScale(c, m - 2, n + 1);
        ScaleAdd(Scale(b, m - 1), b, n + 1);
        ScaleScale(b, m - 1, n + 1);
      }
    }
    Cancel(Scale(b, n + 1), Scale(b, m - 1), Scale(b, n + m));
  }

  lemma Cancel(x: Byte, y: Byte, z: Byte)
    ensures Add(Add(x, y), Add(z, x)) == Add(y, z)
  {
    hide Add;
    AddLaws(x, y, 0);
    AddLaws(y, x, Add(z, x));
    AddLaws(x, z, 0);
    AddLaws(z, x, 0);
    AddLaws(x, x, z);
    AddLaws(z, 0, 0);
  }

  /** The m-th coefficient from the top, zero past the end. */
  function Coefficient(n: nat, m: nat): Byte
  {
    if m <= n then Generator(n)[m] else 0
  }

  lemma CoefficientStep(n: nat, m: nat)
    requires 0 < m <= n + 1
    ensures Coefficient(n + 1, m) == Add(Coefficient(n, m), Scale(Coefficient(n, m - 1), n))
  {
    hide Add, Scale;
    TimesRootAt(Generator(n), n, m);
  }

  /** Neighbouring coefficients of the generator polynomial are in a fixed proportion. */
  lemma {:induction false} CoefficientRatio(n: nat, m: nat)
    requires 0 < m <= n + 1
    ensures Add(Scale(Coefficient(n, m), m), Coefficient(n, m))
            == Add(Scale(Coefficient(n, m - 1), n), Scale(Coefficient(n, m - 1), m - 1))
  {
    hide Add, Scale;
    if m == n + 1 {
      ScaleZero(m);
      AddLaws(0, 0, 0);
      AddLaws(Scale(Coefficient(n, n), n), Scale(Coefficient(n, n), n), 0);
    } else {
      CoefficientRatio(n - 1, m);
      CoefficientStep(n - 1, m);
      if m == 1 {
        GeneratorMonic(n);
        GeneratorMonic(n - 1);
        ScaleZero(n - 1);
        AddLaws(1, 0, 0);
        RatioStep(Coefficient(n - 1, 1), 1, 0, n - 1, 1);
      } else {
        CoefficientRatio(n - 1, m - 1);
        CoefficientStep(n - 1, m - 1);
        RatioStep(Coefficient(n - 1, m), Coefficient(n - 1, m - 1), Coefficient(n - 1, m - 2), n - 1, m);
      }
    }
  }

  /** No coefficient of a generator polynomial is zero, so every one of them has a logarithm. */
  lemma {:induction false} GeneratorNonZero(n: nat, m: nat)
    requires m <= n < 255
    ensures Generator(n)[m] != 0
  {
    if m == 0 {
      GeneratorMonic(n);
    } else {
      hide Add, Scale;
      GeneratorNonZero(n, m - 1);
      CoefficientRatio(n, m);
      var b := Coefficient(n, m - 1);
      AddLaws(Scale(b, n), Scale(b, m - 1), 0);
      ScaleDiffers(b, n, m - 1);
      if Generator(n)[m] == 0 {
        ScaleZero(m);
        AddLaws(0, 0, 0);
        assert false;
      }
    }
  }

  // ---------------------------------------------------------------------------------------------------------
  // Check bytes
  // ---------------------------------------------------------------------------------------------------------

  /** One step of long division by g: the register shifts in d and the quotient digit's multiple of g comes off. */
  function StepRegister(r: Poly, d: Byte, g: Poly): (r': Poly)
    requires |r| > 0 && |g| == |r| + 1
    ensures |r'| == |r|
  {
    AddSeq(r[1..] + [0], TimesSeq(Add(d, r[0]), g[1..]))
  }

  /** What is left of d followed by n zeros after division by the generator polynomial of degree n. */
  function Remainder(d: Poly, n: nat): (r: Poly)
    requires n > 0
    ensures |r| == n
  {
    if d == [] then seq(n, i => 0)
    else StepRegister(Remainder(d[..|d| - 1], n), d[|d| - 1], Generator(n))
  }

  lemma RemainderSnoc(d: Poly, x: Byte, n: nat)
    requires n > 0
    ensures Remainder(d + [x], n) == StepRegister(Remainder(d, n), x, Generator(n))
    ensures Zeros(Remainder([], n))
  {
    hide StepRegister, Generator;
    assert (d + [x])[..|d|] == d;
  }

  lemma EvalShift(r: Poly, k: nat)
    requires |r| > 0
    ensures Eval(r[1..] + [0], k) == Add(Scale(Eval(r, k), k), Scale(r[0], k * |r|))
  {
    hide Add, Scale, Eval;
    var tail := r[1..] + [0];
    assert r + [0] == [r[0]] + tail;
    EvalSnoc(r, 0, k);
    EvalConcat([r[0]], tail, k);
    EvalSingle(r[0], k);
    var s, t := Scale(Eval(r, k), k), Scale(r[0], k * |r|);
    AddLaws(s, 0, 0);
    AddLaws(t, Eval(tail, k), 0);
    AddLaws(s, t, 0);
  }

  lemma EvalSingle(x: Byte, k: nat)
    ensures Eval([x], k) == x
  {
    hide Add;
    EvalSnoc([], x, k);
    assert [] + [x] == [x];
    ScaleZero(k);
    AddLaws(x, 0, 0);
  }

  lemma EvalTail(g: Poly, k: nat)
    requires |g| > 0 && g[0] == 1 && Eval(g, k) == 0
    ensures Eval(g[1..], k) == Alpha(k * (|g| - 1))
  {
    hide Add, Scale, Eval;
    assert g == [g[0]] + g[1..];
    EvalConcat([g[0]], g[1..], k);
    EvalSingle(1, k);
    AddLaws(Alpha(k * (|g| - 1)), Eval(g[1..], k), 0);
  }

  lemma TimesPower(f: Byte, k: nat)
    ensures Times(f, Alpha(k)) == Scale(f, k)
  {
    hide Add, Scale;
    if f == 0 {
      TimesOne(Alpha(k));
      ScaleZero(k);
    } else {
      var l := DiscreteLog(f);
      TimesAlpha(l, Alpha(k));
      ScaleScale(1, k, l);
      ScaleScale(1, l, k);
    }
  }

  lemma StepValue(r: Poly, d: Byte, g: Poly, k: nat)
    requires |r| > 0 && |g| == |r| + 1 && g[0] == 1 && Eval(g, k) == 0
    ensures Eval(StepRegister(r, d, g), k) == Add(Scale(Eval(r, k), k), Scale(d, k * |r|))
  {
    hide Add, Scale, Eval;
    var f, m := Add(d, r[0]), k * |r|;
    EvalAddSeq(r[1..] + [0], TimesSeq(f, g[1..]), k);
    EvalShift(r, k);
    EvalTimesSeq(f, g[1..], k);
    EvalTail(g, k);
    TimesPower(f, m);
    ScaleAdd(d, r[0], m);
    var s, t, u := Scale(Eval(r, k), k), Scale(r[0], m), Scale(d, m);
    AddLaws(s, t, 0);
    Cancel(t, s, u);
  }

  /** Data followed by its check bytes is zero at every root of the generator polynomial. */
  lemma {:induction false} CodewordVanishes(d: Poly, n: nat, k: nat)
    requires k < n <= 255
    ensures Eval(d + Remainder(d, n), k) == 0
  {
    hide Add, Scale, Eval;
    var r := Remainder(d, n);
    EvalConcat(d, r, k);
    AddLaws(Scale(Eval(d, k), k * n), Eval(r, k), 0);
    if d == [] {
      EvalZeros(r, k);
      Trivial(0, k);
      ScaleZero(k * n);
    } else {
      var d0, x := d[..|d| - 1], d[|d| - 1];
      var r0 := Remainder(d0, n);
      CodewordVanishes(d0, n, k);
      EvalConcat(d0, r0, k);
      AddLaws(Scale(Eval(d0, k), k * n), Eval(r0, k), 0);
      GeneratorRoots(n, k);
      GeneratorMonic(n);
      StepValue(r0, x, Generator(n), k);
      assert d == d0 + [x];
      EvalSnoc(d0, x, k);
      ScaleAdd(Scale(Eval(d0, k), k), x, k * n);
      ScaleScale(Eval(d0, k), k, k * n);
      ScaleScale(Eval(d0, k), k * n, k);
    }
  }

  /** The quotient of p by x + (the z-th power of the primitive element), when p vanishes there. */
  function Quotient(p: Poly, z: nat): (q: Poly)
    requires |p| > 0
    ensures |q| == |p| - 1
  {
    seq(|p| - 1, i requires 0 <= i < |p| - 1 => Eval(p[..i + 1], z))
  }

  lemma {:induction false} QuotientValue(p: Poly, z: nat, k: nat)
    requires |p| > 0
    ensures Eval(p, k) == Add(Add(Scale(Eval(Quotient(p, z), k), k), Scale(Eval(Quotient(p, z), k), z)), Eval(p, z))
  {
    hide Add, Scale, Eval;
    var n := |p| - 1;
    if n == 0 {
      EvalSingle(p[0], k);
      EvalSingle(p[0], z);
      assert p == [p[0]];
      Trivial(0, k);
      ScaleZero(k);
      ScaleZero(z);
      AddLaws(0, 0, 0);
      AddLaws(p[0], 0, 0);
    } else {
      var p0, x := p[..n], p[n];
      var q0, e := Quotient(p0, z), Eval(p0, z);
      QuotientValue(p0, z, k);
      assert Quotient(p, z) == q0 + [e] by {
        forall i | 0 <= i < n - 1
          ensures Quotient(p, z)[i] == q0[i]
        {
          assert p0[..i + 1] == p[..i + 1];
        }
      }
      var v := Eval(q0, k);
      EvalSnoc(q0, e, k);
      assert p == p0 + [x];
      EvalSnoc(p0, x, k);
      EvalSnoc(p0, x, z);
      QuotientStep(v, e, x, k, z);
    }
  }

  lemma QuotientStep(v: Byte, e: Byte, x: Byte, k: nat, z: nat)
    ensures var w := Add(Scale(v, k), e);
            Add(Scale(Add(Add(Scale(v, k), Scale(v, z)), e), k), x)
            == Add(Add(Scale(w, k), Scale(w, z)), Add(Scale(e, z), x))
  {
    hide Add, Scale;
    var a, b, c, d := Scale(v, k + k), Scale(v, z + k), Scale(e, k), Scale(e, z);
    ScaleAdd(Add(Scale(v, k), Scale(v, z)), e, k);
    ScaleAdd(Scale(v, k), Scale(v, z), k);
    ScaleScale(v, k, k);
    ScaleScale(v, z, k);
    ScaleAdd(Scale(v, k), e, k);
    ScaleAdd(Scale(v, k), e, z);
    ScaleScale(v, k, z);
    // Left: ((a + b) + c) + x.  Right: ((a + c) + (b + d)) + (d + x).
    AddLaws(Add(a, c), Add(b, d), Add(d, x));
    AddLaws(b, d, Add(d, x));
    AddLaws(d, x, 0);
    AddLaws(d, d, x);
    AddLaws(x, 0, 0);
    AddSwap(a, c, b, x);
    AddLaws(Add(a, b), c, x);
  }

  /** A polynomial with n coefficients that vanishes at n different powers is zero. */
  lemma {:induction false} OnlyZeroVanishes(p: Poly)
    requires |p| <= 255
    requires forall k: nat :: k < |p| ==> Eval(p, k) == 0
    ensures Zeros(p)
    decreases |p|
  {
    hide Add, Scale, Eval;
    if p != [] {
      var z := |p| - 1;
      var q := Quotient(p, z);
      forall k: nat | k < |q|
        ensures Eval(q, k) == 0
      {
        assert Eval(p, k) == 0 && Eval(p, z) == 0;
        QuotientValue(p, z, k);
        var s := Add(Scale(Eval(q, k), k), Scale(Eval(q, k), z));
        AddLaws(s, 0, 0);
        SumOfScales(Eval(q, k), k, z);
      }
      OnlyZeroVanishes(q);
      ZeroQuotient(p, z);
    }
  }

  lemma ZeroQuotient(p: Poly, z: nat)
    requires |p| > 0 && Zeros(Quotient(p, z)) && Eval(p, z) == 0
    ensures Zeros(p)
  {
    hide Add, Scale, Eval;
    ScaleZero(z);
    Trivial(0, z);
    forall i | 0 <= i < |p|
      ensures p[i] == 0
    {
      assert p[..i + 1] == p[..i] + [p[i]];
      EvalSnoc(p[..i], p[i], z);
      assert Eval(p[..i], z) == 0 by {
        if i > 0 {
          assert Quotient(p, z)[i - 1] == 0;
        }
      }
      assert Eval(p[..i + 1], z) == 0 by {
        if i < |p| - 1 {
          assert Quotient(p, z)[i] == 0;
        } else {
          assert p[..i + 1] == p;
        }
      }
      AddLaws(p[i], 0, 0);
    }
  }

  ghost predicate IsCodeword(c: Poly, n: nat)
  {
    forall k: nat :: k < n ==> Eval(c, k) == 0
  }

  /** The check bytes are the only n bytes that complete the data to a word vanishing at all n roots. */
  lemma CheckBytesCharacterised(d: Poly, r: Poly, n: nat)
    requires |r| == n && 0 < n <= 255
    ensures IsCodeword(d + r, n) <==> r == Remainder(d, n)
  {
    hide Add, Scale, Eval;
    var r' := Remainder(d, n);
    forall k: nat | k < n
      ensures Eval(d + r', k) == 0
    {
      CodewordVanishes(d, n, k);
    }
    if IsCodeword(d + r, n) {
      var p := AddSeq(r, r');
      forall k: nat | k < n
        ensures Eval(p, k) == 0
      {
        EvalConcat(d, r, k);
        EvalConcat(d, r', k);
        EvalAddSeq(r, r', k);
        var e := Scale(Eval(d, k), k * n);
        AddLaws(e, Eval(r, k), 0);
        AddLaws(e, Eval(r', k), 0);
        AddLaws(e, e, 0);
      }
      OnlyZeroVanishes(p);
      forall i | 0 <= i < n
        ensures r[i] == r'[i]
      {
        assert p[i] == 0;
        AddLaws(r[i], r'[i], 0);
      }
    }
  }
}
