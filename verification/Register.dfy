/** The Bech32 checksum register (BIP 173, "Checksum"): a linear map over 30-bit words.
    Symbols are bytes below 32; the register is the source's `u32`, kept bit for bit. */
module Register {
  import opened Prelude

  const GEN: seq<bv32> := [0x3B6A57B2, 0x26508E6D, 0x1EA119FA, 0x3D4233DD, 0x2A1462B3]
  const TAP: seq<bv32> := [1, 2, 4, 8, 16]

  // ---------------------------------------------------------------- the register, one symbol at a time

  function Xor(a: bv32, b: bv32): bv32 { a ^ b }

  function Tap(b: bv32, bit: bv32, g: bv32): bv32 {
    if b & bit != 0 then g else 0
  }

  /** The generator words selected by the five bits shifted out of the register. */
  function Feedback(b: bv32): bv32 {
    Xor(Xor(Xor(Xor(
      Tap(b, 1, 0x3B6A57B2), Tap(b, 2, 0x26508E6D)), Tap(b, 4, 0x1EA119FA)), Tap(b, 8, 0x3D4233DD)),
      Tap(b, 16, 0x2A1462B3))
  }

  function Shift(chk: bv32): bv32 { (chk & 0x1FF_FFFF) << 5 }

  function Step(chk: bv32, v: bv32): bv32 {
    Xor(Xor(Shift(chk), v), Feedback(chk >> 25))
  }

  /** The register after feeding `values` to a register holding `chk`. */
  function Run(chk: bv32, values: seq<bv32>): bv32 {
    if values == [] then chk else Step(Run(chk, values[..|values| - 1]), values[|values| - 1])
  }

  function Word(v: byte): bv32 { v as bv32 }

  function Words(values: seq<byte>): seq<bv32> {
    seq(|values|, i requires 0 <= i < |values| => Word(values[i]))
  }

  function PolymodOf(values: seq<byte>): bv32 { Run(1, Words(values)) }

  // ---------------------------------------------------------------- the source's loops

  /** One bit of the shifted-out group, tested by shifting or by masking. */
  lemma TapBit(b: bv32, i: nat)
    requires i < 5
    ensures ((b >> i) & 1 != 0) == (b & TAP[i] != 0)
  {
    if i == 0 { assert ((b >> 0) & 1 != 0) == (b & 1 != 0); }
    else if i == 1 { assert ((b >> 1) & 1 != 0) == (b & 2 != 0); }
    else if i == 2 { assert ((b >> 2) & 1 != 0) == (b & 4 != 0); }
    else if i == 3 { assert ((b >> 3) & 1 != 0) == (b & 8 != 0); }
    else { assert ((b >> 4) & 1 != 0) == (b & 16 != 0); }
  }

  function FeedbackUpTo(b: bv32, n: nat): bv32
    requires n <= 5
  {
    if n == 0 then 0 else Xor(FeedbackUpTo(b, n - 1), Tap(b, TAP[n - 1], GEN[n - 1]))
  }

  lemma FeedbackTotal(b: bv32)
    ensures FeedbackUpTo(b, 5) == Feedback(b)
  {
    XorUnits(Tap(b, 1, GEN[0]));
    assert FeedbackUpTo(b, 1) == Tap(b, 1, GEN[0]);
    assert FeedbackUpTo(b, 2) == Xor(FeedbackUpTo(b, 1), Tap(b, 2, GEN[1]));
    assert FeedbackUpTo(b, 3) == Xor(FeedbackUpTo(b, 2), Tap(b, 4, GEN[2]));
    assert FeedbackUpTo(b, 4) == Xor(FeedbackUpTo(b, 3), Tap(b, 8, GEN[3]));
  }

  /** The inner loop: XOR in the generator word of every bit set in the group `b`. */
  method FeedBack(start: bv32, b: bv32) returns (chk: bv32)
    ensures chk == Xor(start, Feedback(b))
  {
    chk := start;
    XorUnits(start);
    for i := 0 to 5
      invariant chk == Xor(start, FeedbackUpTo(b, i))
    {
      TapBit(b, i);
      XorAssoc(start, FeedbackUpTo(b, i), Tap(b, TAP[i], GEN[i]));
      XorUnits(chk);
      if (b >> i) & 1 != 0 {
        chk := Xor(chk, GEN[i]);
      }
    }
    FeedbackTotal(b);
  }

  /** One pass of the outer loop. */
  method Absorb(chk: bv32, v: bv32) returns (next: bv32)
    ensures next == Step(chk, v)
  {
    next := FeedBack(((chk & 0x1FF_FFFF) << 5) ^ v, chk >> 25);
  }

  lemma RunExtend(chk: bv32, values: seq<bv32>, k: nat)
    requires k < |values|
    ensures Run(chk, values[..k + 1]) == Step(Run(chk, values[..k]), values[k])
  {
    assert values[..k + 1][..k] == values[..k];
  }

  lemma WordsShape(values: seq<byte>)
    ensures |Words(values)| == |values| && Words(values)[..|values|] == Words(values)
    ensures forall i :: 0 <= i < |values| ==> Words(values)[i] == Word(values[i])
  {}

  method Polymod(values: seq<byte>) returns (chk: bv32)
    ensures chk == PolymodOf(values)
  {
    hide Step, Word, Words;
    WordsShape(values);
    chk := 1;
    for k := 0 to |values|
      invariant chk == Run(1, Words(values)[..k])
    {
      RunExtend(1, Words(values), k);
      chk := Absorb(chk, Word(values[k]));
    }
  }

  // ---------------------------------------------------------------- where the generator words come from

  /** Multiplication by x in the field of 32 elements, where x^5 = x^3 + 1. */
  function TimesX(a: bv32): bv32 {
    Xor(a << 1, Tap(a, 16, 0x29))
  }

  /** The product of a field element with the element whose bits are b. */
  function Product(a: bv32, b: bv32): bv32 {
    var a2 := TimesX(a);
    var a4 := TimesX(a2);
    var a8 := TimesX(a4);
    Xor(Xor(Xor(Xor(Tap(b, 1, a), Tap(b, 2, a2)), Tap(b, 4, a4)), Tap(b, 8, a8)), Tap(b, 16, TimesX(a8)))
  }

  /** The multiple of the generator polynomial's lower coefficients, x^6 aside, packed as the register is. */
  function GeneratorTimes(b: bv32): bv32 {
    (Product(29, b) << 25) ^ (Product(22, b) << 20) ^ (Product(20, b) << 15)
    ^ (Product(21, b) << 10) ^ (Product(29, b) << 5) ^ Product(18, b)
  }

  /** A step of the register is one step of dividing by the generator polynomial
      x^6 + 29 x^5 + 22 x^4 + 20 x^3 + 21 x^2 + 29 x + 18 over the field of 32 elements (BIP 173, "Checksum"): what is
      shifted out at the top comes back multiplied by its coefficients. */
  lemma StepDivides(chk: bv32, v: bv32)
    requires InRegister(chk)
    ensures Step(chk, v) == Xor(Xor((chk & 0x1FF_FFFF) << 5, v), GeneratorTimes(chk >> 25))
  {
    TopSymbol(chk);
    hide Xor, GeneratorTimes, Feedback, InRegister;
    FeedbackProducts(chk >> 25);
  }

  lemma TopSymbol(chk: bv32)
    requires InRegister(chk)
    ensures chk >> 25 < 32
  {}

  lemma FeedbackProducts(b: bv32)
    requires b < 32
    ensures Feedback(b) == GeneratorTimes(b)
  {
    ProductIs(29, b, 19, 15, 30, 21);
    ProductIs(22, b, 5, 10, 20, 1);
    ProductIs(20, b, 1, 2, 4, 8);
    ProductIs(21, b, 3, 6, 12, 24);
    ProductIs(18, b, 13, 26, 29, 19);
    hide Product;
  }

  /** A product by its five multiples. */
  lemma ProductIs(a: bv32, b: bv32, a2: bv32, a4: bv32, a8: bv32, a16: bv32)
    requires a2 == TimesX(a) && a4 == TimesX(a2) && a8 == TimesX(a4) && a16 == TimesX(a8)
    ensures Product(a, b) == Xor(Xor(Xor(Xor(Tap(b, 1, a), Tap(b, 2, a2)), Tap(b, 4, a4)), Tap(b, 8, a8)), Tap(b, 16, a16))
  {
    hide TimesX;
  }

  // ---------------------------------------------------------------- XOR-linearity

  lemma XorAssoc(a: bv32, b: bv32, c: bv32)
    ensures Xor(Xor(a, b), c) == Xor(a, Xor(b, c))
    ensures Xor(a, b) == Xor(b, a)
  {}

  lemma XorUnits(g: bv32)
    ensures Xor(g, g) == 0 && Xor(g, 0) == g && Xor(0, g) == g
  {}

  lemma XorSwap(a: bv32, b: bv32, c: bv32, d: bv32)
    ensures Xor(Xor(a, b), Xor(c, d)) == Xor(Xor(a, c), Xor(b, d))
  {
    XorAssoc(Xor(a, b), c, d);
    XorAssoc(a, b, c);
    XorAssoc(b, c, d);
    XorAssoc(a, c, b);
    XorAssoc(Xor(a, c), b, d);
  }

  lemma XorSwap5(b0: bv32, c0: bv32, b1: bv32, c1: bv32, b2: bv32, c2: bv32, b3: bv32, c3: bv32, b4: bv32, c4: bv32)
    ensures Xor(Xor(Xor(Xor(Xor(b0, c0), Xor(b1, c1)), Xor(b2, c2)), Xor(b3, c3)), Xor(b4, c4))
         == Xor(Xor(Xor(Xor(Xor(b0, b1), b2), b3), b4), Xor(Xor(Xor(Xor(c0, c1), c2), c3), c4))
  {
    XorSwap(b0, c0, b1, c1);
    XorSwap(Xor(b0, b1), Xor(c0, c1), b2, c2);
    XorSwap(Xor(Xor(b0, b1), b2), Xor(Xor(c0, c1), c2), b3, c3);
    XorSwap(Xor(Xor(Xor(b0, b1), b2), b3), Xor(Xor(Xor(c0, c1), c2), c3), b4, c4);
  }

  lemma TapLinear(b: bv32, c: bv32, bit: bv32, g: bv32)
    requires bit == 1 || bit == 2 || bit == 4 || bit == 8 || bit == 16
    ensures Tap(Xor(b, c), bit, g) == Xor(Tap(b, bit, g), Tap(c, bit, g))
  {
    XorUnits(g);
    assert (b ^ c) & bit == (b & bit) ^ (c & bit);
    assert b & bit == 0 || b & bit == bit;
    assert c & bit == 0 || c & bit == bit;
  }

  lemma FeedbackLinear(b: bv32, c: bv32)
    ensures Feedback(Xor(b, c)) == Xor(Feedback(b), Feedback(c))
  {
    TapLinear(b, c, 1, 0x3B6A57B2);
    TapLinear(b, c, 2, 0x26508E6D);
    TapLinear(b, c, 4, 0x1EA119FA);
    TapLinear(b, c, 8, 0x3D4233DD);
    TapLinear(b, c, 16, 0x2A1462B3);
    XorSwap5(Tap(b, 1, 0x3B6A57B2), Tap(c, 1, 0x3B6A57B2), Tap(b, 2, 0x26508E6D), Tap(c, 2, 0x26508E6D),
             Tap(b, 4, 0x1EA119FA), Tap(c, 4, 0x1EA119FA), Tap(b, 8, 0x3D4233DD), Tap(c, 8, 0x3D4233DD),
             Tap(b, 16, 0x2A1462B3), Tap(c, 16, 0x2A1462B3));
  }

  lemma ShiftLinear(a: bv32, b: bv32)
    ensures Shift(Xor(a, b)) == Xor(Shift(a), Shift(b))
    ensures Xor(a, b) >> 25 == Xor(a >> 25, b >> 25)
  {}

  lemma StepLinear(a: bv32, b: bv32, u: bv32, v: bv32)
    ensures Step(Xor(a, b), Xor(u, v)) == Xor(Step(a, u), Step(b, v))
  {
    ShiftLinear(a, b);
    FeedbackLinear(a >> 25, b >> 25);
    XorSwap(Shift(a), Shift(b), u, v);
    XorSwap(Xor(Shift(a), u), Xor(Shift(b), v), Feedback(a >> 25), Feedback(b >> 25));
  }

  function XorSeq(xs: seq<bv32>, ys: seq<bv32>): seq<bv32>
    requires |xs| == |ys|
  {
    seq(|xs|, i requires 0 <= i < |xs| => Xor(xs[i], ys[i]))
  }

  /** The register is XOR-linear in its start value and its input together. */
  lemma {:induction false} RunLinear(a: bv32, b: bv32, xs: seq<bv32>, ys: seq<bv32>)
    requires |xs| == |ys|
    ensures Run(Xor(a, b), XorSeq(xs, ys)) == Xor(Run(a, xs), Run(b, ys))
  {
    if xs != [] {
      var n := |xs| - 1;
      RunLinear(a, b, xs[..n], ys[..n]);
      assert XorSeq(xs, ys)[..n] == XorSeq(xs[..n], ys[..n]);
      StepLinear(Run(a, xs[..n]), Run(b, ys[..n]), xs[n], ys[n]);
    }
  }

  // ---------------------------------------------------------------- range, injectivity, short inputs

  lemma StepRange(chk: bv32, v: bv32)
    requires v < 256
    ensures Step(chk, v) < 0x4000_0000
  {}

  lemma LowFeedbackBits(b: bv32)
    requires b < 32 && Feedback(b) & 31 == 0
    ensures b == 0
  {}

  /** Feeding a zero symbol loses nothing: only the zero register steps to zero. */
  lemma ZeroStepKernel(d: bv32)
    requires d < 0x4000_0000
    ensures Step(d, 0) == 0 <==> d == 0
  {
    if Step(d, 0) == 0 {
      var f := Feedback(d >> 25);
      assert ((((d & 0x1FF_FFFF) << 5) ^ 0 ^ f) & 31) == f & 31;
      LowFeedbackBits(d >> 25);
    }
  }

  /** The register step is injective in the register. */
  lemma StepInjective(a: bv32, b: bv32, v: bv32)
    requires a < 0x4000_0000 && b < 0x4000_0000
    requires Step(a, v) == Step(b, v)
    ensures a == b
  {
    StepLinear(a, b, v, v);
    XorUnits(v);
    XorUnits(Step(a, v));
    assert Xor(a, b) < 0x4000_0000;
    ZeroStepKernel(Xor(a, b));
  }

  lemma RunAppend(chk: bv32, xs: seq<bv32>, ys: seq<bv32>)
    ensures Run(chk, xs + ys) == Run(Run(chk, xs), ys)
  {
    if ys == [] {
      assert xs + ys == xs;
    } else {
      var n := |ys| - 1;
      assert (xs + ys)[..|xs + ys| - 1] == xs + ys[..n];
      RunAppend(chk, xs, ys[..n]);
    }
  }

  predicate IsZero(v: bv32) { v == 0 }

  predicate IsSymbol(v: bv32) { v < 32 }

  ghost predicate AllZero(xs: seq<bv32>) {
    forall i :: 0 <= i < |xs| ==> IsZero(xs[i])
  }

  predicate InRegister(v: bv32) { v < 0x4000_0000 }

  lemma ZeroStep(d: bv32)
    requires InRegister(d)
    ensures InRegister(Step(d, 0))
    ensures IsZero(Step(d, 0)) <==> IsZero(d)
  {
    ZeroStepKernel(d);
    StepRange(d, 0);
  }

  /** Trailing zero symbols neither create nor hide a difference. */
  lemma {:induction false} RunZeros(d: bv32, zeros: seq<bv32>)
    requires InRegister(d) && AllZero(zeros)
    ensures InRegister(Run(d, zeros))
    ensures IsZero(Run(d, zeros)) <==> IsZero(d)
  {
    if zeros != [] {
      hide Step, InRegister;
      var n := |zeros| - 1;
      RunZeros(d, zeros[..n]);
      ZeroStep(Run(d, zeros[..n]));
      assert IsZero(zeros[n]);
    }
  }

  /** `v` is a register to which at most k symbols have been fed, starting from zero. */
  predicate Fits(v: bv32, k: nat)
    requires k <= 6
  {
    v < if k == 0 then 1 else if k == 1 then 0x20 else if k == 2 then 0x400 else if k == 3 then 0x8000
        else if k == 4 then 0x10_0000 else if k == 5 then 0x200_0000 else 0x4000_0000
  }

  /** While fewer than six symbols are in the register nothing feeds back: a step appends five bits. */
  lemma AppendStep(chk: bv32, v: bv32)
    requires chk < 0x200_0000 && v < 32
    ensures Step(chk, v) == (chk << 5) | v
  {
    assert chk >> 25 == 0;
    assert Feedback(0) == 0;
  }

  lemma ShortStep(chk: bv32, v: bv32, k: nat)
    requires k < 6 && Fits(chk, k) && IsSymbol(v)
    ensures Fits(Step(chk, v), k + 1)
    ensures IsZero(Step(chk, v)) <==> IsZero(chk) && IsZero(v)
  {
    AppendStep(chk, v);
    if k == 0 {
      assert (chk << 5) | v < 0x20;
    } else if k == 1 {
      assert (chk << 5) | v < 0x400;
    } else if k == 2 {
      assert (chk << 5) | v < 0x8000;
    } else if k == 3 {
      assert (chk << 5) | v < 0x10_0000;
    } else if k == 4 {
      assert (chk << 5) | v < 0x200_0000;
    } else {
      assert (chk << 5) | v < 0x4000_0000;
    }
  }

  lemma EmptyRun(w: seq<bv32>)
    ensures Fits(Run(0, w[..0]), 0) && IsZero(Run(0, w[..0]))
  {}

  /** Up to six symbols leave an empty register zero only if they are all zero. */
  lemma {:induction false} ShortRun(w: seq<bv32>, k: nat)
    requires k <= |w| <= 6 && forall i :: 0 <= i < |w| ==> IsSymbol(w[i])
    ensures Fits(Run(0, w[..k]), k)
    ensures IsZero(Run(0, w[..k])) <==> forall i :: 0 <= i < k ==> IsZero(w[i])
  {
    hide *;
    if k == 0 {
      EmptyRun(w);
    } else {
      ShortRun(w, k - 1);
      RunExtend(0, w, k - 1);
      ShortStep(Run(0, w[..k - 1]), w[k - 1], k - 1);
    }
  }
}
