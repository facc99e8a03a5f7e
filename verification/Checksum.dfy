/** Verifying and creating Bech32 checksums, and the errors they detect. */
module Checksum {
  import opened Prelude
  import opened Register

  /** Five-bit symbols, the alphabet of the data part. */
  predicate Symbols(values: seq<byte>) {
    forall i :: 0 <= i < |values| ==> values[i] < 32
  }

  function HrpExpansion(hrp: seq<byte>): seq<byte> {
    seq(|hrp|, i requires 0 <= i < |hrp| => hrp[i] / 32) + [0] + seq(|hrp|, i requires 0 <= i < |hrp| => hrp[i] % 32)
  }

  method HrpExpand(hrp: seq<byte>) returns (out: seq<byte>)
    ensures out == HrpExpansion(hrp)
  {
    out := [];
    for k := 0 to |hrp|
      invariant out == HrpExpansion(hrp)[..k]
    {
      out := out + [hrp[k] / 32];
    }
    out := out + [0];
    for k := 0 to |hrp|
      invariant out == HrpExpansion(hrp)[..|hrp| + 1 + k]
    {
      out := out + [hrp[k] % 32];
    }
  }

  /** Character by character: the high three bits in front of a zero, the low five bits behind it. */
  lemma HrpExpansionBits(hrp: seq<byte>, i: nat)
    requires i < |hrp|
    ensures var e, n := HrpExpansion(hrp), |hrp|;
      && |e| == 2 * n + 1 && e[n] == 0
      && e[i] < 8 && e[n + 1 + i] < 32 && 32 * (e[i] as int) + e[n + 1 + i] as int == hrp[i]
  {
    assert HrpExpansion(hrp)[|hrp| + 1 + i] == hrp[i] % 32;
  }

  predicate Verifies(hrp: seq<byte>, data: seq<byte>) {
    PolymodOf(HrpExpansion(hrp) + data) == 1
  }

  method VerifyChecksum(hrp: seq<byte>, data: seq<byte>) returns (ok: bool)
    ensures ok == Verifies(hrp, data)
  {
    var values := HrpExpand(hrp);
    var chk := Polymod(values + data);
    ok := chk == 1;
  }

  const SIX_ZEROS: seq<byte> := [0, 0, 0, 0, 0, 0]

  /** The 30-bit word `pm` cut into six symbols, most significant first. */
  function ChecksumSymbols(pm: bv32): (symbols: seq<byte>)
    ensures |symbols| == 6 && Symbols(symbols)
  {
    [((pm >> 25) & 31) as int, ((pm >> 20) & 31) as int, ((pm >> 15) & 31) as int,
     ((pm >> 10) & 31) as int, ((pm >> 5) & 31) as int, (pm & 31) as int]
  }

  function ChecksumOf(hrp: seq<byte>, data: seq<byte>): seq<byte> {
    ChecksumSymbols(Xor(PolymodOf(HrpExpansion(hrp) + data + SIX_ZEROS), 1))
  }

  method CreateChecksum(hrp: seq<byte>, data: seq<byte>) returns (checksum: seq<byte>)
    ensures checksum == ChecksumOf(hrp, data)
  {
    var values := HrpExpand(hrp);
    var pm := Polymod(values + data + SIX_ZEROS);
    checksum := ChecksumSymbols(Xor(pm, 1));
  }

  // ---------------------------------------------------------------- a created checksum verifies

  function Append(chk: bv32, v: bv32): bv32 { (chk << 5) | v }

  lemma DigitsReassemble(pm: bv32)
    requires pm < 0x4000_0000
    ensures Append(Append(Append(Append(Append((pm >> 25) & 31, (pm >> 20) & 31), (pm >> 15) & 31),
                          (pm >> 10) & 31), (pm >> 5) & 31), pm & 31) == pm
    ensures Append(0, (pm >> 25) & 31) == (pm >> 25) & 31
  {}

  lemma AppendStays(chk: bv32, v: bv32, k: nat)
    requires k < 5 && Fits(chk, k) && IsSymbol(v)
    ensures Fits(Append(chk, v), k + 1) && Step(chk, v) == Append(chk, v)
  {
    AppendStep(chk, v);
    ShortStep(chk, v, k);
  }

  lemma WordOfInt(w: bv32)
    requires w < 32
    ensures Word(w as int) == w
  {}

  lemma DigitWords(pm: bv32)
    ensures |Words(ChecksumSymbols(pm))| == 6
    ensures Words(ChecksumSymbols(pm))[0] == (pm >> 25) & 31
    ensures Words(ChecksumSymbols(pm))[1] == (pm >> 20) & 31
    ensures Words(ChecksumSymbols(pm))[2] == (pm >> 15) & 31
    ensures Words(ChecksumSymbols(pm))[3] == (pm >> 10) & 31
    ensures Words(ChecksumSymbols(pm))[4] == (pm >> 5) & 31
    ensures Words(ChecksumSymbols(pm))[5] == pm & 31
  {
    WordOfInt((pm >> 25) & 31);
    WordOfInt((pm >> 20) & 31);
    WordOfInt((pm >> 15) & 31);
    WordOfInt((pm >> 10) & 31);
    WordOfInt((pm >> 5) & 31);
    WordOfInt(pm & 31);
    hide Word;
  }

  lemma RunNothing(chk: bv32, w: seq<bv32>)
    ensures Run(chk, w[..0]) == chk
  {}

  lemma RunSix(chk: bv32, w: seq<bv32>)
    requires |w| == 6
    ensures Run(chk, w) == Step(Step(Step(Step(Step(Step(chk, w[0]), w[1]), w[2]), w[3]), w[4]), w[5])
  {
    hide *;
    RunNothing(chk, w);
    RunExtend(chk, w, 0);
    RunExtend(chk, w, 1);
    RunExtend(chk, w, 2);
    RunExtend(chk, w, 3);
    RunExtend(chk, w, 4);
    RunExtend(chk, w, 5);
    assert w[..6] == w;
  }

  lemma SixSteps(a: bv32, b: bv32, c: bv32, d: bv32, e: bv32, f: bv32)
    requires IsSymbol(a) && IsSymbol(b) && IsSymbol(c) && IsSymbol(d) && IsSymbol(e) && IsSymbol(f)
    ensures Step(Step(Step(Step(Step(Step(0, a), b), c), d), e), f)
         == Append(Append(Append(Append(Append(Append(0, a), b), c), d), e), f)
  {
    EmptyFits();
    hide *;
    AppendStays(0, a, 0);
    var r1 := Append(0, a);
    AppendStays(r1, b, 1);
    var r2 := Append(r1, b);
    AppendStays(r2, c, 2);
    var r3 := Append(r2, c);
    AppendStays(r3, d, 3);
    var r4 := Append(r3, d);
    AppendStays(r4, e, 4);
    LastAppend(Append(r4, e), f);
  }

  lemma EmptyFits()
    ensures Fits(0, 0)
  {}

  lemma LastAppend(chk: bv32, v: bv32)
    requires Fits(chk, 5) && IsSymbol(v)
    ensures Step(chk, v) == Append(chk, v)
  {
    AppendStep(chk, v);
  }

  lemma DigitsAreSymbols(pm: bv32)
    ensures IsSymbol((pm >> 25) & 31) && IsSymbol((pm >> 20) & 31) && IsSymbol((pm >> 15) & 31)
    ensures IsSymbol((pm >> 10) & 31) && IsSymbol((pm >> 5) & 31) && IsSymbol(pm & 31)
  {}

  /** Feeding a word's six digits to an empty register yields the word. */
  lemma RunDigits(pm: bv32)
    requires pm < 0x4000_0000
    ensures Run(0, Words(ChecksumSymbols(pm))) == pm
  {
    DigitsReassemble(pm);
    DigitsAreSymbols(pm);
    DigitWords(pm);
    hide *;
    var a, b, c, d, e, f := (pm >> 25) & 31, (pm >> 20) & 31, (pm >> 15) & 31, (pm >> 10) & 31, (pm >> 5) & 31, pm & 31;
    RunSix(0, Words(ChecksumSymbols(pm)));
    SixSteps(a, b, c, d, e, f);
  }

  lemma WordsAppend(xs: seq<byte>, ys: seq<byte>)
    ensures Words(xs + ys) == Words(xs) + Words(ys)
  {}

  lemma PolymodRange(values: seq<byte>)
    ensures InRegister(PolymodOf(values))
  {
    var w := Words(values);
    if w == [] {
      assert InRegister(1);
      hide InRegister, Step;
    } else {
      var last := values[|values| - 1];
      SmallWord(last);
      StepRange(Run(1, w[..|w| - 1]), Word(last));
      hide InRegister, Step, Word;
    }
  }

  lemma SmallWord(v: byte)
    ensures Word(v) < 256
    ensures v < 32 ==> IsSymbol(Word(v))
  {}

  lemma PolymodSplit(values: seq<byte>, tail: seq<byte>)
    ensures PolymodOf(values + tail) == Run(PolymodOf(values), Words(tail))
  {
    hide Step, Word, Words;
    WordsAppend(values, tail);
    RunAppend(1, Words(values), Words(tail));
  }

  lemma ZeroWords()
    ensures |Words(SIX_ZEROS)| == 6 && AllZero(Words(SIX_ZEROS))
  {}

  lemma XorWithZeros(zeros: seq<bv32>, xs: seq<bv32>)
    requires |zeros| == |xs| && AllZero(zeros)
    ensures XorSeq(zeros, xs) == xs
  {
    forall i | 0 <= i < |xs| ensures XorSeq(zeros, xs)[i] == xs[i] {
      assert IsZero(zeros[i]);
      XorUnits(xs[i]);
    }
  }

  lemma XorCancel(x: bv32)
    ensures Xor(x, Xor(x, 1)) == 1
    ensures InRegister(x) ==> Xor(x, 1) < 0x4000_0000
  {}

  /** Appending the created checksum always verifies. */
  lemma CreatedChecksumVerifies(hrp: seq<byte>, data: seq<byte>)
    ensures |ChecksumOf(hrp, data)| == 6 && Symbols(ChecksumOf(hrp, data))
    ensures Verifies(hrp, data + ChecksumOf(hrp, data))
  {
    var v, s := HrpExpansion(hrp) + data, ChecksumOf(hrp, data);
    assert HrpExpansion(hrp) + (data + s) == v + s;
    PolymodSplit(v, SIX_ZEROS);
    PolymodSplit(v, s);
    ZeroWords();
    PolymodRange(v + SIX_ZEROS);
    var r, zeros := PolymodOf(v), Words(SIX_ZEROS);
    var x := PolymodOf(v + SIX_ZEROS);
    XorCancel(x);
    RunDigits(Xor(x, 1));
    WordsShape(s);
    hide *;
    XorWithZeros(zeros, Words(s));
    XorUnits(r);
    RunLinear(r, 0, zeros, Words(s));
  }

  // ---------------------------------------------------------------- error detection

  /** x and y differ, and only inside the six positions starting at `at`. */
  ghost predicate DifferInBurst(x: seq<byte>, y: seq<byte>, at: nat) {
    |x| == |y| && x != y && forall i :: 0 <= i < |x| && !(at <= i < at + 6) ==> x[i] == y[i]
  }

  lemma XorZero(a: bv32, b: bv32)
    ensures IsZero(Xor(a, b)) <==> a == b
  {
    XorAssoc(a, a, b);
    XorUnits(a);
    XorUnits(b);
    hide Xor;
  }

  lemma XorOfSymbolWords(u: bv32, v: bv32)
    requires IsSymbol(u) && IsSymbol(v)
    ensures IsSymbol(Xor(u, v))
  {}

  lemma WordBack(a: byte)
    requires a < 32
    ensures Word(a) as int == a && IsSymbol(Word(a))
  {}

  lemma XorOfSymbols(a: byte, b: byte)
    requires a < 32 && b < 32
    ensures IsSymbol(Xor(Word(a), Word(b)))
    ensures IsZero(Xor(Word(a), Word(b))) <==> a == b
  {
    WordBack(a);
    WordBack(b);
    hide *;
    XorOfSymbolWords(Word(a), Word(b));
    XorZero(Word(a), Word(b));
  }

  ghost function Difference(x: seq<byte>, y: seq<byte>): (d: seq<bv32>)
    requires |x| == |y|
    ensures |d| == |x|
  {
    XorSeq(Words(x), Words(y))
  }

  lemma DifferenceAt(x: seq<byte>, y: seq<byte>, i: nat)
    requires |x| == |y| && i < |x| && x[i] < 32 && y[i] < 32
    ensures IsSymbol(Difference(x, y)[i])
    ensures IsZero(Difference(x, y)[i]) <==> x[i] == y[i]
  {
    XorOfSymbols(x[i], y[i]);
  }

  lemma EmptyRegister()
    ensures InRegister(0) && IsZero(0)
  {}

  /** Up to six symbols, not all zero, leave an empty register nonzero. */
  lemma WindowSurvives(w: seq<bv32>, k: nat)
    requires |w| <= 6 && (forall i :: 0 <= i < |w| ==> IsSymbol(w[i])) && k < |w| && !IsZero(w[k])
    ensures !IsZero(Run(0, w)) && InRegister(Run(0, w))
  {
    hide *;
    ShortRun(w, |w|);
    assert w[..|w|] == w;
    FitsRegister(Run(0, w), |w|);
  }

  lemma RunThree(chk: bv32, x: seq<bv32>, y: seq<bv32>, z: seq<bv32>)
    ensures Run(chk, x + y + z) == Run(Run(Run(chk, x), y), z)
  {
    hide *;
    RunAppend(chk, x, y);
    RunAppend(chk, x + y, z);
  }

  lemma ZerosChangeNothing(zeros: seq<bv32>)
    requires AllZero(zeros)
    ensures Run(0, zeros) == 0
  {
    hide *;
    EmptyRegister();
    RunZeros(0, zeros);
    ZeroRegister(Run(0, zeros));
  }

  lemma PaddedWindowSurvives(before: seq<bv32>, w: seq<bv32>, after: seq<bv32>, k: nat)
    requires AllZero(before) && AllZero(after)
    requires |w| <= 6 && (forall i :: 0 <= i < |w| ==> IsSymbol(w[i])) && k < |w| && !IsZero(w[k])
    ensures !IsZero(Run(0, before + w + after))
  {
    hide *;
    WindowSurvives(w, k);
    ZerosChangeNothing(before);
    RunThree(0, before, w, after);
    RunZeros(Run(0, w), after);
  }

  /** A difference confined to six symbols reaches the end of the register: nothing feeds back while
      it enters, and every later step is injective. */
  lemma BurstSurvives(d: seq<bv32>, a: nat, b: nat)
    requires a <= b <= |d| && b - a <= 6
    requires AllZero(d[..a]) && AllZero(d[b..])
    requires forall i :: a <= i < b ==> IsSymbol(d[i])
    requires exists i :: a <= i < b && !IsZero(d[i])
    ensures !IsZero(Run(0, d))
  {
    hide *;
    var i :| a <= i < b && !IsZero(d[i]);
    assert d[a..b][i - a] == d[i];
    PaddedWindowSurvives(d[..a], d[a..b], d[b..], i - a);
    assert d == d[..a] + d[a..b] + d[b..];
  }

  lemma FitsRegister(v: bv32, k: nat)
    requires k <= 6 && Fits(v, k)
    ensures InRegister(v)
  {}

  lemma ZeroRegister(v: bv32)
    ensures IsZero(v) <==> v == 0
  {}

  /** Two symbol sequences of one length that differ only within six consecutive positions never
      share a checksum register. */
  lemma BurstChangesPolymod(x: seq<byte>, y: seq<byte>, at: nat)
    requires Symbols(x) && Symbols(y) && DifferInBurst(x, y, at)
    ensures PolymodOf(x) != PolymodOf(y)
  {
    var d := Difference(x, y);
    var a, b := Min(at, |x|), Min(at + 6, |x|);
    forall i | 0 <= i < |x|
      ensures IsSymbol(d[i]) && (IsZero(d[i]) <==> x[i] == y[i])
    {
      DifferenceAt(x, y, i);
    }
    var i :| 0 <= i < |x| && x[i] != y[i];
    assert !IsZero(d[i]);
    BurstSurvives(d, a, b);
    RunLinear(1, 1, Words(x), Words(y));
    XorUnits(1);
    XorZero(PolymodOf(x), PolymodOf(y));
  }

  /** No two data parts that differ only in a burst of six symbols both verify under one HRP. */
  lemma BurstDetected(hrp: seq<byte>, x: seq<byte>, y: seq<byte>, at: nat)
    requires Symbols(x) && Symbols(y) && DifferInBurst(x, y, at)
    ensures !(Verifies(hrp, x) && Verifies(hrp, y))
  {
    var e := HrpExpansion(hrp);
    forall i | 0 <= i < |e + x| && !(|e| + at <= i < |e| + at + 6)
      ensures (e + x)[i] == (e + y)[i]
    {
      if i >= |e| {
        assert x[i - |e|] == y[i - |e|];
      }
    }
    assert (e + x)[|e|..] == x && (e + y)[|e|..] == y;
    BurstChangesPolymod(e + x, e + y, |e| + at);
  }

  /** The six symbols of `ChecksumOf` are the only six that verify. */
  lemma ChecksumUnique(hrp: seq<byte>, data: seq<byte>, checksum: seq<byte>)
    requires Symbols(data) && Symbols(checksum) && |checksum| == 6
    ensures Verifies(hrp, data + checksum) <==> checksum == ChecksumOf(hrp, data)
  {
    var created := ChecksumOf(hrp, data);
    CreatedChecksumVerifies(hrp, data);
    if checksum != created {
      assert (data + checksum)[|data|..] == checksum && (data + created)[|data|..] == created;
      BurstDetected(hrp, data + checksum, data + created, |data|);
    }
  }
}
