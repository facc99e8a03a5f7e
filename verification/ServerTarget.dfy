/** Server ids in SRV targets: a first DNS label of the form s-<decimal>. */
module ServerTarget {
  import opened Prelude
  import opened Bech32

  predicate IsDigit(c: char) { '0' <= c <= '9' }

  function DigitOf(c: char): nat
    requires IsDigit(c)
  {
    c as int - '0' as int
  }

  function DigitChar(d: nat): (c: char)
    requires d < 10
    ensures IsDigit(c) && DigitOf(c) == d
  {
    ('0' as int + d) as char
  }

  function Decimal(n: nat): string {
    if n < 10 then [DigitChar(n)] else Decimal(n / 10) + [DigitChar(n % 10)]
  }

  predicate AllDigits(s: string) {
    forall k :: 0 <= k < |s| ==> IsDigit(s[k])
  }

  function FromDecimal(s: string): nat
    requires AllDigits(s)
  {
    if s == [] then 0 else 10 * FromDecimal(s[..|s| - 1]) + DigitOf(s[|s| - 1])
  }

  /** A decimal numeral without needless leading zeros. */
  predicate Canonical(s: string) {
    s != [] && AllDigits(s) && (|s| > 1 ==> s[0] != '0')
  }

  lemma {:induction false} DecimalIsCanonical(n: nat)
    ensures Canonical(Decimal(n)) && FromDecimal(Decimal(n)) == n
    ensures n > 0 ==> Decimal(n)[0] != '0'
  {
    if n >= 10 {
      DecimalIsCanonical(n / 10);
      var s := Decimal(n);
      assert s[..|s| - 1] == Decimal(n / 10);
    }
  }

  lemma {:induction false} CanonicalIsDecimal(s: string)
    requires Canonical(s)
    ensures Decimal(FromDecimal(s)) == s
    ensures s[0] != '0' ==> FromDecimal(s) > 0
  {
    var front, d := s[..|s| - 1], DigitOf(s[|s| - 1]);
    if front == [] {
      assert FromDecimal(s) == d && s == [DigitChar(d)];
    } else {
      assert front[0] == s[0];
      CanonicalIsDecimal(front);
      var n := FromDecimal(front);
      assert (10 * n + d) / 10 == n && (10 * n + d) % 10 == d;
      assert s == front + [DigitChar(d)];
    }
  }

  function TrimDots(s: string): string {
    if s != [] && s[|s| - 1] == '.' then TrimDots(s[..|s| - 1]) else s
  }

  /** The text in front of the first dot, or all of it. */
  function FirstLabel(s: string): string {
    if s == [] || s[0] == '.' then [] else [s[0]] + FirstLabel(s[1..])
  }

  function ParseServerId(target: string): Option<u64> {
    var lower := Lower(FirstLabel(TrimDots(target)));
    if !("s-" <= lower) then None
    else
      var decimal := lower[2..];
      if decimal == [] then None
      else if |decimal| > 1 && decimal[0] == '0' then None
      else if !AllDigits(decimal) then None
      else if FromDecimal(decimal) > U64_MAX then None
      else Some(FromDecimal(decimal))
  }

  lemma {:induction false} LabelBeforeDot(s: string)
    ensures s != [] && s[|s| - 1] == '.' ==> FirstLabel(s[..|s| - 1]) == FirstLabel(s)
    decreases |s|
  {
    if |s| > 1 && s[0] != '.' {
      LabelBeforeDot(s[1..]);
      assert s[1..][..|s| - 2] == s[..|s| - 1][1..];
    }
  }

  lemma {:induction false} TrimKeepsLabel(s: string)
    ensures FirstLabel(TrimDots(s)) == FirstLabel(s)
    decreases |s|
  {
    if s != [] && s[|s| - 1] == '.' {
      TrimKeepsLabel(s[..|s| - 1]);
      LabelBeforeDot(s);
    }
  }

  /** A target names server n exactly when its first label is s- and the decimal numeral of n, in either
      case of the letter; so no two ids share a label and every 64-bit id has one. */
  lemma ServerIdLabel(target: string, n: u64)
    ensures ParseServerId(target) == Some(n) <==> Lower(FirstLabel(target)) == "s-" + Decimal(n)
  {
    TrimKeepsLabel(target);
    DecimalIsCanonical(n);
    var lower := Lower(FirstLabel(target));
    var expected := "s-" + Decimal(n);
    assert expected[..2] == "s-" && expected[2..] == Decimal(n);
    if ParseServerId(target) == Some(n) {
      CanonicalIsDecimal(lower[2..]);
      assert lower == "s-" + lower[2..];
    }
  }
}
