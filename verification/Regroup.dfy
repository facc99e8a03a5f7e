/** Regrouping a big-endian bit string from `from`-bit groups to `to`-bit groups. Shifts and masks on
    the unsigned accumulator are written as products, quotients and remainders of powers of two. */
module Regroup {
  import opened Prelude
  import opened Arithmetic

  /** The number whose big-endian `width`-bit digits are `digits`. */
  function Number(digits: seq<byte>, width: nat): nat {
    if digits == [] then 0
    else Shl(Number(digits[..|digits| - 1], width), width) + digits[|digits| - 1]
  }

  function LowDigit(n: nat, width: nat): (d: byte)
    requires width <= 8
    ensures d < Pow2(width)
  {
    PowAtMost256(width);
    Low(n, width)
  }

  /** The last `count` `width`-bit digits of `n`, most significant first. */
  function Digits(n: nat, count: nat, width: nat): (digits: seq<byte>)
    requires width <= 8
    ensures |digits| == count
  {
    if count == 0 then [] else Digits(Shr(n, width), count - 1, width) + [LowDigit(n, width)]
  }

  predicate InWidth(digits: seq<byte>, width: nat) {
    forall i :: 0 <= i < |digits| ==> digits[i] < Pow2(width)
  }

  function BitCount(groups: nat, width: nat): nat { groups * width }

  /** What regrouping computes: the digits of one unbounded number. With padding, zero bits are added
      on the right up to a whole group; without, fewer than a group of zero bits may be left over. */
  function Regrouped(data: seq<byte>, from: nat, to: nat, pad: bool): Option<seq<byte>>
    requires 1 <= from <= 8 && 1 <= to <= 8
  {
    var total, n := BitCount(|data|, from), Number(data, from);
    var whole, rest := total / to, total % to;
    if !InWidth(data, from) then None
    else if pad then
      if rest == 0 then Some(Digits(n, whole, to)) else Some(Digits(Shl(n, to - rest), whole + 1, to))
    else if rest >= from || Low(n, rest) != 0 then None
    else Some(Digits(Shr(n, rest), whole, to))
  }

  lemma PowAtMost256(width: nat)
    requires width <= 8
    ensures 1 <= Pow2(width) <= 256
  {
    SmallPowers();
  }

  lemma PowGroup(count: nat, width: nat)
    requires count > 0
    ensures Pow2(BitCount(count, width)) == Pow2(BitCount(count - 1, width)) * Pow2(width)
  {
    Distribute(count - 1, 1, width);
    PowSum(BitCount(count - 1, width), width);
  }

  // ---------------------------------------------------------------- digits and numbers

  lemma NumberNext(data: seq<byte>, value: byte, width: nat)
    requires InWidth(data, width) && value < Pow2(width)
    ensures Number(data + [value], width) == Shl(Number(data, width), width) + value
    ensures InWidth(data + [value], width)
    ensures BitCount(|data + [value]|, width) == BitCount(|data|, width) + width
  {
    hide Shl, Pow2;
    assert (data + [value])[..|data|] == data;
    Distribute(|data|, 1, width);
  }

  lemma {:induction false} DigitsOfNumber(digits: seq<byte>, width: nat)
    requires width <= 8 && InWidth(digits, width)
    ensures Digits(Number(digits, width), |digits|, width) == digits
  {
    if digits != [] {
      var n := |digits| - 1;
      DigitsOfNumber(digits[..n], width);
      Divided(Number(digits[..n], width), Pow2(width), digits[n]);
    }
  }

  lemma {:induction false} NumberOfDigits(n: nat, count: nat, width: nat)
    requires width <= 8 && n < Pow2(BitCount(count, width))
    ensures Number(Digits(n, count, width), width) == n
    ensures InWidth(Digits(n, count, width), width)
    decreases count
  {
    hide BitCount, Pow2, Shl, Shr, Low, Number, InWidth, LowDigit;
    if count == 0 {
      NoDigits(width);
    } else {
      HighDigits(n, count, width);
      NumberOfDigits(Shr(n, width), count - 1, width);
      NumberStep(Digits(Shr(n, width), count - 1, width), n, width);
    }
  }

  lemma NoDigits(width: nat)
    ensures Pow2(BitCount(0, width)) == 1 && Number([], width) == 0 && InWidth([], width)
  {}

  lemma NumberStep(front: seq<byte>, n: nat, width: nat)
    requires width <= 8 && InWidth(front, width) && Number(front, width) == Shr(n, width)
    ensures Number(front + [LowDigit(n, width)], width) == n && InWidth(front + [LowDigit(n, width)], width)
  {
    NumberNext(front, LowDigit(n, width), width);
    ShiftBack(n, width);
    hide Number, InWidth, Shl, Shr, Low, Pow2;
  }

  lemma HighDigits(n: nat, count: nat, width: nat)
    requires count > 0 && n < Pow2(BitCount(count, width))
    ensures Shr(n, width) < Pow2(BitCount(count - 1, width))
  {
    PowGroup(count, width);
    hide Pow2, BitCount;
    DivBelow(n, Pow2(width), Pow2(BitCount(count - 1, width)));
  }

  lemma ShiftBack(n: nat, width: nat)
    ensures Shl(Shr(n, width), width) + Low(n, width) == n
  {
    DivMod(n, Pow2(width));
    hide Pow2;
  }

  lemma {:induction false} NumberBound(digits: seq<byte>, width: nat)
    requires InWidth(digits, width)
    ensures Number(digits, width) < Pow2(BitCount(|digits|, width))
  {
    if digits != [] {
      var n := |digits| - 1;
      NumberBound(digits[..n], width);
      var hi, m := Number(digits[..n], width), Pow2(width);
      PowGroup(|digits|, width);
      MulMono(hi + 1, Pow2(BitCount(n, width)), m);
      Distribute(hi, 1, m);
    }
  }

  // ---------------------------------------------------------------- the loops

  /** The accumulator keeps the low `from + to - 1` bits of the number read so far. */
  lemma ShiftIn(n: nat, acc: nat, v: byte, from: nat, keep: nat)
    requires acc == Low(n, keep)
    ensures Low(Shl(acc, from) + v, keep) == Low(Shl(n, from) + v, keep)
  {
    ModShiftIn(n, Pow2(keep), Pow2(from), v);
  }

  lemma ShiftOut(n: nat, v: byte, from: nat, bits: nat)
    requires v < Pow2(from)
    ensures Shr(Shl(n, from) + v, bits + from) == Shr(n, bits)
  {
    PowSum(from, bits);
    DivDiv(Shl(n, from) + v, Pow2(from), Pow2(bits));
    Divided(n, Pow2(from), v);
  }

  /** The group emitted from the accumulator is a group of the unbounded number. */
  lemma EmitGroup(n: nat, acc: nat, bits: nat, to: nat, keep: nat)
    requires bits + to <= keep && acc == Low(n, keep)
    ensures Low(Shr(acc, bits), to) == Low(Shr(n, bits), to)
    ensures Shl(Shr(n, bits + to), to) + Low(Shr(n, bits), to) == Shr(n, bits)
  {
    PowSum(bits, keep - bits);
    ModKeepsLow(n, Pow2(bits), Pow2(keep - bits));
    PowSum(to, keep - bits - to);
    ModKeepsLow(Shr(n, bits), Pow2(to), Pow2(keep - bits - to));
    PowSum(bits, to);
    DivDiv(n, Pow2(bits), Pow2(to));
    DivMod(Shr(n, bits), Pow2(to));
  }

  lemma ScaledRemainder(x: nat, a: nat, b: nat)
    requires a > 0 && b > 0
    ensures b * a > 0 && (x * a) % (b * a) == (x % b) * a
    ensures (x / b) * (b * a) + (x % b) * a == x * a
  {
    var q, r := x / b, x % b;
    DivMod(x, b);
    hide *;
    MulMono(1, b, a);
    var m := b * a;
    MulAssoc(q, b, a);
    Distribute(q * b, r, a);
    assert x * a == q * m + r * a;
    MulMono(r, b - 1, a);
    Distribute(b, 1, a);
    Divided(q, m, r * a);
  }

  /** The bits left in the accumulator, moved to the top of a group. */
  lemma LastGroup(n: nat, acc: nat, bits: nat, to: nat, keep: nat)
    requires bits <= to && bits <= keep && acc == Low(n, keep)
    ensures Low(Shl(acc, to - bits), to) == Shl(Low(n, bits), to - bits)
    ensures Shl(Shr(n, bits), to) + Shl(Low(n, bits), to - bits) == Shl(n, to - bits)
  {
    PowSum(bits, keep - bits);
    ModKeepsLow(n, Pow2(bits), Pow2(keep - bits));
    PowSum(bits, to - bits);
    ScaledRemainder(acc, Pow2(to - bits), Pow2(bits));
    ScaledRemainder(n, Pow2(to - bits), Pow2(bits));
  }

  ghost predicate Emitted(out: seq<byte>, n: nat, bits: nat, total: nat, to: nat) {
    InWidth(out, to) && Number(out, to) == Shr(n, bits) && BitCount(|out|, to) + bits == total
  }

  lemma EmitStep(out: seq<byte>, group: byte, n: nat, bits: nat, total: nat, to: nat)
    requires Emitted(out, n, bits + to, total, to)
    requires group == Low(Shr(n, bits), to)
    requires Shl(Shr(n, bits + to), to) + group == Shr(n, bits)
    ensures Emitted(out + [group], n, bits, total, to)
  {
    assert (out + [group])[..|out|] == out;
    Distribute(|out|, 1, to);
  }

  /** What the outer loop knows after `data` has been read: the low bits of its number are in the
      accumulator, and all but the last `bits` bits have been emitted. */
  ghost predicate Pending(data: seq<byte>, acc: nat, bits: nat, out: seq<byte>, from: nat, to: nat)
    requires 1 <= from <= 8 && 1 <= to <= 8
  {
    && InWidth(data, from)
    && acc == Low(Number(data, from), from + to - 1)
    && Emitted(out, Number(data, from), bits, BitCount(|data|, from), to)
  }

  lemma EmittedShift(out: seq<byte>, n: nat, bits: nat, total: nat, to: nat, next: nat, more: nat)
    requires Emitted(out, n, bits, total, to) && Shr(next, bits + more) == Shr(n, bits)
    ensures Emitted(out, next, bits + more, total + more, to)
  {
    hide Number, InWidth, BitCount, Shr;
  }

  lemma PendingNext(data: seq<byte>, value: byte, acc: nat, bits: nat, out: seq<byte>, from: nat, to: nat)
    requires 1 <= from <= 8 && 1 <= to <= 8
    requires Pending(data, acc, bits, out, from, to) && value < Pow2(from)
    ensures Pending(data + [value], Low(Shl(acc, from) + value, from + to - 1), bits + from, out, from, to)
  {
    hide Number, InWidth, BitCount, Low, Shl, Shr, Pow2, Emitted;
    NumberNext(data, value, from);
    ShiftIn(Number(data, from), acc, value, from, from + to - 1);
    ShiftOut(Number(data, from), value, from, bits);
    EmittedShift(out, Number(data, from), bits, BitCount(|data|, from), to, Number(data + [value], from), from);
  }

  /** The inner loop: emit every whole group that is pending. */
  method EmitGroups(ghost data: seq<byte>, acc: u32, bits: byte, out: seq<byte>, ghost from: nat, to: nat)
    returns (left: byte, emitted: seq<byte>)
    requires 1 <= from <= 8 && 1 <= to <= 8 && bits <= from + to - 1
    requires Pending(data, acc, bits, out, from, to)
    ensures left < to && Pending(data, acc, left, emitted, from, to)
  {
    left, emitted := bits, out;
    while left >= to
      invariant left <= from + to - 1
      invariant Pending(data, acc, left, emitted, from, to)
    {
      left := left - to;
      ghost var n := Number(data, from);
      EmitGroup(n, acc, left, to, from + to - 1);
      EmitStep(emitted, LowDigit(Shr(acc, left), to), n, left, BitCount(|data|, from), to);
      emitted := emitted + [LowDigit(Shr(acc, left), to)];
    }
  }

  lemma NothingPending(from: nat, to: nat)
    requires 1 <= from <= 8 && 1 <= to <= 8
    ensures Pending([], 0, 0, [], from, to)
  {
    Divided(0, Pow2(from + to - 1), 0);
    Divided(0, Pow2(0), 0);
    assert BitCount(0, from) == BitCount(0, to) == 0;
  }

  /** The digits after the loop, without and with a last padded group. */
  lemma Finished(data: seq<byte>, acc: nat, bits: nat, out: seq<byte>, from: nat, to: nat)
    requires 1 <= from <= 8 && 1 <= to <= 8 && bits < to
    requires Pending(data, acc, bits, out, from, to)
    ensures InWidth(data, from)
    ensures BitCount(|data|, from) / to == |out| && BitCount(|data|, from) % to == bits
    ensures Digits(Shr(Number(data, from), bits), |out|, to) == out
    ensures Shr(Number(data, from), 0) == Number(data, from)
    ensures LowDigit(Shl(acc, to - bits), to) == 0 <==> Low(Number(data, from), bits) == 0
    ensures Digits(Shl(Number(data, from), to - bits), |out| + 1, to) == out + [LowDigit(Shl(acc, to - bits), to)]
  {
    var n := Number(data, from);
    CountsSplit(BitCount(|data|, from), |out|, bits, to);
    ShiftByZero(n);
    PaddedGroup(n, acc, bits, out, to, from + to - 1);
    hide Shl, Shr, Low, Pow2, BitCount;
    DigitsOfNumber(out, to);
    hide Number, InWidth, Digits, LowDigit;
  }

  lemma CountsSplit(total: nat, groups: nat, bits: nat, to: nat)
    requires bits < to && BitCount(groups, to) + bits == total
    ensures total / to == groups && total % to == bits
  {
    Divided(groups, to, bits);
  }

  lemma PaddedGroup(n: nat, acc: nat, bits: nat, out: seq<byte>, to: nat, keep: nat)
    requires bits <= to <= 8 && bits <= keep && acc == Low(n, keep)
    requires InWidth(out, to) && Number(out, to) == Shr(n, bits)
    ensures LowDigit(Shl(acc, to - bits), to) == 0 <==> Low(n, bits) == 0
    ensures Digits(Shl(n, to - bits), |out| + 1, to) == out + [LowDigit(Shl(acc, to - bits), to)]
  {
    var last := LowDigit(Shl(acc, to - bits), to);
    LastGroup(n, acc, bits, to, keep);
    ZeroShift(Low(n, bits), to - bits);
    NumberNext(out, last, to);
    DigitsOfNumber(out + [last], to);
    hide Number, InWidth, Digits, Pow2, Shl, Shr, Low;
  }

  lemma ZeroShift(n: nat, k: nat)
    ensures Shl(n, k) == 0 <==> n == 0
  {
    ZeroProduct(n, Pow2(k));
  }

  lemma ZeroProduct(a: nat, b: nat)
    requires b > 0
    ensures a * b == 0 <==> a == 0
  {}

  /** Shifting the masked accumulator stays far inside 32 bits. */
  lemma ShiftFits(acc: nat, keep: nat, shift: nat)
    requires acc < Pow2(keep) && keep <= 15 && shift <= 8
    ensures Shl(acc, shift) + 255 <= U32_MAX
  {
    PowAtMost256(shift);
    Pow15(keep);
    hide Pow2;
    MulMono(acc, 0x8000, Pow2(shift));
    MulMono(Pow2(shift), 256, 0x8000);
  }

  lemma Pow15(k: nat)
    requires k <= 15
    ensures Pow2(k) <= 0x8000
  {
    PowSum(k, 15 - k);
    PowSum(7, 8);
    SmallPowers();
    hide Pow2;
    MulMono(1, Pow2(15 - k), Pow2(k));
  }

  method ConvertBits(data: seq<byte>, from: nat, to: nat, pad: bool) returns (r: Option<seq<byte>>)
    requires 1 <= from <= 8 && 1 <= to <= 8
    ensures r == Regrouped(data, from, to, pad)
  {
    hide Pending, Number, Digits, Shl, Shr, Low, LowDigit, BitCount, Pow2;
    var acc: u32, bits: byte, out: seq<byte> := 0, 0, [];
    NothingPending(from, to);
    assert data[..0] == [];
    for k := 0 to |data|
      invariant bits < to && acc < Pow2(from + to - 1) && Pending(data[..k], acc, bits, out, from, to)
    {
      if data[k] >= Pow2(from) {
        return None;
      }
      PendingNext(data[..k], data[k], acc, bits, out, from, to);
      assert data[..k + 1] == data[..k] + [data[k]];
      ShiftFits(acc, from + to - 1, from);
      Pow15(from + to - 1);
      var shifted: u32 := Shl(acc, from) + data[k];
      var pending: byte := bits + from;
      acc := Low(shifted, from + to - 1);
      bits, out := EmitGroups(data[..k + 1], acc, pending, out, from, to);
    }
    assert data[..|data|] == data;
    Finished(data, acc, bits, out, from, to);
    ShiftFits(acc, from + to - 1, to - bits);
    var padded: u32 := Shl(acc, to - bits);
    if pad {
      if bits > 0 {
        out := out + [LowDigit(padded, to)];
      }
    } else {
      if bits >= from {
        return None;
      }
      if LowDigit(padded, to) != 0 {
        return None;
      }
    }
    r := Some(out);
  }

  // ---------------------------------------------------------------- the two directions invert each other

  lemma ShiftedOut(n: nat, k: nat)
    ensures Shr(Shl(n, k), k) == n && Low(Shl(n, k), k) == 0
  {
    Divided(n, Pow2(k), 0);
  }

  lemma ShiftedBound(n: nat, k: nat, p: nat)
    ensures n < Pow2(k) ==> Shl(n, p) < Pow2(k + p)
    ensures n < Pow2(k + p) ==> Shr(n, p) < Pow2(k)
  {
    PowSum(k, p);
    if n < Pow2(k) {
      MulMono(n + 1, Pow2(k), Pow2(p));
      Distribute(n, 1, Pow2(p));
    }
    if n < Pow2(k + p) {
      DivBelow(n, Pow2(p), Pow2(k));
    }
  }

  lemma BytesFit(data: seq<byte>)
    ensures InWidth(data, 8)
  {
    SmallPowers();
  }

  lemma ShiftByZero(n: nat)
    ensures Shl(n, 0) == n && Shr(n, 0) == n
  {}

  lemma Rejoin(n: nat, k: nat)
    requires Low(n, k) == 0
    ensures Shl(Shr(n, k), k) == n
  {
    DivMod(n, Pow2(k));
  }

  lemma GroupCounts(k: nat, m: nat, p: nat)
    requires 8 * k + p == 5 * m
    ensures p < 8 ==> BitCount(m, 5) / 8 == k && BitCount(m, 5) % 8 == p
    ensures p == 0 ==> BitCount(k, 8) / 5 == m && BitCount(k, 8) % 5 == 0
    ensures 0 < p < 5 ==> BitCount(k, 8) / 5 == m - 1 && BitCount(k, 8) % 5 == 5 - p
    ensures BitCount(m, 5) == BitCount(k, 8) + p
  {}

  /** Regrouping to five bits with padding and back without gives back every byte sequence. */
  lemma FiveBitsRoundTrip(data: seq<byte>)
    ensures var packed := Regrouped(data, 8, 5, true);
            packed.Some? && InWidth(packed.value, 5) && Regrouped(packed.value, 5, 8, false) == Some(data)
  {
    hide Number, Digits, Shl, Shr, Low, InWidth, BitCount;
    var k, n := |data|, Number(data, 8);
    var m := (8 * k + 4) / 5;
    var p := 5 * m - 8 * k;
    GroupCounts(k, m, p);
    BytesFit(data);
    NumberBound(data, 8);
    ShiftedBound(n, BitCount(k, 8), p);
    ShiftByZero(n);
    NumberOfDigits(Shl(n, p), m, 5);
    ShiftedOut(n, p);
    DigitsOfNumber(data, 8);
  }

  /** Every accepted five-bit sequence is exactly the regrouping of the bytes it decodes to. */
  lemma FiveBitsCanonical(five: seq<byte>)
    requires Regrouped(five, 5, 8, false).Some?
    ensures Regrouped(Regrouped(five, 5, 8, false).value, 8, 5, true) == Some(five)
  {
    hide Number, Digits, Shl, Shr, Low, InWidth, BitCount;
    var m, n := |five|, Number(five, 5);
    var k, p := 5 * m / 8, 5 * m % 8;
    GroupCounts(k, m, p);
    var data := Digits(Shr(n, p), k, 8);
    BytesFit(data);
    NumberBound(five, 5);
    ShiftedBound(n, BitCount(k, 8), p);
    NumberOfDigits(Shr(n, p), k, 8);
    ShiftByZero(n);
    Rejoin(n, p);
    DigitsOfNumber(five, 5);
  }

  // ---------------------------------------------------------------- regrouping keeps the bit string

  /** Bit e of a number, counted from the least significant. */
  function Bit(n: nat, e: nat): nat {
    Shr(n, e) % 2
  }

  /** Bit j of a string of groups, counted from the front, the most significant bit of each group first. */
  function BitAt(groups: seq<byte>, width: nat, j: nat): nat
    requires width > 0 && j < BitCount(|groups|, width)
  {
    IndexInside(j, |groups|, width);
    Bit(groups[j / width], width - 1 - j % width)
  }

  lemma IndexInside(j: nat, count: nat, width: nat)
    requires width > 0 && j < BitCount(count, width)
    ensures j / width < count && j % width < width
  {
    DivBelow(j, width, count);
  }

  lemma BitBelowShift(n: nat, k: nat, v: nat, e: nat)
    requires e < k
    ensures Bit(Shl(n, k) + v, e) == Bit(v, e)
  {
    HalfShift(n, k - e);
    PowSum(k - e, e);
    MulAssoc(n, Pow2(k - e), Pow2(e));
    var high := Shl(n, k - e);
    assert Shl(n, k) == high * Pow2(e);
    hide Pow2, Shl;
    QuotientParity(high, Pow2(e), v);
  }

  lemma BitAboveShift(n: nat, k: nat, v: nat, e: nat)
    requires v < Pow2(k) && e >= k
    ensures Bit(Shl(n, k) + v, e) == Bit(n, e - k)
  {
    PowSum(k, e - k);
    hide Pow2;
    DivDiv(Shl(n, k) + v, Pow2(k), Pow2(e - k));
    Divided(n, Pow2(k), v);
  }

  /** Below a shift the bits are those of what is added, above it those of the shifted number. */
  lemma BitOfShifted(n: nat, k: nat, v: nat, e: nat)
    requires v < Pow2(k)
    ensures e < k ==> Bit(Shl(n, k) + v, e) == Bit(v, e)
    ensures e >= k ==> Bit(Shl(n, k) + v, e) == Bit(n, e - k)
  {
    hide Bit, Shl, Pow2;
    if e < k {
      BitBelowShift(n, k, v, e);
    } else {
      BitAboveShift(n, k, v, e);
    }
  }

  /** The bits of a group string are those of the number it spells. */
  lemma {:induction false} BitOfNumber(groups: seq<byte>, width: nat, j: nat)
    requires width > 0 && InWidth(groups, width) && j < BitCount(|groups|, width)
    ensures Bit(Number(groups, width), BitCount(|groups|, width) - 1 - j) == BitAt(groups, width, j)
    decreases |groups|
  {
    NoBitsInNothing(groups, width);
    NumberLast(groups, width);
    hide Bit, Number, InWidth, BitAt, BitCount, Shl, Pow2;
    var n := |groups| - 1;
    BitOfShifted(Number(groups[..n], width), width, groups[n], BitCount(|groups|, width) - 1 - j);
    if j < BitCount(n, width) {
      BitOfNumber(groups[..n], width, j);
      BitAtFront(groups, width, j);
    } else {
      BitAtLast(groups, width, j);
    }
  }

  lemma NoBitsInNothing(groups: seq<byte>, width: nat)
    ensures groups == [] ==> BitCount(|groups|, width) == 0
  {}

  lemma BitAtFront(groups: seq<byte>, width: nat, j: nat)
    requires width > 0 && groups != [] && j < BitCount(|groups| - 1, width) <= BitCount(|groups|, width)
    ensures BitAt(groups, width, j) == BitAt(groups[..|groups| - 1], width, j)
  {
    IndexInside(j, |groups| - 1, width);
    hide Bit, BitCount;
    assert groups[..|groups| - 1][j / width] == groups[j / width];
  }

  lemma BitAtLast(groups: seq<byte>, width: nat, j: nat)
    requires width > 0 && groups != [] && BitCount(|groups| - 1, width) <= j < BitCount(|groups|, width)
    ensures BitCount(|groups|, width) == BitCount(|groups| - 1, width) + width
    ensures BitAt(groups, width, j) == Bit(groups[|groups| - 1], BitCount(|groups|, width) - 1 - j)
  {
    LastIndex(j, |groups| - 1, width);
    Distribute(|groups| - 1, 1, width);
    assert BitCount(|groups|, width) == BitCount(|groups| - 1, width) + width;
    hide Bit, BitCount;
  }

  lemma NumberLast(groups: seq<byte>, width: nat)
    requires groups != [] && InWidth(groups, width)
    ensures var n := |groups| - 1;
      && Number(groups, width) == Shl(Number(groups[..n], width), width) + groups[n] && groups[n] < Pow2(width)
      && InWidth(groups[..n], width) && BitCount(|groups|, width) == BitCount(n, width) + width
  {
    hide Shl, Pow2;
    Distribute(|groups| - 1, 1, width);
  }

  lemma LastIndex(j: nat, n: nat, width: nat)
    requires width > 0 && BitCount(n, width) <= j < BitCount(n + 1, width)
    ensures j / width == n && j % width == j - BitCount(n, width)
  {
    Distribute(n, 1, width);
    Divided(n, width, j - BitCount(n, width));
  }

  /** What regrouping means bit by bit: the new groups spell the same bits in the same order; with padding they are
      the least that hold all of them, filled up with zeros, and without padding the bits left over are all zero. */
  lemma RegroupedKeepsBits(data: seq<byte>, from: nat, to: nat, pad: bool, j: nat)
    requires 1 <= from <= 8 && 1 <= to <= 8 && Regrouped(data, from, to, pad).Some?
    ensures var out, total := Regrouped(data, from, to, pad).value, BitCount(|data|, from);
      && InWidth(out, to)
      && (pad ==> total <= BitCount(|out|, to) < total + to)
      && (!pad ==> BitCount(|out|, to) <= total < BitCount(|out|, to) + Min(from, to))
      && (j < BitCount(|out|, to) ==> BitAt(out, to, j) == if j < total then BitAt(data, from, j) else 0)
      && (BitCount(|out|, to) <= j < total ==> BitAt(data, from, j) == 0)
  {
    var out, total, n := Regrouped(data, from, to, pad).value, BitCount(|data|, from), Number(data, from);
    RegroupedNumber(data, from, to, pad);
    if j < total {
      BitOfNumber(data, from, j);
    }
    if j < BitCount(|out|, to) {
      BitOfNumber(out, to, j);
    }
    hide Regrouped, Number, BitAt, InWidth, Shl, Shr, Low, Bit, Pow2, BitCount;
    if pad {
      PaddedBit(n, total, BitCount(|out|, to) - total, j);
    } else {
      TrimmedBit(n, total, total % to, j);
    }
  }

  lemma PaddedBit(n: nat, total: nat, p: nat, j: nat)
    ensures j < total ==> Bit(Shl(n, p), total + p - 1 - j) == Bit(n, total - 1 - j)
    ensures total <= j < total + p ==> Bit(Shl(n, p), total + p - 1 - j) == 0
  {
    hide Bit, Shl, Pow2;
    if j < total {
      BitAboveShift(n, p, 0, total + p - 1 - j);
    } else if j < total + p {
      BitBelowShift(n, p, 0, total + p - 1 - j);
      ZeroBit(total + p - 1 - j);
    }
  }

  lemma TrimmedBit(n: nat, total: nat, rest: nat, j: nat)
    requires Low(n, rest) == 0 && rest <= total
    ensures j < total - rest ==> Bit(Shr(n, rest), total - rest - 1 - j) == Bit(n, total - 1 - j)
    ensures total - rest <= j < total ==> Bit(n, total - 1 - j) == 0
  {
    hide Bit, Shr, Low;
    if j < total - rest {
      BitOfShr(n, rest, total - rest - 1 - j);
    } else if j < total {
      LowBitsZero(n, rest, total - 1 - j);
    }
  }

  lemma RegroupedNumber(data: seq<byte>, from: nat, to: nat, pad: bool)
    requires 1 <= from <= 8 && 1 <= to <= 8 && Regrouped(data, from, to, pad).Some?
    ensures var out, total, n := Regrouped(data, from, to, pad).value, BitCount(|data|, from), Number(data, from);
      var rest := total % to;
      && InWidth(data, from) && InWidth(out, to)
      && (pad ==> var p := if rest == 0 then 0 else to - rest;
                  BitCount(|out|, to) == total + p && Number(out, to) == Shl(n, p))
      && (!pad ==> BitCount(|out|, to) == total - rest && Number(out, to) == Shr(n, rest)
                   && rest < from && Low(n, rest) == 0)
  {
    var total, n := BitCount(|data|, from), Number(data, from);
    NumberBound(data, from);
    ShiftByZero(n);
    hide Number, InWidth, Digits, Shl, Shr, Low, Pow2, BitCount;
    if pad {
      PaddedNumber(n, total, to);
    } else {
      TrimmedNumber(n, total, to);
    }
  }

  lemma PaddedNumber(n: nat, total: nat, to: nat)
    requires 1 <= to <= 8 && n < Pow2(total)
    ensures var whole, rest := total / to, total % to;
      var count, p := if rest == 0 then whole else whole + 1, if rest == 0 then 0 else to - rest;
      && BitCount(count, to) == total + p
      && Number(Digits(Shl(n, p), count, to), to) == Shl(n, p) && InWidth(Digits(Shl(n, p), count, to), to)
  {
    var whole, rest := total / to, total % to;
    var count, p := if rest == 0 then whole else whole + 1, if rest == 0 then 0 else to - rest;
    DivMod(total, to);
    Distribute(whole, 1, to);
    assert BitCount(count, to) == total + p;
    ShiftedBound(n, total, p);
    hide Number, InWidth, Digits, Shl, Pow2, BitCount;
    NumberOfDigits(Shl(n, p), count, to);
  }

  lemma TrimmedNumber(n: nat, total: nat, to: nat)
    requires 1 <= to <= 8 && n < Pow2(total)
    ensures var whole, rest := total / to, total % to;
      && BitCount(whole, to) == total - rest
      && Number(Digits(Shr(n, rest), whole, to), to) == Shr(n, rest) && InWidth(Digits(Shr(n, rest), whole, to), to)
  {
    var whole, rest := total / to, total % to;
    DivMod(total, to);
    assert BitCount(whole, to) == total - rest;
    ShiftedBound(n, total - rest, rest);
    hide Number, InWidth, Digits, Shr, Pow2, BitCount;
    NumberOfDigits(Shr(n, rest), whole, to);
  }

  lemma ZeroBit(e: nat)
    ensures Bit(0, e) == 0
  {
    Divided(0, Pow2(e), 0);
  }

  lemma BitOfShr(n: nat, k: nat, e: nat)
    ensures Bit(Shr(n, k), e) == Bit(n, k + e)
  {
    PowSum(k, e);
    DivDiv(n, Pow2(k), Pow2(e));
  }

  lemma LowBitsZero(n: nat, k: nat, e: nat)
    requires Low(n, k) == 0 && e < k
    ensures Bit(n, e) == 0
  {
    Rejoin(n, k);
    BitOfShifted(Shr(n, k), k, 0, e);
    ZeroBit(e);
  }
}
