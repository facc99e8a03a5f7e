/** Little-endian byte strings of unsigned integers. */
module LittleEndian {
  import opened Prelude
  import opened Arithmetic

  function ToLe(n: nat, count: nat): (bytes: seq<byte>)
    ensures |bytes| == count
  {
    if count == 0 then [] else [n % 256] + ToLe(n / 256, count - 1)
  }

  function FromLe(bytes: seq<byte>): nat {
    if bytes == [] then 0 else bytes[0] + 256 * FromLe(bytes[1..])
  }

  lemma {:induction false} FromToLe(n: nat, count: nat)
    requires n < Pow2(8 * count)
    ensures FromLe(ToLe(n, count)) == n
  {
    if count > 0 {
      BytePower(count);
      FromToLe(n / 256, count - 1);
      assert ToLe(n, count)[1..] == ToLe(n / 256, count - 1);
    }
  }

  lemma ToLeStep(low: byte, high: nat, count: nat)
    ensures ToLe(low + 256 * high, count + 1) == [low] + ToLe(high, count)
  {
    assert (low + 256 * high) % 256 == low && (low + 256 * high) / 256 == high;
  }

  lemma {:induction false} ToFromLe(bytes: seq<byte>)
    ensures ToLe(FromLe(bytes), |bytes|) == bytes
    ensures FromLe(bytes) < Pow2(8 * |bytes|)
  {
    if bytes != [] {
      var n := |bytes| - 1;
      FromLeHead(bytes);
      ToFromLe(bytes[1..]);
      BytePower(n + 1);
      ToLeStep(bytes[0], FromLe(bytes[1..]), n);
      hide Pow2, FromLe, ToLe;
      assert bytes == [bytes[0]] + bytes[1..];
    }
  }

  lemma BytePower(count: nat)
    requires count > 0
    ensures Pow2(8 * count) == 256 * Pow2(8 * (count - 1))
  {
    PowSum(8, 8 * (count - 1));
    SmallPowers();
    hide Pow2;
    assert 8 + 8 * (count - 1) == 8 * count;
  }

  lemma WordSizes()
    ensures Pow2(8) == 0x100 && Pow2(16) == 0x1_0000 && Pow2(32) == 0x1_0000_0000
    ensures Pow2(64) == 0x1_0000_0000_0000_0000
  {
    SmallPowers();
    PowSum(8, 8);
    PowSum(16, 16);
    PowSum(32, 32);
  }

  lemma U16RoundTrip(n: u16)
    ensures FromLe(ToLe(n, 2)) == n
  {
    WordSizes();
    FromToLe(n, 2);
  }

  lemma U32RoundTrip(n: u32)
    ensures FromLe(ToLe(n, 4)) == n
  {
    WordSizes();
    FromToLe(n, 4);
  }

  lemma U64RoundTrip(n: u64)
    ensures FromLe(ToLe(n, 8)) == n
  {
    WordSizes();
    FromToLe(n, 8);
  }

  function ReadU16(bytes: seq<byte>): u16
    requires |bytes| == 2
  {
    WordSizes();
    ToFromLe(bytes);
    FromLe(bytes)
  }

  function ReadU32(bytes: seq<byte>): u32
    requires |bytes| == 4
  {
    WordSizes();
    ToFromLe(bytes);
    FromLe(bytes)
  }

  function ReadU64(bytes: seq<byte>): u64
    requires |bytes| == 8
  {
    WordSizes();
    ToFromLe(bytes);
    FromLe(bytes)
  }

  /** Byte k of a little-endian string is the k-th digit to the base 256, the least significant first. */
  lemma {:induction false} ToLeAt(n: nat, count: nat, k: nat)
    requires k < count
    ensures ToLe(n, count)[k] == n / Pow2(8 * k) % 256
    decreases count
  {
    if k > 0 {
      ToLeAt(n / 256, count - 1, k - 1);
      BytePower(k);
      hide Pow2;
      DivDiv(n, 256, Pow2(8 * (k - 1)));
    }
  }

  lemma {:induction false} FromLeHead(bytes: seq<byte>)
    requires bytes != []
    ensures FromLe(bytes) == bytes[0] + 256 * FromLe(bytes[1..])
  {}

  /** Reading a word weighs its bytes by powers of 256. */
  lemma WordBytes(b: seq<byte>)
    requires |b| >= 8
    ensures ReadU16(b[0..2]) == b[0] as int + 0x100 * (b[1] as int)
    ensures ReadU32(b[0..4]) == b[0] as int + 0x100 * (b[1] as int) + 0x1_0000 * (b[2] as int) + 0x100_0000 * (b[3] as int)
    ensures ReadU64(b[0..8]) == ReadU32(b[0..4]) as int + 0x1_0000_0000 * (ReadU32(b[4..8]) as int)
  {
    TwoBytes(b[0..2]);
    FourBytes(b[0..4]);
    FourBytes(b[4..8]);
    EightBytes(b[0..8]);
    assert b[0..8][0..4] == b[0..4] && b[0..8][4..8] == b[4..8];
    hide FromLe;
  }

  lemma TwoBytes(b: seq<byte>)
    requires |b| == 2
    ensures FromLe(b) == b[0] as int + 0x100 * (b[1] as int)
  {
    FromLeHead(b);
    FromLeHead(b[1..]);
    assert b[1..][1..] == [];
  }

  lemma FourBytes(b: seq<byte>)
    requires |b| == 4
    ensures FromLe(b) == b[0] as int + 0x100 * (b[1] as int) + 0x1_0000 * (b[2] as int) + 0x100_0000 * (b[3] as int)
  {
    FromLeHead(b);
    FromLeHead(b[1..]);
    TwoBytes(b[2..]);
    assert b[1..][1..] == b[2..];
    hide FromLe;
  }

  lemma EightBytes(b: seq<byte>)
    requires |b| == 8
    ensures FromLe(b) == FromLe(b[0..4]) + 0x1_0000_0000 * FromLe(b[4..8])
  {
    FromLeHead(b);
    FromLeHead(b[1..]);
    FromLeHead(b[2..]);
    FromLeHead(b[3..]);
    FourBytes(b[0..4]);
    assert b[1..][1..] == b[2..] && b[2..][1..] == b[3..] && b[3..][1..] == b[4..8];
    hide FromLe;
  }
}
