/** The payload of an API key: format version, key id, secret, and a packed 32-bit quota word. */
module ApiKeyCodec {
  import opened Prelude
  import opened Arithmetic
  import opened LittleEndian
  import opened Bech32

  const FORMAT_VERSION: byte := 1

  datatype ApiKeyLimits = ApiKeyLimits(
    rateBucketsMax: u32,
    latencyServicesMax: u32,
    metricsLabelsMax: u32,
    latencyBufferSizeMax: u32,
    dedupTtlMsMax: u32,
    rateWindowSizeMsMax: u32)

  datatype DecodedApiKey = DecodedApiKey(
    hrp: string,
    authMethod: string,
    formatVersion: byte,
    keyId: u64,
    authSecret: seq<byte>,
    limits: Option<ApiKeyLimits>)

  // ---------------------------------------------------------------- the quota word

  lemma ExponentBound(e: nat)
    requires e <= 31
    ensures Pow2(e) <= 0x8000_0000
  {
    PowSum(e, 31 - e);
    Pow31();
    hide Pow2;
    MulMono(1, Pow2(31 - e), Pow2(e));
  }

  lemma Pow31()
    ensures Pow2(31) == 0x8000_0000
  {
    WordSizes();
    assert Pow2(32) == 2 * Pow2(31);
  }

  function TwoTo(e: nat): u32
    requires e <= 31
  {
    ExponentBound(e);
    Pow2(e)
  }

  function WindowLimit(e: nat): u32
    requires e <= 31
  {
    if e == 31 then U32_MAX else TwoTo(e)
  }

  /** The fields of the word, least significant first: 5, 5, 5, 4, 8 and 5 bits. */
  datatype Fields = Fields(rate: nat, latency: nat, labels: nat, buffer: nat, dedup: nat, window: nat)
  {
    predicate Fit() {
      rate < 32 && latency < 32 && labels < 32 && buffer < 16 && dedup < 256 && window < 32
    }

    function Pack(): (word: u32)
      requires Fit()
    {
      rate + latency * 0x20 + labels * 0x400 + buffer * 0x8000 + dedup * 0x8_0000 + window * 0x800_0000
    }
  }

  function Unpack(word: u32): (f: Fields)
    ensures f.Fit()
  {
    Fields(word % 32, word / 0x20 % 32, word / 0x400 % 32, word / 0x8000 % 16, word / 0x8_0000 % 256,
           word / 0x800_0000 % 32)
  }

  lemma NestedShifts(w: u32)
    ensures w / 0x400 == w / 0x20 / 0x20 && w / 0x8000 == w / 0x20 / 0x20 / 0x20
    ensures w / 0x8_0000 == w / 0x20 / 0x20 / 0x20 / 0x10
    ensures w / 0x800_0000 == w / 0x20 / 0x20 / 0x20 / 0x10 / 0x100
  {
    assert w / 0x400 == w / 0x20 / 0x20;
    assert w / 0x8000 == w / 0x400 / 0x20;
    assert w / 0x8_0000 == w / 0x8000 / 0x10;
    assert w / 0x800_0000 == w / 0x8_0000 / 0x100;
  }

  lemma FieldsOfPack(f: Fields)
    requires f.Fit()
    ensures Unpack(f.Pack()) == f
  {
    var w4 := f.dedup + f.window * 0x100;
    var w3 := f.buffer + w4 * 0x10;
    var w2 := f.labels + w3 * 0x20;
    var w1 := f.latency + w2 * 0x20;
    var w := f.Pack();
    assert w == f.rate + w1 * 0x20;
    NestedShifts(w);
    assert w / 0x20 == w1 && w1 / 0x20 == w2 && w2 / 0x20 == w3 && w3 / 0x10 == w4;
  }

  lemma ShiftsRejoin(w: u32)
    ensures w / 0x800_0000 < 32
    ensures w == w % 32 + (w / 0x20 % 32) * 0x20 + (w / 0x400 % 32) * 0x400 + (w / 0x8000 % 16) * 0x8000
                 + (w / 0x8_0000 % 256) * 0x8_0000 + (w / 0x800_0000) * 0x800_0000
  {
    NestedShifts(w);
    var a := w / 0x20;
    var b := a / 0x20;
    var c := b / 0x20;
    var d := c / 0x10;
    var e := d / 0x100;
    DivMod(w, 0x20);
    DivMod(a, 0x20);
    DivMod(b, 0x20);
    DivMod(c, 0x10);
    DivMod(d, 0x100);
    hide *;
  }

  lemma PackOfFields(word: u32)
    ensures Unpack(word).Pack() == word
  {
    ShiftsRejoin(word);
  }

  function LimitsOfFields(f: Fields): Result<ApiKeyLimits, DecodeError>
    requires f.Fit()
  {
    if f.rate > 24 || f.latency > 24 || !(1 <= f.dedup <= 200) then Err(InvalidPackedQuota)
    else Ok(ApiKeyLimits(TwoTo(f.rate), TwoTo(f.latency), TwoTo(f.labels), TwoTo(f.buffer), f.dedup * 10,
                         WindowLimit(f.window)))
  }

  function LimitsOf(word: u32): Result<ApiKeyLimits, DecodeError> {
    LimitsOfFields(Unpack(word))
  }

  function TrailingZeros(n: nat): (z: nat)
    ensures n > 0 ==> Pow2(z) <= n
  {
    if n == 0 then 32 else if n % 2 == 1 then 0 else 1 + TrailingZeros(n / 2)
  }

  predicate PowerUpTo(n: nat, max: nat) {
    n > 0 && TrailingZeros(n) <= max && n == Pow2(TrailingZeros(n))
  }

  /** The limits a quota word can carry. */
  predicate Representable(limits: ApiKeyLimits) {
    && PowerUpTo(limits.rateBucketsMax, 24)
    && PowerUpTo(limits.latencyServicesMax, 24)
    && PowerUpTo(limits.metricsLabelsMax, 31)
    && PowerUpTo(limits.latencyBufferSizeMax, 15)
    && limits.dedupTtlMsMax % 10 == 0 && 1 <= limits.dedupTtlMsMax / 10 <= 200
    && (limits.rateWindowSizeMsMax == U32_MAX || PowerUpTo(limits.rateWindowSizeMsMax, 30))
  }

  function QuotaFields(limits: ApiKeyLimits): (f: Fields)
    requires Representable(limits)
    ensures f.Fit()
  {
    Fields(TrailingZeros(limits.rateBucketsMax), TrailingZeros(limits.latencyServicesMax),
           TrailingZeros(limits.metricsLabelsMax), TrailingZeros(limits.latencyBufferSizeMax),
           limits.dedupTtlMsMax / 10,
           if limits.rateWindowSizeMsMax == U32_MAX then 31 else TrailingZeros(limits.rateWindowSizeMsMax))
  }

  function QuotaWord(limits: ApiKeyLimits): u32
    requires Representable(limits)
  {
    QuotaFields(limits).Pack()
  }

  lemma {:induction false} TrailingZerosOfPower(e: nat)
    ensures TrailingZeros(Pow2(e)) == e
  {
    if e > 0 {
      TrailingZerosOfPower(e - 1);
      assert Pow2(e) / 2 == Pow2(e - 1) && Pow2(e) % 2 == 0;
    }
  }

  /** A power of two within a bound, without counting zeros. */
  lemma PowerUpToMeans(n: nat, max: nat)
    ensures PowerUpTo(n, max) <==> exists e: nat | e <= max :: n == Pow2(e)
  {
    if e: nat :| e <= max && n == Pow2(e) {
      TrailingZerosOfPower(e);
    }
  }

  lemma LimitIsPower(e: nat, max: nat)
    requires e <= max <= 31
    ensures PowerUpTo(TwoTo(e), max) && TrailingZeros(TwoTo(e)) == e
    ensures max <= 30 ==> TwoTo(e) != U32_MAX
  {
    TrailingZerosOfPower(e);
    ExponentBound(e);
  }

  lemma LimitsOfOwnFields(limits: ApiKeyLimits)
    requires Representable(limits)
    ensures LimitsOfFields(QuotaFields(limits)) == Ok(limits)
  {
    var f := QuotaFields(limits);
    assert TwoTo(f.rate) == limits.rateBucketsMax && f.rate <= 24 by { PowerBack(limits.rateBucketsMax, 24); }
    assert TwoTo(f.latency) == limits.latencyServicesMax && f.latency <= 24 by {
      PowerBack(limits.latencyServicesMax, 24);
    }
    assert TwoTo(f.labels) == limits.metricsLabelsMax by { PowerBack(limits.metricsLabelsMax, 31); }
    assert TwoTo(f.buffer) == limits.latencyBufferSizeMax by { PowerBack(limits.latencyBufferSizeMax, 15); }
    assert f.dedup * 10 == limits.dedupTtlMsMax && 1 <= f.dedup <= 200;
    assert WindowLimit(f.window) == limits.rateWindowSizeMsMax by {
      if limits.rateWindowSizeMsMax != U32_MAX {
        PowerBack(limits.rateWindowSizeMsMax, 30);
      }
    }
    hide TrailingZeros, TwoTo, PowerUpTo, Pow2, Representable, QuotaFields, WindowLimit;
  }

  /** Unpacking inverts packing on every representable set of limits. */
  lemma LimitsOfQuotaWord(limits: ApiKeyLimits)
    requires Representable(limits)
    ensures LimitsOf(QuotaWord(limits)) == Ok(limits)
  {
    LimitsOfOwnFields(limits);
    FieldsOfPack(QuotaFields(limits));
    hide LimitsOfFields, QuotaFields, Unpack, Fields.Pack, Representable;
  }

  lemma PowerBack(n: u32, max: nat)
    requires PowerUpTo(n, max) && max <= 31
    ensures TrailingZeros(n) <= max && TwoTo(TrailingZeros(n)) == n
  {}

  lemma LimitsRepresentable(f: Fields)
    requires f.Fit() && LimitsOfFields(f).Ok?
    ensures Representable(LimitsOfFields(f).value)
    ensures QuotaFields(LimitsOfFields(f).value) == f
  {
    var limits := LimitsOfFields(f).value;
    LimitIsPower(f.rate, 24);
    LimitIsPower(f.latency, 24);
    LimitIsPower(f.labels, 31);
    LimitIsPower(f.buffer, 15);
    WindowIsPower(f.window);
    assert limits == ApiKeyLimits(TwoTo(f.rate), TwoTo(f.latency), TwoTo(f.labels), TwoTo(f.buffer), f.dedup * 10,
                                  WindowLimit(f.window));
    hide TrailingZeros, TwoTo, PowerUpTo, Pow2, WindowLimit, LimitsOfFields;
    assert limits.dedupTtlMsMax / 10 == f.dedup && limits.dedupTtlMsMax % 10 == 0;
    assert Representable(limits);
  }

  lemma WindowIsPower(e: nat)
    requires e <= 31
    ensures e < 31 ==> WindowLimit(e) != U32_MAX && PowerUpTo(WindowLimit(e), 30) && TrailingZeros(WindowLimit(e)) == e
    ensures e == 31 ==> WindowLimit(e) == U32_MAX
  {
    if e < 31 {
      LimitIsPower(e, 30);
    }
  }

  /** Packing recovers every valid word from its limits, so unpacking is injective. */
  lemma QuotaWordOfLimits(word: u32)
    requires LimitsOf(word).Ok?
    ensures Representable(LimitsOf(word).value)
    ensures QuotaWord(LimitsOf(word).value) == word
  {
    LimitsRepresentable(Unpack(word));
    PackOfFields(word);
  }

  /** What the bits of a quota word mean: five-bit exponents at the places 0, 5 and 10, a four-bit one at 15, the
      lifetime in tens of milliseconds at 19, and a five-bit exponent at 27 whose largest value means unlimited. */
  lemma LimitsFields(word: u32)
    ensures LimitsOf(word).Ok? <==> word % 32 <= 24 && word / 0x20 % 32 <= 24 && 1 <= word / 0x8_0000 % 256 <= 200
    ensures LimitsOf(word).Err? ==> LimitsOf(word) == Err(InvalidPackedQuota)
    ensures LimitsOf(word).Ok? ==>
              && LimitsOf(word).value.rateBucketsMax == Pow2(word % 32)
              && LimitsOf(word).value.latencyServicesMax == Pow2(word / 0x20 % 32)
              && LimitsOf(word).value.metricsLabelsMax == Pow2(word / 0x400 % 32)
              && LimitsOf(word).value.latencyBufferSizeMax == Pow2(word / 0x8000 % 16)
              && LimitsOf(word).value.dedupTtlMsMax == 10 * (word / 0x8_0000 % 256)
              && (word / 0x800_0000 < 31 ==> LimitsOf(word).value.rateWindowSizeMsMax == Pow2(word / 0x800_0000))
              && (word / 0x800_0000 >= 31 ==> LimitsOf(word).value.rateWindowSizeMsMax == 0xFFFF_FFFF)
  {
    hide Pow2;
    assert word / 0x800_0000 < 32;
  }

  // ---------------------------------------------------------------- packing any limits

  /** Bitwise or of two naturals. */
  function BitOr(a: nat, b: nat): nat {
    if a == 0 then b
    else if b == 0 then a
    else (if a % 2 == 1 || b % 2 == 1 then 1 else 0) + 2 * BitOr(a / 2, b / 2)
  }

  lemma {:induction false} DisjointOr(a: nat, x: nat, k: nat)
    requires a < Pow2(k)
    ensures BitOr(a, Shl(x, k)) == a + Shl(x, k)
    decreases k
  {
    if k > 0 {
      HalfShift(x, k);
      DisjointOr(a / 2, x, k - 1);
      hide Shl;
    }
  }

  /** A field shifted to its place in a 32-bit word; bits beyond the word are lost. */
  function Field(value: nat, at: nat): u32 {
    Shl(value, at) % 0x1_0000_0000
  }

  /** The quota word as it is put together from whatever limits: the exponents are trailing-zero counts, 32 for
      zero, and neither they nor the deduplication units are checked. */
  function PackLimits(limits: ApiKeyLimits): nat {
    var window := if limits.rateWindowSizeMsMax == U32_MAX then 31 else TrailingZeros(limits.rateWindowSizeMsMax);
    var w1 := BitOr(Field(TrailingZeros(limits.rateBucketsMax), 0), Field(TrailingZeros(limits.latencyServicesMax), 5));
    var w2 := BitOr(w1, Field(TrailingZeros(limits.metricsLabelsMax), 10));
    var w3 := BitOr(w2, Field(TrailingZeros(limits.latencyBufferSizeMax), 15));
    var w4 := BitOr(w3, Field(limits.dedupTtlMsMax / 10, 19));
    BitOr(w4, Field(window, 27))
  }

  lemma {:induction false} BitOrBound(a: nat, b: nat, k: nat)
    requires a < Pow2(k) && b < Pow2(k)
    ensures BitOr(a, b) < Pow2(k)
    decreases k
  {
    if k > 0 {
      BitOrBound(a / 2, b / 2, k - 1);
    }
  }

  lemma PackedIsWord(limits: ApiKeyLimits)
    ensures PackLimits(limits) <= U32_MAX
  {
    WordSizes();
    hide Pow2, BitOr, Field, TrailingZeros;
    var window := if limits.rateWindowSizeMsMax == U32_MAX then 31 else TrailingZeros(limits.rateWindowSizeMsMax);
    var w0 := Field(TrailingZeros(limits.rateBucketsMax), 0);
    var w1 := BitOr(w0, Field(TrailingZeros(limits.latencyServicesMax), 5));
    BitOrBound(w0, Field(TrailingZeros(limits.latencyServicesMax), 5), 32);
    var w2 := BitOr(w1, Field(TrailingZeros(limits.metricsLabelsMax), 10));
    BitOrBound(w1, Field(TrailingZeros(limits.metricsLabelsMax), 10), 32);
    var w3 := BitOr(w2, Field(TrailingZeros(limits.latencyBufferSizeMax), 15));
    BitOrBound(w2, Field(TrailingZeros(limits.latencyBufferSizeMax), 15), 32);
    var w4 := BitOr(w3, Field(limits.dedupTtlMsMax / 10, 19));
    BitOrBound(w3, Field(limits.dedupTtlMsMax / 10, 19), 32);
    BitOrBound(w4, Field(window, 27), 32);
  }

  function PackedWord(limits: ApiKeyLimits): u32 {
    PackedIsWord(limits);
    PackLimits(limits)
  }

  lemma PlacePowers()
    ensures Pow2(0) == 1 && Pow2(5) == 0x20 && Pow2(10) == 0x400 && Pow2(15) == 0x8000
    ensures Pow2(19) == 0x8_0000 && Pow2(27) == 0x800_0000
  {
    SmallPowers();
    PowSum(5, 5);
    PowSum(10, 5);
    PowSum(15, 4);
    PowSum(19, 8);
  }

  lemma FieldInWord(value: nat, at: nat, width: nat)
    requires at + width <= 32 && value < Pow2(width)
    ensures Field(value, at) == Shl(value, at)
  {
    WordSizes();
    PowSum(width, at);
    PowSum(at + width, 32 - at - width);
    hide Pow2;
    MulMono(value + 1, Pow2(width), Pow2(at));
    Distribute(value, 1, Pow2(at));
    MulMono(1, Pow2(32 - at - width), Pow2(at + width));
  }

  /** A field that fits goes on top of a word that ends below its place. */
  lemma FieldOnTop(word: nat, value: nat, at: nat, width: nat)
    requires word < Pow2(at) && value < Pow2(width) && at + width <= 32
    ensures BitOr(word, Field(value, at)) == word + value * Pow2(at) < Pow2(at + width)
  {
    FieldInWord(value, at, width);
    DisjointOr(word, value, at);
    PowSum(at, width);
    hide Pow2, Field, BitOr;
    MulMono(value + 1, Pow2(width), Pow2(at));
    Distribute(value, 1, Pow2(at));
  }

  /** Fields that fit fill disjoint places, so putting them together with or is adding them up. */
  lemma PackedFields(f: Fields)
    requires f.Fit()
    ensures var w1 := BitOr(Field(f.rate, 0), Field(f.latency, 5));
      var w2 := BitOr(w1, Field(f.labels, 10));
      var w3 := BitOr(w2, Field(f.buffer, 15));
      var w4 := BitOr(w3, Field(f.dedup, 19));
      BitOr(w4, Field(f.window, 27)) == f.Pack()
  {
    hide BitOr, Field, Fields.Pack, Pow2;
    LowFields(f.rate, f.latency, f.labels);
    var w2 := f.rate + f.latency * 0x20 + f.labels * 0x400;
    HighFields(w2, f.buffer, f.dedup, f.window);
    assert f.Pack() == w2 + f.buffer * 0x8000 + f.dedup * 0x8_0000 + f.window * 0x800_0000 by {
      PackSum(f);
    }
  }

  lemma PackSum(f: Fields)
    requires f.Fit()
    ensures f.Pack() == f.rate + f.latency * 0x20 + f.labels * 0x400 + f.buffer * 0x8000 + f.dedup * 0x8_0000
                        + f.window * 0x800_0000
  {}

  lemma LowFields(rate: nat, latency: nat, labels: nat)
    requires rate < 32 && latency < 32 && labels < 32
    ensures BitOr(BitOr(Field(rate, 0), Field(latency, 5)), Field(labels, 10)) == rate + latency * 0x20 + labels * 0x400 < 0x8000
  {
    PlacePowers();
    SmallPowers();
    FieldInWord(rate, 0, 5);
    hide Pow2, Field, BitOr;
    FieldOnTop(rate, latency, 5, 5);
    FieldOnTop(rate + latency * 0x20, labels, 10, 5);
  }

  lemma HighFields(word: nat, buffer: nat, dedup: nat, window: nat)
    requires word < 0x8000 && buffer < 16 && dedup < 256 && window < 32
    ensures BitOr(BitOr(BitOr(word, Field(buffer, 15)), Field(dedup, 19)), Field(window, 27))
         == word + buffer * 0x8000 + dedup * 0x8_0000 + window * 0x800_0000
  {
    PlacePowers();
    SmallPowers();
    hide Pow2, Field, BitOr;
    FieldOnTop(word, buffer, 15, 4);
    FieldOnTop(word + buffer * 0x8000, dedup, 19, 8);
    FieldOnTop(word + buffer * 0x8000 + dedup * 0x8_0000, window, 27, 5);
  }

  lemma PackedRepresentable(limits: ApiKeyLimits)
    requires Representable(limits)
    ensures PackedWord(limits) == QuotaWord(limits)
  {
    PackedFields(QuotaFields(limits));
    hide BitOr, Field, TrailingZeros, Fields.Pack, Representable;
  }

  /** A quota word carries exactly the representable limits: packing and unpacking gives the limits back if and
      only if every bucket count is a power of two within its bound, the lifetime is 10 to 2000 ms in tens, and
      the window is a power of two up to 2^30 or unlimited. */
  lemma PackingKeepsRepresentable(limits: ApiKeyLimits)
    ensures LimitsOf(PackedWord(limits)) == Ok(limits) <==> Representable(limits)
  {
    hide LimitsOf, PackedWord, Representable;
    if Representable(limits) {
      PackedRepresentable(limits);
      LimitsOfQuotaWord(limits);
    }
    if LimitsOf(PackedWord(limits)).Ok? {
      QuotaWordOfLimits(PackedWord(limits));
    }
  }

  // ---------------------------------------------------------------- whole keys

  predicate VersionedMethod(name: string) {
    name == "none" || name == "cookie" || name == "aes"
  }

  /** The payload after the prefix has been recognised: version, key id, secret, quota word. */
  function DecodeVersioned(hrp: string, name: string, payload: seq<byte>, secretLen: nat)
    : Result<DecodedApiKey, DecodeError>
  {
    if |payload| != 13 + secretLen then Err(InvalidPayloadLength(name, 13 + secretLen, |payload|))
    else if payload[0] != FORMAT_VERSION then Err(UnsupportedFormatVersion(payload[0]))
    else
      match LimitsOf(ReadU32(payload[9 + secretLen..13 + secretLen]))
      case Err(e) => Err(e)
      case Ok(limits) =>
        Ok(DecodedApiKey(hrp, name, FORMAT_VERSION, ReadU64(payload[1..9]), payload[9..9 + secretLen], Some(limits)))
  }

  function DecodePayload(hrp: string, payload: seq<byte>): Result<DecodedApiKey, DecodeError> {
    if !("rl-" <= hrp) then Err(InvalidHrpPrefix)
    else
      var name := hrp[3..];
      if name == "secret" then
        if |payload| != 32 then Err(InvalidPayloadLength(name, 32, |payload|))
        else Ok(DecodedApiKey(hrp, name, 0, 0, payload, None))
      else if name == "none" then DecodeVersioned(hrp, name, payload, 0)
      else if name == "cookie" || name == "aes" then DecodeVersioned(hrp, name, payload, 32)
      else Err(UnsupportedAuthMethod(name))
  }

  function DecodeApiKey(encoded: string): Result<DecodedApiKey, DecodeError> {
    match DecodeText(encoded)
    case Err(e) => Err(e)
    case Ok(d) => DecodePayload(d.hrp, d.payload)
  }

  function SecretLength(name: string): nat {
    if name == "none" then 0 else 32
  }

  function KeyPayload(keyId: u64, secret: seq<byte>, limits: ApiKeyLimits): seq<byte> {
    [FORMAT_VERSION] + ToLe(keyId, 8) + secret + ToLe(PackedWord(limits), 4)
  }

  method EncodeApiKey(name: string, keyId: u64, secret: seq<byte>, limits: ApiKeyLimits)
    returns (r: Result<string, DecodeError>)
    requires VersionedMethod(name)
    ensures r == EncodeText("rl-" + name, KeyPayload(keyId, if name == "none" then [] else secret, limits))
  {
    hide PackLimits, EncodeText;
    var payload := [FORMAT_VERSION];
    payload := payload + ToLe(keyId, 8);
    if name != "none" {
      payload := payload + secret;
    }
    payload := payload + ToLe(PackedWord(limits), 4);
    assert payload == KeyPayload(keyId, if name == "none" then [] else secret, limits);
    r := Bech32Encode("rl-" + name, payload);
  }

  lemma PrefixText(name: string)
    requires VersionedMethod(name)
    ensures AllPrintable("rl-" + name) && Lower("rl-" + name) == "rl-" + name
    ensures "rl-" <= "rl-" + name && ("rl-" + name)[3..] == name
    ensures name != "secret"
  {
    if name == "none" {
      assert "rl-" + name == "rl-none";
    } else if name == "cookie" {
      assert "rl-" + name == "rl-cookie";
    } else {
      assert "rl-" + name == "rl-aes";
    }
  }

  /** Decoding a printed key returns everything that was printed, if and only if the limits are ones that a
      quota word can carry and the secret has the method's length. */
  lemma DecodeEncodedKey(name: string, keyId: u64, secret: seq<byte>, limits: ApiKeyLimits)
    requires VersionedMethod(name)
    ensures var text := EncodeText("rl-" + name, KeyPayload(keyId, secret, limits));
      && text.Ok?
      && (DecodeApiKey(text.value)
          == Ok(DecodedApiKey("rl-" + name, name, FORMAT_VERSION, keyId, secret, Some(limits)))
          <==> Representable(limits) && |secret| == SecretLength(name))
  {
    PrefixText(name);
    var payload := KeyPayload(keyId, secret, limits);
    DecodeEncoded("rl-" + name, payload);
    PayloadFields(keyId, secret, limits);
    PackingKeepsRepresentable(limits);
    hide DecodeText, EncodeText, LimitsOf, PackedWord, Representable, KeyPayload, ReadU32, ReadU64;
    assert DecodePayload("rl-" + name, payload) == DecodeVersioned("rl-" + name, name, payload, SecretLength(name));
  }

  lemma Slices(a: seq<byte>, b: seq<byte>, c: seq<byte>, d: seq<byte>)
    requires |a| == 1 && |b| == 8 && |d| == 4
    ensures var s := a + b + c + d; var n := |c|;
            |s| == 13 + n && s[..1] == a && s[1..9] == b && s[9..9 + n] == c && s[9 + n..13 + n] == d
  {}

  lemma PayloadFields(keyId: u64, secret: seq<byte>, limits: ApiKeyLimits)
    ensures var payload := KeyPayload(keyId, secret, limits);
            |payload| == 13 + |secret| && payload[0] == FORMAT_VERSION
            && ReadU64(payload[1..9]) == keyId && payload[9..9 + |secret|] == secret
            && ReadU32(payload[9 + |secret|..13 + |secret|]) == PackedWord(limits)
  {
    hide ToLe, FromLe, PackedWord;
    Slices([FORMAT_VERSION], ToLe(keyId, 8), secret, ToLe(PackedWord(limits), 4));
    U64RoundTrip(keyId);
    U32RoundTrip(PackedWord(limits));
  }

  lemma PayloadRejoins(payload: seq<byte>, n: nat)
    requires |payload| == 13 + n && payload[0] == FORMAT_VERSION
    requires LimitsOf(ReadU32(payload[9 + n..13 + n])).Ok?
    ensures var limits := LimitsOf(ReadU32(payload[9 + n..13 + n])).value;
            Representable(limits)
            && KeyPayload(ReadU64(payload[1..9]), payload[9..9 + n], limits) == payload
  {
    hide ToLe, FromLe, QuotaWord, PackedWord, Representable, LimitsOf;
    QuotaWordOfLimits(ReadU32(payload[9 + n..13 + n]));
    PackedRepresentable(LimitsOf(ReadU32(payload[9 + n..13 + n])).value);
    ToFromLe(payload[1..9]);
    ToFromLe(payload[9 + n..13 + n]);
    assert payload == [payload[0]] + payload[1..9] + payload[9..9 + n] + payload[9 + n..13 + n];
  }

  lemma VersionedParts(hrp: string, payload: seq<byte>)
    requires DecodePayload(hrp, payload).Ok? && DecodePayload(hrp, payload).value.limits.Some?
    ensures "rl-" <= hrp && VersionedMethod(hrp[3..]) && hrp == "rl-" + hrp[3..]
    ensures DecodePayload(hrp, payload) == DecodeVersioned(hrp, hrp[3..], payload, SecretLength(hrp[3..]))
  {
    hide DecodeVersioned, LimitsOf;
    assert hrp == "rl-" + hrp[3..];
  }

  lemma VersionedPayload(hrp: string, name: string, payload: seq<byte>, n: nat)
    requires DecodeVersioned(hrp, name, payload, n).Ok?
    ensures var key := DecodeVersioned(hrp, name, payload, n).value;
            key.hrp == hrp && key.authMethod == name && |key.authSecret| == n && key.limits.Some?
            && Representable(key.limits.value)
            && KeyPayload(key.keyId, key.authSecret, key.limits.value) == payload
  {
    PayloadRejoins(payload, n);
    hide LimitsOf, KeyPayload, Representable, ReadU64, ReadU32;
  }

  /** The methods with a versioned payload, and the length it has to have. */
  predicate VersionedSize(hrp: string, n: nat) {
    (hrp == "rl-none" && n == 13) || (hrp == "rl-cookie" && n == 45) || (hrp == "rl-aes" && n == 45)
  }

  lemma MethodNames(hrp: string)
    ensures "rl-" <= hrp && hrp[3..] == "secret" <==> hrp == "rl-secret"
    ensures "rl-" <= hrp && hrp[3..] == "none" <==> hrp == "rl-none"
    ensures "rl-" <= hrp && hrp[3..] == "cookie" <==> hrp == "rl-cookie"
    ensures "rl-" <= hrp && hrp[3..] == "aes" <==> hrp == "rl-aes"
  {
    if "rl-" <= hrp {
      assert hrp == "rl-" + hrp[3..];
    }
  }

  /** The unversioned method takes 32 bytes of secret and nothing else. */
  lemma SecretPayload(payload: seq<byte>)
    ensures DecodePayload("rl-secret", payload)
         == (if |payload| == 32 then Ok(DecodedApiKey("rl-secret", "secret", 0, 0, payload, None))
             else Err(InvalidPayloadLength("secret", 32, |payload|)))
  {
    MethodNames("rl-secret");
    hide DecodeVersioned;
  }

  /** A versioned payload of the right length is accepted exactly when its first byte is 1 and its last four are a
      valid quota word, and each part is read from its own place. */
  lemma VersionedAccepted(hrp: string, payload: seq<byte>)
    requires VersionedSize(hrp, |payload|)
    ensures var r := DecodePayload(hrp, payload); var limits := LimitsOf(ReadU32(payload[|payload| - 4..]));
      && (r.Ok? <==> payload[0] == 1 && limits.Ok?)
      && (r.Ok? ==>
            && r.value.hrp == hrp && "rl-" + r.value.authMethod == hrp
            && r.value.formatVersion == 1 && r.value.keyId == ReadU64(payload[1..9])
            && r.value.authSecret == payload[9..|payload| - 4] && r.value.limits == Some(limits.value))
  {
    MethodNames(hrp);
    assert hrp == "rl-" + hrp[3..] by { SizedMethods(hrp, |payload|); }
    hide LimitsOf, ReadU64, ReadU32;
    assert payload[|payload| - 4..|payload|] == payload[|payload| - 4..];
  }

  lemma SizedMethods(hrp: string, n: nat)
    requires VersionedSize(hrp, n)
    ensures "rl-" <= hrp && hrp == "rl-" + hrp[3..]
  {}

  /** Which of the errors a refused payload gets. */
  lemma PayloadRefusals(hrp: string, payload: seq<byte>)
    ensures var n := |payload|; var r := DecodePayload(hrp, payload);
      && (r == Err(InvalidHrpPrefix) <==> !("rl-" <= hrp))
      && (forall name :: r == Err(UnsupportedAuthMethod(name)) <==>
            hrp == "rl-" + name && hrp !in ["rl-secret", "rl-none", "rl-cookie", "rl-aes"])
      && (forall name, expected, actual :: r == Err(InvalidPayloadLength(name, expected, actual)) <==>
            && hrp == "rl-" + name && actual == n && n != expected
            && ((hrp == "rl-secret" && expected == 32) || VersionedSize(hrp, expected)))
      && (forall v :: r == Err(UnsupportedFormatVersion(v)) <==> VersionedSize(hrp, n) && v == payload[0] && v != 1)
      && (r == Err(InvalidPackedQuota) <==>
            VersionedSize(hrp, n) && payload[0] == 1 && LimitsOf(ReadU32(payload[n - 4..n])).Err?)
  {
    MethodNames(hrp);
    if "rl-" <= hrp {
      assert hrp == "rl-" + hrp[3..];
    }
    forall name: string
      ensures hrp == "rl-" + name <==> "rl-" <= hrp && hrp[3..] == name
    {
      assert ("rl-" + name)[3..] == name;
    }
    if VersionedSize(hrp, |payload|) {
      LimitsFields(ReadU32(payload[|payload| - 4..|payload|]));
    }
    hide LimitsOf, ReadU64, ReadU32, Pow2;
  }

  /** Keys of the unversioned method: a printed secret is read back exactly when it has 32 bytes, with no key id
      and no limits. */
  lemma DecodeEncodedSecret(secret: seq<byte>)
    ensures EncodeText("rl-secret", secret).Ok?
    ensures DecodeApiKey(EncodeText("rl-secret", secret).value)
         == (if |secret| == 32 then Ok(DecodedApiKey("rl-secret", "secret", 0, 0, secret, None))
             else Err(InvalidPayloadLength("secret", 32, |secret|)))
  {
    assert AllPrintable("rl-secret") && Lower("rl-secret") == "rl-secret";
    DecodeEncoded("rl-secret", secret);
    SecretPayload(secret);
    hide DecodeText, EncodeText, DecodePayload;
  }

  lemma SecretParts(hrp: string, payload: seq<byte>)
    requires DecodePayload(hrp, payload).Ok? && DecodePayload(hrp, payload).value.limits.None?
    ensures hrp == "rl-secret" && DecodePayload(hrp, payload).value.authMethod == "secret"
    ensures |payload| == 32 && DecodePayload(hrp, payload).value.authSecret == payload
  {
    assert hrp == "rl-" + hrp[3..];
    hide LimitsOf, ReadU64, ReadU32;
  }

  /** And every accepted key without limits is, in lower case, the printed form of its 32-byte secret. */
  lemma EncodeDecodedSecret(encoded: string)
    requires DecodeApiKey(encoded).Ok? && DecodeApiKey(encoded).value.limits.None?
    ensures var key := DecodeApiKey(encoded).value;
            key.authMethod == "secret" && |key.authSecret| == 32
            && EncodeText("rl-secret", key.authSecret) == Ok(Lower(encoded))
  {
    EncodeDecoded(encoded);
    var d := DecodeText(encoded).value;
    SecretParts(d.hrp, d.payload);
    hide DecodeText, EncodeText, DecodePayload;
  }

  /** Every accepted versioned key is, in lower case, the printed form of what it decodes to: two such
      keys with the same meaning are the same text up to case. */
  lemma EncodeDecodedKey(encoded: string)
    requires DecodeApiKey(encoded).Ok? && DecodeApiKey(encoded).value.limits.Some?
    ensures var key := DecodeApiKey(encoded).value;
            VersionedMethod(key.authMethod) && Representable(key.limits.value)
            && |key.authSecret| == SecretLength(key.authMethod) && key.hrp == "rl-" + key.authMethod
            && EncodeText(key.hrp, KeyPayload(key.keyId, key.authSecret, key.limits.value)) == Ok(Lower(encoded))
  {
    EncodeDecoded(encoded);
    var d := DecodeText(encoded).value;
    VersionedParts(d.hrp, d.payload);
    var name := d.hrp[3..];
    VersionedPayload(d.hrp, name, d.payload, SecretLength(name));
    hide DecodeText, EncodeText, DecodePayload, DecodeVersioned, KeyPayload, Representable, VersionedMethod, SecretLength;
  }
}
