/** The wire protocol: fixed little-endian blocks, the tenant header TLV, three authentication framings,
    and the request and response PDUs. */
module Wire {
  import opened Prelude
  import opened LittleEndian

  const TLV_TENANT: u16 := 0x4C52
  const TLV_AUTH_NONE: u16 := 0x414E
  const TLV_AUTH_COOKIE: u16 := 0x4143
  const TLV_AUTH_AES: u16 := 0x4541
  const TLV_METRICS_LABEL: u16 := 0x4C4D
  const PDU_RATE_REQUEST: u16 := 0x5452
  const PDU_RATE_RESPONSE: u16 := 0x5252

  const TENANT_TLV_LEN: nat := 40
  const PDU_HEADER_LEN: nat := 8
  const MAX_PACKET_SIZE: nat := 1200
  const GUARD_LEN: nat := 36
  const RESOURCE_LEN: nat := 28

  type Id = s: seq<byte> | |s| == 16 witness seq(16, _ => 0)
  type Pad = s: seq<byte> | |s| == 2 witness [0, 0]
  type Secret = s: seq<byte> | |s| == 32 witness seq(32, _ => 0)
  type Nonce = s: seq<byte> | |s| == 12 witness seq(12, _ => 0)

  datatype TenantHeader = TenantHeader(
    tlvType: u16, tlvSize: u16, keyId: u64, uniqueId: Id, timeStamp: u64,
    steeringFeedback: byte, tenantMgmtFlag: byte, padding: Pad)

  datatype GuardBlock = GuardBlock(
    latencyTrackerId: Id, ttlMs: u32, maxSamples: u32, minSampleThreshold: u32,
    latencyThreshold: u32, currentLatency: u32)

  datatype ResourceBlock = ResourceBlock(
    bucketId: Id, windowSizeMs: u32, rateLimit: u32, tokensRequested: u16, padding: u16)

  // ---------------------------------------------------------------- blocks

  function HeaderBytes(h: TenantHeader): (bytes: seq<byte>)
    ensures |bytes| == TENANT_TLV_LEN
  {
    ToLe(h.tlvType, 2) + ToLe(h.tlvSize, 2) + ToLe(h.keyId, 8) + h.uniqueId + ToLe(h.timeStamp, 8)
    + [h.steeringFeedback] + [h.tenantMgmtFlag] + h.padding
  }

  function ReadHeader(buf: seq<byte>): TenantHeader
    requires |buf| >= TENANT_TLV_LEN
  {
    TenantHeader(ReadU16(buf[0..2]), ReadU16(buf[2..4]), ReadU64(buf[4..12]), buf[12..28], ReadU64(buf[28..36]),
                 buf[36], buf[37], buf[38..40])
  }

  function GuardBytes(b: GuardBlock): (bytes: seq<byte>)
    ensures |bytes| == GUARD_LEN
  {
    b.latencyTrackerId + ToLe(b.ttlMs, 4) + ToLe(b.maxSamples, 4) + ToLe(b.minSampleThreshold, 4)
    + ToLe(b.latencyThreshold, 4) + ToLe(b.currentLatency, 4)
  }

  function ReadGuard(buf: seq<byte>): GuardBlock
    requires |buf| >= GUARD_LEN
  {
    GuardBlock(buf[0..16], ReadU32(buf[16..20]), ReadU32(buf[20..24]), ReadU32(buf[24..28]),
               ReadU32(buf[28..32]), ReadU32(buf[32..36]))
  }

  function ResourceBytes(b: ResourceBlock): (bytes: seq<byte>)
    ensures |bytes| == RESOURCE_LEN
  {
    b.bucketId + ToLe(b.windowSizeMs, 4) + ToLe(b.rateLimit, 4) + ToLe(b.tokensRequested, 2) + ToLe(b.padding, 2)
  }

  function ReadResource(buf: seq<byte>): ResourceBlock
    requires |buf| >= RESOURCE_LEN
  {
    ResourceBlock(buf[0..16], ReadU32(buf[16..20]), ReadU32(buf[20..24]), ReadU16(buf[24..26]), ReadU16(buf[26..28]))
  }

  lemma HeaderRoundTrip(h: TenantHeader, tail: seq<byte>)
    ensures ReadHeader(HeaderBytes(h) + tail) == h
  {
    U16RoundTrip(h.tlvType);
    U16RoundTrip(h.tlvSize);
    U64RoundTrip(h.keyId);
    U64RoundTrip(h.timeStamp);
    hide ToLe, FromLe;
    var b := HeaderBytes(h) + tail;
    assert b[0..2] == ToLe(h.tlvType, 2) && b[2..4] == ToLe(h.tlvSize, 2);
    assert b[4..12] == ToLe(h.keyId, 8) && b[12..28] == h.uniqueId;
    assert b[28..36] == ToLe(h.timeStamp, 8) && b[38..40] == h.padding;
  }

  lemma GuardRoundTrip(g: GuardBlock, tail: seq<byte>)
    ensures ReadGuard(GuardBytes(g) + tail) == g
  {
    U32RoundTrip(g.ttlMs);
    U32RoundTrip(g.maxSamples);
    U32RoundTrip(g.minSampleThreshold);
    U32RoundTrip(g.latencyThreshold);
    U32RoundTrip(g.currentLatency);
    hide ToLe, FromLe;
    var b := GuardBytes(g) + tail;
    assert b[0..16] == g.latencyTrackerId && b[16..20] == ToLe(g.ttlMs, 4);
    assert b[20..24] == ToLe(g.maxSamples, 4) && b[24..28] == ToLe(g.minSampleThreshold, 4);
    assert b[28..32] == ToLe(g.latencyThreshold, 4) && b[32..36] == ToLe(g.currentLatency, 4);
  }

  lemma ResourceRoundTrip(r: ResourceBlock, tail: seq<byte>)
    ensures ReadResource(ResourceBytes(r) + tail) == r
  {
    U32RoundTrip(r.windowSizeMs);
    U32RoundTrip(r.rateLimit);
    U16RoundTrip(r.tokensRequested);
    U16RoundTrip(r.padding);
    hide ToLe, FromLe;
    var b := ResourceBytes(r) + tail;
    assert b[0..16] == r.bucketId && b[16..20] == ToLe(r.windowSizeMs, 4);
    assert b[20..24] == ToLe(r.rateLimit, 4);
    assert b[24..26] == ToLe(r.tokensRequested, 2) && b[26..28] == ToLe(r.padding, 2);
  }

  /** Where each field of a header is, in little-endian order. */
  lemma HeaderLayout(h: TenantHeader)
    ensures var b := HeaderBytes(h);
      && b[0..2] == ToLe(h.tlvType, 2) && b[2..4] == ToLe(h.tlvSize, 2) && b[4..12] == ToLe(h.keyId, 8)
      && b[12..28] == h.uniqueId && b[28..36] == ToLe(h.timeStamp, 8)
      && b[36] == h.steeringFeedback && b[37] == h.tenantMgmtFlag && b[38..40] == h.padding
  {
    hide ToLe;
  }

  lemma GuardLayout(g: GuardBlock)
    ensures var b := GuardBytes(g);
      && b[0..16] == g.latencyTrackerId && b[16..20] == ToLe(g.ttlMs, 4) && b[20..24] == ToLe(g.maxSamples, 4)
      && b[24..28] == ToLe(g.minSampleThreshold, 4) && b[28..32] == ToLe(g.latencyThreshold, 4)
      && b[32..36] == ToLe(g.currentLatency, 4)
  {
    hide ToLe;
  }

  lemma ResourceLayout(r: ResourceBlock)
    ensures var b := ResourceBytes(r);
      && b[0..16] == r.bucketId && b[16..20] == ToLe(r.windowSizeMs, 4) && b[20..24] == ToLe(r.rateLimit, 4)
      && b[24..26] == ToLe(r.tokensRequested, 2) && b[26..28] == ToLe(r.padding, 2)
  {
    hide ToLe;
  }

  /** `s` with the bytes from `at` on replaced by `src`. */
  function Overwrite(s: seq<byte>, at: nat, src: seq<byte>): seq<byte>
    requires at + |src| <= |s|
  {
    s[..at] + src + s[at + |src|..]
  }

  /** copy_from_slice into a field of the buffer, after the fields `written` in front of it. */
  method PutField(buf: array<byte>, ghost start: seq<byte>, at: nat, ghost written: seq<byte>, off: nat, src: seq<byte>)
    requires |start| == buf.Length && off == at + |written| && off + |src| <= buf.Length
    requires buf[..] == Overwrite(start, at, written)
    modifies buf
    ensures buf[..] == Overwrite(start, at, written + src)
  {
    ghost var before := buf[..];
    for k := 0 to |src|
      invariant forall i :: 0 <= i < k ==> buf[off + i] == src[i]
      invariant forall i :: 0 <= i < buf.Length && !(off <= i < off + k) ==> buf[i] == before[i]
    {
      buf[off + k] := src[k];
    }
    OverwriteAt(before, off, src, buf[..]);
    OverwriteJoin(start, at, written, src);
  }

  lemma OverwriteAt(s: seq<byte>, at: nat, src: seq<byte>, t: seq<byte>)
    requires at + |src| <= |s| == |t|
    requires forall i :: 0 <= i < |src| ==> t[at + i] == src[i]
    requires forall i :: 0 <= i < |s| && !(at <= i < at + |src|) ==> t[i] == s[i]
    ensures t == Overwrite(s, at, src)
  {
    var w := Overwrite(s, at, src);
    forall i | 0 <= i < |t| ensures t[i] == w[i] {
      if at <= i < at + |src| {
        assert t[at + (i - at)] == src[i - at];
      }
    }
  }

  lemma OverwriteJoin(s: seq<byte>, at: nat, written: seq<byte>, src: seq<byte>)
    requires at + |written| + |src| <= |s|
    ensures Overwrite(Overwrite(s, at, written), at + |written|, src) == Overwrite(s, at, written + src)
  {}

  lemma WholeOverwrite(s: seq<byte>, src: seq<byte>)
    requires |src| <= |s|
    ensures Overwrite(s, 0, []) == s && Overwrite(s, 0, src) == src + s[|src|..]
  {}

  lemma NothingWritten(s: seq<byte>, at: nat)
    requires at <= |s|
    ensures Overwrite(s, at, []) == s
  {}

  /** The field-by-field writes into a caller's buffer. */
  method WriteHeader(buf: array<byte>, h: TenantHeader)
    requires buf.Length >= TENANT_TLV_LEN
    modifies buf
    ensures buf[..] == Overwrite(old(buf[..]), 0, HeaderBytes(h))
  {
    hide ToLe, Overwrite;
    ghost var start := buf[..];
    NothingWritten(start, 0);
    ghost var w1 := ToLe(h.tlvType, 2);
    ghost var w2 := w1 + ToLe(h.tlvSize, 2);
    ghost var w3 := w2 + ToLe(h.keyId, 8);
    ghost var w4 := w3 + h.uniqueId;
    ghost var w5 := w4 + ToLe(h.timeStamp, 8);
    ghost var w6 := w5 + [h.steeringFeedback];
    ghost var w7 := w6 + [h.tenantMgmtFlag];
    PutField(buf, start, 0, [], 0, ToLe(h.tlvType, 2));
    assert [] + ToLe(h.tlvType, 2) == w1;
    PutField(buf, start, 0, w1, 2, ToLe(h.tlvSize, 2));
    PutField(buf, start, 0, w2, 4, ToLe(h.keyId, 8));
    PutField(buf, start, 0, w3, 12, h.uniqueId);
    PutField(buf, start, 0, w4, 28, ToLe(h.timeStamp, 8));
    PutField(buf, start, 0, w5, 36, [h.steeringFeedback]);
    PutField(buf, start, 0, w6, 37, [h.tenantMgmtFlag]);
    PutField(buf, start, 0, w7, 38, h.padding);
  }

  method WriteGuard(buf: array<byte>, at: nat, b: GuardBlock)
    requires at + GUARD_LEN <= buf.Length
    modifies buf
    ensures buf[..] == Overwrite(old(buf[..]), at, GuardBytes(b))
  {
    hide ToLe, Overwrite;
    ghost var start := buf[..];
    NothingWritten(start, at);
    ghost var w1 := b.latencyTrackerId;
    ghost var w2 := w1 + ToLe(b.ttlMs, 4);
    ghost var w3 := w2 + ToLe(b.maxSamples, 4);
    ghost var w4 := w3 + ToLe(b.minSampleThreshold, 4);
    ghost var w5 := w4 + ToLe(b.latencyThreshold, 4);
    PutField(buf, start, at, [], at, b.latencyTrackerId);
    assert [] + b.latencyTrackerId == w1;
    PutField(buf, start, at, w1, at + 16, ToLe(b.ttlMs, 4));
    PutField(buf, start, at, w2, at + 20, ToLe(b.maxSamples, 4));
    PutField(buf, start, at, w3, at + 24, ToLe(b.minSampleThreshold, 4));
    PutField(buf, start, at, w4, at + 28, ToLe(b.latencyThreshold, 4));
    PutField(buf, start, at, w5, at + 32, ToLe(b.currentLatency, 4));
  }

  method WriteResource(buf: array<byte>, at: nat, b: ResourceBlock)
    requires at + RESOURCE_LEN <= buf.Length
    modifies buf
    ensures buf[..] == Overwrite(old(buf[..]), at, ResourceBytes(b))
  {
    hide ToLe, Overwrite;
    ghost var start := buf[..];
    NothingWritten(start, at);
    ghost var w1 := b.bucketId;
    ghost var w2 := w1 + ToLe(b.windowSizeMs, 4);
    ghost var w3 := w2 + ToLe(b.rateLimit, 4);
    ghost var w4 := w3 + ToLe(b.tokensRequested, 2);
    PutField(buf, start, at, [], at, b.bucketId);
    assert [] + b.bucketId == w1;
    PutField(buf, start, at, w1, at + 16, ToLe(b.windowSizeMs, 4));
    PutField(buf, start, at, w2, at + 20, ToLe(b.rateLimit, 4));
    PutField(buf, start, at, w3, at + 24, ToLe(b.tokensRequested, 2));
    PutField(buf, start, at, w4, at + 26, ToLe(b.padding, 2));
  }

  // ---------------------------------------------------------------- block lists

  function GuardsBytes(guards: seq<GuardBlock>): (bytes: seq<byte>)
    ensures |bytes| == GUARD_LEN * |guards|
  {
    if guards == [] then [] else GuardsBytes(guards[..|guards| - 1]) + GuardBytes(guards[|guards| - 1])
  }

  function ResourcesBytes(resources: seq<ResourceBlock>): (bytes: seq<byte>)
    ensures |bytes| == RESOURCE_LEN * |resources|
  {
    if resources == [] then []
    else ResourcesBytes(resources[..|resources| - 1]) + ResourceBytes(resources[|resources| - 1])
  }

  function GuardsAt(body: seq<byte>, at: nat, count: nat): (guards: seq<GuardBlock>)
    requires at + GUARD_LEN * count <= |body|
    ensures |guards| == count
  {
    seq(count, i requires 0 <= i < count => ReadGuard(body[at + GUARD_LEN * i..]))
  }

  function ResourcesAt(body: seq<byte>, at: nat, count: nat): (resources: seq<ResourceBlock>)
    requires at + RESOURCE_LEN * count <= |body|
    ensures |resources| == count
  {
    seq(count, i requires 0 <= i < count => ReadResource(body[at + RESOURCE_LEN * i..]))
  }

  lemma {:induction false} GuardsRoundTrip(head: seq<byte>, guards: seq<GuardBlock>, tail: seq<byte>)
    ensures GuardsAt(head + GuardsBytes(guards) + tail, |head|, |guards|) == guards
  {
    hide ReadGuard, GuardBytes;
    if guards != [] {
      var n := |guards| - 1;
      var last := GuardBytes(guards[n]);
      GuardsRoundTrip(head, guards[..n], last + tail);
      var body := head + GuardsBytes(guards) + tail;
      assert body == head + GuardsBytes(guards[..n]) + (last + tail);
      assert body[|head| + GUARD_LEN * n..] == last + tail;
      GuardRoundTrip(guards[n], tail);
      assert GuardsAt(body, |head|, |guards|) == GuardsAt(body, |head|, n) + [guards[n]];
    }
  }

  lemma {:induction false} ResourcesRoundTrip(head: seq<byte>, resources: seq<ResourceBlock>, tail: seq<byte>)
    ensures ResourcesAt(head + ResourcesBytes(resources) + tail, |head|, |resources|) == resources
  {
    hide ReadResource, ResourceBytes;
    if resources != [] {
      var n := |resources| - 1;
      var last := ResourceBytes(resources[n]);
      ResourcesRoundTrip(head, resources[..n], last + tail);
      var body := head + ResourcesBytes(resources) + tail;
      assert body == head + ResourcesBytes(resources[..n]) + (last + tail);
      assert body[|head| + RESOURCE_LEN * n..] == last + tail;
      ResourceRoundTrip(resources[n], tail);
      assert ResourcesAt(body, |head|, |resources|) == ResourcesAt(body, |head|, n) + [resources[n]];
    }
  }

  // ---------------------------------------------------------------- printing a PDU

  datatype WireError =
    | LabelTooLong | LabelTlvTooLarge | PduTooLarge | PacketTooLarge
    | TenantShort | TenantType | TenantTooSmall | TenantBodyShort
    | AuthShort | AuthSize | AuthBodyShort | AuthMismatch | CookieMismatch | DecryptionFailed
    | PduShort | PduType | PduSize | PduIncomplete | CountsShort | GuardShort | ResourceShort

  /** The metrics-label TLV, padded with zeros to a multiple of four bytes. */
  function LabelTlv(text: seq<byte>): Result<seq<byte>, WireError> {
    var bodyLen := 2 + |text|;
    var padding := (4 - bodyLen % 4) % 4;
    var size := 4 + bodyLen + padding;
    if |text| > U16_MAX then Err(LabelTooLong)
    else if size > U16_MAX then Err(LabelTlvTooLarge)
    else Ok(ToLe(TLV_METRICS_LABEL, 2) + ToLe(size, 2) + ToLe(|text|, 2) + text + [0, 0, 0, 0][..padding])
  }

  lemma LabelSize(length: nat)
    ensures var padding := (4 - (2 + length) % 4) % 4;
            0 <= padding < 4 && (4 + (2 + length) + padding) % 4 == 0
  {}

  /** A label TLV occupies exactly the whole number of words its size field says, and carries the
      label. */
  lemma LabelTlvFields(text: seq<byte>, tail: seq<byte>)
    requires LabelTlv(text).Ok?
    ensures var b := LabelTlv(text).value + tail; var size := |LabelTlv(text).value|;
            && size % 4 == 0 && ReadU16(b[0..2]) == 0x4C4D && ReadU16(b[2..4]) == size
            && ReadU16(b[4..6]) == |text| && b[6..6 + |text|] == text && 6 + |text| <= size < 10 + |text|
  {
    var tlv, size := LabelTlv(text).value, |LabelTlv(text).value|;
    var body := text + [0, 0, 0, 0][..size - 6 - |text|] + tail;
    LabelSize(|text|);
    assert tlv + tail == ToLe(TLV_METRICS_LABEL, 2) + ToLe(size, 2) + ToLe(|text|, 2) + body;
    hide LabelTlv;
    ThreeWords(TLV_METRICS_LABEL, size, |text|, body);
    hide ToLe, ReadU16;
    assert (tlv + tail)[6..6 + |text|] == (tlv + tail)[6..][..|text|] == text;
  }

  lemma ThreeWords(a: u16, b: u16, c: u16, body: seq<byte>)
    ensures var s := ToLe(a, 2) + ToLe(b, 2) + ToLe(c, 2) + body;
            ReadU16(s[0..2]) == a && ReadU16(s[2..4]) == b && ReadU16(s[4..6]) == c && s[6..] == body
  {
    U16RoundTrip(a);
    U16RoundTrip(b);
    U16RoundTrip(c);
    hide ToLe, FromLe;
    var s := ToLe(a, 2) + ToLe(b, 2) + ToLe(c, 2) + body;
    assert s[0..2] == ToLe(a, 2) && s[2..4] == ToLe(b, 2) && s[4..6] == ToLe(c, 2);
  }

  /** The counts are written as 16-bit fields, whatever the lists' lengths. */
  function Body(guards: seq<GuardBlock>, resources: seq<ResourceBlock>, tail: seq<byte>): (body: seq<byte>)
    ensures |body| == 4 + GUARD_LEN * |guards| + RESOURCE_LEN * |resources| + |tail|
  {
    ToLe(|guards| % 0x1_0000, 2) + ToLe(|resources| % 0x1_0000, 2)
    + GuardsBytes(guards) + ResourcesBytes(resources) + tail
  }

  function RequestBody(guards: seq<GuardBlock>, resources: seq<ResourceBlock>, text: Option<seq<byte>>)
    : Result<seq<byte>, WireError>
  {
    match text
    case None => Ok(Body(guards, resources, []))
    case Some(t) =>
      match LabelTlv(t)
      case Err(e) => Err(e)
      case Ok(tlv) => Ok(Body(guards, resources, tlv))
  }

  /** Builds the body by growing a buffer block by block. */
  method BuildRateRequestBody(guards: seq<GuardBlock>, resources: seq<ResourceBlock>, text: Option<seq<byte>>)
    returns (r: Result<seq<byte>, WireError>)
    ensures r == RequestBody(guards, resources, text)
  {
    hide ToLe, GuardBytes, ResourceBytes, LabelTlv;
    var body := ToLe(|guards| % 0x1_0000, 2) + ToLe(|resources| % 0x1_0000, 2);
    ghost var counts := body;
    for k := 0 to |guards|
      invariant body == counts + GuardsBytes(guards[..k])
    {
      assert guards[..k + 1][..k] == guards[..k];
      body := body + GuardBytes(guards[k]);
    }
    assert guards[..|guards|] == guards;
    ghost var withGuards := body;
    for k := 0 to |resources|
      invariant body == withGuards + ResourcesBytes(resources[..k])
    {
      assert resources[..k + 1][..k] == resources[..k];
      body := body + ResourceBytes(resources[k]);
    }
    assert resources[..|resources|] == resources;
    if text.Some? {
      var tlv := LabelTlv(text.value);
      if tlv.Err? {
        return Err(tlv.error);
      }
      body := body + tlv.value;
    } else {
      assert body + [] == body;
    }
    r := Ok(body);
  }

  /** An eight-byte PDU header and a body; `word` is the deduplication lifetime of a request. */
  function Pdu(pduType: u16, word: u32, body: seq<byte>): Result<seq<byte>, WireError> {
    if PDU_HEADER_LEN + |body| > U16_MAX then Err(PduTooLarge)
    else Ok(ToLe(pduType, 2) + ToLe(PDU_HEADER_LEN + |body|, 2) + ToLe(word, 4) + body)
  }

  lemma PduFields(pduType: u16, word: u32, body: seq<byte>, tail: seq<byte>)
    requires Pdu(pduType, word, body).Ok?
    ensures var p := Pdu(pduType, word, body).value + tail;
            && |Pdu(pduType, word, body).value| == PDU_HEADER_LEN + |body|
            && ReadU16(p[0..2]) == pduType && ReadU16(p[2..4]) == PDU_HEADER_LEN + |body|
            && ReadU32(p[4..8]) == word && p[PDU_HEADER_LEN..PDU_HEADER_LEN + |body|] == body
  {
    var p := Pdu(pduType, word, body).value + tail;
    U16RoundTrip(pduType);
    U16RoundTrip(PDU_HEADER_LEN + |body|);
    U32RoundTrip(word);
    hide ToLe, FromLe;
    assert p[0..2] == ToLe(pduType, 2) && p[2..4] == ToLe(PDU_HEADER_LEN + |body|, 2) && p[4..8] == ToLe(word, 4);
  }

  // ---------------------------------------------------------------- parsing a response PDU

  datatype GuardResult = GuardResult(latencyTrackerId: Id, thresholdMs: u32, currentLatencyMs: u32, passed: bool)

  datatype ResourceResult = ResourceResult(bucketId: Id, tokensDeficit: u16, actualRate: u32)

  datatype RateLimitResult = RateLimitResult(
    success: bool, guardResults: seq<GuardResult>, resourceResults: seq<ResourceResult>,
    serverId: u64, steeringFeedback: bool)

  function GuardOutcome(b: GuardBlock): GuardResult {
    GuardResult(b.latencyTrackerId, b.latencyThreshold, b.currentLatency, b.currentLatency < b.latencyThreshold)
  }

  function ResourceOutcome(b: ResourceBlock): ResourceResult {
    ResourceResult(b.bucketId, b.tokensRequested, b.rateLimit)
  }

  function GuardOutcomes(blocks: seq<GuardBlock>): seq<GuardResult> {
    seq(|blocks|, i requires 0 <= i < |blocks| => GuardOutcome(blocks[i]))
  }

  function ResourceOutcomes(blocks: seq<ResourceBlock>): seq<ResourceResult> {
    seq(|blocks|, i requires 0 <= i < |blocks| => ResourceOutcome(blocks[i]))
  }

  predicate Succeeds(guards: seq<GuardBlock>, resources: seq<ResourceBlock>) {
    && (forall i :: 0 <= i < |guards| ==> guards[i].currentLatency < guards[i].latencyThreshold)
    && (forall i :: 0 <= i < |resources| ==> resources[i].tokensRequested == 0)
  }

  function Outcome(guards: seq<GuardBlock>, resources: seq<ResourceBlock>, serverId: u64, steering: bool)
    : RateLimitResult
  {
    RateLimitResult(Succeeds(guards, resources), GuardOutcomes(guards), ResourceOutcomes(resources), serverId, steering)
  }

  function ParseBody(body: seq<byte>, serverId: u64, steering: bool): Result<RateLimitResult, WireError> {
    if |body| < 4 then Err(CountsShort)
    else
      var g, r: nat := ReadU16(body[0..2]), ReadU16(body[2..4]);
      if |body| < 4 + GUARD_LEN * g then Err(GuardShort)
      else if |body| < 4 + GUARD_LEN * g + RESOURCE_LEN * r then Err(ResourceShort)
      else Ok(Outcome(GuardsAt(body, 4, g), ResourcesAt(body, 4 + GUARD_LEN * g, r), serverId, steering))
  }

  function ParsePdu(pdu: seq<byte>, serverId: u64, steering: bool): Result<RateLimitResult, WireError> {
    if |pdu| < PDU_HEADER_LEN then Err(PduShort)
    else if ReadU16(pdu[0..2]) != PDU_RATE_RESPONSE then Err(PduType)
    else
      var size: nat := ReadU16(pdu[2..4]);
      if size < PDU_HEADER_LEN then Err(PduSize)
      else if |pdu| < size then Err(PduIncomplete)
      else ParseBody(pdu[PDU_HEADER_LEN..size], serverId, steering)
  }

  lemma AllPassed(guards: seq<GuardBlock>, resources: seq<ResourceBlock>)
    ensures Succeeds(guards, resources) <==>
              (forall g :: g in GuardOutcomes(guards) ==> g.passed)
              && (forall r :: r in ResourceOutcomes(resources) ==> r.tokensDeficit == 0)
  {
    forall i | 0 <= i < |guards| ensures GuardOutcome(guards[i]) in GuardOutcomes(guards) {
      assert GuardOutcomes(guards)[i] == GuardOutcome(guards[i]);
    }
    forall i | 0 <= i < |resources| ensures ResourceOutcome(resources[i]) in ResourceOutcomes(resources) {
      assert ResourceOutcomes(resources)[i] == ResourceOutcome(resources[i]);
    }
  }

  /** The parser's loops: a cursor over the body, stopping at the first block that does not fit. */
  method ParseRateResponsePdu(pdu: seq<byte>, serverId: u64, steering: bool)
    returns (result: Result<RateLimitResult, WireError>)
    ensures result == ParsePdu(pdu, serverId, steering)
  {
    hide ReadGuard, ReadResource, ReadU16;
    if |pdu| < PDU_HEADER_LEN {
      return Err(PduShort);
    }
    if ReadU16(pdu[0..2]) != PDU_RATE_RESPONSE {
      return Err(PduType);
    }
    var size: nat := ReadU16(pdu[2..4]);
    if size < PDU_HEADER_LEN {
      return Err(PduSize);
    }
    if |pdu| < size {
      return Err(PduIncomplete);
    }
    var body := pdu[PDU_HEADER_LEN..size];
    if |body| < 4 {
      return Err(CountsShort);
    }
    var guardCount: nat, resourceCount: nat := ReadU16(body[0..2]), ReadU16(body[2..4]);
    var pos := 4;
    var guardResults: seq<GuardResult> := [];
    for k := 0 to guardCount
      invariant pos == 4 + GUARD_LEN * k <= |body|
      invariant guardResults == GuardOutcomes(GuardsAt(body, 4, k))
    {
      if |body| < pos + GUARD_LEN {
        return Err(GuardShort);
      }
      var block := ReadGuard(body[pos..]);
      assert GuardsAt(body, 4, k + 1) == GuardsAt(body, 4, k) + [block];
      pos := pos + GUARD_LEN;
      guardResults := guardResults + [GuardOutcome(block)];
    }
    ghost var start := pos;
    ghost var guards := GuardsAt(body, 4, guardCount);
    var resourceResults: seq<ResourceResult> := [];
    for k := 0 to resourceCount
      invariant pos == start + RESOURCE_LEN * k <= |body|
      invariant resourceResults == ResourceOutcomes(ResourcesAt(body, start, k))
    {
      if |body| < pos + RESOURCE_LEN {
        return Err(ResourceShort);
      }
      var block := ReadResource(body[pos..]);
      assert ResourcesAt(body, start, k + 1) == ResourcesAt(body, start, k) + [block];
      pos := pos + RESOURCE_LEN;
      resourceResults := resourceResults + [ResourceOutcome(block)];
    }
    var success := (forall g :: g in guardResults ==> g.passed)
                   && (forall r :: r in resourceResults ==> r.tokensDeficit == 0);
    AllPassed(guards, ResourcesAt(body, start, resourceCount));
    result := Ok(RateLimitResult(success, guardResults, resourceResults, serverId, steering));
  }

  lemma CountFields(guards: seq<GuardBlock>, resources: seq<ResourceBlock>, tail: seq<byte>)
    ensures var b := Body(guards, resources, tail);
            ReadU16(b[0..2]) == |guards| % 0x1_0000 && ReadU16(b[2..4]) == |resources| % 0x1_0000
  {
    U16RoundTrip(|guards| % 0x1_0000);
    U16RoundTrip(|resources| % 0x1_0000);
    hide ToLe, FromLe;
    var b := Body(guards, resources, tail);
    assert b[0..2] == ToLe(|guards| % 0x1_0000, 2) && b[2..4] == ToLe(|resources| % 0x1_0000, 2);
  }

  /** A body whose counts fit is read back block by block, whatever follows the blocks. */
  lemma BodyRoundTrip(guards: seq<GuardBlock>, resources: seq<ResourceBlock>, tail: seq<byte>)
    requires |guards| <= U16_MAX && |resources| <= U16_MAX
    ensures var b := Body(guards, resources, tail);
            && ReadU16(b[0..2]) == |guards| && ReadU16(b[2..4]) == |resources|
            && GuardsAt(b, 4, |guards|) == guards
            && ResourcesAt(b, 4 + GUARD_LEN * |guards|, |resources|) == resources
  {
    CountFields(guards, resources, tail);
    hide ToLe, FromLe, ReadU16, GuardBytes, ResourceBytes, ReadGuard, ReadResource, GuardsAt, ResourcesAt;
    var counts := ToLe(|guards| % 0x1_0000, 2) + ToLe(|resources| % 0x1_0000, 2);
    var g, r := GuardsBytes(guards), ResourcesBytes(resources);
    GuardsRoundTrip(counts, guards, r + tail);
    ResourcesRoundTrip(counts + g, resources, tail);
    assert counts + g + (r + tail) == counts + g + r + tail;
    assert Body(guards, resources, tail) == counts + g + r + tail;
  }

  lemma ParsedBody(guards: seq<GuardBlock>, resources: seq<ResourceBlock>, tail: seq<byte>, serverId: u64, steering: bool)
    requires |guards| <= U16_MAX && |resources| <= U16_MAX
    ensures ParseBody(Body(guards, resources, tail), serverId, steering)
         == Ok(Outcome(guards, resources, serverId, steering))
  {
    BodyRoundTrip(guards, resources, tail);
    hide ToLe, FromLe, ReadU16, Body, GuardsAt, ResourcesAt, Outcome;
  }

  /** The caller's view of a response, block by block: each guard with its own threshold and latency, passed
      exactly when the latency is below the threshold, each resource with its deficit and rate, and success
      exactly when every guard passed and nothing is in deficit. */
  ghost predicate Reports(result: RateLimitResult, guards: seq<GuardBlock>, resources: seq<ResourceBlock>, serverId: u64,
                          steering: bool)
  {
    && |result.guardResults| == |guards| && |result.resourceResults| == |resources|
    && (forall i :: 0 <= i < |guards| ==>
          var x, b := result.guardResults[i], guards[i];
          && x.latencyTrackerId == b.latencyTrackerId && x.thresholdMs == b.latencyThreshold
          && x.currentLatencyMs == b.currentLatency && (x.passed <==> b.currentLatency < b.latencyThreshold))
    && (forall i :: 0 <= i < |resources| ==>
          var x, b := result.resourceResults[i], resources[i];
          x.bucketId == b.bucketId && x.tokensDeficit == b.tokensRequested && x.actualRate == b.rateLimit)
    && (result.success <==>
          && (forall i :: 0 <= i < |guards| ==> guards[i].currentLatency < guards[i].latencyThreshold)
          && (forall i :: 0 <= i < |resources| ==> resources[i].tokensRequested == 0))
    && result.serverId == serverId && result.steeringFeedback == steering
  }

  lemma OutcomeReports(guards: seq<GuardBlock>, resources: seq<ResourceBlock>, serverId: u64, steering: bool)
    ensures Reports(Outcome(guards, resources, serverId, steering), guards, resources, serverId, steering)
  {}

  /** Parsing a printed response reports every guard and resource block, in order. Trailing TLVs inside the PDU
      and bytes beyond its size change nothing. */
  lemma ResponseRoundTrip(guards: seq<GuardBlock>, resources: seq<ResourceBlock>, tlvs: seq<byte>, word: u32,
                          extra: seq<byte>, serverId: u64, steering: bool)
    requires Pdu(PDU_RATE_RESPONSE, word, Body(guards, resources, tlvs)).Ok?
    ensures var parsed := ParsePdu(Pdu(PDU_RATE_RESPONSE, word, Body(guards, resources, tlvs)).value + extra, serverId, steering);
      parsed.Ok? && Reports(parsed.value, guards, resources, serverId, steering)
  {
    var body := Body(guards, resources, tlvs);
    var pdu := Pdu(PDU_RATE_RESPONSE, word, body).value;
    ParsedBody(guards, resources, tlvs, serverId, steering);
    PduFields(PDU_RATE_RESPONSE, word, body, extra);
    OutcomeReports(guards, resources, serverId, steering);
    hide ToLe, FromLe, ReadU16, Pdu, Body, Outcome, ParseBody, Reports;
  }

  /** What a byte string must be to be accepted as a response PDU, byte by byte: the type, a size that fits it,
      and two counts whose blocks fit the size. */
  predicate ResponseShape(p: seq<byte>) {
    && |p| >= 12 && p[0] == 0x52 && p[1] == 0x52
    && var size := p[2] as int + 0x100 * (p[3] as int);
       var g, r := p[8] as int + 0x100 * (p[9] as int), p[10] as int + 0x100 * (p[11] as int);
       12 + 36 * g + 28 * r <= size <= |p|
  }

  /** Block i of a response starts at byte 12 + 36 * i, resource i behind the guards. */
  ghost predicate BlocksOf(p: seq<byte>, guards: seq<GuardBlock>, resources: seq<ResourceBlock>)
    requires ResponseShape(p)
  {
    && |guards| == p[8] as int + 0x100 * (p[9] as int)
    && |resources| == p[10] as int + 0x100 * (p[11] as int)
    && (forall i :: 0 <= i < |guards| ==> p[12 + 36 * i..48 + 36 * i] == GuardBytes(guards[i]))
    && (forall i :: 0 <= i < |resources| ==>
          p[12 + 36 * |guards| + 28 * i..40 + 36 * |guards| + 28 * i] == ResourceBytes(resources[i]))
  }

  lemma ReadU16At(b: seq<byte>, at: nat)
    requires at + 2 <= |b|
    ensures ReadU16(b[at..at + 2]) == b[at] as int + 0x100 * (b[at + 1] as int)
  {
    TwoBytes(b[at..at + 2]);
    hide FromLe;
  }

  /** A block is determined by its bytes. */
  lemma GuardOfBytes(buf: seq<byte>)
    requires |buf| >= GUARD_LEN
    ensures GuardBytes(ReadGuard(buf)) == buf[..GUARD_LEN]
  {
    ToFromLe(buf[16..20]);
    ToFromLe(buf[20..24]);
    ToFromLe(buf[24..28]);
    ToFromLe(buf[28..32]);
    ToFromLe(buf[32..36]);
    hide ToLe, FromLe;
    assert buf[..GUARD_LEN] == buf[0..16] + buf[16..20] + buf[20..24] + buf[24..28] + buf[28..32] + buf[32..36];
  }

  lemma ResourceOfBytes(buf: seq<byte>)
    requires |buf| >= RESOURCE_LEN
    ensures ResourceBytes(ReadResource(buf)) == buf[..RESOURCE_LEN]
  {
    ToFromLe(buf[16..20]);
    ToFromLe(buf[20..24]);
    ToFromLe(buf[24..26]);
    ToFromLe(buf[26..28]);
    hide ToLe, FromLe;
    assert buf[..RESOURCE_LEN] == buf[0..16] + buf[16..20] + buf[20..24] + buf[24..26] + buf[26..28];
  }

  lemma BlocksAt(p: seq<byte>, body: seq<byte>, g: nat, r: nat)
    requires 4 + GUARD_LEN * g + RESOURCE_LEN * r <= |body| && 8 + |body| <= |p| && body == p[8..8 + |body|]
    ensures forall i :: 0 <= i < g ==> p[12 + 36 * i..48 + 36 * i] == GuardBytes(GuardsAt(body, 4, g)[i])
    ensures forall i :: 0 <= i < r ==>
              p[12 + 36 * g + 28 * i..40 + 36 * g + 28 * i] == ResourceBytes(ResourcesAt(body, 4 + GUARD_LEN * g, r)[i])
  {
    hide GuardBytes, ReadGuard, ResourceBytes, ReadResource;
    forall i | 0 <= i < g
      ensures p[12 + 36 * i..48 + 36 * i] == GuardBytes(GuardsAt(body, 4, g)[i])
    {
      var rest := body[4 + GUARD_LEN * i..];
      GuardOfBytes(rest);
      assert rest[..GUARD_LEN] == p[12 + 36 * i..48 + 36 * i];
    }
    forall i | 0 <= i < r
      ensures p[12 + 36 * g + 28 * i..40 + 36 * g + 28 * i] == ResourceBytes(ResourcesAt(body, 4 + GUARD_LEN * g, r)[i])
    {
      var rest := body[4 + GUARD_LEN * g + RESOURCE_LEN * i..];
      ResourceOfBytes(rest);
      assert rest[..RESOURCE_LEN] == p[12 + 36 * g + 28 * i..40 + 36 * g + 28 * i];
    }
  }

  lemma ShapeFields(p: seq<byte>)
    ensures |p| >= 4 ==>
      && (ReadU16(p[0..2]) == PDU_RATE_RESPONSE <==> p[0] == 0x52 && p[1] == 0x52)
      && ReadU16(p[2..4]) == p[2] as int + 0x100 * (p[3] as int)
    ensures |p| >= 12 ==>
      && ReadU16(p[8..10]) == p[8] as int + 0x100 * (p[9] as int)
      && ReadU16(p[10..12]) == p[10] as int + 0x100 * (p[11] as int)
  {
    hide ReadU16;
    if |p| >= 4 {
      ReadU16At(p, 0);
      ReadU16At(p, 2);
    }
    if |p| >= 12 {
      ReadU16At(p, 8);
      ReadU16At(p, 10);
    }
  }

  /** A byte string is accepted if and only if it has the shape of a response, and what is reported then are the
      blocks that stand at their places in it. */
  lemma ResponseAccepted(p: seq<byte>, serverId: u64, steering: bool) returns (guards: seq<GuardBlock>, resources: seq<ResourceBlock>)
    ensures ParsePdu(p, serverId, steering).Ok? <==> ResponseShape(p)
    ensures ResponseShape(p) ==>
      BlocksOf(p, guards, resources) && Reports(ParsePdu(p, serverId, steering).value, guards, resources, serverId, steering)
  {
    guards, resources := [], [];
    ShapeFields(p);
    hide ReadU16, GuardsAt, ResourcesAt, Outcome, Reports, GuardBytes, ResourceBytes;
    if |p| >= 8 && p[2] as int + 0x100 * (p[3] as int) <= |p| && p[2] as int + 0x100 * (p[3] as int) >= 12 {
      var size := p[2] as int + 0x100 * (p[3] as int);
      var body := p[PDU_HEADER_LEN..size];
      assert body[0..2] == p[8..10] && body[2..4] == p[10..12];
      if ResponseShape(p) {
        var g, r := p[8] as int + 0x100 * (p[9] as int), p[10] as int + 0x100 * (p[11] as int);
        guards, resources := GuardsAt(body, 4, g), ResourcesAt(body, 4 + GUARD_LEN * g, r);
        BlocksAt(p, body, g, r);
        OutcomeReports(guards, resources, serverId, steering);
      }
    }
  }

  /** Whatever follows an accepted PDU is ignored, for every byte string. */
  lemma ParseIgnoresRest(pdu: seq<byte>, extra: seq<byte>, serverId: u64, steering: bool)
    requires ParsePdu(pdu, serverId, steering).Ok?
    ensures ParsePdu(pdu + extra, serverId, steering) == ParsePdu(pdu, serverId, steering)
  {
    hide ParseBody;
    assert (pdu + extra)[0..2] == pdu[0..2] && (pdu + extra)[2..4] == pdu[2..4];
    var size: nat := ReadU16(pdu[2..4]);
    assert (pdu + extra)[PDU_HEADER_LEN..size] == pdu[PDU_HEADER_LEN..size];
  }

  // ---------------------------------------------------------------- the tenant header

  function ParseTenantHeader(data: seq<byte>): Result<(TenantHeader, nat), WireError> {
    if |data| < 4 then Err(TenantShort)
    else if ReadU16(data[0..2]) != TLV_TENANT then Err(TenantType)
    else
      var size: nat := ReadU16(data[2..4]);
      if size < TENANT_TLV_LEN then Err(TenantTooSmall)
      else if |data| < size then Err(TenantBodyShort)
      else Ok((ReadHeader(data[..size]), size))
  }

  function PeekServerId(data: seq<byte>): Option<u64> {
    if |data| < 12 then None
    else
      var size: nat := ReadU16(data[2..4]);
      if ReadU16(data[0..2]) != TLV_TENANT || size < 40 || |data| < size then None
      else Some(ReadU64(data[4..12]))
  }

  function PeekRequestId(data: seq<byte>): Option<Id> {
    if |data| < 28 then None
    else
      var size: nat := ReadU16(data[2..4]);
      if ReadU16(data[0..2]) != TLV_TENANT || size < 40 || |data| < size then None
      else Some(data[12..28])
  }

  /** Peeking succeeds exactly when the full parse does, with the same ids, on every byte string. */
  lemma PeekAgrees(data: seq<byte>)
    ensures PeekServerId(data).Some? <==> ParseTenantHeader(data).Ok?
    ensures PeekRequestId(data).Some? <==> ParseTenantHeader(data).Ok?
    ensures ParseTenantHeader(data).Ok? ==>
              PeekServerId(data) == Some(ParseTenantHeader(data).value.0.keyId)
              && PeekRequestId(data) == Some(ParseTenantHeader(data).value.0.uniqueId)
  {
    if ParseTenantHeader(data).Ok? {
      var size: nat := ReadU16(data[2..4]);
      assert data[..size][4..12] == data[4..12] && data[..size][12..28] == data[12..28];
    }
  }

  /** A packet starts with a tenant header if and only if its first bytes are the type and a size of at least 40
      that fits; the fields are then read at their fixed places, and the header ends where the size says. */
  lemma HeaderAccepted(data: seq<byte>)
    ensures ParseTenantHeader(data).Ok? <==>
              && |data| >= 4 && data[0] == 0x52 && data[1] == 0x4C
              && 40 <= data[2] as int + 0x100 * (data[3] as int) <= |data|
    ensures ParseTenantHeader(data).Ok? ==>
              var header, end := ParseTenantHeader(data).value.0, ParseTenantHeader(data).value.1;
              && end == data[2] as int + 0x100 * (data[3] as int) && end <= |data|
              && ToLe(header.keyId, 8) == data[4..12] && header.uniqueId == data[12..28]
              && ToLe(header.timeStamp, 8) == data[28..36] && header.steeringFeedback == data[36]
              && header.tenantMgmtFlag == data[37] && header.padding == data[38..40]
  {
    hide ReadU16, ToLe, FromLe;
    if |data| >= 4 {
      ReadU16At(data, 0);
      ReadU16At(data, 2);
    }
    if ParseTenantHeader(data).Ok? {
      var end := ParseTenantHeader(data).value.1;
      var h := data[..end];
      ToFromLe(data[4..12]);
      ToFromLe(data[28..36]);
      assert h[4..12] == data[4..12] && h[28..36] == data[28..36] && h[12..28] == data[12..28] && h[38..40] == data[38..40];
    }
  }

  // ---------------------------------------------------------------- authentication framings

  datatype AuthMethod = AuthNone | Cookie(secret: Secret) | AesGcm(key: Secret)

  datatype Sealed = Sealed(ciphertext: seq<byte>, tag: Id)

  /** AES-256-GCM as a pair of functions of key, nonce, additional data and text. */
  datatype Cipher = Cipher(
    seal: (Secret, Nonce, seq<byte>, seq<byte>) -> Sealed,
    open: (Secret, Nonce, Id, seq<byte>, seq<byte>) -> Option<seq<byte>>)

  /** What the model assumes of the cipher: decryption under the same additional data inverts
      encryption, which keeps the length. */
  ghost predicate Lawful(c: Cipher) {
    forall key, nonce, aad, pdu :: SealsBack(c, key, nonce, aad, pdu)
  }

  ghost predicate SealsBack(c: Cipher, key: Secret, nonce: Nonce, aad: seq<byte>, pdu: seq<byte>) {
    var s := c.seal(key, nonce, aad, pdu);
    |s.ciphertext| == |pdu| && c.open(key, nonce, s.tag, aad, s.ciphertext) == Some(pdu)
  }

  function AuthHeaderSize(m: AuthMethod): nat {
    match m
    case AuthNone => 4
    case Cookie(_) => 36
    case AesGcm(_) => 32
  }

  function AuthType(m: AuthMethod): u16 {
    match m
    case AuthNone => TLV_AUTH_NONE
    case Cookie(_) => TLV_AUTH_COOKIE
    case AesGcm(_) => TLV_AUTH_AES
  }

  /** The packet after the authentication TLV and the PDU have been appended. The additional data of
      the sealed form is everything written so far and the nonce. */
  function AppendAuth(packet: seq<byte>, m: AuthMethod, pdu: seq<byte>, nonce: Nonce, c: Cipher): seq<byte> {
    var start := AuthStart(packet, m);
    match m
    case AuthNone => start + pdu
    case Cookie(secret) => start + secret + pdu
    case AesGcm(key) =>
      var s := c.seal(key, nonce, start + nonce, pdu);
      start + nonce + s.tag + s.ciphertext
  }

  function ParseAuth(data: seq<byte>, pos: nat, m: AuthMethod, c: Cipher): Result<seq<byte>, WireError> {
    if |data| < pos + 4 then Err(AuthShort)
    else
      var size: nat := ReadU16(data[pos + 2..pos + 4]);
      if size < 4 then Err(AuthSize)
      else if |data| < pos + size then Err(AuthBodyShort)
      else if ReadU16(data[pos..pos + 2]) != AuthType(m) then Err(AuthMismatch)
      else if size != AuthHeaderSize(m) then Err(AuthSize)
      else
        var body, pdu := data[pos + 4..pos + size], data[pos + size..];
        match m
        case AuthNone => Ok(pdu)
        case Cookie(secret) => if body != secret then Err(CookieMismatch) else Ok(pdu)
        case AesGcm(key) =>
          match c.open(key, body[0..12], body[12..28], data[..pos + 4 + 12], pdu)
          case None => Err(DecryptionFailed)
          case Some(plain) => Ok(plain)
  }

  /** What each framing puts behind the header, byte by byte: type and size of the TLV, then nothing, the cookie
      secret, or nonce and tag, and then the PDU or its sealed form. The sealed form authenticates everything in
      front of the nonce, and the nonce. */
  lemma AuthLayout(head: seq<byte>, m: AuthMethod, pdu: seq<byte>, nonce: Nonce, c: Cipher)
    ensures var p := AppendAuth(head, m, pdu, nonce, c);
      && |head| + 4 <= |p| && p[..|head|] == head
      && match m
         case AuthNone => p[|head|..] == [0x4E, 0x41, 4, 0] + pdu
         case Cookie(secret) => p[|head|..] == [0x43, 0x41, 36, 0] + secret + pdu
         case AesGcm(key) =>
           var s := c.seal(key, nonce, p[..|head| + 4] + nonce, pdu);
           p[|head|..] == [0x41, 0x45, 32, 0] + nonce + s.tag + s.ciphertext
  {
    TypeBytes();
    hide ToLe;
    var start := AuthStart(head, m);
    assert start[|head|..] == ToLe(AuthType(m), 2) + ToLe(AuthHeaderSize(m), 2);
    if m.AesGcm? {
      assert AppendAuth(head, m, pdu, nonce, c)[..|head| + 4] == start;
    }
  }

  lemma TypeBytes()
    ensures ToLe(TLV_AUTH_NONE, 2) == [0x4E, 0x41] && ToLe(TLV_AUTH_COOKIE, 2) == [0x43, 0x41]
    ensures ToLe(TLV_AUTH_AES, 2) == [0x41, 0x45]
    ensures ToLe(4, 2) == [4, 0] && ToLe(36, 2) == [36, 0] && ToLe(32, 2) == [32, 0]
  {
    assert ToLe(0x41, 1) == [0x41] && ToLe(0x45, 1) == [0x45] && ToLe(0, 1) == [0];
  }

  /** A packet authenticates if and only if the TLV behind its header is of the configured method's type and exact
      size and its proof holds: nothing to prove, the same cookie, or a tag under which the rest opens with
      everything up to the nonce as additional data. */
  lemma AuthAccepted(data: seq<byte>, pos: nat, m: AuthMethod, c: Cipher, pdu: seq<byte>)
    ensures ParseAuth(data, pos, m, c) == Ok(pdu) <==>
      match m
      case AuthNone => |data| >= pos + 4 && data[pos..pos + 4] == [0x4E, 0x41, 4, 0] && pdu == data[pos + 4..]
      case Cookie(secret) =>
        && |data| >= pos + 36 && data[pos..pos + 4] == [0x43, 0x41, 36, 0]
        && data[pos + 4..pos + 36] == secret && pdu == data[pos + 36..]
      case AesGcm(key) =>
        && |data| >= pos + 32 && data[pos..pos + 4] == [0x41, 0x45, 32, 0]
        && c.open(key, data[pos + 4..pos + 16], data[pos + 16..pos + 32], data[..pos + 16], data[pos + 32..]) == Some(pdu)
  {
    hide ReadU16;
    if |data| >= pos + 4 {
      ReadU16At(data, pos);
      ReadU16At(data, pos + 2);
      match m {
        case AuthNone => FourBytesAre(data, pos, 0x4E, 0x41, 4);
        case Cookie(_) => FourBytesAre(data, pos, 0x43, 0x41, 36);
        case AesGcm(_) => FourBytesAre(data, pos, 0x41, 0x45, 32);
      }
      var n := AuthHeaderSize(m);
      if |data| >= pos + n && n >= 32 {
        var body := data[pos + 4..pos + n];
        assert m.AesGcm? ==> body[0..12] == data[pos + 4..pos + 16] && body[12..28] == data[pos + 16..pos + 32];
      }
    }
  }

  /** A type and a size determine their four bytes. */
  lemma FourBytesAre(data: seq<byte>, pos: nat, a: byte, b: byte, n: byte)
    requires pos + 4 <= |data|
    ensures data[pos..pos + 4] == [a, b, n, 0] <==>
              && data[pos] as int + 0x100 * (data[pos + 1] as int) == a as int + 0x100 * (b as int)
              && data[pos + 2] as int + 0x100 * (data[pos + 3] as int) == n
  {
    var w := data[pos..pos + 4];
    assert w[0] == data[pos] && w[1] == data[pos + 1] && w[2] == data[pos + 2] && w[3] == data[pos + 3];
  }

  /** A request's header fields are fixed by the client: its own TLV type and size. */
  predicate ClientHeader(h: TenantHeader) {
    h.tlvType == TLV_TENANT && h.tlvSize == TENANT_TLV_LEN
  }

  function Packet(h: TenantHeader, m: AuthMethod, pdu: seq<byte>, nonce: Nonce, c: Cipher): seq<byte> {
    AppendAuth(HeaderBytes(h), m, pdu, nonce, c)
  }

  lemma PacketLength(h: TenantHeader, m: AuthMethod, pdu: seq<byte>, nonce: Nonce, c: Cipher)
    requires Lawful(c)
    ensures |Packet(h, m, pdu, nonce, c)| == TENANT_TLV_LEN + AuthHeaderSize(m) + |pdu|
  {
    if m.AesGcm? {
      var start := AuthStart(HeaderBytes(h), m);
      assert SealsBack(c, m.key, nonce, start + nonce, pdu);
    }
  }

  /** The start of an authentication TLV: what is in front of it, its type and its size. */
  function AuthStart(head: seq<byte>, m: AuthMethod): (start: seq<byte>)
    ensures |start| == |head| + 4
  {
    head + ToLe(AuthType(m), 2) + ToLe(AuthHeaderSize(m), 2)
  }

  lemma AuthStartFields(head: seq<byte>, m: AuthMethod, rest: seq<byte>)
    ensures var data := AuthStart(head, m) + rest; var pos := |head|;
            && ReadU16(data[pos..pos + 2]) == AuthType(m) && ReadU16(data[pos + 2..pos + 4]) == AuthHeaderSize(m)
  {
    U16RoundTrip(AuthType(m));
    U16RoundTrip(AuthHeaderSize(m));
    hide ToLe, FromLe;
    var data, pos := AuthStart(head, m) + rest, |head|;
    assert data[pos..pos + 2] == ToLe(AuthType(m), 2);
    assert data[pos + 2..pos + 4] == ToLe(AuthHeaderSize(m), 2);
  }

  /** What the parser makes of the bytes behind the start of the TLV. */
  function OpenFrame(start: seq<byte>, m: AuthMethod, rest: seq<byte>, c: Cipher): Result<seq<byte>, WireError>
    requires |rest| >= AuthHeaderSize(m) - 4
  {
    match m
    case AuthNone => Ok(rest)
    case Cookie(secret) => if rest[..32] != secret then Err(CookieMismatch) else Ok(rest[32..])
    case AesGcm(key) =>
      match c.open(key, rest[..12], rest[12..28], start + rest[..12], rest[28..])
      case None => Err(DecryptionFailed)
      case Some(plain) => Ok(plain)
  }

  lemma ParseFrame(head: seq<byte>, m: AuthMethod, rest: seq<byte>, c: Cipher)
    requires |rest| >= AuthHeaderSize(m) - 4
    ensures ParseAuth(AuthStart(head, m) + rest, |head|, m, c) == OpenFrame(AuthStart(head, m), m, rest, c)
  {
    AuthStartFields(head, m, rest);
    hide ToLe, ReadU16, AuthStart;
    var start := AuthStart(head, m);
    var data, pos := start + rest, |head|;
    var n := AuthHeaderSize(m);
    var body := data[pos + 4..pos + n];
    assert body == rest[..n - 4] && data[pos + n..] == rest[n - 4..];
    if m.AesGcm? {
      assert body[0..12] == rest[..12] && body[12..28] == rest[12..28];
      assert data[..pos + 4 + 12] == start + rest[..12];
    }
  }

  /** For every authentication method, parsing the framing recovers the PDU that was framed; for the
      sealed form both sides use the same additional data. */
  lemma AuthRoundTrip(head: seq<byte>, m: AuthMethod, pdu: seq<byte>, nonce: Nonce, c: Cipher)
    requires Lawful(c)
    ensures ParseAuth(AppendAuth(head, m, pdu, nonce, c), |head|, m, c) == Ok(pdu)
  {
    var start := AuthStart(head, m);
    match m
    case AuthNone =>
      ParseFrame(head, m, pdu, c);
    case Cookie(secret) =>
      ParseFrame(head, m, secret + pdu, c);
      hide AuthStart, ParseAuth;
      assert start + secret + pdu == start + (secret + pdu);
    case AesGcm(key) =>
      var s := c.seal(key, nonce, start + nonce, pdu);
      assert SealsBack(c, key, nonce, start + nonce, pdu);
      SealedFrame(start, m, nonce, s, c);
      ParseFrame(head, m, nonce + s.tag + s.ciphertext, c);
      hide AuthStart, ParseAuth, OpenFrame;
      assert start + nonce + s.tag + s.ciphertext == start + (nonce + s.tag + s.ciphertext);
  }

  lemma SealedFrame(start: seq<byte>, m: AuthMethod, nonce: Nonce, s: Sealed, c: Cipher)
    requires m.AesGcm?
    ensures OpenFrame(start, m, nonce + s.tag + s.ciphertext, c)
         == match c.open(m.key, nonce, s.tag, start + nonce, s.ciphertext)
            case None => Err(DecryptionFailed)
            case Some(plain) => Ok(plain)
  {
    var rest := nonce + s.tag + s.ciphertext;
    assert rest[..12] == nonce && rest[12..28] == s.tag && rest[28..] == s.ciphertext;
  }

  // ---------------------------------------------------------------- whole packets

  lemma PacketHeader(h: TenantHeader, rest: seq<byte>)
    requires ClientHeader(h)
    ensures ParseTenantHeader(HeaderBytes(h) + rest) == Ok((h, TENANT_TLV_LEN))
  {
    var data := HeaderBytes(h) + rest;
    HeaderRoundTrip(h, rest);
    HeaderRoundTrip(h, []);
    hide HeaderBytes;
    assert HeaderBytes(h) + [] == HeaderBytes(h) == data[..TENANT_TLV_LEN];
    assert ReadHeader(data).tlvType == ReadU16(data[0..2]) && ReadHeader(data).tlvSize == ReadU16(data[2..4]);
  }

  lemma AuthExtends(head: seq<byte>, m: AuthMethod, pdu: seq<byte>, nonce: Nonce, c: Cipher) returns (rest: seq<byte>)
    ensures AppendAuth(head, m, pdu, nonce, c) == head + rest
  {
    rest := AppendAuth(head, m, pdu, nonce, c)[|head|..];
  }

  /** The header of a packet is in the clear: it needs no key. */
  lemma PacketNamesHeader(h: TenantHeader, m: AuthMethod, pdu: seq<byte>, nonce: Nonce, c: Cipher)
    requires ClientHeader(h)
    ensures ParseTenantHeader(Packet(h, m, pdu, nonce, c)) == Ok((h, TENANT_TLV_LEN))
  {
    var rest := AuthExtends(HeaderBytes(h), m, pdu, nonce, c);
    hide AppendAuth, ParseTenantHeader, HeaderBytes;
    PacketHeader(h, rest);
  }

  /** A framed packet gives back its header, at the fixed offset of the authentication TLV, and its PDU. */
  lemma PacketRoundTrip(h: TenantHeader, m: AuthMethod, pdu: seq<byte>, nonce: Nonce, c: Cipher)
    requires ClientHeader(h) && Lawful(c)
    ensures ParseTenantHeader(Packet(h, m, pdu, nonce, c)) == Ok((h, TENANT_TLV_LEN))
    ensures ParseAuth(Packet(h, m, pdu, nonce, c), TENANT_TLV_LEN, m, c) == Ok(pdu)
  {
    AuthRoundTrip(HeaderBytes(h), m, pdu, nonce, c);
    var rest := AuthExtends(HeaderBytes(h), m, pdu, nonce, c);
    hide AppendAuth, ParseAuth, ParseTenantHeader, HeaderBytes;
    PacketHeader(h, rest);
  }

  function ParseRateResponse(data: seq<byte>, m: AuthMethod, c: Cipher): Result<RateLimitResult, WireError> {
    match ParseTenantHeader(data)
    case Err(e) => Err(e)
    case Ok(header) =>
      match ParseAuth(data, header.1, m, c)
      case Err(e) => Err(e)
      case Ok(pdu) => ParsePdu(pdu, header.0.keyId, header.0.steeringFeedback != 0)
  }

  /** An accepted response names the server that peeking at its header finds. */
  lemma ResponseNamesPeekedServer(data: seq<byte>, m: AuthMethod, c: Cipher)
    requires ParseRateResponse(data, m, c).Ok?
    ensures PeekServerId(data) == Some(ParseRateResponse(data, m, c).value.serverId)
  {
    PeekAgrees(data);
    hide ParseTenantHeader, PeekServerId, ParseAuth;
  }

  lemma ResponseSteps(data: seq<byte>, m: AuthMethod, c: Cipher)
    ensures ParseTenantHeader(data).Err? ==> ParseRateResponse(data, m, c).Err?
    ensures ParseTenantHeader(data).Ok? ==>
              var header := ParseTenantHeader(data).value;
              && (ParseAuth(data, header.1, m, c).Err? ==> ParseRateResponse(data, m, c).Err?)
              && (ParseAuth(data, header.1, m, c).Ok? ==>
                    ParseRateResponse(data, m, c)
                    == ParsePdu(ParseAuth(data, header.1, m, c).value, header.0.keyId, header.0.steeringFeedback != 0))
  {
    hide ParseTenantHeader, ParseAuth, ParsePdu;
  }

  /** A response is accepted exactly when it starts with a tenant header, an authentication TLV stands where that
      header ends, and what it protects has the shape of a response; the caller then gets the server id and the
      steering flag of the header and the blocks of the PDU, whatever they say. */
  lemma PacketAccepted(data: seq<byte>, m: AuthMethod, c: Cipher)
    returns (end: nat, guards: seq<GuardBlock>, resources: seq<ResourceBlock>, id: u64)
    ensures ParseRateResponse(data, m, c).Ok? <==>
              ParseTenantHeader(data).Ok? && ParseAuth(data, end, m, c).Ok? && ResponseShape(ParseAuth(data, end, m, c).value)
    ensures ParseTenantHeader(data).Ok? ==>
              end == data[2] as int + 0x100 * (data[3] as int) && ToLe(id, 8) == data[4..12]
    ensures ParseRateResponse(data, m, c).Ok? ==>
              && BlocksOf(ParseAuth(data, end, m, c).value, guards, resources)
              && Reports(ParseRateResponse(data, m, c).value, guards, resources, id, data[36] != 0)
  {
    end, guards, resources, id := 0, [], [], 0;
    HeaderAccepted(data);
    ResponseSteps(data, m, c);
    hide *;
    if ParseTenantHeader(data).Ok? {
      end := ParseTenantHeader(data).value.1;
      id := ParseTenantHeader(data).value.0.keyId;
      if ParseAuth(data, end, m, c).Ok? {
        guards, resources := ResponseAccepted(ParseAuth(data, end, m, c).value, id,
                                              ParseTenantHeader(data).value.0.steeringFeedback != 0);
      }
    }
  }

  /** A server's response, framed under any authentication method, is read back whole: the server's id
      from the key field, the steering flag, and every block's result. */
  lemma ResponsePacketRoundTrip(h: TenantHeader, m: AuthMethod, nonce: Nonce, c: Cipher, guards: seq<GuardBlock>,
                                resources: seq<ResourceBlock>, tlvs: seq<byte>, word: u32, extra: seq<byte>)
    requires ClientHeader(h) && Lawful(c)
    requires Pdu(PDU_RATE_RESPONSE, word, Body(guards, resources, tlvs)).Ok?
    ensures var pdu := Pdu(PDU_RATE_RESPONSE, word, Body(guards, resources, tlvs)).value;
            var parsed := ParseRateResponse(Packet(h, m, pdu + extra, nonce, c), m, c);
            parsed.Ok? && Reports(parsed.value, guards, resources, h.keyId, h.steeringFeedback != 0)
  {
    var pdu := Pdu(PDU_RATE_RESPONSE, word, Body(guards, resources, tlvs)).value;
    PacketRoundTrip(h, m, pdu + extra, nonce, c);
    ResponseRoundTrip(guards, resources, tlvs, word, extra, h.keyId, h.steeringFeedback != 0);
    hide Packet, Pdu, Body, Outcome, ParsePdu, ParseAuth, ParseTenantHeader, Reports;
  }

  /** A rate request as it goes out: the content identifiers of its blocks are inputs. */
  datatype RateRequest = RateRequest(
    guards: seq<GuardBlock>, resources: seq<ResourceBlock>, text: Option<seq<byte>>, dedupTtlMs: u32)

  function RequestPdu(q: RateRequest): Result<seq<byte>, WireError> {
    match RequestBody(q.guards, q.resources, q.text)
    case Err(e) => Err(e)
    case Ok(body) => Pdu(PDU_RATE_REQUEST, q.dedupTtlMs, body)
  }

  function RequestPacket(q: RateRequest, h: TenantHeader, m: AuthMethod, nonce: Nonce, c: Cipher)
    : Result<seq<byte>, WireError>
  {
    match RequestPdu(q)
    case Err(e) => Err(e)
    case Ok(pdu) =>
      if TENANT_TLV_LEN + AuthHeaderSize(m) + |pdu| > MAX_PACKET_SIZE then Err(PacketTooLarge)
      else Ok(Packet(h, m, pdu, nonce, c))
  }

  /** The request's packet, grown in a buffer: header first, then the authentication TLV and the PDU. */
  method BuildPacket(q: RateRequest, h: TenantHeader, m: AuthMethod, nonce: Nonce, c: Cipher)
    returns (r: Result<seq<byte>, WireError>)
    ensures r == RequestPacket(q, h, m, nonce, c)
  {
    var body := BuildRateRequestBody(q.guards, q.resources, q.text);
    hide RequestBody, HeaderBytes, ToLe;
    if body.Err? {
      return Err(body.error);
    }
    var pdu := Pdu(PDU_RATE_REQUEST, q.dedupTtlMs, body.value);
    hide Pdu;
    if pdu.Err? {
      return Err(pdu.error);
    }
    if TENANT_TLV_LEN + AuthHeaderSize(m) + |pdu.value| > MAX_PACKET_SIZE {
      return Err(PacketTooLarge);
    }
    var header := new byte[TENANT_TLV_LEN];
    WriteHeader(header, h);
    WholeOverwrite(seq(TENANT_TLV_LEN, k => 0), HeaderBytes(h));
    assert header[..] == HeaderBytes(h);
    var packet := header[..];
    packet := packet + ToLe(AuthType(m), 2);
    packet := packet + ToLe(AuthHeaderSize(m), 2);
    match m {
      case AuthNone =>
        packet := packet + pdu.value;
      case Cookie(secret) =>
        packet := packet + secret;
        packet := packet + pdu.value;
      case AesGcm(key) =>
        var s := c.seal(key, nonce, packet + nonce, pdu.value);
        packet := packet + nonce;
        packet := packet + s.tag;
        packet := packet + s.ciphertext;
    }
    r := Ok(packet);
  }

  /** The blocks of a request and its label are where a body's fields say, and no count was truncated. */
  ghost predicate CarriesBlocks(body: seq<byte>, q: RateRequest) {
    var blocks := 4 + GUARD_LEN * |q.guards| + RESOURCE_LEN * |q.resources|;
    && blocks <= |body|
    && ReadU16(body[0..2]) == |q.guards|
    && ReadU16(body[2..4]) == |q.resources|
    && GuardsAt(body, 4, |q.guards|) == q.guards
    && ResourcesAt(body, 4 + GUARD_LEN * |q.guards|, |q.resources|) == q.resources
    && match q.text
       case None => |body| == blocks
       case Some(text) => LabelTlv(text) == Ok(body[blocks..])
  }

  /** What a receiver finds in a request's PDU. */
  ghost predicate CarriesRequest(pdu: seq<byte>, q: RateRequest) {
    && |pdu| >= PDU_HEADER_LEN
    && ReadU16(pdu[0..2]) == 0x5452
    && ReadU16(pdu[2..4]) == |pdu|
    && ReadU32(pdu[4..8]) == q.dedupTtlMs
    && CarriesBlocks(pdu[PDU_HEADER_LEN..], q)
  }

  /** What stands behind the blocks of a request's body. */
  function BodyTail(q: RateRequest): seq<byte>
    requires RequestBody(q.guards, q.resources, q.text).Ok?
  {
    match q.text
    case None => []
    case Some(text) => LabelTlv(text).value
  }

  lemma BodyParts(q: RateRequest)
    requires RequestBody(q.guards, q.resources, q.text).Ok?
    ensures RequestBody(q.guards, q.resources, q.text).value == Body(q.guards, q.resources, BodyTail(q))
    ensures q.text.Some? ==> LabelTlv(q.text.value) == Ok(BodyTail(q))
    ensures q.text.None? ==> BodyTail(q) == []
  {
    hide Body, LabelTlv;
  }

  lemma BodyEnd(guards: seq<GuardBlock>, resources: seq<ResourceBlock>, tail: seq<byte>)
    ensures var n := 4 + GUARD_LEN * |guards| + RESOURCE_LEN * |resources|;
      |Body(guards, resources, tail)| == n + |tail| && Body(guards, resources, tail)[n..] == tail
  {
    hide ToLe, GuardsBytes, ResourcesBytes;
  }

  lemma BodyCarriesBlocks(q: RateRequest)
    requires RequestBody(q.guards, q.resources, q.text).Ok? && |q.guards| <= U16_MAX && |q.resources| <= U16_MAX
    ensures CarriesBlocks(RequestBody(q.guards, q.resources, q.text).value, q)
  {
    hide ReadU16, Body, GuardsAt, ResourcesAt, LabelTlv, RequestBody, BodyTail;
    BodyParts(q);
    BodyRoundTrip(q.guards, q.resources, BodyTail(q));
    BodyEnd(q.guards, q.resources, BodyTail(q));
  }

  lemma PduCarriesRequest(q: RateRequest)
    requires RequestPdu(q).Ok? && |q.guards| <= U16_MAX && |q.resources| <= U16_MAX
    ensures CarriesRequest(RequestPdu(q).value, q)
  {
    var body := RequestBody(q.guards, q.resources, q.text).value;
    BodyCarriesBlocks(q);
    PduFields(PDU_RATE_REQUEST, q.dedupTtlMs, body, []);
    hide ToLe, FromLe, ReadU16, ReadU32, RequestBody, Pdu, CarriesBlocks;
    var pdu := RequestPdu(q).value;
    assert pdu + [] == pdu;
    assert pdu[PDU_HEADER_LEN..] == pdu[PDU_HEADER_LEN..PDU_HEADER_LEN + |body|] == body;
  }

  /** Every packet that passes the size check is exactly its three parts long, at most 1200 bytes, and its
      receiver recovers the header and a PDU that carries the whole request. */
  lemma RequestPacketRoundTrip(q: RateRequest, h: TenantHeader, m: AuthMethod, nonce: Nonce, c: Cipher)
    requires ClientHeader(h) && Lawful(c) && RequestPacket(q, h, m, nonce, c).Ok?
    ensures var packet := RequestPacket(q, h, m, nonce, c).value; var pdu := RequestPdu(q);
            && pdu.Ok?
            && |packet| == TENANT_TLV_LEN + AuthHeaderSize(m) + |pdu.value| <= MAX_PACKET_SIZE
            && ParseTenantHeader(packet) == Ok((h, TENANT_TLV_LEN))
            && ParseAuth(packet, TENANT_TLV_LEN, m, c) == Ok(pdu.value)
            && CarriesRequest(pdu.value, q)
  {
    var pdu := RequestPdu(q).value;
    assert |pdu| >= PDU_HEADER_LEN + 4 + GUARD_LEN * |q.guards| + RESOURCE_LEN * |q.resources|;
    PduCarriesRequest(q);
    PacketLength(h, m, pdu, nonce, c);
    PacketRoundTrip(h, m, pdu, nonce, c);
  }

  // ---------------------------------------------------------------- which requests go out

  /** The least multiple of four that holds a label and its six bytes of framing. */
  function LabelSpace(text: Option<seq<byte>>): nat {
    match text
    case None => 0
    case Some(t) => (6 + |t| + 3) / 4 * 4
  }

  function BlockSpace(q: RateRequest): nat {
    4 + 36 * |q.guards| + 28 * |q.resources|
  }

  function AuthSpace(m: AuthMethod): nat {
    match m case AuthNone => 4 case Cookie(_) => 36 case AesGcm(_) => 32
  }

  lemma LabelSpaceExact(text: seq<byte>)
    ensures LabelTlv(text).Ok? <==> LabelSpace(Some(text)) <= U16_MAX
    ensures LabelTlv(text).Ok? ==> |LabelTlv(text).value| == LabelSpace(Some(text))
    ensures LabelTlv(text) == Err(LabelTooLong) <==> |text| > U16_MAX
    ensures LabelTlv(text).Err? ==> LabelTlv(text).error == LabelTooLong || LabelTlv(text).error == LabelTlvTooLarge
  {
    LabelRounding(|text|);
    hide ToLe;
  }

  lemma LabelRounding(length: nat)
    ensures 4 + (2 + length) + (4 - (2 + length) % 4) % 4 == (6 + length + 3) / 4 * 4
  {}

  /** A request goes out exactly when header, authentication, PDU header, counts, blocks and label fit in 1200
      bytes; otherwise the first of the nested limits it exceeds is reported. */
  lemma RequestAccepted(q: RateRequest, h: TenantHeader, m: AuthMethod, nonce: Nonce, c: Cipher)
    ensures var r := RequestPacket(q, h, m, nonce, c); var body := BlockSpace(q) + LabelSpace(q.text);
      && (r.Ok? <==> 40 + AuthSpace(m) + 8 + body <= 1200)
      && (r == Err(LabelTooLong) <==> q.text.Some? && |q.text.value| > 65535)
      && (r == Err(LabelTlvTooLarge) <==> q.text.Some? && |q.text.value| <= 65535 && LabelSpace(q.text) > 65535)
      && (r == Err(PduTooLarge) <==> LabelSpace(q.text) <= 65535 && 8 + body > 65535)
      && (r == Err(PacketTooLarge) <==> 8 + body <= 65535 && 40 + AuthSpace(m) + 8 + body > 1200)
  {
    if q.text.Some? {
      LabelSpaceExact(q.text.value);
    }
    hide ToLe, LabelTlv, Packet, GuardsBytes, ResourcesBytes;
  }
}
