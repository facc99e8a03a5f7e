/** Bech32 text (BIP 173, "Bech32") without the length limit: framing, alphabet, checksum, payload. */
module Bech32 {
  import opened Arithmetic
  import opened Prelude
  import opened Checksum
  import opened Regroup

  datatype DecodeError =
    | EmptyInput
    | NonPrintable
    | MixedCase
    | MissingSeparator
    | EmptyHrp
    | ChecksumTooShort
    | InvalidCharset(c: char)
    | ChecksumFailed
    | InvalidPadding
    | InvalidHrpPrefix
    | UnsupportedAuthMethod(name: string)
    | InvalidPayloadLength(authMethod: string, expected: nat, actual: nat)
    | UnsupportedFormatVersion(version: byte)
    | InvalidPackedQuota

  datatype Decoded = Decoded(hrp: string, payload: seq<byte>)

  // ---------------------------------------------------------------- characters

  function CharToValue(c: char): Option<byte> {
    match c
    case 'q' => Some(0) case 'p' => Some(1) case 'z' => Some(2) case 'r' => Some(3)
    case 'y' => Some(4) case '9' => Some(5) case 'x' => Some(6) case '8' => Some(7)
    case 'g' => Some(8) case 'f' => Some(9) case '2' => Some(10) case 't' => Some(11)
    case 'v' => Some(12) case 'd' => Some(13) case 'w' => Some(14) case '0' => Some(15)
    case 's' => Some(16) case '3' => Some(17) case 'j' => Some(18) case 'n' => Some(19)
    case '5' => Some(20) case '4' => Some(21) case 'k' => Some(22) case 'h' => Some(23)
    case 'c' => Some(24) case 'e' => Some(25) case '6' => Some(26) case 'm' => Some(27)
    case 'u' => Some(28) case 'a' => Some(29) case '7' => Some(30) case 'l' => Some(31)
    case _ => None
  }

  function ValueToChar(v: byte): char
    requires v < 32
  {
    match v
    case 0 => 'q' case 1 => 'p' case 2 => 'z' case 3 => 'r'
    case 4 => 'y' case 5 => '9' case 6 => 'x' case 7 => '8'
    case 8 => 'g' case 9 => 'f' case 10 => '2' case 11 => 't'
    case 12 => 'v' case 13 => 'd' case 14 => 'w' case 15 => '0'
    case 16 => 's' case 17 => '3' case 18 => 'j' case 19 => 'n'
    case 20 => '5' case 21 => '4' case 22 => 'k' case 23 => 'h'
    case 24 => 'c' case 25 => 'e' case 26 => '6' case 27 => 'm'
    case 28 => 'u' case 29 => 'a' case 30 => '7' case _ => 'l'
  }

  predicate Printable(c: char) { 33 <= c as int <= 126 }

  predicate IsLower(c: char) { 'a' <= c <= 'z' }

  predicate IsUpper(c: char) { 'A' <= c <= 'Z' }

  function LowerChar(c: char): char {
    if IsUpper(c) then (c as int + 32) as char else c
  }

  function Lower(s: string): (r: string)
    ensures |r| == |s|
  {
    seq(|s|, i requires 0 <= i < |s| => LowerChar(s[i]))
  }

  predicate AllPrintable(s: string) {
    forall i :: 0 <= i < |s| ==> Printable(s[i])
  }

  predicate HasLower(s: string) {
    exists i :: 0 <= i < |s| && IsLower(s[i])
  }

  predicate HasUpper(s: string) {
    exists i :: 0 <= i < |s| && IsUpper(s[i])
  }

  function Bytes(s: string): seq<byte>
    requires AllPrintable(s)
  {
    seq(|s|, i requires 0 <= i < |s| => s[i] as int)
  }

  /** The alphabet is 32 distinct lower-case printable characters, none of them the separator. */
  lemma AlphabetInverse(v: byte)
    requires v < 32
    ensures CharToValue(ValueToChar(v)) == Some(v)
    ensures Printable(ValueToChar(v)) && !IsUpper(ValueToChar(v)) && ValueToChar(v) != '1'
  {
    match v
    case 0 => case 1 => case 2 => case 3 => case 4 => case 5 => case 6 => case 7 =>
    case 8 => case 9 => case 10 => case 11 => case 12 => case 13 => case 14 => case 15 =>
    case 16 => case 17 => case 18 => case 19 => case 20 => case 21 => case 22 => case 23 =>
    case 24 => case 25 => case 26 => case 27 => case 28 => case 29 => case 30 => case _ =>
  }

  lemma CharInverse(c: char)
    ensures CharToValue(c).Some? ==> CharToValue(c).value < 32 && ValueToChar(CharToValue(c).value) == c
    ensures CharToValue('1') == None
  {}

  // ---------------------------------------------------------------- what decoding and encoding compute

  /** The alphabet in the order of its values (BIP 173, "Bech32"). */
  const ALPHABET: string := "qpzry9x8gf2tvdw0s3jn54khce6mua7l"

  lemma AlphabetOrder(v: byte)
    requires v < 32
    ensures ValueToChar(v) == ALPHABET[v]
  {
    if v < 16 {
      if v < 8 { assert v == 0 || v == 1 || v == 2 || v == 3 || v == 4 || v == 5 || v == 6 || v == 7; }
    }
  }

  const UPPER_LETTERS: string := "ABCDEFGHIJKLMNOPQRSTUVWXYZ"
  const LOWER_LETTERS: string := "abcdefghijklmnopqrstuvwxyz"

  lemma LetterOrder(k: nat)
    requires k < 26
    ensures UPPER_LETTERS[k] as int == 65 + k && LOWER_LETTERS[k] as int == 97 + k
  {}

  /** Lower case replaces each of the 26 letters by its own lower-case form and nothing else. */
  lemma LowerCharIs(c: char, k: nat)
    requires k < 26
    ensures LowerChar(UPPER_LETTERS[k]) == LOWER_LETTERS[k]
    ensures !('A' <= c <= 'Z') ==> LowerChar(c) == c
  {
    LetterOrder(k);
  }

  /** The position of the last '1'. */
  function LastSeparator(s: string): (pos: Option<nat>)
    ensures pos == None ==> '1' !in s
    ensures pos.Some? ==> pos.value < |s| && s[pos.value] == '1' && '1' !in s[pos.value + 1..]
  {
    if s == [] then None
    else if s[|s| - 1] == '1' then Some(|s| - 1)
    else
      var pos := LastSeparator(s[..|s| - 1]);
      assert s == s[..|s| - 1] + [s[|s| - 1]];
      assert pos.Some? ==> s[pos.value + 1..] == s[..|s| - 1][pos.value + 1..] + [s[|s| - 1]];
      pos
  }

  /** The symbol values of a data part, or its first character outside the alphabet. */
  function Values(s: string): (r: Result<seq<byte>, char>)
    ensures r.Ok? ==> |r.value| == |s|
  {
    if s == [] then Ok([])
    else
      match Values(s[..|s| - 1])
      case Err(c) => Err(c)
      case Ok(vs) =>
        match CharToValue(s[|s| - 1])
        case None => Err(s[|s| - 1])
        case Some(v) => Ok(vs + [v])
  }

  function Chars(values: seq<byte>): string
    requires Symbols(values)
  {
    seq(|values|, i requires 0 <= i < |values| => ValueToChar(values[i]))
  }

  function DecodeLower(s: string): Result<Decoded, DecodeError>
    requires AllPrintable(s)
  {
    match LastSeparator(s)
    case None => Err(MissingSeparator)
    case Some(pos) =>
      if pos < 1 then Err(EmptyHrp)
      else if |s| - pos - 1 < 6 then Err(ChecksumTooShort)
      else
        match Values(s[pos + 1..])
        case Err(c) => Err(InvalidCharset(c))
        case Ok(data) =>
          if !Verifies(Bytes(s[..pos]), data) then Err(ChecksumFailed)
          else
            match Regrouped(data[..|data| - 6], 5, 8, false)
            case None => Err(InvalidPadding)
            case Some(payload) => Ok(Decoded(s[..pos], payload))
  }

  lemma LowerPrintable(s: string)
    ensures AllPrintable(s) ==> AllPrintable(Lower(s))
  {}

  function DecodeText(addr: string): Result<Decoded, DecodeError> {
    if addr == [] then Err(EmptyInput)
    else if !AllPrintable(addr) then Err(NonPrintable)
    else if HasLower(addr) && HasUpper(addr) then Err(MixedCase)
    else
      LowerPrintable(addr);
      DecodeLower(Lower(addr))
  }

  /** The data part of the text: the regrouped payload and its checksum. */
  function DataPart(hrp: string, payload: seq<byte>): (data: seq<byte>)
    requires AllPrintable(hrp)
    ensures Symbols(data)
  {
    var five := FiveBits(payload);
    CreatedChecksumVerifies(Bytes(hrp), five);
    five + ChecksumOf(Bytes(hrp), five)
  }

  function FiveBits(payload: seq<byte>): (five: seq<byte>)
    ensures Symbols(five) && Regrouped(payload, 8, 5, true) == Some(five)
  {
    FiveBitsRoundTrip(payload);
    FiveBitsAreSymbols(Regrouped(payload, 8, 5, true).value);
    Regrouped(payload, 8, 5, true).value
  }

  lemma FiveBitsAreSymbols(five: seq<byte>)
    ensures InWidth(five, 5) <==> Symbols(five)
  {
    SmallPowers();
  }

  function EncodeText(hrp: string, payload: seq<byte>): Result<string, DecodeError> {
    if hrp == [] then Err(EmptyHrp)
    else if !AllPrintable(hrp) then Err(NonPrintable)
    else
      LowerPrintable(hrp);
      Ok(Lower(hrp) + ['1'] + Chars(DataPart(Lower(hrp), payload)))
  }

  // ---------------------------------------------------------------- the loops

  method ToAsciiLowercase(s: string) returns (r: string)
    ensures r == Lower(s)
  {
    r := [];
    for k := 0 to |s|
      invariant r == Lower(s)[..k]
    {
      r := r + [LowerChar(s[k])];
    }
  }

  /** The scan for characters outside the printable range and for both cases. */
  method ScanCharacters(addr: string) returns (printable: bool, hasLower: bool, hasUpper: bool)
    ensures printable == AllPrintable(addr)
    ensures printable ==> hasLower == HasLower(addr) && hasUpper == HasUpper(addr)
  {
    printable, hasLower, hasUpper := true, false, false;
    for k := 0 to |addr|
      invariant AllPrintable(addr[..k])
      invariant hasLower == HasLower(addr[..k]) && hasUpper == HasUpper(addr[..k])
    {
      var c := addr[k];
      assert addr[..k + 1] == addr[..k] + [c];
      if !Printable(c) {
        printable := false;
        return;
      }
      assert forall i :: 0 <= i < k ==> addr[..k + 1][i] == addr[..k][i];
      assert addr[..k + 1][k] == c;
      if IsLower(c) { hasLower := true; }
      if IsUpper(c) { hasUpper := true; }
    }
    assert addr[..|addr|] == addr;
  }

  /** The symbol values of the data part, up to its first bad character. */
  method ReadSymbols(tail: string) returns (r: Result<seq<byte>, char>)
    ensures r == Values(tail)
  {
    hide CharToValue;
    var data: seq<byte> := [];
    for k := 0 to |tail|
      invariant Values(tail[..k]) == Ok(data)
    {
      assert tail[..k + 1][..k] == tail[..k];
      var v := CharToValue(tail[k]);
      if v == None {
        FirstBadChar(tail, k + 1);
        return Err(tail[k]);
      }
      data := data + [v.value];
    }
    assert tail[..|tail|] == tail;
    r := Ok(data);
  }

  /** What follows once the text is in lower case. */
  method DecodeLowercase(s: string) returns (r: Result<Decoded, DecodeError>)
    requires AllPrintable(s)
    ensures r == DecodeLower(s)
  {
    hide AllPrintable, Values, Regrouped, Verifies, Bytes, LastSeparator;
    var found := LastSeparator(s);
    if found == None {
      return Err(MissingSeparator);
    }
    var pos := found.value;
    if pos < 1 {
      return Err(EmptyHrp);
    }
    if |s| - pos - 1 < 6 {
      return Err(ChecksumTooShort);
    }
    var hrp := s[..pos];
    var symbols := ReadSymbols(s[pos + 1..]);
    if symbols.Err? {
      return Err(InvalidCharset(symbols.error));
    }
    var data := symbols.value;
    PrefixPrintable(s, pos);
    var ok := VerifyChecksum(Bytes(hrp), data);
    if !ok {
      return Err(ChecksumFailed);
    }
    var payload := ConvertBits(data[..|data| - 6], 5, 8, false);
    if payload == None {
      return Err(InvalidPadding);
    }
    r := Ok(Decoded(hrp, payload.value));
  }

  lemma PrefixPrintable(s: string, n: nat)
    requires AllPrintable(s) && n <= |s|
    ensures AllPrintable(s[..n])
  {}

  method Bech32Decode(addr: string) returns (r: Result<Decoded, DecodeError>)
    ensures r == DecodeText(addr)
  {
    hide DecodeLower, AllPrintable, HasLower, HasUpper, Lower;
    if addr == [] {
      return Err(EmptyInput);
    }
    var printable, hasLower, hasUpper := ScanCharacters(addr);
    if !printable {
      return Err(NonPrintable);
    }
    if hasLower && hasUpper {
      return Err(MixedCase);
    }
    var s := ToAsciiLowercase(addr);
    LowerPrintable(addr);
    r := DecodeLowercase(s);
  }

  lemma {:induction false} FirstBadChar(s: string, k: nat)
    requires k <= |s| && Values(s[..k]).Err?
    ensures Values(s) == Values(s[..k])
    decreases |s| - k
  {
    if k < |s| {
      assert s[..k + 1][..k] == s[..k];
      FirstBadChar(s, k + 1);
    } else {
      assert s[..k] == s;
    }
  }

  method Bech32Encode(hrp: string, payload: seq<byte>) returns (r: Result<string, DecodeError>)
    ensures r == EncodeText(hrp, payload)
  {
    if hrp == [] {
      return Err(EmptyHrp);
    }
    for k := 0 to |hrp|
      invariant AllPrintable(hrp[..k])
    {
      if !Printable(hrp[k]) {
        return Err(NonPrintable);
      }
    }
    assert hrp[..|hrp|] == hrp;
    LowerPrintable(hrp);
    var low := ToAsciiLowercase(hrp);
    var five := ConvertBits(payload, 8, 5, true);
    assert five == Some(FiveBits(payload));
    var checksum := CreateChecksum(Bytes(low), five.value);
    var data := five.value + checksum;
    assert data == DataPart(low, payload);
    var out := low + ['1'];
    for k := 0 to |data|
      invariant out == low + ['1'] + Chars(data)[..k]
    {
      out := out + [ValueToChar(data[k])];
    }
    assert Chars(data)[..|data|] == Chars(data);
    r := Ok(out);
  }

  // ---------------------------------------------------------------- text is a bijection up to case

  lemma LowerCharPlain(c: char)
    ensures !IsUpper(LowerChar(c)) && LowerChar(LowerChar(c)) == LowerChar(c)
  {}

  lemma LowerIdempotent(s: string)
    ensures Lower(Lower(s)) == Lower(s) && !HasUpper(Lower(s))
  {
    forall i | 0 <= i < |s|
      ensures !IsUpper(Lower(s)[i]) && Lower(Lower(s))[i] == Lower(s)[i]
    {
      LowerCharPlain(s[i]);
    }
  }

  lemma {:induction false} ValuesOfChars(data: seq<byte>)
    requires Symbols(data)
    ensures Values(Chars(data)) == Ok(data)
  {
    if data != [] {
      var n := |data| - 1;
      ValuesOfChars(data[..n]);
      assert Chars(data)[..n] == Chars(data[..n]);
      AlphabetInverse(data[n]);
      assert data == data[..n] + [data[n]];
    } else {
      assert Chars(data) == [];
    }
  }

  lemma {:induction false} CharsOfValues(s: string)
    requires Values(s).Ok?
    ensures Symbols(Values(s).value) && Chars(Values(s).value) == s
  {
    if s != [] {
      var n := |s| - 1;
      CharsOfValues(s[..n]);
      CharInverse(s[n]);
      assert s == s[..n] + [s[n]];
    }
  }

  lemma CharsPlain(data: seq<byte>)
    requires Symbols(data)
    ensures AllPrintable(Chars(data)) && !HasUpper(Chars(data)) && '1' !in Chars(data)
  {
    forall i | 0 <= i < |data|
      ensures Printable(Chars(data)[i]) && !IsUpper(Chars(data)[i]) && Chars(data)[i] != '1'
    {
      AlphabetInverse(data[i]);
    }
  }

  lemma {:induction false} SeparatorUnique(head: string, tail: string)
    requires '1' !in tail
    ensures LastSeparator(head + ['1'] + tail) == Some(|head|)
    decreases |tail|
  {
    var s, n := head + ['1'] + tail, |tail| - 1;
    if tail == [] {
      assert s[|s| - 1] == '1';
    } else {
      SeparatorUnique(head, tail[..n]);
      assert s[..|s| - 1] == head + ['1'] + tail[..n] && s[|s| - 1] == tail[n];
    }
  }

  /** Decoding an encoded text gives the lower-cased prefix and the payload, for every printable
      non-empty prefix (one that contains '1' included) and every payload. */
  lemma DecodeEncoded(hrp: string, payload: seq<byte>)
    requires hrp != [] && AllPrintable(hrp)
    ensures EncodeText(hrp, payload).Ok?
    ensures DecodeText(EncodeText(hrp, payload).value) == Ok(Decoded(Lower(hrp), payload))
  {
    LowerPrintable(hrp);
    LowerIdempotent(hrp);
    var low := Lower(hrp);
    var data := DataPart(low, payload);
    EncodedData(low, payload);
    CharsPlain(data);
    ValuesOfChars(data);
    PlainText(low, Chars(data));
    FramedText(low, Chars(data));
    assert EncodeText(hrp, payload) == Ok(low + ['1'] + Chars(data));
    var text := low + ['1'] + Chars(data);
    hide DataPart, EncodeText, Lower, Chars, Values, Verifies, Regrouped, Bytes, DecodeLower, AllPrintable, HasUpper, HasLower;
    assert text != [];
  }

  /** What the data part is made of. */
  lemma EncodedData(low: string, payload: seq<byte>)
    requires AllPrintable(low)
    ensures var data := DataPart(low, payload);
      |data| >= 6 && Verifies(Bytes(low), data) && Regrouped(data[..|data| - 6], 5, 8, false) == Some(payload)
  {
    var five, data := FiveBits(payload), DataPart(low, payload);
    CreatedChecksumVerifies(Bytes(low), five);
    FiveBitsRoundTrip(payload);
    assert data[..|data| - 6] == five;
    hide Verifies, Regrouped, Bytes, AllPrintable;
  }

  lemma PlainText(head: string, tail: string)
    requires AllPrintable(head) && AllPrintable(tail) && !HasUpper(head) && !HasUpper(tail)
    ensures var s := head + ['1'] + tail;
            AllPrintable(s) && !HasUpper(s) && Lower(s) == s
  {
    var s := head + ['1'] + tail;
    forall i | 0 <= i < |s| ensures Printable(s[i]) && !IsUpper(s[i]) {
      if i < |head| {
        assert !IsUpper(head[i]);
      } else if i > |head| {
        assert !IsUpper(tail[i - |head| - 1]);
      }
    }
  }

  /** The parts an accepted lower-case text is made of. */
  lemma AcceptedParts(s: string) returns (hrp: string, five: seq<byte>, checksum: seq<byte>)
    requires AllPrintable(s) && DecodeLower(s).Ok?
    ensures hrp != [] && AllPrintable(hrp) && hrp <= s && DecodeLower(s).value.hrp == hrp
    ensures Symbols(five) && Symbols(checksum) && |checksum| == 6
    ensures s == hrp + ['1'] + Chars(five + checksum)
    ensures Verifies(Bytes(hrp), five + checksum)
    ensures Regrouped(five, 5, 8, false) == Some(DecodeLower(s).value.payload)
  {
    hide Regrouped, Verifies, CharToValue, ValueToChar;
    var pos := LastSeparator(s).value;
    hrp := s[..pos];
    var data := Values(s[pos + 1..]).value;
    five, checksum := data[..|data| - 6], data[|data| - 6..];
    CharsOfValues(s[pos + 1..]);
    assert data == five + checksum;
    assert s == s[..pos] + ['1'] + s[pos + 1..];
  }

  /** Every accepted text is, in lower case, the encoding of what it decodes to. */
  lemma EncodeDecoded(addr: string)
    requires DecodeText(addr).Ok?
    ensures var d := DecodeText(addr).value;
            d.hrp != [] && AllPrintable(d.hrp) && Lower(d.hrp) == d.hrp
            && EncodeText(d.hrp, d.payload) == Ok(Lower(addr))
  {
    var d, s := DecodeText(addr).value, Lower(addr);
    LowerPrintable(addr);
    LowerIdempotent(addr);
    var hrp, five, checksum := AcceptedParts(s);
    hide DecodeLower, Regrouped, Verifies, ValueToChar;
    assert Lower(hrp) == hrp by {
      forall i | 0 <= i < |hrp| ensures LowerChar(hrp[i]) == hrp[i] {
        assert hrp[i] == s[i] == Lower(s)[i];
      }
    }
    FiveBitsCanonical(five);
    assert FiveBits(d.payload) == five;
    ChecksumUnique(Bytes(hrp), five, checksum);
  }

  /** Decoding gives a prefix and a payload if and only if the text is printable, in one case, and in lower case
      the encoding of that lower-case prefix and payload. */
  lemma DecodeAccepts(addr: string, hrp: string, payload: seq<byte>)
    ensures DecodeText(addr) == Ok(Decoded(hrp, payload)) <==>
              && AllPrintable(addr) && !(HasLower(addr) && HasUpper(addr))
              && hrp != [] && AllPrintable(hrp) && Lower(hrp) == hrp && EncodeText(hrp, payload) == Ok(Lower(addr))
  {
    if DecodeText(addr) == Ok(Decoded(hrp, payload)) {
      EncodeDecoded(addr);
      hide DecodeLower, EncodeText, HasLower, HasUpper, AllPrintable;
    }
    if && AllPrintable(addr) && !(HasLower(addr) && HasUpper(addr))
       && hrp != [] && AllPrintable(hrp) && Lower(hrp) == hrp && EncodeText(hrp, payload) == Ok(Lower(addr))
    {
      DecodeEncoded(hrp, payload);
      LowerIdempotent(addr);
      DecodesAsLower(addr);
      DecodesAsLower(Lower(addr));
      hide DecodeLower, EncodeText, HasLower, HasUpper, AllPrintable, DecodeText, Lower;
    }
  }

  lemma DecodesAsLower(addr: string)
    ensures addr != [] && AllPrintable(addr) && !(HasLower(addr) && HasUpper(addr)) ==>
              AllPrintable(Lower(addr)) && DecodeText(addr) == DecodeLower(Lower(addr))
    ensures DecodeText(addr).Ok? ==> addr != [] && AllPrintable(addr) && !(HasLower(addr) && HasUpper(addr))
  {
    LowerPrintable(addr);
    hide DecodeLower, HasLower, HasUpper, AllPrintable, Lower;
  }

  // ---------------------------------------------------------------- why a text is refused

  predicate Clean(addr: string) {
    && addr != [] && (forall i :: 0 <= i < |addr| ==> 33 <= addr[i] as int <= 126)
    && !((exists i :: 0 <= i < |addr| && 'a' <= addr[i] <= 'z') && (exists i :: 0 <= i < |addr| && 'A' <= addr[i] <= 'Z'))
  }

  /** The early refusals, each by what the text is: nothing, a character outside the printable ASCII range, both
      cases. */
  lemma EarlyRefusals(addr: string)
    ensures DecodeText(addr) == Err(EmptyInput) <==> addr == []
    ensures DecodeText(addr) == Err(NonPrintable) <==> exists i :: 0 <= i < |addr| && !(33 <= addr[i] as int <= 126)
    ensures DecodeText(addr) == Err(MixedCase) <==>
              && addr != [] && (forall i :: 0 <= i < |addr| ==> 33 <= addr[i] as int <= 126)
              && (exists i :: 0 <= i < |addr| && 'a' <= addr[i] <= 'z') && (exists i :: 0 <= i < |addr| && 'A' <= addr[i] <= 'Z')
    ensures Clean(addr) ==> AllPrintable(Lower(addr)) && DecodeText(addr) == DecodeLower(Lower(addr))
  {
    LowerPrintable(addr);
    LaterErrors(Lower(addr));
    hide DecodeLower, Lower;
  }

  lemma LaterErrors(s: string)
    ensures AllPrintable(s) && DecodeLower(s).Err? ==>
              var e := DecodeLower(s).error; e != EmptyInput && e != NonPrintable && e != MixedCase
  {
    hide AllPrintable, Values, Verifies, Regrouped, Bytes, LastSeparator;
  }

  /** The refusals of the framing, each by where the separator is: nowhere, only at the front, or among the last
      six characters. */
  lemma FramingRefusals(s: string)
    requires AllPrintable(s)
    ensures DecodeLower(s) == Err(MissingSeparator) <==> '1' !in s
    ensures DecodeLower(s) == Err(EmptyHrp) <==> s != [] && s[0] == '1' && '1' !in s[1..]
    ensures DecodeLower(s) == Err(ChecksumTooShort) <==>
              (exists p :: 0 < p < |s| && s[p] == '1' && |s| - p <= 6)
  {
    var pos := LastSeparator(s);
    hide AllPrintable, Values, Verifies, Regrouped, Bytes, LastSeparator;
    if pos.Some? {
      assert s[pos.value] == '1' && pos.value < |s|;
      forall p | pos.value < p < |s| ensures s[p] != '1' {
        assert s[p] == s[pos.value + 1..][p - pos.value - 1];
      }
    }
    if s != [] && '1' in s[1..] {
      var p :| 0 < p < |s| && s[p] == '1';
    }
  }

  /** What becomes of a framed text. */
  function DecodeParts(head: string, tail: string): Result<Decoded, DecodeError>
    requires AllPrintable(head) && |tail| >= 6
  {
    match Values(tail)
    case Err(c) => Err(InvalidCharset(c))
    case Ok(data) =>
      if !Verifies(Bytes(head), data) then Err(ChecksumFailed)
      else
        match Regrouped(data[..|data| - 6], 5, 8, false)
        case None => Err(InvalidPadding)
        case Some(payload) => Ok(Decoded(head, payload))
  }

  lemma FramedText(head: string, tail: string)
    requires AllPrintable(head + ['1'] + tail) && head != [] && '1' !in tail && |tail| >= 6
    ensures AllPrintable(head) && DecodeLower(head + ['1'] + tail) == DecodeParts(head, tail)
  {
    var s := head + ['1'] + tail;
    SeparatorUnique(head, tail);
    PrefixPrintable(s, |head|);
    assert s[..|head|] == head && s[|head| + 1..] == tail;
    hide AllPrintable, Values, Verifies, Regrouped, Bytes, LastSeparator;
  }

  /** A framed text with a character outside the alphabet behind its separator is refused for the first of them. */
  lemma CharsetRefusal(head: string, tail: string, k: nat)
    requires AllPrintable(head + ['1'] + tail) && head != [] && '1' !in tail && |tail| >= 6
    requires k < |tail| && CharToValue(tail[k]) == None && forall i :: 0 <= i < k ==> CharToValue(tail[i]) != None
    ensures DecodeLower(head + ['1'] + tail) == Err(InvalidCharset(tail[k]))
  {
    FramedText(head, tail);
    FirstBadValue(tail, k);
    hide AllPrintable, DecodeLower, Values, Verifies, Regrouped, Bytes, CharToValue;
  }

  lemma FirstBadValue(s: string, k: nat)
    requires k < |s| && CharToValue(s[k]) == None && forall i :: 0 <= i < k ==> CharToValue(s[i]) != None
    ensures Values(s) == Err(s[k])
  {
    GoodValues(s, k);
    assert s[..k + 1][..k] == s[..k];
    hide CharToValue;
    FirstBadChar(s, k + 1);
  }

  lemma {:induction false} GoodValues(s: string, k: nat)
    requires k <= |s| && forall i :: 0 <= i < k ==> CharToValue(s[i]) != None
    ensures Values(s[..k]).Ok?
    decreases k
  {
    hide CharToValue;
    if k > 0 {
      GoodValues(s, k - 1);
      assert s[..k][..k - 1] == s[..k - 1];
    }
  }

  /** The last two refusals: a checksum that does not verify, and a payload that is not whole bytes with fewer than
      five zero bits left over. */
  lemma DataRefusals(head: string, data: seq<byte>)
    requires AllPrintable(head) && head != [] && Symbols(data) && |data| >= 6
    ensures AllPrintable(head + ['1'] + Chars(data))
    ensures DecodeLower(head + ['1'] + Chars(data)) == Err(ChecksumFailed) <==> !Verifies(Bytes(head), data)
    ensures DecodeLower(head + ['1'] + Chars(data)) == Err(InvalidPadding) <==>
              Verifies(Bytes(head), data) && Regrouped(data[..|data| - 6], 5, 8, false) == None
  {
    CharsPlain(data);
    ValuesOfChars(data);
    FramedPrintable(head, Chars(data));
    FramedText(head, Chars(data));
    hide Verifies, Regrouped, Bytes, Values, DecodeLower, AllPrintable, Chars, Symbols;
  }

  lemma FramedPrintable(head: string, tail: string)
    requires AllPrintable(head) && AllPrintable(tail)
    ensures AllPrintable(head + ['1'] + tail)
  {}

  /** Two accepted texts decode to the same prefix and payload exactly when they differ only in case. */
  lemma SameDecodingSameText(a: string, b: string)
    requires DecodeText(a).Ok? && DecodeText(b).Ok?
    ensures DecodeText(a) == DecodeText(b) <==> Lower(a) == Lower(b)
  {
    EncodeDecoded(a);
    EncodeDecoded(b);
  }

  /** Corrupting at most six consecutive characters behind the separator of an accepted text, in any case and
      to any characters but the separator, never yields another accepted text. */
  lemma BurstRejected(addr: string, corrupted: string, pos: nat, at: nat)
    requires DecodeText(addr).Ok? && LastSeparator(Lower(addr)) == Some(pos) && pos < at
    requires |corrupted| == |addr| && '1' !in Lower(corrupted)[pos + 1..]
    requires Lower(corrupted) != Lower(addr)
    requires forall i :: 0 <= i < |addr| && !(at <= i < at + 6) ==> Lower(corrupted)[i] == Lower(addr)[i]
    ensures DecodeText(corrupted).Err?
  {
    AcceptedLower(addr);
    if DecodeText(corrupted).Ok? {
      AcceptedLower(corrupted);
      hide *;
      BurstInLowerText(Lower(addr), Lower(corrupted), pos, at);
    }
  }

  lemma AcceptedLower(addr: string)
    requires DecodeText(addr).Ok?
    ensures AllPrintable(Lower(addr)) && DecodeLower(Lower(addr)).Ok?
  {
    hide DecodeLower;
    LowerPrintable(addr);
  }

  lemma SameSeparator(s: string, t: string, pos: nat)
    requires LastSeparator(s) == Some(pos) && |t| == |s| && t[pos] == s[pos] && '1' !in t[pos + 1..]
    ensures LastSeparator(t) == Some(pos)
  {
    assert t[pos] == '1';
    hide *;
    SplitAt(t, pos);
    SeparatorUnique(t[..pos], t[pos + 1..]);
  }

  lemma SplitAt(t: string, pos: nat)
    requires pos < |t|
    ensures t == t[..pos] + [t[pos]] + t[pos + 1..]
  {}

  lemma BurstInLowerText(s: string, t: string, pos: nat, at: nat)
    requires AllPrintable(s) && AllPrintable(t) && LastSeparator(s) == Some(pos) && pos < at
    requires |t| == |s| && '1' !in t[pos + 1..] && t != s
    requires forall i :: 0 <= i < |s| && !(at <= i < at + 6) ==> t[i] == s[i]
    ensures !(DecodeLower(s).Ok? && DecodeLower(t).Ok?)
  {
    hide *;
    SameSeparator(s, t, pos);
    if DecodeLower(s).Ok? && DecodeLower(t).Ok? {
      var hrp, x := AcceptedData(s, pos);
      var hrp', y := AcceptedData(t, pos);
      CharsDiffer(x, y, s, t, pos, at);
      BurstDetected(Bytes(hrp), x, y, at - pos - 1);
    }
  }

  /** Prefix and symbols of an accepted lower-case text with its last separator at pos. */
  lemma AcceptedData(s: string, pos: nat) returns (hrp: string, data: seq<byte>)
    requires AllPrintable(s) && DecodeLower(s).Ok? && LastSeparator(s) == Some(pos)
    ensures hrp == s[..pos] && AllPrintable(hrp)
    ensures Symbols(data) && Chars(data) == s[pos + 1..]
    ensures Verifies(Bytes(hrp), data)
  {
    var five, checksum;
    hrp, five, checksum := AcceptedParts(s);
    data := five + checksum;
    CharsPlain(data);
    SeparatorUnique(hrp, Chars(data));
    hide DecodeLower, Verifies, Regrouped, Chars, LastSeparator, AllPrintable, Symbols;
    assert s[|hrp| + 1..] == Chars(data);
  }

  lemma CharsDiffer(x: seq<byte>, y: seq<byte>, s: string, t: string, pos: nat, at: nat)
    requires Symbols(x) && Symbols(y) && |s| == |t| && pos < at && pos < |s|
    requires Chars(x) == s[pos + 1..] && Chars(y) == t[pos + 1..]
    requires s != t && forall i :: 0 <= i < |s| && !(at <= i < at + 6) ==> t[i] == s[i]
    ensures DifferInBurst(x, y, at - pos - 1) && s[..pos] == t[..pos]
  {
    hide ValueToChar;
    forall i | 0 <= i < |x| && !(at - pos - 1 <= i < at - pos - 1 + 6) ensures x[i] == y[i] {
      assert Chars(x)[i] == s[pos + 1 + i] == t[pos + 1 + i] == Chars(y)[i];
      AlphabetInverse(x[i]);
      AlphabetInverse(y[i]);
    }
    assert s[..pos + 1] == t[..pos + 1];
    assert s == s[..pos + 1] + s[pos + 1..];
    assert t == t[..pos + 1] + t[pos + 1..];
  }
}
