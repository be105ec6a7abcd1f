/** UUID v4 (sections 4.1.1 and 4.1.3 of RFC 4122) as compact Base59: hyphens and the version nibble are left
  * out, leading zeros are dropped, and decoding puts all three back. */
module UuidBase59 {
  import opened Wrappers
  import opened Numerals
  import opened Base59

  const PAYLOAD_LENGTH := 31
  const VERSION_INDEX := 12

  predicate IsHyphen(i: nat) { i == 8 || i == 13 || i == 18 || i == 23 }

  predicate UuidShape(s: string) {
    && |s| == 36
    && (forall i :: 0 <= i < 36 ==> if IsHyphen(i) then s[i] == '-' else IsHexChar(s[i]))
    && s[14] == '4' && s[19] in "89ab"
  }

  predicate IsUuidV4(uuid: string) { UuidShape(Lower(uuid)) }

  function RemoveHyphens(s: string): string {
    if s == "" then "" else (if s[0] == '-' then "" else [s[0]]) + RemoveHyphens(s[1..])
  }

  function UuidToHex(uuid: string): Result<string, CodecError> {
    if IsUuidV4(uuid) then Ok(RemoveHyphens(Lower(uuid))) else Err(NotUuid)
  }

  function Hyphenated(h: string): string
    requires |h| == 32
  {
    h[..8] + "-" + h[8..12] + "-" + h[12..16] + "-" + h[16..20] + "-" + h[20..]
  }

  function HexToUuid(hex: string): Result<string, CodecError> {
    var normalized := Lower(hex);
    if |normalized| == 32 && IsHex(normalized) then Ok(Hyphenated(normalized)) else Err(NotHex)
  }

  function StripVersion(hex32: string): Result<string, CodecError> {
    if |hex32| == 32 && IsHex(hex32) then Ok(hex32[..VERSION_INDEX] + hex32[VERSION_INDEX + 1..]) else Err(NotHex)
  }

  function InsertVersion(payload: string): Result<string, CodecError> {
    if |payload| == PAYLOAD_LENGTH && IsHex(payload)
    then Ok(payload[..VERSION_INDEX] + "4" + payload[VERSION_INDEX..])
    else Err(NotHex)
  }

  function EncodeUuid(uuid: string): Result<string, CodecError> {
    match UuidToHex(uuid)
    case Err(e) => Err(e)
    case Ok(hex32) =>
      match StripVersion(hex32)
      case Err(e) => Err(e)
      case Ok(payload) => EncodeHexBase59(payload)
  }

  function DecodeUuid(encoded: string): Result<string, CodecError> {
    match DecodeHexBase59(encoded, Some(PAYLOAD_LENGTH))
    case Err(e) => Err(e)
    case Ok(payload) =>
      match InsertVersion(payload)
      case Err(e) => Err(e)
      case Ok(hex32) =>
        match HexToUuid(hex32)
        case Err(e) => Err(e)
        case Ok(uuid) => if IsUuidV4(uuid) then Ok(uuid) else Err(NotUuid)
  }

  // ---- layout -----------------------------------------------------------------------------------------------

  lemma {:induction false} RemoveJoins(a: string, b: string)
    ensures RemoveHyphens(a + b) == RemoveHyphens(a) + RemoveHyphens(b)
  {
    if a == "" {
      assert a + b == b;
    } else {
      assert (a + b)[1..] == a[1..] + b;
      RemoveJoins(a[1..], b);
    }
  }

  lemma {:induction false} RemoveNone(s: string)
    requires IsHex(s)
    ensures RemoveHyphens(s) == s
  {
    if s != "" { RemoveNone(s[1..]); }
  }

  lemma RemoveOne(s: string, rest: string)
    requires IsHex(s)
    ensures RemoveHyphens(s + "-" + rest) == s + RemoveHyphens(rest)
  {
    assert s + "-" + rest == s + ("-" + rest);
    RemoveJoins(s, "-" + rest);
    RemoveNone(s);
    var tail := "-" + rest;
    assert tail[0] == '-' && tail[1..] == rest;
    assert RemoveHyphens(tail) == RemoveHyphens(rest);
  }

  /** Hyphenating and removing the hyphens are inverse on the layout. */
  lemma HyphensRemoved(h: string)
    requires |h| == 32 && IsHex(h)
    ensures RemoveHyphens(Hyphenated(h)) == h
  {
    var e := h[20..];
    var d := h[16..20] + "-" + e;
    var c := h[12..16] + "-" + d;
    var b := h[8..12] + "-" + c;
    assert Hyphenated(h) == h[..8] + "-" + b;
    RemoveOne(h[..8], b);
    RemoveOne(h[8..12], c);
    RemoveOne(h[12..16], d);
    RemoveOne(h[16..20], e);
    RemoveNone(e);
    assert h == h[..8] + (h[8..12] + (h[12..16] + (h[16..20] + e)));
  }

  ghost function Bare(s: string): string
    requires |s| == 36
  {
    s[..8] + s[9..13] + s[14..18] + s[19..23] + s[24..]
  }

  lemma BareFacts(s: string)
    requires UuidShape(s)
    ensures |Bare(s)| == 32 && IsHex(Bare(s)) && Hyphenated(Bare(s)) == s
    ensures Bare(s)[12] == '4' && Bare(s)[16] in "89ab"
    ensures RemoveHyphens(s) == Bare(s)
  {
    BareParts(s);
    var h := Bare(s);
    BareIsHex(s);
    assert Hyphenated(h) == s[..8] + "-" + s[9..13] + "-" + s[14..18] + "-" + s[19..23] + "-" + s[24..];
    GroupsJoin(s);
    HyphensRemoved(h);
  }

  lemma GroupsJoin(s: string)
    requires |s| == 36 && s[8] == s[13] == s[18] == s[23] == '-'
    ensures s == s[..8] + "-" + s[9..13] + "-" + s[14..18] + "-" + s[19..23] + "-" + s[24..]
  {
    assert s[8..9] == "-" && s[13..14] == "-" && s[18..19] == "-" && s[23..24] == "-";
  }

  lemma BareIsHex(s: string)
    requires UuidShape(s)
    ensures IsHex(Bare(s)) && Bare(s)[12] == '4' && Bare(s)[16] in "89ab"
  {
    BareParts(s);
  }

  lemma BareParts(s: string)
    requires |s| == 36
    ensures var h := Bare(s);
      h[..8] == s[..8] && h[8..12] == s[9..13] && h[12..16] == s[14..18] && h[16..20] == s[19..23] && h[20..] == s[24..]
    ensures forall i :: 0 <= i < 32 ==>
      Bare(s)[i] ==
        s[if i < 8 then i else if i < 12 then i + 1 else if i < 16 then i + 2 else if i < 20 then i + 3 else i + 4]
  {
  }

  lemma ShapeOf(h: string)
    requires |h| == 32 && IsHex(h)
    ensures UuidShape(Hyphenated(h)) <==> h[12] == '4' && h[16] in "89ab"
    ensures Lower(Hyphenated(h)) == Hyphenated(h)
  {
    var s := Hyphenated(h);
    assert s[14] == h[12] && s[19] == h[16];
  }

  // ---- the codec --------------------------------------------------------------------------------------------

  /** What encoding a UUID computes: the Base59 text of its 31-digit payload's number. */
  lemma EncodesPayload(uuid: string)
    ensures EncodeUuid(uuid).Ok? <==> IsUuidV4(uuid)
    ensures IsUuidV4(uuid) ==>
      var payload := PayloadOf(Lower(uuid));
      && IsHex(payload) && |payload| == 31
      && EncodeUuid(uuid) == EncodeHexBase59(payload)
      && EncodeUuid(uuid) == Ok(Encoded(Value(16, HexDigits(payload))))
  {
    if IsUuidV4(uuid) {
      BareFacts(Lower(uuid));
      var payload := PayloadOf(Lower(uuid));
      LowerHex(payload);
      EncodesNumber(payload);
    }
  }

  /** Decoding an encoded UUID v4 gives its lowercase form. */
  lemma UuidRoundTrip(uuid: string)
    requires IsUuidV4(uuid)
    ensures EncodeUuid(uuid).Ok? && DecodeUuid(EncodeUuid(uuid).value) == Ok(Lower(uuid))
  {
    var payload := PayloadOf(Lower(uuid));
    Reassembles(Lower(uuid));
    EncodesPayload(uuid);
    LowerHex(payload);
    HexRoundTrip(payload);
    PayloadDecodes(EncodeUuid(uuid).value, payload);
  }

  /** The 31 hex digits left without hyphens and version nibble. */
  ghost function PayloadOf(s: string): string
    requires |s| == 36
  {
    Bare(s)[..12] + Bare(s)[13..]
  }

  lemma Reassembles(s: string)
    requires UuidShape(s)
    ensures var p := PayloadOf(s);
      |p| == 31 && IsHex(p) && p[15] in "89ab" && Hyphenated(p[..12] + "4" + p[12..]) == s
  {
    BareFacts(s);
    assert PayloadOf(s)[..12] + "4" + PayloadOf(s)[12..] == Bare(s);
  }

  /** Two UUIDs share an encoding exactly when they are the same UUID up to case. */
  lemma EncodingIsInjective(u: string, v: string)
    requires IsUuidV4(u) && IsUuidV4(v)
    ensures EncodeUuid(u) == EncodeUuid(v) <==> Lower(u) == Lower(v)
  {
    UuidRoundTrip(u);
    UuidRoundTrip(v);
  }

  lemma PowSum(b: nat, m: nat, n: nat)
    ensures Pow(b, m + n) == Pow(b, m) * Pow(b, n)
  {
    if n > 0 {
      PowSum(b, m, n - 1);
      assert Pow(b, m + n) == Pow(b, m + n - 1) * b;
      assert Pow(b, m) * Pow(b, n) == Pow(b, m) * (Pow(b, n - 1) * b);
    }
  }

  /** 31 hex digits fit in 22 Base59 digits and not always in 21. */
  lemma WidthBound()
    ensures Pow(59, 21) < Pow(16, 31) < Pow(59, 22)
  {
    assert Pow(16, 5) == 0x10_0000 && Pow(59, 5) == 714924299;
    PowSum(16, 5, 5);
    PowSum(16, 10, 10);
    PowSum(16, 20, 10);
    PowSum(59, 5, 5);
    PowSum(59, 10, 10);
    assert Pow(16, 31) == 0x1000_0000_0000_0000_0000_0000_0000_0000;
    assert Pow(59, 21) == 15413179794770734626518662321719325259;
    assert Pow(59, 22) == 909377607891473342964601076981440190281;
  }

  /** Every encoding has at most 22 characters, all of them from the alphabet. */
  lemma EncodingIsShort(uuid: string)
    requires IsUuidV4(uuid)
    ensures EncodeUuid(uuid).Ok? && 1 <= |EncodeUuid(uuid).value| <= 22 && InAlphabet(EncodeUuid(uuid).value)
  {
    EncodesPayload(uuid);
    var payload := PayloadOf(Lower(uuid));
    var n := Value(16, HexDigits(payload));
    ValueBelow(16, HexDigits(payload));
    WidthBound();
    LengthExactly(59, n, 22);
    EncodedDecodes(n);
  }

  lemma DecodedPayload(s: string)
    requires DecodeUuid(s).Ok?
    ensures var p := DecodeHexBase59(s, Some(31));
      && p.Ok? && |p.value| == 31 && IsHex(p.value) && p.value[15] in "89ab"
      && var h := p.value[..12] + "4" + p.value[12..]; DecodeUuid(s) == Ok(Hyphenated(h)) && UuidShape(Hyphenated(h))
  {
    var p := DecodeHexBase59(s, Some(31)).value;
    PaddedNumber(s, 31);
    PayloadDecodes(s, p);
  }

  /** A text that decodes to a 31-digit payload is accepted exactly when the payload has a good variant. */
  lemma PayloadDecodes(s: string, p: string)
    requires DecodeHexBase59(s, Some(31)) == Ok(p) && |p| == 31 && IsHex(p)
    ensures var h := p[..12] + "4" + p[12..];
      && (DecodeUuid(s).Ok? <==> p[15] in "89ab")
      && (DecodeUuid(s).Ok? ==> DecodeUuid(s) == Ok(Hyphenated(h)) && UuidShape(Hyphenated(h)))
  {
    var h := p[..12] + "4" + p[12..];
    LowerHex(h);
    ShapeOf(h);
    assert h[16] == p[15] && h[12] == '4';
  }

  /** An accepted text decodes to a lowercase UUID v4 that encodes to the text without its leading ones. */
  lemma DecodedUuidEncodes(s: string)
    requires DecodeUuid(s).Ok?
    ensures IsUuidV4(DecodeUuid(s).value) && Lower(DecodeUuid(s).value) == DecodeUuid(s).value
    ensures EncodeUuid(DecodeUuid(s).value) == Ok(StripOnes(s))
  {
    DecodedPayload(s);
    var p := DecodeHexBase59(s, Some(31)).value;
    var h := p[..12] + "4" + p[12..];
    ShapeOf(h);
    PayloadEncodes(p);
    DecodedIsPositive(s);
    DecodedEncodes(s);
  }

  /** Assembling a UUID from a payload and encoding it gives the payload's number. */
  lemma PayloadEncodes(p: string)
    requires |p| == 31 && IsHex(p) && p[15] in "89ab"
    ensures var uuid := Hyphenated(p[..12] + "4" + p[12..]);
      IsUuidV4(uuid) && EncodeUuid(uuid) == Ok(Encoded(Value(16, HexDigits(p))))
  {
    var h := p[..12] + "4" + p[12..];
    var uuid := Hyphenated(h);
    ShapeOf(h);
    EncodesPayload(uuid);
    BareFacts(uuid);
    HyphensRemoved(h);
    assert h[..12] + h[13..] == p;
  }

  /** The variant nibble is never zero, so no accepted text stands for zero. */
  lemma DecodedIsPositive(s: string)
    requires DecodeUuid(s).Ok?
    ensures Decoded(s).Ok? && Decoded(s).value != 0
    ensures Decoded(s).value == Value(16, HexDigits(DecodeHexBase59(s, Some(31)).value))
  {
    DecodedPayload(s);
    var p := DecodeHexBase59(s, Some(31)).value;
    PaddedNumber(s, 31);
    ZeroValue(16, HexDigits(p));
    assert HexDigits(p)[15] >= 8;
  }
}
