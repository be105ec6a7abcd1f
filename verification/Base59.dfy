/** Base59: the Bitcoin Base58 alphabet with `_` appended, over numbers of any size, and its hex helpers. */
module Base59 {
  import opened Wrappers
  import opened Numerals

  datatype CodecError = Negative | EmptyText | BadChar(c: char) | NotHex | TooWide(width: nat) | NotUuid

  const ALPHABET: string :=
    "123456789" + "ABCDEFGH" + "JKLMN" + "PQRSTUVWXYZ" + "abcdefghijk" + "mnopqrstuvwxyz" + "_"

  function Symbol(d: nat): char
    requires d < 59
  {
    ALPHABET[d]
  }

  /** The digit a character stands for, if any. */
  function DigitOf(c: char): Option<nat> {
    if '1' <= c <= '9' then Some((c - '1') as nat)
    else if 'A' <= c <= 'H' then Some(9 + (c - 'A') as nat)
    else if 'J' <= c <= 'N' then Some(17 + (c - 'J') as nat)
    else if 'P' <= c <= 'Z' then Some(22 + (c - 'P') as nat)
    else if 'a' <= c <= 'k' then Some(33 + (c - 'a') as nat)
    else if 'm' <= c <= 'z' then Some(44 + (c - 'm') as nat)
    else if c == '_' then Some(58)
    else None
  }

  predicate Run(s: string, first: char, n: nat) {
    |s| == n && forall i :: 0 <= i < |s| ==> s[i] as int == first as int + i
  }

  lemma RunsJoin(a: string, b: string, c: string, d: string, e: string, f: string, ch: char, n: nat)
    requires Run(a, '1', 9) && Run(b, 'A', 8) && Run(c, 'J', 5) && Run(d, 'P', 11) && Run(e, 'a', 11) && Run(f, 'm', 14)
    ensures var all := a + b + c + d + e + f + "_";
      |all| == 59 && (DigitOf(ch) == Some(n) <==> n < 59 && all[n] == ch)
  {
  }

  /** Reading a symbol inverts writing it: the map holds exactly the alphabet's characters at their places. */
  lemma DigitsAreAlphabet(c: char, d: nat)
    ensures |ALPHABET| == 59
    ensures DigitOf(c) == Some(d) <==> d < 59 && Symbol(d) == c
  {
    RunsJoin("123456789", "ABCDEFGH", "JKLMN", "PQRSTUVWXYZ", "abcdefghijk", "mnopqrstuvwxyz", c, d);
  }

  // ---- numbers and Base59 text -----------------------------------------------------------------------------

  function TextOf(ds: seq<nat>): string
    requires DigitsOf(59, ds)
  {
    seq(|ds|, i requires 0 <= i < |ds| => Symbol(ds[i]))
  }

  ghost predicate InAlphabet(s: string) { forall i :: 0 <= i < |s| ==> DigitOf(s[i]).Some? }

  ghost function NumeralOf(s: string): (ds: seq<nat>)
    requires InAlphabet(s)
  {
    seq(|s|, i requires 0 <= i < |s| => DigitOf(s[i]).value)
  }

  /** The shortest Base59 text of a number; zero keeps one digit. */
  function Encoded(n: nat): string { if n == 0 then [Symbol(0)] else TextOf(Digits(59, n)) }

  ghost predicate FirstBad(s: string, i: int) {
    0 <= i < |s| && DigitOf(s[i]).None? && InAlphabet(s[..i])
  }

  ghost predicate DecodesTo(s: string, r: Result<nat, CodecError>) {
    if s == "" then r == Err(EmptyText)
    else if InAlphabet(s) then r == Ok(Value(59, NumeralOf(s)))
    else exists i :: FirstBad(s, i) && r == Err(BadChar(s[i]))
  }

  lemma TextPrepend(d: nat, low: seq<nat>)
    requires d < 59 && DigitsOf(59, low)
    ensures DigitsOf(59, [d] + low) && TextOf([d] + low) == [Symbol(d)] + TextOf(low)
  {
  }

  method EncodeBase59(value: int) returns (r: Result<string, CodecError>)
    ensures r == if value < 0 then Err(Negative) else Ok(Encoded(value))
  {
    if value < 0 { return Err(Negative); }
    if value == 0 { return Ok([Symbol(0)]); }
    var remaining: nat, encoded := value, "";
    ghost var low: seq<nat> := [];
    while remaining > 0
      invariant DigitsOf(59, low) && encoded == TextOf(low)
      invariant Digits(59, value) == Digits(59, remaining) + low
    {
      PeelDigit(59, remaining, low);
      TextPrepend(remaining % 59, low);
      low := [remaining % 59] + low;
      encoded := [Symbol(remaining % 59)] + encoded;
      remaining := remaining / 59;
    }
    assert Digits(59, value) == low;
    r := Ok(encoded);
  }

  method DecodeBase59(encoded: string) returns (r: Result<nat, CodecError>)
    ensures DecodesTo(encoded, r)
  {
    if encoded == "" { return Err(EmptyText); }
    var value: nat := 0;
    for i := 0 to |encoded|
      invariant InAlphabet(encoded[..i])
      invariant value == Value(59, NumeralOf(encoded[..i]))
    {
      var digit := DigitOf(encoded[i]);
      if digit.None? {
        assert FirstBad(encoded, i);
        return Err(BadChar(encoded[i]));
      }
      assert NumeralOf(encoded[..i + 1]) == NumeralOf(encoded[..i]) + [digit.value];
      ValueSnoc(59, NumeralOf(encoded[..i]), digit.value);
      value := value * 59 + digit.value;
    }
    assert encoded[..|encoded|] == encoded;
    r := Ok(value);
  }

  /** The value `DecodeBase59` returns, for the codecs built on it. */
  function Decoded(s: string): (r: Result<nat, CodecError>)
    ensures DecodesTo(s, r)
  {
    if s == "" then Err(EmptyText)
    else
      assert s[..|s|] == s;
      DecodedPrefix(s, |s|)
  }

  function DecodedPrefix(s: string, n: nat): (r: Result<nat, CodecError>)
    requires n <= |s|
    ensures InAlphabet(s[..n]) ==> r == Ok(Value(59, NumeralOf(s[..n])))
    ensures !InAlphabet(s[..n]) ==> exists i :: FirstBad(s, i) && r == Err(BadChar(s[i]))
  {
    if n == 0 then Ok(0)
    else
      assert s[..n] == s[..n - 1] + [s[n - 1]];
      var r := DecodedPrefix(s, n - 1);
      if r.Err? then r
      else if DigitOf(s[n - 1]).None? then
        assert InAlphabet(s[..n - 1]) ==> FirstBad(s, n - 1);
        Err(BadChar(s[n - 1]))
      else
        assert InAlphabet(s[..n - 1]) ==> NumeralOf(s[..n]) == NumeralOf(s[..n - 1]) + [DigitOf(s[n - 1]).value];
        Ok(r.value * 59 + DigitOf(s[n - 1]).value)
  }

  lemma SymbolsRead(ds: seq<nat>)
    requires DigitsOf(59, ds)
    ensures InAlphabet(TextOf(ds)) && NumeralOf(TextOf(ds)) == ds
  {
    forall i | 0 <= i < |ds| ensures DigitOf(TextOf(ds)[i]) == Some(ds[i]) { DigitsAreAlphabet(Symbol(ds[i]), ds[i]); }
  }

  lemma ReadSymbols(s: string)
    requires InAlphabet(s)
    ensures DigitsOf(59, NumeralOf(s)) && TextOf(NumeralOf(s)) == s
  {
    forall i | 0 <= i < |s| ensures NumeralOf(s)[i] < 59 && Symbol(NumeralOf(s)[i]) == s[i] {
      DigitsAreAlphabet(s[i], DigitOf(s[i]).value);
    }
  }

  /** Decoding undoes encoding. */
  lemma EncodedDecodes(n: nat)
    ensures Encoded(n) != "" && InAlphabet(Encoded(n)) && Decoded(Encoded(n)) == Ok(n)
  {
    if n > 0 {
      SymbolsRead(Digits(59, n));
      ValueOfDigits(59, n);
    } else {
      DigitsAreAlphabet(Symbol(0), 0);
      assert NumeralOf(Encoded(0)) == [0];
      assert Value(59, [0]) == 0;
    }
  }

  function StripOnes(s: string): string {
    if s != "" && s[0] == Symbol(0) then StripOnes(s[1..]) else s
  }

  lemma {:induction false} StripOnesIsStripZeros(s: string)
    requires InAlphabet(s)
    ensures DigitsOf(59, StripZeros(NumeralOf(s)))
    ensures StripOnes(s) == TextOf(StripZeros(NumeralOf(s)))
  {
    ReadSymbols(s);
    if s != "" {
      DigitsAreAlphabet(s[0], 0);
      if s[0] == Symbol(0) {
        assert NumeralOf(s)[1..] == NumeralOf(s[1..]);
        StripOnesIsStripZeros(s[1..]);
      }
    }
  }

  /** Encoding an accepted text's number gives the text without its leading zero digits, or one zero digit. */
  lemma DecodedEncodes(s: string)
    requires Decoded(s).Ok?
    ensures Encoded(Decoded(s).value) == if StripOnes(s) == "" then [Symbol(0)] else StripOnes(s)
    ensures Decoded(s).value == 0 <==> StripOnes(s) == ""
  {
    ReadSymbols(s);
    DigitsOfValue(59, NumeralOf(s));
    StripOnesIsStripZeros(s);
  }

  // ---- hex ------------------------------------------------------------------------------------------------------

  function LowerChar(c: char): char { if 'A' <= c <= 'Z' then c - 'A' + 'a' else c }

  function Lower(s: string): string { seq(|s|, i requires 0 <= i < |s| => LowerChar(s[i])) }

  predicate IsHexChar(c: char) { '0' <= c <= '9' || 'a' <= c <= 'f' }

  predicate IsHex(s: string) { forall i :: 0 <= i < |s| ==> IsHexChar(s[i]) }

  function HexChar(d: nat): (c: char)
    requires d < 16
    ensures IsHexChar(c) && HexDigit(c) == d
  {
    if d < 10 then '0' + d as char else 'a' + (d - 10) as char
  }

  function HexDigit(c: char): (d: nat)
    requires IsHexChar(c)
    ensures d < 16
  {
    if c <= '9' then (c - '0') as nat else 10 + (c - 'a') as nat
  }

  function HexText(ds: seq<nat>): (s: string)
    requires DigitsOf(16, ds)
    ensures IsHex(s) && HexDigits(s) == ds
  {
    seq(|ds|, i requires 0 <= i < |ds| => HexChar(ds[i]))
  }

  function HexDigits(s: string): (ds: seq<nat>)
    requires IsHex(s)
    ensures DigitsOf(16, ds)
  {
    seq(|s|, i requires 0 <= i < |s| => HexDigit(s[i]))
  }

  function DropZeros(s: string): string { if s != "" && s[0] == '0' then DropZeros(s[1..]) else s }

  function StripLeadingZeroHex(hex: string): Result<string, CodecError> {
    var normalized := Lower(hex);
    if !IsHex(normalized) then Err(NotHex)
    else if DropZeros(normalized) == "" then Ok("0")
    else Ok(DropZeros(normalized))
  }

  function HexToNumber(hex: string): Result<nat, CodecError> {
    var normalized := Lower(hex);
    if !IsHex(normalized) then Err(NotHex)
    else if normalized == "" then Err(EmptyText)
    else Ok(Value(16, HexDigits(normalized)))
  }

  function NumberToHex(n: nat): (s: string)
    ensures IsHex(s)
  {
    if n == 0 then "0" else HexText(Digits(16, n))
  }

  function EncodeHexBase59(hex: string): Result<string, CodecError> {
    match StripLeadingZeroHex(hex)
    case Err(e) => Err(e)
    case Ok(stripped) =>
      match HexToNumber(stripped)
      case Err(e) => Err(e)
      case Ok(n) => Ok(Encoded(n))
  }

  function DecodeHexBase59(encoded: string, minHexLength: Option<nat>): Result<string, CodecError> {
    match Decoded(encoded)
    case Err(e) => Err(e)
    case Ok(n) =>
      var hex := NumberToHex(n);
      if minHexLength.None? then Ok(hex)
      else if |hex| > minHexLength.value then Err(TooWide(|hex|))
      else Ok(seq(minHexLength.value - |hex|, i => '0') + hex)
  }

  /** Case does not matter to a hex digit: exactly these 22 characters are accepted, for their value. */
  lemma HexExactly(c: char)
    ensures IsHexChar(LowerChar(c)) <==> c in "0123456789" || c in "abcdef" || c in "ABCDEF"
    ensures c in "0123456789" ==> LowerChar(c) == c && c as int == '0' as int + HexDigit(c)
    ensures c in "abcdef" ==> LowerChar(c) == c && c as int == 'a' as int + HexDigit(c) - 10
    ensures c in "ABCDEF" ==> IsHexChar(LowerChar(c)) && c as int == 'A' as int + HexDigit(LowerChar(c)) - 10
  {
  }

  lemma HexInjective(s: string, t: string)
    requires IsHex(s) && IsHex(t) && HexDigits(s) == HexDigits(t)
    ensures s == t
  {
    assert |s| == |HexDigits(s)| == |HexDigits(t)| == |t|;
    forall i | 0 <= i < |s| ensures s[i] == t[i] { assert HexDigits(s)[i] == HexDigits(t)[i]; }
  }

  lemma {:induction false} DropZerosIsStripZeros(s: string)
    requires IsHex(s)
    ensures IsHex(DropZeros(s)) && HexDigits(DropZeros(s)) == StripZeros(HexDigits(s))
  {
    if s != "" && s[0] == '0' {
      assert HexDigits(s[1..]) == HexDigits(s)[1..];
      DropZerosIsStripZeros(s[1..]);
    }
  }

  lemma LowerHex(s: string)
    requires IsHex(s)
    ensures Lower(s) == s
  {
  }

  /** Leading zeros aside, hex is encoded by its number. */
  lemma EncodesNumber(hex: string)
    ensures EncodeHexBase59(hex).Ok? <==> IsHex(Lower(hex))
    ensures IsHex(Lower(hex)) ==> EncodeHexBase59(hex) == Ok(Encoded(Value(16, HexDigits(Lower(hex)))))
  {
    var s := Lower(hex);
    if IsHex(s) {
      DropZerosIsStripZeros(s);
      var stripped := StripLeadingZeroHex(hex).value;
      LowerHex(stripped);
      DigitsOfValue(16, HexDigits(s));
      ValueOfDigits(16, Value(16, HexDigits(s)));
      if DropZeros(s) == "" {
        assert HexDigits("0") == [0];
        assert Value(16, [0]) == 0;
      }
    }
  }

  lemma PadDigits(hex: string, k: nat)
    requires IsHex(hex)
    ensures IsHex(seq(k, i => '0') + hex) && HexDigits(seq(k, i => '0') + hex) == Zeros(k) + HexDigits(hex)
    ensures HexDigits("0") == [0] == Zeros(1) && Zeros(k + 1) == Zeros(k) + Zeros(1)
  {
  }

  lemma PaddedHex(s: string, width: nat)
    requires IsHex(s) && |s| == width > 0
    ensures var hex := NumberToHex(Value(16, HexDigits(s)));
      |hex| <= width && seq(width - |hex|, i => '0') + hex == s
  {
    var ds := HexDigits(s);
    var hex := NumberToHex(Value(16, ds));
    DigitsOfValue(16, ds);
    PadRestores(ds);
    if Value(16, ds) == 0 { assert ds == Zeros(width); }
    var padded := seq(width - |hex|, i => '0') + hex;
    PadDigits(hex, width - |hex|);
    assert HexDigits(padded) == ds;
    HexInjective(padded, s);
  }

  /** Decoding at the original width gives the lowercase hex back. */
  lemma HexRoundTrip(hex: string)
    requires IsHex(Lower(hex)) && hex != ""
    ensures EncodeHexBase59(hex).Ok? && DecodeHexBase59(EncodeHexBase59(hex).value, Some(|hex|)) == Ok(Lower(hex))
  {
    EncodesNumber(hex);
    EncodedDecodes(Value(16, HexDigits(Lower(hex))));
    PaddedHex(Lower(hex), |hex|);
  }

  /** Without a width, decoding gives the hex without its leading zeros. */
  lemma StrippedRoundTrip(hex: string)
    requires IsHex(Lower(hex))
    ensures EncodeHexBase59(hex).Ok? && DecodeHexBase59(EncodeHexBase59(hex).value, None) == StripLeadingZeroHex(hex)
  {
    EncodesNumber(hex);
    var n := Value(16, HexDigits(Lower(hex)));
    EncodedDecodes(n);
    DigitsOfValue(16, HexDigits(Lower(hex)));
    DropZerosIsStripZeros(Lower(hex));
    if n > 0 { HexInjective(NumberToHex(n), DropZeros(Lower(hex))); }
  }

  /** The number of a decoded, padded text is the number the text stands for. */
  lemma PaddedNumber(s: string, width: nat)
    requires DecodeHexBase59(s, Some(width)).Ok?
    ensures var p := DecodeHexBase59(s, Some(width)).value;
      IsHex(p) && |p| == width && Decoded(s).Ok? && Value(16, HexDigits(p)) == Decoded(s).value
  {
    var n := Decoded(s).value;
    var hex := NumberToHex(n);
    var k := width - |hex|;
    var p := DecodeHexBase59(s, Some(width)).value;
    if n == 0 {
      assert HexDigits(p) == Zeros(width);
      ZeroValue(16, HexDigits(p));
    } else {
      assert HexDigits(p) == Zeros(k) + Digits(16, n);
      PaddedValue(16, k, Digits(16, n));
      ValueOfDigits(16, n);
    }
  }
}
