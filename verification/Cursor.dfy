/** The offset cursor: base64 of the JSON object {"offset": N}. */
module Cursor {
  import opened Descriptors
  import opened Base64

  const MAX_INT64: int := 0x7FFF_FFFF_FFFF_FFFF
  const MIN_INT64: int := -0x8000_0000_0000_0000

  datatype CursorError = NotBase64 | NotJson | Negative
  datatype Result<+T> = Ok(value: T) | Err(error: CursorError)

  // ----- decimal numbers -----

  function DigitChar(d: nat): char
    requires d < 10
  {
    (d + 48) as char
  }

  predicate IsDigit(c: char) { '0' <= c <= '9' }

  function Digits(n: nat): (s: string)
    ensures s != "" && forall i :: 0 <= i < |s| ==> IsDigit(s[i])
  {
    if n < 10 then [DigitChar(n)] else Digits(n / 10) + [DigitChar(n % 10)]
  }

  function IntText(n: int): string { if n < 0 then "-" + Digits(-n) else Digits(n) }

  function DigitsValue(s: string): nat
    requires forall i :: 0 <= i < |s| ==> IsDigit(s[i])
  {
    if s == "" then 0
    else
      assert IsDigit(s[|s| - 1]);
      10 * DigitsValue(s[..|s| - 1]) + (s[|s| - 1] as int - 48)
  }

  /** The integers JSON allows: digits without a leading zero. */
  function ParseNat(s: string): Option<nat> {
    if s == "" || (exists i :: 0 <= i < |s| && !IsDigit(s[i])) || (s[0] == '0' && |s| > 1) then None
    else Some(DigitsValue(s))
  }

  function ParseInt(s: string): Option<int> {
    var negative := s != "" && s[0] == '-';
    var magnitude := ParseNat(if negative then s[1..] else s);
    if magnitude.None? then None
    else
      var n: int := magnitude.value;
      Some(if negative then -n else n)
  }

  lemma {:induction false} DigitsRoundTrip(n: nat)
    ensures DigitsValue(Digits(n)) == n
    ensures n > 0 ==> Digits(n)[0] != '0'
    ensures n == 0 ==> |Digits(n)| == 1
  {
    if n >= 10 {
      DigitsRoundTrip(n / 10);
      var s := Digits(n);
      assert s[..|s| - 1] == Digits(n / 10);
    }
  }

  lemma NatRoundTrip(n: nat)
    ensures ParseNat(Digits(n)) == Some(n)
  {
    DigitsRoundTrip(n);
  }

  lemma IntRoundTrip(n: int)
    ensures ParseInt(IntText(n)) == Some(n)
  {
    var digits := Digits(if n < 0 then -n else n);
    NatRoundTrip(if n < 0 then -n else n);
    assert IsDigit(digits[0]);
    assert ("-" + digits)[1..] == digits;
  }

  function Pow10(n: nat): (r: nat)
    ensures r > 0
  {
    if n == 0 then 1 else 10 * Pow10(n - 1)
  }

  const DECIMALS := "0123456789"

  lemma DigitIs(d: nat)
    requires d < 10
    ensures |DECIMALS| == 10 && DigitChar(d) == DECIMALS[d]
  {
  }

  lemma NestedDivision(n: nat, p: nat)
    requires p > 0
    ensures n / 10 / p == n / (10 * p)
  {
    var q, r := n / 10 / p, n / 10 % p;
    assert n / 10 == q * p + r;
    assert n == q * (10 * p) + (10 * r + n % 10);
    DivUnique(n, 10 * p, q, 10 * r + n % 10);
  }

  lemma DivUnique(a: int, p: int, q: int, r: int)
    requires p > 0 && a == q * p + r && 0 <= r < p
    ensures a / p == q
  {
    var d := a / p - q;
    assert d * p == r - a % p by { assert a == a / p * p + a % p; }
    SignedMultiple(d, p);
  }

  lemma SignedMultiple(d: int, p: int)
    requires p > 0
    ensures d > 0 ==> d * p >= p
    ensures d < 0 ==> d * p <= -p
  {
  }

  /** The digit `k` places from the right is the one of the k-th power of ten, and there is no place
      more than the number needs. */
  lemma {:induction false} DecimalPlaces(n: nat, k: nat)
    ensures |Digits(n)| > 1 ==> Pow10(|Digits(n)| - 1) <= n
    ensures n < Pow10(|Digits(n)|)
    ensures k < |Digits(n)| ==> |DECIMALS| == 10 && Digits(n)[|Digits(n)| - 1 - k] == DECIMALS[n / Pow10(k) % 10]
    decreases n
  {
    hide DigitChar;
    DigitIs(n % 10);
    if n < 10 {
      assert Pow10(1) == 10;
      assert k == 0 ==> n / Pow10(k) % 10 == n;
    } else {
      DecimalPlaces(n / 10, if k > 0 then k - 1 else 0);
      if k > 0 { NestedDivision(n, Pow10(k - 1)); }
    }
  }

  // ----- the JSON object -----

  const PREFIX := "{\"offset\":"
  const SUFFIX := "}"

  function CursorJson(offset: int): string { PREFIX + IntText(offset) + SUFFIX }

  /** Reads back the printed form; a number outside int64 is an error. */
  function ParseCursorJson(s: string): Option<int> {
    if |s| < |PREFIX| + |SUFFIX| || s[..|PREFIX|] != PREFIX || s[|s| - 1..] != SUFFIX then None
    else
      var n := ParseInt(s[|PREFIX|..|s| - 1]);
      if n.Some? && MIN_INT64 <= n.value <= MAX_INT64 then n else None
  }

  lemma CursorJsonRoundTrip(offset: int)
    requires MIN_INT64 <= offset <= MAX_INT64
    ensures ParseCursorJson(CursorJson(offset)) == Some(offset)
  {
    IntRoundTrip(offset);
    var s := CursorJson(offset);
    assert s[|PREFIX|..|s| - 1] == IntText(offset);
  }

  lemma {:induction false} DigitsAgain(s: string)
    requires s != "" && (forall i :: 0 <= i < |s| ==> IsDigit(s[i])) && (|s| > 1 ==> s[0] != '0')
    ensures Digits(DigitsValue(s)) == s
    ensures |s| > 1 || s[0] != '0' ==> DigitsValue(s) > 0
    decreases |s|
  {
    var init, last := s[..|s| - 1], s[|s| - 1];
    assert IsDigit(last);
    assert s == init + [last];
    if |s| > 1 {
      DigitsAgain(init);
      var n := DigitsValue(s);
      assert n / 10 == DigitsValue(init) && n % 10 == last as int - 48;
    } else {
      assert IsDigit(s[0]);
    }
  }

  /** The texts that denote a number are its decimal digits, and nothing else. */
  lemma NatExactly(s: string, n: nat)
    ensures ParseNat(s) == Some(n) <==> s == Digits(n)
  {
    NatRoundTrip(n);
    if ParseNat(s) == Some(n) { DigitsAgain(s); }
  }

  lemma IntExactly(s: string, n: int)
    ensures ParseInt(s) == Some(n) <==> s == IntText(n) || (n == 0 && s == "-0")
  {
    if s != "" && s[0] == '-' {
      assert s == "-" + s[1..];
      if n <= 0 { NatExactly(s[1..], -n); }
      assert IsDigit(Digits(if n < 0 then -n else n)[0]);
      assert Digits(0) == "0";
    } else {
      if n >= 0 { NatExactly(s, n); }
    }
  }

  /** What the object looks like for a number: `{"offset":N}`, without any blank. */
  lemma JsonExactly(s: string, n: int)
    ensures CursorJson(n) == "{\"offset\":" + IntText(n) + "}"
    ensures ParseCursorJson(s) == Some(n) <==>
      MIN_INT64 <= n <= MAX_INT64 && (s == CursorJson(n) || (n == 0 && s == "{\"offset\":-0}"))
  {
    if |s| >= |PREFIX| + |SUFFIX| && s[..|PREFIX|] == PREFIX && s[|s| - 1..] == SUFFIX {
      var middle := s[|PREFIX|..|s| - 1];
      assert s == PREFIX + middle + SUFFIX;
      IntExactly(middle, n);
      SameMiddle(middle, IntText(n));
      SameMiddle(middle, "-0");
    }
    assert PREFIX + "-0" + SUFFIX == "{\"offset\":-0}";
    Wrapped(IntText(n));
    Wrapped("-0");
  }

  lemma SameMiddle(a: string, b: string)
    ensures PREFIX + a + SUFFIX == PREFIX + b + SUFFIX <==> a == b
  {
    assert (PREFIX + a + SUFFIX)[|PREFIX|..|PREFIX| + |a|] == a;
    assert (PREFIX + b + SUFFIX)[|PREFIX|..|PREFIX| + |b|] == b;
    if PREFIX + a + SUFFIX == PREFIX + b + SUFFIX { assert |a| == |b|; }
  }

  lemma Wrapped(a: string)
    ensures var s := PREFIX + a + SUFFIX;
      |s| >= |PREFIX| + |SUFFIX| && s[..|PREFIX|] == PREFIX && s[|s| - 1..] == SUFFIX
  {
  }

  // ----- the cursor -----

  predicate Ascii(s: string) { forall i :: 0 <= i < |s| ==> s[i] as int < 128 }

  function ToBytes(s: string): seq<Byte>
    requires Ascii(s)
  {
    seq(|s|, i requires 0 <= i < |s| => s[i] as int)
  }

  /** The text of the bytes; bytes outside ASCII have no place in a cursor. */
  function ToText(b: seq<Byte>): Option<string> {
    if exists i :: 0 <= i < |b| && b[i] >= 128 then None
    else Some(seq(|b|, i requires 0 <= i < |b| && b[i] < 128 => b[i] as char))
  }

  lemma CursorJsonAscii(offset: int)
    ensures Ascii(CursorJson(offset))
  {
    var text := IntText(offset);
    assert forall i :: 0 <= i < |text| ==> text[i] == '-' || IsDigit(text[i]);
    hide IntText;
  }

  function EncodeOffsetCursor(offset: int): string {
    CursorJsonAscii(offset);
    EncodeBase64(ToBytes(CursorJson(offset)))
  }

  /** The offset a cursor stands for, before its sign is looked at. */
  function ParseCursor(cursor: string): Result<int> {
    match DecodeBase64(cursor)
    case None => Err(NotBase64)
    case Some(raw) =>
      match ToText(raw)
      case None => Err(NotJson)
      case Some(text) =>
        match ParseCursorJson(text)
        case None => Err(NotJson)
        case Some(offset) => Ok(offset)
  }

  function DecodeOffsetCursor(cursor: string): Result<int> {
    if cursor == "" then Ok(0)
    else
      match ParseCursor(cursor)
      case Err(e) => Err(e)
      case Ok(offset) => if offset < 0 then Err(Negative) else Ok(offset)
  }

  lemma TextRoundTrip(s: string)
    requires Ascii(s)
    ensures ToText(ToBytes(s)) == Some(s)
  {
    assert ToText(ToBytes(s)).value == s;
  }

  lemma ParseEncoded(offset: int)
    requires MIN_INT64 <= offset <= MAX_INT64
    ensures ParseCursor(EncodeOffsetCursor(offset)) == Ok(offset)
  {
    CursorJsonAscii(offset);
    Base64RoundTrip(ToBytes(CursorJson(offset)));
    TextRoundTrip(CursorJson(offset));
    CursorJsonRoundTrip(offset);
  }

  /** Decoding an encoded cursor gives back the offset, refusing exactly the negative ones; no
      encoding is the empty cursor of the first page. */
  lemma DecodeEncoded(offset: int)
    requires MIN_INT64 <= offset <= MAX_INT64
    ensures EncodeOffsetCursor(offset) != ""
    ensures DecodeOffsetCursor(EncodeOffsetCursor(offset)) == if offset < 0 then Err(Negative) else Ok(offset)
  {
    ParseEncoded(offset);
    CursorJsonAscii(offset);
    assert CursorJson(offset)[0] == '{';
  }

  /** Different offsets have different cursors. */
  lemma EncodingInjective(a: int, b: int)
    requires MIN_INT64 <= a <= MAX_INT64 && MIN_INT64 <= b <= MAX_INT64
    ensures EncodeOffsetCursor(a) == EncodeOffsetCursor(b) <==> a == b
  {
    ParseEncoded(a);
    ParseEncoded(b);
  }

  lemma BytesAreText(b: seq<Byte>, s: string)
    requires Ascii(s)
    ensures ToText(b) == Some(s) <==> b == ToBytes(s)
  {
    TextRoundTrip(s);
    if ToText(b) == Some(s) { assert ToBytes(s) == b; }
  }

  /** Which cursors are accepted, and for which offset: the empty one for 0, and any base64 text whose
      bytes are the object with that offset, which must not be negative. */
  lemma CursorExactly(cursor: string, n: int)
    ensures Ascii(CursorJson(n)) && Ascii("{\"offset\":-0}")
    ensures DecodeOffsetCursor(cursor) == Ok(n) <==>
      if cursor == "" then n == 0
      else
        && 0 <= n <= MAX_INT64
        && (DecodeBase64(cursor) == Some(ToBytes(CursorJson(n))) ||
            (n == 0 && DecodeBase64(cursor) == Some(ToBytes("{\"offset\":-0}"))))
  {
    hide DecodeBase64, ParseCursorJson, CursorJson, ToText, ToBytes;
    CursorJsonAscii(n);
    var raw := DecodeBase64(cursor);
    if raw.Some? {
      BytesAreText(raw.value, CursorJson(n));
      BytesAreText(raw.value, "{\"offset\":-0}");
      if ToText(raw.value).Some? { JsonExactly(ToText(raw.value).value, n); }
    }
  }

  /** And why the others are refused. */
  lemma RefusedCursors(cursor: string)
    ensures forall n :: Ascii(CursorJson(n))
    ensures DecodeOffsetCursor(cursor).Err? ==>
      match DecodeOffsetCursor(cursor).error
      case NotBase64 => DecodeBase64(cursor).None?
      case Negative =>
        exists n :: MIN_INT64 <= n < 0 && DecodeBase64(cursor) == Some(ToBytes(CursorJson(n)))
      case NotJson =>
        && DecodeBase64(cursor).Some?
        && forall n :: MIN_INT64 <= n <= MAX_INT64 ==> DecodeBase64(cursor) != Some(ToBytes(CursorJson(n)))
  {
    hide DecodeBase64, ParseCursorJson, CursorJson, ToText, ToBytes;
    forall n ensures Ascii(CursorJson(n)) { CursorJsonAscii(n); }
    var raw := DecodeBase64(cursor);
    if raw.Some? {
      forall n | MIN_INT64 <= n <= MAX_INT64
        ensures ParseCursor(cursor) == Ok(n) <== raw.value == ToBytes(CursorJson(n))
      {
        BytesAreText(raw.value, CursorJson(n));
        CursorJsonRoundTrip(n);
      }
      var parsed := ParseCursor(cursor);
      if parsed.Ok? && parsed.value < 0 {
        BytesAreText(raw.value, CursorJson(parsed.value));
        JsonExactly(ToText(raw.value).value, parsed.value);
      }
    }
  }

  lemma QuadText(b0: Byte, b1: Byte, b2: Byte, text: string, rest: seq<Byte>)
    requires var v := Sextets(b0, b1, b2);
      text == [Base64Char(v.0), Base64Char(v.1), Base64Char(v.2), Base64Char(v.3)]
    ensures EncodeBase64([b0, b1, b2] + rest) == text + EncodeBase64(rest)
  {
    hide Sextets, Base64Char;
    assert ([b0, b1, b2] + rest)[3..] == rest;
  }

  lemma QuadTexts()
    ensures forall rest :: EncodeBase64([123, 34, 111] + rest) == "eyJv" + EncodeBase64(rest)
    ensures forall rest :: EncodeBase64([102, 102, 115] + rest) == "ZmZz" + EncodeBase64(rest)
    ensures forall rest :: EncodeBase64([101, 116, 34] + rest) == "ZXQi" + EncodeBase64(rest)
    ensures forall rest :: EncodeBase64([58, 53, 48] + rest) == "OjUw" + EncodeBase64(rest)
  {
    hide EncodeBase64;
    forall rest ensures EncodeBase64([123, 34, 111] + rest) == "eyJv" + EncodeBase64(rest) {
      QuadText(123, 34, 111, "eyJv", rest);
    }
    forall rest ensures EncodeBase64([102, 102, 115] + rest) == "ZmZz" + EncodeBase64(rest) {
      QuadText(102, 102, 115, "ZmZz", rest);
    }
    forall rest ensures EncodeBase64([101, 116, 34] + rest) == "ZXQi" + EncodeBase64(rest) {
      QuadText(101, 116, 34, "ZXQi", rest);
    }
    forall rest ensures EncodeBase64([58, 53, 48] + rest) == "OjUw" + EncodeBase64(rest) {
      QuadText(58, 53, 48, "OjUw", rest);
    }
  }

  /** The cursor of the second page of fifty, as the wire has it. */
  lemma CursorOfFifty()
    ensures EncodeOffsetCursor(50) == "eyJvZmZzZXQiOjUwfQ=="
  {
    FiftyBytes();
    QuadTexts();
    LastBrace();
    hide EncodeBase64, CursorJson, ToBytes;
    assert "eyJvZmZzZXQiOjUwfQ==" == "eyJv" + ("ZmZz" + ("ZXQi" + ("OjUw" + "fQ==")));
  }

  lemma LastBrace()
    ensures EncodeBase64([125]) == "fQ=="
  {
  }

  lemma FiftyBytes()
    ensures Ascii(CursorJson(50))
    ensures ToBytes(CursorJson(50)) ==
      [123, 34, 111] + ([102, 102, 115] + ([101, 116, 34] + ([58, 53, 48] + [125])))
  {
    assert Digits(5) == "5" && Digits(50) == "50";
    assert CursorJson(50) == "{\"offset\":50}";
    CursorJsonAscii(50);
  }
}
