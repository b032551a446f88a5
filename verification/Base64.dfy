/** Base64 with padding, after section 4 of RFC 4648. */
module Base64 {
  import opened Descriptors

  type Byte = n: nat | n < 256

  function Base64Char(v: nat): char
    requires v < 64
  {
    if v < 26 then (v + 65) as char
    else if v < 52 then (v + 71) as char
    else if v < 62 then (v - 4) as char
    else if v == 62 then '+' else '/'
  }

  function Base64Value(c: char): Option<nat> {
    if 'A' <= c <= 'Z' then Some(c as int - 65)
    else if 'a' <= c <= 'z' then Some(c as int - 71)
    else if '0' <= c <= '9' then Some(c as int + 4)
    else if c == '+' then Some(62)
    else if c == '/' then Some(63)
    else None
  }

  type Sextet = n: nat | n < 64

  /** The four groups of six bits of three bytes. */
  function Sextets(b0: Byte, b1: Byte, b2: Byte): (Sextet, Sextet, Sextet, Sextet) {
    (b0 / 4, b0 % 4 * 16 + b1 / 16, b1 % 16 * 4 + b2 / 64, b2 % 64)
  }

  function EncodeBase64(b: seq<Byte>): (s: string)
    ensures s == "" <==> b == []
  {
    if b == [] then ""
    else if |b| == 1 then
      var v := Sextets(b[0], 0, 0);
      [Base64Char(v.0), Base64Char(v.1), '=', '=']
    else if |b| == 2 then
      var v := Sextets(b[0], b[1], 0);
      [Base64Char(v.0), Base64Char(v.1), Base64Char(v.2), '=']
    else
      var v := Sextets(b[0], b[1], b[2]);
      [Base64Char(v.0), Base64Char(v.1), Base64Char(v.2), Base64Char(v.3)] + EncodeBase64(b[3..])
  }

  // ----- what the encoding is, bit by bit -----

  const UPPER := "ABCDEFGHIJKLMNOPQRSTUVWXYZ"
  const LOWER := "abcdefghijklmnopqrstuvwxyz"
  const TEN := "0123456789"
  const ALPHABET := UPPER + LOWER + TEN + "+/"

  lemma UpperAt(v: nat)
    requires v < 26
    ensures |UPPER| == 26 && UPPER[v] as int == v + 65
  {
  }

  lemma LowerAt(v: nat)
    requires v < 26
    ensures |LOWER| == 26 && LOWER[v] as int == v + 97
  {
  }

  lemma InAlphabet(v: nat)
    requires v < 64
    ensures |ALPHABET| == 64 && Base64Char(v) == ALPHABET[v]
  {
    UpperAt(if v < 26 then v else 0);
    LowerAt(if 26 <= v < 52 then v - 26 else 0);
    assert |TEN| == 10;
    if v < 26 { assert ALPHABET[v] == UPPER[v]; }
    else if v < 52 { assert ALPHABET[v] == LOWER[v - 26]; }
    else if v < 62 { assert ALPHABET[v] == TEN[v - 52]; }
    else { assert ALPHABET[v] == "+/"[v - 62]; }
  }

  function ByteAt(b: seq<Byte>, n: nat): Byte { if n < |b| then b[n] else 0 }

  /** Three bytes as one number of 24 bits, zeros standing in for missing bytes. */
  function Group24(b: seq<Byte>, j: nat): nat {
    ByteAt(b, 3 * j) * 0x1_0000 + ByteAt(b, 3 * j + 1) * 0x100 + ByteAt(b, 3 * j + 2)
  }

  /** Bits 6k to 6k + 5 of `b`: a quarter of a group, the most significant first. */
  function SixBits(b: seq<Byte>, k: nat): (r: nat)
    ensures r < 64
  {
    var group := Group24(b, k / 4);
    match k % 4
    case 0 => group / 0x4_0000 % 64
    case 1 => group / 0x1000 % 64
    case 2 => group / 64 % 64
    case _ => group % 64
  }

  /** The groups of six bits, put together again. */
  lemma GroupsJoin(b0: Byte, b1: Byte, b2: Byte)
    ensures var v := Sextets(b0, b1, b2);
      b0 * 0x1_0000 + b1 * 0x100 + b2 == v.0 * 0x4_0000 + v.1 * 0x1000 + v.2 * 64 + v.3
  {
    assert b0 == b0 / 4 * 4 + b0 % 4;
    assert b1 == b1 / 16 * 16 + b1 % 16;
    assert b2 == b2 / 64 * 64 + b2 % 64;
  }

  lemma QuarterOf(v0: Sextet, v1: Sextet, v2: Sextet, v3: Sextet, group: nat)
    requires group == v0 * 0x4_0000 + v1 * 0x1000 + v2 * 64 + v3
    ensures group / 0x4_0000 % 64 == v0 && group / 0x1000 % 64 == v1 && group / 64 % 64 == v2 && group % 64 == v3
  {
    assert group / 64 == v0 * 0x1000 + v1 * 64 + v2;
    assert group / 0x1000 == v0 * 64 + v1;
    assert group / 0x4_0000 == v0;
  }

  lemma Quarters(b0: Byte, b1: Byte, b2: Byte)
    ensures var group, v := b0 * 0x1_0000 + b1 * 0x100 + b2, Sextets(b0, b1, b2);
      group / 0x4_0000 % 64 == v.0 && group / 0x1000 % 64 == v.1 && group / 64 % 64 == v.2 && group % 64 == v.3
  {
    hide Sextets;
    var v := Sextets(b0, b1, b2);
    GroupsJoin(b0, b1, b2);
    QuarterOf(v.0, v.1, v.2, v.3, b0 * 0x1_0000 + b1 * 0x100 + b2);
  }

  /** The four groups of the first three bytes. */
  lemma FirstGroups(b: seq<Byte>, k: nat)
    requires b != [] && k < 4
    ensures var v := Sextets(b[0], ByteAt(b, 1), ByteAt(b, 2));
      SixBits(b, k) == if k == 0 then v.0 else if k == 1 then v.1 else if k == 2 then v.2 else v.3
  {
    hide Sextets;
    Quarters(b[0], ByteAt(b, 1), ByteAt(b, 2));
    assert Group24(b, 0) == b[0] * 0x1_0000 + ByteAt(b, 1) * 0x100 + ByteAt(b, 2);
    hide Group24, ByteAt;
    assert k / 4 == 0 && k % 4 == k;
  }

  lemma LaterGroup(b: seq<Byte>, k: nat)
    requires |b| >= 3
    ensures SixBits(b, k + 4) == SixBits(b[3..], k)
  {
    assert (k + 4) / 4 == k / 4 + 1 && (k + 4) % 4 == k % 4;
    var j := k / 4;
    assert ByteAt(b, 3 * (j + 1)) == ByteAt(b[3..], 3 * j);
    assert ByteAt(b, 3 * (j + 1) + 1) == ByteAt(b[3..], 3 * j + 1);
    assert ByteAt(b, 3 * (j + 1) + 2) == ByteAt(b[3..], 3 * j + 2);
  }

  /** What character `k` of an encoding must be: the letter of bits 6k to 6k + 5 as far as there are
      bytes, and then padding. */
  function LetterAt(b: seq<Byte>, k: nat): char {
    InAlphabet(SixBits(b, k));
    if 6 * k < 8 * |b| then ALPHABET[SixBits(b, k)] else '='
  }

  lemma FirstQuad(b: seq<Byte>, k: nat)
    requires b != [] && k < 4
    ensures k < |EncodeBase64(b)| && EncodeBase64(b)[k] == LetterAt(b, k)
  {
    hide Sextets, Base64Char, SixBits;
    FirstGroups(b, k);
    InAlphabet(SixBits(b, k));
    SextetsPadded(b);
  }

  /** What a missing byte leaves of the groups. */
  lemma SextetsPadded(b: seq<Byte>)
    requires b != []
    ensures |b| == 1 ==> Sextets(b[0], ByteAt(b, 1), ByteAt(b, 2)) == Sextets(b[0], 0, 0)
    ensures |b| == 2 ==> Sextets(b[0], ByteAt(b, 1), ByteAt(b, 2)) == Sextets(b[0], b[1], 0)
    ensures |b| >= 3 ==> Sextets(b[0], ByteAt(b, 1), ByteAt(b, 2)) == Sextets(b[0], b[1], b[2])
  {
  }

  lemma QuadMore(b: seq<Byte>)
    ensures b == [] ==> EncodeBase64(b) == ""
    ensures 0 < |b| <= 3 ==> |EncodeBase64(b)| == 4
    ensures |b| > 3 ==> |EncodeBase64(b)| == 4 + |EncodeBase64(b[3..])| && EncodeBase64(b)[4..] == EncodeBase64(b[3..])
  {
    hide Base64Char, Sextets;
    if |b| == 3 { assert EncodeBase64(b[3..]) == ""; }
  }

  lemma LaterLetter(b: seq<Byte>, k: nat)
    requires |b| > 3
    ensures LetterAt(b, k + 4) == LetterAt(b[3..], k)
  {
    hide SixBits;
    LaterGroup(b, k);
  }

  /** The encoding of `b`, character by character, padded to whole quads. */
  lemma {:induction false} EncodedAt(b: seq<Byte>, k: nat)
    ensures |EncodeBase64(b)| == (|b| + 2) / 3 * 4
    ensures k < |EncodeBase64(b)| ==> EncodeBase64(b)[k] == LetterAt(b, k)
    decreases |b|
  {
    hide EncodeBase64, LetterAt;
    QuadMore(b);
    if b != [] && k < 4 { FirstQuad(b, k); }
    if |b| > 3 {
      EncodedAt(b[3..], if k >= 4 then k - 4 else 0);
      if 4 <= k < |EncodeBase64(b)| {
        LaterLetter(b, k - 4);
        assert EncodeBase64(b)[k] == EncodeBase64(b)[4..][k - 4];
      }
    }
  }

  /** Line breaks in the input are skipped. */
  function DropNewlines(s: string): string {
    if s == "" then ""
    else (if s[0] == '\r' || s[0] == '\n' then "" else [s[0]]) + DropNewlines(s[1..])
  }

  function DecodeQuads(s: string): Option<seq<Byte>> {
    if s == "" then Some([])
    else if |s| < 4 then None
    else
      var v0, v1 := Base64Value(s[0]), Base64Value(s[1]);
      if v0.None? || v1.None? then None
      else
        var b0: Byte := v0.value * 4 + v1.value / 16;
        if |s| == 4 && s[2] == '=' && s[3] == '=' then Some([b0])
        else
          var v2 := Base64Value(s[2]);
          if v2.None? then None
          else
            var b1: Byte := v1.value % 16 * 16 + v2.value / 4;
            if |s| == 4 && s[3] == '=' then Some([b0, b1])
            else
              var v3, rest := Base64Value(s[3]), DecodeQuads(s[4..]);
              if v3.None? || rest.None? then None
              else
                var b2: Byte := v2.value % 4 * 64 + v3.value;
                Some([b0, b1, b2] + rest.value)
  }

  function DecodeBase64(s: string): Option<seq<Byte>> { DecodeQuads(DropNewlines(s)) }

  lemma CharRoundTrip(v: nat)
    requires v < 64
    ensures Base64Value(Base64Char(v)) == Some(v)
    ensures Base64Char(v) != '=' && Base64Char(v) != '\r' && Base64Char(v) != '\n'
  {
  }

  lemma GroupArithmetic(b0: Byte, b1: Byte, b2: Byte)
    ensures b0 / 4 * 4 + (b0 % 4 * 16 + b1 / 16) / 16 == b0 && b0 / 4 * 4 + (b0 % 4 * 16) / 16 == b0
    ensures (b0 % 4 * 16 + b1 / 16) % 16 * 16 + (b1 % 16 * 4 + b2 / 64) / 4 == b1
    ensures (b0 % 4 * 16 + b1 / 16) % 16 * 16 + (b1 % 16 * 4) / 4 == b1
    ensures (b1 % 16 * 4 + b2 / 64) % 4 * 64 + b2 % 64 == b2
  {
  }

  lemma OneByte(b0: Byte)
    ensures DecodeQuads(EncodeBase64([b0])) == Some([b0])
  {
    GroupArithmetic(b0, 0, 0);
    CharRoundTrip(b0 / 4);
    CharRoundTrip(b0 % 4 * 16);
  }

  lemma ThreeChars(v0: nat, v1: nat, v2: nat)
    requires v0 < 64 && v1 < 64 && v2 < 64
    ensures DecodeQuads([Base64Char(v0), Base64Char(v1), Base64Char(v2), '=']) ==
      Some([v0 * 4 + v1 / 16, v1 % 16 * 16 + v2 / 4])
  {
    CharRoundTrip(v0);
    CharRoundTrip(v1);
    CharRoundTrip(v2);
    hide Base64Char, Base64Value;
  }

  lemma TwoBytes(b0: Byte, b1: Byte)
    ensures DecodeQuads(EncodeBase64([b0, b1])) == Some([b0, b1])
  {
    hide DecodeQuads, Base64Char;
    GroupArithmetic(b0, b1, 0);
    ThreeChars(b0 / 4, b0 % 4 * 16 + b1 / 16, b1 % 16 * 4);
  }

  lemma FullQuad(t: string, v0: nat, v1: nat, v2: nat, v3: nat, b0: Byte, b1: Byte, b2: Byte)
    requires |t| >= 4 && Base64Value(t[0]) == Some(v0) && Base64Value(t[1]) == Some(v1)
    requires Base64Value(t[2]) == Some(v2) && Base64Value(t[3]) == Some(v3) && t[2] != '=' && t[3] != '='
    requires b0 == v0 * 4 + v1 / 16 && b1 == v1 % 16 * 16 + v2 / 4 && b2 == v2 % 4 * 64 + v3
    requires DecodeQuads(t[4..]).Some?
    ensures DecodeQuads(t) == Some([b0, b1, b2] + DecodeQuads(t[4..]).value)
  {
    hide Base64Value;
  }

  lemma ThreeBytes(b0: Byte, b1: Byte, b2: Byte, rest: seq<Byte>)
    requires DecodeQuads(EncodeBase64(rest)).Some?
    ensures DecodeQuads(EncodeBase64([b0, b1, b2] + rest)) == Some([b0, b1, b2] + DecodeQuads(EncodeBase64(rest)).value)
  {
    hide DecodeQuads, Base64Char, Base64Value;
    var v0, v1, v2, v3 := b0 / 4, b0 % 4 * 16 + b1 / 16, b1 % 16 * 4 + b2 / 64, b2 % 64;
    CharRoundTrip(v0);
    CharRoundTrip(v1);
    CharRoundTrip(v2);
    CharRoundTrip(v3);
    GroupArithmetic(b0, b1, b2);
    var b := [b0, b1, b2] + rest;
    assert b[3..] == rest;
    var t := EncodeBase64(b);
    assert t == [Base64Char(v0), Base64Char(v1), Base64Char(v2), Base64Char(v3)] + EncodeBase64(rest);
    assert t[4..] == EncodeBase64(rest);
    FullQuad(t, v0, v1, v2, v3, b0, b1, b2);
  }

  lemma {:induction false} QuadsRoundTrip(b: seq<Byte>)
    ensures DecodeQuads(EncodeBase64(b)) == Some(b)
    decreases |b|
  {
    if |b| == 1 {
      assert b == [b[0]];
      OneByte(b[0]);
    } else if |b| == 2 {
      assert b == [b[0], b[1]];
      TwoBytes(b[0], b[1]);
    } else if |b| > 2 {
      QuadsRoundTrip(b[3..]);
      assert b == [b[0], b[1], b[2]] + b[3..];
      ThreeBytes(b[0], b[1], b[2], b[3..]);
    }
  }

  lemma {:induction false} NoNewlines(b: seq<Byte>)
    ensures forall i :: 0 <= i < |EncodeBase64(b)| ==> EncodeBase64(b)[i] != '\r' && EncodeBase64(b)[i] != '\n'
    decreases |b|
  {
    if |b| > 2 { NoNewlines(b[3..]); }
  }

  lemma {:induction false} NothingDropped(s: string)
    requires forall i :: 0 <= i < |s| ==> s[i] != '\r' && s[i] != '\n'
    ensures DropNewlines(s) == s
    decreases |s|
  {
    if s != "" { NothingDropped(s[1..]); }
  }

  /** Base64 decoding undoes encoding, for all byte strings. */
  lemma Base64RoundTrip(b: seq<Byte>)
    ensures DecodeBase64(EncodeBase64(b)) == Some(b)
  {
    QuadsRoundTrip(b);
    NoNewlines(b);
    NothingDropped(EncodeBase64(b));
  }

  // ----- which texts the decoder accepts -----

  /** How many values the bits of group `k` that lie past the end of `b` can take. */
  function Unused(b: seq<Byte>, k: nat): (n: nat)
    ensures n > 0
  {
    if 6 * k + 6 <= 8 * |b| then 1 else if 6 * k + 6 == 8 * |b| + 2 then 4 else 16
  }

  /** Character `c` may stand at place `k` of a text for `b`: a letter with the right bits, those past
      the end of `b` being free, or padding where there are no bits. */
  ghost predicate MayStand(b: seq<Byte>, k: nat, c: char) {
    if 6 * k >= 8 * |b| then c == '='
    else exists v :: 0 <= v < |ALPHABET| && ALPHABET[v] == c && v / Unused(b, k) == SixBits(b, k) / Unused(b, k)
  }

  ghost predicate StandsFor(t: string, b: seq<Byte>) {
    |t| == (|b| + 2) / 3 * 4 && forall k :: 0 <= k < |t| ==> MayStand(b, k, t[k])
  }

  lemma ValueExactly(c: char, v: nat)
    ensures Base64Value(c) == Some(v) <==> v < 64 && Base64Char(v) == c
  {
  }

  lemma MayStandIs(b: seq<Byte>, k: nat, c: char)
    requires 6 * k < 8 * |b|
    ensures MayStand(b, k, c) <==>
      Base64Value(c).Some? && Base64Value(c).value / Unused(b, k) == SixBits(b, k) / Unused(b, k)
  {
    hide Base64Char, Base64Value, SixBits, Unused;
    InAlphabet(0);
    if Base64Value(c).Some? {
      ValueExactly(c, Base64Value(c).value);
      InAlphabet(Base64Value(c).value);
    }
    if v :| 0 <= v < |ALPHABET| && ALPHABET[v] == c && v / Unused(b, k) == SixBits(b, k) / Unused(b, k) {
      InAlphabet(v);
      ValueExactly(c, v);
    }
  }

  predicate OneByteText(t: string, b: seq<Byte>) {
    && |t| == 4 && |b| == 1 && Base64Value(t[0]) == Some(b[0] / 4)
    && Base64Value(t[1]).Some? && Base64Value(t[1]).value / 16 == b[0] % 4 && t[2] == '=' && t[3] == '='
  }

  predicate TwoByteText(t: string, b: seq<Byte>) {
    && |t| == 4 && |b| == 2 && Base64Value(t[0]) == Some(b[0] / 4)
    && Base64Value(t[1]) == Some(b[0] % 4 * 16 + b[1] / 16)
    && Base64Value(t[2]).Some? && Base64Value(t[2]).value / 4 == b[1] % 16 && t[3] == '='
  }

  /** The first four characters are the groups of the first three bytes. */
  predicate FullHead(t: string, b: seq<Byte>) {
    && |t| >= 4 && |b| >= 3
    && var v := Sextets(b[0], b[1], b[2]);
      && Base64Value(t[0]) == Some(v.0) && Base64Value(t[1]) == Some(v.1)
      && Base64Value(t[2]) == Some(v.2) && Base64Value(t[3]) == Some(v.3)
  }

  lemma Bytewise(b0: Byte, b1: Byte, b2: Byte, v0: Sextet, v1: Sextet, v2: Sextet, v3: Sextet)
    ensures b0 == v0 * 4 + v1 / 16 <==> v0 == b0 / 4 && v1 / 16 == b0 % 4
    ensures b0 == v0 * 4 + v1 / 16 && b1 == v1 % 16 * 16 + v2 / 4 <==>
      v0 == b0 / 4 && v1 == b0 % 4 * 16 + b1 / 16 && v2 / 4 == b1 % 16
  {
  }

  lemma Bytewise3(b0: Byte, b1: Byte, b2: Byte, v0: Sextet, v1: Sextet, v2: Sextet, v3: Sextet)
    ensures b0 == v0 * 4 + v1 / 16 && b1 == v1 % 16 * 16 + v2 / 4 && b2 == v2 % 4 * 64 + v3 <==>
      (v0, v1, v2, v3) == Sextets(b0, b1, b2)
  {
    Bytewise(b0, b1, b2, v0, v1, v2, v3);
  }

  /** What one quad decodes to. */
  lemma QuadDecodes(t: string)
    requires |t| >= 4
    ensures var v0, v1, v2, v3 := Base64Value(t[0]), Base64Value(t[1]), Base64Value(t[2]), Base64Value(t[3]);
      if v0.None? || v1.None? then DecodeQuads(t) == None
      else if |t| == 4 && t[2] == '=' && t[3] == '=' then DecodeQuads(t) == Some([v0.value * 4 + v1.value / 16])
      else if v2.None? then DecodeQuads(t) == None
      else if |t| == 4 && t[3] == '=' then
        DecodeQuads(t) == Some([v0.value * 4 + v1.value / 16, v1.value % 16 * 16 + v2.value / 4])
      else if v3.None? || DecodeQuads(t[4..]).None? then DecodeQuads(t) == None
      else
        DecodeQuads(t) == Some([v0.value * 4 + v1.value / 16, v1.value % 16 * 16 + v2.value / 4,
            v2.value % 4 * 64 + v3.value] + DecodeQuads(t[4..]).value)
  {
  }

  lemma FullDecodes(t: string, b: seq<Byte>)
    requires |t| >= 4 && DecodeQuads(t[4..]).Some?
    requires Base64Value(t[0]).Some? && Base64Value(t[1]).Some? && Base64Value(t[2]).Some? && Base64Value(t[3]).Some?
    ensures DecodeQuads(t) == Some(b) <==> FullHead(t, b) && DecodeQuads(t[4..]) == Some(b[3..])
  {
    hide DecodeQuads, Base64Value;
    QuadDecodes(t);
    NoPadding(t[0]);
    NoPadding(t[1]);
    NoPadding(t[2]);
    NoPadding(t[3]);
    if |b| >= 3 {
      Bytewise3(b[0], b[1], b[2],
        Base64Value(t[0]).value, Base64Value(t[1]).value, Base64Value(t[2]).value, Base64Value(t[3]).value);
      assert b == [b[0], b[1], b[2]] + b[3..];
    }
  }

  lemma PaddedDecodes(t: string, b: seq<Byte>)
    requires |t| == 4 && t[3] == '=' && Base64Value(t[0]).Some? && Base64Value(t[1]).Some?
    requires t[2] != '=' ==> Base64Value(t[2]).Some?
    ensures DecodeQuads(t) == Some(b) <==> OneByteText(t, b) || TwoByteText(t, b)
  {
    hide DecodeQuads, Base64Value;
    QuadDecodes(t);
    NoPadding(t[0]);
    NoPadding(t[1]);
    NoPadding(t[2]);
    if |b| == 1 {
      assert b == [b[0]];
      Bytewise(b[0], 0, 0, Base64Value(t[0]).value, Base64Value(t[1]).value, 0, 0);
    }
    if |b| == 2 && t[2] != '=' {
      assert b == [b[0], b[1]];
      Bytewise(b[0], b[1], 0, Base64Value(t[0]).value, Base64Value(t[1]).value, Base64Value(t[2]).value, 0);
    }
  }

  lemma DecodeStep(t: string, b: seq<Byte>)
    requires |t| >= 4
    ensures DecodeQuads(t) == Some(b) <==>
      OneByteText(t, b) || TwoByteText(t, b) || (FullHead(t, b) && DecodeQuads(t[4..]) == Some(b[3..]))
  {
    hide DecodeQuads, Base64Value;
    QuadDecodes(t);
    NoPadding(t[2]);
    NoPadding(t[3]);
    if Base64Value(t[0]).Some? && Base64Value(t[1]).Some? && (t[2] == '=' || Base64Value(t[2]).Some?) {
      if |t| == 4 && t[3] == '=' {
        PaddedDecodes(t, b);
      } else if Base64Value(t[2]).Some? && Base64Value(t[3]).Some? && DecodeQuads(t[4..]).Some? {
        FullDecodes(t, b);
      }
    }
  }

  lemma NoPadding(c: char)
    ensures Base64Value(c).Some? ==> c != '=' && Base64Value(c).value < 64
  {
  }

  /** Group `k` of the first three bytes. */
  function Sextet4(b: seq<Byte>, k: nat): Sextet
    requires b != [] && k < 4
  {
    var v := Sextets(b[0], ByteAt(b, 1), ByteAt(b, 2));
    if k == 0 then v.0 else if k == 1 then v.1 else if k == 2 then v.2 else v.3
  }

  /** What may stand at one of the first four places. */
  lemma PlaceIs(b: seq<Byte>, k: nat, c: char)
    requires b != [] && k < 4
    ensures var free := if |b| == 1 && k == 1 then 16 else if |b| == 2 && k == 2 then 4 else 1;
      MayStand(b, k, c) <==>
        if k > |b| then c == '=' else Base64Value(c).Some? && Base64Value(c).value / free == Sextet4(b, k) / free
  {
    hide SixBits, Base64Value, MayStand, Sextets;
    FirstGroups(b, k);
    if 6 * k < 8 * |b| { MayStandIs(b, k, c); } else { Padding(b, k, c); }
  }

  lemma Padding(b: seq<Byte>, k: nat, c: char)
    requires 6 * k >= 8 * |b|
    ensures MayStand(b, k, c) <==> c == '='
  {
  }

  ghost predicate HeadMayStand(t: string, b: seq<Byte>)
    requires |t| >= 4
  {
    MayStand(b, 0, t[0]) && MayStand(b, 1, t[1]) && MayStand(b, 2, t[2]) && MayStand(b, 3, t[3])
  }

  lemma HeadOne(t: string, b: seq<Byte>)
    requires |t| >= 4 && |b| == 1
    ensures HeadMayStand(t, b) && |t| == 4 <==> OneByteText(t, b)
  {
    PlaceIs(b, 0, t[0]);
    PlaceIs(b, 1, t[1]);
    PlaceIs(b, 2, t[2]);
    PlaceIs(b, 3, t[3]);
    SextetsAre(b[0], 0, 0);
    hide MayStand, Base64Value, Sextets;
  }

  lemma HeadTwo(t: string, b: seq<Byte>)
    requires |t| >= 4 && |b| == 2
    ensures HeadMayStand(t, b) && |t| == 4 <==> TwoByteText(t, b)
  {
    PlaceIs(b, 0, t[0]);
    PlaceIs(b, 1, t[1]);
    PlaceIs(b, 2, t[2]);
    PlaceIs(b, 3, t[3]);
    SextetsAre(b[0], b[1], 0);
    hide MayStand, Base64Value, Sextets;
  }

  lemma HeadFull(t: string, b: seq<Byte>)
    requires |t| >= 4 && |b| >= 3
    ensures HeadMayStand(t, b) <==> FullHead(t, b)
  {
    PlaceIs(b, 0, t[0]);
    PlaceIs(b, 1, t[1]);
    PlaceIs(b, 2, t[2]);
    PlaceIs(b, 3, t[3]);
    hide MayStand, Base64Value, Sextets;
  }

  /** The first quad of a text for `b`. */
  lemma HeadStands(t: string, b: seq<Byte>)
    requires |t| >= 4 && b != []
    ensures HeadMayStand(t, b) && (|t| == 4 || |b| >= 3) <==>
      OneByteText(t, b) || TwoByteText(t, b) || FullHead(t, b)
  {
    hide HeadMayStand;
    if |b| == 1 { HeadOne(t, b); } else if |b| == 2 { HeadTwo(t, b); } else { HeadFull(t, b); }
  }

  lemma SextetsAre(b0: Byte, b1: Byte, b2: Byte)
    ensures Sextets(b0, b1, b2) == (b0 / 4, b0 % 4 * 16 + b1 / 16, b1 % 16 * 4 + b2 / 64, b2 % 64)
  {
  }

  lemma LaterStands(b: seq<Byte>, k: nat, c: char)
    requires |b| >= 3
    ensures MayStand(b, k + 4, c) <==> MayStand(b[3..], k, c)
  {
    LaterGroup(b, k);
    hide SixBits;
    assert Unused(b, k + 4) == Unused(b[3..], k);
  }

  lemma StandsStep(t: string, b: seq<Byte>)
    requires |t| >= 4
    ensures StandsFor(t, b) <==>
      OneByteText(t, b) || TwoByteText(t, b) || (FullHead(t, b) && StandsFor(t[4..], b[3..]))
  {
    hide MayStand, Base64Value, Sextets;
    if b != [] {
      HeadStands(t, b);
      if |b| < 3 {
        assert StandsFor(t, b) <==> |t| == 4 && HeadMayStand(t, b);
      } else {
        forall k | 0 <= k < |t[4..]| ensures MayStand(b[3..], k, t[4..][k]) <==> MayStand(b, k + 4, t[k + 4]) {
          LaterStands(b, k, t[k + 4]);
        }
        if StandsFor(t, b) {
          forall k | 0 <= k < |t[4..]| ensures MayStand(b[3..], k, t[4..][k]) { assert MayStand(b, k + 4, t[k + 4]); }
        }
        if FullHead(t, b) && StandsFor(t[4..], b[3..]) {
          forall k | 0 <= k < |t| ensures MayStand(b, k, t[k]) {
            if k >= 4 { assert MayStand(b[3..], k - 4, t[4..][k - 4]); }
          }
        }
      }
    }
  }

  /** Texts without line breaks decode to `b` exactly if every character may stand where it does. */
  lemma {:induction false} DecodesExactly(t: string, b: seq<Byte>)
    ensures DecodeQuads(t) == Some(b) <==> StandsFor(t, b)
    decreases |t|
  {
    hide MayStand, OneByteText, TwoByteText, FullHead;
    if |t| >= 4 {
      hide StandsFor, DecodeQuads;
      DecodeStep(t, b);
      StandsStep(t, b);
      if |b| >= 3 { DecodesExactly(t[4..], b[3..]); }
    } else if t == "" && b != [] {
      assert (|b| + 2) / 3 > 0;
    }
  }

  lemma {:induction false} DropAppend(a: string, b: string)
    ensures DropNewlines(a + b) == DropNewlines(a) + DropNewlines(b)
    decreases |a|
  {
    if a == "" {
      assert a + b == b;
    } else {
      assert (a + b)[1..] == a[1..] + b;
      DropAppend(a[1..], b);
    }
  }

  /** Line breaks anywhere make no difference to the decoder. */
  lemma LineBreaksSkipped(a: string, c: char, b: string)
    requires c == '\n' || c == '\r'
    ensures DecodeBase64(a + [c] + b) == DecodeBase64(a + b)
  {
    DropAppend(a + [c], b);
    DropAppend(a, [c]);
    DropAppend(a, b);
    assert DropNewlines([c]) == "";
    assert DropNewlines(a) + "" == DropNewlines(a);
  }

  /** And a text without any decodes to `b` exactly if every character may stand where it does. */
  lemma Base64DecodesExactly(t: string, b: seq<Byte>)
    requires '\n' !in t && '\r' !in t
    ensures DecodeBase64(t) == Some(b) <==> StandsFor(t, b)
  {
    NothingDropped(t);
    DecodesExactly(t, b);
  }
}
