/** Go string literals: the two printers of the generator, and an evaluator that undoes them. */
module GoLiteral {
  import opened Descriptors

  // ----- evaluating a Go expression built from string literals and `+` -----

  const NUL: char := '\U{0}'
  const BOM: char := '\U{FEFF}'
  const DEL: char := '\U{7F}'

  /** Go source may hold neither a NUL nor, past its start, a byte order mark. */
  predicate LegalSource(s: string) { NUL !in s && BOM !in s }

  /** The text up to the next back quote, carriage returns dropped, and what follows the quote. */
  function ReadRaw(s: string): Option<(string, string)> {
    if s == "" then None
    else if s[0] == '`' then Some(("", s[1..]))
    else
      var r := ReadRaw(s[1..]);
      if r.None? then None else Some((if s[0] == '\r' then r.value.0 else [s[0]] + r.value.0, r.value.1))
  }

  function HexValue(c: char): Option<nat> {
    if '0' <= c <= '9' then Some(c as int - 48)
    else if 'a' <= c <= 'f' then Some(c as int - 87)
    else if 'A' <= c <= 'F' then Some(c as int - 55)
    else None
  }

  /** One escape after its backslash. Octal and Unicode escapes, and bytes past ASCII, have no
      place in what the generator prints and are refused. */
  function ReadEscape(s: string): Option<(char, string)> {
    if s == "" then None
    else
      match s[0]
      case '\\' => Some(('\\', s[1..]))
      case '"' => Some(('"', s[1..]))
      case 'n' => Some(('\n', s[1..]))
      case 'r' => Some(('\r', s[1..]))
      case 't' => Some(('\t', s[1..]))
      case 'a' => Some(('\U{7}', s[1..]))
      case 'b' => Some(('\U{8}', s[1..]))
      case 'f' => Some(('\U{C}', s[1..]))
      case 'v' => Some(('\U{B}', s[1..]))
      case 'x' =>
        if |s| < 3 || HexValue(s[1]).None? || HexValue(s[2]).None? || HexValue(s[1]).value >= 8 then None
        else Some(((HexValue(s[1]).value * 16 + HexValue(s[2]).value) as char, s[3..]))
      case _ => None
  }

  /** The text up to the next double quote, escapes replaced, and what follows the quote. */
  function ReadInterpreted(s: string): (r: Option<(string, string)>)
    decreases |s|
  {
    if s == "" || s[0] == '\n' then None
    else if s[0] == '"' then Some(("", s[1..]))
    else if s[0] == '\\' then
      var e := ReadEscape(s[1..]);
      if e.None? then None
      else
        var r := ReadInterpreted(e.value.1);
        if r.None? then None else Some(([e.value.0] + r.value.0, r.value.1))
    else
      var r := ReadInterpreted(s[1..]);
      if r.None? then None else Some(([s[0]] + r.value.0, r.value.1))
  }

  function ReadLiteral(s: string): Option<(string, string)> {
    if s == "" then None
    else if s[0] == '`' then ReadRaw(s[1..])
    else if s[0] == '"' then ReadInterpreted(s[1..])
    else None
  }

  function SkipBlanks(s: string): (r: string)
    ensures |r| <= |s|
  {
    if s != "" && s[0] == ' ' then SkipBlanks(s[1..]) else s
  }

  lemma {:induction false} RawShrinks(s: string)
    ensures ReadRaw(s).Some? ==> |ReadRaw(s).value.1| < |s|
    decreases |s|
  {
    if s != "" { RawShrinks(s[1..]); }
  }

  lemma {:induction false} InterpretedShrinks(s: string)
    ensures ReadInterpreted(s).Some? ==> |ReadInterpreted(s).value.1| < |s|
    decreases |s|
  {
    if s != "" && s[0] != '\n' && s[0] != '"' {
      if s[0] == '\\' {
        var e := ReadEscape(s[1..]);
        if e.Some? { InterpretedShrinks(e.value.1); }
      } else {
        InterpretedShrinks(s[1..]);
      }
    }
  }

  /** A sum of literals. */
  function EvalSum(s: string): Option<string>
    decreases |s|
  {
    var first := ReadLiteral(SkipBlanks(s));
    if first.None? then None
    else
      assert |first.value.1| < |s| by {
        RawShrinks(SkipBlanks(s)[1..]);
        InterpretedShrinks(SkipBlanks(s)[1..]);
      }
      var rest := SkipBlanks(first.value.1);
      if rest == "" then Some(first.value.0)
      else if rest[0] != '+' then None
      else
        var tail := EvalSum(rest[1..]);
        if tail.None? then None else Some(first.value.0 + tail.value)
  }

  /** What the Go compiler makes of the expression. */
  function Eval(src: string): Option<string> {
    if LegalSource(src) then EvalSum(src) else None
  }

  // ----- pieces -----

  /** What safeRawString emits: a raw literal without back quotes, or quoted back quotes. */
  datatype Piece = RawPiece(text: string) | Ticks(n: nat)

  function Repeat(c: char, n: nat): string { seq(n, _ => c) }

  function PieceSource(p: Piece): string {
    match p
    case RawPiece(text) => "`" + text + "`"
    case Ticks(n) => "\"" + Repeat('`', n) + "\""
  }

  /** The part of the original text a piece stands for. */
  function PieceText(p: Piece): string {
    match p
    case RawPiece(text) => text
    case Ticks(n) => Repeat('`', n)
  }

  predicate GoodPiece(p: Piece) { p.RawPiece? ==> '`' !in p.text }

  function Join(ps: seq<Piece>): string {
    if ps == [] then ""
    else if |ps| == 1 then PieceSource(ps[0])
    else Join(ps[..|ps| - 1]) + " + " + PieceSource(ps[|ps| - 1])
  }

  function Texts(ps: seq<Piece>): string {
    if ps == [] then "" else Texts(ps[..|ps| - 1]) + PieceText(ps[|ps| - 1])
  }

  /** Carriage returns do not survive in a raw literal. */
  function DropCR(s: string): string {
    if s == "" then "" else (if s[0] == '\r' then "" else [s[0]]) + DropCR(s[1..])
  }

  lemma {:induction false} DropCRAppend(a: string, b: string)
    ensures DropCR(a + b) == DropCR(a) + DropCR(b)
    decreases |a|
  {
    if a == "" {
      assert a + b == b;
    } else {
      assert (a + b)[1..] == a[1..] + b;
      DropCRAppend(a[1..], b);
    }
  }

  lemma {:induction false} DropCRLength(s: string)
    ensures |DropCR(s)| <= |s|
    ensures DropCR(s) == s <==> '\r' !in s
    decreases |s|
  {
    if s != "" { DropCRLength(s[1..]); }
  }

  /** Which texts Go accepts at all, and what it drops from raw ones. */
  lemma GoSource(s: string, c: char)
    ensures LegalSource(s) <==> forall k :: 0 <= k < |s| ==> s[k] as int != 0 && s[k] as int != 0xFEFF
    ensures DropCR("") == "" && DropCR([c] + s) == (if c as int == 13 then "" else [c]) + DropCR(s)
  {
    assert ([c] + s)[1..] == s;
  }

  lemma {:induction false} RawReads(text: string, rest: string)
    requires '`' !in text
    ensures ReadRaw(text + "`" + rest) == Some((DropCR(text), rest))
    decreases |text|
  {
    var s := text + "`" + rest;
    if text == "" {
      assert s == "`" + rest;
    } else {
      assert s[1..] == text[1..] + "`" + rest;
      RawReads(text[1..], rest);
      assert "" + DropCR(text[1..]) == DropCR(text[1..]);
    }
  }

  lemma {:induction false} TicksRead(n: nat, rest: string)
    ensures ReadInterpreted(Repeat('`', n) + "\"" + rest) == Some((Repeat('`', n), rest))
    decreases n
  {
    var s := Repeat('`', n) + "\"" + rest;
    if n == 0 {
      assert s == "\"" + rest;
    } else {
      assert s[1..] == Repeat('`', n - 1) + "\"" + rest;
      TicksRead(n - 1, rest);
      assert ['`'] + Repeat('`', n - 1) == Repeat('`', n);
    }
  }

  lemma {:induction false} TicksHaveNoCR(n: nat)
    ensures DropCR(Repeat('`', n)) == Repeat('`', n)
  {
    DropCRLength(Repeat('`', n));
  }

  lemma PieceReads(p: Piece, rest: string)
    requires GoodPiece(p)
    ensures ReadLiteral(PieceSource(p) + rest) == Some((DropCR(PieceText(p)), rest))
  {
    var s := PieceSource(p) + rest;
    match p
    case RawPiece(text) =>
      assert s[1..] == text + "`" + rest;
      RawReads(text, rest);
    case Ticks(n) =>
      assert s[1..] == Repeat('`', n) + "\"" + rest;
      TicksRead(n, rest);
      TicksHaveNoCR(n);
  }

  /** What follows a piece: nothing, or a plus and an expression with a value. */
  ghost predicate TailIs(rest: string, v: string) {
    (rest == "" && v == "") ||
    (exists tail :: rest == " + " + tail && EvalSum(tail) == Some(v))
  }

  lemma PieceThenTail(p: Piece, rest: string, v: string)
    requires GoodPiece(p) && TailIs(rest, v)
    ensures EvalSum(PieceSource(p) + rest) == Some(DropCR(PieceText(p)) + v)
  {
    var s := PieceSource(p) + rest;
    assert SkipBlanks(s) == s;
    PieceReads(p, rest);
    if rest == "" {
      assert DropCR(PieceText(p)) + v == DropCR(PieceText(p));
    } else {
      var tail :| rest == " + " + tail && EvalSum(tail) == Some(v);
      PlusSkips(tail);
      BlankBeforeSum(tail);
    }
  }

  lemma PlusSkips(tail: string)
    ensures SkipBlanks(" + " + tail) == "+ " + tail && ("+ " + tail)[1..] == " " + tail
  {
    assert (" + " + tail)[1..] == "+ " + tail;
  }

  lemma BlankBeforeSum(tail: string)
    ensures EvalSum(" " + tail) == EvalSum(tail)
  {
    assert (" " + tail)[1..] == tail;
  }

  lemma Reassociated(a: string, b: string, c: string, d: string)
    ensures a + b + c + d == a + (b + (c + d))
    ensures b == "" ==> a + c + d == a + (c + d)
  {
  }

  lemma LastPiece(ps: seq<Piece>)
    requires ps != []
    ensures var n := |ps| - 1;
      && Texts(ps) == Texts(ps[..n]) + PieceText(ps[n])
      && Join(ps) == if n == 0 then PieceSource(ps[n]) else Join(ps[..n]) + " + " + PieceSource(ps[n])
    ensures |ps| == 1 ==> Texts(ps) == PieceText(ps[0])
  {
    if |ps| == 1 { assert Texts(ps) == "" + PieceText(ps[0]) == PieceText(ps[0]); }
  }

  lemma {:induction false} JoinEvaluates(ps: seq<Piece>, rest: string, v: string)
    requires ps != [] && (forall p :: p in ps ==> GoodPiece(p)) && TailIs(rest, v)
    ensures EvalSum(Join(ps) + rest) == Some(DropCR(Texts(ps)) + v)
    decreases |ps|
  {
    hide EvalSum, PieceSource, PieceText, Join, Texts, DropCR;
    var n := |ps| - 1;
    var last := ps[n];
    LastPiece(ps);
    DropCRAppend(Texts(ps[..n]), PieceText(last));
    PieceThenTail(last, rest, v);
    if n > 0 {
      Reassociated(Join(ps[..n]), " + ", PieceSource(last), rest);
      JoinEvaluates(ps[..n], " + " + (PieceSource(last) + rest), DropCR(PieceText(last)) + v);
      Reassociated(DropCR(Texts(ps[..n])), "", DropCR(PieceText(last)), v);
    }
  }

  lemma {:induction false} JoinLegal(ps: seq<Piece>)
    ensures LegalSource(Join(ps)) <==> LegalSource(Texts(ps))
    decreases |ps|
  {
    if ps != [] {
      var n := |ps| - 1;
      JoinLegal(ps[..n]);
      PieceLegal(ps[n]);
    }
  }

  lemma PieceLegal(p: Piece)
    ensures LegalSource(PieceSource(p)) <==> LegalSource(PieceText(p))
  {
  }

  /** The value of a printed text: itself without carriage returns, when Go accepts it at all. */
  lemma PiecesEvaluate(ps: seq<Piece>)
    requires ps != [] && forall p :: p in ps ==> GoodPiece(p)
    ensures Eval(Join(ps)) == if LegalSource(Texts(ps)) then Some(DropCR(Texts(ps))) else None
  {
    JoinLegal(ps);
    JoinEvaluates(ps, "", "");
    assert Join(ps) + "" == Join(ps);
    assert DropCR(Texts(ps)) + "" == DropCR(Texts(ps));
  }

  // ----- safeRawString -----

  /** Quote `s` as a Go expression. Its value is `s` exactly when `s` has no carriage return, NUL
      or byte order mark; whatever the pattern of back quotes. */
  method SafeRawString(s: string) returns (r: string)
    ensures Eval(r) == if LegalSource(s) then Some(DropCR(s)) else None
    ensures Eval(r) == Some(s) <==> LegalSource(s) && '\r' !in s
  {
    DropCRLength(s);
    if s == "" {
      PiecesEvaluate([RawPiece("")]);
      return "``";
    }
    if '`' !in s {
      PiecesEvaluate([RawPiece(s)]);
      assert Texts([RawPiece(s)]) == s;
      return "`" + s + "`";
    }
    r := StitchTicks(s);
  }

  lemma EmptyJoin()
    ensures Join([]) == "" && Texts([]) == ""
  {
  }

  /** Stretches without back quotes become raw literals, runs of back quotes quoted ones. */
  method StitchTicks(s: string) returns (b: string)
    requires s != ""
    ensures Eval(b) == if LegalSource(s) then Some(DropCR(s)) else None
  {
    hide Join, Texts, PieceSource, Eval, DropCR;
    EmptyJoin();
    b := "";
    ghost var ps: seq<Piece> := [];
    var i, n := 0, |s|;
    while i < n
      invariant 0 <= i <= n
      invariant b == Join(ps) && Texts(ps) == s[..i] && (i > 0 ==> ps != [])
      invariant forall p :: p in ps ==> GoodPiece(p)
    {
      var j := Run(s, i, false);
      if j > i {
        b := Emit(b, ps, RawPiece(s[i..j]));
        ps := ps + [RawPiece(s[i..j])];
        Extend(s, i, j);
        i := j;
      }
      j := Run(s, i, true);
      if j > i {
        assert s[i..j] == Repeat('`', j - i);
        b := Emit(b, ps, Ticks(j - i));
        ps := ps + [Ticks(j - i)];
        Extend(s, i, j);
        i := j;
      }
    }
    assert s[..n] == s;
    PiecesEvaluate(ps);
  }

  lemma Extend(s: string, i: nat, j: nat)
    requires i <= j <= |s|
    ensures s[..i] + s[i..j] == s[..j]
  {
  }

  /** The end of the run of back quotes, or of other characters, at `i`. */
  method Run(s: string, i: nat, ticks: bool) returns (j: nat)
    requires i <= |s|
    ensures i <= j <= |s| && forall k :: i <= k < j ==> (s[k] == '`') == ticks
    ensures j < |s| ==> (s[j] == '`') != ticks
  {
    j := i;
    while j < |s| && (s[j] == '`') == ticks
      invariant i <= j <= |s| && forall k :: i <= k < j ==> (s[k] == '`') == ticks
    {
      j := j + 1;
    }
  }

  /** Append a piece, with a plus before all but the first. */
  method Emit(b: string, ghost ps: seq<Piece>, p: Piece) returns (r: string)
    requires b == Join(ps)
    ensures r == Join(ps + [p]) && Texts(ps + [p]) == Texts(ps) + PieceText(p)
  {
    assert (ps + [p])[..|ps|] == ps;
    if ps != [] { JoinNotEmpty(ps); }
    r := if b == "" then PieceSource(p) else b + " + " + PieceSource(p);
  }

  lemma {:induction false} JoinNotEmpty(ps: seq<Piece>)
    requires ps != []
    ensures Join(ps) != ""
  {
  }

  // ----- goStringLiteral -----

  function HexDigit(d: nat): char
    requires d < 16
  {
    if d < 10 then (d + 48) as char else (d + 87) as char
  }

  /** How one character is written in an interpreted literal. */
  function EscapeChar(c: char): string {
    match c
    case '\\' => "\\\\"
    case '"' => "\\\""
    case '\n' => "\\n"
    case '\r' => "\\r"
    case '\t' => "\\t"
    case _ =>
      if c < ' ' || c == DEL then "\\x" + [HexDigit(c as int / 16), HexDigit(c as int % 16)] else [c]
  }

  const HEX := "0123456789abcdef"

  lemma HexIs(d: nat)
    requires d < 16
    ensures |HEX| == 16 && HexDigit(d) == HEX[d]
  {
  }

  /** What is written for a character: a backslash before a backslash and a quote; the letters n, r and
      t; two lower-case hexadecimal digits for any other control character; else itself. */
  lemma EscapesAre(c: char)
    ensures |HEX| == 16
    ensures EscapeChar(c) ==
      if c == '\\' || c == '"' then ['\\', c]
      else if c as int == 10 then "\\n"
      else if c as int == 13 then "\\r"
      else if c as int == 9 then "\\t"
      else if c as int < 32 || c as int == 127 then "\\x" + [HEX[c as int / 16 % 16], HEX[c as int % 16]]
      else [c]
  {
    HexIs(c as int % 16);
    HexIs(c as int / 16 % 16);
  }

  /** The evaluator's escapes are Go's. */
  lemma GoEscapes(rest: string)
    ensures ReadEscape("n" + rest) == Some((10 as char, rest)) && ReadEscape("t" + rest) == Some((9 as char, rest))
    ensures ReadEscape("r" + rest) == Some((13 as char, rest)) && ReadEscape("a" + rest) == Some((7 as char, rest))
    ensures ReadEscape("b" + rest) == Some((8 as char, rest)) && ReadEscape("f" + rest) == Some((12 as char, rest))
    ensures ReadEscape("v" + rest) == Some((11 as char, rest)) && ReadEscape("x7f" + rest) == Some((127 as char, rest))
  {
    assert ("n" + rest)[1..] == rest && ("t" + rest)[1..] == rest && ("r" + rest)[1..] == rest;
    assert ("a" + rest)[1..] == rest && ("b" + rest)[1..] == rest && ("f" + rest)[1..] == rest;
    assert ("v" + rest)[1..] == rest && ("x7f" + rest)[3..] == rest;
  }

  function Escape(s: string): string {
    if s == "" then "" else Escape(s[..|s| - 1]) + EscapeChar(s[|s| - 1])
  }

  /** The result of reading on after `s` was read. */
  function Prepend(s: string, r: Option<(string, string)>): Option<(string, string)> {
    if r.None? then None else Some((s + r.value.0, r.value.1))
  }

  lemma PrependTwice(a: string, b: string, r: Option<(string, string)>)
    ensures Prepend(a, Prepend(b, r)) == Prepend(a + b, r)
  {
    if r.Some? { assert a + (b + r.value.0) == a + b + r.value.0; }
  }

  lemma HexReads(c: char, rest: string)
    requires c < ' ' || c == DEL
    ensures ReadEscape(['x', HexDigit(c as int / 16), HexDigit(c as int % 16)] + rest) == Some((c, rest))
  {
    var hi, lo := c as int / 16, c as int % 16;
    assert hi * 16 + lo == c as int && hi < 8;
    var s := ['x', HexDigit(hi), HexDigit(lo)] + rest;
    assert s[3..] == rest;
  }

  lemma EscapedCharReads(c: char, rest: string)
    ensures ReadInterpreted(EscapeChar(c) + rest) == Prepend([c], ReadInterpreted(rest))
  {
    var e := EscapeChar(c);
    var s := e + rest;
    if e == [c] {
      assert s[1..] == rest;
    } else if |e| == 2 {
      assert s[1..] == [e[1]] + rest;
      assert s[1..][1..] == rest;
    } else {
      assert s[1..] == ['x', HexDigit(c as int / 16), HexDigit(c as int % 16)] + rest;
      HexReads(c, rest);
    }
  }

  lemma {:induction false} EscapedReads(s: string, rest: string)
    ensures ReadInterpreted(Escape(s) + rest) == Prepend(s, ReadInterpreted(rest))
    decreases |s|
  {
    hide ReadInterpreted, EscapeChar;
    if s == "" {
      assert Escape(s) + rest == rest;
      if ReadInterpreted(rest).Some? { assert s + ReadInterpreted(rest).value.0 == ReadInterpreted(rest).value.0; }
    } else {
      var init, last := s[..|s| - 1], s[|s| - 1];
      assert Escape(s) + rest == Escape(init) + (EscapeChar(last) + rest);
      EscapedReads(init, EscapeChar(last) + rest);
      EscapedCharReads(last, rest);
      PrependTwice(init, [last], ReadInterpreted(rest));
      assert init + [last] == s;
    }
  }

  lemma {:induction false} EscapeLegal(s: string)
    ensures LegalSource(Escape(s)) <==> BOM !in s
    decreases |s|
  {
    if s != "" {
      EscapeLegal(s[..|s| - 1]);
      CharLegal(s[|s| - 1]);
      assert s == s[..|s| - 1] + [s[|s| - 1]];
    }
  }

  lemma CharLegal(c: char)
    ensures LegalSource(EscapeChar(c)) <==> c != BOM
  {
  }

  lemma LiteralReads(s: string)
    ensures EvalSum("\"" + Escape(s) + "\"") == Some(s)
  {
    var src := "\"" + Escape(s) + "\"";
    assert src[1..] == Escape(s) + "\"";
    EscapedReads(s, "\"");
    assert "\""[1..] == "";
    assert ReadInterpreted("\"") == Some(("", ""));
    assert s + "" == s;
    assert SkipBlanks(src) == src;
    assert SkipBlanks("") == "";
  }

  lemma LiteralEvaluates(s: string)
    ensures Eval("\"" + Escape(s) + "\"") == if BOM in s then None else Some(s)
  {
    EscapeLegal(s);
    LiteralReads(s);
    assert LegalSource("\"" + Escape(s) + "\"") <==> LegalSource(Escape(s));
  }

  lemma NothingEscaped()
    ensures Escape("") == ""
  {
  }

  lemma EscapeAppends(s: string, i: nat)
    requires i < |s|
    ensures Escape(s[..i + 1]) == Escape(s[..i]) + EscapeChar(s[i])
  {
    assert s[..i + 1][..i] == s[..i];
  }

  /** The switch of the quoting loop. */
  method WriteEscaped(b: string, c: char) returns (r: string)
    ensures r == b + EscapeChar(c)
  {
    match c
    case '\\' => r := b + "\\\\";
    case '"' => r := b + "\\\"";
    case '\n' => r := b + "\\n";
    case '\r' => r := b + "\\r";
    case '\t' => r := b + "\\t";
    case _ =>
      if c < ' ' || c == DEL {
        r := b + ("\\x" + [HexDigit(c as int / 16), HexDigit(c as int % 16)]);
      } else {
        r := b + [c];
      }
  }

  /** Quote `s` as an interpreted literal: its value is `s`, byte order marks excepted. */
  method GoStringLiteral(s: string) returns (r: string)
    ensures r == "\"" + Escape(s) + "\""
    ensures Eval(r) == if BOM in s then None else Some(s)
  {
    hide Escape, EscapeChar;
    r := "\"";
    NothingEscaped();
    for i := 0 to |s|
      invariant r == "\"" + Escape(s[..i])
    {
      EscapeAppends(s, i);
      r := WriteEscaped(r, s[i]);
    }
    assert s[..|s|] == s;
    r := r + "\"";
    LiteralEvaluates(s);
  }
}
