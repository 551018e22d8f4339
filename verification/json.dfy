/**
 * The part of Python's `json.dumps` that `src/rag.py` relies on: encoding a
 * string as a JSON string literal with the default `ensure_ascii=True`
 * (RFC 8259, section 7). Every character outside the printable ASCII range
 * becomes a `\uXXXX` escape with lower-case hex digits, characters above
 * U+FFFF become a UTF-16 surrogate pair, and `"`, `\`, backspace, form feed,
 * newline, carriage return and tab get their two-character escapes.
 * `Unescape` is the matching decoder, as a JSON parser reads the literal back.
 */
module Json {
  import opened Wrappers

  predicate IsPrintableAscii(c: char)
  {
    ' ' <= c <= '~'
  }

  function HexDigit(d: nat): (c: char)
    requires d < 16
  {
    if d < 10 then ('0' as int + d) as char else ('a' as int + d - 10) as char
  }

  /** The value of a hex digit of either case, as a JSON parser accepts it. */
  function HexValue(c: char): (value: Option<nat>)
  {
    if '0' <= c <= '9' then Some(c as int - '0' as int)
    else if 'a' <= c <= 'f' then Some(c as int - 'a' as int + 10)
    else if 'A' <= c <= 'F' then Some(c as int - 'A' as int + 10)
    else None
  }

  /** Python's `'{0:04x}'.format(n)`. */
  function Hex4(n: nat): (h: string)
    requires n < 0x10000
  {
    [HexDigit(n / 0x1000), HexDigit(n / 0x100 % 0x10), HexDigit(n / 0x10 % 0x10), HexDigit(n % 0x10)]
  }

  function ParseHex4(h: string): (value: Option<nat>)
    requires |h| == 4
  {
    var a, b, c, d := HexValue(h[0]), HexValue(h[1]), HexValue(h[2]), HexValue(h[3]);
    if a.Some? && b.Some? && c.Some? && d.Some? then
      Some(a.value * 0x1000 + b.value * 0x100 + c.value * 0x10 + d.value)
    else None
  }

  lemma HexDigitRoundTrip(d: nat)
    requires d < 16
    ensures HexValue(HexDigit(d)) == Some(d)
  {
  }

  lemma Hex4Digits(n: nat)
    requires n < 0x10000
    ensures n == n / 0x1000 * 0x1000 + n / 0x100 % 0x10 * 0x100 + n / 0x10 % 0x10 * 0x10 + n % 0x10
  {
    var a, r1 := n / 0x1000, n % 0x1000;
    assert n == a * 0x1000 + r1;
    var b, r2 := r1 / 0x100, r1 % 0x100;
    assert r1 == b * 0x100 + r2;
    assert n / 0x100 == a * 0x10 + b;
    assert n / 0x100 % 0x10 == b;
    var c, d := r2 / 0x10, r2 % 0x10;
    assert r2 == c * 0x10 + d;
    assert n / 0x10 == a * 0x100 + b * 0x10 + c;
    assert n / 0x10 % 0x10 == c;
    assert n % 0x10 == d;
  }

  lemma Hex4RoundTrip(n: nat)
    requires n < 0x10000
    ensures ParseHex4(Hex4(n)) == Some(n)
  {
    var h := Hex4(n);
    HexDigitRoundTrip(n / 0x1000);
    HexDigitRoundTrip(n / 0x100 % 0x10);
    HexDigitRoundTrip(n / 0x10 % 0x10);
    HexDigitRoundTrip(n % 0x10);
    Hex4Digits(n);
  }

  function UnicodeEscape(n: nat): (escape: string)
    requires n < 0x10000
  {
    "\\u" + Hex4(n)
  }

  /** How `json.dumps` writes one character inside a string literal. */
  function EscapeChar(c: char): (escape: string)
  {
    if c == '"' then "\\\""
    else if c == '\\' then "\\\\"
    else if c == '\n' then "\\n"
    else if c == '\r' then "\\r"
    else if c == '\t' then "\\t"
    else if c == 8 as char then "\\b"
    else if c == 12 as char then "\\f"
    else if IsPrintableAscii(c) then [c]
    else if c as int < 0x10000 then UnicodeEscape(c as int)
    else
      var m := c as int - 0x10000;
      UnicodeEscape(0xD800 + m / 0x400) + UnicodeEscape(0xDC00 + m % 0x400)
  }

  /** The body of the JSON string literal for `s`, without the surrounding quotes. */
  function Escape(s: string): (e: string)
    ensures forall k :: 0 <= k < |e| ==> IsPrintableAscii(e[k])
  {
    if s == [] then [] else EscapeChar(s[0]) + Escape(s[1..])
  }

  function Prepend(c: char, rest: Option<string>): (s: Option<string>)
  {
    match rest
    case Some(r) => Some([c] + r)
    case None => None
  }

  /** Decodes the body of a JSON string literal; `None` when it is malformed. */
  function Unescape(e: string): (s: Option<string>)
    decreases |e|
  {
    if e == [] then Some([])
    else if e[0] != '\\' then
      if e[0] == '"' || e[0] < ' ' then None else Prepend(e[0], Unescape(e[1..]))
    else if |e| < 2 then None
    else if e[1] == '"' then Prepend('"', Unescape(e[2..]))
    else if e[1] == '\\' then Prepend('\\', Unescape(e[2..]))
    else if e[1] == '/' then Prepend('/', Unescape(e[2..]))
    else if e[1] == 'b' then Prepend(8 as char, Unescape(e[2..]))
    else if e[1] == 'f' then Prepend(12 as char, Unescape(e[2..]))
    else if e[1] == 'n' then Prepend('\n', Unescape(e[2..]))
    else if e[1] == 'r' then Prepend('\r', Unescape(e[2..]))
    else if e[1] == 't' then Prepend('\t', Unescape(e[2..]))
    else if e[1] != 'u' || |e| < 6 then None
    else
      match ParseHex4(e[2..6])
      case None => None
      case Some(v) =>
        if v < 0xD800 || 0xE000 <= v then Prepend(v as char, Unescape(e[6..]))
        else if 0xDC00 <= v || |e| < 12 || e[6..8] != "\\u" then None
        else
          match ParseHex4(e[8..12])
          case Some(w) =>
            if 0xDC00 <= w < 0xE000 then
              Prepend((0x10000 + (v - 0xD800) * 0x400 + (w - 0xDC00)) as char, Unescape(e[12..]))
            else None
          case None => None
  }

  lemma UnescapeShortEscape(c: char, t: string)
    requires c == '"' || c == '\\' || c == '\n' || c == '\r' || c == '\t' || c == 8 as char || c == 12 as char
    ensures Unescape(EscapeChar(c) + t) == Prepend(c, Unescape(t))
  {
    var e := EscapeChar(c) + t;
    assert e[0] == '\\' && |e| >= 2;
    assert e[2..] == t;
  }

  lemma UnescapeVerbatim(c: char, t: string)
    requires IsPrintableAscii(c) && c != '"' && c != '\\'
    ensures Unescape(EscapeChar(c) + t) == Prepend(c, Unescape(t))
  {
    var e := EscapeChar(c) + t;
    assert e[1..] == t;
  }

  lemma UnescapeBasic(c: char, t: string)
    requires !IsPrintableAscii(c) && c != '\n' && c != '\r' && c != '\t' && c != 8 as char && c != 12 as char
    requires c as int < 0x10000
    ensures Unescape(EscapeChar(c) + t) == Prepend(c, Unescape(t))
  {
    var e := EscapeChar(c) + t;
    assert e == "\\u" + Hex4(c as int) + t;
    Hex4RoundTrip(c as int);
    assert e[2..6] == Hex4(c as int);
    assert e[6..] == t;
  }

  lemma UnescapeSurrogatePair(c: char, t: string)
    requires 0x10000 <= c as int
    ensures Unescape(EscapeChar(c) + t) == Prepend(c, Unescape(t))
  {
    var m := c as int - 0x10000;
    var hi, lo := 0xD800 + m / 0x400, 0xDC00 + m % 0x400;
    var e := EscapeChar(c) + t;
    assert e == "\\u" + Hex4(hi) + "\\u" + Hex4(lo) + t;
    Hex4RoundTrip(hi);
    Hex4RoundTrip(lo);
    assert e[2..6] == Hex4(hi);
    assert e[6..8] == "\\u";
    assert e[8..12] == Hex4(lo);
    assert e[12..] == t;
    assert 0x10000 + (hi - 0xD800) * 0x400 + (lo - 0xDC00) == c as int;
  }

  lemma UnescapeChar(c: char, t: string)
    ensures Unescape(EscapeChar(c) + t) == Prepend(c, Unescape(t))
  {
    if c == '"' || c == '\\' || c == '\n' || c == '\r' || c == '\t' || c == 8 as char || c == 12 as char {
      UnescapeShortEscape(c, t);
    } else if IsPrintableAscii(c) {
      UnescapeVerbatim(c, t);
    } else if c as int < 0x10000 {
      UnescapeBasic(c, t);
    } else {
      UnescapeSurrogatePair(c, t);
    }
  }

  /** Decoding the encoded literal gives back the original string. */
  lemma {:induction false} UnescapeEscape(s: string)
    ensures Unescape(Escape(s)) == Some(s)
  {
    if s != [] {
      UnescapeEscape(s[1..]);
      UnescapeChar(s[0], Escape(s[1..]));
      assert [s[0]] + s[1..] == s;
    }
  }

  /** `json.dumps({"data": content})`, with the default `", "` and `": "` separators. */
  function DataObject(content: string): (json: string)
  {
    "{\"data\": \"" + Escape(content) + "\"}"
  }
}
