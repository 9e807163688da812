/** Double-quoted values: `processQuotedValue`, the double-quote form of
    `strconv.Unquote` it delegates to, and `strconv.Quote` as its partner (the
    integer parsers also quote the offending text in their messages).
    A Go string here is a sequence of Unicode scalar values. */
module Quoting {
  import opened Wrappers
  import opened Text
  import opened ConfigErrors

  /** `strconv.ErrSyntax`. */
  const SyntaxError: Error := Plain("invalid syntax")

  predicate IsOctalDigit(c: char)
  {
    '0' <= c <= '7'
  }

  /** The value of a hexadecimal digit, upper or lower case. */
  function HexDigitValue(c: char): (r: Option<nat>)
    ensures r.Some? ==> r.value < 16
    ensures r.Some? <==> IsAsciiDigit(c) || ('a' <= c <= 'f') || ('A' <= c <= 'F')
  {
    if IsAsciiDigit(c) then Some(c as int - '0' as int)
    else if 'a' <= c <= 'f' then Some(c as int - 'a' as int + 10)
    else if 'A' <= c <= 'F' then Some(c as int - 'A' as int + 10)
    else None
  }

  /** The number a run of hexadecimal digits denotes, most significant first. */
  function HexValue(s: string): (r: Option<nat>)
    ensures r.Some? ==> r.value < Power16(|s|)
  {
    if |s| == 0 then Some(0)
    else
      match (HexValue(s[..|s| - 1]), HexDigitValue(s[|s| - 1]))
      case (Some(v), Some(d)) => Some(v * 16 + d)
      case _ => None
  }

  function Power16(n: nat): (r: nat)
    ensures r >= 1
  {
    if n == 0 then 1 else 16 * Power16(n - 1)
  }

  /** `utf8.ValidRune`: a Unicode scalar value. */
  predicate IsScalar(v: int)
  {
    (0 <= v < 0xD800) || (0xE000 <= v < 0x11_0000)
  }

  /** `\x`, `\u` and `\U` escapes: exactly `n` hex digits naming a valid rune. */
  function HexEscape(t: string, n: nat): (r: Option<(char, string)>)
    ensures r.Some? ==> n <= |t| && r.value.1 == t[n..]
  {
    if |t| < n then None
    else
      match HexValue(t[..n])
      case None => None
      case Some(v) => if IsScalar(v) then Some((v as char, t[n..])) else None
  }

  /** What `strconv.UnquoteChar` decodes from the text `t` that follows a
      backslash inside a double-quoted literal: the character and the rest. */
  function UnescapeOne(t: string): (r: Option<(char, string)>)
    ensures r.Some? ==> |r.value.1| < |t| && r.value.1 == t[|t| - |r.value.1|..]
  {
    if |t| == 0 then None
    else
      var c := t[0];
      if c == 'a' then Some((7 as char, t[1..]))
      else if c == 'b' then Some((8 as char, t[1..]))
      else if c == 'f' then Some((12 as char, t[1..]))
      else if c == 'n' then Some(('\n', t[1..]))
      else if c == 'r' then Some(('\r', t[1..]))
      else if c == 't' then Some(('\t', t[1..]))
      else if c == 'v' then Some((11 as char, t[1..]))
      else if c == '\\' || c == '"' then Some((c, t[1..]))
      else if c == 'x' then HexEscape(t[1..], 2)
      else if c == 'u' then HexEscape(t[1..], 4)
      else if c == 'U' then HexEscape(t[1..], 8)
      else if IsOctalDigit(c) then
        if |t| >= 3 && IsOctalDigit(t[1]) && IsOctalDigit(t[2]) then
          var v := (c as int - '0' as int) * 64 + (t[1] as int - '0' as int) * 8 + (t[2] as int - '0' as int);
          if v > 255 then None else Some((v as char, t[3..]))
        else None
      else None
  }

  /** `c` in front of a successful result; a failure passes through. */
  function Prepend(c: char, r: Result<string, Error>): Result<string, Error>
  {
    match r
    case Ok(v) => Ok([c] + v)
    case Fail(e) => Fail(e)
  }

  /** The unquoting loop over the text after the opening quote: characters and
      escapes up to the first unescaped `"`, which must be the last character;
      a raw newline is refused. */
  function UnquoteBody(s: string): (r: Result<string, Error>)
    ensures r.Fail? ==> r.error == SyntaxError
    ensures r.Ok? ==> |r.value| < |s|
    decreases |s|
  {
    if |s| == 0 then Fail(SyntaxError)
    else if s[0] == '"' then (if |s| == 1 then Ok([]) else Fail(SyntaxError))
    else if s[0] == '\n' then Fail(SyntaxError)
    else if s[0] == '\\' then
      match UnescapeOne(s[1..])
      case None => Fail(SyntaxError)
      case Some((c, rest)) => Prepend(c, UnquoteBody(rest))
    else Prepend(s[0], UnquoteBody(s[1..]))
  }

  /** `v` is at least two characters and starts and ends with `"`. */
  predicate LooksQuoted(v: string)
  {
    |v| >= 2 && v[0] == '"' && v[|v| - 1] == '"'
  }

  /** `processQuotedValue`: a value wrapped in double quotes at both ends is
      unquoted; any other value, `"abc` or a lone `"` included, is kept. */
  function ProcessQuotedValue(v: string): (r: Result<string, Error>)
    ensures !LooksQuoted(v) ==> r == Ok(v)
    ensures r.Fail? ==> LooksQuoted(v) && r.error == SyntaxError
    ensures LooksQuoted(v) && r.Ok? ==> |r.value| <= |v| - 2
  {
    if LooksQuoted(v) then UnquoteBody(v[1..]) else Ok(v)
  }

  /* ---------- strconv.Quote ---------- */

  function LowerHexChar(d: nat): (c: char)
    requires d < 16
    ensures HexDigitValue(c) == Some(d)
  {
    if d < 10 then ('0' as int + d) as char else ('a' as int + d - 10) as char
  }

  /** How `strconv.Quote` writes one character: `\"`, `\\`, the C escapes for
      control characters that have one, `\xHH` for the other ASCII controls
      and DEL, the character itself otherwise. */
  function EscapeChar(c: char): (r: string)
    ensures |r| >= 1
    ensures r[0] == '\\' || r == [c]
  {
    var n := c as int;
    if c == '"' || c == '\\' then ['\\', c]
    else if n == 7 then "\\a"
    else if n == 8 then "\\b"
    else if n == 12 then "\\f"
    else if c == '\n' then "\\n"
    else if c == '\r' then "\\r"
    else if c == '\t' then "\\t"
    else if n == 11 then "\\v"
    else if n < 0x20 || n == 0x7F then ['\\', 'x', LowerHexChar(n / 16), LowerHexChar(n % 16)]
    else [c]
  }

  function EscapeAll(s: string): string
  {
    if |s| == 0 then [] else EscapeChar(s[0]) + EscapeAll(s[1..])
  }

  /** `strconv.Quote` for text whose non-ASCII characters are printable. */
  function Quote(s: string): (r: string)
    ensures LooksQuoted(r)
  {
    "\"" + EscapeAll(s) + "\""
  }

  /** Each escape `Quote` writes decodes back to its character. */
  lemma UnquoteEscapeChar(c: char, rest: string)
    ensures UnquoteBody(EscapeChar(c) + rest) == Prepend(c, UnquoteBody(rest))
  {
    var n := c as int;
    if c == '"' || c == '\\' {
      ShortEscape(c, c, rest);
    } else if n == 7 {
      ShortEscape(c, 'a', rest);
    } else if n == 8 {
      ShortEscape(c, 'b', rest);
    } else if n == 12 {
      ShortEscape(c, 'f', rest);
    } else if c == '\n' {
      ShortEscape(c, 'n', rest);
    } else if c == '\r' {
      ShortEscape(c, 'r', rest);
    } else if c == '\t' {
      ShortEscape(c, 't', rest);
    } else if n == 11 {
      ShortEscape(c, 'v', rest);
    } else if n < 0x20 || n == 0x7F {
      HexByteEscape(c, rest);
    } else {
      var s := EscapeChar(c) + rest;
      assert EscapeChar(c) == [c];
      assert s[0] == c && s[1..] == rest;
    }
  }

  /** A two-character escape `\k` that decodes to `c`. */
  lemma ShortEscape(c: char, k: char, rest: string)
    requires EscapeChar(c) == ['\\', k]
    requires UnescapeOne([k] + rest) == Some((c, rest))
    ensures UnquoteBody(EscapeChar(c) + rest) == Prepend(c, UnquoteBody(rest))
  {
    var s := EscapeChar(c) + rest;
    assert s[0] == '\\' && s[1..] == [k] + rest;
  }

  /** The `\xHH` form `Quote` uses for the remaining ASCII controls. */
  lemma HexByteEscape(c: char, rest: string)
    requires c as int < 0x20 || c as int == 0x7F
    requires c != '"' && c != '\\' && c != '\n' && c != '\r' && c != '\t'
    requires c as int != 7 && c as int != 8 && c as int != 11 && c as int != 12
    ensures UnquoteBody(EscapeChar(c) + rest) == Prepend(c, UnquoteBody(rest))
  {
    var n := c as int;
    var hi := LowerHexChar(n / 16);
    var lo := LowerHexChar(n % 16);
    assert EscapeChar(c) == ['\\', 'x', hi, lo];
    var s := EscapeChar(c) + rest;
    var t := s[1..];
    assert t == ['x', hi, lo] + rest;
    assert t[1..][..2] == [hi, lo];
    assert t[1..][2..] == rest;
    assert HexValue([hi, lo]) == Some(n) by {
      assert [hi][..0] == [];
      assert HexValue([hi]) == Some(n / 16);
      assert [hi, lo][..1] == [hi];
      assert HexDigitValue(lo) == Some(n % 16);
      assert (n / 16) * 16 + n % 16 == n;
    }
    assert UnescapeOne(t) == Some((c, rest));
  }

  /** Unquoting the escaped text followed by the closing quote gives the text back. */
  lemma {:induction false} UnquoteEscapeAll(s: string)
    ensures UnquoteBody(EscapeAll(s) + "\"") == Ok(s)
  {
    if |s| > 0 {
      UnquoteEscapeAll(s[1..]);
      assert EscapeAll(s) + "\"" == EscapeChar(s[0]) + (EscapeAll(s[1..]) + "\"");
      UnquoteEscapeChar(s[0], EscapeAll(s[1..]) + "\"");
      assert [s[0]] + s[1..] == s;
    } else {
      assert EscapeAll(s) + "\"" == "\"";
    }
  }

  /** `processQuotedValue` undoes `strconv.Quote`. */
  lemma ProcessQuoted(s: string)
    ensures ProcessQuotedValue(Quote(s)) == Ok(s)
  {
    var q := Quote(s);
    assert q[1..] == EscapeAll(s) + "\"";
    UnquoteEscapeAll(s);
  }

  /** Text free of `"`, `\` and control characters comes out of quotes verbatim. */
  lemma {:induction false} PlainTextUnquoted(s: string)
    requires forall i :: 0 <= i < |s| ==> s[i] != '"' && s[i] != '\\' && s[i] as int >= 0x20 && s[i] as int != 0x7F
    ensures ProcessQuotedValue("\"" + s + "\"") == Ok(s)
  {
    EscapePlain(s);
    ProcessQuoted(s);
  }

  lemma {:induction false} EscapePlain(s: string)
    requires forall i :: 0 <= i < |s| ==> s[i] != '"' && s[i] != '\\' && s[i] as int >= 0x20 && s[i] as int != 0x7F
    ensures EscapeAll(s) == s
  {
    if |s| > 0 {
      EscapePlain(s[1..]);
      assert EscapeChar(s[0]) == [s[0]];
    }
  }

  /** An unescaped `"` before the end makes the whole quoted value invalid. */
  lemma {:induction false} InteriorQuoteRejected(a: string, b: string)
    requires forall i :: 0 <= i < |a| ==> a[i] != '"' && a[i] != '\\' && a[i] != '\n'
    requires |b| >= 1 && b[|b| - 1] == '"'
    ensures ProcessQuotedValue("\"" + a + "\"" + b).Fail?
  {
    var v := "\"" + a + "\"" + b;
    assert v[1..] == a + "\"" + b;
    assert v[|v| - 1] == b[|b| - 1];
    BodyWithInteriorQuote(a, b);
  }

  lemma {:induction false} BodyWithInteriorQuote(a: string, b: string)
    requires forall i :: 0 <= i < |a| ==> a[i] != '"' && a[i] != '\\' && a[i] != '\n'
    requires |b| >= 1
    ensures UnquoteBody(a + "\"" + b).Fail?
  {
    var s := a + "\"" + b;
    if |a| == 0 {
      assert s == ['"'] + b;
    } else {
      BodyWithInteriorQuote(a[1..], b);
      assert s[0] == a[0] && s[1..] == a[1..] + "\"" + b;
    }
  }
}
