/** The string primitives the Go code borrows from `strings` and `unicode`:
    first-occurrence cuts (`strings.SplitN(s, sep, 2)`), `strings.Split`,
    `strings.Join`, `strings.TrimSpace`, prefix tests and decimal formatting.
    Strings are sequences of Unicode scalar values. */
module Text {
  import opened Wrappers

  /** Whitespace as `unicode.IsSpace` sees it (used by `strings.TrimSpace`). */
  predicate IsSpace(c: char)
  {
    var n := c as int;
    || n == 0x09 || n == 0x0A || n == 0x0B || n == 0x0C || n == 0x0D || n == 0x20
    || n == 0x85 || n == 0xA0 || n == 0x1680
    || (0x2000 <= n <= 0x200A)
    || n == 0x2028 || n == 0x2029 || n == 0x202F || n == 0x205F || n == 0x3000
  }

  /** Whitespace as the `\s` class of Go's regular expressions sees it. */
  predicate IsRegexSpace(c: char)
  {
    var n := c as int;
    n == 0x09 || n == 0x0A || n == 0x0C || n == 0x0D || n == 0x20
  }

  predicate IsAsciiDigit(c: char)
  {
    '0' <= c <= '9'
  }

  predicate IsAsciiLetter(c: char)
  {
    ('a' <= c <= 'z') || ('A' <= c <= 'Z')
  }

  /** Position of the first `c` in `s`, if any. */
  function IndexOf(s: string, c: char): (r: Option<nat>)
    ensures r.Some? ==> r.value < |s| && s[r.value] == c && c !in s[..r.value]
    ensures r.None? <==> c !in s
  {
    if |s| == 0 then None
    else if s[0] == c then Some(0)
    else
      match IndexOf(s[1..], c)
      case None => None
      case Some(i) =>
        assert s[..i + 1] == [s[0]] + s[1..][..i];
        Some(i + 1)
  }

  /** `strings.SplitN(s, string(c), 2)`: the text before and after the first `c`;
      `None` stands for the one-element result Go returns when `c` is absent. */
  function Cut(s: string, c: char): (r: Option<(string, string)>)
    ensures r.None? <==> c !in s
    ensures r.Some? ==> s == r.value.0 + [c] + r.value.1 && c !in r.value.0
  {
    match IndexOf(s, c)
    case None => None
    case Some(i) =>
      assert s == s[..i] + [c] + s[i + 1..];
      Some((s[..i], s[i + 1..]))
  }

  /** A cut is determined by the text before the first separator. */
  lemma CutOfConcat(a: string, c: char, b: string)
    requires c !in a
    ensures Cut(a + [c] + b, c) == Some((a, b))
  {
    var s := a + [c] + b;
    assert s[|a|] == c;
    assert s[..|a|] == a;
    assert s[|a| + 1..] == b;
  }

  /** `strings.Split(s, string(c))`. */
  function Split(s: string, c: char): (r: seq<string>)
    ensures |r| >= 1
    ensures forall i :: 0 <= i < |r| ==> c !in r[i]
    decreases |s|
  {
    match Cut(s, c)
    case None => [s]
    case Some((a, b)) => [a] + Split(b, c)
  }

  /** `strings.Join(parts, sep)`. */
  function Join(parts: seq<string>, sep: string): string
  {
    if |parts| == 0 then []
    else if |parts| == 1 then parts[0]
    else parts[0] + sep + Join(parts[1..], sep)
  }

  /** Joining the pieces of a split with the separator gives the text back. */
  lemma {:induction false} JoinSplit(s: string, c: char)
    ensures Join(Split(s, c), [c]) == s
    decreases |s|
  {
    match Cut(s, c)
    case None =>
    case Some((a, b)) =>
      JoinSplit(b, c);
      var rest := Split(b, c);
      assert Split(s, c) == [a] + rest;
      assert ([a] + rest)[1..] == rest;
  }

  /** Splitting a join of separator-free pieces gives the pieces back. */
  lemma {:induction false} SplitJoin(parts: seq<string>, c: char)
    requires |parts| >= 1
    requires forall i :: 0 <= i < |parts| ==> c !in parts[i]
    ensures Split(Join(parts, [c]), c) == parts
    decreases |parts|
  {
    if |parts| > 1 {
      SplitJoin(parts[1..], c);
      SplitJoinStep(parts, c);
    }
  }

  lemma SplitJoinStep(parts: seq<string>, c: char)
    requires |parts| > 1 && c !in parts[0]
    requires Split(Join(parts[1..], [c]), c) == parts[1..]
    ensures Split(Join(parts, [c]), c) == parts
  {
    var rest := parts[1..];
    assert Join(parts, [c]) == parts[0] + [c] + Join(rest, [c]);
    CutOfConcat(parts[0], c, Join(rest, [c]));
    assert parts == [parts[0]] + rest;
  }

  /** `s` with its longest prefix of characters satisfying `p` removed. */
  function TrimLeft(s: string, p: char -> bool): (r: string)
    ensures |r| <= |s| && r == s[|s| - |r|..]
    ensures forall i :: 0 <= i < |s| - |r| ==> p(s[i])
    ensures |r| > 0 ==> !p(r[0])
  {
    if |s| > 0 && p(s[0]) then TrimLeft(s[1..], p) else s
  }

  /** `s` with its longest suffix of characters satisfying `p` removed. */
  function TrimRight(s: string, p: char -> bool): (r: string)
    ensures |r| <= |s| && r == s[..|r|]
    ensures forall i :: |r| <= i < |s| ==> p(s[i])
    ensures |r| > 0 ==> !p(r[|r| - 1])
  {
    if |s| > 0 && p(s[|s| - 1]) then TrimRight(s[..|s| - 1], p) else s
  }

  /** Neither end of `s` is whitespace. */
  predicate Trimmed(s: string)
  {
    |s| == 0 || (!IsSpace(s[0]) && !IsSpace(s[|s| - 1]))
  }

  predicate AllSpace(s: string)
  {
    forall i :: 0 <= i < |s| ==> IsSpace(s[i])
  }

  /** `strings.TrimSpace`. */
  function TrimSpace(s: string): (r: string)
    ensures Trimmed(r)
    ensures |r| <= |s|
  {
    TrimRight(TrimLeft(s, IsSpace), IsSpace)
  }

  /** Trimming removes exactly the whitespace padding around a trimmed core. */
  lemma TrimSpaceOfPadded(a: string, m: string, b: string)
    requires AllSpace(a) && AllSpace(b) && Trimmed(m)
    ensures TrimSpace(a + m + b) == m
  {
    var s := a + m + b;
    if |m| == 0 {
      assert s == a + b;
      AllSpaceConcat(a, b);
      TrimLeftAllSpace(s);
    } else {
      assert s == a + (m + b);
      TrimLeftPadded(a, m + b);
      TrimRightPadded(m, b);
    }
  }

  /** A string without whitespace at either end is its own trim. */
  lemma TrimmedFixed(m: string)
    requires Trimmed(m)
    ensures TrimSpace(m) == m
  {
    TrimSpaceOfPadded([], m, []);
    assert [] + m + [] == m;
  }

  lemma AllSpaceConcat(a: string, b: string)
    requires AllSpace(a) && AllSpace(b)
    ensures AllSpace(a + b)
  {
    forall i | 0 <= i < |a + b| ensures IsSpace((a + b)[i]) {
      if i < |a| { assert (a + b)[i] == a[i]; } else { assert (a + b)[i] == b[i - |a|]; }
    }
  }

  lemma {:induction false} TrimLeftAllSpace(s: string)
    requires AllSpace(s)
    ensures TrimLeft(s, IsSpace) == []
  {
    if |s| > 0 {
      assert IsSpace(s[0]);
      TrimLeftAllSpace(s[1..]);
    }
  }

  /** Left trimming stops at the first non-space character after the padding. */
  lemma {:induction false} TrimLeftPadded(a: string, t: string)
    requires AllSpace(a) && |t| > 0 && !IsSpace(t[0])
    ensures TrimLeft(a + t, IsSpace) == t
  {
    if |a| > 0 {
      assert (a + t)[0] == a[0];
      assert (a + t)[1..] == a[1..] + t;
      TrimLeftPadded(a[1..], t);
    } else {
      assert a + t == t;
    }
  }

  /** Left trimming by any class removes exactly a prefix drawn from the class
      when the rest does not start with a member of it. */
  lemma {:induction false} TrimLeftStops(a: string, t: string, p: char -> bool)
    requires forall i :: 0 <= i < |a| ==> p(a[i])
    requires |t| == 0 || !p(t[0])
    ensures TrimLeft(a + t, p) == t
  {
    if |a| > 0 {
      assert (a + t)[0] == a[0];
      assert (a + t)[1..] == a[1..] + t;
      TrimLeftStops(a[1..], t, p);
    } else {
      assert a + t == t;
    }
  }

  /** Right trimming stops at the last non-space character before the padding. */
  lemma {:induction false} TrimRightPadded(t: string, b: string)
    requires AllSpace(b) && |t| > 0 && !IsSpace(t[|t| - 1])
    ensures TrimRight(t + b, IsSpace) == t
  {
    var s := t + b;
    if |b| > 0 {
      assert s[|s| - 1] == b[|b| - 1];
      assert s[..|s| - 1] == t + b[..|b| - 1];
      TrimRightPadded(t, b[..|b| - 1]);
    } else {
      assert s == t;
    }
  }

  /** `strings.HasPrefix`. */
  predicate HasPrefix(s: string, p: string)
  {
    |p| <= |s| && s[..|p|] == p
  }

  /** `strings.TrimPrefix`: drops `p` once if `s` starts with it. */
  function TrimPrefix(s: string, p: string): (r: string)
    ensures HasPrefix(s, p) ==> s == p + r
    ensures !HasPrefix(s, p) ==> r == s
  {
    if HasPrefix(s, p) then
      assert s == s[..|p|] + s[|p|..];
      s[|p|..]
    else s
  }

  /** `strings.TrimRight(s, string(c))`: every trailing `c` removed. */
  function TrimRightChar(s: string, c: char): (r: string)
    ensures |r| <= |s| && r == s[..|r|]
    ensures forall i :: |r| <= i < |s| ==> s[i] == c
    ensures |r| == 0 || r[|r| - 1] != c
  {
    if |s| > 0 && s[|s| - 1] == c then TrimRightChar(s[..|s| - 1], c) else s
  }

  /** ASCII lower-casing, in place of `strings.ToLower`. */
  function ToLowerAscii(s: string): (r: string)
    ensures |r| == |s|
    ensures forall i :: 0 <= i < |s| ==>
              r[i] == (if 'A' <= s[i] <= 'Z' then (s[i] as int + 32) as char else s[i])
  {
    if |s| == 0 then []
    else
      var c := s[0];
      [if 'A' <= c <= 'Z' then (c as int + 32) as char else c] + ToLowerAscii(s[1..])
  }

  /** The character for the decimal digit `d`. */
  function DigitChar(d: nat): (c: char)
    requires d < 10
    ensures IsAsciiDigit(c) && c as int - '0' as int == d
  {
    ('0' as int + d) as char
  }

  predicate AllDigits(s: string)
  {
    forall i :: 0 <= i < |s| ==> IsAsciiDigit(s[i])
  }

  /** The number a string of decimal digits denotes, most significant first. */
  function DecimalValue(s: string): nat
    requires AllDigits(s)
  {
    if |s| == 0 then 0
    else DecimalValue(s[..|s| - 1]) * 10 + (s[|s| - 1] as int - '0' as int)
  }

  /** Decimal rendering of `n`, as `fmt`'s `%d` and `strconv.Itoa` print it. */
  function FormatNat(n: nat): (r: string)
    ensures |r| >= 1 && AllDigits(r)
    ensures DecimalValue(r) == n
    ensures |r| > 1 ==> r[0] != '0'
  {
    if n < 10 then [DigitChar(n)]
    else
      var r := FormatNat(n / 10) + [DigitChar(n % 10)];
      assert r[..|r| - 1] == FormatNat(n / 10);
      r
  }

  /** Decimal rendering of a signed integer, with a leading `-` when negative. */
  function FormatInt(i: int): (r: string)
    ensures i >= 0 ==> r == FormatNat(i)
    ensures i < 0 ==> r == "-" + FormatNat(-i)
  {
    if i < 0 then "-" + FormatNat(-i) else FormatNat(i)
  }
}
