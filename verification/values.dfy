/** Typed reads: `parseBool`, the decimal integer parsers of `strconv` that
    `convertValue` calls (`Atoi`, `ParseInt`, `ParseUint` in base 10), and
    `convertValue` itself for string, integer and boolean targets. Integers are
    unbounded here; each target's width is an explicit range. `int` and `uint`
    are 64 bits wide. */
module Values {
  import opened Wrappers
  import opened Text
  import opened ConfigErrors
  import opened Quoting

  /* ---------- parseBool ---------- */

  /** The spellings `parseBool` reads as true, after trimming and lower-casing. */
  predicate IsTrueWord(w: string)
  {
    w == "true" || w == "yes" || w == "on" || w == "1"
  }

  /** The spellings `parseBool` reads as false, after trimming and lower-casing. */
  predicate IsFalseWord(w: string)
  {
    w == "false" || w == "no" || w == "off" || w == "0"
  }

  /** The word `parseBool` compares: trimmed, then lower-cased. */
  function BoolWord(value: string): string
  {
    ToLowerAscii(TrimSpace(value))
  }

  /** `parseBool`. The empty value is true, as in Git. */
  function ParseBool(value: string): (r: Result<bool, Error>)
    ensures value == "" ==> r == Ok(true)
    ensures value != "" ==> (r == Ok(true) <==> IsTrueWord(BoolWord(value)))
    ensures value != "" ==> (r == Ok(false) <==> IsFalseWord(BoolWord(value)))
    ensures r.Fail? ==> r.error == Plain("invalid boolean value: " + value)
  {
    if value == "" then Ok(true)
    else
      var w := BoolWord(value);
      if IsTrueWord(w) then Ok(true)
      else if IsFalseWord(w) then Ok(false)
      else Fail(Plain("invalid boolean value: " + value))
  }

  /** `strconv.FormatBool`. */
  function FormatBool(b: bool): (r: string)
    ensures r != ""
  {
    if b then "true" else "false"
  }

  /** `parseBool` reads back what `FormatBool` writes. */
  lemma ParseFormatBool(b: bool)
    ensures ParseBool(FormatBool(b)) == Ok(b)
  {
    var w := FormatBool(b);
    if b {
      assert w[0] == 't' && w[1] == 'r' && w[2] == 'u' && w[3] == 'e';
    } else {
      assert w[0] == 'f' && w[1] == 'a' && w[2] == 'l' && w[3] == 's' && w[4] == 'e';
    }
    BoolWordOfLower(w);
  }

  /** A word with no capitals and no whitespace at its ends is compared as it is. */
  lemma BoolWordOfLower(w: string)
    requires Trimmed(w)
    requires forall i :: 0 <= i < |w| ==> !('A' <= w[i] <= 'Z')
    ensures BoolWord(w) == w
  {
    TrimmedFixed(w);
    var l := ToLowerAscii(w);
    assert forall i :: 0 <= i < |w| ==> l[i] == w[i];
    assert l == w;
  }

  /** A value of spaces only is not the empty value: it fails. */
  lemma BlankValueRejected(value: string)
    requires value != "" && AllSpace(value)
    ensures ParseBool(value).Fail?
  {
    TrimSpaceOfPadded(value, [], []);
    assert value + [] + [] == value;
  }

  /** Surrounding whitespace does not change how a non-empty value reads. */
  lemma PaddingIgnored(a: string, m: string, b: string)
    requires AllSpace(a) && AllSpace(b) && Trimmed(m) && m != ""
    ensures ParseBool(a + m + b).Ok? <==> ParseBool(m).Ok?
    ensures ParseBool(a + m + b).Ok? ==> ParseBool(a + m + b) == ParseBool(m)
  {
    TrimSpaceOfPadded(a, m, b);
    TrimmedFixed(m);
    assert BoolWord(a + m + b) == BoolWord(m);
    assert |a + m + b| > 0;
  }

  /* ---------- Decimal scanning ---------- */

  function Pow2(n: nat): (r: int)
    ensures r >= 1
  {
    if n == 0 then 1 else 2 * Pow2(n - 1)
  }

  /** How `strconv`'s digit loop stands after a prefix of its input. */
  datatype Scan = Value(n: nat) | BadSyntax | OutOfRange

  /** The base-10 loop of `strconv.ParseUint` with the limit `max`, run over all
      of `s`: the first non-digit is a syntax error, and the first prefix whose
      value passes `max` is a range error, whichever comes first. */
  function ScanDecimal(s: string, max: nat): Scan
  {
    if |s| == 0 then Value(0)
    else
      match ScanDecimal(s[..|s| - 1], max)
      case Value(n) =>
        var c := s[|s| - 1];
        if !IsAsciiDigit(c) then BadSyntax
        else if n * 10 + (c as int - '0' as int) > max then OutOfRange
        else Value(n * 10 + (c as int - '0' as int))
      case other => other
  }

  /** A digit string never reads smaller than any of its prefixes. */
  lemma {:induction false} DecimalValueMonotone(s: string, i: nat)
    requires AllDigits(s) && i <= |s|
    ensures AllDigits(s[..i]) && DecimalValue(s[..i]) <= DecimalValue(s)
    decreases |s|
  {
    if i < |s| {
      var p := s[..|s| - 1];
      assert p[..i] == s[..i];
      DecimalValueMonotone(p, i);
    } else {
      assert s[..i] == s;
    }
  }

  /** On a digit string the loop yields its value when it fits and a range
      error when it does not. */
  lemma {:induction false} ScanDigits(s: string, max: nat)
    requires AllDigits(s)
    ensures DecimalValue(s) <= max ==> ScanDecimal(s, max) == Value(DecimalValue(s))
    ensures DecimalValue(s) > max ==> ScanDecimal(s, max) == OutOfRange
    decreases |s|
  {
    if |s| > 0 {
      var p := s[..|s| - 1];
      ScanDigits(p, max);
      if DecimalValue(p) > max {
        assert DecimalValue(s) > max;
      }
    }
  }

  /** The loop succeeds only on digit strings. */
  lemma {:induction false} ScanValueIsDigits(s: string, max: nat)
    requires ScanDecimal(s, max).Value?
    ensures AllDigits(s)
    ensures ScanDecimal(s, max).n == DecimalValue(s) <= max
    decreases |s|
  {
    if |s| > 0 {
      var p := s[..|s| - 1];
      ScanValueIsDigits(p, max);
      forall i | 0 <= i < |s| ensures IsAsciiDigit(s[i]) {
        if i < |p| { assert s[i] == p[i]; }
      }
      assert s[..|s| - 1] == p;
    }
  }

  /** A non-digit after a prefix that fits is a syntax error, whatever follows. */
  lemma {:induction false} ScanSyntaxError(s: string, max: nat, i: nat)
    requires i < |s| && AllDigits(s[..i]) && DecimalValue(s[..i]) <= max && !IsAsciiDigit(s[i])
    ensures ScanDecimal(s, max) == BadSyntax
    decreases |s|
  {
    if i + 1 == |s| {
      assert s[..|s| - 1] == s[..i];
      ScanDigits(s[..i], max);
    } else {
      var p := s[..|s| - 1];
      assert p[..i] == s[..i] && p[i] == s[i];
      ScanSyntaxError(p, max, i);
    }
  }

  /* ---------- strconv.ParseUint, ParseInt, Atoi ---------- */

  /** The two ways a `strconv` number parse fails. */
  datatype NumFailure = SyntaxFailure | RangeFailure

  /** `(*strconv.NumError).Error()`. */
  function NumErrorText(fn: string, num: string, f: NumFailure): (r: string)
    ensures HasPrefix(r, "strconv." + fn + ": parsing ")
  {
    var head := "strconv." + fn + ": parsing ";
    var r := head + Quote(num) + ": " + (if f == SyntaxFailure then "invalid syntax" else "value out of range");
    assert r[..|head|] == head;
    r
  }

  /** `strconv.ParseUint(s, 10, bits)`. */
  function ParseUint(s: string, bits: nat): (r: Result<nat, NumFailure>)
    ensures r.Ok? ==> r.value < Pow2(bits)
    ensures s == "" ==> r == Fail(SyntaxFailure)
  {
    if s == "" then Fail(SyntaxFailure)
    else
      match ScanDecimal(s, Pow2(bits) - 1)
      case Value(n) => Ok(n)
      case BadSyntax => Fail(SyntaxFailure)
      case OutOfRange => Fail(RangeFailure)
  }

  /** `strconv.ParseInt(s, 10, bits)`: an optional sign, then `ParseUint`'s
      loop, then the signed range check; `Atoi` agrees with it for 64 bits. */
  function ParseInt(s: string, bits: nat): (r: Result<int, NumFailure>)
    requires bits >= 1
    ensures r.Ok? ==> -Pow2(bits - 1) <= r.value < Pow2(bits - 1)
    ensures s == "" ==> r == Fail(SyntaxFailure)
  {
    if s == "" then Fail(SyntaxFailure)
    else
      var neg := s[0] == '-';
      var body := if s[0] == '+' || s[0] == '-' then s[1..] else s;
      var cutoff := Pow2(bits - 1);
      match ParseUint(body, bits)
      case Fail(f) => Fail(f)
      case Ok(u) =>
        if !neg && u >= cutoff then Fail(RangeFailure)
        else if neg && u > cutoff then Fail(RangeFailure)
        else Ok(if neg then -(u as int) else u)
  }

  /* ---------- convertValue ---------- */

  /** The integer types `convertValue` accepts as targets. */
  datatype IntKind = Int | Int8 | Int16 | Int32 | Int64 | Uint | Uint8 | Uint16 | Uint32 | Uint64

  function Bits(k: IntKind): (r: nat)
    ensures r >= 8
  {
    match k
    case Int8 | Uint8 => 8
    case Int16 | Uint16 => 16
    case Int32 | Uint32 => 32
    case _ => 64
  }

  predicate Signed(k: IntKind)
  {
    k.Int? || k.Int8? || k.Int16? || k.Int32? || k.Int64?
  }

  function MinValue(k: IntKind): int
  {
    if Signed(k) then -Pow2(Bits(k) - 1) else 0
  }

  function MaxValue(k: IntKind): int
  {
    if Signed(k) then Pow2(Bits(k) - 1) - 1 else Pow2(Bits(k)) - 1
  }

  /** The name of the `strconv` function a kind is parsed with, as its errors report it. */
  function ParserName(k: IntKind): string
  {
    if k == Int then "Atoi" else if Signed(k) then "ParseInt" else "ParseUint"
  }

  /** The target type `T` of `Get[T]`, floats left out. */
  datatype Target = TString | TInt(kind: IntKind) | TBool

  /** A converted value. */
  datatype Value = VString(s: string) | VInt(i: int) | VBool(b: bool)

  /** `v` is a value of type `t`, within its range. */
  predicate Conforms(v: Value, t: Target)
  {
    match t
    case TString => v.VString?
    case TBool => v.VBool?
    case TInt(k) => v.VInt? && MinValue(k) <= v.i <= MaxValue(k)
  }

  /** `fmt.Errorf("%w: %v", ErrInvalidValue, err)`. */
  function InvalidValueError(cause: string): (e: Error)
    ensures HasKind(e, InvalidValue)
  {
    Wrapped("", Sentinel(InvalidValue), ": " + cause)
  }

  function ParseIntKind(value: string, k: IntKind): (r: Result<int, NumFailure>)
    ensures r.Ok? ==> MinValue(k) <= r.value <= MaxValue(k)
  {
    if Signed(k) then ParseInt(value, Bits(k))
    else match ParseUint(value, Bits(k))
      case Ok(n) => Ok(n)
      case Fail(f) => Fail(f)
  }

  /** `convertValue[T]`: strings pass through, integers are parsed in base 10
      within the target's width, booleans go through `parseBool`; every
      failure is reported as `ErrInvalidValue` followed by the cause. */
  function ConvertValue(value: string, t: Target): (r: Result<Value, Error>)
    ensures r.Ok? ==> Conforms(r.value, t)
    ensures r.Fail? ==> HasKind(r.error, InvalidValue)
    ensures t == TString ==> r == Ok(VString(value))
    ensures t.TInt? && r.Fail? ==>
              exists f :: r.error == InvalidValueError(NumErrorText(ParserName(t.kind), value, f))
    ensures t == TBool && r.Fail? ==> r.error == InvalidValueError("invalid boolean value: " + value)
  {
    match t
    case TString => Ok(VString(value))
    case TBool =>
      (match ParseBool(value)
       case Ok(b) => Ok(VBool(b))
       case Fail(e) => Fail(InvalidValueError(Message(e))))
    case TInt(k) =>
      match ParseIntKind(value, k)
      case Ok(n) => Ok(VInt(n))
      case Fail(f) => Fail(InvalidValueError(NumErrorText(ParserName(k), value, f)))
  }

  /** How a value is written so that `convertValue` reads it back. */
  function Render(v: Value): string
  {
    match v
    case VString(s) => s
    case VInt(i) => FormatInt(i)
    case VBool(b) => FormatBool(b)
  }

  /** Decimal text of a number in range reads back as that number. */
  lemma ParseFormatUint(n: nat, bits: nat)
    requires n < Pow2(bits)
    ensures ParseUint(FormatNat(n), bits) == Ok(n)
  {
    ScanDigits(FormatNat(n), Pow2(bits) - 1);
  }

  lemma Pow2Half(bits: nat)
    requires bits >= 1
    ensures Pow2(bits - 1) <= Pow2(bits) - 1
  {
  }

  /** `ParseInt` reads back `FormatInt` for every number in the signed range. */
  lemma ParseFormatInt(i: int, bits: nat)
    requires bits >= 1 && -Pow2(bits - 1) <= i < Pow2(bits - 1)
    ensures ParseInt(FormatInt(i), bits) == Ok(i)
  {
    Pow2Half(bits);
    var s := FormatInt(i);
    if i < 0 {
      assert s[0] == '-' && s[1..] == FormatNat(-i);
      ParseFormatUint(-i, bits);
    } else {
      var d := FormatNat(i);
      assert IsAsciiDigit(d[0]);
      ParseFormatUint(i, bits);
    }
  }

  /** `convertValue` reads back every in-range value of every target type. */
  lemma ConvertRender(v: Value, t: Target)
    requires Conforms(v, t)
    ensures ConvertValue(Render(v), t) == Ok(v)
  {
    match t
    case TString =>
    case TBool => ParseFormatBool(v.b);
    case TInt(k) =>
      if Signed(k) {
        ParseFormatInt(v.i, Bits(k));
      } else {
        ParseFormatUint(v.i, Bits(k));
      }
  }

  /** Plain decimal text is accepted exactly when it is within the target's
      range, and a number that does not fit is a range error, not a syntax error. */
  lemma UnsignedRange(digits: string, k: IntKind)
    requires !Signed(k) && digits != "" && AllDigits(digits)
    ensures ParseIntKind(digits, k).Ok? <==> DecimalValue(digits) <= MaxValue(k)
    ensures ParseIntKind(digits, k).Ok? ==> ParseIntKind(digits, k).value == DecimalValue(digits)
    ensures ParseIntKind(digits, k).Fail? ==> ParseIntKind(digits, k).error == RangeFailure
  {
    var max := Pow2(Bits(k)) - 1;
    ScanDigits(digits, max);
    assert MaxValue(k) == max;
    UnsignedKind(digits, k);
  }

  lemma UnsignedKind(s: string, k: IntKind)
    requires !Signed(k)
    ensures ParseIntKind(s, k).Ok? <==> ParseUint(s, Bits(k)).Ok?
    ensures ParseIntKind(s, k).Ok? ==> ParseIntKind(s, k).value == ParseUint(s, Bits(k)).value
    ensures ParseIntKind(s, k).Fail? ==> ParseIntKind(s, k).error == ParseUint(s, Bits(k)).error
  {
  }

  /** The same for signed targets, non-negative text. */
  lemma SignedRange(digits: string, k: IntKind)
    requires Signed(k) && digits != "" && AllDigits(digits)
    ensures ParseIntKind(digits, k).Ok? <==> DecimalValue(digits) <= MaxValue(k)
    ensures ParseIntKind(digits, k).Ok? ==> ParseIntKind(digits, k).value == DecimalValue(digits)
    ensures ParseIntKind(digits, k).Fail? ==> ParseIntKind(digits, k).error == RangeFailure
  {
    PositiveText(digits, Bits(k));
  }

  lemma PositiveText(digits: string, bits: nat)
    requires bits >= 1 && digits != "" && AllDigits(digits)
    ensures var r := ParseInt(digits, bits);
            (r.Ok? <==> DecimalValue(digits) < Pow2(bits - 1))
            && (r.Ok? ==> r.value == DecimalValue(digits))
            && (r.Fail? ==> r.error == RangeFailure)
  {
    Pow2Half(bits);
    ScanDigits(digits, Pow2(bits) - 1);
    assert IsAsciiDigit(digits[0]);
  }

  /** The same for signed targets and text with a leading `-`: the negative
      range reaches one further than the positive one. */
  lemma NegativeRange(digits: string, k: IntKind)
    requires Signed(k) && digits != "" && AllDigits(digits)
    ensures var r := ParseIntKind("-" + digits, k);
            (r.Ok? <==> MinValue(k) <= -(DecimalValue(digits) as int))
            && (r.Ok? ==> r.value == -(DecimalValue(digits) as int))
            && (r.Fail? ==> r.error == RangeFailure)
  {
    NegativeText(digits, Bits(k));
  }

  lemma NegativeText(digits: string, bits: nat)
    requires bits >= 1 && digits != "" && AllDigits(digits)
    ensures var r := ParseInt("-" + digits, bits);
            (r.Ok? <==> DecimalValue(digits) <= Pow2(bits - 1))
            && (r.Ok? ==> r.value == -(DecimalValue(digits) as int))
            && (r.Fail? ==> r.error == RangeFailure)
  {
    Pow2Half(bits);
    var s := "-" + digits;
    ScanDigits(digits, Pow2(bits) - 1);
    assert s[0] == '-' && s[1..] == digits;
  }

  /** A non-digit anywhere is a syntax error when the digits before it fit. */
  lemma StrayCharacterRejected(s: string, k: IntKind, i: nat)
    requires !Signed(k) && i < |s| && AllDigits(s[..i]) && DecimalValue(s[..i]) <= MaxValue(k)
    requires !IsAsciiDigit(s[i])
    ensures ParseIntKind(s, k) == Fail(SyntaxFailure)
  {
    ScanSyntaxError(s, Pow2(Bits(k)) - 1, i);
  }
}
