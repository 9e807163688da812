/** The library's error values: the four sentinel errors, the structured
    `ConfigError` that carries operation, key, section and provenance, and the
    `errors.Is` / `errors.As` walk along `Unwrap` chains (errors.go). */
module ConfigErrors {
  import opened Wrappers
  import opened Text

  /** The sentinel errors `ErrKeyNotFound`, `ErrSectionNotFound`,
      `ErrInvalidKeyFormat` and `ErrInvalidValue`. */
  datatype ErrorKind = KeyNotFound | SectionNotFound | InvalidKeyFormat | InvalidValue

  /** An `error` value as this library builds one. */
  datatype Error =
    | Sentinel(kind: ErrorKind)
      /** `errors.New`, `fmt.Errorf` without `%w`, or an error from outside the library. */
    | Plain(text: string)
      /** `fmt.Errorf(prefix + "%w" + suffix, inner)`. */
    | Wrapped(prefix: string, inner: Error, suffix: string)
      /** A `*ConfigError`. */
    | Structured(ce: ConfigError)

  datatype ConfigError = ConfigError(op: string, key: string, section: string, source: string, err: Error)

  function KindMessage(k: ErrorKind): string
  {
    match k
    case KeyNotFound => "key not found"
    case SectionNotFound => "section not found"
    case InvalidKeyFormat => "invalid key format"
    case InvalidValue => "invalid value"
  }

  /** `e.Error()`. */
  function Message(e: Error): string
    decreases e, 1
  {
    match e
    case Sentinel(k) => KindMessage(k)
    case Plain(t) => t
    case Wrapped(p, inner, s) => p + Message(inner) + s
    case Structured(ce) => ErrorString(ce)
  }

  /** The words of a `ConfigError` message before they are joined by single spaces. */
  function MessageParts(ce: ConfigError): seq<string>
    decreases ce, 0
  {
    ["gitconfig:", ce.op] + Subject(ce) + Origin(ce) + [Message(ce.err)]
  }

  /** `section.key` when both are set, else the key alone when set, else nothing. */
  function Subject(ce: ConfigError): (r: seq<string>)
    ensures |r| <= 1
  {
    if ce.section != "" && ce.key != "" then [ce.section + "." + ce.key]
    else if ce.key != "" then [ce.key]
    else []
  }

  /** The source in parentheses when it is set. */
  function Origin(ce: ConfigError): (r: seq<string>)
    ensures |r| <= 1
  {
    if ce.source != "" then ["(source: " + ce.source + ")"] else []
  }

  /** `(*ConfigError).Error`. */
  function ErrorString(ce: ConfigError): (r: string)
    decreases ce, 2
    ensures HasPrefix(r, "gitconfig: " + ce.op + " ")
    ensures |r| >= |Message(ce.err)| + 1 && r[|r| - |Message(ce.err)| - 1..] == " " + Message(ce.err)
  {
    var parts := MessageParts(ce);
    JoinShape(parts);
    Join(parts, " ")
  }

  /** A join of three or more words starts with the first two and ends with the last. */
  lemma JoinShape(parts: seq<string>)
    requires |parts| >= 3
    ensures HasPrefix(Join(parts, " "), parts[0] + " " + parts[1] + " ")
    ensures var j := Join(parts, " "); var l := parts[|parts| - 1];
            |j| >= |l| + 1 && j[|j| - |l| - 1..] == " " + l
  {
    var j := Join(parts, " ");
    var tail := Join(parts[2..], " ");
    assert parts[1..][1..] == parts[2..];
    assert Join(parts[1..], " ") == parts[1] + " " + tail;
    assert j == parts[0] + " " + (parts[1] + " " + tail);
    assert j == (parts[0] + " " + parts[1] + " ") + tail;
    JoinEnd(parts[2..]);
  }

  /** A join of two or more words ends with a space and the last word. */
  lemma {:induction false} JoinEnd(parts: seq<string>)
    requires |parts| >= 1
    ensures var j := Join(parts, " "); var l := parts[|parts| - 1];
            |j| >= |l| && j[|j| - |l|..] == l
    ensures |parts| >= 2 ==>
            var j := Join(parts, " "); var l := parts[|parts| - 1];
            |j| >= |l| + 1 && j[|j| - |l| - 1..] == " " + l
  {
    if |parts| >= 2 {
      var rest := parts[1..];
      JoinEnd(rest);
      var j := Join(parts, " ");
      var jr := Join(rest, " ");
      var l := parts[|parts| - 1];
      assert rest[|rest| - 1] == l;
      assert j == parts[0] + " " + jr;
      if |rest| >= 2 {
        assert j[|j| - |l| - 1..] == jr[|jr| - |l| - 1..];
      } else {
        assert jr == l;
        assert j[|j| - |l| - 1..] == " " + l;
      }
    }
  }

  /** The message spelled out: prefix, optional `section.key` or `key`, optional
      source in parentheses, then the wrapped error's message, one space apart. */
  lemma ErrorStringShape(ce: ConfigError)
    ensures ErrorString(ce) ==
      "gitconfig: " + ce.op
      + (if ce.section != "" && ce.key != "" then " " + ce.section + "." + ce.key
         else if ce.key != "" then " " + ce.key
         else "")
      + (if ce.source != "" then " (source: " + ce.source + ")" else "")
      + " " + Message(ce.err)
  {
    ErrorStringWords(ce);
    SubjectSpaced(ce);
    LiteralSpacing(ce.op, ce.source);
  }

  /** The joined words, each after the first two preceded by one space. */
  lemma ErrorStringWords(ce: ConfigError)
    ensures ErrorString(ce) == "gitconfig:" + " " + ce.op + Spaced(Subject(ce)) + Spaced(Origin(ce)) + " " + Message(ce.err)
  {
    var subject, origin, m := Subject(ce), Origin(ce), Message(ce.err);
    var rest := subject + origin + [m];
    assert MessageParts(ce) == ["gitconfig:"] + ([ce.op] + rest);
    JoinCons("gitconfig:", [ce.op] + rest);
    JoinCons(ce.op, rest);
    JoinRest(subject, origin, m);
    Regroup("gitconfig:", ce.op, Join(rest, " "));
    Regroup5("gitconfig:" + " " + ce.op, Spaced(subject), Spaced(origin), " ", m);
  }

  /** The subject word with its leading space. */
  lemma SubjectSpaced(ce: ConfigError)
    ensures Spaced(Subject(ce)) ==
      if ce.section != "" && ce.key != "" then " " + ce.section + "." + ce.key
      else if ce.key != "" then " " + ce.key
      else ""
  {
    if ce.section != "" && ce.key != "" {
      Regroup3(" ", ce.section, ".", ce.key);
    }
  }

  /** The two places where a literal word meets the space before or after it. */
  lemma LiteralSpacing(op: string, source: string)
    ensures "gitconfig:" + " " + op == "gitconfig: " + op
    ensures Spaced(["(source: " + source + ")"]) == " (source: " + source + ")"
  {
    assert " " + ("(source: " + source + ")") == " (source: " + source + ")";
  }

  lemma Regroup(x: string, op: string, j: string)
    ensures x + " " + (op + " " + j) == x + " " + op + (" " + j)
  {
  }

  lemma Regroup3(a: string, b: string, c: string, d: string)
    ensures a + (b + c + d) == a + b + c + d
  {
  }

  lemma Regroup5(a: string, b: string, c: string, d: string, e: string)
    ensures a + (b + (c + (d + e))) == a + b + c + d + e
  {
  }

  /** One space before the single word of `xs`, or nothing when `xs` is empty. */
  function Spaced(xs: seq<string>): string
  {
    if |xs| == 1 then " " + xs[0] else ""
  }

  /** The words after the operation, each preceded by one space. */
  lemma JoinRest(subject: seq<string>, origin: seq<string>, m: string)
    requires |subject| <= 1 && |origin| <= 1
    ensures " " + Join(subject + origin + [m], " ") == Spaced(subject) + (Spaced(origin) + (" " + m))
  {
    var tail := origin + [m];
    assert subject + origin + [m] == subject + tail;
    var jt := Join(tail, " ");
    assert " " + jt == Spaced(origin) + (" " + m) by {
      if |origin| == 1 {
        JoinCons(origin[0], [m]);
        assert tail == [origin[0]] + [m];
        assert " " + (origin[0] + " " + m) == " " + origin[0] + (" " + m);
      } else {
        assert tail == [m];
      }
    }
    if |subject| == 1 {
      JoinCons(subject[0], tail);
      assert subject + tail == [subject[0]] + tail;
      assert " " + (subject[0] + " " + jt) == " " + subject[0] + (" " + jt);
    } else {
      assert subject + tail == tail;
    }
  }

  /** Joining a word onto a non-empty list puts one space after it. */
  lemma JoinCons(a: string, rest: seq<string>)
    requires |rest| >= 1
    ensures Join([a] + rest, " ") == a + " " + Join(rest, " ")
  {
    assert ([a] + rest)[1..] == rest;
  }

  /** `errors.Unwrap`: the error one step down the chain. */
  function Unwrap(e: Error): (r: Option<Error>)
    ensures r.Some? ==> r.value < e
    ensures r.None? <==> e.Sentinel? || e.Plain?
  {
    match e
    case Wrapped(_, inner, _) => Some(inner)
    case Structured(ce) => Some(ce.err)
    case _ => None
  }

  /** `errors.Is(e, ErrX)` for a sentinel target: some error on the unwrap chain
      is that sentinel. A `ConfigError`'s own `Is` never matches a sentinel. */
  predicate HasKind(e: Error, k: ErrorKind)
  {
    match e
    case Sentinel(k') => k' == k
    case Plain(_) => false
    case Wrapped(_, inner, _) => HasKind(inner, k)
    case Structured(ce) => HasKind(ce.err, k)
  }

  /** `errors.As(target, &ce)`: the first `ConfigError` on the unwrap chain. */
  function AsConfigError(target: Error): (r: Option<ConfigError>)
    ensures r.Some? ==> r.value < target
    ensures target.Structured? ==> r == Some(target.ce)
    ensures target.Sentinel? || target.Plain? ==> r.None?
  {
    match target
    case Structured(ce) => Some(ce)
    case Wrapped(_, inner, _) => AsConfigError(inner)
    case _ => None
  }

  /** `(*ConfigError).Is`: the target is (or wraps) a `ConfigError` with the
      same operation, key and section; source and wrapped error play no part. */
  predicate Is(ce: ConfigError, target: Error)
  {
    match AsConfigError(target)
    case None => false
    case Some(t) => ce.op == t.op && ce.key == t.key && ce.section == t.section
  }

  /** `(*ConfigError).Unwrap`, stated through `errors.Is`: a sentinel is found
      behind a `ConfigError` exactly when it is found behind the error it wraps. */
  lemma UnwrapKeepsKind(ce: ConfigError, k: ErrorKind)
    ensures Unwrap(Structured(ce)) == Some(ce.err)
    ensures HasKind(Structured(ce), k) <==> HasKind(ce.err, k)
  {
  }

  /** `Is` compares exactly operation, key and section. */
  lemma IsIgnoresSourceAndCause(a: ConfigError, b: ConfigError)
    ensures Is(a, Structured(b)) <==> (a.op == b.op && a.key == b.key && a.section == b.section)
  {
  }

  /** `Is` is reflexive, symmetric and transitive on `ConfigError` values. */
  lemma IsEquivalence(a: ConfigError, b: ConfigError, c: ConfigError)
    ensures Is(a, Structured(a))
    ensures Is(a, Structured(b)) ==> Is(b, Structured(a))
    ensures Is(a, Structured(b)) && Is(b, Structured(c)) ==> Is(a, Structured(c))
  {
  }

  /** `Is` sees through `fmt.Errorf("...%w...")` wrapping of the target. */
  lemma IsThroughWrapping(a: ConfigError, prefix: string, t: Error, suffix: string)
    ensures Is(a, Wrapped(prefix, t, suffix)) <==> Is(a, t)
  {
  }

  /** Sentinels never match a `ConfigError`'s `Is`. */
  lemma IsNeverSentinel(a: ConfigError, k: ErrorKind, text: string)
    ensures !Is(a, Sentinel(k)) && !Is(a, Plain(text))
  {
  }
}
