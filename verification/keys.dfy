/** The key algebra: splitting a dotted key into (section, key) (utils.go),
    composing a `[name "sub"]` header with a key (parser.go `buildFullKey`),
    the four name validators (parser.go), and the validation chain that
    `setRawValue` applies before it stores anything (git.go, gitcfg.go). */
module Keys {
  import opened Wrappers
  import opened Text
  import opened ConfigErrors

  /* ---------- Decomposition ---------- */

  /** No two dots in `s`. */
  predicate AtMostOneDot(s: string)
  {
    forall i, j :: 0 <= i < j < |s| && s[i] == '.' ==> s[j] != '.'
  }

  /** `parseConfigKey`: split at the first dot, then peel exactly one more
      segment into the section when the remainder still holds a dot. */
  function ParseConfigKey(key: string): (r: Result<(string, string), Error>)
    ensures r.Fail? <==> '.' !in key
    ensures r.Fail? ==> r.error == Sentinel(InvalidKeyFormat)
    ensures r.Ok? ==> r.value.0 + "." + r.value.1 == key
    ensures r.Ok? ==> AtMostOneDot(r.value.0)
  {
    match Cut(key, '.')
    case None => Fail(Sentinel(InvalidKeyFormat))
    case Some((section, remaining)) =>
      match Cut(remaining, '.')
      case None =>
        NoDotAtMostOne(section);
        Ok((section, remaining))
      case Some((sub, rest)) =>
        DotRegroup(section, sub, rest);
        OneDotBetween(section, sub);
        Ok((section + "." + sub, rest))
  }

  lemma NoDotAtMostOne(s: string)
    requires '.' !in s
    ensures AtMostOneDot(s)
  {
    forall i | 0 <= i < |s| ensures s[i] != '.' {
      assert s[i] in s;
    }
  }

  /** Two dot-free names joined by one dot hold exactly that dot. */
  lemma OneDotBetween(a: string, b: string)
    requires '.' !in a && '.' !in b
    ensures AtMostOneDot(a + "." + b)
  {
    var s := a + "." + b;
    forall k | 0 <= k < |s| && k != |a| ensures s[k] != '.' {
      if k < |a| {
        assert s[k] == a[k] && a[k] in a;
      } else {
        assert s[k] == b[k - |a| - 1] && b[k - |a| - 1] in b;
      }
    }
  }

  /** Splitting at a first separator peels off the text before it. */
  lemma SplitCons(x: string, c: char, y: string)
    requires c !in x
    ensures Split(x + [c] + y, c) == [x] + Split(y, c)
  {
    CutOfConcat(x, c, y);
  }

  /** A key with exactly one dot splits around it. */
  lemma TwoSegments(section: string, remaining: string)
    requires '.' !in section && '.' !in remaining
    ensures Split(section + "." + remaining, '.') == [section, remaining]
    ensures ParseConfigKey(section + "." + remaining) == Ok((section, remaining))
  {
    SplitCons(section, '.', remaining);
    CutOfConcat(section, '.', remaining);
  }

  /** With two dots or more, the first two segments form the section and
      everything after the second dot, further dots included, is the key. */
  lemma ThreeOrMoreSegments(section: string, sub: string, rest: string)
    requires '.' !in section && '.' !in sub
    ensures Split(section + "." + sub + "." + rest, '.') == [section, sub] + Split(rest, '.')
    ensures ParseConfigKey(section + "." + sub + "." + rest) == Ok((section + "." + sub, rest))
  {
    DotRegroup(section, sub, rest);
    SplitTwice(section, sub, rest);
    CutTwice(section, sub, rest);
  }

  lemma SplitTwice(section: string, sub: string, rest: string)
    requires '.' !in section && '.' !in sub
    ensures Split(section + "." + (sub + "." + rest), '.') == [section, sub] + Split(rest, '.')
  {
    SplitCons(section, '.', sub + "." + rest);
    SplitCons(sub, '.', rest);
  }

  lemma CutTwice(section: string, sub: string, rest: string)
    requires '.' !in section && '.' !in sub
    ensures ParseConfigKey(section + "." + (sub + "." + rest)) == Ok((section + "." + sub, rest))
  {
    CutOfConcat(section, '.', sub + "." + rest);
    CutOfConcat(sub, '.', rest);
  }

  lemma DotRegroup(a: string, b: string, c: string)
    ensures a + "." + b + "." + c == a + "." + (b + "." + c)
  {
  }

  /** The decomposition in terms of the dot-separated segments: two segments
      give (first, second); three or more give (first.second, the rest joined). */
  lemma ParseConfigKeyBySegments(key: string)
    ensures var parts := Split(key, '.');
            && (|parts| == 1 ==> ParseConfigKey(key).Fail?)
            && (|parts| == 2 ==> ParseConfigKey(key) == Ok((parts[0], parts[1])))
            && (|parts| >= 3 ==>
                  ParseConfigKey(key) == Ok((parts[0] + "." + parts[1], Join(parts[2..], "."))))
  {
    match Cut(key, '.')
    case None =>
      assert Split(key, '.') == [key];
    case Some((section, remaining)) =>
      match Cut(remaining, '.')
      case None =>
        assert key == section + "." + remaining;
        TwoSegments(section, remaining);
      case Some((sub, rest)) =>
        DotRegroup(section, sub, rest);
        SegmentsOfThree(section, sub, rest);
  }

  lemma SegmentsOfThree(section: string, sub: string, rest: string)
    requires '.' !in section && '.' !in sub
    ensures var parts := Split(section + "." + sub + "." + rest, '.');
            && |parts| >= 3
            && ParseConfigKey(section + "." + sub + "." + rest)
               == Ok((parts[0] + "." + parts[1], Join(parts[2..], ".")))
  {
    ThreeOrMoreSegments(section, sub, rest);
    JoinSplit(rest, '.');
    assert ([section, sub] + Split(rest, '.'))[2..] == Split(rest, '.');
  }

  /** Decomposition inverts composition for a section with at most one dot and
      a dot-free key. */
  lemma ParseComposed(section: string, key: string)
    requires AtMostOneDot(section) && '.' !in key
    ensures ParseConfigKey(section + "." + key) == Ok((section, key))
  {
    match Cut(section, '.')
    case None =>
      TwoSegments(section, key);
    case Some((a, b)) =>
      AfterOnlyDot(section, a, b);
      assert section + "." + key == a + "." + b + "." + key;
      ThreeOrMoreSegments(a, b, key);
  }

  /** The three-level example: `remote.origin.url` is (`remote.origin`, `url`). */
  lemma ParseThreeLevelExample()
    ensures ParseConfigKey("remote.origin.url") == Ok(("remote.origin", "url"))
  {
    assert "remote.origin.url" == "remote" + "." + "origin" + "." + "url";
    assert "remote.origin" == "remote" + "." + "origin";
    ThreeOrMoreSegments("remote", "origin", "url");
  }

  /* ---------- Validators ---------- */

  /** The characters `isValidKeyName` accepts. */
  predicate IsKeyChar(c: char)
  {
    IsAsciiLetter(c) || IsAsciiDigit(c) || c == '-' || c == '_'
  }

  /** The characters `isValidConfigKey` accepts. */
  predicate IsConfigKeyChar(c: char)
  {
    IsKeyChar(c) || c == '.'
  }

  /** The rune loop of `isValidKeyName` after its emptiness check. */
  function KeyCharsOnly(s: string): (r: bool)
    ensures r <==> forall i :: 0 <= i < |s| ==> IsKeyChar(s[i])
  {
    if |s| == 0 then true
    else if !IsKeyChar(s[0]) then false
    else
      var r := KeyCharsOnly(s[1..]);
      assert forall i :: 1 <= i < |s| ==> s[i] == s[1..][i - 1];
      r
  }

  /** The rune loop of `isValidConfigKey`. */
  function ConfigKeyCharsOnly(s: string): (r: bool)
    ensures r <==> forall i :: 0 <= i < |s| ==> IsConfigKeyChar(s[i])
  {
    if |s| == 0 then true
    else if !IsConfigKeyChar(s[0]) then false
    else
      var r := ConfigKeyCharsOnly(s[1..]);
      assert forall i :: 1 <= i < |s| ==> s[i] == s[1..][i - 1];
      r
  }

  /** `isValidKeyName`. */
  predicate IsValidKeyName(name: string)
  {
    name != "" && KeyCharsOnly(name)
  }

  /** `isValidConfigKey`. */
  predicate IsValidConfigKey(key: string)
  {
    key != "" && '.' in key && ConfigKeyCharsOnly(key)
  }

  /** `s` is at least two characters wrapped in double quotes. */
  predicate IsQuoted(s: string)
  {
    |s| >= 2 && s[0] == '"' && s[|s| - 1] == '"'
  }

  /** `isValidSectionName`: a key name, or a key name, a space, and a
      (trimmed) double-quoted subsection. */
  predicate IsValidSectionName(name: string)
  {
    if name == "" then false
    else
      match Cut(name, ' ')
      case Some((head, rest)) => IsValidKeyName(head) && IsQuoted(TrimSpace(rest))
      case None => IsValidKeyName(name)
  }

  /** The segment loop of `isValidSubsectionName`. */
  function AllKeyNames(parts: seq<string>): (r: bool)
    ensures r <==> forall i :: 0 <= i < |parts| ==> IsValidKeyName(parts[i])
  {
    if |parts| == 0 then true
    else if !IsValidKeyName(parts[0]) then false
    else
      var r := AllKeyNames(parts[1..]);
      assert forall i :: 1 <= i < |parts| ==> parts[i] == parts[1..][i - 1];
      r
  }

  /** `isValidSubsectionName`: a dotted name whose every segment is a key name. */
  predicate IsValidSubsectionName(name: string)
  {
    name != "" && '.' in name && AllKeyNames(Split(name, '.'))
  }

  /** A key name never holds a dot or a space. */
  lemma KeyNameHasNoDotOrSpace(name: string)
    requires IsValidKeyName(name)
    ensures '.' !in name && ' ' !in name
  {
    forall i | 0 <= i < |name| ensures name[i] != '.' && name[i] != ' ' {
      assert IsKeyChar(name[i]);
    }
  }

  /** Without a space, a section name is valid exactly when it is a key name. */
  lemma SectionNameWithoutSpace(name: string)
    requires ' ' !in name
    ensures IsValidSectionName(name) <==> IsValidKeyName(name)
  {
  }

  /** `[name "sub"]` headers are valid section names for any subsection text. */
  lemma QuotedSectionNameValid(name: string, sub: string)
    requires IsValidKeyName(name)
    ensures IsValidSectionName(name + " \"" + sub + "\"")
  {
    KeyNameHasNoDotOrSpace(name);
    var rest := "\"" + sub + "\"";
    assert name + " \"" + sub + "\"" == name + [' '] + rest;
    CutOfConcat(name, ' ', rest);
    QuotedIsTrimmed(sub);
  }

  /* ---------- Composition ---------- */

  /** `buildFullKey`: join a header's section with a key; a `name "sub"` header
      contributes `name.sub`. */
  function BuildFullKey(section: string, key: string): (r: string)
    ensures section == "" ==> r == key
    ensures section != "" && ' ' !in section ==> r == section + "." + key
  {
    if section == "" then key
    else
      match Cut(section, ' ')
      case Some((name, rest)) =>
        var sub := TrimSpace(rest);
        if IsQuoted(sub) then name + "." + sub[1..|sub| - 1] + "." + key
        else section + "." + key
      case None => section + "." + key
  }

  /** A quoted subsection header composes to `name.sub.key`, whatever `sub` holds. */
  lemma BuildFullKeySubsection(name: string, sub: string, key: string)
    requires ' ' !in name
    ensures BuildFullKey(name + " \"" + sub + "\"", key) == name + "." + sub + "." + key
  {
    var rest := "\"" + sub + "\"";
    var section := name + " \"" + sub + "\"";
    assert section == name + [' '] + rest;
    CutOfConcat(name, ' ', rest);
    QuotedIsTrimmed(sub);
  }

  /** A double-quoted string is its own trim and unwraps to its content. */
  lemma QuotedIsTrimmed(sub: string)
    ensures var q := "\"" + sub + "\"";
            TrimSpace(q) == q && IsQuoted(q) && q[1..|q| - 1] == sub
  {
    var q := "\"" + sub + "\"";
    assert q[0] == '"' && q[|q| - 1] == '"';
    TrimmedFixed(q);
    assert q[1..|q| - 1] == sub;
  }

  /** A header whose text after the first space is not a quoted string is
      used verbatim, space included. */
  lemma BuildFullKeyUnquoted(name: string, rest: string, key: string)
    requires ' ' !in name && !IsQuoted(TrimSpace(rest))
    ensures BuildFullKey(name + " " + rest, key) == name + " " + rest + "." + key
  {
    CutOfConcat(name, ' ', rest);
  }

  /** Composing a plain section with a key and decomposing again gives both back. */
  lemma ComposeDecomposePlain(section: string, key: string)
    requires IsValidKeyName(section) && IsValidKeyName(key)
    ensures ParseConfigKey(BuildFullKey(section, key)) == Ok((section, key))
  {
    KeyNameHasNoDotOrSpace(section);
    KeyNameHasNoDotOrSpace(key);
    CutOfConcat(section, '.', key);
  }

  /** Composing `[name "sub"]` with a key and decomposing again yields the
      dotted section `name.sub` and the key, for dot-free `sub`. */
  lemma ComposeDecomposeSubsection(name: string, sub: string, key: string)
    requires IsValidKeyName(name) && IsValidKeyName(key) && '.' !in sub
    ensures ParseConfigKey(BuildFullKey(name + " \"" + sub + "\"", key)) == Ok((name + "." + sub, key))
  {
    KeyNameHasNoDotOrSpace(name);
    KeyNameHasNoDotOrSpace(key);
    BuildFullKeySubsection(name, sub, key);
    ThreeOrMoreSegments(name, sub, key);
  }

  /* ---------- setRawValue's validation chain ---------- */

  /** The checks `setRawValue` makes before storing, in the source's order,
      with the error each one reports; success yields (section, key name). */
  function ValidateKey(key: string): (r: Result<(string, string), Error>)
    ensures r.Fail? ==> HasKind(r.error, InvalidKeyFormat)
    ensures r.Ok? ==> IsValidConfigKey(key) && ParseConfigKey(key) == Ok(r.value)
    ensures r.Ok? ==> r.value.0 + "." + r.value.1 == key && AtMostOneDot(r.value.0)
    ensures r.Ok? ==> (IsValidSectionName(r.value.0) || IsValidSubsectionName(r.value.0))
                      && IsValidKeyName(r.value.1)
  {
    if !IsValidConfigKey(key) then
      Fail(Wrapped("", Sentinel(InvalidKeyFormat), ": " + key))
    else
      match ParseConfigKey(key)
      case Fail(e) => Fail(Wrapped("", e, ": " + key))
      case Ok((section, remaining)) =>
        if !IsValidSectionName(section) && !IsValidSubsectionName(section) then
          Fail(Wrapped("", Sentinel(InvalidKeyFormat), ": invalid section name " + section))
        else if !IsValidKeyName(remaining) then
          Fail(Wrapped("", Sentinel(InvalidKeyFormat), ": invalid key name " + remaining))
        else
          Ok((section, remaining))
  }

  /** The keys `setRawValue` stores: two or three dot-separated segments, each a
      key name. Four or more segments are rejected. */
  predicate AcceptedKey(key: string)
  {
    var parts := Split(key, '.');
    (|parts| == 2 || |parts| == 3) && AllKeyNames(parts)
  }

  /** A string made of key names joined by dots uses only config-key characters. */
  lemma JoinedKeyNamesChars(parts: seq<string>)
    requires |parts| >= 1 && AllKeyNames(parts)
    ensures ConfigKeyCharsOnly(Join(parts, "."))
    decreases |parts|
  {
    if |parts| > 1 {
      JoinedKeyNamesChars(parts[1..]);
      var j := Join(parts, ".");
      var p := parts[0];
      var t := Join(parts[1..], ".");
      assert j == p + "." + t;
      forall i | 0 <= i < |j| ensures IsConfigKeyChar(j[i]) {
        if i < |p| { assert j[i] == p[i]; }
        else if i > |p| { assert j[i] == t[i - |p| - 1]; }
      }
    }
  }

  /** A key made only of config-key characters holds no space. */
  lemma ConfigKeyHasNoSpace(key: string)
    requires ConfigKeyCharsOnly(key)
    ensures ' ' !in key
  {
    forall i | 0 <= i < |key| ensures key[i] != ' ' {
      assert IsConfigKeyChar(key[i]);
    }
  }

  /** A string with at most one dot, cut at that dot, leaves no dot behind it. */
  lemma AfterOnlyDot(section: string, a: string, b: string)
    requires AtMostOneDot(section) && section == a + "." + b
    ensures '.' !in b
  {
    forall j | 0 <= j < |b| ensures b[j] != '.' {
      assert section[|a|] == '.';
      assert section[|a| + 1 + j] == b[j];
    }
  }

  /** A plain section and a key name make an accepted two-segment key. */
  lemma PlainSectionAccepted(section: string, rem: string)
    requires IsValidKeyName(section) && IsValidKeyName(rem)
    ensures AcceptedKey(section + "." + rem)
    ensures var parts := Split(section + "." + rem, '.');
            (section, rem) == (Join(parts[..|parts| - 1], "."), parts[|parts| - 1])
  {
    KeyNameHasNoDotOrSpace(section);
    KeyNameHasNoDotOrSpace(rem);
    TwoSegments(section, rem);
    var parts := Split(section + "." + rem, '.');
    assert parts[..1] == [section];
  }

  /** A two-segment dotted section and a key name make an accepted three-segment key. */
  lemma SubsectionAccepted(section: string, rem: string)
    requires IsValidSubsectionName(section) && AtMostOneDot(section) && IsValidKeyName(rem)
    ensures AcceptedKey(section + "." + rem)
    ensures var parts := Split(section + "." + rem, '.');
            (section, rem) == (Join(parts[..|parts| - 1], "."), parts[|parts| - 1])
  {
    KeyNameHasNoDotOrSpace(rem);
    match Cut(section, '.')
    case Some((a, b)) =>
      AfterOnlyDot(section, a, b);
      TwoSegments(a, b);
      assert Split(section, '.') == [a, b];
      assert IsValidKeyName(Split(section, '.')[0]) && IsValidKeyName(Split(section, '.')[1]);
      DotRegroup(a, b, rem);
      ThreeOrMoreSegments(a, b, rem);
      assert Split(rem, '.') == [rem];
      assert ([a, b] + [rem])[..2] == [a, b];
      JoinOfTwo([a, b]);
  }

  /** What `setRawValue` accepts has two or three key-name segments. */
  lemma ValidatedIsAccepted(key: string)
    requires ValidateKey(key).Ok?
    ensures AcceptedKey(key)
    ensures var parts := Split(key, '.');
            ValidateKey(key).value == (Join(parts[..|parts| - 1], "."), parts[|parts| - 1])
  {
    var (section, rem) := ValidateKey(key).value;
    assert key == section + "." + rem;
    ConfigKeyHasNoSpace(key);
    assert ' ' !in section by {
      forall i | 0 <= i < |section| ensures section[i] != ' ' {
        assert key[i] == section[i];
      }
    }
    if IsValidSectionName(section) {
      SectionNameWithoutSpace(section);
      PlainSectionAccepted(section, rem);
    } else {
      SubsectionAccepted(section, rem);
    }
  }

  /** Two key-name segments pass `setRawValue`'s checks. */
  lemma AcceptedTwo(p0: string, p1: string)
    requires IsValidKeyName(p0) && IsValidKeyName(p1)
    ensures ValidateKey(p0 + "." + p1) == Ok((p0, p1))
  {
    KeyNameHasNoDotOrSpace(p0);
    KeyNameHasNoDotOrSpace(p1);
    var key := p0 + "." + p1;
    TwoSegments(p0, p1);
    JoinedKeyNamesChars([p0, p1]);
    JoinOfTwo([p0, p1]);
    assert key[|p0|] == '.';
  }

  /** Three key-name segments pass `setRawValue`'s checks. */
  lemma AcceptedThree(p0: string, p1: string, p2: string)
    requires IsValidKeyName(p0) && IsValidKeyName(p1) && IsValidKeyName(p2)
    ensures ValidateKey(p0 + "." + p1 + "." + p2) == Ok((p0 + "." + p1, p2))
  {
    KeyNameHasNoDotOrSpace(p0);
    KeyNameHasNoDotOrSpace(p1);
    KeyNameHasNoDotOrSpace(p2);
    var key := p0 + "." + p1 + "." + p2;
    ThreeOrMoreSegments(p0, p1, p2);
    TwoSegments(p0, p1);
    JoinedKeyNamesChars([p0, p1, p2]);
    JoinOfThree([p0, p1, p2]);
    assert key[|p0|] == '.';
    var section := p0 + "." + p1;
    assert section[|p0|] == '.';
    assert IsValidSubsectionName(section);
  }

  /** `setRawValue` accepts a key exactly when it has two or three segments that
      are all key names, and then stores under (all but the last segment, last segment). */
  lemma ValidateKeyAccepts(key: string)
    ensures ValidateKey(key).Ok? <==> AcceptedKey(key)
    ensures ValidateKey(key).Ok? ==>
              var parts := Split(key, '.');
              ValidateKey(key).value == (Join(parts[..|parts| - 1], "."), parts[|parts| - 1])
  {
    if ValidateKey(key).Ok? {
      ValidatedIsAccepted(key);
    }
    if AcceptedKey(key) {
      AcceptedIsValidated(key);
    }
  }

  lemma AcceptedIsValidated(key: string)
    requires AcceptedKey(key)
    ensures ValidateKey(key).Ok?
  {
    var parts := Split(key, '.');
    JoinSplit(key, '.');
    if |parts| == 2 {
      JoinOfTwo(parts);
      AcceptedTwo(parts[0], parts[1]);
    } else {
      JoinOfThree(parts);
      AcceptedThree(parts[0], parts[1], parts[2]);
    }
  }

  lemma JoinOfTwo(parts: seq<string>)
    requires |parts| == 2
    ensures Join(parts, ".") == parts[0] + "." + parts[1]
  {
    assert parts[1..] == [parts[1]];
  }

  lemma JoinOfThree(parts: seq<string>)
    requires |parts| == 3
    ensures Join(parts, ".") == parts[0] + "." + parts[1] + "." + parts[2]
  {
    JoinOfTwo(parts[1..]);
    DotRegroup(parts[0], parts[1], parts[2]);
  }

  /** Four or more segments never pass, even when each one is a key name. */
  lemma FourSegmentsRejected(a: string, b: string, c: string, d: string)
    requires IsValidKeyName(a) && IsValidKeyName(b) && IsValidKeyName(c) && IsValidKeyName(d)
    ensures ValidateKey(a + "." + b + "." + c + "." + d).Fail?
  {
    KeyNameHasNoDotOrSpace(a);
    KeyNameHasNoDotOrSpace(b);
    KeyNameHasNoDotOrSpace(c);
    var key := a + "." + b + "." + c + "." + d;
    assert key == a + "." + (b + "." + (c + "." + d));
    SplitCons(a, '.', b + "." + (c + "." + d));
    SplitCons(b, '.', c + "." + d);
    SplitCons(c, '.', d);
    ValidateKeyAccepts(key);
  }

  /** A quoted subsection that holds a character outside `[a-zA-Z0-9_.-]` (a
      `/` in a submodule path, say) yields a full key through `BuildFullKey`
      that `ValidateKey` then refuses: such values can be read but never set. */
  lemma SubsectionWithForeignCharRejected(name: string, sub: string, key: string, i: nat)
    requires ' ' !in name
    requires i < |sub| && !IsConfigKeyChar(sub[i])
    ensures BuildFullKey(name + " \"" + sub + "\"", key) == name + "." + sub + "." + key
    ensures ValidateKey(name + "." + sub + "." + key).Fail?
  {
    var full := name + "." + sub + "." + key;
    assert ValidateKey(full).Fail? by {
      assert full == (name + ".") + sub + ("." + key);
      assert full[|name| + 1 + i] == sub[i];
      ForeignCharRejected(full, |name| + 1 + i);
    }
    BuildFullKeySubsection(name, sub, key);
  }

  /** One character outside `[a-zA-Z0-9_.-]` anywhere makes `ValidateKey` fail. */
  lemma ForeignCharRejected(key: string, j: nat)
    requires j < |key| && !IsConfigKeyChar(key[j])
    ensures ValidateKey(key).Fail?
  {
    assert !ConfigKeyCharsOnly(key);
  }
}
