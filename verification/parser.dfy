/** The config-file parser (parser.go): the three regular expressions that
    classify a line, the walk over the lines of a file that tracks the current
    section and stores every assignment, the line splitting of `bufio.Scanner`,
    and the reading of the NUL-separated listing `git config --list --null
    --show-origin` prints. */
module Parser {
  import opened Wrappers
  import opened Text
  import opened ConfigErrors
  import opened Keys
  import opened Quoting
  import opened Store
  import opened Options
  import opened Paths

  predicate AllRegexSpace(s: string)
  {
    forall i :: 0 <= i < |s| ==> IsRegexSpace(s[i])
  }

  /* ---------- Runs of characters ---------- */

  /** The end of the run of `p` characters in `s` that starts at `i`. */
  function Skip(s: string, i: nat, p: char -> bool): (j: nat)
    requires i <= |s|
    ensures i <= j <= |s|
    ensures forall k :: i <= k < j ==> p(s[k])
    ensures j == |s| || !p(s[j])
    decreases |s| - i
  {
    if i < |s| && p(s[i]) then Skip(s, i + 1, p) else i
  }

  /** A run that ends where `p` fails is the run `Skip` finds. */
  lemma {:induction false} SkipStops(s: string, i: nat, j: nat, p: char -> bool)
    requires i <= j <= |s|
    requires forall k :: i <= k < j ==> p(s[k])
    requires j == |s| || !p(s[j])
    ensures Skip(s, i, p) == j
    decreases j - i
  {
    if i < j {
      SkipStops(s, i + 1, j, p);
    }
  }

  /** A slice made of `p` characters and followed by a non-`p` one is a run `Skip` finds. */
  lemma SkipOverSlice(s: string, i: nat, j: nat, p: char -> bool)
    requires i <= j <= |s|
    requires forall k :: 0 <= k < j - i ==> p(s[i..j][k])
    requires j == |s| || !p(s[j])
    ensures Skip(s, i, p) == j
  {
    RunOfSlice(s, i, j, p);
    SkipStops(s, i, j, p);
  }

  lemma RunOfSlice(s: string, i: nat, j: nat, p: char -> bool)
    requires i <= j <= |s|
    requires forall k :: 0 <= k < j - i ==> p(s[i..j][k])
    ensures forall k :: i <= k < j ==> p(s[k])
  {
    forall k | i <= k < j ensures p(s[k]) {
      assert s[k] == s[i..j][k - i];
    }
  }

  /** Where the first character that is not `\s` sits (the end of `^\s*`). */
  function Indent(line: string): (i: nat)
    ensures i <= |line| && AllRegexSpace(line[..i])
    ensures i == |line| || !IsRegexSpace(line[i])
  {
    var i := Skip(line, 0, IsRegexSpace);
    assert forall k :: 0 <= k < i ==> line[..i][k] == line[k];
    i
  }

  /** Any run of `\s` at the start followed by something else ends at `Indent`. */
  lemma IndentAt(line: string, i: nat)
    requires i <= |line| && AllRegexSpace(line[..i])
    requires i == |line| || !IsRegexSpace(line[i])
    ensures Indent(line) == i
  {
    assert line[..i] == line[0..i];
    SkipOverSlice(line, 0, i, IsRegexSpace);
  }

  /* ---------- The three line patterns ---------- */

  /** `commentRegex`, `^\s*[#;]`. */
  predicate IsComment(line: string)
  {
    var i := Indent(line);
    i < |line| && (line[i] == '#' || line[i] == ';')
  }

  /** A line is a comment exactly when some run of `\s` at its start is
      followed by `#` or `;`. */
  lemma CommentIff(line: string)
    ensures IsComment(line) <==>
            exists k :: 0 <= k < |line| && AllRegexSpace(line[..k]) && (line[k] == '#' || line[k] == ';')
  {
    if k :| 0 <= k < |line| && AllRegexSpace(line[..k]) && (line[k] == '#' || line[k] == ';') {
      IndentAt(line, k);
    }
  }

  /** The parts of a match of `sectionRegex`, `^\s*\[([^\]]+)\]\s*$`;
      `name` is the captured group. */
  datatype HeaderMatch = HeaderMatch(lead: string, name: string, trail: string)

  predicate IsHeaderMatch(line: string, m: HeaderMatch)
  {
    && line == m.lead + "[" + m.name + "]" + m.trail
    && AllRegexSpace(m.lead) && AllRegexSpace(m.trail)
    && |m.name| > 0 && ']' !in m.name
  }

  /** `sectionRegex.FindStringSubmatch`. */
  function MatchHeader(line: string): (r: Option<HeaderMatch>)
    ensures r.Some? ==> IsHeaderMatch(line, r.value)
  {
    var i := Indent(line);
    if i == |line| || line[i] != '[' then None
    else
      match Cut(line[i + 1..], ']')
      case None => None
      case Some((name, trail)) =>
        if |name| > 0 && AllRegexSpace(trail) then
          HeaderFound(line, i, name, trail);
          Some(HeaderMatch(line[..i], name, trail))
        else None
  }

  lemma HeaderFound(line: string, i: nat, name: string, trail: string)
    requires i < |line| && line[i] == '[' && line[i + 1..] == name + [']'] + trail
    ensures line == line[..i] + "[" + name + "]" + trail
  {
    assert line == line[..i] + [line[i]] + line[i + 1..];
  }

  /** Whenever the pattern matches, `MatchHeader` finds that very match: the
      match is unique and nothing is missed. */
  lemma MatchHeaderComplete(line: string, m: HeaderMatch)
    ensures IsHeaderMatch(line, m) ==> MatchHeader(line) == Some(m)
  {
    if IsHeaderMatch(line, m) {
      HeaderSlices(line, m);
      IndentAt(line, |m.lead|);
      CutOfConcat(m.name, ']', m.trail);
    }
  }

  /** Where the parts of a header sit in the line. */
  lemma HeaderSlices(line: string, m: HeaderMatch)
    requires IsHeaderMatch(line, m)
    ensures |m.lead| < |line| && line[..|m.lead|] == m.lead && line[|m.lead|] == '['
    ensures line[|m.lead| + 1..] == m.name + [']'] + m.trail
  {
    var rest := m.name + [']'] + m.trail;
    assert line == m.lead + ['['] + rest;
  }

  /** A character `[^=\s]` admits. */
  predicate IsKeyRunChar(c: char)
  {
    c != '=' && !IsRegexSpace(c)
  }

  /** The parts of the match `keyValueRegex`, `^\s*([^=\s]+)\s*=\s*(.*)$`,
      reports: `key` and `value` are the captured groups. The greedy `\s*`
      before the value leaves the value without a leading `\s`, and `.` does
      not match a newline. */
  datatype KeyValueMatch = KeyValueMatch(lead: string, key: string, gap: string, pad: string, value: string)

  predicate IsKeyValueMatch(line: string, m: KeyValueMatch)
  {
    && line == m.lead + m.key + m.gap + "=" + m.pad + m.value
    && AllRegexSpace(m.lead) && AllRegexSpace(m.gap) && AllRegexSpace(m.pad)
    && |m.key| > 0 && (forall i :: 0 <= i < |m.key| ==> IsKeyRunChar(m.key[i]))
    && (|m.value| == 0 || !IsRegexSpace(m.value[0]))
    && '\n' !in m.value
  }

  /** `keyValueRegex.FindStringSubmatch`. */
  function MatchKeyValue(line: string): (r: Option<KeyValueMatch>)
    ensures r.Some? ==> IsKeyValueMatch(line, r.value)
  {
    var i0 := Indent(line);
    var i1 := Skip(line, i0, IsKeyRunChar);
    var i2 := Skip(line, i1, IsRegexSpace);
    if i1 == i0 || i2 == |line| || line[i2] != '=' then None
    else
      var i3 := Skip(line, i2 + 1, IsRegexSpace);
      if '\n' in line[i3..] then None
      else
        KeyValueFound(line, i0, i1, i2, i3);
        Some(KeyValueMatch(line[..i0], line[i0..i1], line[i1..i2], line[i2 + 1..i3], line[i3..]))
  }

  /** The pieces `MatchKeyValue` cuts form a match. */
  lemma KeyValueFound(line: string, i0: nat, i1: nat, i2: nat, i3: nat)
    requires i0 < i1 <= i2 < i3 <= |line| + 1 && i2 < |line| && i3 <= |line|
    requires forall k :: 0 <= k < i0 ==> IsRegexSpace(line[k])
    requires forall k :: i0 <= k < i1 ==> IsKeyRunChar(line[k])
    requires forall k :: i1 <= k < i2 ==> IsRegexSpace(line[k])
    requires line[i2] == '='
    requires forall k :: i2 + 1 <= k < i3 ==> IsRegexSpace(line[k])
    requires (i3 == |line| || !IsRegexSpace(line[i3])) && '\n' !in line[i3..]
    ensures IsKeyValueMatch(line, KeyValueMatch(line[..i0], line[i0..i1], line[i1..i2], line[i2 + 1..i3], line[i3..]))
  {
    assert line == line[..i0] + line[i0..i1] + line[i1..i2] + "=" + line[i2 + 1..i3] + line[i3..] by {
      assert line[i2..i2 + 1] == "=";
      assert line == line[..i0] + line[i0..i1] + line[i1..i2] + line[i2..i2 + 1] + line[i2 + 1..i3] + line[i3..];
    }
  }

  /** Whenever the pattern matches, `MatchKeyValue` finds the match Go reports. */
  lemma MatchKeyValueComplete(line: string, m: KeyValueMatch)
    ensures IsKeyValueMatch(line, m) ==> MatchKeyValue(line) == Some(m)
  {
    if IsKeyValueMatch(line, m) {
      KeyValueSlices(line, m);
      var i0 := |m.lead|;
      var i1 := i0 + |m.key|;
      var i2 := i1 + |m.gap|;
      var i3 := i2 + 1 + |m.pad|;
      SkipsAt(line, i0, i1, i2, i3);
      MatchOfParts(line, m, i0, i1, i2, i3);
    }
  }

  /** The match at known boundaries is the one `MatchKeyValue` returns. */
  lemma MatchOfParts(line: string, m: KeyValueMatch, i0: nat, i1: nat, i2: nat, i3: nat)
    requires i0 < i1 <= i2 < i3 <= |line|
    requires line[..i0] == m.lead && line[i0..i1] == m.key && line[i1..i2] == m.gap
    requires line[i2] == '=' && line[i2 + 1..i3] == m.pad && line[i3..] == m.value && '\n' !in m.value
    requires Indent(line) == i0 && Skip(line, i0, IsKeyRunChar) == i1
    requires Skip(line, i1, IsRegexSpace) == i2
    requires Skip(line, i2 + 1, IsRegexSpace) == i3
    ensures MatchKeyValue(line) == Some(m)
  {
    MatchAt(line, i0, i1, i2, i3);
    SameMatch(line, m, i0, i1, i2, i3);
  }

  lemma SameMatch(line: string, m: KeyValueMatch, i0: nat, i1: nat, i2: nat, i3: nat)
    requires i0 <= i1 <= i2 < i3 <= |line|
    requires line[..i0] == m.lead && line[i0..i1] == m.key && line[i1..i2] == m.gap
    requires line[i2 + 1..i3] == m.pad && line[i3..] == m.value
    ensures KeyValueMatch(line[..i0], line[i0..i1], line[i1..i2], line[i2 + 1..i3], line[i3..]) == m
  {
  }

  /** `MatchKeyValue` cuts at the ends of the runs it skips. */
  lemma MatchAt(line: string, i0: nat, i1: nat, i2: nat, i3: nat)
    requires i0 < i1 <= i2 < i3 <= |line|
    requires Indent(line) == i0 && Skip(line, i0, IsKeyRunChar) == i1
    requires Skip(line, i1, IsRegexSpace) == i2 && line[i2] == '='
    requires Skip(line, i2 + 1, IsRegexSpace) == i3 && '\n' !in line[i3..]
    ensures MatchKeyValue(line) == Some(KeyValueMatch(line[..i0], line[i0..i1], line[i1..i2], line[i2 + 1..i3], line[i3..]))
  {
  }

  /** Where the parts of a match sit in the line. */
  lemma KeyValueSlices(line: string, m: KeyValueMatch)
    requires IsKeyValueMatch(line, m)
    ensures var i0 := |m.lead|; var i1 := i0 + |m.key|; var i2 := i1 + |m.gap|; var i3 := i2 + 1 + |m.pad|;
            && i3 <= |line|
            && line[..i0] == m.lead && line[i0..i1] == m.key && line[i1..i2] == m.gap
            && line[i2] == '=' && line[i2 + 1..i3] == m.pad && line[i3..] == m.value
  {
  }

  /** The runs `MatchKeyValue` skips end exactly at the parts' boundaries. */
  lemma SkipsAt(line: string, i0: nat, i1: nat, i2: nat, i3: nat)
    requires i0 < i1 <= i2 < i3 <= |line|
    requires AllRegexSpace(line[..i0]) && AllRegexSpace(line[i1..i2]) && AllRegexSpace(line[i2 + 1..i3])
    requires forall k :: 0 <= k < i1 - i0 ==> IsKeyRunChar(line[i0..i1][k])
    requires line[i2] == '=' && (i3 == |line| || !IsRegexSpace(line[i3]))
    ensures Indent(line) == i0
    ensures Skip(line, i0, IsKeyRunChar) == i1
    ensures Skip(line, i1, IsRegexSpace) == i2
    ensures Skip(line, i2 + 1, IsRegexSpace) == i3
  {
    assert line[i0] == line[i0..i1][0];
    IndentAt(line, i0);
    if i1 < i2 {
      assert line[i1] == line[i1..i2][0];
    }
    SkipOverSlice(line, i0, i1, IsKeyRunChar);
    SkipOverSlice(line, i1, i2, IsRegexSpace);
    SkipOverSlice(line, i2 + 1, i3, IsRegexSpace);
  }

  /* ---------- Classifying a line ---------- */

  /** What `parseConfigReader` makes of one line: nothing, a new current
      section (trimmed), or a key and a value (both trimmed, the value still
      quoted). */
  datatype LineKind = Ignored | Header(name: string) | Assignment(key: string, value: string)

  /** The tests of `parseConfigReader`, in its order: empty or comment, then
      section header, then key-value; any other line is skipped silently. */
  function Classify(line: string): LineKind
  {
    if line == "" || IsComment(line) then Ignored
    else
      match MatchHeader(line)
      case Some(m) => Header(TrimSpace(m.name))
      case None =>
        match MatchKeyValue(line)
        case Some(m) => Assignment(TrimSpace(m.key), TrimSpace(m.value))
        case None => Ignored
  }

  /** A header line sets the section to its trimmed name. */
  lemma ClassifyHeader(line: string, m: HeaderMatch)
    requires IsHeaderMatch(line, m)
    ensures Classify(line) == Header(TrimSpace(m.name))
  {
    MatchHeaderComplete(line, m);
    HeaderSlices(line, m);
    IndentAt(line, |m.lead|);
    ClassifyHeaderAt(line, |m.lead|, m);
  }

  lemma ClassifyHeaderAt(line: string, i: nat, m: HeaderMatch)
    requires i < |line| && Indent(line) == i && line[i] == '['
    requires MatchHeader(line) == Some(m)
    ensures Classify(line) == Header(TrimSpace(m.name))
  {
  }

  /** A key-value line whose key does not start like a comment or a header
      assigns the trimmed value to the trimmed key. */
  lemma ClassifyAssignment(line: string, m: KeyValueMatch)
    requires IsKeyValueMatch(line, m)
    requires m.key[0] != '[' && m.key[0] != '#' && m.key[0] != ';'
    ensures Classify(line) == Assignment(TrimSpace(m.key), TrimSpace(m.value))
  {
    MatchKeyValueComplete(line, m);
    KeyValueSlices(line, m);
    assert line[|m.lead|] == m.key[0] && IsKeyRunChar(m.key[0]);
    IndentAt(line, |m.lead|);
    ClassifyAt(line, |m.lead|, m);
  }

  /** Every key-value line that is not a comment and does not match the
      header pattern is an assignment, whatever its key starts with: `[a] = b`
      assigns `b` to the key `[a]`. */
  lemma ClassifyKeyValueLine(line: string, m: KeyValueMatch)
    requires IsKeyValueMatch(line, m) && !IsComment(line)
    requires forall h :: !IsHeaderMatch(line, h)
    ensures Classify(line) == Assignment(TrimSpace(m.key), TrimSpace(m.value))
  {
    MatchKeyValueComplete(line, m);
    KeyValueSlices(line, m);
    assert line != "" by { assert line[|m.lead|] == m.key[0]; }
    assert MatchHeader(line).None?;
  }

  lemma ClassifyAt(line: string, i: nat, m: KeyValueMatch)
    requires i < |line| && Indent(line) == i
    requires line[i] != '[' && line[i] != '#' && line[i] != ';'
    requires MatchKeyValue(line) == Some(m)
    ensures Classify(line) == Assignment(TrimSpace(m.key), TrimSpace(m.value))
  {
  }

  /** A line is skipped exactly when it is empty, a comment, or matches
      neither the header nor the key-value pattern. */
  lemma ClassifyIgnored(line: string)
    ensures Classify(line) == Ignored <==>
            || line == "" || IsComment(line)
            || ((forall m :: !IsHeaderMatch(line, m)) && (forall m :: !IsKeyValueMatch(line, m)))
  {
    forall m ensures IsHeaderMatch(line, m) ==> MatchHeader(line) == Some(m) {
      MatchHeaderComplete(line, m);
    }
    forall m ensures IsKeyValueMatch(line, m) ==> MatchKeyValue(line) == Some(m) {
      MatchKeyValueComplete(line, m);
    }
  }

  /** The current section after a line of the given kind. */
  function SectionAfter(section: string, kind: LineKind): string
  {
    match kind
    case Header(name) => name
    case _ => section
  }

  /* ---------- The writes a file asks for ---------- */

  /** A request to store `value` under the dotted key `key`. */
  datatype Write = Write(key: string, value: string)

  /** `setRawValue` applied to each write in turn; `None` once one is rejected. */
  function Replay(c: Config, ws: seq<Write>): Option<Config>
    decreases |ws|
  {
    if |ws| == 0 then Some(c)
    else
      match SetRawValue(c, ws[0].key, ws[0].value)
      case Fail(_) => None
      case Ok(c') => Replay(c', ws[1..])
  }

  /** The value the last write to (section, key) stores, if any write does. */
  function LastValue(ws: seq<Write>, section: string, key: string): Option<string>
    decreases |ws|
  {
    if |ws| == 0 then None
    else if LastValue(ws[1..], section, key).Some? then LastValue(ws[1..], section, key)
    else if AcceptedKey(ws[0].key) && ParseConfigKey(ws[0].key) == Ok((section, key)) then Some(ws[0].value)
    else None
  }

  /** Replaying one list after another is replaying both. */
  lemma {:induction false} ReplayAppend(c: Config, a: seq<Write>, b: seq<Write>)
    ensures Replay(c, a + b) == if Replay(c, a).Some? then Replay(Replay(c, a).value, b) else None
    decreases |a|
  {
    if |a| > 0 {
      assert (a + b)[0] == a[0];
      assert (a + b)[1..] == a[1..] + b;
      match SetRawValue(c, a[0].key, a[0].value)
      case Fail(_) =>
      case Ok(c') => ReplayAppend(c', a[1..], b);
    } else {
      assert a + b == b;
    }
  }

  /** A replay is rejected exactly when one of its keys is not accepted. */
  lemma {:induction false} ReplayRejects(c: Config, ws: seq<Write>)
    ensures Replay(c, ws).None? <==> exists i :: 0 <= i < |ws| && !AcceptedKey(ws[i].key)
    decreases |ws|
  {
    if |ws| > 0 {
      match SetRawValue(c, ws[0].key, ws[0].value)
      case Fail(_) =>
      case Ok(c') =>
        ReplayRejects(c', ws[1..]);
        if i :| 0 <= i < |ws[1..]| && !AcceptedKey(ws[1..][i].key) {
          assert !AcceptedKey(ws[i + 1].key);
        }
        if i :| 0 <= i < |ws| && !AcceptedKey(ws[i].key) {
          assert i != 0;
          assert ws[i] == ws[1..][i - 1];
        }
    }
  }

  /** After a replay every key reads as its last write, or as before when
      nothing wrote it; the sources are untouched. */
  lemma {:induction false} ReplayLookup(c: Config, ws: seq<Write>, section: string, key: string)
    requires Replay(c, ws).Some?
    ensures Replay(c, ws).value.sources == c.sources
    ensures Lookup(Replay(c, ws).value, section, key) ==
            if LastValue(ws, section, key).Some? then LastValue(ws, section, key) else Lookup(c, section, key)
    decreases |ws|
  {
    if |ws| > 0 {
      var c' := SetRawValue(c, ws[0].key, ws[0].value).value;
      ReplayLookup(c', ws[1..], section, key);
    }
  }

  /** A replay keeps a store well formed. */
  lemma {:induction false} ReplayWellFormed(c: Config, ws: seq<Write>)
    requires WellFormed(c) && Replay(c, ws).Some?
    ensures WellFormed(Replay(c, ws).value)
    decreases |ws|
  {
    if |ws| > 0 {
      SetRawValueWellFormed(c, ws[0].key, ws[0].value);
      ReplayWellFormed(SetRawValue(c, ws[0].key, ws[0].value).value, ws[1..]);
    }
  }

  /** The write one line asks for under the current section: none unless it
      is an assignment whose value unquotes. */
  function LineWrites(section: string, kind: LineKind): seq<Write>
  {
    match kind
    case Assignment(key, value) =>
      (match ProcessQuotedValue(value)
       case Ok(v) => [Write(BuildFullKey(section, key), v)]
       case Fail(_) => [])
    case _ => []
  }

  /** The writes of a run of lines, the section carried from line to line. */
  function FileWrites(section: string, lines: seq<string>): seq<Write>
    decreases |lines|
  {
    if |lines| == 0 then []
    else
      var kind := Classify(lines[0]);
      LineWrites(section, kind) + FileWrites(SectionAfter(section, kind), lines[1..])
  }

  /** A line the parser accepts: anything but an assignment whose value does
      not unquote or whose full key `setRawValue` rejects. */
  predicate LineParses(section: string, kind: LineKind)
  {
    kind.Assignment? ==>
      ProcessQuotedValue(kind.value).Ok? && AcceptedKey(BuildFullKey(section, kind.key))
  }

  /** Every line of a run is accepted, each in the section the lines before
      it leave open. Whether a file parses does not depend on the store it is
      parsed into. */
  predicate LinesParse(section: string, lines: seq<string>)
    decreases |lines|
  {
    |lines| == 0
    || (LineParses(section, Classify(lines[0])) && LinesParse(SectionAfter(section, Classify(lines[0])), lines[1..]))
  }

  /* ---------- parseConfigReader ---------- */

  /** The `file:line` position a parse error reports. */
  function Position(source: string, n: nat): string
  {
    source + ":" + FormatNat(n)
  }

  /** One turn of the loop of `parseConfigReader` on a line of the given kind:
      the store and the current section after line number `n`, or the error
      that ends the parse. */
  function ParseLine(c: Config, section: string, kind: LineKind, source: string, n: nat): (r: Result<(Config, string), Error>)
    ensures r.Ok? ==> r.value.1 == SectionAfter(section, kind)
                      && Replay(c, LineWrites(section, kind)) == Some(r.value.0)
    ensures r.Fail? <==>
              && kind.Assignment?
              && (ProcessQuotedValue(kind.value).Fail? || !AcceptedKey(BuildFullKey(section, kind.key)))
    ensures r.Fail? ==>
              && r.error.Structured? && r.error.ce.op == "parse" && r.error.ce.section == ""
              && r.error.ce.source == Position(source, n)
              && (HasKind(r.error, InvalidKeyFormat) <==> ProcessQuotedValue(kind.value).Ok?)
    ensures r.Fail? ==> r.error == LineError(section, kind, source, n)
  {
    match kind
    case Ignored => Ok((c, section))
    case Header(name) => Ok((c, name))
    case Assignment(key, value) =>
      match ProcessQuotedValue(value)
      case Fail(e) =>
        Fail(Structured(ConfigError("parse", key, "", Position(source, n), Wrapped("invalid quoted value: ", e, ""))))
      case Ok(v) =>
        var full := BuildFullKey(section, key);
        match SetRawValue(c, full, v)
        case Fail(e) => Fail(Structured(ConfigError("parse", full, "", Position(source, n), e)))
        case Ok(c') => Ok((c', section))
  }

  /** The error a rejected assignment at line `n` gets: the unquoting error
      wrapped, or `setRawValue`'s error for the composed key. It does not
      depend on the store the line is parsed into. */
  function LineError(section: string, kind: LineKind, source: string, n: nat): Error
  {
    match kind
    case Assignment(key, value) =>
      (match ProcessQuotedValue(value)
       case Fail(e) => Structured(ConfigError("parse", key, "", Position(source, n), Wrapped("invalid quoted value: ", e, "")))
       case Ok(_) =>
         var full := BuildFullKey(section, key);
         Structured(ConfigError("parse", full, "", Position(source, n), KeyError(full))))
    case Header(_) => Structured(ConfigError("parse", "", "", Position(source, n), Sentinel(InvalidKeyFormat)))
    case Ignored => Structured(ConfigError("parse", "", "", Position(source, n), Sentinel(InvalidKeyFormat)))
  }

  /** The error `validateKey` gives a rejected key. */
  function KeyError(key: string): Error
  {
    match ValidateKey(key)
    case Fail(e) => e
    case Ok(_) => Sentinel(InvalidKeyFormat)
  }

  /** The loop of `parseConfigReader` from line number `n` on. */
  function ParseLines(c: Config, section: string, lines: seq<string>, source: string, n: nat): (r: Result<Config, Error>)
    ensures r.Ok? <==> LinesParse(section, lines)
    ensures r.Ok? ==> Replay(c, FileWrites(section, lines)) == Some(r.value)
    ensures r.Fail? ==> r.error.Structured? && r.error.ce.op == "parse"
                        && exists j :: 0 <= j < |lines| && FailsAt(section, lines, source, n, j, r.error)
    decreases |lines|
  {
    if |lines| == 0 then Ok(c)
    else
      var kind := Classify(lines[0]);
      match ParseLine(c, section, kind, source, n)
      case Fail(e) =>
        FirstLineBad(section, lines, source, n, e);
        Fail(e)
      case Ok((c', section')) =>
        var r := ParseLines(c', section', lines[1..], source, n + 1);
        ReplayAppend(c, LineWrites(section, kind), FileWrites(section', lines[1..]));
        if r.Fail? then
          LaterLineBad(section, lines, source, n, n + 1, r.error);
          r
        else r
  }

  /** The section the lines leave open, starting from `section`. */
  function SectionAfterLines(section: string, lines: seq<string>): string
    decreases |lines|
  {
    if |lines| == 0 then section else SectionAfterLines(SectionAfter(section, Classify(lines[0])), lines[1..])
  }

  /** A run of lines fails at line `j` with `err`: `j` is the first bad line,
      and `err` is the error that line gets in the section the lines before
      it leave open, reported at `source:(n + j)`. */
  ghost predicate FailsAt(section: string, lines: seq<string>, source: string, n: nat, j: nat, err: Error)
    requires j < |lines|
  {
    FirstBadLine(section, lines, j) && ErrorAt(section, lines, source, n, j, err)
  }

  /** `err` is the error line `j` gets in the section the lines before it
      leave open, reported at `source:(n + j)`. */
  predicate ErrorAt(section: string, lines: seq<string>, source: string, n: nat, j: nat, err: Error)
    requires j < |lines|
  {
    var open := SectionAfterLines(section, lines[..j]);
    && err.Structured? && err.ce.source == Position(source, n + j)
    && !LineParses(open, KindAt(lines, j))
    && err == LineError(open, KindAt(lines, j), source, n + j)
  }

  /** What line `j` of a run is; the same as classifying `lines[j]`
      (`KindAtClassify`), counted off one line at a time. */
  function KindAt(lines: seq<string>, j: nat): LineKind
    requires j < |lines|
  {
    if j == 0 then Classify(lines[0]) else KindAt(lines[1..], j - 1)
  }

  lemma {:induction false} KindAtClassify(lines: seq<string>, j: nat)
    requires j < |lines|
    ensures KindAt(lines, j) == Classify(lines[j])
  {
    if j > 0 {
      KindAtClassify(lines[1..], j - 1);
    }
  }

  /** Line `j` is the first of `lines` that does not parse: the lines before
      it do, and adding it breaks the run. */
  predicate FirstBadLine(section: string, lines: seq<string>, j: nat)
    requires j < |lines|
  {
    LinesParse(section, lines[..j]) && !LinesParse(section, lines[..j + 1])
  }

  lemma FirstLineBad(section: string, lines: seq<string>, source: string, n: nat, err: Error)
    requires |lines| > 0 && !LineParses(section, Classify(lines[0]))
    requires err == LineError(section, Classify(lines[0]), source, n)
    requires err.ce.source == Position(source, n)
    ensures FailsAt(section, lines, source, n, 0, err)
  {
    assert lines[..1][0] == lines[0];
    assert lines[..0] == [];
  }

  /** When the first line parses, the first bad line of the rest is the first
      bad line of the whole run, one further on, with the same error. */
  lemma LaterLineBad(section: string, lines: seq<string>, source: string, n: nat, next: nat, err: Error)
    requires |lines| > 0 && LineParses(section, Classify(lines[0])) && next == n + 1
    ensures forall j :: 0 <= j < |lines| - 1 && FailsAt(SectionAfter(section, Classify(lines[0])), lines[1..], source, next, j, err) ==>
              FailsAt(section, lines, source, n, j + 1, err)
  {
    var section' := SectionAfter(section, Classify(lines[0]));
    forall j | 0 <= j < |lines| - 1 && FailsAt(section', lines[1..], source, next, j, err)
      ensures FailsAt(section, lines, source, n, j + 1, err)
    {
      FirstBadShift(section, lines, j);
      SectionShift(section, lines, j);
    }
  }

  lemma FirstBadShift(section: string, lines: seq<string>, j: nat)
    requires j < |lines| - 1 && LineParses(section, Classify(lines[0]))
    requires FirstBadLine(SectionAfter(section, Classify(lines[0])), lines[1..], j)
    ensures FirstBadLine(section, lines, j + 1)
  {
    ShiftPrefix(lines, j);
    ConsParses(section, lines[0], lines[1..][..j], lines[..j + 1]);
    ConsParses(section, lines[0], lines[1..][..j + 1], lines[..j + 2]);
  }

  lemma SectionShift(section: string, lines: seq<string>, j: nat)
    requires j < |lines| - 1 && LineParses(section, Classify(lines[0]))
    ensures SectionAfterLines(section, lines[..j + 1])
            == SectionAfterLines(SectionAfter(section, Classify(lines[0])), lines[1..][..j])
  {
    ShiftPrefix(lines, j);
    ConsParses(section, lines[0], lines[1..][..j], lines[..j + 1]);
  }

  /** A run that starts with a line that parses parses as its rest does, in
      the section that line leaves open. */
  lemma ConsParses(section: string, line: string, rest: seq<string>, whole: seq<string>)
    requires |whole| > 0 && whole[0] == line && whole[1..] == rest
    requires LineParses(section, Classify(line))
    ensures LinesParse(section, whole) <==> LinesParse(SectionAfter(section, Classify(line)), rest)
    ensures SectionAfterLines(section, whole) == SectionAfterLines(SectionAfter(section, Classify(line)), rest)
  {
  }

  /** The prefixes of `lines` one and two past `j`, seen from the tail. */
  lemma ShiftPrefix(lines: seq<string>, j: nat)
    requires j < |lines| - 1
    ensures lines[..j + 1][0] == lines[0] && lines[..j + 1][1..] == lines[1..][..j]
    ensures lines[..j + 2][0] == lines[0] && lines[..j + 2][1..] == lines[1..][..j + 1]
    ensures lines[j + 1] == lines[1..][j]
  {
  }

  /** After a parse that succeeds, every key reads as the last assignment to
      it in the file, or as before when the file does not assign it. */
  lemma ParsedValues(c: Config, lines: seq<string>, source: string, section: string, key: string)
    requires ParseLines(c, "", lines, source, 1).Ok?
    ensures var r := ParseLines(c, "", lines, source, 1).value;
            var last := LastValue(FileWrites("", lines), section, key);
            && r.sources == c.sources
            && Lookup(r, section, key) == if last.Some? then last else Lookup(c, section, key)
  {
    ReplayLookup(c, FileWrites("", lines), section, key);
  }

  /** A key assigned before any section header has no dot, so the parse stops
      at that line with an invalid-key-format error naming the key. */
  lemma KeyOutsideSection(c: Config, line: string, rest: seq<string>, source: string, n: nat)
    requires Classify(line).Assignment? && '.' !in Classify(line).key
    requires ProcessQuotedValue(Classify(line).value).Ok?
    ensures var r := ParseLines(c, "", [line] + rest, source, n);
            && r.Fail? && HasKind(r.error, InvalidKeyFormat)
            && r.error.ce.key == Classify(line).key && r.error.ce.source == Position(source, n)
  {
    var lines := [line] + rest;
    assert lines[0] == line && lines[1..] == rest;
    DotlessAssignmentFails(c, Classify(line), source, n);
  }

  lemma DotlessAssignmentFails(c: Config, kind: LineKind, source: string, n: nat)
    requires kind.Assignment? && '.' !in kind.key
    requires ProcessQuotedValue(kind.value).Ok?
    ensures var r := ParseLine(c, "", kind, source, n);
            && r.Fail? && HasKind(r.error, InvalidKeyFormat)
            && r.error.ce.key == kind.key && r.error.ce.source == Position(source, n)
  {
    assert Split(kind.key, '.') == [kind.key];
  }

  /** A `[name]` header followed by `key = value` stores the value under
      (name, key) and leaves every other key as it was. */
  lemma HeaderThenAssignment(c: Config, name: string, key: string, value: string, source: string)
    requires IsValidKeyName(name) && IsValidKeyName(key)
    requires Trimmed(value) && '\n' !in value && !LooksQuoted(value)
    ensures var r := ParseLines(c, "", ["[" + name + "]", key + " = " + value], source, 1);
            && r.Ok? && Lookup(r.value, name, key) == Some(value)
            && forall s, k :: (s, k) != (name, key) ==> Lookup(r.value, s, k) == Lookup(c, s, k)
  {
    var header := "[" + name + "]";
    var line := key + " = " + value;
    NameClassifies(header, name);
    ValueClassifies(line, key, value);
    ComposeDecomposePlain(name, key);
    PlainSectionAccepted(name, key);
    KeyNameHasNoDotOrSpace(name);
    assert BuildFullKey(name, key) == name + "." + key;
    var after := ParseLine(c, name, Assignment(key, value), source, 2);
    assert after.Ok?;
    assert [header, line][1..] == [line];
    assert ParseLines(c, "", [header, line], source, 1) == ParseLines(c, name, [line], source, 2);
    assert ParseLines(c, name, [line], source, 2) == Ok(after.value.0);
  }

  lemma NameClassifies(header: string, name: string)
    requires IsValidKeyName(name) && header == "[" + name + "]"
    ensures Classify(header) == Header(name)
  {
    assert ']' !in name by {
      forall i | 0 <= i < |name| ensures name[i] != ']' {
        assert IsKeyChar(name[i]);
      }
    }
    assert header == "" + "[" + name + "]" + "";
    ClassifyHeader(header, HeaderMatch("", name, ""));
    KeyNameTrimmed(name);
  }

  lemma ValueClassifies(line: string, key: string, value: string)
    requires IsValidKeyName(key) && line == key + " = " + value
    requires Trimmed(value) && '\n' !in value
    ensures Classify(line) == Assignment(key, value)
  {
    var m := KeyValueMatch("", key, " ", " ", value);
    AssignmentMatch(key, value);
    assert line == m.lead + m.key + m.gap + "=" + m.pad + m.value;
    ClassifyAssignment(line, m);
    KeyNameTrimmed(key);
    TrimmedFixed(value);
  }

  lemma KeyNameTrimmed(name: string)
    requires IsValidKeyName(name)
    ensures TrimSpace(name) == name
  {
    assert IsKeyChar(name[0]) && IsKeyChar(name[|name| - 1]);
    TrimmedFixed(name);
  }

  lemma AssignmentMatch(key: string, value: string)
    requires IsValidKeyName(key) && Trimmed(value) && '\n' !in value
    ensures var m := KeyValueMatch("", key, " ", " ", value);
            && AllRegexSpace(m.lead) && AllRegexSpace(m.gap) && AllRegexSpace(m.pad)
            && |m.key| > 0 && (forall i :: 0 <= i < |m.key| ==> IsKeyRunChar(m.key[i]))
            && (|m.value| == 0 || !IsRegexSpace(m.value[0]))
            && m.key[0] != '[' && m.key[0] != '#' && m.key[0] != ';'
  {
    forall i | 0 <= i < |key| ensures IsKeyRunChar(key[i]) {
      assert IsKeyChar(key[i]);
    }
    assert IsKeyChar(key[0]);
  }

  /* ---------- bufio.Scanner ---------- */

  /** `bufio.ScanLines` drops one carriage return before the line end. */
  function DropCR(s: string): string
  {
    if |s| > 0 && s[|s| - 1] == '\r' then s[..|s| - 1] else s
  }

  /** The lines `bufio.Scanner` yields with `ScanLines`: the text is cut at each
      `\n`, one trailing `\r` is dropped from each piece, and a last piece
      without `\n` is a line only when it is not empty. */
  function ScanLines(text: string): (r: seq<string>)
    ensures forall i :: 0 <= i < |r| ==> '\n' !in r[i]
    ensures |r| == 0 <==> |text| == 0
    decreases |text|
  {
    if |text| == 0 then []
    else
      match Cut(text, '\n')
      case None => [DropCR(text)]
      case Some((line, rest)) => [DropCR(line)] + ScanLines(rest)
  }

  /** Lines written out, each followed by `eol`. */
  function Terminated(lines: seq<string>, eol: string): string
    decreases |lines|
  {
    if |lines| == 0 then "" else lines[0] + eol + Terminated(lines[1..], eol)
  }

  /** A line the scanner gives back unchanged. */
  predicate PlainLine(l: string)
  {
    '\n' !in l && (|l| == 0 || l[|l| - 1] != '\r')
  }

  /** Every line is one the scanner gives back unchanged. */
  predicate AllPlain(lines: seq<string>)
    decreases |lines|
  {
    |lines| == 0 || (PlainLine(lines[0]) && AllPlain(lines[1..]))
  }

  /** Lines ended by `\n` or `\r\n`, and an optional last line without an
      end, scan back to themselves. */
  lemma {:induction false} ScanTerminated(lines: seq<string>, eol: string, last: string)
    requires eol == "\n" || eol == "\r\n"
    requires AllPlain(lines) && PlainLine(last)
    ensures ScanLines(Terminated(lines, eol) + last) == lines + (if last == "" then [] else [last])
    decreases |lines|
  {
    if |lines| == 0 {
      assert Terminated(lines, eol) + last == last;
      ScanUnterminated(last);
    } else {
      ScanTerminated(lines[1..], eol, last);
      ScanStep(lines, eol, last, if last == "" then [] else [last]);
    }
  }

  /** One more terminated line in front adds one line in front. */
  lemma ScanStep(lines: seq<string>, eol: string, last: string, more: seq<string>)
    requires eol == "\n" || eol == "\r\n"
    requires |lines| > 0 && PlainLine(lines[0])
    requires ScanLines(Terminated(lines[1..], eol) + last) == lines[1..] + more
    ensures ScanLines(Terminated(lines, eol) + last) == lines + more
  {
    var x := Terminated(lines[1..], eol) + last;
    ScanOfCons(lines, eol, last);
    ScanFirstLine(lines[0], eol, x);
    ConsAppend(lines, more);
  }

  lemma ScanOfCons(lines: seq<string>, eol: string, last: string)
    requires |lines| > 0
    ensures ScanLines(Terminated(lines, eol) + last)
            == ScanLines(lines[0] + eol + (Terminated(lines[1..], eol) + last))
  {
    TerminatedCons(lines, eol, last);
  }

  lemma TerminatedCons(lines: seq<string>, eol: string, last: string)
    requires |lines| > 0
    ensures Terminated(lines, eol) + last == lines[0] + eol + (Terminated(lines[1..], eol) + last)
  {
  }

  lemma ConsAppend<T>(xs: seq<T>, more: seq<T>)
    requires |xs| > 0
    ensures [xs[0]] + (xs[1..] + more) == xs + more
  {
    assert xs == [xs[0]] + xs[1..];
  }

  /** A last line without an end scans to itself, and nothing to nothing. */
  lemma ScanUnterminated(last: string)
    requires PlainLine(last)
    ensures ScanLines(last) == if last == "" then [] else [last]
  {
    if last != "" {
      CutNone(last, '\n');
    }
  }

  lemma CutNone(s: string, c: char)
    requires c !in s
    ensures Cut(s, c) == None
  {
  }

  /** The scanner's first line is a line ended by `eol`. */
  lemma ScanFirstLine(l: string, eol: string, rest: string)
    requires eol == "\n" || eol == "\r\n"
    requires PlainLine(l)
    ensures ScanLines(l + eol + rest) == [l] + ScanLines(rest)
  {
    var piece := if eol == "\n" then l else l + ['\r'];
    assert l + eol + rest == piece + ['\n'] + rest;
    assert '\n' !in piece;
    CutOfConcat(piece, '\n', rest);
    assert DropCR(piece) == l;
  }

  /** What reading a config file gives: either `os.Open` fails, or the scanner
      delivers `text` and then stops, cleanly or with the error `stopped` (a
      failed read or an over-long line). */
  datatype File = OpenFailed(reason: Error) | Opened(text: string, stopped: Option<Error>)

  /** `parseConfigReader`: the lines in order, section tracking from an empty
      section, line numbers from 1, then the scanner's own error if it had one. */
  function ParseReader(c: Config, text: string, stopped: Option<Error>, source: string): (r: Result<Config, Error>)
    ensures r.Ok? <==> stopped.None? && ParseLines(c, "", ScanLines(text), source, 1).Ok?
    ensures r.Ok? ==> Replay(c, FileWrites("", ScanLines(text))) == Some(r.value)
    ensures r.Fail? ==> r.error.Structured? && r.error.ce.op == "parse"
    ensures !LinesParse("", ScanLines(text)) ==>
              && r.Fail? && r.error == ParseLines(c, "", ScanLines(text), source, 1).error
              && exists j :: 0 <= j < |ScanLines(text)| && FailsAt("", ScanLines(text), source, 1, j, r.error)
    ensures ParseLines(c, "", ScanLines(text), source, 1).Ok? && stopped.Some? ==>
              r == Fail(Structured(ConfigError("parse", "", "", source, Wrapped("scanner error: ", stopped.value, ""))))
  {
    match ParseLines(c, "", ScanLines(text), source, 1)
    case Fail(e) => Fail(e)
    case Ok(c') =>
      match stopped
      case None => Ok(c')
      case Some(e) => Fail(Structured(ConfigError("parse", "", "", source, Wrapped("scanner error: ", e, ""))))
  }

  /** A file `parseConfigFile` reads without error: it opens, the scanner
      stops cleanly, and every line parses. */
  predicate FileLoads(file: File)
  {
    file.Opened? && file.stopped.None? && LinesParse("", ScanLines(file.text))
  }

  /** `parseConfigFile`: open the file at `path`, then parse it with `path` as
      the source. */
  function ParseConfigFile(c: Config, path: string, file: File): (r: Result<Config, Error>)
    ensures file.OpenFailed? ==>
              r == Fail(Structured(ConfigError("parse", "", "", path, Wrapped("failed to open config file: ", file.reason, ""))))
    ensures r.Ok? <==> FileLoads(file)
    ensures r.Fail? ==> r.error.Structured? && r.error.ce.op == "parse"
    ensures r.Ok? ==> file.Opened? && Replay(c, FileWrites("", ScanLines(file.text))) == Some(r.value)
    ensures file.Opened? ==> r == ParseReader(c, file.text, file.stopped, path)
  {
    match file
    case OpenFailed(e) => Fail(Structured(ConfigError("parse", "", "", path, Wrapped("failed to open config file: ", e, ""))))
    case Opened(text, stopped) => ParseReader(c, text, stopped, path)
  }

  /** Whether a run of lines fails, and with which error, does not depend on
      the store the lines are parsed into. */
  lemma {:induction false} LinesErrorStoreFree(c: Config, d: Config, section: string, lines: seq<string>, source: string, n: nat)
    requires !LinesParse(section, lines)
    ensures ParseLines(c, section, lines, source, n) == ParseLines(d, section, lines, source, n)
    decreases |lines|
  {
    var kind := Classify(lines[0]);
    match ParseLine(c, section, kind, source, n)
    case Fail(_) =>
    case Ok((c', section')) =>
      var d' := ParseLine(d, section, kind, source, n).value.0;
      LinesErrorStoreFree(c', d', section', lines[1..], source, n + 1);
  }

  /** A file that does not load fails the same way into any store. */
  lemma FileErrorStoreFree(c: Config, d: Config, path: string, file: File)
    requires !FileLoads(file)
    ensures ParseConfigFile(c, path, file) == ParseConfigFile(d, path, file)
  {
    if file.Opened? && !LinesParse("", ScanLines(file.text)) {
      LinesErrorStoreFree(c, d, "", ScanLines(file.text), path, 1);
    }
  }

  /** The error `parseConfigFile` gives a file that does not load. */
  function FileError(path: string, file: File): (e: Error)
    requires !FileLoads(file)
    ensures forall c :: ParseConfigFile(c, path, file) == Fail(e)
  {
    forall c ensures ParseConfigFile(c, path, file) == ParseConfigFile(Empty, path, file) {
      FileErrorStoreFree(c, Empty, path, file);
    }
    ParseConfigFile(Empty, path, file).error
  }

  /* ---------- git config --list --null --show-origin ---------- */

  /** What `parseGitConfigLine` returns; empty strings for fields it did not find. */
  datatype ListingEntry = ListingEntry(key: string, value: string, source: string)

  /** `parseGitConfigLine`: an origin record is `file:`, the path, a tab and
      `key=value`; a record without the `file:` prefix is a bare `key=value`.
      The key is trimmed, the value kept as it is; the value starts after the
      first `=`, so it may hold more of them. */
  function ParseGitConfigLine(line: string): (r: ListingEntry)
    ensures !HasPrefix(line, "file:") ==> r.source == ""
    ensures HasPrefix(line, "file:") && '\t' !in line ==> r == ListingEntry("", "", "")
    ensures HasPrefix(line, "file:") && '\t' in line ==>
              '\t' !in r.source && HasPrefix(line, "file:" + r.source + "\t")
    ensures r.key != "" ==> Trimmed(r.key) && '=' !in r.key && '=' in line
    ensures r.key == "" && r.source == "" ==> r.value == "" || '=' in line
  {
    if HasPrefix(line, "file:") then
      match Cut(line, '\t')
      case None => ListingEntry("", "", "")
      case Some((head, rest)) =>
        assert head == line[..|head|];
        assert HasPrefix(head, "file:") by {
          assert head[..5] == line[..5];
        }
        var source := TrimPrefix(head, "file:");
        assert line == "file:" + source + "\t" + rest;
        match Cut(rest, '=')
        case None => ListingEntry("", "", source)
        case Some((k, v)) =>
          ListingEntry(TrimSpace(k), v, source)
    else
      match Cut(line, '=')
      case None => ListingEntry("", "", "")
      case Some((k, v)) =>
        ListingEntry(TrimSpace(k), v, "")
  }

  /** The record `parseGitConfigLine` reads for one entry with an origin. */
  function OriginRecord(e: ListingEntry): string
  {
    "file:" + e.source + "\t" + e.key + "=" + e.value
  }

  /** An entry whose origin record reads back as itself: a path without tab
      or NUL, a trimmed non-empty key without `=` or NUL, a value without NUL. */
  predicate Listable(e: ListingEntry)
  {
    && '\t' !in e.source && '\0' !in e.source
    && e.key != "" && Trimmed(e.key) && '=' !in e.key && '\0' !in e.key
    && '\0' !in e.value
  }

  /** Reading an origin record gives back the path, key and value written. */
  lemma OriginLine(e: ListingEntry)
    requires '\t' !in e.source && e.key != "" && Trimmed(e.key) && '=' !in e.key
    ensures ParseGitConfigLine(OriginRecord(e)) == e
  {
    var line := OriginRecord(e);
    var rest := e.key + "=" + e.value;
    assert line == ("file:" + e.source) + ['\t'] + rest;
    assert HasPrefix(line, "file:") by {
      assert line[..5] == "file:";
    }
    CutOfConcat("file:" + e.source, '\t', rest);
    assert TrimPrefix("file:" + e.source, "file:") == e.source by {
      assert ("file:" + e.source)[..5] == "file:";
      assert ("file:" + e.source)[5..] == e.source;
    }
    CutOfConcat(e.key, '=', e.value);
    TrimmedFixed(e.key);
  }

  /** Reading a bare `key=value` record gives the key and value and no source. */
  lemma BareLine(key: string, value: string)
    requires key != "" && Trimmed(key) && '=' !in key && !HasPrefix(key, "file:")
    ensures ParseGitConfigLine(key + "=" + value) == ListingEntry(key, value, "")
  {
    var line := key + "=" + value;
    assert line == key + ['='] + value;
    assert !HasPrefix(line, "file:") by {
      if |line| >= 5 && line[..5] == "file:" {
        if |key| >= 5 {
          assert key[..5] == line[..5];
        } else {
          assert line[|key|] == '=';
          assert line[|key|] == "file:"[|key|];
        }
      }
    }
    CutOfConcat(key, '=', value);
    TrimmedFixed(key);
  }

  /** The records of the listing: `strings.Split` at NUL after the trailing
      NULs are removed. */
  function ListingRecords(output: string): (r: seq<string>)
    ensures |r| >= 1
    ensures forall i :: 0 <= i < |r| ==> '\0' !in r[i]
    ensures Join(r, "\0") + TrailingNuls(output) == output
  {
    var body := TrimRightChar(output, '\0');
    JoinSplit(body, '\0');
    assert output == body + output[|body|..];
    Split(body, '\0')
  }

  /** The NULs `strings.TrimRight` removes from the end of the listing. */
  function TrailingNuls(output: string): (r: string)
    ensures forall i :: 0 <= i < |r| ==> r[i] == '\0'
  {
    var body := TrimRightChar(output, '\0');
    output[|body|..]
  }

  /** The write one record asks for: none for an empty record or one whose
      key comes out empty. */
  function RecordWrites(record: string): seq<Write>
  {
    if record == "" then []
    else
      var e := ParseGitConfigLine(record);
      if e.key == "" then [] else [Write(e.key, e.value)]
  }

  /** The writes of all records, in order. */
  function ListingWrites(records: seq<string>): seq<Write>
    decreases |records|
  {
    if |records| == 0 then [] else RecordWrites(records[0]) + ListingWrites(records[1..])
  }

  /** A record `parseGitConfigOutput` refuses: it has a key, and `setRawValue`
      rejects that key. */
  predicate RecordRejected(record: string)
  {
    RecordWrites(record) != [] && !AcceptedKey(ParseGitConfigLine(record).key)
  }

  /** The error a refused record stops the load with: a parse error naming
      the key, at the record's origin, wrapping the key's validation error. */
  function RecordError(record: string): Error
  {
    var e := ParseGitConfigLine(record);
    Structured(ConfigError("parse", e.key, "", e.source, KeyError(e.key)))
  }

  /** Record `i` is the first refused record. */
  predicate FirstRejected(records: seq<string>, i: nat)
  {
    && i < |records| && RecordRejected(records[i])
    && forall k :: 0 <= k < i ==> !RecordRejected(records[k])
  }

  /** No record is refused. */
  predicate NoneRejected(records: seq<string>)
  {
    forall k :: 0 <= k < |records| ==> !RecordRejected(records[k])
  }

  /** The loop of `parseGitConfigOutput`: each record with a key goes to
      `setRawValue`; the first rejected key stops the load with a parse error
      naming the key and the record's origin. */
  function ApplyListing(c: Config, records: seq<string>): (r: Result<Config, Error>)
    ensures r.Ok? <==> Replay(c, ListingWrites(records)).Some?
    ensures r.Ok? <==> NoneRejected(records)
    ensures r.Ok? ==> Replay(c, ListingWrites(records)) == Some(r.value)
    ensures r.Fail? ==> && r.error.Structured? && r.error.ce.op == "parse"
                        && r.error.ce.key != "" && !AcceptedKey(r.error.ce.key)
                        && HasKind(r.error, InvalidKeyFormat)
    ensures r.Fail? ==> exists i :: 0 <= i < |records| && FirstRejected(records, i) && r.error == RecordError(records[i])
    decreases |records|
  {
    if |records| == 0 then Ok(c)
    else
      var ws := RecordWrites(records[0]);
      ReplayAppend(c, ws, ListingWrites(records[1..]));
      NoneRejectedCons(records);
      if ws == [] then
        assert ws + ListingWrites(records[1..]) == ListingWrites(records[1..]);
        var r := ApplyListing(c, records[1..]);
        LaterRejected(records, r);
        r
      else
        var e := ParseGitConfigLine(records[0]);
        match SetRawValue(c, e.key, e.value)
        case Fail(err) =>
          assert FirstRejected(records, 0);
          Fail(Structured(ConfigError("parse", e.key, "", e.source, err)))
        case Ok(c') =>
          var r := ApplyListing(c', records[1..]);
          LaterRejected(records, r);
          r
  }

  lemma NoneRejectedCons(records: seq<string>)
    requires |records| > 0
    ensures NoneRejected(records) <==> !RecordRejected(records[0]) && NoneRejected(records[1..])
  {
    if !RecordRejected(records[0]) && NoneRejected(records[1..]) {
      forall k | 0 <= k < |records| ensures !RecordRejected(records[k]) {
        if k > 0 {
          assert records[k] == records[1..][k - 1];
        }
      }
    }
  }

  /** When the first record is not refused, the first refused record of the
      rest is the first of the whole listing, one further on. */
  lemma LaterRejected(records: seq<string>, r: Result<Config, Error>)
    requires |records| > 0 && !RecordRejected(records[0])
    requires r.Fail? ==> exists i :: 0 <= i < |records| - 1 && FirstRejected(records[1..], i) && r.error == RecordError(records[1..][i])
    ensures r.Fail? ==> exists i :: 0 <= i < |records| && FirstRejected(records, i) && r.error == RecordError(records[i])
  {
    if r.Fail? {
      var i :| 0 <= i < |records| - 1 && FirstRejected(records[1..], i) && r.error == RecordError(records[1..][i]);
      assert records[1..][i] == records[i + 1];
      forall k | 0 <= k < i + 1 ensures !RecordRejected(records[k]) {
        if k > 0 {
          assert records[k] == records[1..][k - 1];
        }
      }
      assert FirstRejected(records, i + 1);
    }
  }

  /** `parseGitConfigOutput` into an empty configuration. */
  function ParseGitConfigOutput(c: Config, output: string): (r: Result<Config, Error>)
    ensures r.Ok? <==> Replay(c, ListingWrites(ListingRecords(output))).Some?
    ensures r.Ok? ==> Replay(c, ListingWrites(ListingRecords(output))) == Some(r.value)
    ensures r.Fail? ==> r.error.Structured? && r.error.ce.op == "parse" && HasKind(r.error, InvalidKeyFormat)
    ensures r.Ok? <==> NoneRejected(ListingRecords(output))
    ensures r.Fail? ==> exists i :: 0 <= i < |ListingRecords(output)| && FirstRejected(ListingRecords(output), i) && r.error == RecordError(ListingRecords(output)[i])
  {
    ApplyListing(c, ListingRecords(output))
  }

  /** The origin records of some entries. */
  function Records(es: seq<ListingEntry>): (r: seq<string>)
    ensures |r| == |es|
    ensures forall i :: 0 <= i < |es| ==> r[i] == OriginRecord(es[i])
  {
    seq(|es|, i requires 0 <= i < |es| => OriginRecord(es[i]))
  }

  /** A listing in the format `parseGitConfigLine` reads: each origin record
      followed by a NUL. */
  function Listing(es: seq<ListingEntry>): string
    decreases |es|
  {
    if |es| == 0 then "" else OriginRecord(es[0]) + "\0" + Listing(es[1..])
  }

  /** The writes the entries ask for. */
  function EntryWrites(es: seq<ListingEntry>): (r: seq<Write>)
    ensures |r| == |es|
    ensures forall i :: 0 <= i < |es| ==> r[i] == Write(es[i].key, es[i].value)
  {
    seq(|es|, i requires 0 <= i < |es| => Write(es[i].key, es[i].value))
  }

  /** A listing is its records joined by NUL, with one NUL after the last. */
  lemma {:induction false} ListingJoin(es: seq<ListingEntry>)
    requires |es| > 0
    ensures Listing(es) == Join(Records(es), "\0") + "\0"
    decreases |es|
  {
    if |es| > 1 {
      ListingJoin(es[1..]);
      assert Records(es)[1..] == Records(es[1..]);
    }
  }

  /** A join ends with its last part. */
  lemma {:induction false} JoinEndsWith(parts: seq<string>, sep: string)
    requires |parts| > 0
    ensures var j := Join(parts, sep);
            var last := parts[|parts| - 1];
            |last| <= |j| && j[|j| - |last|..] == last
    decreases |parts|
  {
    if |parts| > 1 {
      JoinEndsWith(parts[1..], sep);
      var rest := Join(parts[1..], sep);
      assert Join(parts, sep) == (parts[0] + sep) + rest;
    }
  }

  /** Removing the trailing NUL of a text whose last character is not NUL. */
  lemma TrimOneNul(body: string)
    requires |body| > 0 && body[|body| - 1] != '\0'
    ensures TrimRightChar(body + "\0", '\0') == body
  {
    assert (body + "\0")[..|body|] == body;
  }

  /** An origin record of a listable entry is not empty and holds no NUL. */
  lemma OriginRecordNoNul(e: ListingEntry)
    requires Listable(e)
    ensures |OriginRecord(e)| > 0 && '\0' !in OriginRecord(e)
  {
    assert OriginRecord(e) == (("file:" + e.source) + ("\t" + e.key)) + ("=" + e.value);
    assert '\0' !in "file:" + e.source;
    assert '\0' !in "\t" + e.key;
    assert '\0' !in "=" + e.value;
  }

  /** No record of listable entries holds a NUL. */
  lemma RecordsNoNul(es: seq<ListingEntry>)
    requires forall i :: 0 <= i < |es| ==> Listable(es[i])
    ensures forall i :: 0 <= i < |Records(es)| ==> |Records(es)[i]| > 0 && '\0' !in Records(es)[i]
  {
    forall i | 0 <= i < |es| ensures |Records(es)[i]| > 0 && '\0' !in Records(es)[i] {
      OriginRecordNoNul(es[i]);
    }
  }

  /** A join of NUL-free parts whose last part is not empty does not end in NUL. */
  lemma JoinLastNotNul(rs: seq<string>)
    requires |rs| > 0
    requires |rs[|rs| - 1]| > 0 && '\0' !in rs[|rs| - 1]
    ensures |Join(rs, "\0")| > 0 && Join(rs, "\0")[|Join(rs, "\0")| - 1] != '\0'
  {
    JoinEndsWith(rs, "\0");
    var j := Join(rs, "\0");
    var last := rs[|rs| - 1];
    assert j[|j| - 1] == j[|j| - |last|..][|last| - 1];
  }

  /** The records of a listing of listable entries are their origin records. */
  lemma RecordsOfListing(es: seq<ListingEntry>)
    requires |es| > 0
    requires forall i :: 0 <= i < |es| ==> Listable(es[i])
    ensures ListingRecords(Listing(es)) == Records(es)
  {
    var rs := Records(es);
    ListingJoin(es);
    RecordsNoNul(es);
    JoinLastNotNul(rs);
    TrimOneNul(Join(rs, "\0"));
    SplitJoin(rs, '\0');
  }

  /** An origin record of a listable entry asks for that entry's write. */
  lemma OriginWrites(e: ListingEntry)
    requires Listable(e)
    ensures RecordWrites(OriginRecord(e)) == [Write(e.key, e.value)]
  {
    OriginLine(e);
    OriginRecordNoNul(e);
  }

  /** Each origin record asks for the write of its entry. */
  lemma {:induction false} WritesOfRecords(es: seq<ListingEntry>)
    requires forall i :: 0 <= i < |es| ==> Listable(es[i])
    ensures ListingWrites(Records(es)) == EntryWrites(es)
    decreases |es|
  {
    if |es| > 0 {
      WritesOfRecords(es[1..]);
      OriginWrites(es[0]);
      RecordsCons(es);
      EntryWritesCons(es);
    }
  }

  lemma RecordsCons(es: seq<ListingEntry>)
    requires |es| > 0
    ensures Records(es)[0] == OriginRecord(es[0]) && Records(es)[1..] == Records(es[1..])
  {
  }

  lemma EntryWritesCons(es: seq<ListingEntry>)
    requires |es| > 0
    ensures EntryWrites(es) == [Write(es[0].key, es[0].value)] + EntryWrites(es[1..])
  {
  }

  /** Reading back a listing of entries replays their writes in order: the
      load succeeds exactly when every key is accepted, and then holds what
      `setRawValue` makes of the entries one after another. */
  lemma GitListingRoundTrip(c: Config, es: seq<ListingEntry>)
    requires forall i :: 0 <= i < |es| ==> Listable(es[i])
    ensures var r := ParseGitConfigOutput(c, Listing(es));
            && (r.Ok? <==> forall i :: 0 <= i < |es| ==> AcceptedKey(es[i].key))
            && (r.Ok? ==> Replay(c, EntryWrites(es)) == Some(r.value))
  {
    if |es| == 0 {
      assert ListingRecords("") == [""];
      assert ListingWrites([""]) == [];
    } else {
      RecordsOfListing(es);
      WritesOfRecords(es);
    }
    ReplayRejects(c, EntryWrites(es));
  }

  /* ---------- parseFromGitCommand ---------- */

  /** Where a flag stands in the order `buildSourceFlags` emits them. */
  function FlagRank(flag: string): int
  {
    if flag == "--system" then 0 else if flag == "--global" then 1 else if flag == "--local" then 2 else 3
  }

  /** `buildSourceFlags`: one flag per selected system, global or local file, in
      that order; the worktree selection has no flag. */
  function BuildSourceFlags(o: ConfigOptions): (r: seq<string>)
    ensures ("--system" in r <==> o.includeSystem) && ("--global" in r <==> o.includeGlobal)
            && ("--local" in r <==> o.includeLocal)
    ensures forall i :: 0 <= i < |r| ==> FlagRank(r[i]) < 3
    ensures forall i, j :: 0 <= i < j < |r| ==> FlagRank(r[i]) < FlagRank(r[j])
  {
    (if o.includeSystem then ["--system"] else [])
    + (if o.includeGlobal then ["--global"] else [])
    + (if o.includeLocal then ["--local"] else [])
  }

  /** The arguments `git` is started with. */
  function GitArgs(o: ConfigOptions): (r: seq<string>)
    ensures |r| >= 4 && r[..4] == ["config", "--list", "--null", "--show-origin"]
    ensures r[4..] == BuildSourceFlags(o)
  {
    ["config", "--list", "--null", "--show-origin"] + BuildSourceFlags(o)
  }

  /** The directory `git` runs in: the repository path, or the process's own
      working directory (`None`) when no path is set. */
  function GitDir(o: ConfigOptions): (r: Option<string>)
    ensures r.Some? <==> o.repoPath != ""
    ensures r.Some? ==> r.value == o.repoPath
  {
    if o.repoPath != "" then Some(o.repoPath) else None
  }

  /** How a run of `git config` ends: with its standard output, with an exit
      error and its standard error (a non-zero status, or the process killed
      when its context ends), or failing to start (for instance a context that
      has already ended before the start). */
  datatype GitRun = Output(stdout: string) | ExitError(stderr: string) | StartError(err: Error)

  /** `parseFromGitCommand`, given how the run of `git GitArgs(o)` in
      `GitDir(o)` ended. */
  function ParseFromGitCommand(run: GitRun): (r: Result<Config, Error>)
    ensures r.Ok? <==> run.Output? && Replay(Empty, ListingWrites(ListingRecords(run.stdout))).Some?
    ensures r.Ok? ==> Replay(Empty, ListingWrites(ListingRecords(run.stdout))) == Some(r.value)
    ensures r.Ok? ==> r.value.sources == []
    ensures run.ExitError? ==>
              r == Fail(Structured(ConfigError("load", "", "", "", Plain("git config failed: " + run.stderr))))
    ensures run.StartError? ==>
              r == Fail(Structured(ConfigError("load", "", "", "", Wrapped("failed to execute git config: ", run.err, ""))))
    ensures run.Output? && r.Fail? ==> r.error.Structured? && r.error.ce.op == "parse"
    ensures run.Output? ==> (r.Ok? <==> NoneRejected(ListingRecords(run.stdout)))
    ensures run.Output? && r.Fail? ==>
              exists i :: 0 <= i < |ListingRecords(run.stdout)| && FirstRejected(ListingRecords(run.stdout), i) && r.error == RecordError(ListingRecords(run.stdout)[i])
  {
    match run
    case ExitError(stderr) => Fail(Structured(ConfigError("load", "", "", "", Plain("git config failed: " + stderr))))
    case StartError(e) => Fail(Structured(ConfigError("load", "", "", "", Wrapped("failed to execute git config: ", e, ""))))
    case Output(out) =>
      var r := ParseGitConfigOutput(Empty, out);
      if r.Ok? then
        ReplayLookup(Empty, ListingWrites(ListingRecords(out)), "", "");
        r
      else r
  }

  /* ---------- parseFromFiles ---------- */

  /** A `context.Context` as the loops see it: never done, or done from the
      `step`-th check on (checks are counted from 0, one before each file),
      `ctx.Err()` then being `cause`. */
  datatype Context = Background | CancelledAt(step: nat, cause: Error)

  /** The context is done at one of the `count` checks from `step` on. */
  predicate CancelsWithin(ctx: Context, step: nat, count: nat)
  {
    count > 0 && ctx.CancelledAt? && ctx.step < step + count
  }

  /** Who runs the loop over the files: a load reports a file's error as it
      is, a reload wraps it with the file's path. */
  datatype Caller = Loading | Reloading

  function FileFailure(caller: Caller, path: string, e: Error): Error
  {
    match caller
    case Loading => e
    case Reloading => Wrapped("failed to reload from " + path + ": ", e, "")
  }

  /** The writes all the files ask for, file after file. */
  function FilesWrites(sources: seq<ConfigSource>, fs: string -> File): seq<Write>
    decreases |sources|
  {
    if |sources| == 0 then []
    else
      var f := fs(sources[0].path);
      (if f.Opened? then FileWrites("", ScanLines(f.text)) else []) + FilesWrites(sources[1..], fs)
  }

  /** `err` is what the loop reports when one of the files fails to parse. */
  ghost predicate FailedOn(caller: Caller, sources: seq<ConfigSource>, err: Error)
  {
    exists i, e: Error :: 0 <= i < |sources| && e.Structured? && e.ce.op == "parse"
                          && err == FileFailure(caller, sources[i].path, e)
  }

  lemma FailedOnTail(caller: Caller, sources: seq<ConfigSource>, err: Error)
    requires |sources| > 0
    ensures FailedOn(caller, sources[1..], err) ==> FailedOn(caller, sources, err)
  {
    if FailedOn(caller, sources[1..], err) {
      var i, e: Error :| 0 <= i < |sources[1..]| && e.Structured? && e.ce.op == "parse"
                         && err == FileFailure(caller, sources[1..][i].path, e);
      assert sources[1..][i] == sources[i + 1];
    }
  }

  /** Every file loads. */
  predicate AllLoad(sources: seq<ConfigSource>, fs: string -> File)
  {
    forall i :: 0 <= i < |sources| ==> FileLoads(fs(sources[i].path))
  }

  /** The loop stops at file `i` with `err`: the files before it load and no
      check before it finds the context done; then either the check before
      file `i` does, and `err` is the context's cause, or file `i` does not
      load, and `err` is its own error as `caller` reports it. */
  predicate StopsAt(caller: Caller, sources: seq<ConfigSource>, fs: string -> File, ctx: Context, step: nat, i: nat, err: Error)
    requires i < |sources|
  {
    && AllLoad(sources[..i], fs)
    && !CancelsWithin(ctx, step, i)
    && if ctx.CancelledAt? && ctx.step <= step + i then err == ctx.cause
       else
         var f := fs(sources[i].path);
         !FileLoads(f) && err == FileFailure(caller, sources[i].path, FileError(sources[i].path, f))
  }

  /** When the first file loads and the first check passes, where the rest of
      the loop stops is where the whole loop stops, one file further on. */
  lemma LaterStop(caller: Caller, sources: seq<ConfigSource>, fs: string -> File, ctx: Context, step: nat, next: nat, err: Error)
    requires |sources| > 0 && FileLoads(fs(sources[0].path)) && next == step + 1
    requires !(ctx.CancelledAt? && ctx.step <= step)
    ensures forall i :: 0 <= i < |sources| - 1 && StopsAt(caller, sources[1..], fs, ctx, next, i, err) ==>
              StopsAt(caller, sources, fs, ctx, step, i + 1, err)
  {
    forall i | 0 <= i < |sources| - 1 && StopsAt(caller, sources[1..], fs, ctx, next, i, err)
      ensures StopsAt(caller, sources, fs, ctx, step, i + 1, err)
    {
      assert sources[1..][i] == sources[i + 1];
      AllLoadCons(sources, fs, i);
    }
  }

  lemma AllLoadCons(sources: seq<ConfigSource>, fs: string -> File, i: nat)
    requires i < |sources| && FileLoads(fs(sources[0].path)) && AllLoad(sources[1..][..i], fs)
    ensures AllLoad(sources[..i + 1], fs)
  {
    var prefix := sources[..i + 1];
    forall k | 0 <= k < |prefix| ensures FileLoads(fs(prefix[k].path)) {
      if k > 0 {
        assert prefix[k] == sources[1..][..i][k - 1];
      }
    }
  }

  /** The loop of `parseFromFiles` (and of `ReloadWithContext`): before each
      file the context is checked, then the file is parsed into the store and
      its source recorded. `fs` gives what reading each path yields. */
  function ParseSources(caller: Caller, c: Config, sources: seq<ConfigSource>, fs: string -> File, ctx: Context, step: nat)
    : (r: Result<Config, Error>)
    ensures r.Ok? <==> !CancelsWithin(ctx, step, |sources|) && AllLoad(sources, fs)
    ensures r.Ok? ==> r.value.sources == c.sources + sources
    ensures r.Ok? ==> var w := Replay(c, FilesWrites(sources, fs));
                      w.Some? && w.value.sections == r.value.sections
    ensures r.Fail? ==>
              || (ctx.CancelledAt? && r.error == ctx.cause)
              || FailedOn(caller, sources, r.error)
    ensures r.Fail? ==> exists i :: 0 <= i < |sources| && StopsAt(caller, sources, fs, ctx, step, i, r.error)
    decreases |sources|
  {
    if |sources| == 0 then Ok(c)
    else if ctx.CancelledAt? && ctx.step <= step then
      assert StopsAt(caller, sources, fs, ctx, step, 0, ctx.cause);
      Fail(ctx.cause)
    else
      var s := sources[0];
      match ParseConfigFile(c, s.path, fs(s.path))
      case Fail(e) =>
        assert !FileLoads(fs(sources[0].path));
        assert StopsAt(caller, sources, fs, ctx, step, 0, FileFailure(caller, s.path, e));
        Fail(FileFailure(caller, s.path, e))
      case Ok(c1) =>
        var c2 := c1.(sources := c1.sources + [s]);
        var r := ParseSources(caller, c2, sources[1..], fs, ctx, step + 1);
        SourcesStep(c, c1, c2, sources, fs);
        if r.Fail? then
          FailedOnTail(caller, sources, r.error);
          LaterStop(caller, sources, fs, ctx, step, step + 1, r.error);
          r
        else
          assert c2.sources + sources[1..] == (c1.sources + [s]) + sources[1..];
          SourcesOk(c, c1, sources, fs, r.value);
          r
  }

  /** One file read into `c` giving `c1`, its source recorded, and the rest of
      the files read after it: the sources and the sections come out as the
      whole list asks. */
  lemma SourcesOk(c: Config, c1: Config, sources: seq<ConfigSource>, fs: string -> File, r: Config)
    requires |sources| > 0 && fs(sources[0].path).Opened?
    requires Replay(c, FileWrites("", ScanLines(fs(sources[0].path).text))) == Some(c1)
    requires r.sources == (c1.sources + [sources[0]]) + sources[1..]
    requires Replay(c1.(sources := c1.sources + [sources[0]]), FilesWrites(sources[1..], fs)).Some?
    requires Replay(c1.(sources := c1.sources + [sources[0]]), FilesWrites(sources[1..], fs)).value.sections == r.sections
    ensures r.sources == c.sources + sources
    ensures Replay(c, FilesWrites(sources, fs)).Some?
    ensures Replay(c, FilesWrites(sources, fs)).value.sections == r.sections
  {
    var first := FileWrites("", ScanLines(fs(sources[0].path).text));
    var rest := FilesWrites(sources[1..], fs);
    ReplayLookup(c, first, "", "");
    ConsSources(c.sources, sources, r.sources);
    FilesWritesCons(sources, fs);
    ReplayThrough(c, c1, c1.(sources := c1.sources + [sources[0]]), first, rest, r);
  }

  lemma ConsSources(before: seq<ConfigSource>, sources: seq<ConfigSource>, after: seq<ConfigSource>)
    requires |sources| > 0 && after == (before + [sources[0]]) + sources[1..]
    ensures after == before + sources
  {
    assert sources == [sources[0]] + sources[1..];
  }

  lemma FilesWritesCons(sources: seq<ConfigSource>, fs: string -> File)
    requires |sources| > 0 && fs(sources[0].path).Opened?
    ensures FilesWrites(sources, fs) == FileWrites("", ScanLines(fs(sources[0].path).text)) + FilesWrites(sources[1..], fs)
  {
  }

  /** Replaying `first` then `rest`, with the sources changed in between. */
  lemma ReplayThrough(c: Config, c1: Config, c2: Config, first: seq<Write>, rest: seq<Write>, r: Config)
    requires Replay(c, first) == Some(c1) && c2.sections == c1.sections
    requires Replay(c2, rest).Some? && Replay(c2, rest).value.sections == r.sections
    ensures Replay(c, first + rest).Some? && Replay(c, first + rest).value.sections == r.sections
  {
    ReplayAppend(c, first, rest);
    ReplayIgnoresSources(c1, c2, rest);
  }

  /** One file read: the rest of the files all load exactly when all of them
      do, given that the first one does. */
  lemma SourcesStep(c: Config, c1: Config, c2: Config, sources: seq<ConfigSource>, fs: string -> File)
    requires |sources| > 0 && FileLoads(fs(sources[0].path))
    ensures AllLoad(sources, fs) <==> AllLoad(sources[1..], fs)
  {
    if AllLoad(sources[1..], fs) {
      forall i | 0 <= i < |sources| ensures FileLoads(fs(sources[i].path)) {
        if i > 0 {
          assert sources[i] == sources[1..][i - 1];
        }
      }
    }
  }

  /** The replay of writes ignores the recorded sources: it fails or succeeds
      alike, and builds the same sections. */
  lemma {:induction false} ReplayIgnoresSources(c: Config, d: Config, ws: seq<Write>)
    requires c.sections == d.sections
    ensures Replay(c, ws).Some? <==> Replay(d, ws).Some?
    ensures Replay(c, ws).Some? ==> Replay(c, ws).value.sections == Replay(d, ws).value.sections
    decreases |ws|
  {
    if |ws| > 0 {
      var w := ws[0];
      if AcceptedKey(w.key) {
        var c' := SetRawValue(c, w.key, w.value).value;
        var d' := SetRawValue(d, w.key, w.value).value;
        SetRawValueSections(c, d, w.key, w.value);
        ReplayIgnoresSources(c', d', ws[1..]);
      }
    }
  }

  /** `setRawValue` reads and writes only the sections. */
  lemma SetRawValueSections(c: Config, d: Config, key: string, value: string)
    requires c.sections == d.sections && AcceptedKey(key)
    ensures SetRawValue(c, key, value).value.sections == SetRawValue(d, key, value).value.sections
  {
    var (s, k) := ParseConfigKey(key).value;
    assert SectionOf(c, s) == SectionOf(d, s);
  }

  /** `parseFromFiles`: the selected files in order into a fresh store. */
  function ParseFromFiles(env: Env, o: ConfigOptions, fs: string -> File, ctx: Context): (r: Result<Config, Error>)
    ensures r.Ok? <==> !CancelsWithin(ctx, 0, |AllConfigPaths(env, o)|) && AllLoad(AllConfigPaths(env, o), fs)
    ensures r.Ok? ==> r.value.sources == AllConfigPaths(env, o)
    ensures r.Ok? ==> var w := Replay(Empty, FilesWrites(AllConfigPaths(env, o), fs));
                      w.Some? && w.value.sections == r.value.sections
    ensures r.Fail? ==> (ctx.CancelledAt? && r.error == ctx.cause) || FailedOn(Loading, AllConfigPaths(env, o), r.error)
    ensures r.Fail? ==> exists i :: 0 <= i < |AllConfigPaths(env, o)| && StopsAt(Loading, AllConfigPaths(env, o), fs, ctx, 0, i, r.error)
  {
    ParseSources(Loading, Empty, AllConfigPaths(env, o), fs, ctx, 0)
  }

  /** A load and a reload of the same files agree whenever the load succeeds:
      they differ only in how they wrap a file's error. */
  lemma {:induction false} ReloadingAgrees(c: Config, sources: seq<ConfigSource>, fs: string -> File, ctx: Context, step: nat)
    requires ParseSources(Loading, c, sources, fs, ctx, step).Ok?
    ensures ParseSources(Reloading, c, sources, fs, ctx, step) == ParseSources(Loading, c, sources, fs, ctx, step)
    decreases |sources|
  {
    if |sources| > 0 {
      var s := sources[0];
      var c1 := ParseConfigFile(c, s.path, fs(s.path)).value;
      ReloadingAgrees(c1.(sources := c1.sources + [s]), sources[1..], fs, ctx, step + 1);
    }
  }
}
