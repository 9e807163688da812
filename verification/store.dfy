/** The configuration store shared by git.go and gitcfg.go: a map from section
    name to a map from key name to raw value, plus the ordered list of sources
    it was loaded from. Writes go through `setRawValue`; reads through `Get`
    and the accessors. The mutex of the Go type is not modelled: every
    operation is one atomic step on an immutable value. */
module Store {
  import opened Wrappers
  import opened Text
  import opened ConfigErrors
  import opened Keys
  import opened Values

  type Sections = map<string, map<string, string>>

  /** `ConfigSourceType` is a Go `int`; the four named values are 0 to 3. */
  const SourceTypeSystem: int := 0
  const SourceTypeGlobal: int := 1
  const SourceTypeLocal: int := 2
  const SourceTypeWorktree: int := 3

  /** `ConfigSourceType.String`. */
  function SourceTypeName(t: int): (r: string)
    ensures !(0 <= t <= 3) ==> r == "unknown"
    ensures 0 <= t <= 3 ==> r != "unknown" && r != ""
  {
    if t == SourceTypeSystem then "system"
    else if t == SourceTypeGlobal then "global"
    else if t == SourceTypeLocal then "local"
    else if t == SourceTypeWorktree then "worktree"
    else "unknown"
  }

  /** The four named source types print under four different names. */
  lemma SourceTypeNamesDistinct(a: int, b: int)
    requires 0 <= a <= 3 && 0 <= b <= 3 && a != b
    ensures SourceTypeName(a) != SourceTypeName(b)
  {
    var x := SourceTypeName(a);
    var y := SourceTypeName(b);
    assert |x| != |y| || x[0] != y[0];
  }

  datatype ConfigSource = ConfigSource(typ: int, path: string)

  datatype Config = Config(sections: Sections, sources: seq<ConfigSource>)

  /** A freshly made `Config`: no sections and no sources. */
  const Empty: Config := Config.Config(map[], [])

  /** The key map of a section, empty when the section is absent. */
  function SectionOf(c: Config, section: string): map<string, string>
  {
    if section in c.sections then c.sections[section] else map[]
  }

  /** The raw value stored under (section, key), if any. */
  function Lookup(c: Config, section: string, key: string): Option<string>
  {
    if section in c.sections && key in c.sections[section] then Some(c.sections[section][key])
    else None
  }

  /** The shape every store built through `setRawValue` has: section names are
      valid (at most one dot), key names are valid, and no section is empty. */
  predicate WellFormed(c: Config)
  {
    forall s :: s in c.sections ==>
      && AtMostOneDot(s)
      && (IsValidSectionName(s) || IsValidSubsectionName(s))
      && c.sections[s] != map[]
      && forall k :: k in c.sections[s] ==> IsValidKeyName(k)
  }

  /* ---------- setRawValue ---------- */

  /** The map write at the end of `setRawValue`: the section is created when
      missing and the key set in it; nothing else changes. */
  function Put(c: Config, s: string, k: string, value: string): (r: Config)
    ensures r.sources == c.sources
    ensures Lookup(r, s, k) == Some(value)
    ensures r.sections.Keys == c.sections.Keys + {s}
    ensures forall s', k' :: (s', k') != (s, k) ==> Lookup(r, s', k') == Lookup(c, s', k')
  {
    Config.Config(c.sections[s := SectionOf(c, s)[k := value]], c.sources)
  }

  /** `setRawValue`: validate the key, then store the value under its
      (section, key name), creating the section when it is missing. */
  function SetRawValue(c: Config, key: string, value: string): (r: Result<Config, Error>)
    ensures r.Fail? <==> !AcceptedKey(key)
    ensures r.Fail? ==> HasKind(r.error, InvalidKeyFormat)
    ensures r.Fail? ==> ValidateKey(key).Fail? && r.error == ValidateKey(key).error
    ensures r.Ok? ==> r.value.sources == c.sources
    ensures r.Ok? ==>
              var (s, k) := ParseConfigKey(key).value;
              && Lookup(r.value, s, k) == Some(value)
              && r.value.sections.Keys == c.sections.Keys + {s}
              && (forall s', k' :: (s', k') != (s, k) ==> Lookup(r.value, s', k') == Lookup(c, s', k'))
  {
    ValidateKeyAccepts(key);
    match ValidateKey(key)
    case Fail(e) => Fail(e)
    case Ok((s, k)) => Ok(Put(c, s, k, value))
  }

  /** Writing keeps a store well formed. */
  lemma SetRawValueWellFormed(c: Config, key: string, value: string)
    requires WellFormed(c) && SetRawValue(c, key, value).Ok?
    ensures WellFormed(SetRawValue(c, key, value).value)
  {
    var (s, k) := ValidateKey(key).value;
    PutWellFormed(c, s, k, value);
  }

  lemma PutWellFormed(c: Config, s: string, k: string, value: string)
    requires WellFormed(c) && AtMostOneDot(s) && (IsValidSectionName(s) || IsValidSubsectionName(s))
    requires IsValidKeyName(k)
    ensures WellFormed(Put(c, s, k, value))
  {
    var row := SectionOf(c, s)[k := value];
    RowKeysValid(c, s, k, value);
    assert k in row;
    UpdateWellFormed(c, s, row);
  }

  lemma RowKeysValid(c: Config, s: string, k: string, value: string)
    requires WellFormed(c) && IsValidKeyName(k)
    ensures forall k' :: k' in SectionOf(c, s)[k := value] ==> IsValidKeyName(k')
  {
    forall k' | k' in SectionOf(c, s)[k := value] ensures IsValidKeyName(k') {
      if k' != k { assert k' in c.sections[s]; }
    }
  }

  lemma UpdateWellFormed(c: Config, s: string, row: map<string, string>)
    requires WellFormed(c) && AtMostOneDot(s) && (IsValidSectionName(s) || IsValidSubsectionName(s))
    requires row != map[] && forall k :: k in row ==> IsValidKeyName(k)
    ensures WellFormed(Config.Config(c.sections[s := row], c.sources))
  {
    var m := c.sections[s := row];
    forall s' | s' in m
      ensures && AtMostOneDot(s')
              && (IsValidSectionName(s') || IsValidSubsectionName(s'))
              && m[s'] != map[]
              && forall k :: k in m[s'] ==> IsValidKeyName(k)
    {
      if s' != s {
        assert m[s'] == c.sections[s'];
      }
    }
  }

  /* ---------- Get and GetWithDefault ---------- */

  /** The error `Get` reports: operation "get", no source. */
  function GetError(key: string, section: string, err: Error): Error
  {
    Structured(ConfigError("get", key, section, "", err))
  }

  /** `Get[T]`: decompose the key, find the section, find the key, convert. */
  function Get(c: Config, key: string, t: Target): (r: Result<Value, Error>)
    ensures r.Ok? ==> Conforms(r.value, t)
    ensures r.Fail? ==> r.error.Structured? && r.error.ce.op == "get" && r.error.ce.source == ""
    ensures '.' !in key ==> r.Fail? && HasKind(r.error, InvalidKeyFormat) && r.error.ce.key == key
    ensures '.' in key ==>
              var (s, k) := ParseConfigKey(key).value;
              && (r.Fail? ==> r.error.ce.section == s && r.error.ce.key == k && !HasKind(r.error, InvalidKeyFormat))
              && (r.Fail? && HasKind(r.error, SectionNotFound) <==> s !in c.sections)
              && (r.Fail? && HasKind(r.error, KeyNotFound) <==> s in c.sections && k !in c.sections[s])
              && (r.Fail? && HasKind(r.error, InvalidValue) <==>
                    Lookup(c, s, k).Some? && ConvertValue(Lookup(c, s, k).value, t).Fail?)
              && (r.Ok? <==> Lookup(c, s, k).Some? && ConvertValue(Lookup(c, s, k).value, t).Ok?)
              && (r.Ok? ==> r.value == ConvertValue(Lookup(c, s, k).value, t).value)
  {
    match ParseConfigKey(key)
    case Fail(e) => Fail(GetError(key, "", e))
    case Ok((s, k)) =>
      if s !in c.sections then Fail(GetError(k, s, Sentinel(SectionNotFound)))
      else if k !in c.sections[s] then Fail(GetError(k, s, Sentinel(KeyNotFound)))
      else
        match ConvertValue(c.sections[s][k], t)
        case Ok(v) => Ok(v)
        case Fail(e) =>
          ConversionKind(c.sections[s][k], t);
          Fail(GetError(k, s, Wrapped("type conversion failed: ", e, "")))
  }

  /** A failed conversion is only ever an invalid-value error. */
  lemma ConversionKind(value: string, t: Target)
    requires ConvertValue(value, t).Fail?
    ensures var e := ConvertValue(value, t).error;
            !HasKind(e, SectionNotFound) && !HasKind(e, KeyNotFound) && !HasKind(e, InvalidKeyFormat)
  {
  }

  /** After a successful write, reading the key as a string gives the value back. */
  lemma SetThenGet(c: Config, key: string, value: string)
    requires SetRawValue(c, key, value).Ok?
    ensures Get(SetRawValue(c, key, value).value, key, TString) == Ok(VString(value))
  {
  }

  /** A write leaves the read of every other key as it was, except for a key
      of the section the write opens (see `SetOpensSection`). */
  lemma SetKeepsOthers(c: Config, key: string, value: string, other: string, t: Target)
    requires SetRawValue(c, key, value).Ok? && '.' in other
    requires ParseConfigKey(other).value != ParseConfigKey(key).value
    requires var (s, _) := ParseConfigKey(other).value; s in c.sections || s != ParseConfigKey(key).value.0
    ensures Get(SetRawValue(c, key, value).value, other, t) == Get(c, other, t)
  {
  }

  /** A write into a section that did not exist creates it: another key of
      that section goes from section-not-found to key-not-found. */
  lemma SetOpensSection(c: Config, key: string, value: string, other: string, t: Target)
    requires SetRawValue(c, key, value).Ok? && '.' in other
    requires ParseConfigKey(other).value != ParseConfigKey(key).value
    requires var (s, _) := ParseConfigKey(other).value; s !in c.sections && s == ParseConfigKey(key).value.0
    ensures Get(c, other, t).Fail? && HasKind(Get(c, other, t).error, SectionNotFound)
    ensures var after := Get(SetRawValue(c, key, value).value, other, t);
            after.Fail? && HasKind(after.error, KeyNotFound)
  {
  }

  /** `GetWithDefault[T]`; the default is a value of the target type. */
  function GetWithDefault(c: Config, key: string, t: Target, default: Value): (r: Value)
    requires Conforms(default, t)
    ensures Conforms(r, t)
    ensures Get(c, key, t).Fail? ==> r == default
    ensures Get(c, key, t).Ok? ==> r == Get(c, key, t).value
  {
    match Get(c, key, t)
    case Ok(v) => v
    case Fail(_) => default
  }

  /** A missing key, or a value that does not convert, gives the default. */
  lemma DefaultWhenUnreadable(c: Config, key: string, t: Target, default: Value)
    requires Conforms(default, t) && '.' in key
    requires var (s, k) := ParseConfigKey(key).value;
             Lookup(c, s, k).None? || ConvertValue(Lookup(c, s, k).value, t).Fail?
    ensures GetWithDefault(c, key, t, default) == default
  {
  }

  /* ---------- Has ---------- */

  /** `Has`: split at the first dot only, then look the two halves up. */
  function Has(c: Config, key: string): (r: bool)
    ensures r ==> '.' in key
    ensures r <==> (Cut(key, '.').Some? && Lookup(c, Cut(key, '.').value.0, Cut(key, '.').value.1).Some?)
  {
    match Cut(key, '.')
    case None => false
    case Some((section, subkey)) => section in c.sections && subkey in c.sections[section]
  }

  /** For a key with exactly one dot, `Has` agrees with a string `Get`. */
  lemma HasAgreesOnTwoSegments(c: Config, a: string, b: string)
    requires '.' !in a && '.' !in b
    ensures Has(c, a + "." + b) <==> Get(c, a + "." + b, TString).Ok?
  {
    TwoSegments(a, b);
    CutOfConcat(a, '.', b);
  }

  /** With a dotted section, `Has` looks for key `b.k` in section `a`, which a
      well-formed store never holds: `Has` is false even when `Get` succeeds. */
  lemma HasMissesThreeSegmentKeys(c: Config, a: string, b: string, k: string)
    requires WellFormed(c) && '.' !in a
    ensures !Has(c, a + "." + b + "." + k)
  {
    var key := a + "." + b + "." + k;
    assert key == a + "." + (b + "." + k);
    CutOfConcat(a, '.', b + "." + k);
    var rest := b + "." + k;
    assert rest[|b|] == '.';
    if a in c.sections && rest in c.sections[a] {
      KeyNameHasNoDotOrSpace(rest);
    }
  }

  /** `remote.origin.url`, once stored, is readable with `Get` but not seen by `Has`. */
  lemma HasVersusGet(c: Config, a: string, b: string, k: string, value: string)
    requires WellFormed(c) && IsValidKeyName(a) && IsValidKeyName(b) && IsValidKeyName(k)
    ensures SetRawValue(c, a + "." + b + "." + k, value).Ok?
    ensures var c' := SetRawValue(c, a + "." + b + "." + k, value).value;
            Get(c', a + "." + b + "." + k, TString) == Ok(VString(value))
            && !Has(c', a + "." + b + "." + k)
  {
    var key := a + "." + b + "." + k;
    AcceptedThree(a, b, k);
    ValidateKeyAccepts(key);
    SetThenGet(c, key, value);
    SetRawValueWellFormed(c, key, value);
    KeyNameHasNoDotOrSpace(a);
    HasMissesThreeSegmentKeys(SetRawValue(c, key, value).value, a, b, k);
  }

  /* ---------- Sections, keys, sizes, copies ---------- */

  /** `GetSection`: a copy of the section's keys and values, empty when absent. */
  function GetSection(c: Config, section: string): (r: map<string, string>)
    ensures forall k :: k in r <==> Lookup(c, section, k).Some?
    ensures forall k :: k in r ==> Lookup(c, section, k) == Some(r[k])
  {
    SectionOf(c, section)
  }

  /** `GetSections`: the names of all sections. */
  function GetSections(c: Config): (r: set<string>)
    ensures forall s :: s in r <==> HasSection(c, s)
  {
    c.sections.Keys
  }

  /** `HasSection`. */
  predicate HasSection(c: Config, section: string)
  {
    section in c.sections
  }

  /** `GetSectionSize`: the number of keys in a section, 0 when absent. */
  function GetSectionSize(c: Config, section: string): (r: nat)
    ensures r == |GetSection(c, section)|
    ensures !HasSection(c, section) ==> r == 0
  {
    if section in c.sections then |c.sections[section]| else 0
  }

  /** `GetKeysInSection`: the key names of a section, none when absent. */
  function GetKeysInSection(c: Config, section: string): (r: set<string>)
    ensures forall k :: k in r <==> Lookup(c, section, k).Some?
  {
    if section in c.sections then c.sections[section].Keys else {}
  }

  /** `GetKeys`: every stored entry as `section.key`. */
  function GetKeys(c: Config): (r: set<string>)
    ensures forall s, k :: Lookup(c, s, k).Some? ==> s + "." + k in r
    ensures forall key :: key in r ==> '.' in key
  {
    var r := set s, k | s in c.sections && k in c.sections[s] :: s + "." + k;
    assert forall s, k :: ('.' in s + "." + k) by {
      forall s, k ensures '.' in s + "." + k { assert (s + "." + k)[|s|] == '.'; }
    }
    r
  }

  /** In a well-formed store the listed keys are exactly the keys `Get` can read. */
  lemma GetKeysReadable(c: Config, key: string)
    requires WellFormed(c)
    ensures key in GetKeys(c) <==> Get(c, key, TString).Ok?
  {
    if key in GetKeys(c) {
      var s, k :| s in c.sections && k in c.sections[s] && key == s + "." + k;
      KeyNameHasNoDotOrSpace(k);
      ParseComposed(s, k);
    }
    if Get(c, key, TString).Ok? {
      var (s, k) := ParseConfigKey(key).value;
      assert Lookup(c, s, k).Some?;
    }
  }

  /** In a well-formed store no two entries print as the same dotted key, so the
      list `GetKeys` returns has one element per entry. */
  lemma GetKeysDistinct(c: Config, s1: string, k1: string, s2: string, k2: string)
    requires WellFormed(c)
    requires Lookup(c, s1, k1).Some? && Lookup(c, s2, k2).Some?
    requires s1 + "." + k1 == s2 + "." + k2
    ensures s1 == s2 && k1 == k2
  {
    KeyNameHasNoDotOrSpace(k1);
    KeyNameHasNoDotOrSpace(k2);
    ParseComposed(s1, k1);
    ParseComposed(s2, k2);
  }

  /** Every (section, key) pair the store holds. */
  function Entries(m: Sections, among: set<string>): set<(string, string)>
  {
    set s, k | s in among && s in m && k in m[s] :: (s, k)
  }

  /** The pairs of one section. */
  function Row(m: Sections, s: string): set<(string, string)>
    requires s in m
  {
    set k | k in m[s] :: (s, k)
  }

  lemma {:induction false} RowSize(s: string, keys: set<string>)
    ensures |set k | k in keys :: (s, k)| == |keys|
    decreases |keys|
  {
    if keys != {} {
      var x :| x in keys;
      var rest := keys - {x};
      RowSize(s, rest);
      assert (set k | k in keys :: (s, k)) == (set k | k in rest :: (s, k)) + {(s, x)};
    }
  }

  lemma EntriesStep(m: Sections, done: set<string>, s: string)
    requires s in m && s !in done
    ensures Entries(m, done + {s}) == Entries(m, done) + Row(m, s)
    ensures Entries(m, done) !! Row(m, s)
    ensures |Entries(m, done + {s})| == |Entries(m, done)| + |m[s]|
  {
    assert Entries(m, done + {s}) == Entries(m, done) + Row(m, s);
    RowSize(s, m[s].Keys);
    assert |Row(m, s)| == |m[s]|;
  }

  /** `Size`: the per-section entry counts added up. */
  method Size(c: Config) returns (n: nat)
    ensures n == |Entries(c.sections, c.sections.Keys)|
  {
    n := 0;
    var todo := c.sections.Keys;
    while todo != {}
      invariant todo <= c.sections.Keys
      invariant n == |Entries(c.sections, c.sections.Keys - todo)|
      decreases |todo|
    {
      var s :| s in todo;
      EntriesStep(c.sections, c.sections.Keys - todo, s);
      assert c.sections.Keys - todo + {s} == c.sections.Keys - (todo - {s});
      n := n + |c.sections[s]|;
      todo := todo - {s};
    }
    assert c.sections.Keys - todo == c.sections.Keys;
  }

  /** `IsEmpty`: no entries at all (sections without keys do not count). */
  method IsEmpty(c: Config) returns (r: bool)
    ensures r <==> forall s, k :: Lookup(c, s, k).None?
  {
    var n := Size(c);
    r := n == 0;
    var all := Entries(c.sections, c.sections.Keys);
    forall s, k | Lookup(c, s, k).Some? ensures (s, k) in all {
    }
    if !r {
      assert all != {};
      var e :| e in all;
      assert Lookup(c, e.0, e.1).Some?;
    }
  }

  /** `GetAll`: a copy of every section. */
  function GetAll(c: Config): (r: Sections)
    ensures forall s, k :: (s in r && k in r[s]) <==> Lookup(c, s, k).Some?
    ensures forall s, k :: s in r && k in r[s] ==> Lookup(c, s, k) == Some(r[s][k])
  {
    c.sections
  }

  /** `GetSources`: a copy of the source list. */
  function GetSources(c: Config): (r: seq<ConfigSource>)
    ensures |r| == |c.sources| && forall i :: 0 <= i < |r| ==> r[i] == c.sources[i]
  {
    c.sources
  }

  /** `Clone`: the same entries and the same sources. Values here are never
      shared, so later writes to either side cannot reach the other. */
  function Clone(c: Config): (r: Config)
    ensures forall s, k :: Lookup(r, s, k) == Lookup(c, s, k)
    ensures GetSources(r) == GetSources(c)
  {
    Config.Config(map s | s in c.sections :: map k | k in c.sections[s] :: c.sections[s][k], c.sources)
  }

  /** A clone answers every read exactly as the original does. */
  lemma CloneReadsAlike(c: Config, key: string, t: Target)
    ensures Get(Clone(c), key, t) == Get(c, key, t)
    ensures Has(Clone(c), key) == Has(c, key)
  {
  }

  /* ---------- Typed convenience reads ---------- */

  datatype User = User(name: string, email: string)

  /** The string a successful string `Get` carries. */
  function GetString(c: Config, key: string): (r: Result<string, Error>)
    ensures r.Ok? <==> Get(c, key, TString).Ok?
    ensures r.Ok? ==> Get(c, key, TString) == Ok(VString(r.value))
    ensures r.Fail? ==> r.error == Get(c, key, TString).error
  {
    match Get(c, key, TString)
    case Ok(v) => Ok(v.s)
    case Fail(e) => Fail(e)
  }

  /** `GetUser`: `user.name` then `user.email`, each failure wrapped with the key. */
  function GetUser(c: Config): (r: Result<User, Error>)
    ensures r.Ok? <==> GetString(c, "user.name").Ok? && GetString(c, "user.email").Ok?
    ensures r.Ok? ==> r.value == User(GetString(c, "user.name").value, GetString(c, "user.email").value)
    ensures GetString(c, "user.name").Fail? ==>
              r == Fail(Wrapped("failed to get user.name: ", GetString(c, "user.name").error, ""))
    ensures GetString(c, "user.name").Ok? && GetString(c, "user.email").Fail? ==>
              r == Fail(Wrapped("failed to get user.email: ", GetString(c, "user.email").error, ""))
  {
    match GetString(c, "user.name")
    case Fail(e) => Fail(Wrapped("failed to get user.name: ", e, ""))
    case Ok(name) =>
      match GetString(c, "user.email")
      case Fail(e) => Fail(Wrapped("failed to get user.email: ", e, ""))
      case Ok(email) => Ok(User(name, email))
  }

  /** `user.name` is key `name` of section `user`, and likewise for `email`. */
  lemma UserKeys()
    ensures ParseConfigKey("user.name") == Ok(("user", "name"))
    ensures ParseConfigKey("user.email") == Ok(("user", "email"))
  {
    UserWords();
    assert "user.name" == "user" + "." + "name";
    assert "user.email" == "user" + "." + "email";
    DotlessPair("user", "name");
    DotlessPair("user", "email");
  }

  lemma UserWords()
    ensures '.' !in "user" && '.' !in "name" && '.' !in "email"
  {
    var user, name, email := "user", "name", "email";
    assert user[0] != '.' && user[1] != '.' && user[2] != '.' && user[3] != '.';
    assert name[0] != '.' && name[1] != '.' && name[2] != '.' && name[3] != '.';
    assert email[0] != '.' && email[1] != '.' && email[2] != '.' && email[3] != '.' && email[4] != '.';
  }

  /** Two dot-free words joined by a dot are a section and a key. */
  lemma DotlessPair(a: string, b: string)
    requires '.' !in a && '.' !in b
    ensures ParseConfigKey(a + "." + b) == Ok((a, b))
  {
    assert a + "." + b == a + ['.'] + b;
    CutOfConcat(a, '.', b);
  }

  /** The user record is read straight from the `user` section: it exists
      exactly when both entries are stored, and then holds their values. */
  lemma UserAgrees(c: Config)
    ensures GetUser(c).Ok? <==> Lookup(c, "user", "name").Some? && Lookup(c, "user", "email").Some?
    ensures GetUser(c).Ok? ==>
              GetUser(c).value == User(Lookup(c, "user", "name").value, Lookup(c, "user", "email").value)
  {
    UserKeys();
    StringReadAgrees(c, "user.name", "user", "name");
    StringReadAgrees(c, "user.email", "user", "email");
  }

  /** A string read of a key that names `(s, k)` is the stored value. */
  lemma StringReadAgrees(c: Config, key: string, s: string, k: string)
    requires ParseConfigKey(key) == Ok((s, k))
    ensures GetString(c, key).Ok? <==> Lookup(c, s, k).Some?
    ensures GetString(c, key).Ok? ==> GetString(c, key).value == Lookup(c, s, k).value
  {
  }

  /** The remote a missing name stands for. */
  function RemoteName(name: string): (r: string)
    ensures r != ""
    ensures name != "" ==> r == name
  {
    if name == "" then "origin" else name
  }

  datatype Remote = Remote(name: string, url: string, fetchURL: string, pushURL: string,
                           fetch: seq<string>, push: seq<string>)

  /** A one-element list for a present value, empty otherwise. */
  function AsList(o: Option<string>): (r: seq<string>)
    ensures |r| <= 1 && (|r| == 1 <==> o.Some?)
    ensures o.Some? ==> r == [o.value]
  {
    match o
    case Some(v) => [v]
    case None => []
  }

  /** `GetRemote`: the `remote.<name>` section read into a record; an absent or
      empty section is `ErrSectionNotFound`. */
  function GetRemote(c: Config, name: string): (r: Result<Remote, Error>)
    ensures var s := "remote." + RemoteName(name);
            && (r.Fail? <==> GetSection(c, s) == map[])
            && (r.Fail? ==> r.error == Structured(ConfigError("get", "", s, "", Sentinel(SectionNotFound))))
            && (r.Ok? ==> r.value.name == RemoteName(name)
                          && r.value.url == Lookup(c, s, "url").GetOr("")
                          && r.value.fetchURL == Lookup(c, s, "fetchurl").GetOr("")
                          && r.value.pushURL == Lookup(c, s, "pushurl").GetOr("")
                          && r.value.fetch == AsList(Lookup(c, s, "fetch"))
                          && r.value.push == AsList(Lookup(c, s, "push")))
  {
    var n := RemoteName(name);
    var sectionName := "remote." + n;
    var section := GetSection(c, sectionName);
    if section == map[] then
      Fail(Structured(ConfigError("get", "", sectionName, "", Sentinel(SectionNotFound))))
    else
      Ok(Remote(n,
                Lookup(c, sectionName, "url").GetOr(""),
                Lookup(c, sectionName, "fetchurl").GetOr(""),
                Lookup(c, sectionName, "pushurl").GetOr(""),
                AsList(Lookup(c, sectionName, "fetch")),
                AsList(Lookup(c, sectionName, "push"))))
  }

  /** `GetRemoteURL`: a string `Get` of `remote.<name>.url`, the empty name
      standing for `origin`. For a name without dots the URL reads exactly
      when the remote's section stores one, and is that value. */
  function GetRemoteURL(c: Config, name: string): (r: Result<string, Error>)
    ensures name == "" ==> r == GetString(c, "remote.origin.url")
    ensures name != "" ==> r == GetString(c, "remote." + name + ".url")
    ensures '.' !in name ==>
              var s := "remote." + RemoteName(name);
              && (r.Ok? <==> Lookup(c, s, "url").Some?)
              && (r.Ok? ==> r.value == Lookup(c, s, "url").value)
  {
    RemoteURLRead(c, name);
    GetString(c, "remote." + RemoteName(name) + ".url")
  }

  lemma RemoteURLRead(c: Config, name: string)
    ensures var r := GetString(c, "remote." + RemoteName(name) + ".url");
            && (name == "" ==> r == GetString(c, "remote.origin.url"))
            && (name != "" ==> r == GetString(c, "remote." + name + ".url"))
            && ('.' !in name ==>
                  var s := "remote." + RemoteName(name);
                  && (r.Ok? <==> Lookup(c, s, "url").Some?)
                  && (r.Ok? ==> r.value == Lookup(c, s, "url").value))
  {
    if name == "" {
      OriginURLKey();
    }
    if '.' !in name {
      URLReads(c, RemoteName(name));
    }
  }

  /** The string `Get` of `remote.<n>.url` reads the `url` entry of section
      `remote.<n>`. */
  lemma URLReads(c: Config, n: string)
    requires '.' !in n
    ensures var s := "remote." + n;
            && (GetString(c, s + ".url").Ok? <==> Lookup(c, s, "url").Some?)
            && (GetString(c, s + ".url").Ok? ==> GetString(c, s + ".url").value == Lookup(c, s, "url").value)
  {
    var s := "remote." + n;
    RemoteURLKey(n);
    var key := "remote." + n + ".url";
    assert s + ".url" == key;
    assert '.' in key by { assert key[6] == '.'; }
    if Lookup(c, s, "url").Some? {
      assert "url" in GetSection(c, s);
    }
  }

  /** `remote.<name>.url` decomposes into section `remote.<name>` and key `url`. */
  lemma RemoteURLKey(n: string)
    requires '.' !in n
    ensures ParseConfigKey("remote." + n + ".url") == Ok(("remote." + n, "url"))
  {
    DotFreeWords();
    RemoteURLSpelling(n);
    ThreeOrMoreSegments("remote", n, "url");
  }

  lemma DotFreeWords()
    ensures '.' !in "remote" && '.' !in "url"
  {
    var remote, url := "remote", "url";
    assert remote[0] != '.' && remote[1] != '.' && remote[2] != '.';
    assert remote[3] != '.' && remote[4] != '.' && remote[5] != '.';
    assert url[0] != '.' && url[1] != '.' && url[2] != '.';
  }

  lemma OriginURLKey()
    ensures "remote." + "origin" + ".url" == "remote.origin.url"
  {
  }

  lemma RemoteURLSpelling(n: string)
    ensures "remote." + n == "remote" + "." + n
    ensures "remote." + n + ".url" == "remote" + "." + n + "." + "url"
  {
  }

  /** For a dot-free remote name the URL read and the section read agree. */
  lemma RemoteURLAgrees(c: Config, name: string)
    requires '.' !in name
    ensures GetRemoteURL(c, name).Ok? ==>
              GetRemote(c, name).Ok? && GetRemote(c, name).value.url == GetRemoteURL(c, name).value
  {
  }

  datatype Branch = Branch(name: string, remote: string, merge: string, rebase: string)

  /** `GetBranchConfig`: the `branch.<name>` section read into a record. */
  function GetBranchConfig(c: Config, name: string): (r: Result<Branch, Error>)
    ensures var s := "branch." + name;
            && (r.Fail? <==> GetSection(c, s) == map[])
            && (r.Fail? ==> r.error == Structured(ConfigError("get", "", s, "", Sentinel(SectionNotFound))))
            && (r.Ok? ==> r.value == Branch(name, Lookup(c, s, "remote").GetOr(""),
                                           Lookup(c, s, "merge").GetOr(""),
                                           Lookup(c, s, "rebase").GetOr("")))
  {
    var sectionName := "branch." + name;
    var section := GetSection(c, sectionName);
    if section == map[] then
      Fail(Structured(ConfigError("get", "", sectionName, "", Sentinel(SectionNotFound))))
    else
      Ok(Branch(name,
                Lookup(c, sectionName, "remote").GetOr(""),
                Lookup(c, sectionName, "merge").GetOr(""),
                Lookup(c, sectionName, "rebase").GetOr("")))
  }

  /** The key `branch.<name>.<k>`. */
  function BranchKey(name: string, k: string): string
  {
    "branch." + name + "." + k
  }

  /** For a dot-free name and entry, `branch.<name>.<k>` names entry `k` of
      section `branch.<name>`. */
  lemma BranchKeySplits(name: string, k: string)
    requires '.' !in name && '.' !in k
    ensures ParseConfigKey(BranchKey(name, k)) == Ok(("branch." + name, k))
  {
    var branch := "branch";
    assert branch[0] != '.' && branch[1] != '.' && branch[2] != '.';
    assert branch[3] != '.' && branch[4] != '.' && branch[5] != '.';
    assert "branch." + name == branch + "." + name;
    assert BranchKey(name, k) == branch + "." + name + "." + k;
    ThreeOrMoreSegments(branch, name, k);
  }

  lemma BranchWords()
    ensures '.' !in "remote" && '.' !in "merge" && '.' !in "rebase"
  {
  }

  /** A string read, or `""` when it fails: what a record field holds. */
  function StringOrEmpty(c: Config, key: string): string
  {
    match GetString(c, key)
    case Ok(v) => v
    case Fail(_) => ""
  }

  /** For a dot-free name the branch record's fields are the string reads of
      `branch.<name>.remote`, `.merge` and `.rebase`, empty when a read fails. */
  lemma BranchFieldsAgree(c: Config, name: string)
    requires '.' !in name
    ensures GetBranchConfig(c, name).Ok? ==>
              GetBranchConfig(c, name).value
              == Branch(name, StringOrEmpty(c, BranchKey(name, "remote")),
                        StringOrEmpty(c, BranchKey(name, "merge")),
                        StringOrEmpty(c, BranchKey(name, "rebase")))
  {
    BranchWords();
    BranchKeySplits(name, "remote");
    BranchKeySplits(name, "merge");
    BranchKeySplits(name, "rebase");
    StringReadAgrees(c, BranchKey(name, "remote"), "branch." + name, "remote");
    StringReadAgrees(c, BranchKey(name, "merge"), "branch." + name, "merge");
    StringReadAgrees(c, BranchKey(name, "rebase"), "branch." + name, "rebase");
  }

  /** In a well-formed store the branch record exists exactly when some key
      `branch.<name>.<k>` reads as a string. */
  lemma BranchExists(c: Config, name: string)
    requires '.' !in name && WellFormed(c)
    ensures GetBranchConfig(c, name).Ok? <==> exists k :: '.' !in k && GetString(c, BranchKey(name, k)).Ok?
  {
    var s := "branch." + name;
    if GetBranchConfig(c, name).Ok? {
      var k :| k in GetSection(c, s);
      assert s in c.sections;
      DotFreeKeyName(k);
      BranchKeySplits(name, k);
      StringReadAgrees(c, BranchKey(name, k), s, k);
    }
    if exists k :: '.' !in k && GetString(c, BranchKey(name, k)).Ok? {
      var k :| '.' !in k && GetString(c, BranchKey(name, k)).Ok?;
      BranchKeySplits(name, k);
      StringReadAgrees(c, BranchKey(name, k), s, k);
      assert k in GetSection(c, s);
    }
  }

  /** A key name holds no dot. */
  lemma DotFreeKeyName(k: string)
    requires IsValidKeyName(k)
    ensures '.' !in k
  {
  }
}
