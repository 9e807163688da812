/** Where the configuration files are (paths.go): reading the system file's
    path out of `git config --system --show-origin --list` output, the
    preference order of the global file's locations, and the ordered source
    list a set of options selects. What the operating system answers
    (environment, home directory, whether a file exists, how paths join) is
    a parameter. */
module Paths {
  import opened Wrappers
  import opened Text
  import opened Options
  import opened Store

  /** The file names of types.go. */
  const SystemConfigFile: string := "/etc/gitconfig"
  const SystemConfigFileAlt: string := "/usr/local/etc/gitconfig"
  const GlobalConfigFile: string := ".gitconfig"
  const LocalConfigFile: string := ".git/config"
  const WorktreeConfigFile: string := ".git/config.worktree"
  const XDGConfigDir: string := ".config/git/config"

  /** The answers of the operating system the path helpers depend on. */
  datatype Env = Env(
    /** Output of `git config --system --show-origin --list`; `None` when the command fails. */
    systemListing: Option<string>,
    /** `$XDG_CONFIG_HOME`, empty when unset. */
    xdgConfigHome: string,
    /** `os.UserHomeDir()`; `None` when it fails. */
    home: Option<string>,
    /** `os.Stat(path)` succeeds. */
    present: string -> bool,
    /** `filepath.Join`. */
    join: seq<string> -> string)

  /** The index of the first line starting with `file:`, if any. */
  function FirstFileLine(lines: seq<string>): (r: Option<nat>)
    ensures r.Some? ==> r.value < |lines| && HasPrefix(lines[r.value], "file:")
    ensures r.Some? ==> forall j :: 0 <= j < r.value ==> !HasPrefix(lines[j], "file:")
    ensures r.None? <==> forall j :: 0 <= j < |lines| ==> !HasPrefix(lines[j], "file:")
    decreases |lines|
  {
    if |lines| == 0 then None
    else if HasPrefix(lines[0], "file:") then Some(0)
    else
      match FirstFileLine(lines[1..])
      case None => None
      case Some(i) => Some(i + 1)
  }

  /** The text before the first tab of `line`, or all of it. */
  function BeforeTab(line: string): (r: string)
    ensures '\t' !in r
    ensures HasPrefix(line, r)
    ensures |r| < |line| ==> line[|r|] == '\t'
  {
    match Cut(line, '\t')
    case Some((before, _)) => before
    case None => line
  }

  /** `parseSystemConfigPath`: on the first line that starts with `file:`, the
      text after `file:` up to the first tab; empty when no line starts so. */
  function ParseSystemConfigPath(output: string): (r: string)
    ensures '\t' !in r && '\n' !in r
    ensures var lines := Split(output, '\n');
            && (FirstFileLine(lines).None? ==> r == "")
            && (FirstFileLine(lines).Some? ==>
                  var line := lines[FirstFileLine(lines).value];
                  HasPrefix(line, "file:" + r)
                  && (|line| == |r| + 5 || line[|r| + 5] == '\t'))
  {
    var lines := Split(output, '\n');
    match FirstFileLine(lines)
    case None => ""
    case Some(i) => PathOfLine(lines[i])
  }

  /** The text after `file:` up to the first tab, on a line that starts with `file:`. */
  function PathOfLine(line: string): (r: string)
    requires HasPrefix(line, "file:") && '\n' !in line
    ensures '\t' !in r && '\n' !in r
    ensures HasPrefix(line, "file:" + r) && (|line| == |r| + 5 || line[|r| + 5] == '\t')
  {
    var before := BeforeTab(line);
    assert HasPrefix(before, "file:") by {
      assert '\t' !in "file:" by { FileWordHasNoTab(); }
      PrefixBeforeTab(line, "file:");
    }
    var r := TrimPrefix(before, "file:");
    assert '\n' !in r by {
      forall k | 0 <= k < |r| ensures r[k] != '\n' {
        assert r[k] == line[k + 5];
        assert line[k + 5] in line;
      }
    }
    r
  }

  lemma FileWordHasNoTab()
    ensures '\t' !in "file:"
  {
    var w := "file:";
    assert w[0] != '\t' && w[1] != '\t' && w[2] != '\t' && w[3] != '\t' && w[4] != '\t';
  }

  /** A tab-free prefix of a line is also a prefix of the text before its first tab. */
  lemma PrefixBeforeTab(line: string, p: string)
    requires HasPrefix(line, p) && '\t' !in p
    ensures HasPrefix(BeforeTab(line), p)
  {
    forall k | 0 <= k < |p| ensures line[k] != '\t' {
      assert line[k] == p[k] && p[k] in p;
    }
  }

  /** A `file:` line first in the listing yields its path. */
  lemma SystemPathOfListing(path: string, entry: string, rest: string)
    requires '\t' !in path && '\n' !in path && '\n' !in entry
    ensures ParseSystemConfigPath("file:" + path + "\t" + entry + "\n" + rest) == path
  {
    var line := "file:" + path + "\t" + entry;
    var output := line + "\n" + rest;
    assert '\n' !in line by {
      forall k | 0 <= k < |line| ensures line[k] != '\n' {
        if k < 5 { assert line[k] == "file:"[k]; }
        else if k < 5 + |path| { assert line[k] == path[k - 5]; }
        else if k > 5 + |path| { assert line[k] == entry[k - 6 - |path|]; }
      }
    }
    CutOfConcat(line, '\n', rest);
    assert Split(output, '\n')[0] == line;
    assert HasPrefix(line, "file:");
    assert line == ("file:" + path) + "\t" + entry;
    CutOfConcat("file:" + path, '\t', entry) by {
      FileWordHasNoTab();
      assert '\t' !in "file:" + path;
    }
    assert BeforeTab(line) == "file:" + path;
  }

  /** `getSystemConfigPath`: the path git reports, else the first of the two
      standard locations that exists, else empty. */
  function SystemConfigPath(env: Env): (r: string)
    ensures var fromGit := if env.systemListing.Some? then ParseSystemConfigPath(env.systemListing.value) else "";
            && (fromGit != "" ==> r == fromGit)
            && (fromGit == "" && env.present(SystemConfigFile) ==> r == SystemConfigFile)
            && (fromGit == "" && !env.present(SystemConfigFile) && env.present(SystemConfigFileAlt) ==> r == SystemConfigFileAlt)
            && (fromGit == "" && !env.present(SystemConfigFile) && !env.present(SystemConfigFileAlt) ==> r == "")
  {
    var fromGit := match env.systemListing
                   case Some(o) => ParseSystemConfigPath(o)
                   case None => "";
    if fromGit != "" then fromGit
    else if env.present(SystemConfigFile) then SystemConfigFile
    else if env.present(SystemConfigFileAlt) then SystemConfigFileAlt
    else ""
  }

  /** `getXDGConfigPath`: `$XDG_CONFIG_HOME/git/config` when set and present,
      else `~/.config/git/config` when present, else empty. */
  function XDGConfigPath(env: Env): (r: string)
    ensures r != "" ==> env.present(r)
  {
    if env.xdgConfigHome != "" && env.present(env.join([env.xdgConfigHome, "git", "config"])) then
      env.join([env.xdgConfigHome, "git", "config"])
    else if env.home.Some? && env.present(env.join([env.home.value, XDGConfigDir])) then
      env.join([env.home.value, XDGConfigDir])
    else ""
  }

  /** `getHomeConfigPath`: `~/.gitconfig` when present, else empty. */
  function HomeConfigPath(env: Env): (r: string)
    ensures r != "" ==> env.present(r)
  {
    if env.home.Some? && env.present(env.join([env.home.value, GlobalConfigFile])) then
      env.join([env.home.value, GlobalConfigFile])
    else ""
  }

  /** `getGlobalConfigPath`: the XDG location wins over `~/.gitconfig`; empty
      only when neither is found. */
  function GlobalConfigPath(env: Env): (r: string)
    ensures XDGConfigPath(env) != "" ==> r == XDGConfigPath(env)
    ensures XDGConfigPath(env) == "" ==> r == HomeConfigPath(env)
    ensures r == "" <==> XDGConfigPath(env) == "" && HomeConfigPath(env) == ""
  {
    if XDGConfigPath(env) != "" then XDGConfigPath(env)
    else if HomeConfigPath(env) != "" then HomeConfigPath(env)
    else ""
  }

  /** `getLocalConfigPath` and `getWorktreeConfigPath`: `<repo>/<file>` when
      the repository path is set and the file is present. */
  function RepoConfigPath(env: Env, repoPath: string, file: string): (r: string)
    ensures repoPath == "" ==> r == ""
    ensures r != "" ==> env.present(r) && r == env.join([repoPath, file])
  {
    if repoPath == "" then ""
    else if env.present(env.join([repoPath, file])) then env.join([repoPath, file])
    else ""
  }

  /** The path a source type would contribute under the options, or nothing. */
  function Candidate(env: Env, o: ConfigOptions, t: int): string
  {
    if t == SourceTypeSystem then (if o.includeSystem then SystemConfigPath(env) else "")
    else if t == SourceTypeGlobal then (if o.includeGlobal then GlobalConfigPath(env) else "")
    else if t == SourceTypeLocal then
      (if o.includeLocal && o.repoPath != "" then RepoConfigPath(env, o.repoPath, LocalConfigFile) else "")
    else if t == SourceTypeWorktree then
      (if o.includeWorktree && o.repoPath != "" then RepoConfigPath(env, o.repoPath, WorktreeConfigFile) else "")
    else ""
  }

  /** The source for type `t`, when its path `path(t)` is not empty. */
  function Entry(path: int -> string, t: int): seq<ConfigSource>
  {
    if path(t) != "" then [ConfigSource(t, path(t))] else []
  }

  /** `getAllConfigPaths`: system, global, local, worktree, in that order, each
      at most once, each only when selected and found. */
  function AllConfigPaths(env: Env, o: ConfigOptions): (r: seq<ConfigSource>)
    ensures |r| <= 4
    ensures forall i :: 0 <= i < |r| ==> 0 <= r[i].typ <= 3 && r[i].path != ""
    ensures forall i :: 0 <= i < |r| ==> r[i].path == Candidate(env, o, r[i].typ)
    ensures forall i, j :: 0 <= i < j < |r| ==> r[i].typ < r[j].typ
    ensures forall t :: 0 <= t <= 3 ==>
              (Candidate(env, o, t) != "" <==> exists i :: 0 <= i < |r| && r[i].typ == t)
  {
    var path := t => Candidate(env, o, t);
    var r := Entry(path, SourceTypeSystem) + Entry(path, SourceTypeGlobal)
             + Entry(path, SourceTypeLocal) + Entry(path, SourceTypeWorktree);
    assert r == EntriesFrom(path, 0) by {
      assert EntriesFrom(path, 3) == Entry(path, 3) + [];
    }
    EntriesFromTyped(path, 0);
    EntriesFromSorted(path, 0);
    forall u | 0 <= u <= 3
      ensures path(u) != "" <==> exists i :: 0 <= i < |r| && r[i].typ == u
    {
      EntriesFromCover(path, 0, u);
    }
    r
  }

  /** The entries of the types from `t` on, in order of type. */
  function EntriesFrom(path: int -> string, t: int): seq<ConfigSource>
    requires 0 <= t <= 4
    decreases 4 - t
  {
    if t == 4 then [] else Entry(path, t) + EntriesFrom(path, t + 1)
  }

  /** Each entry has a type from `t` on and the path of that type. */
  lemma {:induction false} EntriesFromTyped(path: int -> string, t: int)
    requires 0 <= t <= 4
    decreases 4 - t
    ensures var r := EntriesFrom(path, t);
            && |r| <= 4 - t
            && forall i :: 0 <= i < |r| ==> t <= r[i].typ <= 3 && r[i].path != "" && r[i].path == path(r[i].typ)
  {
    if t < 4 {
      EntriesFromTyped(path, t + 1);
      var e := Entry(path, t);
      var rest := EntriesFrom(path, t + 1);
      assert forall i :: 0 <= i < |rest| ==> (e + rest)[|e| + i] == rest[i];
    }
  }

  /** The entries are in strictly increasing order of type. */
  lemma {:induction false} EntriesFromSorted(path: int -> string, t: int)
    requires 0 <= t <= 4
    decreases 4 - t
    ensures var r := EntriesFrom(path, t);
            forall i, j :: 0 <= i < j < |r| ==> r[i].typ < r[j].typ
  {
    if t < 4 {
      EntriesFromSorted(path, t + 1);
      EntriesFromTyped(path, t + 1);
      var e := Entry(path, t);
      var rest := EntriesFrom(path, t + 1);
      var r := e + rest;
      forall i, j | 0 <= i < j < |r| ensures r[i].typ < r[j].typ {
        if i < |e| {
          assert r[j] == rest[j - |e|];
        } else {
          assert r[i] == rest[i - |e|] && r[j] == rest[j - |e|];
        }
      }
    }
  }

  /** A type from `t` on has an entry exactly when its path is not empty. */
  lemma {:induction false} EntriesFromCover(path: int -> string, t: int, u: int)
    requires 0 <= t <= 4 && t <= u <= 3
    decreases 4 - t
    ensures path(u) != "" <==> exists i :: 0 <= i < |EntriesFrom(path, t)| && EntriesFrom(path, t)[i].typ == u
  {
    EntriesFromTyped(path, t);
    var e := Entry(path, t);
    var r := EntriesFrom(path, t);
    if u == t {
      if path(u) != "" {
        assert r[0].typ == u;
      } else {
        EntriesFromTyped(path, t + 1);
        forall i | 0 <= i < |r| ensures r[i].typ != u {
          assert r[i] == EntriesFrom(path, t + 1)[i];
        }
      }
    } else {
      EntriesFromCover(path, t + 1, u);
      var rest := EntriesFrom(path, t + 1);
      assert r == e + rest;
      if path(u) != "" {
        var i :| 0 <= i < |rest| && rest[i].typ == u;
        assert r[|e| + i].typ == u;
      } else {
        forall i | 0 <= i < |r| ensures r[i].typ != u {
          if i >= |e| {
            assert r[i] == rest[i - |e|];
          }
        }
      }
    }
  }
}
