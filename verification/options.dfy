/** Load options (options.go): the option record, its defaults, the `With*`
    setters applied left to right, and the option lists the `Load*` helpers pass. */
module Options {
  import opened Wrappers

  /** `time.Second` in nanoseconds, the unit of `time.Duration`. */
  const Second: int := 1_000_000_000

  /** `DefaultTimeout` (types.go). */
  const DefaultTimeout: int := 30 * Second

  /** `configOptions`. */
  datatype ConfigOptions = ConfigOptions(
    includeSystem: bool,
    includeGlobal: bool,
    includeLocal: bool,
    includeWorktree: bool,
    repoPath: string,
    useGitCommand: bool,
    timeout: int)

  /** The `ConfigOption` closures, one constructor per `With*` function. */
  datatype ConfigOption =
    | WithSystem
    | WithGlobal
    | WithLocal
    | WithWorktree
    | WithRepoPath(path: string)
    | WithGitCommand
    | WithTimeout(duration: int)

  /** The record `LoadWithContext` starts from: global on, a 30 s timeout. */
  const Defaults: ConfigOptions := ConfigOptions(false, true, false, false, "", false, DefaultTimeout)

  /** Running one option closure on the record. */
  function Apply(o: ConfigOptions, opt: ConfigOption): ConfigOptions
  {
    match opt
    case WithSystem => o.(includeSystem := true)
    case WithGlobal => o.(includeGlobal := true)
    case WithLocal => o.(includeLocal := true)
    case WithWorktree => o.(includeWorktree := true)
    case WithRepoPath(p) => o.(repoPath := p)
    case WithGitCommand => o.(useGitCommand := true)
    case WithTimeout(d) => o.(timeout := d)
  }

  /** `for _, opt := range opts { opt(options) }`. */
  function ApplyAll(o: ConfigOptions, opts: seq<ConfigOption>): ConfigOptions
    decreases |opts|
  {
    if |opts| == 0 then o else ApplyAll(Apply(o, opts[0]), opts[1..])
  }

  /** The path of the last `WithRepoPath` in the list, if there is one. */
  function LastRepoPath(opts: seq<ConfigOption>): Option<string>
    decreases |opts|
  {
    if |opts| == 0 then None
    else if LastRepoPath(opts[1..]).Some? then LastRepoPath(opts[1..])
    else if opts[0].WithRepoPath? then Some(opts[0].path)
    else None
  }

  /** The duration of the last `WithTimeout` in the list, if there is one. */
  function LastTimeout(opts: seq<ConfigOption>): Option<int>
    decreases |opts|
  {
    if |opts| == 0 then None
    else if LastTimeout(opts[1..]).Some? then LastTimeout(opts[1..])
    else if opts[0].WithTimeout? then Some(opts[0].duration)
    else None
  }

  /** Applying a list is applying its first part, then its second. */
  lemma {:induction false} ApplyAllAppend(o: ConfigOptions, xs: seq<ConfigOption>, ys: seq<ConfigOption>)
    ensures ApplyAll(o, xs + ys) == ApplyAll(ApplyAll(o, xs), ys)
    decreases |xs|
  {
    if |xs| > 0 {
      assert (xs + ys)[0] == xs[0];
      assert (xs + ys)[1..] == xs[1..] + ys;
      ApplyAllAppend(Apply(o, xs[0]), xs[1..], ys);
    } else {
      assert xs + ys == ys;
    }
  }

  /** The five boolean fields of the record. */
  datatype Switch = System | Global | Local | Worktree | GitCommand

  function IsOn(o: ConfigOptions, sw: Switch): bool
  {
    match sw
    case System => o.includeSystem
    case Global => o.includeGlobal
    case Local => o.includeLocal
    case Worktree => o.includeWorktree
    case GitCommand => o.useGitCommand
  }

  /** The option that turns a switch on. */
  function Enabler(sw: Switch): ConfigOption
  {
    match sw
    case System => WithSystem
    case Global => WithGlobal
    case Local => WithLocal
    case Worktree => WithWorktree
    case GitCommand => WithGitCommand
  }

  /** A switch ends up on exactly when it started on or its option occurs in
      the list; no option turns a switch off. */
  lemma {:induction false} ApplyAllSwitch(o: ConfigOptions, opts: seq<ConfigOption>, sw: Switch)
    ensures IsOn(ApplyAll(o, opts), sw) <==> IsOn(o, sw) || Enabler(sw) in opts
    decreases |opts|
  {
    if |opts| > 0 {
      ApplyAllSwitch(Apply(o, opts[0]), opts[1..], sw);
      ApplySwitch(o, opts[0], sw);
      assert opts == [opts[0]] + opts[1..];
    }
  }

  /** One option turns on its own switch and leaves the others alone. */
  lemma ApplySwitch(o: ConfigOptions, opt: ConfigOption, sw: Switch)
    ensures IsOn(Apply(o, opt), sw) <==> IsOn(o, sw) || opt == Enabler(sw)
  {
  }

  /** The flags after the fold, field by field. */
  lemma ApplyAllFlags(o: ConfigOptions, opts: seq<ConfigOption>)
    ensures var r := ApplyAll(o, opts);
            && (r.includeSystem <==> o.includeSystem || WithSystem in opts)
            && (r.includeGlobal <==> o.includeGlobal || WithGlobal in opts)
            && (r.includeLocal <==> o.includeLocal || WithLocal in opts)
            && (r.includeWorktree <==> o.includeWorktree || WithWorktree in opts)
            && (r.useGitCommand <==> o.useGitCommand || WithGitCommand in opts)
  {
    ApplyAllSwitch(o, opts, System);
    ApplyAllSwitch(o, opts, Global);
    ApplyAllSwitch(o, opts, Local);
    ApplyAllSwitch(o, opts, Worktree);
    ApplyAllSwitch(o, opts, GitCommand);
  }

  /** Repository path and timeout come from the last option that sets them,
      so a later `WithRepoPath` or `WithTimeout` overrides an earlier one. */
  lemma {:induction false} ApplyAllSettings(o: ConfigOptions, opts: seq<ConfigOption>)
    ensures ApplyAll(o, opts).repoPath == LastRepoPath(opts).GetOr(o.repoPath)
    ensures ApplyAll(o, opts).timeout == LastTimeout(opts).GetOr(o.timeout)
    decreases |opts|
  {
    if |opts| > 0 {
      ApplyAllSettings(Apply(o, opts[0]), opts[1..]);
      ApplySettings(o, opts[0]);
    }
  }

  /** One option changes the repository path or the timeout only when it is
      the option for that field. */
  lemma ApplySettings(o: ConfigOptions, opt: ConfigOption)
    ensures Apply(o, opt).repoPath == (if opt.WithRepoPath? then opt.path else o.repoPath)
    ensures Apply(o, opt).timeout == (if opt.WithTimeout? then opt.duration else o.timeout)
  {
  }

  /** A trailing `WithRepoPath` decides the repository path. */
  lemma {:induction false} TrailingRepoPath(xs: seq<ConfigOption>, p: string)
    ensures LastRepoPath(xs + [WithRepoPath(p)]) == Some(p)
    decreases |xs|
  {
    if |xs| > 0 {
      assert (xs + [WithRepoPath(p)])[1..] == xs[1..] + [WithRepoPath(p)];
      TrailingRepoPath(xs[1..], p);
    } else {
      assert xs + [WithRepoPath(p)] == [WithRepoPath(p)];
    }
  }

  /** Without a `WithTimeout` the timeout is never set. */
  lemma {:induction false} NoTimeoutOption(opts: seq<ConfigOption>)
    requires forall i :: 0 <= i < |opts| ==> !opts[i].WithTimeout?
    ensures LastTimeout(opts) == None
    decreases |opts|
  {
    if |opts| > 0 {
      NoTimeoutOption(opts[1..]);
    }
  }

  /** Every load selects the global file: `includeGlobal` starts true and no
      option turns it off. */
  lemma GlobalAlwaysSelected(opts: seq<ConfigOption>)
    ensures ApplyAll(Defaults, opts).includeGlobal
  {
    ApplyAllFlags(Defaults, opts);
  }

  /** The options `LoadGlobal` passes. */
  function GlobalOptions(): seq<ConfigOption>
  {
    [WithGlobal]
  }

  /** The options `LoadLocal(repoPath)` passes. */
  function LocalOptions(repoPath: string): seq<ConfigOption>
  {
    [WithLocal, WithRepoPath(repoPath)]
  }

  /** The options `LoadAll(repoPath)` passes. */
  function AllOptions(repoPath: string): seq<ConfigOption>
  {
    [WithSystem, WithGlobal, WithLocal, WithWorktree, WithRepoPath(repoPath)]
  }

  /** `LoadGlobal` reads exactly the defaults. */
  lemma GlobalOptionsAreDefaults()
    ensures ApplyAll(Defaults, GlobalOptions()) == Defaults
  {
  }

  /** `LoadLocal` selects the global and the local file, not only the local one. */
  lemma LocalOptionsSelect(repoPath: string)
    ensures ApplyAll(Defaults, LocalOptions(repoPath))
            == ConfigOptions(false, true, true, false, repoPath, false, DefaultTimeout)
  {
    var opts := LocalOptions(repoPath);
    ApplyAllFlags(Defaults, opts);
    ApplyAllSettings(Defaults, opts);
    assert opts == [WithLocal] + [WithRepoPath(repoPath)];
    TrailingRepoPath([WithLocal], repoPath);
    NoTimeoutOption(opts);
  }

  /** `LoadAll` selects all four files, with the given repository path. */
  lemma AllOptionsSelect(repoPath: string)
    ensures ApplyAll(Defaults, AllOptions(repoPath))
            == ConfigOptions(true, true, true, true, repoPath, false, DefaultTimeout)
  {
    var opts := AllOptions(repoPath);
    ApplyAllFlags(Defaults, opts);
    ApplyAllSettings(Defaults, opts);
    assert opts == [WithSystem, WithGlobal, WithLocal, WithWorktree] + [WithRepoPath(repoPath)];
    TrailingRepoPath([WithSystem, WithGlobal, WithLocal, WithWorktree], repoPath);
    NoTimeoutOption(opts);
  }

  /** The repository path is checked only when a repository file is selected
      and a path was given. */
  predicate NeedsRepoCheck(o: ConfigOptions)
  {
    (o.includeLocal || o.includeWorktree) && o.repoPath != ""
  }
}
