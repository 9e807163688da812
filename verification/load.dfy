/** Loading and reloading (options.go, git.go, gitcfg.go): `LoadWithContext`
    folds the options, checks the repository path, then reads either the
    listing of `git config` or the selected files; `ReloadWithContext` reads
    the recorded sources again into a fresh store and hands it back only when
    every file parses. The two copies of the store differ in what a reload of
    a store without sources does. */
module Load {
  import opened Wrappers
  import opened ConfigErrors
  import opened Store
  import opened Options
  import opened Paths
  import opened Parser

  /** Everything a load asks of the machine it runs on. */
  datatype World = World(
    /** The path lookups of `getAllConfigPaths`. */
    env: Env,
    /** `validateRepoPath`: `None` for a usable repository, else its error. */
    validate: string -> Option<Error>,
    /** What opening and scanning each path yields. */
    files: string -> File,
    /** What looking `git` up on the search path reports when the command is
        built: `None` when it is found, else the lookup's error. */
    gitLookup: Option<Error>,
    /** How a run of `git` that starts ends. */
    git: GitCall -> GitRun)

  /** A run of `git`: arguments, working directory, and the deadline the
      timeout option puts on it (`None` when the timeout is not positive). */
  datatype GitCall = GitCall(args: seq<string>, dir: Option<string>, deadline: Option<int>)

  /** The command `parseFromGitCommand` starts for options `o`. */
  function GitCallFor(o: ConfigOptions): (r: GitCall)
    ensures r.deadline.Some? <==> o.timeout > 0
    ensures r.deadline.Some? ==> r.deadline.value == o.timeout
  {
    GitCall(GitArgs(o), GitDir(o), if o.timeout > 0 then Some(o.timeout) else None)
  }

  /** The error `LoadWithContext` reports for a repository path that fails
      its check. */
  function RepoError(e: Error): Error
  {
    Structured(ConfigError("load", "", "", "", Wrapped("invalid repository path: ", e, "")))
  }

  /** The git-command branch of `LoadWithContext`. Starting the command first
      reports a failed lookup of `git`, then a context already done; either
      keeps git from starting, and the start error is wrapped. Otherwise the
      run ends as the world says. */
  function LoadFromGit(w: World, o: ConfigOptions, ctx: Context): (r: Result<Config, Error>)
    ensures r.Fail? ==> r.error.Structured? && r.error.ce.op in {"load", "parse"}
    ensures w.gitLookup.Some? ==>
              r == Fail(Structured(ConfigError("load", "", "", "", Wrapped("failed to execute git config: ", w.gitLookup.value, ""))))
    ensures w.gitLookup.None? && CancelsWithin(ctx, 0, 1) ==>
              r == Fail(Structured(ConfigError("load", "", "", "", Wrapped("failed to execute git config: ", ctx.cause, ""))))
    ensures w.gitLookup.None? && !CancelsWithin(ctx, 0, 1) ==> r == ParseFromGitCommand(w.git(GitCallFor(o)))
    ensures r.Ok? ==> r.value.sources == [] && WellFormed(r.value)
    ensures r.Ok? ==> w.gitLookup.None? && !CancelsWithin(ctx, 0, 1) && w.git(GitCallFor(o)).Output?
                      && Replay(Empty, ListingWrites(ListingRecords(w.git(GitCallFor(o)).stdout))) == Some(r.value)
  {
    var run :=
      if w.gitLookup.Some? then StartError(w.gitLookup.value)
      else if CancelsWithin(ctx, 0, 1) then StartError(ctx.cause)
      else w.git(GitCallFor(o));
    var r := ParseFromGitCommand(run);
    if r.Ok? then
      ReplayWellFormed(Empty, ListingWrites(ListingRecords(run.stdout)));
      r
    else r
  }

  /** The file branch of `LoadWithContext`. */
  function LoadFromFiles(w: World, o: ConfigOptions, ctx: Context): (r: Result<Config, Error>)
    ensures r.Fail? ==> (r.error.Structured? && r.error.ce.op == "parse") || (ctx.CancelledAt? && r.error == ctx.cause)
    ensures r.Ok? ==> r.value.sources == AllConfigPaths(w.env, o) && WellFormed(r.value)
    ensures r.Ok? <==> !CancelsWithin(ctx, 0, |AllConfigPaths(w.env, o)|) && AllLoad(AllConfigPaths(w.env, o), w.files)
    ensures r.Fail? ==> exists i :: 0 <= i < |AllConfigPaths(w.env, o)| && StopsAt(Loading, AllConfigPaths(w.env, o), w.files, ctx, 0, i, r.error)
  {
    var r := ParseFromFiles(w.env, o, w.files, ctx);
    if r.Ok? then
      FreshWellFormed(FilesWrites(AllConfigPaths(w.env, o), w.files), r.value);
      r
    else
      FailedOnLoading(AllConfigPaths(w.env, o), r.error);
      r
  }

  /** A store whose sections a replay into a fresh store built is well formed. */
  lemma FreshWellFormed(ws: seq<Write>, r: Config)
    requires Replay(Empty, ws).Some? && Replay(Empty, ws).value.sections == r.sections
    ensures WellFormed(r)
  {
    ReplayWellFormed(Empty, ws);
  }

  /** A load reports a file's parse error as it is. */
  lemma FailedOnLoading(sources: seq<ConfigSource>, err: Error)
    ensures FailedOn(Loading, sources, err) ==> err.Structured? && err.ce.op == "parse"
  {
  }

  /** What `LoadWithContext` does once the options are folded into `o`. */
  function LoadWithOptions(w: World, ctx: Context, o: ConfigOptions): (r: Result<Config, Error>)
    ensures NeedsRepoCheck(o) && w.validate(o.repoPath).Some? ==> r == Fail(RepoError(w.validate(o.repoPath).value))
    ensures r.Fail? && (!NeedsRepoCheck(o) || w.validate(o.repoPath).None?) ==>
              (r.error.Structured? && r.error.ce.op in {"load", "parse"}) || (ctx.CancelledAt? && r.error == ctx.cause)
    ensures r.Ok? ==> r.value.sources == if o.useGitCommand then [] else AllConfigPaths(w.env, o)
    ensures r.Ok? ==> WellFormed(r.value)
    ensures !(NeedsRepoCheck(o) && w.validate(o.repoPath).Some?) ==>
              r == if o.useGitCommand then LoadFromGit(w, o, ctx) else LoadFromFiles(w, o, ctx)
  {
    if NeedsRepoCheck(o) && w.validate(o.repoPath).Some? then
      Fail(RepoError(w.validate(o.repoPath).value))
    else if o.useGitCommand then LoadFromGit(w, o, ctx)
    else LoadFromFiles(w, o, ctx)
  }

  /** `LoadWithContext(ctx, opts...)`: the options folded over the defaults,
      then the load they select. */
  function LoadWithContext(w: World, ctx: Context, opts: seq<ConfigOption>): (r: Result<Config, Error>)
    ensures r == LoadWithOptions(w, ctx, ApplyAll(Defaults, opts))
    ensures r.Ok? && WithGitCommand in opts ==> r.value.sources == []
    ensures r.Ok? && WithGitCommand !in opts ==> r.value.sources == AllConfigPaths(w.env, ApplyAll(Defaults, opts))
  {
    ApplyAllFlags(Defaults, opts);
    LoadWithOptions(w, ctx, ApplyAll(Defaults, opts))
  }

  /** `Load(opts...)`: without cancellation every failure is a `ConfigError`
      of a load or a parse. */
  function Load(w: World, opts: seq<ConfigOption>): (r: Result<Config, Error>)
    ensures r == LoadWithContext(w, Background, opts)
    ensures r.Fail? ==> r.error.Structured? && r.error.ce.op in {"load", "parse"}
  {
    LoadWithContext(w, Background, opts)
  }

  /** `LoadGlobalWithContext`; `LoadGlobal` is the background case. */
  function LoadGlobalWithContext(w: World, ctx: Context): (r: Result<Config, Error>)
    ensures r.Ok? ==> forall i :: 0 <= i < |r.value.sources| ==> r.value.sources[i].typ == SourceTypeGlobal
    ensures r.Ok? ==> |r.value.sources| <= 1
    ensures r == LoadFromFiles(w, Defaults, ctx)
  {
    GlobalOptionsAreDefaults();
    GlobalOnly(w.env);
    LoadWithContext(w, ctx, GlobalOptions())
  }

  /** `LoadLocalWithContext`; `LoadLocal` is the background case. */
  function LoadLocalWithContext(w: World, ctx: Context, repoPath: string): (r: Result<Config, Error>)
    ensures r.Ok? ==> forall i :: 0 <= i < |r.value.sources| ==>
                        r.value.sources[i].typ in {SourceTypeGlobal, SourceTypeLocal}
    ensures repoPath != "" && w.validate(repoPath).Some? ==> r == Fail(RepoError(w.validate(repoPath).value))
    ensures repoPath == "" || w.validate(repoPath).None? ==> r == LoadFromFiles(w, ApplyAll(Defaults, LocalOptions(repoPath)), ctx)
  {
    LocalOptionsSelect(repoPath);
    LoadWithContext(w, ctx, LocalOptions(repoPath))
  }

  /** `LoadAllWithContext`; `LoadAll` is the background case. */
  function LoadAllWithContext(w: World, ctx: Context, repoPath: string): (r: Result<Config, Error>)
    ensures r.Ok? ==> forall i, j :: 0 <= i < j < |r.value.sources| ==>
                        r.value.sources[i].typ < r.value.sources[j].typ
    ensures r.Ok? && repoPath != "" && w.validate(repoPath).None? ==>
              forall t :: 0 <= t <= 3 ==>
                (Candidate(w.env, ApplyAll(Defaults, AllOptions(repoPath)), t) != ""
                 <==> exists i :: 0 <= i < |r.value.sources| && r.value.sources[i].typ == t)
    ensures repoPath != "" && w.validate(repoPath).Some? ==> r == Fail(RepoError(w.validate(repoPath).value))
    ensures repoPath == "" || w.validate(repoPath).None? ==> r == LoadFromFiles(w, ApplyAll(Defaults, AllOptions(repoPath)), ctx)
  {
    AllOptionsSelect(repoPath);
    LoadWithContext(w, ctx, AllOptions(repoPath))
  }

  /** What `LoadGlobal` reads: for every key, the last value the global
      file gives it. */
  lemma GlobalValues(w: World, ctx: Context, section: string, key: string)
    requires LoadGlobalWithContext(w, ctx).Ok?
    ensures Lookup(LoadGlobalWithContext(w, ctx).value, section, key)
            == LastValue(FilesWrites(AllConfigPaths(w.env, Defaults), w.files), section, key)
  {
    LoadedValues(w, Defaults, ctx, section, key);
  }

  /** What `LoadLocal` reads: for every key, the last value the global and
      then the local file give it. */
  lemma LocalValues(w: World, ctx: Context, repoPath: string, section: string, key: string)
    requires LoadLocalWithContext(w, ctx, repoPath).Ok?
    ensures Lookup(LoadLocalWithContext(w, ctx, repoPath).value, section, key)
            == LastValue(FilesWrites(AllConfigPaths(w.env, ApplyAll(Defaults, LocalOptions(repoPath))), w.files), section, key)
  {
    LoadedValues(w, ApplyAll(Defaults, LocalOptions(repoPath)), ctx, section, key);
  }

  /** What `LoadAll` reads: for every key, the last value the system, global,
      local and worktree files, in that order, give it. */
  lemma AllValues(w: World, ctx: Context, repoPath: string, section: string, key: string)
    requires LoadAllWithContext(w, ctx, repoPath).Ok?
    ensures Lookup(LoadAllWithContext(w, ctx, repoPath).value, section, key)
            == LastValue(FilesWrites(AllConfigPaths(w.env, ApplyAll(Defaults, AllOptions(repoPath))), w.files), section, key)
  {
    LoadedValues(w, ApplyAll(Defaults, AllOptions(repoPath)), ctx, section, key);
  }

  /** With the default options only the global file can be a source. */
  lemma GlobalOnly(env: Env)
    ensures forall i :: 0 <= i < |AllConfigPaths(env, Defaults)| ==>
              AllConfigPaths(env, Defaults)[i].typ == SourceTypeGlobal
    ensures |AllConfigPaths(env, Defaults)| <= 1
  {
    var r := AllConfigPaths(env, Defaults);
    forall i | 0 <= i < |r| ensures r[i].typ == SourceTypeGlobal {
      assert Candidate(env, Defaults, r[i].typ) != "";
    }
  }

  /** What a loaded store reads: for every key, the value the last file that
      assigns it gives (files in the order system, global, local, worktree,
      lines in file order), and no value for a key no file assigns. */
  lemma LoadedValues(w: World, o: ConfigOptions, ctx: Context, section: string, key: string)
    requires LoadFromFiles(w, o, ctx).Ok?
    ensures Lookup(LoadFromFiles(w, o, ctx).value, section, key)
            == LastValue(FilesWrites(AllConfigPaths(w.env, o), w.files), section, key)
  {
    FreshValues(FilesWrites(AllConfigPaths(w.env, o), w.files), LoadFromFiles(w, o, ctx).value, section, key);
  }

  /** A store built by replaying writes into a fresh store reads, for each
      key, the last write to it. */
  lemma FreshValues(ws: seq<Write>, r: Config, section: string, key: string)
    requires Replay(Empty, ws).Some? && Replay(Empty, ws).value.sections == r.sections
    ensures Lookup(r, section, key) == LastValue(ws, section, key)
  {
    ReplayLookup(Empty, ws, section, key);
  }

  /* ---------- ReloadWithContext ---------- */

  /** The reload that re-reads a non-empty list of recorded sources. Both
      copies of the store do this the same way: a fresh store, the sources
      in their recorded order, and a file's error wrapped with its path. */
  function ReloadSources(c: Config, w: World, ctx: Context): (r: Result<Config, Error>)
    requires |c.sources| > 0
    ensures r.Ok? <==> !CancelsWithin(ctx, 0, |c.sources|) && AllLoad(c.sources, w.files)
    ensures r.Ok? ==> r.value.sources == c.sources && WellFormed(r.value)
    ensures r.Ok? ==> var replayed := Replay(Empty, FilesWrites(c.sources, w.files));
                      replayed.Some? && replayed.value.sections == r.value.sections
    ensures r.Fail? ==> (ctx.CancelledAt? && r.error == ctx.cause) || FailedOn(Reloading, c.sources, r.error)
    ensures r.Fail? ==> exists i :: 0 <= i < |c.sources| && StopsAt(Reloading, c.sources, w.files, ctx, 0, i, r.error)
  {
    var r := ParseSources(Reloading, Empty, c.sources, w.files, ctx, 0);
    if r.Ok? then
      FreshWellFormed(FilesWrites(c.sources, w.files), r.value);
      r
    else r
  }

  /** What a reloaded store reads: for every key, the last value the recorded
      files, as they are now, give it; a key no file assigns any more is gone,
      whatever the store held before. */
  lemma ReloadedValues(c: Config, w: World, ctx: Context, section: string, key: string)
    requires |c.sources| > 0 && ReloadSources(c, w, ctx).Ok?
    ensures Lookup(ReloadSources(c, w, ctx).value, section, key)
            == LastValue(FilesWrites(c.sources, w.files), section, key)
  {
    FreshValues(FilesWrites(c.sources, w.files), ReloadSources(c, w, ctx).value, section, key);
  }

  /** The store `ReloadWithContext` leaves behind: the swap at the end of
      git.go's reload (lines 283-288) and gitcfg.go's takes the new sections
      and sources on success; on any error the old store, sources included,
      stays. */
  function AfterReload(c: Config, r: Result<Config, Error>): (after: Config)
    ensures r.Fail? ==> after == c
    ensures r.Ok? ==> after == r.value
  {
    if r.Ok? then r.value else c
  }

  /** `ReloadWithContext` of git.go: without recorded sources it loads the
      global configuration instead, wrapping that load's error. */
  function ReloadGit(c: Config, w: World, ctx: Context): (r: Result<Config, Error>)
    ensures |c.sources| == 0 ==>
              var g := LoadGlobalWithContext(w, ctx);
              (g.Ok? ==> r == g) && (g.Fail? ==> r == Fail(Wrapped("failed to reload configuration: ", g.error, "")))
    ensures |c.sources| > 0 ==> r == ReloadSources(c, w, ctx)
  {
    if |c.sources| == 0 then
      match LoadGlobalWithContext(w, ctx)
      case Fail(e) => Fail(Wrapped("failed to reload configuration: ", e, ""))
      case Ok(n) => Ok(n)
    else ReloadSources(c, w, ctx)
  }

  /** `ReloadWithContext` of gitcfg.go: without recorded sources there is
      nothing to do. */
  function ReloadGitcfg(c: Config, w: World, ctx: Context): (r: Result<Config, Error>)
    ensures |c.sources| == 0 ==> r == Ok(c)
    ensures |c.sources| > 0 ==> r == ReloadSources(c, w, ctx)
  {
    if |c.sources| == 0 then Ok(c) else ReloadSources(c, w, ctx)
  }

  /** The store either copy of `ReloadWithContext` leaves behind keeps its
      recorded sources, whether the reload succeeds or fails; a store without
      sources is left alone by gitcfg.go's reload, and git.go's reload then
      holds the global load's store, or the old one if that load fails. */
  lemma AfterReloadSources(c: Config, w: World, ctx: Context)
    ensures |c.sources| > 0 ==>
              && AfterReload(c, ReloadGit(c, w, ctx)).sources == c.sources
              && AfterReload(c, ReloadGitcfg(c, w, ctx)).sources == c.sources
    ensures |c.sources| == 0 ==>
              && AfterReload(c, ReloadGitcfg(c, w, ctx)) == c
              && AfterReload(c, ReloadGit(c, w, ctx))
                 == if LoadGlobalWithContext(w, ctx).Ok? then LoadGlobalWithContext(w, ctx).value else c
  {
  }

  /** Reloading a store just loaded from files, with the files unchanged,
      gives the same store back. */
  lemma ReloadReproducesLoad(w: World, o: ConfigOptions)
    requires LoadFromFiles(w, o, Background).Ok?
    requires |AllConfigPaths(w.env, o)| > 0
    ensures var c := LoadFromFiles(w, o, Background).value;
            ReloadGit(c, w, Background) == Ok(c) && ReloadGitcfg(c, w, Background) == Ok(c)
  {
    ReloadingAgrees(Empty, AllConfigPaths(w.env, o), w.files, Background, 0);
  }
}
