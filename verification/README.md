# go-gitcfg, modelled in Dafny

go-gitcfg is a read-only reader of git configuration. It finds the system,
global, local and worktree configuration files. It parses them line by line
(section headers, `key = value` assignments, comments). It can also ask
`git config --list --null --show-origin` for the merged listing. The result
is an in-memory store of `section -> key -> value`. The store answers typed
reads (`Get[T]`, `GetWithDefault`, `Has`, the section and key listings, user,
remote and branch records). It can reload itself from the files it was built
from. Failures of the store's reads, of parsing and of loading are
`ConfigError`s, which carry an operation, a key, a section, a source and a
wrapped cause. A cancelled context's error is returned as it is, and the
reloads and `GetUser` wrap errors with a message of their own.

This project states that behaviour as pure Dafny functions and proves what
the code promises about it. Each module follows one concern of the
repository:

- `Wrappers`: `Option` and `Result`.
- `Text`: the few `strings` and `strconv` helpers the code leans on, with
  Go's semantics (`Cut`, `Split`, `Join`, `TrimSpace` over Unicode white
  space, `TrimRight`, `TrimPrefix`, ASCII lower-casing, decimal formatting).
- `ConfigErrors`: `ConfigError`, its message, `Unwrap` and `Is`, plus the
  sentinel errors.
- `Keys`: `parseConfigKey`, the key, section and subsection validators,
  `buildFullKey`, and the validation chain of `setRawValue`.
- `Quoting`: `processQuotedValue` (Go's `strconv.Unquote`) and its inverse
  `strconv.Quote`.
- `Values`: `parseBool`, the integer parsers of `strconv`, and
  `convertValue`.
- `Store`: the store and everything that reads it (`Get`,
  `GetWithDefault`, `Has`, `GetSection(s)`, `GetKeys`, `Size`, `Clone`,
  `GetUser`, `GetRemote`, `GetBranchConfig`) and `setRawValue`.
- `Options`: the functional options and the way `LoadWithContext` folds them.
- `Paths`: where each configuration file is looked for.
- `Parser`: the line classifier that replaces the three regular
  expressions, `parseConfigReader`, the `bufio.Scanner` line splitter,
  `parseConfigFile`, the `git config` listing, and the file loop of
  `parseFromFiles` with its cancellation checks.
- `Load`: `LoadWithContext` and its `Load*` variants, and both copies of
  `ReloadWithContext`.

The machine is a parameter, `Load.World`. It holds the environment lookups
of `paths.go`, the outcome of `validateRepoPath`, what opening and scanning
each file yields, and how a run of `git` ends. A `context.Context` is
`Parser.Context`: either never cancelled, or cancelled from a given check
onwards with a given cause.

The reference semantics behind most of the contracts is a list of writes. A
file is the sequence of `(full key, value)` assignments its lines ask for
(`Parser.FileWrites`). A load is those sequences for all files in order
(`Parser.FilesWrites`). The store is what applying `setRawValue` to each write
gives (`Parser.Replay`). Reading a key gives the last value written to it
(`Parser.LastValue`).

The repository has two copies of the store, `git.go` and `gitcfg.go`. Their
reads and `setRawValue` are the same, so they share `Store`. Their
`ReloadWithContext` differs when the store has no recorded sources:
`git.go` loads the global configuration, and `gitcfg.go` does nothing. This
is `Load.ReloadGit` against `Load.ReloadGitcfg`.

## Model

| member | source | states |
|---|---|---|
| Text.TrimSpace | parser.go:188-194 | the result has no Unicode white space at either end and is no longer than the input |
| Text.TrimSpaceOfPadded | parser.go:188-194 | trimming white-space padding off a trimmed core gives exactly that core |
| ConfigErrors.ErrorStringShape | errors.go:24-39 | the message is `gitconfig: op`, then `section.key` (or only `key`, or nothing), then `(source: …)` when a source is set, then the cause's message, each part after a single space |
| ConfigErrors.ErrorString | errors.go:24-39 | every message starts with `gitconfig: ` and the operation, and ends with a space and the cause's message |
| ConfigErrors.Unwrap | errors.go:41-43 | unwrapping yields a strictly smaller error, and nothing only for a sentinel or plain error |
| ConfigErrors.UnwrapKeepsKind | errors.go:41-43 | a `ConfigError` unwraps to its cause, so `errors.Is` with a sentinel sees through it |
| ConfigErrors.IsIgnoresSourceAndCause | errors.go:45-51 | two `ConfigError`s match exactly when operation, key and section agree, whatever the source and cause |
| ConfigErrors.IsEquivalence | errors.go:45-51 | matching is reflexive, symmetric and transitive |
| ConfigErrors.IsThroughWrapping | errors.go:45-51 | a target wrapped with `%w` matches exactly when the target itself does |
| ConfigErrors.IsNeverSentinel | errors.go:45-51 | a `ConfigError` never matches a sentinel or a plain error |
| Keys.ParseConfigKey | utils.go:7-25 | a key without a dot is rejected with the invalid-key-format sentinel; otherwise section, dot and key name rebuild the input, and the section holds at most one dot |
| Keys.ParseConfigKeyBySegments | utils.go:7-25 | one segment is an error, two segments are (section, key), and three or more are (first two joined, the rest joined) |
| Keys.ParseThreeLevelExample | utils.go:15-22 | `remote.origin.url` splits into section `remote.origin` and key `url` |
| Keys.BuildFullKey | parser.go:237-254 | outside any section the key is used as written; under a section without a space it is `section.key` |
| Keys.BuildFullKeySubsection | parser.go:243-250 | a `[name "sub"]` header composes to `name.sub.key`, whatever `sub` holds |
| Keys.BuildFullKeyUnquoted | parser.go:251-253 | a header with a space but no quoted subsection is kept whole before the dot |
| Keys.ComposeDecomposePlain | parser.go:237-254 | composing a valid section and key and splitting the result again gives both back |
| Keys.ComposeDecomposeSubsection | parser.go:237-254 | composing `[name "sub"]` and a key and splitting again gives `name.sub` and the key, for a dot-free `sub` |
| Keys.SectionNameWithoutSpace | parser.go:268-284 | a section name without a space is valid exactly when it is a key name |
| Keys.QuotedSectionNameValid | parser.go:268-284 | `name "anything"` is a valid section name for every valid key name |
| Keys.ValidateKey | git.go:491-506 | an accepted key is a valid config key, splits like `parseConfigKey`, and has a valid (sub)section and key name; every rejection has the invalid-key-format kind |
| Keys.ValidateKeyAccepts | git.go:491-506 | the validation chain accepts exactly the keys with two or three segments that are all key names, and splits them before the last segment |
| Keys.AcceptedTwo | git.go:491-506 | two key names joined by a dot are accepted as (section, key) |
| Keys.AcceptedThree | git.go:491-506 | three key names joined by dots are accepted as (first two, last) |
| Keys.FourSegmentsRejected | git.go:491-506 | four key names joined by dots are rejected |
| Keys.SubsectionWithForeignCharRejected | parser.go:243-250 | a quoted subsection holding a character outside the key alphabet yields a key that is rejected |
| Keys.ForeignCharRejected | parser.go:256-266 | a key holding a character outside letters, digits, `-`, `_` and `.` is rejected |
| Quoting.ProcessQuotedValue | parser.go:230-235 | a value not wrapped in double quotes is kept as is; only a quoted value can fail, and then with a syntax error |
| Quoting.ProcessQuoted | parser.go:230-235 | unquoting what `strconv.Quote` produced gives the original text |
| Quoting.UnquoteEscapeAll | parser.go:230-235 | every escape `strconv.Quote` writes is read back as the character it stands for |
| Quoting.PlainTextUnquoted | parser.go:230-235 | quoted text without quotes, backslashes or control characters unquotes to itself |
| Quoting.InteriorQuoteRejected | parser.go:230-235 | a quoted value with an unescaped quote inside is a syntax error |
| Values.ParseBool | parser.go:312-326 | an empty value is true; otherwise the trimmed lower-cased word decides between the true and false words, and anything else is an `invalid boolean value` error |
| Values.ParseFormatBool | parser.go:312-326 | parsing the rendering of a boolean gives it back |
| Values.BlankValueRejected | parser.go:312-326 | a value of white space only is not a boolean |
| Values.PaddingIgnored | parser.go:312-326 | white space around a word does not change how it parses |
| Values.ScanDigits | parser.go:357-382 | a digit string scans to its decimal value when that is in range, and to out-of-range otherwise |
| Values.ParseUint | parser.go:357-382 | an accepted unsigned value fits the bit size; the empty string is a syntax error |
| Values.ParseInt | parser.go:335-356 | an accepted signed value lies in the two's-complement range of the bit size; the empty string is a syntax error |
| Values.ParseFormatUint | parser.go:357-382 | parsing the decimal rendering of an in-range unsigned number gives it back |
| Values.ParseFormatInt | parser.go:335-356 | parsing the decimal rendering of an in-range signed number gives it back |
| Values.UnsignedRange | parser.go:357-382 | digits parse as an unsigned integer kind exactly when their value is within its maximum, and otherwise give a range error |
| Values.SignedRange | parser.go:335-356 | digits parse as a signed integer kind exactly when their value is within its maximum, and otherwise give a range error |
| Values.NegativeRange | parser.go:335-356 | a minus sign and digits parse exactly when the negated value reaches the kind's minimum |
| Values.StrayCharacterRejected | parser.go:357-382 | a non-digit after in-range digits is a syntax error |
| Values.ConvertValue | parser.go:328-403 | a converted value has the requested type and range; a string is returned unchanged; every failure has the invalid-value kind and carries the parser's message |
| Values.ConvertRender | parser.go:328-403 | converting the rendering of a value of the requested type gives it back |
| Store.SourceTypeName | git.go:29-42 | each of the four source types has a non-empty name other than `unknown`; every other number is `unknown` |
| Store.SourceTypeNamesDistinct | git.go:29-42 | no two source types share a name |
| Store.SetRawValue | git.go:491-517 | a write succeeds exactly for accepted keys; it stores the value under the split key, adds at most that section, keeps every other entry and the sources, and fails with the invalid-key-format kind |
| Store.SetRawValueWellFormed | git.go:491-517 | writing keeps every section non-empty and every name valid |
| Store.Get | git.go:520-566 | a read fails with the invalid-key-format, section-not-found, key-not-found or invalid-value kind exactly when the key lacks a dot, the section is missing, the key is missing, or the value does not convert; otherwise it returns the converted stored value |
| Store.SetThenGet | git.go:491-566 | a string read right after a successful write gives the written value |
| Store.SetKeepsOthers | git.go:491-566 | a write leaves the read of every other key unchanged, for a key of another section and for a key of a section that already existed |
| Store.SetOpensSection | git.go:491-566 | a write into a missing section creates it: another key of that section reads as key-not-found instead of section-not-found |
| Store.GetWithDefault | git.go:569-575 | the default is returned exactly when the typed read fails; otherwise the read's value is returned |
| Store.DefaultWhenUnreadable | git.go:569-575 | a missing or unconvertible value yields the default |
| Store.Has | git.go:118-136 | `Has` holds exactly when the key cuts at its first dot into a section and key that are stored |
| Store.HasAgreesOnTwoSegments | git.go:118-136 | for two-segment keys `Has` agrees with a string read succeeding |
| Store.HasVersusGet | git.go:118-136 | after storing a three-segment key, `Get` finds it while `Has` does not, because `Has` cuts at the first dot |
| Store.GetSection | git.go:138-152 | the copy holds exactly the section's stored keys, each with its stored value |
| Store.GetSections | git.go:154-163 | the list holds exactly the sections present |
| Store.GetSectionSize | git.go:173-183 | the size is the number of keys in the section, and zero for a missing section |
| Store.GetKeysInSection | git.go:199-214 | the list holds exactly the section's keys |
| Store.GetKeys | git.go:185-197 | every stored entry appears as `section.key`, and every listed name has a dot |
| Store.GetKeysReadable | git.go:185-197 | in a well-formed store a name is listed exactly when it reads back as a string |
| Store.GetKeysDistinct | git.go:185-197 | in a well-formed store different entries give different dotted names |
| Store.Size | git.go:313-323 | the size counts every (section, key) entry once |
| Store.IsEmpty | git.go:325-327 | the store is empty exactly when no key has a value |
| Store.GetAll | git.go:216-228 | the copy holds exactly the stored entries with their values |
| Store.GetSources | git.go:230-237 | the copy lists the recorded sources in order |
| Store.Clone | git.go:291-311 | the clone reads every key alike and records the same sources |
| Store.CloneReadsAlike | git.go:291-311 | typed reads and `Has` give the same answers on the clone |
| Store.GetString | git.go:91-93 | a string read succeeds and fails exactly as the typed read does |
| Store.GetUser | git.go:329-344 | the user is returned exactly when both `user.name` and `user.email` read, a missing name is reported wrapped as `failed to get user.name`, and a missing email after a readable name as `failed to get user.email` |
| Store.UserAgrees | git.go:329-344 | the user record exists exactly when the `user` section stores both `name` and `email`, and then holds those stored values |
| Store.GetRemote | git.go:346-386 | an empty section `remote.<name>` (name defaulting to `origin`) is a section-not-found error; otherwise the record carries the url, the fetch URL and the push URL (empty when absent), at most one fetch and at most one push |
| Store.GetRemoteURL | git.go:388-393 | the URL is the string read of `remote.<name>.url`, and of `remote.origin.url` for the empty name; for a dot-free name it reads exactly when section `remote.<name>` stores a `url`, and is that value |
| Store.RemoteURLAgrees | git.go:346-393 | for a dot-free name a URL that reads agrees with the url of the remote record |
| Store.GetBranchConfig | git.go:395-421 | an empty section `branch.<name>` is a section-not-found error; otherwise the record carries its remote, merge and rebase values, empty when absent |
| Store.BranchFieldsAgree | git.go:395-421 | for a dot-free name the record's remote, merge and rebase are the string reads of `branch.<name>.remote`, `.merge` and `.rebase`, empty when a read fails |
| Store.BranchExists | git.go:395-421 | in a well-formed store the record exists exactly when some `branch.<name>.<k>` reads as a string |
| Options.ApplyAllAppend | options.go:72-74 | applying two option lists in a row is applying their concatenation |
| Options.ApplyAllSwitch | options.go:20-54 | a source or mode switch is on after the options exactly when it was on or its option was given |
| Options.ApplyAllFlags | options.go:20-54 | each include flag and the git-command mode is on exactly when it was on before or its option appears |
| Options.ApplyAllSettings | options.go:44-60 | the repository path and timeout are those of the last option that sets them, else unchanged |
| Options.TrailingRepoPath | options.go:44-48 | the last repository-path option wins |
| Options.GlobalAlwaysSelected | options.go:66-74 | no option list can deselect the global file |
| Options.GlobalOptionsAreDefaults | options.go:93-107 | `LoadGlobal` and `LoadGlobalWithContext` load with the default options |
| Options.LocalOptionsSelect | options.go:109-111 | `LoadLocal` selects global and local files at the given repository path |
| Options.AllOptionsSelect | options.go:113-115 | `LoadAll` selects all four files at the given repository path |
| Paths.FirstFileLine | paths.go:53-64 | the first line starting with `file:` is found, and no earlier line starts so |
| Paths.ParseSystemConfigPath | paths.go:53-64 | the path is what follows `file:` on the first such line, up to a tab; with no such line it is empty |
| Paths.SystemPathOfListing | paths.go:53-64 | a listing whose first line is `file:<path>\t…` yields exactly that path |
| Paths.SystemConfigPath | paths.go:34-79 | the path git reports wins; else `/etc/gitconfig` if it exists; else the alternative location if it exists; else none |
| Paths.GlobalConfigPath | paths.go:81-91 | the XDG file wins when it exists, else the home file; there is none exactly when neither exists |
| Paths.XDGConfigPath | paths.go:93-110 | a returned XDG path exists |
| Paths.HomeConfigPath | paths.go:112-124 | a returned home path exists |
| Paths.RepoConfigPath | paths.go:126-150 | with no repository path there is none; a returned path exists and is the repository path joined with the file name |
| Paths.AllConfigPaths | paths.go:152-192 | at most four sources, in the order system, global, local, worktree, each with a non-empty path; a type appears exactly when its candidate path exists and is selected |
| Parser.CommentIff | parser.go:183-185 | a line is a comment exactly when its first non-`\s` character is `#` or `;` |
| Parser.MatchHeaderComplete | parser.go:26 | every way the header pattern can match a line is the match found |
| Parser.MatchKeyValueComplete | parser.go:28 | every way the key-value pattern can match a line is the match found |
| Parser.ClassifyHeader | parser.go:187-190 | a line matching the header pattern opens the section named by the trimmed capture |
| Parser.ClassifyAssignment | parser.go:192-194 | a key-value line whose key does not start like a header or comment assigns the trimmed value to the trimmed key |
| Parser.ClassifyKeyValueLine | parser.go:183-194 | every key-value line that is neither a comment nor a header assigns its trimmed value to its trimmed key, whatever the key starts with |
| Parser.ClassifyIgnored | parser.go:183-216 | a line is skipped exactly when it is empty, a comment, or matches neither pattern |
| Parser.ReplayAppend | parser.go:174-228 | applying two lists of writes in a row is applying their concatenation |
| Parser.ReplayRejects | git.go:491-506 | a list of writes fails exactly when one of its keys is not accepted |
| Parser.ReplayLookup | git.go:491-517 | after the writes each key reads as the last value written to it, or as before when none was |
| Parser.ReplayWellFormed | git.go:491-517 | applying writes keeps a store well formed |
| Parser.ParseLine | parser.go:192-215 | an assignment fails exactly when its value does not unquote or its full key is not accepted; the error is a parse error at `file:line`, of the invalid-key-format kind exactly when the value did unquote, and depends only on the section, the line and its position |
| Parser.ParseLines | parser.go:174-217 | the parse succeeds exactly when every line parses in its section, and then equals applying the file's writes; a failure is the error of the first line that does not parse, in the section the lines before it leave open, at that line's number |
| Parser.ParsedValues | parser.go:174-217 | after a successful parse every key reads as its last assignment in the file, or as before |
| Parser.KeyOutsideSection | parser.go:207-215 | an assignment of a dot-less key before any header stops the parse with an invalid-key-format error naming the key and the line |
| Parser.HeaderThenAssignment | parser.go:183-216 | `[name]` followed by `key = value` stores the value under (name, key) and changes nothing else |
| Parser.ScanLines | parser.go:179-181 | no scanned line holds a newline, and there are none exactly for empty text |
| Parser.ScanTerminated | parser.go:179-181 | lines joined with `\n` or `\r\n`, with or without a final unterminated line, scan back to exactly those lines |
| Parser.ParseReader | parser.go:174-228 | the read succeeds exactly when scanning did not stop and every line parses; a scanner stop after good lines is reported as `scanner error` for the file; a file whose lines do not all parse fails with the error of its first bad line |
| Parser.ParseConfigFile | parser.go:160-172 | a file that cannot be opened is reported as `failed to open config file`; an opened file is read as `parseConfigReader` reads it, with its path as the source; loading succeeds exactly when the file opens, scans and parses, and then equals applying its writes |
| Parser.LinesErrorStoreFree | parser.go:174-217 | a run of lines that does not parse fails with the same error whatever store it is parsed into |
| Parser.FileErrorStoreFree | parser.go:160-172 | a file that does not load fails with the same error whatever store it is read into |
| Parser.FileError | parser.go:160-172 | a file that does not load has one error, the one `parseConfigFile` gives it in every store |
| Parser.ParseGitConfigLine | parser.go:136-158 | a line without `file:` has no source; with `file:` and no tab nothing is read; otherwise the source is the tab-free text between `file:` and the tab, and a key is trimmed, `=`-free and taken from before an `=` |
| Parser.OriginLine | parser.go:136-158 | reading the record `file:<source>\t<key>=<value>` gives back source, key and value |
| Parser.BareLine | parser.go:136-158 | a record without origin reads as key and value with no source |
| Parser.ListingRecords | parser.go:114 | the records hold no NUL, and joining them with NUL and adding the trimmed NULs rebuilds the output |
| Parser.ApplyListing | parser.go:115-131 | the listing applies exactly when no record with a key has a rejected key, and then equals applying the writes; a failure is the error of the first such record: a parse error naming its key, with the record's origin as the source, wrapping the key's validation error |
| Parser.ParseGitConfigOutput | parser.go:113-134 | the NUL-separated output applies exactly when no record is refused, and then equals applying its writes; a failure is the first refused record's error |
| Parser.RecordsOfListing | parser.go:113-134 | splitting a NUL-terminated listing gives back its records |
| Parser.GitListingRoundTrip | parser.go:113-158 | a listing of entries is read back as exactly those writes, and is accepted exactly when every key is |
| Parser.BuildSourceFlags | parser.go:97-111 | `--system`, `--global` and `--local` appear exactly when their file is selected, in that order |
| Parser.GitArgs | parser.go:45-50 | the command is `config --list --null --show-origin` followed by the source flags |
| Parser.GitDir | parser.go:52-55 | the command runs in the repository path when one is set |
| Parser.ParseFromGitCommand | parser.go:33-73 | a failed run is `git config failed` with its stderr, a run that cannot start is `failed to execute git config`; otherwise it equals applying the listing's writes to a fresh store, with no recorded sources, or fails with the error of the first refused record |
| Parser.ParseSources | parser.go:75-95 | loading succeeds exactly when no cancellation check fires and every file loads; then the sources are recorded in order and the sections equal applying all files' writes; a failure stops at a file `i` whose predecessors all load with no check firing, and is the context's cause when the check before `i` fires, else file `i`'s own error (wrapped with its path on reload) |
| Parser.ParseFromFiles | parser.go:75-95 | the files of the selected paths are loaded into a fresh store in the order system, global, local, worktree; a failure is the context's cause or the error of the first file that does not load, as in `Parser.ParseSources` |
| Parser.ReplayIgnoresSources | parser.go:75-95 | what the writes do to the sections does not depend on the recorded sources |
| Parser.ReloadingAgrees | git.go:264-289 | where loading the sources succeeds, reloading them gives the same store |
| Load.GitCallFor | parser.go:39-43 | the git command gets a deadline exactly when the timeout is positive, and that deadline is the timeout |
| Load.LoadFromGit | parser.go:33-73 | a git-based load records no sources; a failed lookup of `git` is reported as `failed to execute git config` first, then a context already done; otherwise the result is that of `parseFromGitCommand` on the run, and on success equals applying the listing's writes to a fresh store |
| Load.LoadFromFiles | parser.go:75-95 | a file-based load succeeds exactly when no cancellation fires and every selected file loads; it records the selected paths; a failure is the context's cause or the error of the first file that does not load |
| Load.LoadWithOptions | options.go:76-90 | a repository path that fails its check with local or worktree selected is `invalid repository path`; otherwise the result is exactly the git load or the file load the options select, and it is well formed |
| Load.LoadWithContext | options.go:66-91 | the options are folded over the defaults (global file, 30-second timeout) before loading; a load through git records no source files, and a file load records exactly the config paths the options select |
| Load.Load | options.go:62-64 | `Load` is `LoadWithContext` with a context that is never cancelled, so every failure is a structured load or parse error |
| Load.LoadGlobalWithContext | options.go:105-107 | it is the file load with the default options, so only the global file can be recorded as a source |
| Load.LoadLocalWithContext | options.go:109-111 | an invalid repository path is reported as such; otherwise it is the file load of the global and local files, and only those can be recorded as sources |
| Load.LoadAllWithContext | options.go:113-115 | an invalid repository path is reported as such; otherwise it is the file load of all four files; sources are recorded in type order and cover exactly the types whose file exists |
| Load.LoadedValues | parser.go:75-95 | after a file-based load each key reads as the last assignment to it across all files |
| Load.GlobalValues | options.go:105-107 | after `LoadGlobal` each key reads as the last assignment to it in the global file |
| Load.LocalValues | options.go:109-111 | after `LoadLocal` each key reads as the last assignment to it in the global and then the local file |
| Load.AllValues | options.go:113-115 | after `LoadAll` each key reads as the last assignment to it across the system, global, local and worktree files |
| Load.ReloadSources | git.go:264-289 | a reload succeeds exactly when no cancellation fires and every recorded file still loads; it keeps the recorded sources and on success its sections are those of a fresh store built from the recorded files as they are now; a failure stops at the first recorded file that does not load or whose check finds the context done, with the context's cause or that file's error wrapped with its path |
| Load.ReloadedValues | git.go:264-289 | after a reload each key reads as the last assignment to it across the recorded files, so a key removed from the files is gone |
| Load.AfterReload | git.go:283-288 | the store keeps its old contents after a failed reload and takes the new store after a successful one |
| Load.AfterReloadSources | git.go:243-288 | after either copy of the reload a store with recorded sources keeps them; without sources gitcfg.go leaves the store alone and git.go holds the global load, or the old store if that load fails |
| Load.ReloadGit | git.go:243-289 | with no recorded sources the global configuration is loaded, and its error wrapped as `failed to reload configuration`; otherwise the sources are read again |
| Load.ReloadGitcfg | gitcfg.go:173-208 | with no recorded sources nothing happens; otherwise the sources are read again |
| Load.ReloadReproducesLoad | git.go:243-289 | reloading a store just loaded from unchanged files gives the same store, for both copies of `ReloadWithContext` |

## Left out

- Unicode letters and digits: `isValidKeyName` uses `unicode.IsLetter` and `unicode.IsDigit`; the model admits ASCII letters and digits only.
- Floating point: `GetFloat64` and the `float64` branch of `convertValue` are not modelled.
- `strconv.Unquote` of `\x` and octal escapes above 0x7F gives a raw byte in Go; the model reads the escape as the code point of that value. Invalid UTF-8 is not modelled.
- The mutex that guards the store, and concurrent use, are not modelled: every operation is a pure function of the store.
- `validateRepoPath`, `os.Stat`, `os.Open`, `os.UserHomeDir`, environment variables, the lookup of `git` on the search path and the running of `git` are outcomes supplied by `Load.World`.
- The timeout is only the deadline handed to the git run (`Load.GitCall.deadline`); what a deadline does to the run is part of the run's outcome.
- A context that ends while git runs kills the process, which Go reports as an exit error (`git config failed: …`); the model leaves this to the run's outcome in `Load.World`, since the context is not part of `Load.GitCall`. Only a context already done before the start is modelled.
- `int` and `uint` are taken to be 64 bits wide, as on 64-bit platforms; on a 32-bit platform `Atoi` and the `int`/`uint` targets have 32-bit ranges.
- Values.ConvertValue: a failed integer conversion's message quotes the value with `strconv.Quote`, which writes a `\u`/`\U` escape for every non-ASCII character that `unicode.IsPrint` rejects (U+00A0, U+00AD, U+FEFF and others); the model writes such characters unchanged, because the Unicode printability tables are not modelled. ASCII characters are escaped as Go does.
- Store.Get: carries the message of `Values.ConvertValue`, with the same difference for non-printable non-ASCII characters.
- `bufio.Scanner`'s line-length limit and read errors are the `stopped` field of `Parser.File`, not computed from the text.
- `Config.String`, `GetMultiValue`, `GetCoreConfig`, `GetHTTPConfig`, `GetInt` and `GetBool` are not modelled; `Get` with the integer and boolean types covers the last two.
- The continuation regular expression compiled by `newParser` (parser.go:29) is never used by the parser, so it is not modelled.
- The git listing is modelled in the format `parseGitConfigLine` reads, `file:<path>\t<key>=<value>` records separated by NUL. The listing git itself prints may be laid out differently; that depends on git, not on this code.
