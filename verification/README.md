# forgesync, modelled in Dafny

forgesync mirrors every repository of a Forgejo user to GitHub or to another Forgejo
instance (Codeberg or any self-hosted one). For each repository it creates or updates
the destination repository: description, visibility, feature switches and topics. It then
sets up a Forgejo push mirror so that the source forge keeps pushing to the destination.

This project models the logic that decides what forgesync does to each repository. It
uses immutable datatypes and pure functions, and it proves properties of them. Every
call forgesync makes to a forge API is an entry in the call trace of a returned
`Traced(calls, result)` value. Every answer a forge gives is a parameter. Python
exceptions are one `Errors.Error` sum. `isinstance` tests are predicates over it.

Modules follow the source files:

- `Errors`, `Wrappers`: the exception kinds and their hierarchy; `Option`, `Result` and the `Traced` call trace.
- `Platforms` (platform.py): the three platforms, their string values and default instances.
- `Sync` (sync.py): repository features, the synced-repository descriptor and the name index the syncers build.
- `Source` (source.py): the Forgejo API repository record and the validating `SourceRepository` constructor.
- `Mirror` (mirror.py): config overlay and validity, matching of existing push mirrors by remote address, and the add / delete-and-re-add / leave-alone decision. It also holds the batch reconciler.
- `Remirror` (remirror.py): the `always` / `never` modes and a hand-written parser for the six-field `Y-MM-DD HH:MM:SS` wildcard rule, with a parse/print round trip.
- `Filter` (filter.py): the fork / mirror / private checks and the include and exclude patterns. The regular-expression engine is a parameter `fullMatch(pattern, name)`.
- `Dest` (dest.py): destination parsing, default instances, rendering, and the choice of syncer.
- `Forge`: the calls both syncers make, as one trace alphabet.
- `Forgejo` (forgejo.py), `Github` (github.py): the two syncers.
- `Task` (task.py): topic defaulting, the description template, and the mirror gate.
- `Cli` (cli.py): token lookup, config construction, the source listing and the per-repository loop with its error policy.

Notes on how the model reads the source where its files disagree with each other:

- mirror.py:90 reads `repo.needs_mirror`, but `SyncedRepository` (sync.py:21-28) has only `mirrored`. The model reads the test as "not already mirrored".
- github.py:113-120 and task.py:60-63 call `mirror_repo` with neither the repository argument nor the list of existing push mirrors (mirror.py:80-85). Those two call sites are an abstract `Forge.Call.MirrorRepo(mirrorer, synced, config)` action, naming the push mirrorer that `main` built and handed to the syncer and to every task. How the action ends is an input. `Github.ForcedMirrorAlwaysCreates` connects that action to `Mirror.MirrorRepo`.
- github.py:12 imports `Remirror` from mirror.py, and github.py:117 uses `Remirror.YES`, but mirror.py defines no `Remirror`. As written, importing cli.py (through task.py, dest.py and github.py) therefore fails with `ImportError` before `main` runs. The model assumes the import resolves and reads `Remirror.YES` as `remirror = True`; every statement about `main` below rests on that assumption.
- `Destination.parse` uses a regular expression whose `.` does not match a line break. So an explicit instance must be non-empty and contain no `'\n'` (`Dest.InstanceText`).
- `GITHUB_INSTANCE` is PyGithub's default base URL. The model gives it as `"https://api.github.com"`. No proof depends on anything but its being non-empty and free of line breaks.

## Model

| member | source | states |
|---|---|---|
| `Errors.Hierarchy` | src/forgesync/sync.py:42-51 | A skipped-repository error is a repository error, which is a sync error, which is a runtime error; a mirror error is a runtime error but not a sync error. |
| `Sync.FeaturesEnumerated` | src/forgesync/sync.py:10-18 | There are exactly eight features, and no two share a string value. |
| `Sync.FeatureRoundTrip` | src/forgesync/sync.py:10-18 | Looking a feature up by its string value gives the feature back, and only its own value does. |
| `Sync.IndexBy` | src/forgesync/forgejo.py:40-44 | Every listed repository with a name is in the index; each entry sits under its own name, and it is the last listed repository with that name. |
| `Platforms.FromValueIff` | src/forgesync/platform.py:8-11 | A string names a platform exactly when it is that platform's value. |
| `Platforms.ValueShape` | src/forgesync/platform.py:9-11 | Every platform value is non-empty, contains no `=` and is already lower-case, so splitting at `=` and lower-casing recover it. |
| `Platforms.ValueInjective` | src/forgesync/platform.py:8-11 | Distinct platforms have distinct values. |
| `Source.NewSourceRepository` | src/forgesync/source.py:10-16 | Construction fails with the `RuntimeError` exactly when the owner, the owner's login or the name is missing; otherwise name and owner are the record's name and owner login. |
| `Source.ToStringRoundTrip` | src/forgesync/source.py:18-20 | `owner/name` splits back into owner and name at its first `/` when the owner has none. |
| `Mirror.Overlay` | src/forgesync/mirror.py:20-29 | Each of the four fields is the override's value when it is set, the base's otherwise. |
| `Mirror.OverlayUnsetIsIdentity` | src/forgesync/mirror.py:20-29 | Overlaying an all-unset config gives the base back. |
| `Mirror.OverlayValidOverrideWins` | src/forgesync/mirror.py:20-29 | A fully set override wins entirely. |
| `Mirror.OverlayValidIff` | src/forgesync/mirror.py:20-36 | The overlay is valid exactly when every field is set on at least one side. |
| `Mirror.OverlayAssociative` | src/forgesync/mirror.py:20-29 | Overlaying twice equals overlaying once with the overlaid override. |
| `Mirror.MatchingKeepsExactly` | src/forgesync/mirror.py:74-76 | Exactly the listed mirrors whose remote address equals the clone URL are kept. |
| `Mirror.MatchingIsSubsequence` | src/forgesync/mirror.py:74-76 | The kept mirrors are in listing order. |
| `Mirror.GetMatchingMirrors` | src/forgesync/mirror.py:57-78 | Two repositories with one name give `MirrorError("duplicate repositories")`, and only then; otherwise the keys are exactly the names, each mapped to its matching mirrors in listing order. |
| `Mirror.ReplaceExistingNamed` | src/forgesync/mirror.py:117-130 | With every match named: under `remirror`, one delete followed by one add per match, and the result is the last add; otherwise no call. |
| `Mirror.ReplaceExistingUnnamed` | src/forgesync/mirror.py:117-130 | A match without a remote name raises `MirrorError("missing remote name")` after the delete/add pairs for the matches before it (none without `remirror`), and never syncs. |
| `Mirror.MirrorRepoSkipsMirrored` | src/forgesync/mirror.py:90-92 | An already mirrored repository gets no call and no mirror. |
| `Mirror.MirrorRepoInvalidConfig` | src/forgesync/mirror.py:94-97 | An invalid effective config raises `MirrorError("config is invalid")` before any call. |
| `Mirror.MirrorRepoCreatesWhenNoneMatch` | src/forgesync/mirror.py:99-144 | With no match: exactly one add, to the clone URL with the new owner as user and without SSH, then a sync exactly when `immediate`; that add is returned. |
| `Mirror.MirrorRepoLeavesExisting` | src/forgesync/mirror.py:115-144 | With matches and `remirror` off: no call, and no mirror is returned. |
| `Mirror.MirrorRepoReplacesExisting` | src/forgesync/mirror.py:115-144 | With k matches and `remirror` on: k delete-then-add pairs, then a sync when `immediate`; the last add is returned. |
| `Mirror.MirrorRepoUnnamed` | src/forgesync/mirror.py:115-130 | The first unnamed match aborts with `MirrorError` after the pairs for the earlier matches, and no sync happens. |
| `Mirror.ReplaceExistingCounts` | src/forgesync/mirror.py:117-130 | With named matches, the loop adds and deletes equally often: once per match under `remirror`, never otherwise. |
| `Mirror.MirrorRepoNeverDuplicates` | src/forgesync/mirror.py:115-133 | On success, adds equal deletes, plus one when nothing matched: a reconcile never leaves an extra mirror behind. |
| `Mirror.MirrorRepoSyncIffCreated` | src/forgesync/mirror.py:135-140 | A sync is issued exactly when a mirror was created and `immediate` is set, and it is the last call. |
| `Mirror.MirrorRepos` | src/forgesync/mirror.py:146-165 | Duplicate names fail before any forge-writing call (the push-mirror listings read before the check are inputs, not trace entries); otherwise repositories are reconciled in order and the created mirrors are returned in input order, or the first failure is returned with the calls made up to it. |
| `Mirror.ReconcileEach` | src/forgesync/mirror.py:155-163 | The loop: success exactly when every repository's reconcile succeeds; on success the concatenated calls and created mirrors; on failure the first failing repository's error after the calls of those before it. |
| `Remirror.ShouldRemirror` | src/forgesync/remirror.py:9-28 | `always` is true and `never` false for every clock; every error is a `RemirrorSyntaxError`. |
| `Remirror.ParseYearSound` | src/forgesync/remirror.py:19 | A parsed year field is `*` or a non-empty digit run, and it is exactly the text it consumed. |
| `Remirror.ParseTwoSound` | src/forgesync/remirror.py:19-21 | A parsed month, day, hour or minute field is the one-character wildcard `*` or exactly two digits, and it is exactly the text it consumed. |
| `Remirror.ParseRuleSound` | src/forgesync/remirror.py:17-28 | A string the parser accepts is a well-formed rule written out. |
| `Remirror.ParseRuleComplete` | src/forgesync/remirror.py:17-28 | Every well-formed rule, written out, parses back to itself. |
| `Remirror.RuleTextIsNotAMode` | src/forgesync/remirror.py:12-15 | No rule text is `always` or `never`, so the literal modes never shadow a rule. |
| `Remirror.ShouldRemirrorRule` | src/forgesync/remirror.py:30-44 | For a well-formed rule the answer is true exactly when every non-`*` field's decimal value equals the clock's field. |
| `Remirror.ShouldRemirrorErrIff` | src/forgesync/remirror.py:12-28 | The syntax error is raised exactly for strings that are neither mode nor the text of a well-formed rule. |
| `Remirror.AllWildcardsAlwaysFire` | src/forgesync/remirror.py:30-44 | `*-*-* *:*:*` is true for every clock. |
| `Remirror.OutOfRangeMonthNeverFires` | src/forgesync/remirror.py:30-44 | A rule with a month above 12 parses but never fires for a clock within calendar range. |
| `Remirror.FirstOfMonthExample` | src/forgesync/remirror.py:12-44 | `2024-*-01 00:00:00` fires on 1 March 2024 at midnight but not on the 2nd. |
| `Remirror.BadRuleRaises` | src/forgesync/remirror.py:26-28 | A rule other than the two modes that does not start with `*` or a digit raises `RemirrorSyntaxError` naming the rule, whatever the clock says. |
| `Filter.Matches` | src/forgesync/filter.py:15-21 | True exactly when some pattern fully matches the name; false for no patterns. |
| `Filter.PassesIffEligible` | src/forgesync/filter.py:26-48 | The loop body's three checks accept exactly the repositories that are no fork, mirror or private, match some include when there are includes, and match no exclude. |
| `Filter.Filter` | src/forgesync/filter.py:23-48 | Every yielded repository is an eligible input, and every eligible input is yielded. |
| `Filter.FilterIsKeep` | src/forgesync/filter.py:23-48 | The filter keeps, in order, exactly the repositories the loop body accepts. |
| `Filter.FilterIsSubsequence` | src/forgesync/filter.py:26-48 | The output is a subsequence of the input. |
| `Filter.ExcludesWin` | src/forgesync/filter.py:42-46 | A repository matched by an exclude is never yielded, whatever the includes. |
| `Filter.NoPatternsKeepsPublicOriginals` | src/forgesync/filter.py:27-40 | Without patterns, a repository is yielded exactly when it is no fork, mirror or private. |
| `Dest.NewDestination` | src/forgesync/dest.py:16-28 | An explicit instance is kept verbatim; without one GitHub and Codeberg get their default instance and Forgejo raises `DestinationError`. |
| `Dest.Parse` | src/forgesync/dest.py:30-43 | Parsing fails only with `ValueError` or `DestinationError`. |
| `Dest.ParseShapeIff` | src/forgesync/dest.py:32-34 | `ValueError` is raised exactly for strings not of the form `P` or `P=I` with `P` non-empty and `=`-free and `I` non-empty and line-break-free. |
| `Dest.RejectsMissingParts` | src/forgesync/dest.py:32-34 | A string starting with `=` (empty platform), a platform followed by a bare `=` (empty instance) and the empty string all raise `ValueError`. |
| `Dest.SplitAtFirstEquals` | src/forgesync/dest.py:32-36 | The split is at the first `=`; the instance may itself contain `=`. |
| `Dest.ParseWithInstance` | src/forgesync/dest.py:30-43 | `P=I` with `P` lower-casing to a platform value gives that platform with instance `I`, whatever the case of `P`. |
| `Dest.ParseBare` | src/forgesync/dest.py:30-43 | A bare platform name gives the default instance for GitHub and Codeberg and `DestinationError` for Forgejo. |
| `Dest.ParseUnknownPlatform` | src/forgesync/dest.py:38-41 | A platform part that lower-cases to no platform value raises `DestinationError` naming the part as written. |
| `Dest.ParsedInstanceIsText` | src/forgesync/dest.py:32-36 | Every parsed destination has a non-empty, line-break-free instance. |
| `Dest.ToStringRoundTrip` | src/forgesync/dest.py:71-73 | Parsing `platform=instance` gives the destination back, for every instance the parser can produce. |
| `Dest.EmptyInstanceDoesNotRoundTrip` | src/forgesync/dest.py:19-20 | For every platform the constructor keeps an empty explicit instance, but its rendering `<platform>=` does not parse. |
| `Dest.MakeSyncer` | src/forgesync/dest.py:45-69 | The GitHub syncer exactly for GitHub, the Forgejo syncer for Forgejo and Codeberg, each on the destination's instance with the given features (and, for GitHub, the push mirrorer and the config). It fails with `SyncError` exactly when the chosen constructor does (GitHub: an unauthenticated user; Forgejo and Codeberg: a user without login), and otherwise holds that constructor's syncer, with its user and name index. |
| `Forgejo.NewForgejoSyncer` | src/forgesync/forgejo.py:24-46 | A missing login raises `SyncError`, and only then; otherwise every listed repository with a name is indexed under it, and of two with the same name the later one is kept, as a dict keeps it. |
| `Forgejo.EditFor` | src/forgesync/forgejo.py:81-103 | The edit carries the rendered description and the source name, copies the source's archived flag, default branch, visibility, template flag, website and wiki branch, and turns on exactly the requested features among the seven Forgejo can switch. |
| `Forgejo.SyncWithoutLogin` | src/forgesync/forgejo.py:55-56 | Without a login the sync raises `SyncError` before any call. |
| `Forgejo.SyncSkipsArchivedOrFork` | src/forgesync/forgejo.py:62-69 | An existing archived or forked destination raises `RepositorySkippedError` with no call, the archived message taking precedence. |
| `Forgejo.SyncCreatesOnlyAbsent` | src/forgesync/forgejo.py:70-77 | A name missing from the index gets exactly one create, first, without auto-init; a present name gets none. |
| `Forgejo.SyncEditsThenReplacesTopics` | src/forgesync/forgejo.py:81-128 | Exactly one edit follows; a malformed answer raises `RepositoryError` with no topics call; otherwise the topics are replaced with exactly the given list and the descriptor comes from the edited repository, platform Forgejo, not mirrored. |
| `Forgejo.SyncNeverMirrors` | src/forgesync/forgejo.py:121-128 | The Forgejo syncer never issues a mirror action and never reports a repository as mirrored. |
| `Github.NewGithubSyncer` | src/forgesync/github.py:32-64 | An unauthenticated user raises `SyncError`, and only then; otherwise every listed repository is indexed under its name, and of two same-name repositories (different owners) the later one is kept, as a dict keeps it. |
| `Github.CreateFor` | src/forgesync/github.py:87-99 | The create carries the source name, the rendered description, no auto-init, no downloads, the source's website and visibility (`NotSet` when missing), and turns on exactly the requested features among issues, projects, wiki and discussions. |
| `Github.EditFor` | src/forgesync/github.py:128-142 | The edit carries the source name and rendered description, copies website, visibility, template flag, default branch and archived flag from the source (a missing one is sent as `NotSet`, written `None`), and turns on exactly the requested switchable features. |
| `Github.SyncSkipsArchivedOrFork` | src/forgesync/github.py:79-86 | An existing archived or forked destination raises `RepositorySkippedError` with no call, archived first. |
| `Github.SyncCreatesOnlyAbsent` | src/forgesync/github.py:87-99 | A name missing from the index gets exactly one create, first; a present name gets none. |
| `Github.SyncProbeDecidesMirror` | src/forgesync/github.py:103-126 | A failed content probe issues exactly one mirror action with `remirror` and `immediate` forced on; no mirror raises `RepositoryError`, a mirror error propagates, success marks the result mirrored; a successful probe issues none. |
| `Github.SyncEditsThenReplacesTopics` | src/forgesync/github.py:128-154 | The sync ends with exactly one edit and then the topic replacement with the given list, and reports a GitHub descriptor of the edited repository. |
| `Github.ForcedMirrorAlwaysCreates` | src/forgesync/github.py:111-126 | Under the forced config the reconciler always returns a mirror, syncs it last, and adds no more mirrors than it deletes plus one. |
| `Task.FormatPiecesText` | src/forgesync/task.py:45-51 | Rendering the written form of a template's pieces substitutes exactly those pieces: the renderer and the template writer agree. |
| `Task.FormatPlainText` | src/forgesync/task.py:45-51 | Text without braces renders as itself. |
| `Task.TwoPlaceholders` | src/forgesync/task.py:45-51 | A template of two known placeholders around brace-free text renders to the two field values around that text. |
| `Task.DefaultTemplate` | src/forgesync/cli.py:30 | The default template renders to the description, ` (Mirror of `, the web URL and `)`. |
| `Task.UnknownPlaceholderFails` | src/forgesync/task.py:45-51 | A placeholder outside description, url, website, full_name and clone_url is a `KeyError` naming it. |
| `Task.NewTask` | src/forgesync/task.py:38-42 | The topics are the listed ones, or empty when the listing has none; the task keeps the syncer, template, source repository, push mirrorer, config and destination it was given. |
| `Task.RunTemplateError` | src/forgesync/task.py:45-57 | A template error ends the task before any call. |
| `Task.RunSyncsThenGatesMirror` | src/forgesync/task.py:53-63 | The sync runs once with the rendered description and the stored topics; the mirror action follows, naming the task's mirrorer and its config unchanged, exactly when the sync succeeded without mirroring, and its failure is the task's. |
| `Task.FreshGithubRepoMirroredOnce` | src/forgesync/task.py:53-63 | A new, empty GitHub repository gets exactly one mirror action in its whole task. |
| `Task.ToString` | src/forgesync/task.py:65-67 | `Synchronize owner/name to platform=instance`. |
| `Cli.GetTokens` | src/forgesync/cli.py:79-87 | Succeeds exactly when all three tokens are set; otherwise names the first missing one. |
| `Cli.BuildConfigAsWritten` | src/forgesync/cli.py:103-108 | As written, the config construction raises `TypeError` for every command line. |
| `Cli.BuildConfig` | src/forgesync/cli.py:103-108 | The corrected config is valid, immediate exactly when not `--skip-initial`, syncs on commit exactly when `--sync-on-push`, and copies interval and remirror. |
| `Cli.MakeMirrorerAsWritten` | src/forgesync/cli.py:110-114 | As written, the mirrorer construction raises `TypeError`. |
| `Cli.MakeMirrorer` | src/forgesync/cli.py:110-114 | The corrected mirrorer holds the mirror token, and overlaying the command line's config on its base gives that config back. |
| `Cli.ConstructionAsWrittenFails` | src/forgesync/cli.py:103-114 | Both constructions fail as written; corrected, every task's effective mirror config is the command line's and is valid. |
| `Cli.DisposeClassifies` | src/forgesync/cli.py:155-169 | The loop goes on exactly after mirror and repository errors (skips included); a plain `SyncError` is fatal; anything else escapes. |
| `Cli.DryRunRunsNothing` | src/forgesync/cli.py:140-153 | A dry run lists every task in order, makes no forge-writing call and ends normally (each task's topic listing is still read while the task is built; reads are inputs, not trace entries). |
| `Cli.RunTasksInOrder` | src/forgesync/cli.py:140-169 | Tasks run in the given order, one entry per task run, each recording that task's forge calls and whether it succeeded or how its error was handled. |
| `Cli.RunTasksStopsAtFirstFatal` | src/forgesync/cli.py:140-169 | The run ends normally exactly when every task was run and each outcome let the loop go on; otherwise it stops right after the first fatal `SyncError` (exit 1) or escaping error, carrying that error. |
| `Cli.Sources` | src/forgesync/cli.py:129-132 | The listing is wrapped one repository at a time; the run fails with a wrapper's `RuntimeError` exactly when some listed repository lacks owner login or name. |
| `Cli.Tasks` | src/forgesync/cli.py:140-149 | One task per repository, in order, each with its own topic listing and the command line's template, config and destination. |
| `Cli.MainAsWrittenNeverRuns` | src/forgesync/cli.py:95-114 | Assuming github.py:12's `Remirror` import resolves (otherwise the program stops earlier with `ImportError`): as written, the program runs no repository, and with the tokens present it ends with a `TypeError`. |
| `Cli.MainStopsEarly` | src/forgesync/cli.py:95-127 | A missing token, a destination that refuses the syncer, or a source user without login ends the program before any repository is listed; the last exits with the plain logged text, not with a raised error. |
| `Cli.MainRunsFilteredRepositories` | src/forgesync/cli.py:129-153 | Once set up, the loop runs over exactly the filter's output, in listing order, each task with the command line's template, config and destination and the one push mirrorer `main` built (which the GitHub syncer holds too). |

## Left out

- HTTP clients, authentication and pagination: every API call is a trace entry and every answer is a parameter. API exceptions other than the GitHub content probe's are not modelled.
- The regular-expression engine for include and exclude patterns is the parameter `fullMatch`. The fixed patterns of remirror.py and dest.py are hand-written parsers.
- `str.format` beyond bare named placeholders and `{{`/`}}`. Format specs, `!r`/`!s` conversions, attribute and index access, and nested braces are not modelled. Any unknown or malformed field name is a `KeyError` here, where Python raises `ValueError` or `IndexError` for some of them.
- `Strings.Lower` and the digit class cover ASCII only. Python's `str.lower` and `\d` also act on other Unicode letters and digits.
- `datetime.now()`: the clock is a parameter of six integers.
- Logging, `make_logger`, Tap argument parsing, reading the environment (a `map` parameter), and `exit()` (an `Exit` value).
- The `no`/`yes`/`purge` remirror policy, and wiring `should_remirror` into the mirrorer: nothing in the source implements either, so the rule is modelled on its own.
- `mirror_repos` iterates its `Iterable` argument twice. The model takes a finite sequence, which a second pass sees unchanged.
- The Forgejo edit fields the source always sends as `None` (external tracker, external wiki, globally editable wiki, internal tracker) are not in the payload record.
- `Task.__init__`'s topic listing happens while the loop runs. The model collects all tasks first, since building a task cannot fail once the listing is an input.
- What the push mirrorer does when the GitHub syncer or a task hands it a repository: the `Forge.Call.MirrorRepo` action records which mirrorer, descriptor and config it got, and how it ends is an input. `Mirror.MirrorRepo` models the mirrorer itself, for every mirrorer. The mirror-token password in each add request is passed through and not inspected.
- Read calls (`repo_list_push_mirrors`, `repo_list_topics`, the user and repository listings, the GitHub content probe's answer) are inputs and not trace entries; traces hold the forge-writing calls plus the content probe and the abstract mirror action.
- Dest.Parse: its contract only states the error kinds; what it parses to is stated by `Dest.ParseShapeIff`, `Dest.ParseWithInstance`, `Dest.ParseBare` and `Dest.ParseUnknownPlatform`.
- Remirror.ShouldRemirror: its contract states the two modes and the error kind; rule matching is stated by `Remirror.ShouldRemirrorRule` and `Remirror.ShouldRemirrorErrIff`.

## Findings

| source | as written | input that shows it | evidently intended | confidence | as-written member | corrected member |
|---|---|---|---|---|---|---|
| src/forgesync/cli.py:103-108 | `PushMirrorConfig` is built with the keyword `sync_on_push`, but the dataclass field is `sync_on_commit` (mirror.py:18), so the call raises `TypeError` | any command line with the three tokens set, once github.py:12's `Remirror` import resolves (as written it raises `ImportError` first) | `sync_on_commit=args.sync_on_push` | high (not executed) | `Cli.BuildConfigAsWritten` | `Cli.BuildConfig` |
| src/forgesync/cli.py:110-114 | `PushMirrorer` is built without its required `config` argument (mirror.py:45-51), so the call raises `TypeError` | any command line with the three tokens set, once github.py:12's `Remirror` import resolves and cli.py:103-108 is corrected | pass the command line's config as the mirrorer's base | medium (not executed) | `Cli.MakeMirrorerAsWritten` | `Cli.MakeMirrorer` |

`Cli.MainAsWritten` chains both constructions as written. `Cli.MainAsWrittenNeverRuns` shows that it runs no repository. `Cli.Main` uses the corrected members.
