/** The command-line driver (cli.py): token lookup, building the push-mirror config, the
    syncer and the source listing, then one task per filtered repository, in filter order,
    with the per-repository error policy. Argument parsing, logging and the API clients are
    outside the model: parsed arguments, the environment and every answer of the forges are
    parameters. */
module Cli {
  import opened Errors
  import opened Wrappers
  import opened Sync
  import opened Source
  import Mirror
  import Forge
  import Dest
  import Filter
  import Task
  import Sequences

  /** The parsed command line. */
  datatype Args = Args(
    target: Dest.Destination,
    descriptionTemplate: string,
    remirror: bool,
    mirrorInterval: string,
    includes: seq<string>,
    excludes: seq<string>,
    skipInitial: bool,
    syncOnPush: bool,
    features: seq<RepositoryFeature>,
    dryRun: bool)

  datatype Tokens = Tokens(source: string, target: string, mirror: string)

  const SourceTokenKey := "SOURCE_TOKEN"
  const TargetTokenKey := "TARGET_TOKEN"
  const MirrorTokenKey := "MIRROR_TOKEN"

  /** The message `get_tokens` raises: the `KeyError`'s text is the quoted key. */
  function MissingToken(key: string): Error {
    RuntimeError("Missing token: '" + key + "'")
  }

  /** `get_tokens`: the three tokens from the environment, looked up in order; the first
      missing one is reported. */
  function GetTokens(env: map<string, string>): (r: Result<Tokens>)
    ensures r.Ok? <==> SourceTokenKey in env && TargetTokenKey in env && MirrorTokenKey in env
    ensures r.Ok? ==> r.value == Tokens(env[SourceTokenKey], env[TargetTokenKey], env[MirrorTokenKey])
    ensures SourceTokenKey !in env ==> r == Err(MissingToken(SourceTokenKey))
    ensures SourceTokenKey in env && TargetTokenKey !in env ==> r == Err(MissingToken(TargetTokenKey))
    ensures SourceTokenKey in env && TargetTokenKey in env && MirrorTokenKey !in env ==>
      r == Err(MissingToken(MirrorTokenKey))
  {
    if SourceTokenKey !in env then Err(MissingToken(SourceTokenKey))
    else if TargetTokenKey !in env then Err(MissingToken(TargetTokenKey))
    else if MirrorTokenKey !in env then Err(MissingToken(MirrorTokenKey))
    else Ok(Tokens(env[SourceTokenKey], env[TargetTokenKey], env[MirrorTokenKey]))
  }

  /** The push-mirror config construction as written: the keyword `sync_on_push` is not a
      field of the `PushMirrorConfig` dataclass, so the call raises `TypeError` whatever the
      arguments are. */
  function BuildConfigAsWritten(args: Args): (r: Result<Mirror.PushMirrorConfig>)
    ensures r.Err? && r.error.TypeError?
  {
    Err(TypeError("PushMirrorConfig.__init__() got an unexpected keyword argument 'sync_on_push'"))
  }

  /** The push-mirror config the command line evidently means: the `--sync-on-push` flag
      sets `sync_on_commit`, and immediate mirroring is on unless `--skip-initial`. */
  function BuildConfig(args: Args): (c: Mirror.PushMirrorConfig)
    ensures Mirror.IsValid(c)
    ensures c.immediate == Some(!args.skipInitial) && c.syncOnCommit == Some(args.syncOnPush)
    ensures c.interval == Some(args.mirrorInterval) && c.remirror == Some(args.remirror)
  {
    Mirror.PushMirrorConfig(Some(args.mirrorInterval), Some(args.remirror), Some(!args.skipInitial), Some(args.syncOnPush))
  }

  /** The push mirrorer construction as written: the required `config` argument is not
      passed, so the call raises `TypeError`. */
  function MakeMirrorerAsWritten(tokens: Tokens): (r: Result<Mirror.PushMirrorer>)
    ensures r.Err? && r.error.TypeError?
  {
    Err(TypeError("PushMirrorer.__init__() missing 1 required positional argument: 'config'"))
  }

  /** The push mirrorer with the command line's config as its base and the mirror token. */
  function MakeMirrorer(config: Mirror.PushMirrorConfig, tokens: Tokens): (m: Mirror.PushMirrorer)
    ensures m.mirrorToken == tokens.mirror
    ensures Mirror.Overlay(m.config, config) == config
  {
    Mirror.PushMirrorer(config, tokens.mirror)
  }

  /** Either construction as written stops the program before any repository is touched,
      while the corrected ones give a mirrorer whose effective config for every task is the
      command line's, and valid. */
  lemma ConstructionAsWrittenFails(args: Args, tokens: Tokens)
    ensures BuildConfigAsWritten(args).Err? && MakeMirrorerAsWritten(tokens).Err?
    ensures var c := BuildConfig(args);
      && Mirror.Overlay(MakeMirrorer(c, tokens).config, c) == c
      && Mirror.IsValid(Mirror.Overlay(MakeMirrorer(c, tokens).config, c))
  {
  }

  /** How the loop treats an error escaping `task.run()`, handler by handler in source
      order; an error no handler catches ends the program. */
  datatype Disposition = Succeeded | WouldRun | MirrorFailed | Skipped | RepositoryFailed | Fatal | Uncaught

  function Dispose(e: Error): Disposition {
    if e.MirrorError? then MirrorFailed
    else if e.RepositorySkippedError? then Skipped
    else if IsRepositoryError(e) then RepositoryFailed
    else if IsSyncError(e) then Fatal
    else Uncaught
  }

  /** The loop goes on after this outcome. */
  predicate Continues(d: Disposition) {
    d != Fatal && d != Uncaught
  }

  /** Mirror failures and repository failures (skips included) are logged and the loop goes
      on; any other `SyncError` is fatal; everything else (template errors among them)
      escapes. */
  lemma DisposeClassifies(e: Error)
    ensures Continues(Dispose(e)) <==> e.MirrorError? || IsRepositoryError(e)
    ensures Dispose(e) == Fatal <==> e.SyncError?
    ensures Dispose(e) == Uncaught <==> !e.MirrorError? && !IsSyncError(e)
    ensures Dispose(e) != Succeeded && Dispose(e) != WouldRun
  {
  }

  /** One repository's line in the run: the task's text, the forge calls it made, and how
      it ended. */
  datatype Entry = Entry(source: SourceRepository, task: string, calls: seq<Forge.Call>, disposition: Disposition)

  /** How the program ends: normally, by `exit(1)` after a fatal log line that reports an
      error (the logged error is kept), by `exit(1)` after a fatal log line that is plain
      text (the text is kept), or by an exception no handler catches. */
  datatype Exit = Completed | ExitOne(reason: Error) | ExitLogged(message: string) | Crashed(error: Error)

  datatype Report = Report(entries: seq<Entry>, exit: Exit)

  /** The task loop over the filtered repositories. `respond` gives the forges' answers for
      the task of each source repository. */
  function RunTasks(tasks: seq<Task.Task>, dryRun: bool, respond: SourceRepository -> Task.TaskResponses): Report
    decreases |tasks|
  {
    if |tasks| == 0 then Report([], Completed)
    else
      var t := tasks[0];
      if dryRun then
        var rest := RunTasks(tasks[1..], dryRun, respond);
        Report([Entry(t.sourceRepo, Task.ToString(t), [], WouldRun)] + rest.entries, rest.exit)
      else
        var run := Task.Run(t, respond(t.sourceRepo));
        var d := if run.result.Ok? then Succeeded else Dispose(run.result.error);
        var entry := Entry(t.sourceRepo, Task.ToString(t), run.calls, d);
        if d == Fatal then Report([entry], ExitOne(run.result.error))
        else if d == Uncaught then Report([entry], Crashed(run.result.error))
        else
          var rest := RunTasks(tasks[1..], dryRun, respond);
          Report([entry] + rest.entries, rest.exit)
  }

  /** A dry run runs no task: one "would run" line per task, in order, no forge call,
      and a normal end. */
  lemma {:induction false} DryRunRunsNothing(tasks: seq<Task.Task>, respond: SourceRepository -> Task.TaskResponses)
    ensures var r := RunTasks(tasks, true, respond);
      && r.exit == Completed
      && |r.entries| == |tasks|
      && forall i :: 0 <= i < |tasks| ==>
           r.entries[i] == Entry(tasks[i].sourceRepo, Task.ToString(tasks[i]), [], WouldRun)
  {
    if |tasks| > 0 {
      DryRunRunsNothing(tasks[1..], respond);
      var rest := RunTasks(tasks[1..], true, respond);
      assert forall i :: 1 <= i < |tasks| ==> tasks[1..][i - 1] == tasks[i];
      assert forall i :: 1 <= i < |tasks| ==> RunTasks(tasks, true, respond).entries[i] == rest.entries[i - 1];
    }
  }

  /** Repositories are processed in the order given, each one once, and its entry records
      exactly what its task did. */
  lemma {:induction false} RunTasksInOrder(tasks: seq<Task.Task>, respond: SourceRepository -> Task.TaskResponses)
    ensures var r := RunTasks(tasks, false, respond);
      |r.entries| <= |tasks| && (|tasks| > 0 ==> |r.entries| > 0)
    ensures var r := RunTasks(tasks, false, respond);
      forall i :: 0 <= i < |r.entries| ==>
        var run := Task.Run(tasks[i], respond(tasks[i].sourceRepo));
        && r.entries[i].source == tasks[i].sourceRepo
        && r.entries[i].calls == run.calls
        && (run.result.Ok? <==> r.entries[i].disposition == Succeeded)
        && (run.result.Err? ==> r.entries[i].disposition == Dispose(run.result.error))
  {
    if |tasks| > 0 {
      var run := Task.Run(tasks[0], respond(tasks[0].sourceRepo));
      var d := if run.result.Ok? then Succeeded else Dispose(run.result.error);
      if run.result.Err? {
        DisposeClassifies(run.result.error);
      }
      if d != Fatal && d != Uncaught {
        RunTasksInOrder(tasks[1..], respond);
        assert forall i :: 1 <= i < |tasks| ==> tasks[1..][i - 1] == tasks[i];
      }
    }
  }

  /** The loop ends normally after every task only when no error stopped it; otherwise it
      stops right after the first fatal or escaping error, and every earlier task had an
      outcome the loop continues after. */
  lemma {:induction false} RunTasksStopsAtFirstFatal(tasks: seq<Task.Task>, respond: SourceRepository -> Task.TaskResponses)
    ensures var r := RunTasks(tasks, false, respond);
      forall i :: 0 <= i < |r.entries| - 1 ==> Continues(r.entries[i].disposition)
    ensures var r := RunTasks(tasks, false, respond);
      r.exit == Completed <==> |r.entries| == |tasks| && forall i :: 0 <= i < |r.entries| ==> Continues(r.entries[i].disposition)
    ensures var r := RunTasks(tasks, false, respond);
      r.exit != Completed ==>
        && 0 < |r.entries| <= |tasks|
        && var last := Task.Run(tasks[|r.entries| - 1], respond(tasks[|r.entries| - 1].sourceRepo));
        && last.result.Err?
        && (r.exit == ExitOne(last.result.error) <==> Dispose(last.result.error) == Fatal)
        && (r.exit == Crashed(last.result.error) <==> Dispose(last.result.error) == Uncaught)
  {
    RunTasksInOrder(tasks, respond);
    if |tasks| > 0 {
      var run := Task.Run(tasks[0], respond(tasks[0].sourceRepo));
      var d := if run.result.Ok? then Succeeded else Dispose(run.result.error);
      if run.result.Err? {
        DisposeClassifies(run.result.error);
      }
      if Continues(d) {
        RunTasksStopsAtFirstFatal(tasks[1..], respond);
        assert forall i :: 1 <= i < |tasks| ==> tasks[1..][i - 1] == tasks[i];
      }
    }
  }

  /** The source repositories of the listing, built one by one; the first repository without
      an owner login or a name ends the program with its `RuntimeError`. */
  function Sources(listing: seq<Repository>): (r: Result<seq<SourceRepository>>)
    ensures r.Ok? <==> forall i :: 0 <= i < |listing| ==> NewSourceRepository(listing[i]).Ok?
    ensures r.Ok? ==> |r.value| == |listing| && forall i :: 0 <= i < |listing| ==> Ok(r.value[i]) == NewSourceRepository(listing[i])
    ensures r.Err? ==> exists i :: 0 <= i < |listing| && NewSourceRepository(listing[i]) == Err(r.error)
  {
    if |listing| == 0 then Ok([])
    else
      var head :- NewSourceRepository(listing[0]);
      var rest := Sources(listing[1..]);
      assert forall i :: 1 <= i < |listing| ==> listing[1..][i - 1] == listing[i];
      if rest.Err? then Err(rest.error) else Ok([head] + rest.value)
  }

  /** One `Task` per repository, with that repository's topic listing. */
  function Tasks(
    repos: seq<SourceRepository>, syncer: Dest.Syncer, args: Args,
    mirrorer: Mirror.PushMirrorer, config: Mirror.PushMirrorConfig, topicsOf: SourceRepository -> Option<seq<string>>): (r: seq<Task.Task>)
    ensures |r| == |repos|
    ensures forall i :: 0 <= i < |repos| ==>
      r[i] == Task.NewTask(syncer, args.descriptionTemplate, repos[i], mirrorer, config, args.target, topicsOf(repos[i]))
  {
    if |repos| == 0 then []
    else
      var head := Task.NewTask(syncer, args.descriptionTemplate, repos[0], mirrorer, config, args.target, topicsOf(repos[0]));
      [head] + Tasks(repos[1..], syncer, args, mirrorer, config, topicsOf)
  }

  /** Everything the outside world answers: the source user and its repository listing, the
      destination's answers while the syncer is built, each repository's topics and its task's
      answers, and the regular-expression engine of the filter. */
  datatype World = World(
    sourceUser: User,
    sourceListing: seq<Repository>,
    destination: Dest.DestinationApi,
    topicsOf: SourceRepository -> Option<seq<string>>,
    respond: SourceRepository -> Task.TaskResponses,
    fullMatch: (string, string) -> bool)

  /** `main` after argument parsing, with the two constructor calls corrected. */
  function Main(env: map<string, string>, args: Args, w: World): Report {
    match GetTokens(env)
    case Err(e) => Report([], ExitOne(e))
    case Ok(tokens) =>
      var config := BuildConfig(args);
      var mirrorer := MakeMirrorer(config, tokens);
      match Dest.MakeSyncer(args.target, args.features, mirrorer, config, w.destination)
      case Err(e) => Report([], Crashed(e))
      case Ok(syncer) =>
        if w.sourceUser.login.None? then Report([], ExitLogged("Could not get username from Forgejo"))
        else
          match Sources(w.sourceListing)
          case Err(e) => Report([], Crashed(e))
          case Ok(sources) =>
            var kept := Filter.Filter(Filter.RepositoryFilter(args.includes, args.excludes), sources, w.fullMatch);
            RunTasks(Tasks(kept, syncer, args, mirrorer, config, w.topicsOf), args.dryRun, w.respond)
  }

  /** `main` as written: with the tokens present it stops at the config construction,
      before building a syncer or listing a repository. */
  function MainAsWritten(env: map<string, string>, args: Args, w: World): Report {
    match GetTokens(env)
    case Err(e) => Report([], ExitOne(e))
    case Ok(tokens) =>
      match BuildConfigAsWritten(args)
      case Err(e) => Report([], Crashed(e))
      case Ok(config) =>
        match MakeMirrorerAsWritten(tokens)
        case Err(e) => Report([], Crashed(e))
        case Ok(_) => Main(env, args, w)
  }

  lemma MainAsWrittenNeverRuns(env: map<string, string>, args: Args, w: World)
    ensures MainAsWritten(env, args, w).entries == []
    ensures GetTokens(env).Ok? ==> MainAsWritten(env, args, w).exit.Crashed? && MainAsWritten(env, args, w).exit.error.TypeError?
  {
  }

  /** The corrected mirrorer `main` builds once the tokens are there. */
  function Mirrorer(env: map<string, string>, args: Args): Mirror.PushMirrorer
    requires GetTokens(env).Ok?
  {
    MakeMirrorer(BuildConfig(args), GetTokens(env).value)
  }

  /** Nothing is touched before the tokens are there, the destination is reachable and the
      source user is known. */
  lemma MainStopsEarly(env: map<string, string>, args: Args, w: World)
    ensures GetTokens(env).Err? ==> Main(env, args, w) == Report([], ExitOne(GetTokens(env).error))
    ensures GetTokens(env).Ok? && Dest.MakeSyncer(args.target, args.features, Mirrorer(env, args), BuildConfig(args), w.destination).Err? ==>
      Main(env, args, w).entries == [] && Main(env, args, w).exit.Crashed? && Main(env, args, w).exit.error.SyncError?
    ensures
      && GetTokens(env).Ok?
      && Dest.MakeSyncer(args.target, args.features, Mirrorer(env, args), BuildConfig(args), w.destination).Ok?
      && w.sourceUser.login.None?
      ==>
      Main(env, args, w) == Report([], ExitLogged("Could not get username from Forgejo"))
  {
  }

  /** Once set up, `main` runs the task loop over exactly the repositories the filter keeps,
      in listing order, each task carrying the command line's template, config and
      destination. */
  lemma MainRunsFilteredRepositories(env: map<string, string>, args: Args, w: World)
    requires GetTokens(env).Ok?
    requires Dest.MakeSyncer(args.target, args.features, Mirrorer(env, args), BuildConfig(args), w.destination).Ok?
    requires w.sourceUser.login.Some? && Sources(w.sourceListing).Ok?
    ensures var syncer := Dest.MakeSyncer(args.target, args.features, Mirrorer(env, args), BuildConfig(args), w.destination).value;
      var kept := Filter.Filter(Filter.RepositoryFilter(args.includes, args.excludes), Sources(w.sourceListing).value, w.fullMatch);
      var tasks := Tasks(kept, syncer, args, Mirrorer(env, args), BuildConfig(args), w.topicsOf);
      && Main(env, args, w) == RunTasks(tasks, args.dryRun, w.respond)
      && (forall i :: 0 <= i < |tasks| ==>
            tasks[i].sourceRepo == kept[i] && tasks[i].pushMirrorer == Mirrorer(env, args) && tasks[i].mirrorConfig == BuildConfig(args)
            && tasks[i].descriptionTemplate == args.descriptionTemplate && tasks[i].destination == args.target)
      && Sequences.IsSubsequence(kept, Sources(w.sourceListing).value)
  {
    var kept := Filter.Filter(Filter.RepositoryFilter(args.includes, args.excludes), Sources(w.sourceListing).value, w.fullMatch);
    Filter.FilterIsSubsequence(Filter.RepositoryFilter(args.includes, args.excludes), Sources(w.sourceListing).value, w.fullMatch);
  }
}
