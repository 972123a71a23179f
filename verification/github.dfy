/** The GitHub destination syncer (github.py). */
module Github {
  import opened Errors
  import opened Wrappers
  import opened Platforms
  import opened Sync
  import opened Source
  import opened Forge
  import Mirror

  /** The fields of a PyGithub `Repository` the syncer reads. */
  datatype GithubRepo = GithubRepo(name: string, fullName: string, ownerLogin: string, cloneUrl: string, archived: bool, fork: bool)

  /** The answer to `get_user()`: its login, and whether it is an `AuthenticatedUser`. */
  datatype GithubUser = GithubUser(login: string, authenticated: bool)

  datatype GithubSyncer = GithubSyncer(
    instance: string,
    user: GithubUser,
    repos: map<string, GithubRepo>,
    features: seq<RepositoryFeature>,
    pushMirrorer: Mirror.PushMirrorer,
    mirrorConfig: Mirror.PushMirrorConfig)

  /** What GitHub answers during one sync: the repository `create_repo` returns, whether
      `get_contents("/")` succeeds, how the forced mirror action ends, and the repository
      as PyGithub holds it after `edit` refreshed it. */
  datatype GithubResponses = GithubResponses(
    created: GithubRepo,
    probeOk: bool,
    mirror: MirrorOutcome,
    edited: GithubRepo)

  function NameOf(r: GithubRepo): Option<string> {
    Some(r.name)
  }

  /** `GithubSyncer.__init__`. A user that is not authenticated raises `SyncError`; otherwise
      every listed repository is indexed by its name; of two same-name repositories (different
      owners) the later one is kept, as in a dict. */
  function NewGithubSyncer(
    instance: string, features: seq<RepositoryFeature>, user: GithubUser,
    listing: seq<GithubRepo>, mirrorer: Mirror.PushMirrorer, config: Mirror.PushMirrorConfig): (r: Result<GithubSyncer>)
    ensures r.Err? <==> !user.authenticated
    ensures r.Err? ==> r.error == SyncError("User must be authenticated")
    ensures r.Ok? ==> r.value.user == user && r.value.features == features
    ensures r.Ok? ==> r.value.pushMirrorer == mirrorer && r.value.mirrorConfig == config
    ensures r.Ok? ==> r.value.repos.Keys == set i | 0 <= i < |listing| :: listing[i].name
    ensures r.Ok? ==> forall k :: k in r.value.repos ==> r.value.repos[k].name == k && r.value.repos[k] in listing
    ensures r.Ok? ==> forall k :: k in r.value.repos ==> LastKeyed(listing, NameOf, k, r.value.repos[k])
  {
    if !user.authenticated then Err(SyncError("User must be authenticated"))
    else
      var index := IndexBy(listing, NameOf);
      assert forall k :: k in index ==> index[k] in listing && NameOf(index[k]) == Some(k) by {
        forall k | k in index ensures index[k] in listing {
          assert LastKeyed(listing, NameOf, k, index[k]);
        }
      }
      Ok(GithubSyncer(instance, user, index, features, mirrorer, config))
  }

  /** The features GitHub's create and edit calls can switch. */
  const SwitchableFeatures: set<RepositoryFeature> := {Issues, Projects, Wiki, Discussions}

  function EnabledByCreate(c: GithubCreate): set<RepositoryFeature> {
    (if c.hasIssues then {Issues} else {})
    + (if c.hasProjects then {Projects} else {})
    + (if c.hasWiki then {Wiki} else {})
    + (if c.hasDiscussions then {Discussions} else {})
  }

  function EnabledByEdit(e: GithubEdit): set<RepositoryFeature> {
    (if e.hasIssues then {Issues} else {})
    + (if e.hasProjects then {Projects} else {})
    + (if e.hasWiki then {Wiki} else {})
    + (if e.hasDiscussions then {Discussions} else {})
  }

  /** The `create_repo` request: the rendered description, no auto-init, no downloads, the source's website and visibility
      when set, and each switchable feature on exactly when requested. */
  function CreateFor(s: GithubSyncer, source: SourceRepository, description: string): (c: GithubCreate)
    ensures c.name == source.name && c.description == description && !c.autoInit && !c.hasDownloads
    ensures c.homepage == source.raw.website && c.private == source.raw.private
    ensures EnabledByCreate(c) == SwitchableFeatures * (set f | f in s.features)
  {
    GithubCreate(
      source.name, description, source.raw.website, source.raw.private,
      Issues in s.features, Projects in s.features, Wiki in s.features, Discussions in s.features,
      false, false)
  }

  /** The `edit` request: source fields that are `None` are sent as `NotSet` (left unchanged),
      the others are copied; each switchable feature is on exactly when requested. */
  function EditFor(s: GithubSyncer, source: SourceRepository, description: string): (e: GithubEdit)
    ensures e.name == source.name && e.description == description
    ensures EnabledByEdit(e) == SwitchableFeatures * (set f | f in s.features)
    ensures e.homepage == source.raw.website && e.private == source.raw.private
    ensures e.isTemplate == source.raw.template && e.defaultBranch == source.raw.defaultBranch
    ensures e.archived == source.raw.archived
  {
    var raw := source.raw;
    GithubEdit(
      source.name, description, raw.website, raw.private,
      Issues in s.features, Projects in s.features, Wiki in s.features, Discussions in s.features,
      raw.template, raw.defaultBranch, raw.archived)
  }

  /** `make_synced`: the descriptor of a GitHub repository, not yet marked mirrored. */
  function MakeSynced(source: SourceRepository, repo: GithubRepo): SyncedRepository {
    SyncedRepository(repo.ownerLogin, source.owner, repo.name, repo.cloneUrl, Platforms.Github, false)
  }

  /** The config of the forced mirror: the syncer's config with `remirror` and `immediate` on. */
  function ForcedConfig(c: Mirror.PushMirrorConfig): Mirror.PushMirrorConfig {
    c.(remirror := Some(true), immediate := Some(true))
  }

  /** `GithubSyncer.sync`. */
  function SyncRepo(
    s: GithubSyncer, source: SourceRepository, description: string, topics: seq<string>,
    resp: GithubResponses): Traced<Call, SyncedRepository>
  {
    if source.name in s.repos && s.repos[source.name].archived then
      Traced([], Err(RepositorySkippedError("Destination repository is archived")))
    else if source.name in s.repos && s.repos[source.name].fork then
      Traced([], Err(RepositorySkippedError("Destination repository is a fork")))
    else
      var repo := if source.name in s.repos then s.repos[source.name] else resp.created;
      var created := if source.name in s.repos then [] else [GithubCreateRepo(CreateFor(s, source, description))];
      var probed := created + [GithubGetContents(repo.name, "/")];
      var mirrorCall := MirrorRepo(s.pushMirrorer, MakeSynced(source, repo), ForcedConfig(s.mirrorConfig));
      if !resp.probeOk && resp.mirror.MirrorFailed? then
        Traced(probed + [mirrorCall], Err(resp.mirror.error))
      else if !resp.probeOk && resp.mirror.NothingCreated? then
        Traced(probed + [mirrorCall], Err(RepositoryError("Could not mirror new repository " + repo.fullName)))
      else
        var mirrored := !resp.probeOk;
        var beforeEdit := if mirrored then probed + [mirrorCall] else probed;
        Traced(
          beforeEdit + [GithubEditRepo(repo.name, EditFor(s, source, description)), GithubReplaceTopics(repo.name, topics)],
          Ok(MakeSynced(source, resp.edited).(mirrored := mirrored)))
  }

  /** An existing archived destination is skipped, then an existing fork is; nothing is called. */
  lemma SyncSkipsArchivedOrFork(s: GithubSyncer, source: SourceRepository, description: string, topics: seq<string>, resp: GithubResponses)
    requires source.name in s.repos && (s.repos[source.name].archived || s.repos[source.name].fork)
    ensures var r := SyncRepo(s, source, description, topics, resp);
      && r.calls == []
      && r.result.Err? && r.result.error.RepositorySkippedError?
      && (s.repos[source.name].archived ==> r.result.error.msg == "Destination repository is archived")
  {
  }

  /** A name missing from the index gets exactly one create call, first; a present one gets none. */
  lemma SyncCreatesOnlyAbsent(s: GithubSyncer, source: SourceRepository, description: string, topics: seq<string>, resp: GithubResponses)
    requires source.name in s.repos ==> !s.repos[source.name].archived && !s.repos[source.name].fork
    ensures var r := SyncRepo(s, source, description, topics, resp);
      && (source.name !in s.repos ==> r.calls[0] == GithubCreateRepo(CreateFor(s, source, description)))
      && (forall i :: 0 <= i < |r.calls| && r.calls[i].GithubCreateRepo? ==> source.name !in s.repos && i == 0)
  {
  }

  /** A failed content probe issues one mirror action, with `remirror` and `immediate` forced on,
      for the repository's descriptor; `None` from it raises `RepositoryError`, an error from it
      propagates, and otherwise the result is marked mirrored. A successful probe issues no
      mirror action and the result is not marked mirrored. */
  lemma SyncProbeDecidesMirror(s: GithubSyncer, source: SourceRepository, description: string, topics: seq<string>, resp: GithubResponses)
    requires source.name in s.repos ==> !s.repos[source.name].archived && !s.repos[source.name].fork
    ensures var r := SyncRepo(s, source, description, topics, resp);
      var repo := if source.name in s.repos then s.repos[source.name] else resp.created;
      var pre := if source.name in s.repos then 0 else 1;
      && r.calls[pre] == GithubGetContents(repo.name, "/")
      && CountMirrorCalls(r.calls) == (if resp.probeOk then 0 else 1)
      && (!resp.probeOk ==> r.calls[pre + 1] == MirrorRepo(s.pushMirrorer, MakeSynced(source, repo), ForcedConfig(s.mirrorConfig)))
      && (!resp.probeOk && resp.mirror == NothingCreated ==>
            r.result == Err(RepositoryError("Could not mirror new repository " + repo.fullName)) && |r.calls| == pre + 2)
      && (!resp.probeOk && resp.mirror.MirrorFailed? ==> r.result == Err(resp.mirror.error) && |r.calls| == pre + 2)
      && (r.result.Ok? ==> r.result.value.mirrored == !resp.probeOk)
  {
    var r := SyncRepo(s, source, description, topics, resp);
    var repo := if source.name in s.repos then s.repos[source.name] else resp.created;
    var created := if source.name in s.repos then [] else [GithubCreateRepo(CreateFor(s, source, description))];
    var probed := created + [GithubGetContents(repo.name, "/")];
    var mirrorCall := MirrorRepo(s.pushMirrorer, MakeSynced(source, repo), ForcedConfig(s.mirrorConfig));
    var tail := [GithubEditRepo(repo.name, EditFor(s, source, description)), GithubReplaceTopics(repo.name, topics)];
    assert CountMirrorCalls(created) == 0;
    CountMirrorCallsAppend(created, [GithubGetContents(repo.name, "/")]);
    CountMirrorCallsAppend(probed, [mirrorCall]);
    CountMirrorCallsAppend(probed, tail);
    CountMirrorCallsAppend(probed + [mirrorCall], tail);
    assert CountMirrorCalls(tail) == 0 by {
      assert tail[1..][1..] == [];
    }
  }

  /** Every sync that gets past the probe issues one edit, then replaces topics with exactly the
      given list, and reports a GitHub descriptor built from the edited repository. */
  lemma SyncEditsThenReplacesTopics(s: GithubSyncer, source: SourceRepository, description: string, topics: seq<string>, resp: GithubResponses)
    requires source.name in s.repos ==> !s.repos[source.name].archived && !s.repos[source.name].fork
    requires resp.probeOk || resp.mirror == Mirrored
    ensures var r := SyncRepo(s, source, description, topics, resp);
      var repo := if source.name in s.repos then s.repos[source.name] else resp.created;
      && |r.calls| >= 2
      && r.calls[|r.calls| - 2] == GithubEditRepo(repo.name, EditFor(s, source, description))
      && r.calls[|r.calls| - 1] == GithubReplaceTopics(repo.name, topics)
      && (forall i :: 0 <= i < |r.calls| && r.calls[i].GithubEditRepo? ==> i == |r.calls| - 2)
      && r.result.Ok?
      && r.result.value.platform == Platforms.Github
      && r.result.value.name == resp.edited.name
      && r.result.value.cloneUrl == resp.edited.cloneUrl
      && r.result.value.newOwner == resp.edited.ownerLogin
      && r.result.value.origOwner == source.owner
  {
  }

  /** The forced mirror action always yields a mirror when the reconciler resolves it: with
      `remirror` forced on, an unmirrored descriptor gets either one fresh mirror (nothing
      matched) or one replacement per match, and an immediate sync after it. So a freshly
      created repository ends up mirrored in one sync, without a second mirror creation. This
      holds for every mirrorer, so in particular for the one the syncer holds. */
  lemma ForcedMirrorAlwaysCreates(
    m: Mirror.PushMirrorer, synced: SyncedRepository, existing: seq<Mirror.PushMirror>, c: Mirror.PushMirrorConfig)
    requires !synced.mirrored
    requires Mirror.IsValid(Mirror.Overlay(m.config, ForcedConfig(c)))
    requires Mirror.AllNamed(existing)
    ensures var r := Mirror.MirrorRepo(m, synced, existing, ForcedConfig(c));
      && r.result.Ok? && r.result.value.Some?
      && r.calls[|r.calls| - 1] == Mirror.PushMirrorSync(synced.origOwner, synced.name)
      && Mirror.CountAdds(r.calls) == Mirror.CountDeletes(r.calls) + (if |existing| == 0 then 1 else 0)
  {
    var final := Mirror.Overlay(m.config, ForcedConfig(c));
    assert final.remirror == Some(true) && final.immediate == Some(true);
    if |existing| == 0 {
      Mirror.MirrorRepoCreatesWhenNoneMatch(m, synced, ForcedConfig(c));
    } else {
      Mirror.MirrorRepoReplacesExisting(m, synced, existing, ForcedConfig(c));
    }
    Mirror.MirrorRepoNeverDuplicates(m, synced, existing, ForcedConfig(c));
  }
}
