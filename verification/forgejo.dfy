/** The Forgejo (and Codeberg) destination syncer (forgejo.py). */
module Forgejo {
  import opened Errors
  import opened Wrappers
  import opened Platforms
  import opened Sync
  import opened Source
  import opened Forge

  /** `ForgejoSyncer` after construction: the authenticated user, the preloaded
      name-to-repository index and the requested features. */
  datatype ForgejoSyncer = ForgejoSyncer(
    instance: string,
    user: User,
    repos: map<string, Repository>,
    features: seq<RepositoryFeature>)

  /** The key of a listed repository in the index: its name, when it has one. */
  function NameOf(r: Repository): Option<string> {
    r.name
  }

  /** `ForgejoSyncer.__init__`. `user` is the answer to `get_current`, `listing` the answer to
      `list_repos(login)`. A missing login raises `SyncError` before anything is listed. When
      two listed repositories share a name, the later one is indexed, as in a dict. */
  function NewForgejoSyncer(instance: string, features: seq<RepositoryFeature>, user: User, listing: seq<Repository>)
    : (r: Result<ForgejoSyncer>)
    ensures r.Err? <==> user.login.None?
    ensures r.Err? ==> r.error == SyncError("Could not get username from Forgejo")
    ensures r.Ok? ==> r.value.user == user && r.value.features == features && r.value.instance == instance
    ensures r.Ok? ==> forall i :: 0 <= i < |listing| && listing[i].name.Some? ==> listing[i].name.value in r.value.repos
    ensures r.Ok? ==> forall k :: k in r.value.repos ==> r.value.repos[k].name == Some(k) && r.value.repos[k] in listing
    ensures r.Ok? ==> forall k :: k in r.value.repos ==> LastKeyed(listing, NameOf, k, r.value.repos[k])
  {
    if user.login.None? then Err(SyncError("Could not get username from Forgejo"))
    else
      var index := IndexBy(listing, NameOf);
      assert forall k :: k in index ==> index[k] in listing by {
        forall k | k in index ensures index[k] in listing {
          assert LastKeyed(listing, NameOf, k, index[k]);
        }
      }
      Ok(ForgejoSyncer(instance, user, index, features))
  }

  /** The features Forgejo's edit call can switch; discussions are not among them. */
  const EditableFeatures: set<RepositoryFeature> := {Actions, Issues, Packages, Projects, PullRequests, Releases, Wiki}

  /** The features an edit payload switches on. */
  function EnabledBy(e: ForgejoEdit): set<RepositoryFeature> {
    (if e.hasActions then {Actions} else {})
    + (if e.hasIssues then {Issues} else {})
    + (if e.hasPackages then {Packages} else {})
    + (if e.hasProjects then {Projects} else {})
    + (if e.hasPullRequests then {PullRequests} else {})
    + (if e.hasReleases then {Releases} else {})
    + (if e.hasWiki then {Wiki} else {})
  }

  /** The `repo_edit` payload: the source's metadata, the rendered description and one flag
      per editable feature. Each editable feature is on exactly when it was requested. */
  function EditFor(s: ForgejoSyncer, source: SourceRepository, description: string): (e: ForgejoEdit)
    ensures EnabledBy(e) == EditableFeatures * (set f | f in s.features)
    ensures e.description == description && e.name == source.raw.name
    ensures e.archived == source.raw.archived && e.defaultBranch == source.raw.defaultBranch
    ensures e.private == source.raw.private && e.template == source.raw.template
    ensures e.website == source.raw.website && e.wikiBranch == source.raw.wikiBranch
  {
    var raw := source.raw;
    ForgejoEdit(
      raw.archived, raw.defaultBranch, description,
      Actions in s.features, Issues in s.features, Packages in s.features, Projects in s.features,
      PullRequests in s.features, Releases in s.features, Wiki in s.features,
      raw.name, raw.private, raw.template, raw.website, raw.wikiBranch)
  }

  /** The edited repository lacks its owner, owner login, name or clone URL. */
  predicate Malformed(edited: Repository) {
    OwnerLogin(edited).None? || edited.name.None? || edited.cloneUrl.None?
  }

  /** `ForgejoSyncer.sync`. `edited` is the repository `repo_edit` answers with. */
  function SyncRepo(
    s: ForgejoSyncer, source: SourceRepository, description: string, topics: seq<string>,
    edited: Repository): Traced<Call, SyncedRepository>
  {
    if s.user.login.None? then Traced([], Err(SyncError("Cannot get username from Forgejo")))
    else if source.name in s.repos && Truthy(s.repos[source.name].archived) then
      Traced([], Err(RepositorySkippedError("Destination repository is archived")))
    else if source.name in s.repos && Truthy(s.repos[source.name].fork) then
      Traced([], Err(RepositorySkippedError("Destination repository is a fork")))
    else
      var login := s.user.login.value;
      var created :=
        if source.name in s.repos then []
        else [ForgejoCreateRepo(source.name, false, source.raw.defaultBranch, description, source.raw.private)];
      var edit := ForgejoEditRepo(login, source.name, EditFor(s, source, description));
      if Malformed(edited) then
        Traced(created + [edit], Err(RepositoryError("Received malformed target repository from Forgejo")))
      else
        var owner := OwnerLogin(edited).value;
        Traced(
          created + [edit, ForgejoUpdateTopics(owner, edited.name.value, topics)],
          Ok(SyncedRepository(owner, source.owner, edited.name.value, edited.cloneUrl.value, Platforms.Forgejo, false)))
  }

  /** A syncer without a login raises `SyncError` before any call. */
  lemma SyncWithoutLogin(s: ForgejoSyncer, source: SourceRepository, description: string, topics: seq<string>, edited: Repository)
    requires s.user.login.None?
    ensures SyncRepo(s, source, description, topics, edited) == Traced([], Err(SyncError("Cannot get username from Forgejo")))
  {
  }

  /** An existing archived destination is skipped without any call; otherwise an existing fork is. */
  lemma SyncSkipsArchivedOrFork(s: ForgejoSyncer, source: SourceRepository, description: string, topics: seq<string>, edited: Repository)
    requires s.user.login.Some? && source.name in s.repos
    requires Truthy(s.repos[source.name].archived) || Truthy(s.repos[source.name].fork)
    ensures var r := SyncRepo(s, source, description, topics, edited);
      && r.calls == []
      && r.result.Err? && r.result.error.RepositorySkippedError?
      && (Truthy(s.repos[source.name].archived) ==> r.result.error.msg == "Destination repository is archived")
  {
  }

  /** A name missing from the index is created first, with `auto_init` off and the source's name;
      a name present in it is never created. */
  lemma SyncCreatesOnlyAbsent(s: ForgejoSyncer, source: SourceRepository, description: string, topics: seq<string>, edited: Repository)
    requires s.user.login.Some?
    ensures var r := SyncRepo(s, source, description, topics, edited);
      && (source.name !in s.repos ==>
            && |r.calls| >= 2
            && r.calls[0] == ForgejoCreateRepo(source.name, false, source.raw.defaultBranch, description, source.raw.private))
      && (forall i :: 0 <= i < |r.calls| && r.calls[i].ForgejoCreateRepo? ==> source.name !in s.repos && i == 0)
  {
  }

  /** Every sync that is not skipped issues exactly one edit with the full payload; a malformed
      answer then raises `RepositoryError` with no topics call; otherwise topics are replaced with
      exactly the given list and the descriptor comes from the edited repository. */
  lemma SyncEditsThenReplacesTopics(s: ForgejoSyncer, source: SourceRepository, description: string, topics: seq<string>, edited: Repository)
    requires s.user.login.Some?
    requires source.name in s.repos ==> !Truthy(s.repos[source.name].archived) && !Truthy(s.repos[source.name].fork)
    ensures var r := SyncRepo(s, source, description, topics, edited);
      var pre := if source.name in s.repos then 0 else 1;
      var edit := ForgejoEditRepo(s.user.login.value, source.name, EditFor(s, source, description));
      && r.calls[pre] == edit
      && (forall i :: 0 <= i < |r.calls| && r.calls[i].ForgejoEditRepo? ==> i == pre)
      && (Malformed(edited) ==>
            && |r.calls| == pre + 1
            && r.result == Err(RepositoryError("Received malformed target repository from Forgejo")))
      && (!Malformed(edited) ==>
            && |r.calls| == pre + 2
            && r.calls[pre + 1] == ForgejoUpdateTopics(OwnerLogin(edited).value, edited.name.value, topics)
            && r.result.Ok?
            && r.result.value.newOwner == OwnerLogin(edited).value
            && Some(r.result.value.name) == edited.name
            && Some(r.result.value.cloneUrl) == edited.cloneUrl
            && r.result.value.origOwner == source.owner
            && r.result.value.platform == Platforms.Forgejo
            && !r.result.value.mirrored)
  {
  }

  /** Syncing never produces a mirror action: Forgejo destinations leave mirror set-up to the task. */
  lemma SyncNeverMirrors(s: ForgejoSyncer, source: SourceRepository, description: string, topics: seq<string>, edited: Repository)
    ensures var r := SyncRepo(s, source, description, topics, edited);
      (forall i :: 0 <= i < |r.calls| ==> !r.calls[i].MirrorRepo?) && (r.result.Ok? ==> !r.result.value.mirrored)
  {
  }
}
