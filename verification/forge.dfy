/** The calls the syncers and tasks issue to a destination forge, as trace entries,
    plus the abstract "set up push mirrors" action that github.py and task.py hand to
    the mirrorer. Request payloads hold only what the model inspects; `None` in an
    optional GitHub field stands for PyGithub's `NotSet` (leave unchanged). */
module Forge {
  import opened Errors
  import opened Wrappers
  import opened Sync
  import opened Mirror

  /** The feature flags of Forgejo's `repo_edit`. */
  datatype ForgejoEdit = ForgejoEdit(
    archived: Option<bool>,
    defaultBranch: Option<string>,
    description: string,
    hasActions: bool,
    hasIssues: bool,
    hasPackages: bool,
    hasProjects: bool,
    hasPullRequests: bool,
    hasReleases: bool,
    hasWiki: bool,
    name: Option<string>,
    private: Option<bool>,
    template: Option<bool>,
    website: Option<string>,
    wikiBranch: Option<string>)

  /** The arguments of PyGithub's `create_repo`. */
  datatype GithubCreate = GithubCreate(
    name: string,
    description: string,
    homepage: Option<string>,
    private: Option<bool>,
    hasIssues: bool,
    hasProjects: bool,
    hasWiki: bool,
    hasDiscussions: bool,
    hasDownloads: bool,
    autoInit: bool)

  /** The arguments of PyGithub's `Repository.edit`. An optional field that is `None` stands
      for PyGithub's `NotSet`: the argument is left out and the field keeps its value. */
  datatype GithubEdit = GithubEdit(
    name: string,
    description: string,
    homepage: Option<string>,
    private: Option<bool>,
    hasIssues: bool,
    hasProjects: bool,
    hasWiki: bool,
    hasDiscussions: bool,
    isTemplate: Option<bool>,
    defaultBranch: Option<string>,
    archived: Option<bool>)

  datatype Call =
    | ForgejoCreateRepo(name: string, autoInit: bool, defaultBranch: Option<string>, description: string, private: Option<bool>)
    | ForgejoEditRepo(owner: string, repo: string, forgejoEdit: ForgejoEdit)
    | ForgejoUpdateTopics(owner: string, repo: string, topics: seq<string>)
    | GithubCreateRepo(create: GithubCreate)
    | GithubGetContents(repo: string, path: string)
    | GithubEditRepo(repo: string, githubEdit: GithubEdit)
    | GithubReplaceTopics(repo: string, topics: seq<string>)
    | MirrorRepo(mirrorer: PushMirrorer, synced: SyncedRepository, config: PushMirrorConfig)

  /** How an abstract `MirrorRepo` action ended: a mirror was returned, `None` was returned,
      or the mirrorer raised. */
  datatype MirrorOutcome = Mirrored | NothingCreated | MirrorFailed(error: Error)

  function CountMirrorCalls(calls: seq<Call>): nat {
    if |calls| == 0 then 0 else (if calls[0].MirrorRepo? then 1 else 0) + CountMirrorCalls(calls[1..])
  }

  lemma {:induction false} CountMirrorCallsAppend(a: seq<Call>, b: seq<Call>)
    ensures CountMirrorCalls(a + b) == CountMirrorCalls(a) + CountMirrorCalls(b)
  {
    if |a| > 0 {
      assert (a + b)[1..] == a[1..] + b;
      CountMirrorCallsAppend(a[1..], b);
    } else {
      assert a + b == b;
    }
  }
}
