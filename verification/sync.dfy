/** The types every syncer shares (sync.py): the feature enum, the descriptor a
    sync returns, and the name-keyed index a syncer preloads. */
module Sync {
  import opened Wrappers
  import opened Platforms

  /** `RepositoryFeature(StrEnum)`. */
  datatype RepositoryFeature =
    | Actions | Discussions | Issues | Packages | Projects | PullRequests | Releases | Wiki

  function FeatureValue(f: RepositoryFeature): string {
    match f
    case Actions => "actions"
    case Discussions => "discussions"
    case Issues => "issues"
    case Packages => "packages"
    case Projects => "projects"
    case PullRequests => "pull-requests"
    case Releases => "releases"
    case Wiki => "wiki"
  }

  /** `RepositoryFeature(s)`; `None` where Python raises `ValueError`. */
  function FeatureFromValue(s: string): Option<RepositoryFeature> {
    if s == "actions" then Some(Actions)
    else if s == "discussions" then Some(Discussions)
    else if s == "issues" then Some(Issues)
    else if s == "packages" then Some(Packages)
    else if s == "projects" then Some(Projects)
    else if s == "pull-requests" then Some(PullRequests)
    else if s == "releases" then Some(Releases)
    else if s == "wiki" then Some(Wiki)
    else None
  }

  const AllFeatures: set<RepositoryFeature> :=
    {Actions, Discussions, Issues, Packages, Projects, PullRequests, Releases, Wiki}

  /** The enum has exactly eight members, with pairwise distinct values. */
  lemma FeaturesEnumerated(f: RepositoryFeature, g: RepositoryFeature)
    ensures f in AllFeatures && |AllFeatures| == 8
    ensures FeatureValue(f) == FeatureValue(g) ==> f == g
  {
  }

  /** A member's value maps back to the member, and only member values map to anything. */
  lemma FeatureRoundTrip(f: RepositoryFeature, s: string)
    ensures FeatureFromValue(FeatureValue(f)) == Some(f)
    ensures FeatureFromValue(s) == Some(f) <==> s == FeatureValue(f)
  {
  }

  /** What a successful sync returns: the destination owner, the source owner, the
      destination name and clone URL, the platform, and whether a push mirror was
      already set up during the sync. */
  datatype SyncedRepository = SyncedRepository(
    newOwner: string,
    origOwner: string,
    name: string,
    cloneUrl: string,
    platform: Platform,
    mirrored: bool)

  /** The preloaded name-to-repository index both syncers build by iterating a
      listing and assigning `index[name] = repo`; entries without a name are
      skipped, and a later entry with the same name replaces an earlier one. */
  function IndexBy<R>(listing: seq<R>, key: R -> Option<string>): (index: map<string, R>)
    ensures forall i :: 0 <= i < |listing| && key(listing[i]).Some? ==> key(listing[i]).value in index
    ensures forall k :: k in index ==> key(index[k]) == Some(k)
    ensures forall k :: k in index ==> LastKeyed(listing, key, k, index[k])
  {
    if |listing| == 0 then map[]
    else
      var init := listing[..|listing| - 1];
      var last := listing[|listing| - 1];
      var index := IndexBy(init, key);
      assert forall i :: 0 <= i < |init| ==> init[i] == listing[i];
      if key(last).None? then index
      else index[key(last).value := last]
  }

  /** `r` is the last entry of `listing` keyed `k`. */
  ghost predicate LastKeyed<R>(listing: seq<R>, key: R -> Option<string>, k: string, r: R) {
    exists i :: 0 <= i < |listing| && listing[i] == r && key(r) == Some(k)
      && forall j :: i < j < |listing| ==> key(listing[j]) != Some(k)
  }
}
