/** The repository filter (filter.py): drops forks, mirrors and private repositories,
    then applies include and exclude name patterns. The regular-expression engine is
    a parameter: `fullMatch(pattern, name)` is `re.fullmatch(pattern, name) is not None`. */
module Filter {
  import opened Source
  import Sequences

  datatype RepositoryFilter = RepositoryFilter(includes: seq<string>, excludes: seq<string>)

  /** `matches(name, patterns)`: some pattern fully matches the name. */
  function Matches(name: string, patterns: seq<string>, fullMatch: (string, string) -> bool): (r: bool)
    ensures r <==> exists i :: 0 <= i < |patterns| && fullMatch(patterns[i], name)
  {
    if |patterns| == 0 then false
    else if fullMatch(patterns[0], name) then true
    else
      var r := Matches(name, patterns[1..], fullMatch);
      assert forall i :: 1 <= i < |patterns| ==> patterns[i] == patterns[1..][i - 1];
      r
  }

  /** The three checks of the loop body, in source order. */
  predicate Passes(f: RepositoryFilter, repo: SourceRepository, fullMatch: (string, string) -> bool) {
    if Truthy(repo.raw.fork) || Truthy(repo.raw.mirror) || Truthy(repo.raw.private) then false
    else if f.includes != [] && !Matches(repo.name, f.includes, fullMatch) then false
    else if Matches(repo.name, f.excludes, fullMatch) then false
    else true
  }

  /** Which repositories are eligible, stated without the loop: not a fork, mirror or private;
      matched by some include when there are includes; matched by no exclude. */
  ghost predicate Eligible(f: RepositoryFilter, repo: SourceRepository, fullMatch: (string, string) -> bool) {
    && !Truthy(repo.raw.fork) && !Truthy(repo.raw.mirror) && !Truthy(repo.raw.private)
    && (|f.includes| == 0 || exists i :: 0 <= i < |f.includes| && fullMatch(f.includes[i], repo.name))
    && !(exists i :: 0 <= i < |f.excludes| && fullMatch(f.excludes[i], repo.name))
  }

  lemma PassesIffEligible(f: RepositoryFilter, repo: SourceRepository, fullMatch: (string, string) -> bool)
    ensures Passes(f, repo, fullMatch) <==> Eligible(f, repo, fullMatch)
  {
  }

  /** `filter(source_repos)`: the generator, as the sequence it yields. Only eligible
      repositories are yielded, and every eligible one is. */
  function Filter(f: RepositoryFilter, repos: seq<SourceRepository>, fullMatch: (string, string) -> bool): (r: seq<SourceRepository>)
    ensures forall x :: x in r ==> x in repos && Eligible(f, x, fullMatch)
    ensures forall i :: 0 <= i < |repos| && Eligible(f, repos[i], fullMatch) ==> repos[i] in r
  {
    if |repos| == 0 then []
    else
      var rest := Filter(f, repos[1..], fullMatch);
      assert forall i :: 1 <= i < |repos| ==> repos[i] == repos[1..][i - 1];
      PassesIffEligible(f, repos[0], fullMatch);
      if Passes(f, repos[0], fullMatch) then [repos[0]] + rest else rest
  }

  lemma {:induction false} FilterIsKeep(f: RepositoryFilter, repos: seq<SourceRepository>, fullMatch: (string, string) -> bool)
    ensures Filter(f, repos, fullMatch) == Sequences.Keep(repos, (x: SourceRepository) => Passes(f, x, fullMatch))
  {
    if |repos| > 0 {
      FilterIsKeep(f, repos[1..], fullMatch);
    }
  }

  /** The yielded repositories keep their input order. */
  lemma FilterIsSubsequence(f: RepositoryFilter, repos: seq<SourceRepository>, fullMatch: (string, string) -> bool)
    ensures Sequences.IsSubsequence(Filter(f, repos, fullMatch), repos)
  {
    FilterIsKeep(f, repos, fullMatch);
    Sequences.KeepIsSubsequence(repos, (x: SourceRepository) => Passes(f, x, fullMatch));
  }

  /** Excludes win over includes: a name matched by both is never yielded. */
  lemma ExcludesWin(f: RepositoryFilter, repos: seq<SourceRepository>, fullMatch: (string, string) -> bool, i: nat, k: nat)
    requires i < |repos| && k < |f.excludes| && fullMatch(f.excludes[k], repos[i].name)
    ensures repos[i] !in Filter(f, repos, fullMatch)
  {
  }

  /** With no patterns at all, exactly the repositories that are not forks, mirrors or private are yielded. */
  lemma NoPatternsKeepsPublicOriginals(repos: seq<SourceRepository>, fullMatch: (string, string) -> bool, repo: SourceRepository)
    requires repo in repos
    ensures repo in Filter(RepositoryFilter([], []), repos, fullMatch) <==>
      !Truthy(repo.raw.fork) && !Truthy(repo.raw.mirror) && !Truthy(repo.raw.private)
  {
  }
}
