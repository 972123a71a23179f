/** The push-mirror reconciler (mirror.py): config overlay, matching of existing
    push mirrors by remote address, and the add / delete-and-re-add / leave-alone
    decision, with every call to the source forge returned as a trace. */
module Mirror {
  import opened Errors
  import opened Wrappers
  import opened Sync
  import Sequences

  /** `PushMirrorConfig`: every field optional. */
  datatype PushMirrorConfig = PushMirrorConfig(
    interval: Option<string>,
    remirror: Option<bool>,
    immediate: Option<bool>,
    syncOnCommit: Option<bool>)

  /** `PushMirrorConfig()`: nothing set. */
  const Unset := PushMirrorConfig(None, None, None, None)

  function Prefer<T>(o: Option<T>, fallback: Option<T>): Option<T> {
    if o.Some? then o else fallback
  }

  /** `base.overlay(other)`: field by field, `other`'s value when it is set, `base`'s otherwise. */
  function Overlay(base: PushMirrorConfig, other: PushMirrorConfig): (r: PushMirrorConfig)
    ensures r.interval == (if other.interval.Some? then other.interval else base.interval)
    ensures r.remirror == (if other.remirror.Some? then other.remirror else base.remirror)
    ensures r.immediate == (if other.immediate.Some? then other.immediate else base.immediate)
    ensures r.syncOnCommit == (if other.syncOnCommit.Some? then other.syncOnCommit else base.syncOnCommit)
  {
    PushMirrorConfig(
      Prefer(other.interval, base.interval),
      Prefer(other.remirror, base.remirror),
      Prefer(other.immediate, base.immediate),
      Prefer(other.syncOnCommit, base.syncOnCommit))
  }

  /** `is_valid()`: no field is `None`. */
  predicate IsValid(c: PushMirrorConfig) {
    && c.interval.Some?
    && c.remirror.Some?
    && c.immediate.Some?
    && c.syncOnCommit.Some?
  }

  /** Overlaying nothing gives the base back. */
  lemma OverlayUnsetIsIdentity(base: PushMirrorConfig)
    ensures Overlay(base, Unset) == base
  {
  }

  /** A fully set override wins entirely. */
  lemma OverlayValidOverrideWins(base: PushMirrorConfig, other: PushMirrorConfig)
    requires IsValid(other)
    ensures Overlay(base, other) == other
  {
  }

  /** The overlay is valid exactly when every field is set on one side or the other. */
  lemma OverlayValidIff(base: PushMirrorConfig, other: PushMirrorConfig)
    ensures IsValid(Overlay(base, other)) <==>
      && (base.interval.Some? || other.interval.Some?)
      && (base.remirror.Some? || other.remirror.Some?)
      && (base.immediate.Some? || other.immediate.Some?)
      && (base.syncOnCommit.Some? || other.syncOnCommit.Some?)
  {
  }

  /** Overlays compose: overlaying twice equals overlaying once with the overlaid override. */
  lemma OverlayAssociative(a: PushMirrorConfig, b: PushMirrorConfig, c: PushMirrorConfig)
    ensures Overlay(Overlay(a, b), c) == Overlay(a, Overlay(b, c))
  {
  }

  /** A config with every field resolved. */
  datatype ResolvedConfig = ResolvedConfig(
    interval: string,
    remirror: bool,
    immediate: bool,
    syncOnCommit: bool)

  function Resolve(c: PushMirrorConfig): ResolvedConfig
    requires IsValid(c)
  {
    ResolvedConfig(c.interval.value, c.remirror.value, c.immediate.value, c.syncOnCommit.value)
  }

  /** A push mirror as listed by the source forge; both fields may be missing. */
  datatype PushMirror = PushMirror(remoteName: Option<string>, remoteAddress: Option<string>)

  /** `PushMirrorer`: the base config and the password given to every new mirror. */
  datatype PushMirrorer = PushMirrorer(config: PushMirrorConfig, mirrorToken: string)

  /** The arguments of one `repo_add_push_mirror` call. The mirror that call returns
      is identified by them. */
  datatype NewMirror = NewMirror(
    interval: string,
    remoteAddress: string,
    remoteUsername: string,
    remotePassword: string,
    syncOnCommit: bool,
    useSsh: bool)

  /** The mutating calls the reconciler issues on the source forge. */
  datatype Call =
    | AddPushMirror(owner: string, repo: string, mirror: NewMirror)
    | DeletePushMirror(owner: string, repo: string, name: string)
    | PushMirrorSync(owner: string, repo: string)

  /** The mirrors in `mirrors` whose remote address is `url`, in listing order. */
  function Matching(mirrors: seq<PushMirror>, url: string): seq<PushMirror> {
    if |mirrors| == 0 then []
    else
      var rest := Matching(mirrors[1..], url);
      if mirrors[0].remoteAddress == Some(url) then [mirrors[0]] + rest else rest
  }

  /** Exactly the listed mirrors pointing at `url` are kept. */
  lemma {:induction false} MatchingKeepsExactly(mirrors: seq<PushMirror>, url: string)
    ensures forall pm :: pm in Matching(mirrors, url) ==> pm in mirrors && pm.remoteAddress == Some(url)
    ensures forall i :: 0 <= i < |mirrors| && mirrors[i].remoteAddress == Some(url) ==> mirrors[i] in Matching(mirrors, url)
  {
    if |mirrors| > 0 {
      MatchingKeepsExactly(mirrors[1..], url);
      assert forall i :: 1 <= i < |mirrors| ==> mirrors[i] == mirrors[1..][i - 1];
    }
  }

  /** The matching mirrors keep their listing order. */
  lemma {:induction false} MatchingIsSubsequence(mirrors: seq<PushMirror>, url: string)
    ensures Sequences.IsSubsequence(Matching(mirrors, url), mirrors)
  {
    if |mirrors| > 0 {
      MatchingIsSubsequence(mirrors[1..], url);
      var rest := Matching(mirrors[1..], url);
      if mirrors[0].remoteAddress == Some(url) {
        assert ([mirrors[0]] + rest)[1..] == rest;
      } else {
        Sequences.SubsequenceOfTail(rest, mirrors);
      }
    }
  }

  ghost predicate DistinctNames(repos: seq<SyncedRepository>) {
    forall i, j :: 0 <= i < j < |repos| ==> repos[i].name != repos[j].name
  }

  /** `get_matching_mirrors`: for each repository, the listed push mirrors that point at its
      clone URL; `MirrorError` when two repositories share a name. `listPushMirrors(owner, name)`
      is the source forge's answer to `repo_list_push_mirrors`. */
  method GetMatchingMirrors(
    repos: seq<SyncedRepository>,
    listPushMirrors: (string, string) -> seq<PushMirror>)
    returns (r: Result<map<string, seq<PushMirror>>>)
    ensures r.Err? <==> !DistinctNames(repos)
    ensures r.Err? ==> r.error == MirrorError("duplicate repositories")
    ensures r.Ok? ==> forall k :: k in r.value ==> exists i :: 0 <= i < |repos| && repos[i].name == k
    ensures r.Ok? ==> forall i :: 0 <= i < |repos| ==>
      && repos[i].name in r.value
      && r.value[repos[i].name] == Matching(listPushMirrors(repos[i].origOwner, repos[i].name), repos[i].cloneUrl)
  {
    var index: map<string, seq<PushMirror>> := map[];
    var i := 0;
    while i < |repos|
      invariant 0 <= i <= |repos|
      invariant forall a, b :: 0 <= a < b < i ==> repos[a].name != repos[b].name
      invariant index == IndexUpTo(repos, listPushMirrors, i)
    {
      IndexUpToContents(repos, listPushMirrors, i);
      var repo := repos[i];
      if repo.name in index {
        var j :| 0 <= j < i && repos[j].name == repo.name;
        assert repos[j].name == repos[i].name;
        return Err(MirrorError("duplicate repositories"));
      }
      index := index[repo.name := Matching(listPushMirrors(repo.origOwner, repo.name), repo.cloneUrl)];
      i := i + 1;
    }
    IndexUpToContents(repos, listPushMirrors, i);
    return Ok(index);
  }

  /** The index after the first i repositories were entered. */
  ghost function IndexUpTo(
    repos: seq<SyncedRepository>, listPushMirrors: (string, string) -> seq<PushMirror>, i: nat): map<string, seq<PushMirror>>
    requires i <= |repos|
  {
    if i == 0 then map[]
    else
      var repo := repos[i - 1];
      IndexUpTo(repos, listPushMirrors, i - 1)[repo.name := Matching(listPushMirrors(repo.origOwner, repo.name), repo.cloneUrl)]
  }

  /** With distinct names, the index holds exactly the names entered so far, each with its
      own matching mirrors. */
  lemma {:induction false} IndexUpToContents(
    repos: seq<SyncedRepository>, listPushMirrors: (string, string) -> seq<PushMirror>, i: nat)
    requires i <= |repos|
    requires forall a, b :: 0 <= a < b < i ==> repos[a].name != repos[b].name
    ensures forall k :: k in IndexUpTo(repos, listPushMirrors, i) ==> exists j :: 0 <= j < i && repos[j].name == k
    ensures forall j :: 0 <= j < i ==>
      && repos[j].name in IndexUpTo(repos, listPushMirrors, i)
      && IndexUpTo(repos, listPushMirrors, i)[repos[j].name] == Matching(listPushMirrors(repos[j].origOwner, repos[j].name), repos[j].cloneUrl)
  {
    if i > 0 {
      IndexUpToContents(repos, listPushMirrors, i - 1);
    }
  }

  /** The one `repo_add_push_mirror` request made for `repo`: the destination clone URL,
      the destination owner as user name, the mirrorer's token as password, no SSH. */
  function Request(m: PushMirrorer, repo: SyncedRepository, c: ResolvedConfig): NewMirror {
    NewMirror(c.interval, repo.cloneUrl, repo.newOwner, m.mirrorToken, c.syncOnCommit, false)
  }

  /** The loop over the existing matching mirrors: each must have a remote name; with
      `remirror` each is deleted and a fresh one added right after. `last` is the most
      recent mirror added before this point. */
  function ReplaceExisting(
    m: PushMirrorer, repo: SyncedRepository, c: ResolvedConfig,
    existing: seq<PushMirror>, last: Option<NewMirror>): Traced<Call, Option<NewMirror>>
    decreases |existing|
  {
    if |existing| == 0 then Traced([], Ok(last))
    else if existing[0].remoteName.None? then Traced([], Err(MirrorError("missing remote name")))
    else
      var step :=
        if c.remirror
        then [DeletePushMirror(repo.origOwner, repo.name, existing[0].remoteName.value),
              AddPushMirror(repo.origOwner, repo.name, Request(m, repo, c))]
        else [];
      var rest := ReplaceExisting(m, repo, c, existing[1..], if c.remirror then Some(Request(m, repo, c)) else last);
      Traced(step + rest.calls, rest.result)
  }

  /** `mirror_repo`: reconcile the push mirrors of one synced repository. `existing` are its
      matching mirrors. A repository already mirrored during its sync is left alone. */
  function MirrorRepo(
    m: PushMirrorer, repo: SyncedRepository,
    existing: seq<PushMirror>, config: PushMirrorConfig): Traced<Call, Option<NewMirror>>
  {
    if repo.mirrored then Traced([], Ok(None))
    else
      var final := Overlay(m.config, config);
      if !IsValid(final) then Traced([], Err(MirrorError("config is invalid")))
      else Reconcile(m, repo, existing, Resolve(final))
  }

  /** The part of `mirror_repo` after the configuration was validated: replace or keep the
      existing mirrors, add one when none matched, and sync when asked to. */
  function Reconcile(m: PushMirrorer, repo: SyncedRepository, existing: seq<PushMirror>, c: ResolvedConfig): Traced<Call, Option<NewMirror>>
  {
    var replaced := ReplaceExisting(m, repo, c, existing, None);
    if replaced.result.Err? then replaced
    else
      var added :=
        if |existing| == 0 then [AddPushMirror(repo.origOwner, repo.name, Request(m, repo, c))] else [];
      var created := if |existing| == 0 then Some(Request(m, repo, c)) else replaced.result.value;
      var synced := if created.Some? && c.immediate then [PushMirrorSync(repo.origOwner, repo.name)] else [];
      Traced(replaced.calls + added + synced, Ok(created))
  }

  ghost predicate AllNamed(existing: seq<PushMirror>) {
    forall i :: 0 <= i < |existing| ==> existing[i].remoteName.Some?
  }

  /** The calls a full pass over named mirrors issues: nothing without `remirror`; with it,
      for the i-th mirror, its delete at position 2i and a fresh add at 2i+1. */
  lemma {:induction false} ReplaceExistingNamed(
    m: PushMirrorer, repo: SyncedRepository, c: ResolvedConfig,
    existing: seq<PushMirror>, last: Option<NewMirror>)
    requires AllNamed(existing)
    ensures var r := ReplaceExisting(m, repo, c, existing, last);
      && r.result == Ok(if c.remirror && |existing| > 0 then Some(Request(m, repo, c)) else last)
      && |r.calls| == (if c.remirror then 2 * |existing| else 0)
      && forall i :: 0 <= i < |existing| && c.remirror ==>
           && r.calls[2 * i] == DeletePushMirror(repo.origOwner, repo.name, existing[i].remoteName.value)
           && r.calls[2 * i + 1] == AddPushMirror(repo.origOwner, repo.name, Request(m, repo, c))
    decreases |existing|
  {
    if |existing| > 0 {
      var next := if c.remirror then Some(Request(m, repo, c)) else last;
      assert AllNamed(existing[1..]) by {
        forall i | 0 <= i < |existing[1..]| ensures existing[1..][i].remoteName.Some? {
          assert existing[1..][i] == existing[i + 1];
        }
      }
      ReplaceExistingNamed(m, repo, c, existing[1..], next);
      var r := ReplaceExisting(m, repo, c, existing, last);
      var rest := ReplaceExisting(m, repo, c, existing[1..], next);
      if c.remirror {
        forall i | 0 <= i < |existing|
          ensures r.calls[2 * i] == DeletePushMirror(repo.origOwner, repo.name, existing[i].remoteName.value)
          ensures r.calls[2 * i + 1] == AddPushMirror(repo.origOwner, repo.name, Request(m, repo, c))
        {
          if i > 0 {
            assert r.calls[2 * i] == rest.calls[2 * (i - 1)];
            assert r.calls[2 * i + 1] == rest.calls[2 * (i - 1) + 1];
            assert existing[1..][i - 1] == existing[i];
          }
        }
      }
    }
  }

  /** A mirror without a remote name stops the pass with `MirrorError`; with `remirror`, the
      delete/add pairs of the named mirrors before it have already been issued. */
  lemma {:induction false} ReplaceExistingUnnamed(
    m: PushMirrorer, repo: SyncedRepository, c: ResolvedConfig,
    existing: seq<PushMirror>, last: Option<NewMirror>, j: nat)
    requires j < |existing| && existing[j].remoteName.None? && AllNamed(existing[..j])
    ensures var r := ReplaceExisting(m, repo, c, existing, last);
      && r.result == Err(MirrorError("missing remote name"))
      && |r.calls| == (if c.remirror then 2 * j else 0)
      && forall i :: 0 <= i < |r.calls| ==> !r.calls[i].PushMirrorSync?
    decreases j
  {
    if j > 0 {
      var next := if c.remirror then Some(Request(m, repo, c)) else last;
      assert existing[1..][..j - 1] == existing[1..j];
      assert AllNamed(existing[1..][..j - 1]) by {
        forall i | 0 <= i < j - 1 ensures existing[1..j][i].remoteName.Some? {
          assert existing[1..j][i] == existing[..j][i + 1];
        }
      }
      assert existing[..j][0] == existing[0];
      ReplaceExistingUnnamed(m, repo, c, existing[1..], next, j - 1);
    }
  }

  /** A repository already mirrored during its sync gets no calls and no new mirror. */
  lemma MirrorRepoSkipsMirrored(m: PushMirrorer, repo: SyncedRepository, existing: seq<PushMirror>, config: PushMirrorConfig)
    requires repo.mirrored
    ensures MirrorRepo(m, repo, existing, config) == Traced([], Ok(None))
  {
  }

  /** An overlay that leaves a field unset fails with `MirrorError` before any call. */
  lemma MirrorRepoInvalidConfig(m: PushMirrorer, repo: SyncedRepository, existing: seq<PushMirror>, config: PushMirrorConfig)
    requires !repo.mirrored && !IsValid(Overlay(m.config, config))
    ensures MirrorRepo(m, repo, existing, config) == Traced([], Err(MirrorError("config is invalid")))
  {
  }

  /** No matching mirror: exactly one add, to the destination clone URL as the destination
      owner, then a sync when `immediate`; the added mirror is returned. */
  lemma MirrorRepoCreatesWhenNoneMatch(m: PushMirrorer, repo: SyncedRepository, config: PushMirrorConfig)
    requires !repo.mirrored && IsValid(Overlay(m.config, config))
    ensures var c := Resolve(Overlay(m.config, config));
      var add := Request(m, repo, c);
      && add.remoteAddress == repo.cloneUrl && add.remoteUsername == repo.newOwner && !add.useSsh
      && MirrorRepo(m, repo, [], config) == Traced(
           [AddPushMirror(repo.origOwner, repo.name, add)]
             + (if c.immediate then [PushMirrorSync(repo.origOwner, repo.name)] else []),
           Ok(Some(add)))
  {
  }

  /** Without `remirror`, named matching mirrors are left as they are: no call at all. */
  lemma MirrorRepoLeavesExisting(m: PushMirrorer, repo: SyncedRepository, existing: seq<PushMirror>, config: PushMirrorConfig)
    requires !repo.mirrored && IsValid(Overlay(m.config, config))
    requires !Overlay(m.config, config).remirror.value
    requires |existing| > 0 && AllNamed(existing)
    ensures MirrorRepo(m, repo, existing, config) == Traced([], Ok(None))
  {
    ReplaceExistingNamed(m, repo, Resolve(Overlay(m.config, config)), existing, None);
  }

  /** With `remirror` and k named matching mirrors: k delete-then-add pairs, in listing order,
      then a sync when `immediate`; the last added mirror is returned. */
  lemma MirrorRepoReplacesExisting(m: PushMirrorer, repo: SyncedRepository, existing: seq<PushMirror>, config: PushMirrorConfig)
    requires !repo.mirrored && IsValid(Overlay(m.config, config))
    requires Overlay(m.config, config).remirror.value
    requires |existing| > 0 && AllNamed(existing)
    ensures var c := Resolve(Overlay(m.config, config));
      var r := MirrorRepo(m, repo, existing, config);
      && r.result == Ok(Some(Request(m, repo, c)))
      && |r.calls| == 2 * |existing| + (if c.immediate then 1 else 0)
      && (forall i :: 0 <= i < |existing| ==>
           && r.calls[2 * i] == DeletePushMirror(repo.origOwner, repo.name, existing[i].remoteName.value)
           && r.calls[2 * i + 1] == AddPushMirror(repo.origOwner, repo.name, Request(m, repo, c)))
      && (c.immediate ==> r.calls[|r.calls| - 1] == PushMirrorSync(repo.origOwner, repo.name))
  {
    var c := Resolve(Overlay(m.config, config));
    ReplaceExistingNamed(m, repo, c, existing, None);
  }

  /** A matching mirror without a remote name raises `MirrorError`, even without `remirror`;
      no sync is triggered, and only the pairs for the mirrors before it were issued. */
  lemma MirrorRepoUnnamed(m: PushMirrorer, repo: SyncedRepository, existing: seq<PushMirror>, config: PushMirrorConfig, j: nat)
    requires !repo.mirrored && IsValid(Overlay(m.config, config))
    requires j < |existing| && existing[j].remoteName.None? && AllNamed(existing[..j])
    ensures var r := MirrorRepo(m, repo, existing, config);
      && r.result == Err(MirrorError("missing remote name"))
      && |r.calls| == (if Overlay(m.config, config).remirror.value then 2 * j else 0)
      && forall i :: 0 <= i < |r.calls| ==> !r.calls[i].PushMirrorSync?
  {
    ReplaceExistingUnnamed(m, repo, Resolve(Overlay(m.config, config)), existing, None, j);
  }

  function CountAdds(calls: seq<Call>): nat {
    if |calls| == 0 then 0 else (if calls[0].AddPushMirror? then 1 else 0) + CountAdds(calls[1..])
  }

  function CountDeletes(calls: seq<Call>): nat {
    if |calls| == 0 then 0 else (if calls[0].DeletePushMirror? then 1 else 0) + CountDeletes(calls[1..])
  }

  lemma {:induction false} CountsAppend(a: seq<Call>, b: seq<Call>)
    ensures CountAdds(a + b) == CountAdds(a) + CountAdds(b)
    ensures CountDeletes(a + b) == CountDeletes(a) + CountDeletes(b)
  {
    if |a| > 0 {
      assert (a + b)[1..] == a[1..] + b;
      CountsAppend(a[1..], b);
    } else {
      assert a + b == b;
    }
  }

  lemma {:induction false} ReplaceExistingCounts(
    m: PushMirrorer, repo: SyncedRepository, c: ResolvedConfig,
    existing: seq<PushMirror>, last: Option<NewMirror>)
    requires AllNamed(existing)
    ensures var r := ReplaceExisting(m, repo, c, existing, last);
      && CountAdds(r.calls) == (if c.remirror then |existing| else 0)
      && CountDeletes(r.calls) == (if c.remirror then |existing| else 0)
    decreases |existing|
  {
    if |existing| > 0 {
      var next := if c.remirror then Some(Request(m, repo, c)) else last;
      assert AllNamed(existing[1..]) by {
        forall i | 0 <= i < |existing[1..]| ensures existing[1..][i].remoteName.Some? {
          assert existing[1..][i] == existing[i + 1];
        }
      }
      ReplaceExistingCounts(m, repo, c, existing[1..], next);
      var rest := ReplaceExisting(m, repo, c, existing[1..], next);
      var step :=
        if c.remirror
        then [DeletePushMirror(repo.origOwner, repo.name, existing[0].remoteName.value),
              AddPushMirror(repo.origOwner, repo.name, Request(m, repo, c))]
        else [];
      CountsAppend(step, rest.calls);
      if c.remirror {
        assert step[1..][1..] == [];
      }
    }
  }

  /** The reconciler never duplicates a mirror: a successful run adds exactly as many mirrors
      as it deletes, plus one when nothing matched. Starting from k matching mirrors it ends
      with max(k, 1) of them. */
  lemma MirrorRepoNeverDuplicates(m: PushMirrorer, repo: SyncedRepository, existing: seq<PushMirror>, config: PushMirrorConfig)
    requires !repo.mirrored
    ensures var r := MirrorRepo(m, repo, existing, config);
      r.result.Ok? ==> CountAdds(r.calls) == CountDeletes(r.calls) + (if |existing| == 0 then 1 else 0)
  {
    var r := MirrorRepo(m, repo, existing, config);
    var final := Overlay(m.config, config);
    if r.result.Ok? {
      assert IsValid(final);
      var c := Resolve(final);
      if !AllNamed(existing) {
        var j := FirstUnnamed(existing);
        ReplaceExistingUnnamed(m, repo, c, existing, None, j);
        assert false;
      }
      var replaced := ReplaceExisting(m, repo, c, existing, None);
      ReplaceExistingCounts(m, repo, c, existing, None);
      ReplaceExistingNamed(m, repo, c, existing, None);
      var added := if |existing| == 0 then [AddPushMirror(repo.origOwner, repo.name, Request(m, repo, c))] else [];
      var created := if |existing| == 0 then Some(Request(m, repo, c)) else replaced.result.value;
      var synced := if created.Some? && c.immediate then [PushMirrorSync(repo.origOwner, repo.name)] else [];
      CountsAppend(replaced.calls, added);
      CountsAppend(replaced.calls + added, synced);
    }
  }

  /** The position of the first mirror without a remote name. */
  ghost function FirstUnnamed(existing: seq<PushMirror>): (j: nat)
    requires !AllNamed(existing)
    ensures j < |existing| && existing[j].remoteName.None? && AllNamed(existing[..j])
  {
    if existing[0].remoteName.None? then 0
    else
      assert !AllNamed(existing[1..]) by {
        var i :| 0 <= i < |existing| && existing[i].remoteName.None?;
        assert existing[1..][i - 1] == existing[i];
      }
      var j := FirstUnnamed(existing[1..]);
      assert forall i :: 0 <= i < j + 1 ==> existing[..j + 1][i] == existing[i];
      assert forall i :: 1 <= i < j + 1 ==> existing[i] == existing[1..][..j][i - 1];
      j + 1
  }

  /** A push-mirror sync is triggered exactly when a mirror was created and `immediate` is set,
      and then it is the last call. */
  lemma MirrorRepoSyncIffCreated(m: PushMirrorer, repo: SyncedRepository, existing: seq<PushMirror>, config: PushMirrorConfig)
    ensures var r := MirrorRepo(m, repo, existing, config);
      var final := Overlay(m.config, config);
      && ((exists i :: 0 <= i < |r.calls| && r.calls[i].PushMirrorSync?) <==>
           (r.result.Ok? && r.result.value.Some? && final.immediate == Some(true)))
      && forall i :: 0 <= i < |r.calls| && r.calls[i].PushMirrorSync? ==> i == |r.calls| - 1
  {
    var r := MirrorRepo(m, repo, existing, config);
    var final := Overlay(m.config, config);
    if !repo.mirrored && IsValid(final) {
      var c := Resolve(final);
      if AllNamed(existing) {
        ReplaceExistingNamed(m, repo, c, existing, None);
        var replaced := ReplaceExisting(m, repo, c, existing, None);
        assert forall i :: 0 <= i < |replaced.calls| ==> !replaced.calls[i].PushMirrorSync? by {
          if c.remirror {
            forall i | 0 <= i < |replaced.calls| ensures !replaced.calls[i].PushMirrorSync? {
              if i % 2 == 0 {
                assert replaced.calls[2 * (i / 2)] == DeletePushMirror(repo.origOwner, repo.name, existing[i / 2].remoteName.value);
              } else {
                assert replaced.calls[2 * (i / 2) + 1] == AddPushMirror(repo.origOwner, repo.name, Request(m, repo, c));
              }
            }
          }
        }
        var added := if |existing| == 0 then [AddPushMirror(repo.origOwner, repo.name, Request(m, repo, c))] else [];
        var created := if |existing| == 0 then Some(Request(m, repo, c)) else replaced.result.value;
        var synced := if created.Some? && c.immediate then [PushMirrorSync(repo.origOwner, repo.name)] else [];
        assert r.calls == replaced.calls + added + synced;
        assert r.result == Ok(created);
        forall i | 0 <= i < |r.calls| - |synced| ensures !r.calls[i].PushMirrorSync? {
          if i < |replaced.calls| {
            assert r.calls[i] == replaced.calls[i];
          } else {
            assert r.calls[i] == added[i - |replaced.calls|];
          }
        }
        if |synced| > 0 {
          assert r.calls[|r.calls| - 1].PushMirrorSync?;
        }
      } else {
        ReplaceExistingUnnamed(m, repo, c, existing, None, FirstUnnamed(existing));
      }
    }
  }
  /** `mirror_repo` for the i-th repository of a batch, given the listing of its push mirrors. */
  function Attempt(
    m: PushMirrorer, repos: seq<SyncedRepository>, config: PushMirrorConfig,
    listPushMirrors: (string, string) -> seq<PushMirror>, i: nat): Traced<Call, Option<NewMirror>>
    requires i < |repos|
  {
    MirrorRepo(m, repos[i], Matching(listPushMirrors(repos[i].origOwner, repos[i].name), repos[i].cloneUrl), config)
  }

  /** The calls of the first k attempts, one after another. */
  ghost function CallsUpTo(
    m: PushMirrorer, repos: seq<SyncedRepository>, config: PushMirrorConfig,
    listPushMirrors: (string, string) -> seq<PushMirror>, k: nat): seq<Call>
    requires k <= |repos|
  {
    if k == 0 then [] else CallsUpTo(m, repos, config, listPushMirrors, k - 1) + Attempt(m, repos, config, listPushMirrors, k - 1).calls
  }

  /** The mirrors the first k attempts returned, skipping those that returned `None`. */
  ghost function CreatedUpTo(
    m: PushMirrorer, repos: seq<SyncedRepository>, config: PushMirrorConfig,
    listPushMirrors: (string, string) -> seq<PushMirror>, k: nat): seq<NewMirror>
    requires k <= |repos|
    requires forall i :: 0 <= i < k ==> Attempt(m, repos, config, listPushMirrors, i).result.Ok?
  {
    if k == 0 then []
    else
      var last := Attempt(m, repos, config, listPushMirrors, k - 1).result.value;
      CreatedUpTo(m, repos, config, listPushMirrors, k - 1) + (if last.Some? then [last.value] else [])
  }

  /** `mirror_repos`: prefetch the matching mirrors of every repository, then reconcile each in
      input order. Duplicate names fail before any mutating call; the first failing repository
      ends the batch, after the calls of the ones before it. */
  method MirrorRepos(
    m: PushMirrorer, repos: seq<SyncedRepository>, config: PushMirrorConfig,
    listPushMirrors: (string, string) -> seq<PushMirror>)
    returns (r: Traced<Call, seq<NewMirror>>)
    ensures !DistinctNames(repos) ==> r == Traced([], Err(MirrorError("duplicate repositories")))
    ensures DistinctNames(repos) ==>
      (r.result.Ok? <==> forall i :: 0 <= i < |repos| ==> Attempt(m, repos, config, listPushMirrors, i).result.Ok?)
    ensures DistinctNames(repos) && r.result.Ok? ==>
      && r.calls == CallsUpTo(m, repos, config, listPushMirrors, |repos|)
      && r.result.value == CreatedUpTo(m, repos, config, listPushMirrors, |repos|)
    ensures DistinctNames(repos) && r.result.Err? ==>
      exists k :: 0 <= k < |repos|
        && (forall i :: 0 <= i < k ==> Attempt(m, repos, config, listPushMirrors, i).result.Ok?)
        && Attempt(m, repos, config, listPushMirrors, k).result.Err?
        && r.result.error == Attempt(m, repos, config, listPushMirrors, k).result.error
        && r.calls == CallsUpTo(m, repos, config, listPushMirrors, k) + Attempt(m, repos, config, listPushMirrors, k).calls
  {
    var matching := GetMatchingMirrors(repos, listPushMirrors);
    if matching.Err? {
      return Traced([], Err(matching.error));
    }
    r := ReconcileEach(m, repos, config, listPushMirrors, matching.value);
  }

  /** One iteration of the loop of `mirror_repos`: the prefetched mirrors of the i-th
      repository are the ones its listing matches, so this is its attempt. */
  method ReconcileOne(
    m: PushMirrorer, repos: seq<SyncedRepository>, config: PushMirrorConfig,
    listPushMirrors: (string, string) -> seq<PushMirror>, index: map<string, seq<PushMirror>>, i: nat)
    returns (step: Traced<Call, Option<NewMirror>>)
    requires i < |repos| && repos[i].name in index
    requires index[repos[i].name] == Matching(listPushMirrors(repos[i].origOwner, repos[i].name), repos[i].cloneUrl)
    ensures step == Attempt(m, repos, config, listPushMirrors, i)
  {
    step := MirrorRepo(m, repos[i], index[repos[i].name], config);
  }

  /** The loop of `mirror_repos`, over the prefetched matching mirrors `index`. */
  method ReconcileEach(
    m: PushMirrorer, repos: seq<SyncedRepository>, config: PushMirrorConfig,
    listPushMirrors: (string, string) -> seq<PushMirror>, index: map<string, seq<PushMirror>>)
    returns (r: Traced<Call, seq<NewMirror>>)
    requires forall i :: 0 <= i < |repos| ==>
               && repos[i].name in index
               && index[repos[i].name] == Matching(listPushMirrors(repos[i].origOwner, repos[i].name), repos[i].cloneUrl)
    ensures r.result.Ok? <==> forall i :: 0 <= i < |repos| ==> Attempt(m, repos, config, listPushMirrors, i).result.Ok?
    ensures r.result.Ok? ==>
      && r.calls == CallsUpTo(m, repos, config, listPushMirrors, |repos|)
      && r.result.value == CreatedUpTo(m, repos, config, listPushMirrors, |repos|)
    ensures r.result.Err? ==>
      exists k :: 0 <= k < |repos|
        && (forall i :: 0 <= i < k ==> Attempt(m, repos, config, listPushMirrors, i).result.Ok?)
        && Attempt(m, repos, config, listPushMirrors, k).result.Err?
        && r.result.error == Attempt(m, repos, config, listPushMirrors, k).result.error
        && r.calls == CallsUpTo(m, repos, config, listPushMirrors, k) + Attempt(m, repos, config, listPushMirrors, k).calls
  {
    var calls: seq<Call> := [];
    var created: seq<NewMirror> := [];
    var i := 0;
    while i < |repos|
      invariant 0 <= i <= |repos|
      invariant forall j :: 0 <= j < i ==> Attempt(m, repos, config, listPushMirrors, j).result.Ok?
      invariant calls == CallsUpTo(m, repos, config, listPushMirrors, i)
      invariant created == CreatedUpTo(m, repos, config, listPushMirrors, i)
    {
      var step := ReconcileOne(m, repos, config, listPushMirrors, index, i);
      calls := calls + step.calls;
      if step.result.Err? {
        return Traced(calls, Err(step.result.error));
      }
      if step.result.value.Some? {
        created := created + [step.result.value.value];
      }
      i := i + 1;
    }
    return Traced(calls, Ok(created));
  }
}
