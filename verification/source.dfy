/** The source-side repository (source.py) and the Forgejo API records it wraps. */
module Source {
  import opened Errors
  import opened Wrappers

  /** A Forgejo API user; `login` may be missing in the API's answer. */
  datatype User = User(login: Option<string>)

  /** The fields of a Forgejo API `Repository` the core reads. Every field is
      optional in the API's answer; the same record describes source repositories
      and Forgejo destination repositories. */
  datatype Repository = Repository(
    owner: Option<User>,
    name: Option<string>,
    fullName: Option<string>,
    description: Option<string>,
    htmlUrl: Option<string>,
    website: Option<string>,
    cloneUrl: Option<string>,
    defaultBranch: Option<string>,
    wikiBranch: Option<string>,
    fork: Option<bool>,
    mirror: Option<bool>,
    private: Option<bool>,
    archived: Option<bool>,
    template: Option<bool>)

  /** Python truthiness of an optional flag: `None` counts as false. */
  predicate Truthy(b: Option<bool>) {
    b == Some(true)
  }

  /** The owner's login, when both the owner and its login are present. */
  function OwnerLogin(raw: Repository): Option<string> {
    if raw.owner.Some? then raw.owner.value.login else None
  }

  /** A source repository with its identity resolved to plain strings. */
  datatype SourceRepository = SourceRepository(raw: Repository, name: string, owner: string)

  /** The validating constructor: fails with `RuntimeError` when the owner, the
      owner's login or the name is missing; otherwise copies name and owner login. */
  function NewSourceRepository(raw: Repository): (r: Result<SourceRepository>)
    ensures r.Err? <==> raw.owner.None? || raw.owner.value.login.None? || raw.name.None?
    ensures r.Err? ==> r.error == RuntimeError("Could not get name of Forgejo repository")
    ensures r.Ok? ==>
              && Some(r.value.name) == raw.name
              && Some(r.value.owner) == OwnerLogin(raw)
              && r.value.raw == raw
  {
    match (OwnerLogin(raw), raw.name)
    case (Some(login), Some(name)) => Ok(SourceRepository(raw, name, login))
    case _ => Err(RuntimeError("Could not get name of Forgejo repository"))
  }

  /** `str(repo)`: `owner/name`. */
  function ToString(s: SourceRepository): string {
    s.owner + "/" + s.name
  }

  /** Split a full name at its first `/`; the inverse of `ToString` for owners without `/`. */
  function SplitFullName(full: string): Option<(string, string)> {
    SplitAt(full, 0)
  }

  function SplitAt(full: string, i: nat): Option<(string, string)>
    requires i <= |full|
    decreases |full| - i
  {
    if i == |full| then None
    else if full[i] == '/' then Some((full[..i], full[i + 1..]))
    else SplitAt(full, i + 1)
  }

  lemma {:induction false} SplitAtPrefix(owner: string, name: string, i: nat)
    requires i <= |owner| && '/' !in owner[i..]
    ensures SplitAt(owner + "/" + name, i) == Some((owner, name))
    decreases |owner| - i
  {
    var full := owner + "/" + name;
    if i == |owner| {
      assert full[i] == '/';
      assert full[..i] == owner;
      assert full[i + 1..] == name;
    } else {
      assert full[i] == owner[i] && owner[i] in owner[i..];
      assert owner[i + 1..] == owner[i..][1..];
      SplitAtPrefix(owner, name, i + 1);
    }
  }

  /** `str(repo)` can be split back into owner and name whenever the owner has no `/`. */
  lemma ToStringRoundTrip(s: SourceRepository)
    requires '/' !in s.owner
    ensures SplitFullName(ToString(s)) == Some((s.owner, s.name))
  {
    assert s.owner[0..] == s.owner;
    SplitAtPrefix(s.owner, s.name, 0);
  }
}
