/** The destination (dest.py): parsing `platform[=instance]`, default instances,
    rendering, and choosing the syncer variant. The `Syncer` interface of sync.py is the
    closed sum of the two variants, dispatched here. */
module Dest {
  import opened Errors
  import opened Wrappers
  import opened Strings
  import opened Platforms
  import opened Sync
  import opened Source
  import Mirror
  import Forge
  import Forgejo
  import Github

  datatype Destination = Destination(platform: Platform, instance: string)

  /** `Destination.__init__`: an explicit instance is kept verbatim; otherwise GitHub and Codeberg
      get their default instance and Forgejo raises `DestinationError`. */
  function NewDestination(platform: Platform, instance: Option<string>): (r: Result<Destination>)
    ensures instance.Some? ==> r == Ok(Destination(platform, instance.value))
    ensures instance.None? && platform == Github ==> r == Ok(Destination(Github, GithubInstance))
    ensures instance.None? && platform == Codeberg ==> r == Ok(Destination(Codeberg, CodebergInstance))
    ensures instance.None? && platform == Forgejo ==> r == Err(DestinationError("Forgejo does not have a default instance"))
  {
    if instance.Some? then Ok(Destination(platform, instance.value))
    else
      match platform
      case Github => Ok(Destination(platform, GithubInstance))
      case Codeberg => Ok(Destination(platform, CodebergInstance))
      case Forgejo => Err(DestinationError("Forgejo does not have a default instance"))
  }

  /** What the instance group `.+` can match: at least one character, none a line break. */
  predicate InstanceText(i: string) {
    |i| > 0 && '\n' !in i
  }

  /** `fullmatch(r"(?P<platform>[^=]+)(=(?P<instance>.+))?", s)`: the platform part runs up to the
      first `=`; when there is one, the rest after it is the instance. */
  function SplitDestination(s: string): Option<(string, Option<string>)> {
    match FirstIndex(s, '=')
    case None => if |s| == 0 then None else Some((s, None))
    case Some(i) =>
      if i == 0 || !InstanceText(s[i + 1..]) then None
      else Some((s[..i], Some(s[i + 1..])))
  }

  /** `Destination.parse`. */
  function Parse(s: string): (r: Result<Destination>)
    ensures r.Err? ==> r.error.ValueError? || r.error.DestinationError?
  {
    match SplitDestination(s)
    case None => Err(ValueError("Invalid destination syntax: " + s))
    case Some((p, instance)) =>
      match FromValue(Lower(p))
      case None => Err(DestinationError("Unknown destination platform: " + p))
      case Some(platform) => NewDestination(platform, instance)
  }

  /** `str(d)`: the platform's value, `=`, the instance. */
  function ToString(d: Destination): string {
    Value(d.platform) + "=" + d.instance
  }

  /** The accepted shapes, stated without the splitter: `P` or `P=I` with `P` non-empty and
      free of `=`, and `I` non-empty and free of line breaks (`I` may contain `=`). */
  ghost predicate WellShaped(s: string) {
    || (|s| > 0 && '=' !in s)
    || exists i :: 0 < i < |s| && s[i] == '=' && '=' !in s[..i] && InstanceText(s[i + 1..])
  }

  /** `ValueError` is raised exactly for strings of the wrong shape. */
  lemma ParseShapeIff(s: string)
    ensures Parse(s).Err? && Parse(s).error.ValueError? <==> !WellShaped(s)
  {
    match FirstIndex(s, '=')
    case None =>
    case Some(i) =>
  }

  /** An empty platform part, an empty instance after the `=`, and the empty string all
      raise `ValueError`. */
  lemma RejectsMissingParts(s: string, p: string)
    requires |s| > 0 && s[0] == '='
    requires '=' !in p
    ensures Parse(s).Err? && Parse(s).error.ValueError?
    ensures Parse(p + "=").Err? && Parse(p + "=").error.ValueError?
    ensures Parse([]).Err? && Parse([]).error.ValueError?
  {
    var t := p + "=";
    assert t[|p|] == '=' && t[..|p|] == p;
    assert FirstIndex(t, '=') == Some(|p|);
    assert t[|p| + 1..] == [];
  }

  lemma SplitAtFirstEquals(p: string, instance: string)
    requires |p| > 0 && '=' !in p && InstanceText(instance)
    ensures SplitDestination(p + "=" + instance) == Some((p, Some(instance)))
  {
    var s := p + "=" + instance;
    assert s[..|p|] == p;
    assert s[|p| + 1..] == instance;
    assert s[|p|] == '=';
  }

  /** `P=I` with a platform name in any case parses to that platform with `I` kept verbatim;
      the split is at the first `=`, so `I` may itself contain `=`. */
  lemma ParseWithInstance(p: string, instance: string, platform: Platform)
    requires |p| > 0 && '=' !in p && InstanceText(instance) && Lower(p) == Value(platform)
    ensures Parse(p + "=" + instance) == Ok(Destination(platform, instance))
  {
    SplitAtFirstEquals(p, instance);
    FromValueIff(Lower(p), platform);
  }

  /** A bare platform name gets the platform's default instance; a bare Forgejo raises
      `DestinationError`. */
  lemma ParseBare(p: string, platform: Platform)
    requires |p| > 0 && '=' !in p && Lower(p) == Value(platform)
    ensures platform == Github ==> Parse(p) == Ok(Destination(Github, GithubInstance))
    ensures platform == Codeberg ==> Parse(p) == Ok(Destination(Codeberg, CodebergInstance))
    ensures platform == Forgejo ==> Parse(p) == Err(DestinationError("Forgejo does not have a default instance"))
  {
    FromValueIff(Lower(p), platform);
  }

  /** A well-shaped string whose platform part is no member's value, in any case, raises
      `DestinationError`. */
  lemma ParseUnknownPlatform(s: string, p: string)
    requires SplitDestination(s).Some? && SplitDestination(s).value.0 == p
    requires forall q: Platform :: Lower(p) != Value(q)
    ensures Parse(s) == Err(DestinationError("Unknown destination platform: " + p))
  {
  }

  /** Every parsed destination has an instance the parser can read back. */
  lemma ParsedInstanceIsText(s: string)
    requires Parse(s).Ok?
    ensures InstanceText(Parse(s).value.instance)
  {
    assert InstanceText(GithubInstance) && InstanceText(CodebergInstance);
  }

  /** Rendering then parsing gives the destination back whenever its instance is readable,
      which holds for every destination `Parse` returned. */
  lemma ToStringRoundTrip(d: Destination)
    requires InstanceText(d.instance)
    ensures Parse(ToString(d)) == Ok(d)
  {
    ValueShape(d.platform);
    ParseWithInstance(Value(d.platform), d.instance, d.platform);
  }

  /** The constructor accepts an empty instance, and that destination does not survive
      rendering and parsing: the round trip needs a parsed destination. */
  lemma EmptyInstanceDoesNotRoundTrip(platform: Platform)
    ensures NewDestination(platform, Some([])) == Ok(Destination(platform, []))
    ensures Parse(ToString(Destination(platform, []))).Err?
  {
    ValueShape(platform);
    assert ToString(Destination(platform, [])) == Value(platform) + "=";
    RejectsMissingParts("=", Value(platform));
  }

  /** The `Syncer` interface: one variant per destination kind. */
  datatype Syncer = GithubSyncer(github: Github.GithubSyncer) | ForgejoSyncer(forgejo: Forgejo.ForgejoSyncer)

  /** What the destination instance answers while a syncer is built: its user and repository
      listing, as seen by whichever client library the variant uses. */
  datatype DestinationApi = DestinationApi(
    githubUser: Github.GithubUser,
    githubRepos: seq<Github.GithubRepo>,
    forgejoUser: User,
    forgejoRepos: seq<Repository>)

  /** `make_syncer`: the GitHub syncer for GitHub, the Forgejo syncer for Forgejo and Codeberg,
      each pointed at the destination's instance. It fails exactly when the chosen constructor
      refuses the destination's user, and otherwise holds that constructor's syncer. */
  function MakeSyncer(
    d: Destination, features: seq<RepositoryFeature>, mirrorer: Mirror.PushMirrorer,
    config: Mirror.PushMirrorConfig, api: DestinationApi): (r: Result<Syncer>)
    ensures r.Ok? ==> (r.value.GithubSyncer? <==> d.platform == Github)
    ensures r.Ok? && r.value.GithubSyncer? ==>
      && r.value.github.instance == d.instance && r.value.github.features == features
      && r.value.github.pushMirrorer == mirrorer && r.value.github.mirrorConfig == config
    ensures r.Ok? && r.value.ForgejoSyncer? ==>
      r.value.forgejo.instance == d.instance && r.value.forgejo.features == features
    ensures r.Err? ==> r.error.SyncError?
    ensures r.Err? <==> (if d.platform == Github then !api.githubUser.authenticated else api.forgejoUser.login.None?)
    ensures r.Ok? && r.value.GithubSyncer? ==>
      Ok(r.value.github) == Github.NewGithubSyncer(d.instance, features, api.githubUser, api.githubRepos, mirrorer, config)
    ensures r.Ok? && r.value.ForgejoSyncer? ==>
      Ok(r.value.forgejo) == Forgejo.NewForgejoSyncer(d.instance, features, api.forgejoUser, api.forgejoRepos)
  {
    match d.platform
    case Github =>
      var g :- Github.NewGithubSyncer(d.instance, features, api.githubUser, api.githubRepos, mirrorer, config);
      Ok(GithubSyncer(g))
    case Forgejo | Codeberg =>
      var f :- Forgejo.NewForgejoSyncer(d.instance, features, api.forgejoUser, api.forgejoRepos);
      Ok(ForgejoSyncer(f))
  }

  /** What the destination answers during one sync, for either variant. */
  datatype SyncResponses = SyncResponses(forgejoEdited: Repository, github: Github.GithubResponses)

  /** `syncer.sync(source_repo, description, topics)`, dispatched on the variant. */
  function SyncRepo(
    s: Syncer, source: SourceRepository, description: string, topics: seq<string>,
    resp: SyncResponses): (r: Traced<Forge.Call, SyncedRepository>)
    ensures s.ForgejoSyncer? ==> r == Forgejo.SyncRepo(s.forgejo, source, description, topics, resp.forgejoEdited)
    ensures s.GithubSyncer? ==> r == Github.SyncRepo(s.github, source, description, topics, resp.github)
  {
    match s
    case GithubSyncer(g) => Github.SyncRepo(g, source, description, topics, resp.github)
    case ForgejoSyncer(f) => Forgejo.SyncRepo(f, source, description, topics, resp.forgejoEdited)
  }
}
