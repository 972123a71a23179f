/** One synchronisation task (task.py): topic defaulting, rendering the description
    template, syncing, and handing the result to the mirrorer unless the sync mirrored. */
module Task {
  import opened Errors
  import opened Wrappers
  import opened Sync
  import opened Source
  import Mirror
  import Forge
  import Dest
  import Github
  import Strings

  /** `str(x)` of an optional field as `str.format` renders it: `None` becomes `"None"`. */
  function Str(o: Option<string>): string {
    if o.None? then "None" else o.value
  }

  /** The keyword arguments `run` passes to `format`. */
  function Lookup(name: string, raw: Repository): Option<string> {
    if name == "description" then Some(Str(raw.description))
    else if name == "url" then Some(Str(raw.htmlUrl))
    else if name == "website" then Some(Str(raw.website))
    else if name == "full_name" then Some(Str(raw.fullName))
    else if name == "clone_url" then Some(Str(raw.cloneUrl))
    else None
  }

  function Prepend(prefix: string, r: Result<string>): Result<string> {
    if r.Ok? then Ok(prefix + r.value) else r
  }

  /** `template.format(...)` for bare named placeholders: `{{` and `}}` are literal braces,
      `{name}` is replaced by the named field, and errors are raised in reading order. */
  function Format(t: string, raw: Repository): Result<string>
    decreases |t|
  {
    if |t| == 0 then Ok([])
    else if t[0] == '{' then
      if |t| == 1 then Err(ValueError("Single '{' encountered in format string"))
      else if t[1] == '{' then Prepend("{", Format(t[2..], raw))
      else
        match Strings.FirstIndex(t, '}')
        case None => Err(ValueError("expected '}' before end of string"))
        case Some(j) =>
          var name := t[1..j];
          match Lookup(name, raw)
          case None => Err(KeyError(name))
          case Some(v) => Prepend(v, Format(t[j + 1..], raw))
    else if t[0] == '}' then
      if |t| >= 2 && t[1] == '}' then Prepend("}", Format(t[2..], raw))
      else Err(ValueError("Single '}' encountered in format string"))
    else Prepend([t[0]], Format(t[1..], raw))
  }

  /** A template as a sequence of pieces: a literal character or a named placeholder. */
  datatype Piece = Literal(c: char) | Placeholder(name: string)

  /** The template text of the pieces: braces doubled, placeholders in braces. */
  function PiecesText(ps: seq<Piece>): string {
    if |ps| == 0 then []
    else
      var head :=
        match ps[0]
        case Literal(c) => if c == '{' || c == '}' then [c, c] else [c]
        case Placeholder(n) => "{" + n + "}";
      head + PiecesText(ps[1..])
  }

  /** A placeholder name the template syntax can carry: no `}` inside, not starting with `{`. */
  predicate Writable(p: Piece) {
    p.Placeholder? ==> '}' !in p.name && (|p.name| > 0 ==> p.name[0] != '{')
  }

  /** What substituting the pieces gives: literals as they are, placeholders by their field;
      the first unknown name is a `KeyError`. */
  function Substitute(ps: seq<Piece>, raw: Repository): Result<string> {
    if |ps| == 0 then Ok([])
    else
      match ps[0]
      case Literal(c) => Prepend([c], Substitute(ps[1..], raw))
      case Placeholder(n) =>
        match Lookup(n, raw)
        case None => Err(KeyError(n))
        case Some(v) => Prepend(v, Substitute(ps[1..], raw))
  }

  lemma FormatPlaceholder(n: string, rest: string, raw: Repository)
    requires '}' !in n && (|n| > 0 ==> n[0] != '{')
    ensures var t := "{" + n + "}" + rest;
      Format(t, raw) == (if Lookup(n, raw).None? then Err(KeyError(n)) else Prepend(Lookup(n, raw).value, Format(rest, raw)))
  {
    var t := "{" + n + "}" + rest;
    assert t[0] == '{' && |t| >= 2;
    if |n| > 0 {
      assert t[1] == n[0];
    } else {
      assert t[1] == '}';
    }
    assert t[1..|n| + 1] == n;
    assert t[|n| + 1] == '}';
    assert t[|n| + 2..] == rest;
  }

  /** Rendering the text of writable pieces substitutes exactly those pieces: the template
      parser and the pieces' writer agree. */
  lemma {:induction false} FormatPiecesText(ps: seq<Piece>, raw: Repository)
    requires forall i :: 0 <= i < |ps| ==> Writable(ps[i])
    ensures Format(PiecesText(ps), raw) == Substitute(ps, raw)
  {
    if |ps| > 0 {
      var rest := PiecesText(ps[1..]);
      assert forall i :: 1 <= i < |ps| ==> ps[1..][i - 1] == ps[i];
      FormatPiecesText(ps[1..], raw);
      var t := PiecesText(ps);
      match ps[0]
      case Literal(c) =>
        if c == '{' || c == '}' {
          assert t == [c, c] + rest;
          assert t[2..] == rest;
        } else {
          assert t == [c] + rest;
          assert t[1..] == rest;
        }
      case Placeholder(n) =>
        assert t == "{" + n + "}" + rest;
        FormatPlaceholder(n, rest, raw);
    }
  }

  /** Text without braces renders as itself. */
  lemma {:induction false} FormatPlainText(t: string, raw: Repository)
    requires '{' !in t && '}' !in t
    ensures Format(t, raw) == Ok(t)
  {
    if |t| > 0 {
      assert t[0] in t;
      assert forall c :: c in t[1..] ==> c in t;
      FormatPlainText(t[1..], raw);
      assert [t[0]] + t[1..] == t;
    }
  }

  /** The default description template, `{description} (Mirror of {url})`, as its pieces
      of text. */
  lemma DefaultTemplate(raw: Repository, a: string, mid: string, b: string, tail: string)
    requires a == "description" && mid == " (Mirror of " && b == "url" && tail == ")"
    ensures Format("{" + a + "}" + (mid + ("{" + b + "}" + tail)), raw) ==
      Ok(Str(raw.description) + " (Mirror of " + Str(raw.htmlUrl) + ")")
  {
    assert Lookup(a, raw) == Some(Str(raw.description));
    assert Lookup(b, raw) == Some(Str(raw.htmlUrl));
    TwoPlaceholders(a, mid, b, tail, raw);
  }

  lemma TwoPlaceholders(a: string, mid: string, b: string, tail: string, raw: Repository)
    requires Writable(Placeholder(a)) && Writable(Placeholder(b))
    requires Lookup(a, raw).Some? && Lookup(b, raw).Some?
    requires '{' !in mid + tail && '}' !in mid + tail
    ensures Format("{" + a + "}" + (mid + ("{" + b + "}" + tail)), raw) ==
      Ok(Lookup(a, raw).value + mid + Lookup(b, raw).value + tail)
  {
    assert forall c :: c in mid ==> c in mid + tail;
    assert forall c :: c in tail ==> c in mid + tail;
    var va, vb := Lookup(a, raw).value, Lookup(b, raw).value;
    var s2 := "{" + b + "}" + tail;
    FormatPlaceholder(b, tail, raw);
    FormatPlainText(tail, raw);
    assert Format(s2, raw) == Ok(vb + tail);
    var s1 := mid + s2;
    FormatPlainPrefix(mid, s2, raw);
    assert Format(s1, raw) == Ok(mid + (vb + tail));
    FormatPlaceholder(a, s1, raw);
    assert Format("{" + a + "}" + s1, raw) == Ok(va + (mid + (vb + tail)));
    assert va + (mid + (vb + tail)) == va + mid + vb + tail;
  }

  lemma {:induction false} FormatPlainPrefix(t: string, rest: string, raw: Repository)
    requires '{' !in t && '}' !in t
    ensures Format(t + rest, raw) == Prepend(t, Format(rest, raw))
  {
    if |t| == 0 {
      assert t + rest == rest;
      if Format(rest, raw).Ok? {
        assert t + Format(rest, raw).value == Format(rest, raw).value;
      }
    } else {
      assert t[0] in t;
      assert forall c :: c in t[1..] ==> c in t;
      assert (t + rest)[1..] == t[1..] + rest;
      FormatPlainPrefix(t[1..], rest, raw);
      assert [t[0]] + t[1..] == t;
      if Format(rest, raw).Ok? {
        var v := Format(rest, raw).value;
        assert [t[0]] + (t[1..] + v) == t + v;
      }
    }
  }

  /** A placeholder outside the five named fields is a `KeyError`. */
  lemma UnknownPlaceholderFails(n: string, raw: Repository)
    requires '}' !in n && (|n| > 0 ==> n[0] != '{')
    requires n !in {"description", "url", "website", "full_name", "clone_url"}
    ensures Format("{" + n + "}", raw) == Err(KeyError(n))
  {
    FormatPlaceholder(n, "", raw);
    assert "{" + n + "}" + "" == "{" + n + "}";
  }

  datatype Task = Task(
    syncer: Dest.Syncer,
    descriptionTemplate: string,
    sourceRepo: SourceRepository,
    topics: seq<string>,
    pushMirrorer: Mirror.PushMirrorer,
    mirrorConfig: Mirror.PushMirrorConfig,
    destination: Dest.Destination)

  /** `Task.__init__`. `listedTopics` is the source forge's answer to `repo_list_topics`;
      a missing list becomes the empty list. */
  function NewTask(
    syncer: Dest.Syncer, template: string, source: SourceRepository,
    mirrorer: Mirror.PushMirrorer, config: Mirror.PushMirrorConfig, destination: Dest.Destination,
    listedTopics: Option<seq<string>>): (t: Task)
    ensures listedTopics.None? ==> t.topics == []
    ensures listedTopics.Some? ==> t.topics == listedTopics.value
    ensures t.sourceRepo == source && t.syncer == syncer && t.descriptionTemplate == template
    ensures t.pushMirrorer == mirrorer && t.mirrorConfig == config && t.destination == destination
  {
    Task(syncer, template, source, listedTopics.GetOr([]), mirrorer, config, destination)
  }

  /** What the outside world answers while one task runs: the destination's answers to the
      sync, and how the mirrorer ends if it is called. */
  datatype TaskResponses = TaskResponses(sync: Dest.SyncResponses, mirror: Forge.MirrorOutcome)

  /** `Task.run`. */
  function Run(t: Task, resp: TaskResponses): Traced<Forge.Call, ()> {
    match Format(t.descriptionTemplate, t.sourceRepo.raw)
    case Err(e) => Traced([], Err(e))
    case Ok(description) =>
      var synced := Dest.SyncRepo(t.syncer, t.sourceRepo, description, t.topics, resp.sync);
      if synced.result.Err? then Traced(synced.calls, Err(synced.result.error))
      else if synced.result.value.mirrored then Traced(synced.calls, Ok(()))
      else
        var calls := synced.calls + [Forge.MirrorRepo(t.pushMirrorer, synced.result.value, t.mirrorConfig)];
        if resp.mirror.MirrorFailed? then Traced(calls, Err(resp.mirror.error)) else Traced(calls, Ok(()))
  }

  /** `str(task)`: the source repository as `owner/name` and the destination as
      `platform=instance`. */
  function ToString(t: Task): (r: string)
    ensures r == "Synchronize " + Source.ToString(t.sourceRepo) + " to " + Dest.ToString(t.destination)
  {
    "Synchronize " + t.sourceRepo.owner + "/" + t.sourceRepo.name + " to " + Dest.ToString(t.destination)
  }

  /** A template error stops the task before the syncer is called. */
  lemma RunTemplateError(t: Task, resp: TaskResponses)
    requires Format(t.descriptionTemplate, t.sourceRepo.raw).Err?
    ensures Run(t, resp) == Traced([], Err(Format(t.descriptionTemplate, t.sourceRepo.raw).error))
  {
  }

  /** The syncer is called exactly once, with the rendered description and the stored topics;
      its calls come first. The task's mirrorer is then called, with the task's config unchanged,
      exactly when the sync succeeded without mirroring. */
  lemma RunSyncsThenGatesMirror(t: Task, resp: TaskResponses)
    requires Format(t.descriptionTemplate, t.sourceRepo.raw).Ok?
    ensures var description := Format(t.descriptionTemplate, t.sourceRepo.raw).value;
      var synced := Dest.SyncRepo(t.syncer, t.sourceRepo, description, t.topics, resp.sync);
      var r := Run(t, resp);
      && r.calls[..|synced.calls|] == synced.calls
      && (synced.result.Err? ==> r == Traced(synced.calls, Err(synced.result.error)))
      && (synced.result.Ok? && synced.result.value.mirrored ==> r == Traced(synced.calls, Ok(())))
      && (synced.result.Ok? && !synced.result.value.mirrored ==>
            && r.calls == synced.calls + [Forge.MirrorRepo(t.pushMirrorer, synced.result.value, t.mirrorConfig)]
            && (r.result.Err? <==> resp.mirror.MirrorFailed?))
  {
  }

  /** A fresh GitHub repository (the content probe fails) is mirrored exactly once per task:
      by the syncer's forced mirror action, and not again by the task. */
  lemma FreshGithubRepoMirroredOnce(t: Task, resp: TaskResponses)
    requires t.syncer.GithubSyncer? && Format(t.descriptionTemplate, t.sourceRepo.raw).Ok?
    requires t.sourceRepo.name !in t.syncer.github.repos
    requires !resp.sync.github.probeOk && resp.sync.github.mirror == Forge.Mirrored
    ensures Run(t, resp).result.Ok? && Forge.CountMirrorCalls(Run(t, resp).calls) == 1
  {
    var description := Format(t.descriptionTemplate, t.sourceRepo.raw).value;
    var g := t.syncer.github;
    Github.SyncProbeDecidesMirror(g, t.sourceRepo, description, t.topics, resp.sync.github);
  }
}
