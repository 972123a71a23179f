/** The destination platforms and their default API instances (platform.py). */
module Platforms {
  import opened Wrappers
  import Strings

  /** `Platform(StrEnum)`: exactly three members. */
  datatype Platform = Forgejo | Codeberg | Github

  /** The member's string value, which is also what `str()` of the member gives. */
  function Value(p: Platform): string {
    match p
    case Forgejo => "forgejo"
    case Codeberg => "codeberg"
    case Github => "github"
  }

  /** `Platform(s)`: look a member up by its exact value; `None` where Python raises `ValueError`. */
  function FromValue(s: string): (r: Option<Platform>)
    ensures r.Some? ==> Value(r.value) == s
  {
    if s == "forgejo" then Some(Forgejo)
    else if s == "codeberg" then Some(Codeberg)
    else if s == "github" then Some(Github)
    else None
  }

  /** `CODEBERG_INSTANCE`. */
  const CodebergInstance: string := "https://codeberg.org/api/v1"

  /** `GITHUB_INSTANCE`, PyGithub's default base URL. The model relies only on it
      being non-empty and free of line breaks. */
  const GithubInstance: string := "https://api.github.com"

  /** Looking a value up finds exactly the member that has it. */
  lemma FromValueIff(s: string, p: Platform)
    ensures FromValue(s) == Some(p) <==> s == Value(p)
  {
  }

  /** Every value is a non-empty lower-case word without `=`, so lower-casing it
      changes nothing and a split at the first `=` cannot cut into it. */
  lemma ValueShape(p: Platform)
    ensures |Value(p)| > 0
    ensures '=' !in Value(p)
    ensures Strings.Lower(Value(p)) == Value(p)
  {
  }

  /** The three values are pairwise distinct. */
  lemma ValueInjective(p: Platform, q: Platform)
    ensures Value(p) == Value(q) ==> p == q
  {
  }
}
