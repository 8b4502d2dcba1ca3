/** The two step-argument types registered with behave: the repository-type
    prefix of "Given [http |ftp |local ]repository ..." and the
    "enable|disable" word of "When I enable|disable repository ...". */
module StepTypes {
  import opened Wrappers

  /** The URL scheme a repository is served under. */
  datatype RepoType = Http | Ftp | File

  /** The scheme string `parse_repo_type` returns (and `given_empty_repository` passes). */
  function Scheme(t: RepoType): string
  {
    match t
    case Http => "http"
    case Ftp => "ftp"
    case File => "file"
  }

  /** Texts accepted by the registered pattern `local |http |ftp |`. */
  predicate MatchesRepoTypePattern(text: string)
  {
    text == "local " || text == "http " || text == "ftp " || text == ""
  }

  /** `parse_repo_type`; `None` is the `assert False` on any other text. */
  function ParseRepoType(text: string): (r: Option<RepoType>)
    ensures r == Some(Http) <==> text == "http "
    ensures r == Some(Ftp) <==> text == "ftp "
    ensures r == Some(File) <==> text == "local " || text == ""
  {
    if text == "http " then Some(Http)
    else if text == "ftp " then Some(Ftp)
    else if text == "local " || text == "" then Some(File)
    else None
  }

  /** The step text that names a repository type explicitly. */
  function RepoTypeText(t: RepoType): string
  {
    match t
    case Http => "http "
    case Ftp => "ftp "
    case File => "local "
  }

  /** The parser accepts exactly what the registered pattern matches. */
  lemma ParseRepoTypeTotalOnPattern(text: string)
    ensures ParseRepoType(text).Some? <==> MatchesRepoTypePattern(text)
  {
  }

  /** Parsing the explicit text of a type gives that type back, and every
      accepted text is that explicit text or the empty (default) prefix. */
  lemma RepoTypeRoundTrip(t: RepoType, text: string)
    ensures ParseRepoType(RepoTypeText(t)) == Some(t)
    ensures ParseRepoType(text) == Some(t) ==> text == RepoTypeText(t) || (t == File && text == "")
  {
  }

  /** Texts accepted by the registered pattern `enable|disable`. */
  predicate MatchesEnableDisablePattern(text: string)
  {
    text == "enable" || text == "disable"
  }

  /** `parse_enable_disable`; `None` is the `assert False` on any other text. */
  function ParseEnableDisable(text: string): (r: Option<bool>)
    ensures r == Some(true) <==> text == "enable"
    ensures r == Some(false) <==> text == "disable"
    ensures r.None? <==> !MatchesEnableDisablePattern(text)
  {
    if text == "enable" then Some(true)
    else if text == "disable" then Some(false)
    else None
  }

  /** The step word for a requested state. */
  function EnableDisableText(state: bool): string
  {
    if state then "enable" else "disable"
  }

  /** The parser inverts `EnableDisableText`, and nothing else parses to a state. */
  lemma EnableDisableRoundTrip(state: bool, text: string)
    ensures ParseEnableDisable(EnableDisableText(state)) == Some(state)
    ensures ParseEnableDisable(text) == Some(state) ==> text == EnableDisableText(state)
  {
  }
}
