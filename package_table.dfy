/** The per-package settings that the step receives from the table parser:
    one entry per recognised tag of `PKG_TAGS` that the table mentions, a
    string for a single tag and the list of values, in row order, for a
    repeating tag. The parser itself (`table_utils.parse_skv_table`) is not
    part of this model; `WellTyped` states the shape it delivers. */
module PackageTable {

  /** `PKG_TAGS`, in the order the source lists them. */
  datatype Tag = Summary | Version | Release | License | Arch
               | BuildRequires | Requires | Obsoletes | Provides | Conflicts

  /** The tag as it is written in the "Tag" column of a step table. */
  function TagName(t: Tag): string
  {
    match t
    case Summary => "Summary"
    case Version => "Version"
    case Release => "Release"
    case License => "License"
    case Arch => "Arch"
    case BuildRequires => "BuildRequires"
    case Requires => "Requires"
    case Obsoletes => "Obsoletes"
    case Provides => "Provides"
    case Conflicts => "Conflicts"
  }

  /** The template variable that carries the tag once the step has lowercased the keys. */
  function VarName(t: Tag): string
  {
    match t
    case Summary => "summary"
    case Version => "version"
    case Release => "release"
    case License => "license"
    case Arch => "arch"
    case BuildRequires => "buildrequires"
    case Requires => "requires"
    case Obsoletes => "obsoletes"
    case Provides => "provides"
    case Conflicts => "conflicts"
  }

  /** Membership in `PKG_TAGS_REPEATING`. */
  predicate Repeating(t: Tag)
  {
    t.BuildRequires? || t.Requires? || t.Obsoletes? || t.Provides? || t.Conflicts?
  }

  function LowerChar(c: char): char
  {
    if 'A' <= c <= 'Z' then (c as int + 32) as char else c
  }

  /** `str.lower` on the ASCII letters that tag names consist of. */
  function Lower(s: string): string
  {
    seq(|s|, i requires 0 <= i < |s| => LowerChar(s[i]))
  }

  /** The key comprehension `{k.lower(): v ...}` sends each tag to its
      template variable. */
  lemma VarNameIsLoweredTagName(t: Tag)
    ensures VarName(t) == Lower(TagName(t))
  {
    if Repeating(t) {
      RepeatingVarNames(t);
    } else {
      SingleVarNames(t);
    }
  }

  lemma SingleVarNames(t: Tag)
    requires !Repeating(t)
    ensures VarName(t) == Lower(TagName(t))
  {
    match t
    case Summary =>
    case Version =>
    case Release =>
    case License =>
    case Arch =>
  }

  lemma RepeatingVarNames(t: Tag)
    requires Repeating(t)
    ensures VarName(t) == Lower(TagName(t))
  {
    match t
    case BuildRequires =>
    case Requires =>
    case Obsoletes =>
    case Provides =>
    case Conflicts =>
  }

  /** No two tags share a template variable, so lowercasing loses no setting. */
  lemma VarNamesDistinct(t: Tag, u: Tag)
    requires t != u
    ensures VarName(t) != VarName(u)
  {
  }

  datatype Value = Single(text: string) | Multiple(items: seq<string>)

  /** One package's settings, keyed by tag. */
  type Settings = map<Tag, Value>

  /** Single tags carry one string, repeating tags a list. */
  predicate WellTyped(s: Settings)
  {
    forall t :: t in s ==> (s[t].Multiple? <==> Repeating(t))
  }

  /** A row group of the table: the package name and its settings. */
  datatype Package = Package(name: string, settings: Settings)

  /** `value|default(d)`: the supplied string, or `d` when the tag is absent. */
  function TextOr(s: Settings, t: Tag, default: string): (r: string)
    requires WellTyped(s) && !Repeating(t)
    ensures t !in s ==> r == default
    ensures t in s ==> s[t] == Single(r)
  {
    if t in s then s[t].text else default
  }

  /** The values of a repeating tag; an absent tag has none. */
  function Items(s: Settings, t: Tag): (r: seq<string>)
    requires WellTyped(s) && Repeating(t)
    ensures t !in s ==> r == []
    ensures t in s ==> s[t] == Multiple(r)
  {
    if t in s then s[t].items else []
  }
}
