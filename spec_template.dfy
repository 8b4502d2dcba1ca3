/** The package spec that the step renders from `PKG_TMPL`, as the sequence
    of lines Jinja produces (blank lines included), and a reader for such
    text that recovers the declarations it makes. */
module SpecTemplate {
  import opened Wrappers
  import P = PackageTable

  /** The declarations a rendered spec can make, in template order. */
  datatype Field = Name | Summary | Version | Release | License | BuildArch
                 | BuildRequires | Requires | Obsoletes | Conflicts | Provides

  /** Position of a field in the template. */
  function Rank(f: Field): nat
  {
    match f
    case Name => 0
    case Summary => 1
    case Version => 2
    case Release => 3
    case License => 4
    case BuildArch => 5
    case BuildRequires => 6
    case Requires => 7
    case Obsoletes => 8
    case Conflicts => 9
    case Provides => 10
  }

  /** The literal text in front of each declaration's value; note the extra
      space after "Conflicts:". */
  function Prefix(f: Field): string
  {
    match f
    case Name =>          "Name:           "
    case Summary =>       "Summary:        "
    case Version =>       "Version:        "
    case Release =>       "Release:        "
    case License =>       "License:        "
    case BuildArch =>     "BuildArch:      "
    case BuildRequires => "BuildRequires:  "
    case Requires =>      "Requires:       "
    case Obsoletes =>     "Obsoletes:      "
    case Conflicts =>     "Conflicts:       "
    case Provides =>      "Provides:       "
  }

  /** The field a repeating tag is declared under. */
  function RepeatingField(t: P.Tag): Field
    requires P.Repeating(t)
  {
    match t
    case BuildRequires => BuildRequires
    case Requires => Requires
    case Obsoletes => Obsoletes
    case Conflicts => Conflicts
    case Provides => Provides
  }

  /** The `if arch is not defined or arch == "noarch"` condition. */
  predicate IsNoarch(s: P.Settings)
    requires P.WellTyped(s)
  {
    P.Arch !in s || s[P.Arch].text == "noarch"
  }

  function Line(f: Field, value: string): string
  {
    Prefix(f) + value
  }

  /** The body of one `for` loop: one line per value, in order. */
  function LinesFor(f: Field, values: seq<string>): seq<string>
  {
    if values == [] then [] else [Line(f, values[0])] + LinesFor(f, values[1..])
  }

  /** One `{%- if x is defined %}` block: a blank line, then the loop. */
  function Group(s: P.Settings, t: P.Tag): seq<string>
    requires P.WellTyped(s) && P.Repeating(t)
  {
    if t in s then [""] + LinesFor(RepeatingField(t), s[t].items) else []
  }

  const Trailer: seq<string> := ["", "%description", "%{summary}.", "", "%files"]

  /** The template text for one field, with the blank lines that precede it. */
  function Chunk(name: string, s: P.Settings, f: Field): seq<string>
    requires P.WellTyped(s)
  {
    match f
    case Name => ["", Line(Name, name)]
    case Summary => [Line(Summary, P.TextOr(s, P.Summary, "Empty"))]
    case Version => [Line(Version, P.TextOr(s, P.Version, "1"))]
    case Release => [Line(Release, P.TextOr(s, P.Release, "1") + "%{?dist}")]
    case License => ["", Line(License, P.TextOr(s, P.License, "Public Domain"))]
    case BuildArch => if IsNoarch(s) then [Line(BuildArch, "noarch")] else []
    case BuildRequires => Group(s, P.BuildRequires)
    case Requires => Group(s, P.Requires)
    case Obsoletes => Group(s, P.Obsoletes)
    case Conflicts => Group(s, P.Conflicts)
    case Provides => Group(s, P.Provides)
  }

  /** The template's fields, in the order it lists them. */
  const AllFields: seq<Field> :=
    [Name, Summary, Version, Release, License, BuildArch,
     BuildRequires, Requires, Obsoletes, Conflicts, Provides]

  /** The chunks of `fields`, one after the other. */
  function RenderFields(name: string, s: P.Settings, fields: seq<Field>): seq<string>
    requires P.WellTyped(s)
  {
    if fields == [] then [] else Chunk(name, s, fields[0]) + RenderFields(name, s, fields[1..])
  }

  /** `template.render(name=name, **settings)`, split at newlines. */
  function RenderSpec(name: string, s: P.Settings): (lines: seq<string>)
    requires P.WellTyped(s)
    ensures |lines| >= 7 && lines[0] == "" && lines[1] == Line(Name, name)
    ensures lines[|lines| - 4] == "%description" && lines[|lines| - 1] == "%files"
  {
    assert AllFields[0] == Name;
    RenderFields(name, s, AllFields) + Trailer
  }

  // ---------------------------------------------------------------------
  // Reading a spec back

  datatype Decl = Decl(field: Field, value: string)

  function FirstMatch(line: string, fs: seq<Field>): Option<Decl>
  {
    if fs == [] then None
    else if Prefix(fs[0]) <= line then Some(Decl(fs[0], line[|Prefix(fs[0])|..]))
    else FirstMatch(line, fs[1..])
  }

  /** The declaration a spec line makes, if any. Every prefix is at least
      16 characters long, so a shorter line declares nothing. */
  function ParseLine(line: string): Option<Decl>
  {
    if |line| < 16 then None else FirstMatch(line, AllFields)
  }

  function DeclsOf(line: string): seq<Decl>
  {
    match ParseLine(line)
    case None => []
    case Some(d) => [d]
  }

  /** The declarations of a spec text, in line order. */
  function ParseSpec(lines: seq<string>): seq<Decl>
  {
    if lines == [] then [] else DeclsOf(lines[0]) + ParseSpec(lines[1..])
  }

  /** The values declared for one field, in order. */
  function ValuesOf(ds: seq<Decl>, f: Field): seq<string>
  {
    if ds == [] then []
    else (if ds[0].field == f then [ds[0].value] else []) + ValuesOf(ds[1..], f)
  }

  /** Declarations never go back to an earlier field. */
  predicate InTemplateOrder(ds: seq<Decl>)
  {
    forall i, j :: 0 <= i < j < |ds| ==> Rank(ds[i].field) <= Rank(ds[j].field)
  }

  // ---------------------------------------------------------------------
  // What the template promises, field by field

  /** The values a rendered spec must declare for each field: the name,
      each single tag or its default, `%{?dist}` after the release,
      `noarch` exactly when no other architecture is requested, and the
      repeating tags' values in row order. */
  function ExpectedValues(name: string, s: P.Settings, f: Field): seq<string>
    requires P.WellTyped(s)
  {
    match f
    case Name => [name]
    case Summary => [P.TextOr(s, P.Summary, "Empty")]
    case Version => [P.TextOr(s, P.Version, "1")]
    case Release => [P.TextOr(s, P.Release, "1") + "%{?dist}"]
    case License => [P.TextOr(s, P.License, "Public Domain")]
    case BuildArch => if IsNoarch(s) then ["noarch"] else []
    case BuildRequires => P.Items(s, P.BuildRequires)
    case Requires => P.Items(s, P.Requires)
    case Obsoletes => P.Items(s, P.Obsoletes)
    case Conflicts => P.Items(s, P.Conflicts)
    case Provides => P.Items(s, P.Provides)
  }

  // ---------------------------------------------------------------------
  // Reading back what was rendered

  /** Every declaration prefix is at least 16 characters long. */
  lemma PrefixLength(f: Field)
    ensures |Prefix(f)| >= 16
  {
  }

  /** The characters at index 0, 2 and 5 of a prefix, which tell all
      prefixes apart. */
  function Key(f: Field): (char, char, char)
  {
    match f
    case Name =>          ('N', 'm', ' ')
    case Summary =>       ('S', 'm', 'r')
    case Version =>       ('V', 'r', 'o')
    case Release =>       ('R', 'l', 's')
    case License =>       ('L', 'c', 's')
    case BuildArch =>     ('B', 'i', 'A')
    case BuildRequires => ('B', 'i', 'R')
    case Requires =>      ('R', 'q', 'r')
    case Obsoletes =>     ('O', 's', 'e')
    case Conflicts =>     ('C', 'n', 'i')
    case Provides =>      ('P', 'o', 'd')
  }

  lemma PrefixKey(f: Field)
    ensures Key(f) == (Prefix(f)[0], Prefix(f)[2], Prefix(f)[5])
  {
  }

  lemma KeysDistinct(f: Field, g: Field)
    requires f != g
    ensures Key(f) != Key(g)
  {
  }

  /** Two different prefixes disagree at index 0, 2 or 5, so a line
      written with one never starts with another. */
  lemma PrefixExcludes(f: Field, g: Field, v: string)
    requires f != g
    ensures !(Prefix(g) <= Prefix(f) + v)
  {
    PrefixLength(f);
    PrefixLength(g);
    PrefixKey(f);
    PrefixKey(g);
    KeysDistinct(f, g);
  }

  lemma {:induction false} FirstMatchAt(line: string, fs: seq<Field>, k: nat)
    requires k < |fs| && Prefix(fs[k]) <= line
    requires forall j :: 0 <= j < k ==> !(Prefix(fs[j]) <= line)
    ensures FirstMatch(line, fs) == Some(Decl(fs[k], line[|Prefix(fs[k])|..]))
  {
    if k > 0 {
      assert !(Prefix(fs[0]) <= line);
      FirstMatchAt(line, fs[1..], k - 1);
    }
  }

  lemma ParseLineOfLine(f: Field, v: string)
    ensures ParseLine(Line(f, v)) == Some(Decl(f, v))
  {
    var k := Rank(f);
    assert AllFields[k] == f;
    forall j | 0 <= j < k ensures !(Prefix(AllFields[j]) <= Line(f, v)) {
      assert AllFields[j] != f;
      PrefixExcludes(f, AllFields[j], v);
    }
    FirstMatchAt(Line(f, v), AllFields, k);
    PrefixLength(f);
    assert Line(f, v)[|Prefix(f)|..] == v;
  }

  /** Reading a spec is line by line, so it distributes over concatenation. */
  lemma {:induction false} ParseSpecAppend(a: seq<string>, b: seq<string>)
    ensures ParseSpec(a + b) == ParseSpec(a) + ParseSpec(b)
  {
    if a != [] {
      assert (a + b)[0] == a[0];
      assert (a + b)[1..] == a[1..] + b;
      ParseSpecAppend(a[1..], b);
    } else {
      assert a + b == b;
    }
  }

  lemma ParseSpecOne(line: string)
    ensures ParseSpec([line]) == DeclsOf(line)
  {
    assert [line][1..] == [];
  }

  /** `DeclsFor(f, values)`: one declaration of `f` per value. */
  function DeclsFor(f: Field, values: seq<string>): seq<Decl>
  {
    if values == [] then [] else [Decl(f, values[0])] + DeclsFor(f, values[1..])
  }

  lemma {:induction false} ParseLinesFor(f: Field, values: seq<string>)
    ensures ParseSpec(LinesFor(f, values)) == DeclsFor(f, values)
  {
    if values != [] {
      ParseSpecAppend([Line(f, values[0])], LinesFor(f, values[1..]));
      ParseSpecOne(Line(f, values[0]));
      ParseLineOfLine(f, values[0]);
      ParseLinesFor(f, values[1..]);
    }
  }

  lemma {:induction false} ParseAllShort(lines: seq<string>)
    requires forall k :: 0 <= k < |lines| ==> |lines[k]| < 16
    ensures ParseSpec(lines) == []
  {
    if lines != [] {
      ParseAllShort(lines[1..]);
    }
  }

  lemma ParseGroup(s: P.Settings, t: P.Tag)
    requires P.WellTyped(s) && P.Repeating(t)
    ensures ParseSpec(Group(s, t)) == DeclsFor(RepeatingField(t), P.Items(s, t))
  {
    if t in s {
      ParseSpecAppend([""], LinesFor(RepeatingField(t), s[t].items));
      ParseSpecOne("");
      ParseLinesFor(RepeatingField(t), s[t].items);
    }
  }

  /** The declarations of every field in `fields`, field by field, each
      field declaring the values `vals` gives it. */
  function DeclsFrom(vals: Field -> seq<string>, fields: seq<Field>): seq<Decl>
  {
    if fields == [] then []
    else DeclsFor(fields[0], vals(fields[0])) + DeclsFrom(vals, fields[1..])
  }

  /** `ExpectedValues` of one package, as a function of the field. */
  function ValuesFor(name: string, s: P.Settings): Field -> seq<string>
    requires P.WellTyped(s)
  {
    f => ExpectedValues(name, s, f)
  }

  /** What a rendered spec declares: every field's expected values, grouped
      by field in template order. */
  function Declarations(name: string, s: P.Settings): seq<Decl>
    requires P.WellTyped(s)
  {
    DeclsFrom(ValuesFor(name, s), AllFields)
  }

  lemma ParseOneLine(f: Field, v: string)
    ensures ParseSpec([Line(f, v)]) == DeclsFor(f, [v])
  {
    ParseSpecOne(Line(f, v));
    ParseLineOfLine(f, v);
    assert [v][1..] == [];
  }

  lemma ParseBlankThenLine(f: Field, v: string)
    ensures ParseSpec(["", Line(f, v)]) == DeclsFor(f, [v])
  {
    assert ["", Line(f, v)] == [""] + [Line(f, v)];
    ParseSpecAppend([""], [Line(f, v)]);
    ParseSpecOne("");
    ParseOneLine(f, v);
  }

  lemma ParseChunk(name: string, s: P.Settings, f: Field)
    requires P.WellTyped(s)
    ensures ParseSpec(Chunk(name, s, f)) == DeclsFor(f, ExpectedValues(name, s, f))
  {
    match f {
      case Name => ParseBlankThenLine(Name, name);
      case Summary => ParseOneLine(Summary, P.TextOr(s, P.Summary, "Empty"));
      case Version => ParseOneLine(Version, P.TextOr(s, P.Version, "1"));
      case Release => ParseOneLine(Release, P.TextOr(s, P.Release, "1") + "%{?dist}");
      case License => ParseBlankThenLine(License, P.TextOr(s, P.License, "Public Domain"));
      case BuildArch => if IsNoarch(s) { ParseOneLine(BuildArch, "noarch"); }
      case BuildRequires => ParseGroup(s, P.BuildRequires);
      case Requires => ParseGroup(s, P.Requires);
      case Obsoletes => ParseGroup(s, P.Obsoletes);
      case Conflicts => ParseGroup(s, P.Conflicts);
      case Provides => ParseGroup(s, P.Provides);
    }
  }

  lemma {:induction false} ParseRenderFields(name: string, s: P.Settings, fields: seq<Field>)
    requires P.WellTyped(s)
    ensures ParseSpec(RenderFields(name, s, fields)) == DeclsFrom(ValuesFor(name, s), fields)
  {
    if fields != [] {
      ParseSpecAppend(Chunk(name, s, fields[0]), RenderFields(name, s, fields[1..]));
      ParseChunk(name, s, fields[0]);
      ParseRenderFields(name, s, fields[1..]);
    }
  }

  /** The `%description` and `%files` trailer declares nothing. */
  lemma TrailerDeclaresNothing()
    ensures ParseSpec(Trailer) == []
  {
    ParseAllShort(Trailer);
  }

  /** Round trip: reading the rendered spec back yields exactly the
      declarations the settings call for, grouped by field in template order. */
  lemma ParseRenderedSpec(name: string, s: P.Settings)
    requires P.WellTyped(s)
    ensures ParseSpec(RenderSpec(name, s)) == Declarations(name, s)
  {
    var body := RenderFields(name, s, AllFields);
    ParseSpecAppend(body, Trailer);
    ParseRenderFields(name, s, AllFields);
    TrailerDeclaresNothing();
    assert ParseSpec(body) + [] == ParseSpec(body);
  }

  // ---------------------------------------------------------------------
  // Properties of the rendered spec

  lemma {:induction false} FirstMatchSound(line: string, fs: seq<Field>)
    ensures FirstMatch(line, fs).Some? ==>
      line == Line(FirstMatch(line, fs).value.field, FirstMatch(line, fs).value.value)
  {
    if fs != [] && !(Prefix(fs[0]) <= line) {
      FirstMatchSound(line, fs[1..]);
    }
  }

  /** A declaration is read from the text iff some line is exactly that
      declaration written out. */
  lemma {:induction false} ParseSpecMembership(lines: seq<string>, d: Decl)
    ensures d in ParseSpec(lines) <==> Line(d.field, d.value) in lines
  {
    if lines != [] {
      ParseSpecMembership(lines[1..], d);
      FirstMatchSound(lines[0], AllFields);
      ParseLineOfLine(d.field, d.value);
      assert lines == [lines[0]] + lines[1..];
    }
  }

  lemma {:induction false} ValuesOfAppend(a: seq<Decl>, b: seq<Decl>, f: Field)
    ensures ValuesOf(a + b, f) == ValuesOf(a, f) + ValuesOf(b, f)
  {
    if a != [] {
      assert (a + b)[0] == a[0];
      assert (a + b)[1..] == a[1..] + b;
      ValuesOfAppend(a[1..], b, f);
    } else {
      assert a + b == b;
    }
  }

  lemma {:induction false} ValuesOfMembership(ds: seq<Decl>, f: Field, v: string)
    ensures v in ValuesOf(ds, f) <==> Decl(f, v) in ds
  {
    if ds != [] {
      ValuesOfMembership(ds[1..], f, v);
      assert ds == [ds[0]] + ds[1..];
    }
  }

  lemma {:induction false} ValuesOfDeclsFor(g: Field, vs: seq<string>, f: Field)
    ensures ValuesOf(DeclsFor(g, vs), f) == if f == g then vs else []
  {
    if vs != [] {
      ValuesOfDeclsFor(g, vs[1..], f);
      assert vs == [vs[0]] + vs[1..];
    }
  }

  lemma {:induction false} DeclsForFields(g: Field, vs: seq<string>)
    ensures forall d :: d in DeclsFor(g, vs) ==> d.field == g
  {
    if vs != [] {
      DeclsForFields(g, vs[1..]);
    }
  }

  /** Ranks strictly increase along `fs`. */
  predicate Ascending(fs: seq<Field>)
  {
    forall i :: 0 < i < |fs| ==> Rank(fs[i - 1]) < Rank(fs[i])
  }

  lemma AllFieldsAscending()
    ensures Ascending(AllFields)
    ensures forall f :: f in AllFields
  {
    forall f ensures f in AllFields {
      assert AllFields[Rank(f)] == f;
    }
  }

  lemma {:induction false} DeclsFromBounds(vals: Field -> seq<string>, fs: seq<Field>)
    requires Ascending(fs) && fs != []
    ensures forall d :: d in DeclsFrom(vals, fs) ==> Rank(d.field) >= Rank(fs[0])
    ensures forall g :: g in fs ==> Rank(g) >= Rank(fs[0])
  {
    DeclsForFields(fs[0], vals(fs[0]));
    if |fs| > 1 {
      DeclsFromBounds(vals, fs[1..]);
    }
  }

  /** In an ascending field list the first field does not recur. */
  lemma AscendingHead(fs: seq<Field>)
    requires Ascending(fs) && fs != []
    ensures fs[0] !in fs[1..]
  {
    forall i | 1 <= i < |fs| ensures Rank(fs[0]) < Rank(fs[i]) {
      AscendingRanks(fs, i);
    }
  }

  lemma {:induction false} AscendingRanks(fs: seq<Field>, i: nat)
    requires Ascending(fs) && 0 < i < |fs|
    ensures Rank(fs[0]) < Rank(fs[i])
  {
    if i > 1 {
      AscendingRanks(fs, i - 1);
    }
  }

  lemma {:induction false} ValuesOfDeclsFrom(vals: Field -> seq<string>, fs: seq<Field>, f: Field)
    requires Ascending(fs)
    ensures ValuesOf(DeclsFrom(vals, fs), f) == if f in fs then vals(f) else []
  {
    if fs != [] {
      var vs := vals(fs[0]);
      var head := DeclsFor(fs[0], vs);
      var rest := DeclsFrom(vals, fs[1..]);
      assert DeclsFrom(vals, fs) == head + rest;
      ValuesOfAppend(head, rest, f);
      ValuesOfDeclsFor(fs[0], vs, f);
      ValuesOfDeclsFrom(vals, fs[1..], f);
      assert fs == [fs[0]] + fs[1..];
      if f == fs[0] {
        AscendingHead(fs);
      }
    }
  }

  lemma {:induction false} DeclsFromInOrder(vals: Field -> seq<string>, fs: seq<Field>)
    requires Ascending(fs)
    ensures InTemplateOrder(DeclsFrom(vals, fs))
  {
    if fs != [] {
      var head := DeclsFor(fs[0], vals(fs[0]));
      var rest := DeclsFrom(vals, fs[1..]);
      DeclsForFields(fs[0], vals(fs[0]));
      DeclsFromInOrder(vals, fs[1..]);
      if |fs| > 1 {
        DeclsFromBounds(vals, fs[1..]);
      }
      var all := head + rest;
      forall i, j | 0 <= i < j < |all| ensures Rank(all[i].field) <= Rank(all[j].field) {
        if j < |head| {
          assert all[i] in head && all[j] in head;
        } else if i < |head| {
          assert all[i] in head && all[j] == rest[j - |head|];
          assert rest[j - |head|] in rest;
        } else {
          assert all[i] == rest[i - |head|] && all[j] == rest[j - |head|];
        }
      }
    }
  }

  /** Each field of the rendered spec declares exactly its expected values:
      Name once; Summary, Version, Release and License once each, with the
      supplied value or the default ("Empty", "1", "1", "Public Domain")
      when the tag is absent, the release followed by `%{?dist}`;
      `BuildArch: noarch` once when arch is absent or "noarch" and never
      otherwise; one line per value of each repeating tag, in row order,
      and none for an absent tag. */
  lemma SpecFieldValues(name: string, s: P.Settings, f: Field)
    requires P.WellTyped(s)
    ensures ValuesOf(ParseSpec(RenderSpec(name, s)), f) == ExpectedValues(name, s, f)
  {
    ParseRenderedSpec(name, s);
    AllFieldsAscending();
    ValuesOfDeclsFrom(ValuesFor(name, s), AllFields, f);
  }

  /** The declarations of the rendered spec come in template order: Name,
      Summary, Version, Release, License, BuildArch, then the BuildRequires,
      Requires, Obsoletes, Conflicts and Provides groups. */
  lemma SpecInTemplateOrder(name: string, s: P.Settings)
    requires P.WellTyped(s)
    ensures InTemplateOrder(ParseSpec(RenderSpec(name, s)))
  {
    ParseRenderedSpec(name, s);
    AllFieldsAscending();
    DeclsFromInOrder(ValuesFor(name, s), AllFields);
  }

  /** The spec has a `BuildArch:      noarch` line iff the settings give no
      arch or give "noarch". */
  lemma BuildArchLineIff(name: string, s: P.Settings)
    requires P.WellTyped(s)
    ensures Line(BuildArch, "noarch") in RenderSpec(name, s) <==> IsNoarch(s)
  {
    var lines := RenderSpec(name, s);
    SpecFieldValues(name, s, BuildArch);
    ParseSpecMembership(lines, Decl(BuildArch, "noarch"));
    ValuesOfMembership(ParseSpec(lines), BuildArch, "noarch");
  }

  /** Every expected value of a field is written as a line of the spec. */
  lemma ExpectedLineRendered(name: string, s: P.Settings, f: Field, v: string)
    requires P.WellTyped(s) && v in ExpectedValues(name, s, f)
    ensures Line(f, v) in RenderSpec(name, s)
  {
    var lines := RenderSpec(name, s);
    SpecFieldValues(name, s, f);
    ValuesOfMembership(ParseSpec(lines), f, v);
    ParseSpecMembership(lines, Decl(f, v));
  }
}
