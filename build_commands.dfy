/** Where the step stages a repository, the URL it is served under, and the
    shell commands it issues: one `rpmbuild` per package, then one
    `createrepo_c`. Commands are strings; nothing is run. */
module BuildCommands {
  import opened Wrappers
  import opened Text
  import opened StepTypes
  import P = PackageTable
  import SpecTemplate

  /** The staging directory and the path part of the repository URL. */
  datatype Staging = Staging(dir: string, repoPath: string)

  /** The directory `tempfile.mkdtemp` creates and the URL path for it.
      `unique` is the fresh name mkdtemp picks; `tempRoot` is the system
      temporary directory mkdtemp uses when no `dir` is given. */
  function StagingFor(rtype: RepoType, tempRoot: string, unique: string): (st: Staging)
    ensures st.repoPath == st.dir <==> rtype == File
    ensures |st.dir| > |unique| && st.dir[|st.dir| - |unique|..] == unique
    ensures |st.repoPath| > |unique| && st.repoPath[|st.repoPath| - |unique|..] == unique
  {
    match rtype
    case Http => Staging("/var/www/html/" + unique, "localhost/" + unique)
    case Ftp => Staging("/var/ftp/pub/" + unique, "localhost/pub/" + unique)
    case File => Staging(tempRoot + "/" + unique, tempRoot + "/" + unique)
  }

  /** `"{!s}://{!s}".format(rtype, repopath)` */
  function BaseUrl(rtype: RepoType, st: Staging): (url: string)
    ensures |url| == |Scheme(rtype)| + 3 + |st.repoPath|
    ensures url[..|Scheme(rtype)| + 3] == Scheme(rtype) + "://"
    ensures url[|Scheme(rtype)| + 3..] == st.repoPath
  {
    Scheme(rtype) + ("://" + st.repoPath)
  }

  /** The base URL carries the scheme of the repository type: a local
      repository points at its staging directory itself, an http one at
      `localhost/<dir name>` and an ftp one at `localhost/pub/<dir name>`,
      where `<dir name>` is the last component of the staging directory. */
  lemma BaseUrlMatchesType(rtype: RepoType, tempRoot: string, unique: string)
    ensures var st := StagingFor(rtype, tempRoot, unique);
            var url := BaseUrl(rtype, st);
            && Scheme(rtype) + "://" <= url
            && (rtype == File ==> url == "file://" + st.dir)
            && (rtype == Http ==> url == "http://localhost/" + unique
                                  && st.dir == "/var/www/html/" + unique)
            && (rtype == Ftp ==> url == "ftp://localhost/pub/" + unique
                                 && st.dir == "/var/ftp/pub/" + unique)
  {
    var st := StagingFor(rtype, tempRoot, unique);
    Assoc(Scheme(rtype), "://", st.repoPath);
    match rtype {
      case Http => HttpUrlPiece(unique);
      case Ftp => FtpUrlPiece(unique);
      case File => FileUrlPiece(st.dir);
    }
  }

  lemma HttpUrlPiece(x: string)
    ensures "http" + ("://" + ("localhost/" + x)) == "http://localhost/" + x
  {
  }

  lemma FtpUrlPiece(x: string)
    ensures "ftp" + ("://" + ("localhost/pub/" + x)) == "ftp://localhost/pub/" + x
  {
  }

  lemma FileUrlPiece(x: string)
    ensures "file" + ("://" + x) == "file://" + x
  {
  }

  /** `fname`: where the rendered spec of a package is written. */
  function SpecPath(tmpdir: string, name: string): (path: string)
    ensures |path| == |tmpdir| + |name| + 6
    ensures path[..|tmpdir| + 1] == tmpdir + "/" && path[|path| - 5..] == ".spec"
    ensures path[|tmpdir| + 1..|path| - 5] == name
  {
    tmpdir + "/" + name + ".spec"
  }

  /** Packages with different names write different spec files. */
  lemma SpecPathInjective(tmpdir: string, a: string, b: string)
    requires a != b
    ensures SpecPath(tmpdir, a) != SpecPath(tmpdir, b)
  {
  }

  /** The architecture to cross-build for: present exactly when the
      settings give an arch other than "noarch". */
  function CrossArch(s: P.Settings): (r: Option<string>)
    requires P.WellTyped(s)
    ensures r.None? <==> SpecTemplate.IsNoarch(s)
    ensures r.Some? ==> P.Arch in s && s[P.Arch] == P.Single(r.value) && r.value != "noarch"
  {
    if SpecTemplate.IsNoarch(s) then None else Some(s[P.Arch].text)
  }

  /** The words of the plain build: `rpmbuild --define '_rpmdir <tmpdir>' -bb <spec>`. */
  function PlainWords(rpmbuild: string, tmpdir: string, name: string): seq<string>
  {
    [rpmbuild, "--define", "'_rpmdir " + (tmpdir + "'"), "-bb", SpecPath(tmpdir, name)]
  }

  /** The words of the cross build: the plain build run under
      `setarch <arch>`, with `--target <arch>` in front of `-bb`. */
  function CrossWords(arch: string, rpmbuild: string, tmpdir: string, name: string): seq<string>
  {
    var plain := PlainWords(rpmbuild, tmpdir, name);
    ["setarch", arch] + plain[..3] + ["--target", arch] + plain[3..]
  }

  /** The build command of one package: the two format strings of the step,
      with their arguments substituted in order. It is exactly the build's
      words joined by single spaces: the plain build when no other
      architecture is asked for, and otherwise the same build under
      `setarch <arch>` with `--target <arch>`. */
  function BuildCommand(rpmbuild: string, tmpdir: string, name: string, s: P.Settings): (cmd: string)
    requires P.WellTyped(s)
    ensures cmd == Join(BuildWords(rpmbuild, tmpdir, name, s), " ")
  {
    var fname := SpecPath(tmpdir, name);
    if P.Arch !in s || s[P.Arch].text == "noarch" then
      JoinPlain(rpmbuild, tmpdir, name);
      rpmbuild + (" --define '_rpmdir " + (tmpdir + ("' -bb " + fname)))
    else
      var arch := s[P.Arch].text;
      JoinCross(arch, rpmbuild, tmpdir, name);
      "setarch " + (arch + (" " + (rpmbuild + (" --define '_rpmdir " + (tmpdir
      + ("' --target " + (arch + (" -bb " + fname))))))))
  }

  // The literal pieces of the format strings, spelled as the words they join.

  lemma DefinePiece(x: string)
    ensures " " + ("--define" + (" " + ("'_rpmdir " + x))) == " --define '_rpmdir " + x
  {
  }

  lemma PlainTailPiece(x: string)
    ensures "'" + (" " + ("-bb" + (" " + x))) == "' -bb " + x
  {
  }

  lemma CrossTailPiece(x: string)
    ensures "'" + (" " + ("--target" + (" " + x))) == "' --target " + x
  {
  }

  lemma BbPiece(x: string)
    ensures " " + ("-bb" + (" " + x)) == " -bb " + x
  {
  }

  lemma SetarchPiece(x: string)
    ensures "setarch" + (" " + x) == "setarch " + x
  {
  }

  /** `Join` of a non-empty list, one word at a time. */
  lemma JoinWords(words: seq<string>, sep: string)
    requires |words| >= 2
    ensures Join(words, sep) == words[0] + (sep + Join(words[1..], sep))
  {
  }

  lemma JoinPlain(rpmbuild: string, tmpdir: string, name: string)
    ensures Join(PlainWords(rpmbuild, tmpdir, name), " ") ==
      rpmbuild + (" --define '_rpmdir " + (tmpdir + ("' -bb " + SpecPath(tmpdir, name))))
  {
    var w, f := PlainWords(rpmbuild, tmpdir, name), SpecPath(tmpdir, name);
    JoinWords(w, " ");
    JoinWords(w[1..], " ");
    JoinWords(w[2..], " ");
    JoinWords(w[3..], " ");
    var r := " " + ("-bb" + (" " + f));
    assert Join(w[2..], " ") == ("'_rpmdir " + (tmpdir + "'")) + r;
    Assoc("'_rpmdir ", tmpdir + "'", r);
    Assoc(tmpdir, "'", r);
    PlainTailPiece(f);
    DefinePiece(tmpdir + ("' -bb " + f));
  }

  /** The words from `'_rpmdir <tmpdir>'` on, joined. */
  lemma JoinCrossTail(arch: string, tmpdir: string, f: string)
    ensures Join(["'_rpmdir " + (tmpdir + "'"), "--target", arch, "-bb", f], " ") ==
      "'_rpmdir " + (tmpdir + ("' --target " + (arch + (" -bb " + f))))
  {
    var d := "'_rpmdir " + (tmpdir + "'");
    var w := [d, "--target", arch, "-bb", f];
    JoinWords(w, " ");
    JoinWords(w[1..], " ");
    JoinWords(w[2..], " ");
    JoinWords(w[3..], " ");
    var r := " " + ("--target" + (" " + (arch + (" " + ("-bb" + (" " + f))))));
    assert Join(w, " ") == d + r;
    BbPiece(f);
    CrossTailPiece(arch + (" -bb " + f));
    Assoc("'_rpmdir ", tmpdir + "'", r);
    Assoc(tmpdir, "'", r);
  }

  lemma JoinCross(arch: string, rpmbuild: string, tmpdir: string, name: string)
    ensures Join(CrossWords(arch, rpmbuild, tmpdir, name), " ") ==
      "setarch " + (arch + (" " + (rpmbuild + (" --define '_rpmdir " + (tmpdir
      + ("' --target " + (arch + (" -bb " + SpecPath(tmpdir, name)))))))))
  {
    var f := SpecPath(tmpdir, name);
    var d := "'_rpmdir " + (tmpdir + "'");
    var w := CrossWords(arch, rpmbuild, tmpdir, name);
    assert w == ["setarch", arch, rpmbuild, "--define"] + [d, "--target", arch, "-bb", f];
    JoinWords(w, " ");
    JoinWords(w[1..], " ");
    JoinWords(w[2..], " ");
    JoinWords(w[3..], " ");
    assert w[4..] == [d, "--target", arch, "-bb", f];
    JoinCrossTail(arch, tmpdir, f);
    var t := tmpdir + ("' --target " + (arch + (" -bb " + f)));
    DefinePiece(t);
    SetarchPiece(arch + (" " + (rpmbuild + (" --define '_rpmdir " + t))));
  }

  /** The words of the build the step chooses for a package. */
  function BuildWords(rpmbuild: string, tmpdir: string, name: string, s: P.Settings): seq<string>
    requires P.WellTyped(s)
  {
    match CrossArch(s)
    case None => PlainWords(rpmbuild, tmpdir, name)
    case Some(arch) => CrossWords(arch, rpmbuild, tmpdir, name)
  }

  /** The build runs under `setarch <arch>` with `--target <arch>` exactly
      when the rendered spec has no `BuildArch: noarch` line, and is the
      plain build otherwise; either way it defines `_rpmdir` as the staging
      directory and ends with `-bb <tmpdir>/<name>.spec`, the file the
      rendered spec is written to. */
  lemma CrossBuildIffNoBuildArchLine(rpmbuild: string, tmpdir: string, name: string, s: P.Settings)
    requires P.WellTyped(s)
    ensures var w := BuildWords(rpmbuild, tmpdir, name, s);
            && (SpecTemplate.Line(SpecTemplate.BuildArch, "noarch") !in SpecTemplate.RenderSpec(name, s)
                <==> CrossArch(s).Some?)
            && (CrossArch(s).None? ==> w == PlainWords(rpmbuild, tmpdir, name))
            && (CrossArch(s).Some? ==>
                  |w| == 9 && w[..2] == ["setarch", s[P.Arch].text]
                  && w[5..7] == ["--target", s[P.Arch].text]
                  && w[2..5] + w[7..] == PlainWords(rpmbuild, tmpdir, name))
            && |w| >= 5 && w[|w| - 2..] == ["-bb", SpecPath(tmpdir, name)]
  {
    SpecTemplate.BuildArchLineIff(name, s);
    BuildWordsShape(rpmbuild, tmpdir, name, s);
  }

  lemma BuildWordsShape(rpmbuild: string, tmpdir: string, name: string, s: P.Settings)
    requires P.WellTyped(s)
    ensures var w := BuildWords(rpmbuild, tmpdir, name, s);
            && (CrossArch(s).None? ==> w == PlainWords(rpmbuild, tmpdir, name))
            && (CrossArch(s).Some? ==>
                  |w| == 9 && w[..2] == ["setarch", s[P.Arch].text]
                  && w[5..7] == ["--target", s[P.Arch].text]
                  && w[2..5] + w[7..] == PlainWords(rpmbuild, tmpdir, name))
            && |w| >= 5 && w[|w| - 2..] == ["-bb", SpecPath(tmpdir, name)]
  {
  }

  /** `"{!s} {!s}".format(createrepo, tmpdir)` */
  function CreaterepoCommand(createrepo: string, tmpdir: string): (cmd: string)
    ensures cmd == Join([createrepo, tmpdir], " ")
  {
    JoinCons(createrepo, [tmpdir], " ");
    createrepo + (" " + tmpdir)
  }
}
