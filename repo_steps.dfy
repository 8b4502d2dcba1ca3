/** The "repository with packages" step and its "empty repository" variant
    as an ordered trace of what they do: write each package's spec, build
    it, index the staging directory, fix ownership, write the `.repo` file. */
module RepoSteps {
  import opened Wrappers
  import opened StepTypes
  import P = PackageTable
  import SpecTemplate
  import opened BuildCommands
  import opened RepoConfig
  import Text

  datatype StepError = ToolMissing(message: string)

  /** What the step does, in order. `SetOwnership` stands for
      `file_utils.set_dir_content_ownership`, whose effect is not modelled. */
  datatype Action =
    | WriteSpec(path: string, lines: seq<string>)
    | Run(command: string)
    | SetOwnership(dir: string)
    | WriteRepoFile(path: string, rows: seq<Row>)

  datatype RepoStep = RepoStep(staging: Staging, actions: seq<Action>)

  /** The package table as the table parser delivers it: every package's
      settings have the right shape, and no package name appears twice,
      since the parser keys the packages by name. */
  predicate TableWellTyped(packages: seq<P.Package>)
  {
    && (forall i :: 0 <= i < |packages| ==> P.WellTyped(packages[i].settings))
    && (forall i, j :: 0 <= i < j < |packages| ==> packages[i].name != packages[j].name)
  }

  /** A prefix of the table is a table. */
  lemma TablePrefix(packages: seq<P.Package>, n: nat)
    requires n <= |packages| && TableWellTyped(packages)
    ensures TableWellTyped(packages[..n])
  {
  }

  /** The commands a trace runs, in order. */
  function Commands(actions: seq<Action>): seq<string>
  {
    if actions == [] then []
    else (if actions[0].Run? then [actions[0].command] else []) + Commands(actions[1..])
  }

  lemma {:induction false} CommandsAppend(a: seq<Action>, b: seq<Action>)
    ensures Commands(a + b) == Commands(a) + Commands(b)
  {
    if a != [] {
      assert (a + b)[0] == a[0];
      assert (a + b)[1..] == a[1..] + b;
      CommandsAppend(a[1..], b);
    } else {
      assert a + b == b;
    }
  }

  /** The build commands of the first `n` packages, in table order. */
  function BuildsOf(rpmbuild: string, dir: string, packages: seq<P.Package>, n: nat): (cmds: seq<string>)
    requires n <= |packages| && TableWellTyped(packages)
    ensures |cmds| == n
  {
    seq(n, k requires 0 <= k < n =>
      BuildCommand(rpmbuild, dir, packages[k].name, packages[k].settings))
  }

  lemma CommandsOfPair(w: Action, cmd: string)
    requires !w.Run?
    ensures Commands([w, Run(cmd)]) == [cmd]
  {
    assert [w, Run(cmd)][1..] == [Run(cmd)];
    assert [Run(cmd)][1..] == [];
    assert Commands([Run(cmd)]) == [cmd] + Commands([]);
  }

  lemma CommandsOfTail(cmd: string, a1: Action, a2: Action)
    requires !a1.Run? && !a2.Run?
    ensures Commands([Run(cmd), a1, a2]) == [cmd]
  {
    assert [Run(cmd), a1, a2][1..] == [a1, a2];
    assert [a1, a2][1..] == [a2];
    assert [a2][1..] == [];
    assert Commands([a2]) == [];
    assert Commands([a1, a2]) == [];
  }

  lemma BuildsOfNext(rpmbuild: string, dir: string, packages: seq<P.Package>, i: nat)
    requires i < |packages| && TableWellTyped(packages)
    ensures BuildsOf(rpmbuild, dir, packages, i + 1) ==
      BuildsOf(rpmbuild, dir, packages, i)
      + [BuildCommand(rpmbuild, dir, packages[i].name, packages[i].settings)]
  {
  }

  /** One iteration of the step's loop: write the package's rendered spec
      to `<dir>/<name>.spec`, then run its build command. */
  function PackageActions(rpmbuild: string, dir: string, p: P.Package): (a: seq<Action>)
    requires P.WellTyped(p.settings)
    ensures |a| == 2 && a[0].WriteSpec? && a[0].path == SpecPath(dir, p.name)
    ensures Commands(a) == [BuildCommand(rpmbuild, dir, p.name, p.settings)]
  {
    var w := WriteSpec(SpecPath(dir, p.name), SpecTemplate.RenderSpec(p.name, p.settings));
    var cmd := BuildCommand(rpmbuild, dir, p.name, p.settings);
    CommandsOfPair(w, cmd);
    [w, Run(cmd)]
  }

  /** The spec a package's actions write declares exactly what the
      template defines for that package. */
  lemma PackageSpecReadsBack(rpmbuild: string, dir: string, p: P.Package)
    requires P.WellTyped(p.settings)
    ensures var w := PackageActions(rpmbuild, dir, p)[0];
            SpecTemplate.ParseSpec(w.lines) == SpecTemplate.Declarations(p.name, p.settings)
  {
    SpecTemplate.ParseRenderedSpec(p.name, p.settings);
  }

  /** The loop's actions for the packages in table order. */
  function BuildActions(rpmbuild: string, dir: string, packages: seq<P.Package>): (a: seq<Action>)
    requires TableWellTyped(packages)
    ensures |a| == 2 * |packages|
  {
    if packages == [] then []
    else
      var n := |packages| - 1;
      BuildActions(rpmbuild, dir, packages[..n]) + PackageActions(rpmbuild, dir, packages[n])
  }

  /** Package `k` owns actions `2k` and `2k + 1`: its own pair. */
  lemma {:induction false} BuildActionAt(rpmbuild: string, dir: string, packages: seq<P.Package>, k: nat)
    requires TableWellTyped(packages) && k < |packages|
    ensures var a, pair := BuildActions(rpmbuild, dir, packages), PackageActions(rpmbuild, dir, packages[k]);
            a[2 * k] == pair[0] && a[2 * k + 1] == pair[1]
  {
    var n := |packages| - 1;
    var init := packages[..n];
    TablePrefix(packages, n);
    var pre := BuildActions(rpmbuild, dir, init);
    if k < n {
      BuildActionAt(rpmbuild, dir, init, k);
      assert init[k] == packages[k];
    }
  }

  /** The loop yields, for every package in table order, the write of its
      spec followed by its build. */
  lemma BuildActionsLayout(rpmbuild: string, dir: string, packages: seq<P.Package>)
    requires TableWellTyped(packages)
    ensures var a := BuildActions(rpmbuild, dir, packages);
            forall k :: 0 <= k < |packages| ==>
              && a[2 * k] == WriteSpec(SpecPath(dir, packages[k].name),
                                       SpecTemplate.RenderSpec(packages[k].name, packages[k].settings))
              && a[2 * k + 1] == Run(BuildCommand(rpmbuild, dir, packages[k].name, packages[k].settings))
  {
    var a := BuildActions(rpmbuild, dir, packages);
    forall k | 0 <= k < |packages|
      ensures a[2 * k] == WriteSpec(SpecPath(dir, packages[k].name),
                                    SpecTemplate.RenderSpec(packages[k].name, packages[k].settings))
      ensures a[2 * k + 1] == Run(BuildCommand(rpmbuild, dir, packages[k].name, packages[k].settings))
    {
      BuildActionAt(rpmbuild, dir, packages, k);
    }
  }

  /** Each package writes its spec to a file of its own: no package's spec
      overwrites another's. */
  lemma DistinctSpecFiles(dir: string, packages: seq<P.Package>)
    requires TableWellTyped(packages)
    ensures forall k, l :: 0 <= k < l < |packages| ==>
              SpecPath(dir, packages[k].name) != SpecPath(dir, packages[l].name)
  {
    forall k, l | 0 <= k < l < |packages|
      ensures SpecPath(dir, packages[k].name) != SpecPath(dir, packages[l].name)
    {
      SpecPathInjective(dir, packages[k].name, packages[l].name);
    }
  }

  /** The loop runs exactly the build commands, in table order. */
  lemma {:induction false} BuildActionsCommands(rpmbuild: string, dir: string, packages: seq<P.Package>)
    requires TableWellTyped(packages)
    ensures Commands(BuildActions(rpmbuild, dir, packages)) == BuildsOf(rpmbuild, dir, packages, |packages|)
  {
    if packages != [] {
      var n := |packages| - 1;
      var init, last := packages[..n], packages[n];
      TablePrefix(packages, n);
      var pair := PackageActions(rpmbuild, dir, last);
      BuildActionsCommands(rpmbuild, dir, init);
      CommandsAppend(BuildActions(rpmbuild, dir, init), pair);
      CommandsOfPair(pair[0], pair[1].command);
      assert BuildsOf(rpmbuild, dir, init, n) == BuildsOf(rpmbuild, dir, packages, n);
      BuildsOfNext(rpmbuild, dir, packages, n);
    }
  }

  /** The loop of `given_repository_with_packages`, one package per
      iteration in table order. */
  method BuildPackages(rpmbuild: string, dir: string, packages: seq<P.Package>)
    returns (actions: seq<Action>)
    requires TableWellTyped(packages)
    ensures actions == BuildActions(rpmbuild, dir, packages)
  {
    actions := [];
    var i := 0;
    while i < |packages|
      invariant 0 <= i <= |packages|
      invariant TableWellTyped(packages[..i])
      invariant actions == BuildActions(rpmbuild, dir, packages[..i])
    {
      TablePrefix(packages, i + 1);
      var done := packages[..i + 1];
      assert done[..i] == packages[..i] && done[i] == packages[i];
      actions := actions + PackageActions(rpmbuild, dir, packages[i]);
      i := i + 1;
    }
    assert packages[..i] == packages;
  }

  /** The loop's actions followed by `tail`: package `k` still owns actions
      `2k` and `2k + 1`, `tail` comes after the last build, and the
      commands run are the builds followed by the commands of `tail`. */
  lemma StepTrace(rpmbuild: string, dir: string, packages: seq<P.Package>, tail: seq<Action>)
    requires TableWellTyped(packages)
    ensures var a := BuildActions(rpmbuild, dir, packages) + tail;
            && |a| == 2 * |packages| + |tail|
            && (forall k :: 0 <= k < |packages| ==>
                  && a[2 * k] == WriteSpec(SpecPath(dir, packages[k].name),
                                           SpecTemplate.RenderSpec(packages[k].name, packages[k].settings))
                  && a[2 * k + 1] == Run(BuildCommand(rpmbuild, dir, packages[k].name, packages[k].settings)))
            && a[2 * |packages|..] == tail
            && Commands(a) == BuildsOf(rpmbuild, dir, packages, |packages|) + Commands(tail)
  {
    var builds := BuildActions(rpmbuild, dir, packages);
    var a := builds + tail;
    BuildActionsLayout(rpmbuild, dir, packages);
    BuildActionsCommands(rpmbuild, dir, packages);
    CommandsAppend(builds, tail);
    forall k | 0 <= k < |packages|
      ensures a[2 * k] == builds[2 * k] && a[2 * k + 1] == builds[2 * k + 1]
    {
    }
  }

  /** `given_repository_with_packages`. The tool lookups `which(...)` are the
      parameters `rpmbuild` and `createrepo` (`None` when not found);
      `tempRoot` and `unique` are what `tempfile.mkdtemp` would pick. */
  method GivenRepositoryWithPackages(rtype: RepoType, repository: string, packages: seq<P.Package>,
                                     rpmbuild: Option<string>, createrepo: Option<string>,
                                     tempRoot: string, unique: string)
    returns (r: Result<RepoStep, StepError>)
    requires TableWellTyped(packages)
    ensures rpmbuild.None? ==> r == Failure(ToolMissing("rpmbuild is required"))
    ensures rpmbuild.Some? && createrepo.None? ==> r == Failure(ToolMissing("createrepo_c is required"))
    ensures rpmbuild.Some? && createrepo.Some? ==> r.Success?
    ensures r.Success? ==>
      var st := StagingFor(rtype, tempRoot, unique);
      var n := |packages|;
      var a := r.value.actions;
      && rpmbuild.Some? && createrepo.Some?
      && r.value.staging == st
      && |a| == 2 * n + 3
      && (forall k :: 0 <= k < n ==>
            && a[2 * k] == WriteSpec(SpecPath(st.dir, packages[k].name),
                                     SpecTemplate.RenderSpec(packages[k].name, packages[k].settings))
            && a[2 * k + 1] == Run(BuildCommand(rpmbuild.value, st.dir, packages[k].name, packages[k].settings)))
      && a[2 * n] == Run(CreaterepoCommand(createrepo.value, st.dir))
      && a[2 * n + 1] == SetOwnership(st.dir)
      && a[2 * n + 2] == WriteRepoFile(RepoFile(repository), RepoRows(repository, BaseUrl(rtype, st)))
      && Commands(a) == BuildsOf(rpmbuild.value, st.dir, packages, n)
                        + [CreaterepoCommand(createrepo.value, st.dir)]
  {
    if rpmbuild.None? {
      return Failure(ToolMissing("rpmbuild is required"));
    }
    if createrepo.None? {
      return Failure(ToolMissing("createrepo_c is required"));
    }
    var st := StagingFor(rtype, tempRoot, unique);
    var builds := BuildPackages(rpmbuild.value, st.dir, packages);
    var tail := [ Run(CreaterepoCommand(createrepo.value, st.dir)),
                  SetOwnership(st.dir),
                  WriteRepoFile(RepoFile(repository), RepoRows(repository, BaseUrl(rtype, st))) ];
    StepTrace(rpmbuild.value, st.dir, packages, tail);
    CommandsOfTail(tail[0].command, tail[1], tail[2]);
    r := Success(RepoStep(st, builds + tail));
  }

  /** `given_empty_repository`: a local repository with no packages. */
  method GivenEmptyRepository(repository: string, rpmbuild: Option<string>, createrepo: Option<string>,
                              tempRoot: string, unique: string)
    returns (r: Result<RepoStep, StepError>)
    ensures rpmbuild.Some? && createrepo.Some? <==> r.Success?
    ensures r.Success? ==>
      var dir := tempRoot + "/" + unique;
      && r.value.actions == [ Run(CreaterepoCommand(createrepo.value, dir)),
                              SetOwnership(dir),
                              WriteRepoFile(RepoFile(repository), RepoRows(repository, "file://" + dir)) ]
  {
    r := GivenRepositoryWithPackages(File, repository, [], rpmbuild, createrepo, tempRoot, unique);
    if r.Success? {
      var st := StagingFor(File, tempRoot, unique);
      assert BaseUrl(File, st) == "file://" + st.dir;
      var a := r.value.actions;
      assert |a| == 3 && a[0] == Run(CreaterepoCommand(createrepo.value, st.dir));
    }
  }

  /** The template defaults a package without tags falls back on. */
  lemma UntaggedDefaults(name: string, s: P.Settings)
    requires s == map[]
    ensures SpecTemplate.ExpectedValues(name, s, SpecTemplate.Name) == [name]
    ensures SpecTemplate.ExpectedValues(name, s, SpecTemplate.Summary) == ["Empty"]
    ensures SpecTemplate.ExpectedValues(name, s, SpecTemplate.Version) == ["1"]
    ensures SpecTemplate.ExpectedValues(name, s, SpecTemplate.Release) == ["1%{?dist}"]
    ensures SpecTemplate.ExpectedValues(name, s, SpecTemplate.BuildArch) == ["noarch"]
    ensures CrossArch(s) == None
  {
    assert "1" + "%{?dist}" == "1%{?dist}";
  }

  /** A package with no tags: its spec names it with the default Summary,
      Version and Release, is noarch, and builds without setarch. */
  lemma UntaggedPackageSpec(name: string, s: P.Settings)
    requires s == map[]
    ensures var lines := SpecTemplate.RenderSpec(name, s);
            && SpecTemplate.Line(SpecTemplate.Name, name) in lines
            && SpecTemplate.Line(SpecTemplate.Summary, "Empty") in lines
            && SpecTemplate.Line(SpecTemplate.Version, "1") in lines
            && SpecTemplate.Line(SpecTemplate.Release, "1%{?dist}") in lines
            && SpecTemplate.Line(SpecTemplate.BuildArch, "noarch") in lines
    ensures CrossArch(s) == None
  {
    UntaggedDefaults(name, s);
    SpecTemplate.ExpectedLineRendered(name, s, SpecTemplate.Name, name);
    SpecTemplate.ExpectedLineRendered(name, s, SpecTemplate.Summary, "Empty");
    SpecTemplate.ExpectedLineRendered(name, s, SpecTemplate.Version, "1");
    SpecTemplate.ExpectedLineRendered(name, s, SpecTemplate.Release, "1%{?dist}");
    SpecTemplate.ExpectedLineRendered(name, s, SpecTemplate.BuildArch, "noarch");
  }

  /** The blank repository type selects a local repository, whose URL is a file URL. */
  lemma BlankTypeIsLocal(tempRoot: string, unique: string)
    ensures ParseRepoType("") == Some(File)
    ensures "file://" <= BaseUrl(File, StagingFor(File, tempRoot, unique))
  {
    BaseUrlMatchesType(File, tempRoot, unique);
  }

  /** A repository just written by the step, then enabled or disabled:
      its section keeps name, gpgcheck and baseurl, and `enabled` follows
      the request. */
  lemma ToggleNewRepository(files: RepoFiles, repository: string, baseurl: string, state: bool)
    requires repository != ""
    ensures var written := files[RepoFile(repository) := IniOfRows(RepoRows(repository, baseurl), "", map[])];
            var r := EnableDisableRepository(written, repository, state);
            && r.Success?
            && r.value[RepoFile(repository)] ==
               map[repository := map["name" := repository, "enabled" := Text.PyStr(state),
                                     "gpgcheck" := "False", "baseurl" := baseurl]]
  {
    var path := RepoFile(repository);
    var sec := map["name" := repository, "enabled" := "False", "gpgcheck" := "False", "baseurl" := baseurl];
    var written := files[path := IniOfRows(RepoRows(repository, baseurl), "", map[])];
    NewRepoSection(repository, baseurl);
    EnableDisableUpdate(written, repository, state);
    var sec' := sec["enabled" := Text.PyStr(state)];
    Overwrite(map[], repository, sec, sec');
    assert sec' == map["name" := repository, "enabled" := Text.PyStr(state),
                       "gpgcheck" := "False", "baseurl" := baseurl];
  }

  /** Enabling "base" and then disabling it leaves it disabled. */
  lemma EnableThenDisableScenario(files: RepoFiles)
    requires RepoFile("base") in files && "base" in files[RepoFile("base")]
    ensures var enabled := EnableDisableRepository(files, "base", true);
            && enabled.Success?
            && var disabled := EnableDisableRepository(enabled.value, "base", false);
               && disabled.Success?
               && disabled.value[RepoFile("base")]["base"]["enabled"] == "False"
  {
    EnableDisableFrame(files, "base", true);
    EnableDisableLastWins(files, "base", true, false);
    EnableDisableFrame(files, "base", false);
  }
}
