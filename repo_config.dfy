/** The `.repo` configuration files under `/etc/yum.repos.d/`: the rows the
    step writes for a new repository, and the `enabled` update of the
    enable/disable step. An INI file is a map from section to its options;
    the directory is a map from path to parsed file. Reading and writing
    INI text (`file_utils.read_ini_file`, `conf2table`, the INI writer) is
    not part of this model. */
module RepoConfig {
  import opened Wrappers
  import opened Text

  type Section = map<string, string>
  type Ini = map<string, Section>

  /** The files of `/etc/yum.repos.d/`, by path. */
  type RepoFiles = map<string, Ini>

  /** A row of the INI step table: section, key, value. */
  datatype Row = Row(section: string, key: string, value: string)

  datatype ConfigError = NoSuchFile(path: string) | NoSection(section: string)

  /** `REPO_TMPL.format(repository)` */
  function RepoFile(repository: string): (path: string)
    ensures |path| == |repository| + 22
    ensures path[..17] == "/etc/yum.repos.d/" && path[|path| - 5..] == ".repo"
    ensures path[17..|path| - 5] == repository
  {
    "/etc/yum.repos.d/" + repository + ".repo"
  }

  /** Different repositories are configured in different files. */
  lemma RepoFileInjective(a: string, b: string)
    requires a != b
    ensures RepoFile(a) != RepoFile(b)
  {
  }

  /** The rows the step adds for a new repository; the blank section cell
      continues the section named above it. */
  function RepoRows(repository: string, baseurl: string): (rows: seq<Row>)
    ensures |rows| == 4 && rows[0].section == repository
    ensures forall i :: 1 <= i < |rows| ==> rows[i].section == ""
    ensures forall i, j :: 0 <= i < j < |rows| ==> rows[i].key != rows[j].key
  {
    [ Row(repository, "name", repository),
      Row("", "enabled", "False"),
      Row("", "gpgcheck", "False"),
      Row("", "baseurl", baseurl) ]
  }

  /** Reads a table of rows as an INI file: a non-blank section cell opens
      (or reopens) that section, a blank one continues the current section,
      and a row before any section is named is dropped. */
  function IniOfRows(rows: seq<Row>, current: string, acc: Ini): Ini
  {
    if rows == [] then acc
    else
      var sec := if rows[0].section != "" then rows[0].section else current;
      var acc' := if sec == "" then acc
                  else acc[sec := (if sec in acc then acc[sec] else map[])[rows[0].key := rows[0].value]];
      IniOfRows(rows[1..], sec, acc')
  }

  /** The section written for a new repository: exactly the keys `name`,
      `enabled`, `gpgcheck` and `baseurl`, with the repository disabled and
      GPG checking off. */
  lemma NewRepoSection(repository: string, baseurl: string)
    requires repository != ""
    ensures IniOfRows(RepoRows(repository, baseurl), "", map[]) ==
      map[repository := map["name" := repository, "enabled" := "False",
                            "gpgcheck" := "False", "baseurl" := baseurl]]
    ensures var sec := IniOfRows(RepoRows(repository, baseurl), "", map[])[repository];
            sec.Keys == {"name", "enabled", "gpgcheck", "baseurl"}
  {
    var rows := RepoRows(repository, baseurl);
    var m1: Ini := map[repository := map["name" := repository]];
    var m2: Ini := map[repository := map["name" := repository, "enabled" := "False"]];
    var m3: Ini := map[repository := map["name" := repository, "enabled" := "False", "gpgcheck" := "False"]];
    var m4: Ini := map[repository := map["name" := repository, "enabled" := "False",
                                         "gpgcheck" := "False", "baseurl" := baseurl]];
    assert IniOfRows(rows[4..], repository, m4) == m4;
    assert IniOfRows(rows[3..], repository, m3) == IniOfRows(rows[4..], repository, m4);
    assert rows[2] == Row("", "gpgcheck", "False") && rows[2..][1..] == rows[3..];
    assert m2[repository := m2[repository]["gpgcheck" := "False"]] == m3;
    assert IniOfRows(rows[2..], repository, m2) == IniOfRows(rows[3..], repository, m3);
    assert rows[1] == Row("", "enabled", "False") && rows[1..][1..] == rows[2..];
    assert m1[repository := m1[repository]["enabled" := "False"]] == m2;
    assert IniOfRows(rows[1..], repository, m1) == IniOfRows(rows[2..], repository, m2);
    assert IniOfRows(rows, "", map[]) == IniOfRows(rows[1..], repository, m1);
  }

  /** `conf.set(section, key, value)`: fails when the section does not exist. */
  function SetOption(conf: Ini, section: string, key: string, value: string): (r: Result<Ini, ConfigError>)
    ensures r.Failure? <==> section !in conf
    ensures r.Failure? ==> r.error == NoSection(section)
    ensures r.Success? ==>
      && r.value.Keys == conf.Keys
      && r.value[section].Keys == conf[section].Keys + {key}
      && r.value[section][key] == value
      && (forall k :: k in conf[section] && k != key ==> r.value[section][k] == conf[section][k])
      && (forall s :: s in conf && s != section ==> r.value[s] == conf[s])
  {
    if section !in conf then Failure(NoSection(section))
    else Success(conf[section := conf[section][key := value]])
  }

  /** The enable/disable step: read the repository's file, set `enabled` in
      the section named after the repository to `str(state)`, write the
      file back. */
  function EnableDisableRepository(files: RepoFiles, repository: string, state: bool): (r: Result<RepoFiles, ConfigError>)
    ensures r.Failure? <==> RepoFile(repository) !in files || repository !in files[RepoFile(repository)]
    ensures r.Success? ==>
      var path := RepoFile(repository);
      && r.value.Keys == files.Keys
      && repository in r.value[path] && "enabled" in r.value[path][repository]
      && r.value[path][repository]["enabled"] == PyStr(state)
  {
    var path := RepoFile(repository);
    if path !in files then Failure(NoSuchFile(path))
    else
      match SetOption(files[path], repository, "enabled", PyStr(state))
      case Failure(e) => Failure(e)
      case Success(conf) => Success(files[path := conf])
  }

  /** The step fails exactly when the file or its section is missing, and
      otherwise changes nothing but `enabled` in that one section, which
      becomes "True" or "False". */
  lemma EnableDisableFrame(files: RepoFiles, repository: string, state: bool)
    ensures var path := RepoFile(repository);
            var r := EnableDisableRepository(files, repository, state);
            && (path !in files ==> r == Failure(NoSuchFile(path)))
            && (path in files && repository !in files[path] ==> r == Failure(NoSection(repository)))
            && (path in files && repository in files[path] ==>
                  && r.Success?
                  && r.value.Keys == files.Keys
                  && (forall p :: p in files && p != path ==> r.value[p] == files[p])
                  && r.value[path].Keys == files[path].Keys
                  && (forall s :: s in files[path] && s != repository ==> r.value[path][s] == files[path][s])
                  && r.value[path][repository] == files[path][repository]["enabled" := PyStr(state)])
  {
    var path := RepoFile(repository);
    if path in files && repository in files[path] {
      var conf := SetOption(files[path], repository, "enabled", PyStr(state)).value;
      assert conf[repository] == files[path][repository]["enabled" := PyStr(state)];
    }
  }

  /** When the file and section exist, the step is one nested map update. */
  lemma EnableDisableUpdate(files: RepoFiles, repository: string, state: bool)
    requires RepoFile(repository) in files && repository in files[RepoFile(repository)]
    ensures var path := RepoFile(repository);
            var conf := files[path];
            EnableDisableRepository(files, repository, state)
              == Success(files[path := conf[repository := conf[repository]["enabled" := PyStr(state)]]])
  {
  }

  /** A second update of the same key overwrites the first. */
  lemma Overwrite<K, V>(m: map<K, V>, k: K, v: V, w: V)
    ensures m[k := v][k := w] == m[k := w]
  {
  }

  /** Enabling (or disabling) twice leaves the files as doing it once. */
  lemma EnableDisableIdempotent(files: RepoFiles, repository: string, state: bool)
    requires EnableDisableRepository(files, repository, state).Success?
    ensures var once := EnableDisableRepository(files, repository, state).value;
            EnableDisableRepository(once, repository, state) == Success(once)
  {
    var path := RepoFile(repository);
    var conf := files[path];
    var sec := conf[repository]["enabled" := PyStr(state)];
    EnableDisableUpdate(files, repository, state);
    var once := files[path := conf[repository := sec]];
    EnableDisableUpdate(once, repository, state);
    Overwrite(conf[repository], "enabled", PyStr(state), PyStr(state));
    Overwrite(conf, repository, sec, sec);
    Overwrite(files, path, conf[repository := sec], conf[repository := sec]);
  }

  /** Of two enable/disable steps on one repository the later one decides:
      enable then disable leaves the files as disabling alone. */
  lemma EnableDisableLastWins(files: RepoFiles, repository: string, first: bool, second: bool)
    requires EnableDisableRepository(files, repository, first).Success?
    ensures var after := EnableDisableRepository(files, repository, first).value;
            EnableDisableRepository(after, repository, second)
              == EnableDisableRepository(files, repository, second)
  {
    var path := RepoFile(repository);
    var conf := files[path];
    var sec1 := conf[repository]["enabled" := PyStr(first)];
    var sec2 := conf[repository]["enabled" := PyStr(second)];
    EnableDisableUpdate(files, repository, first);
    EnableDisableUpdate(files, repository, second);
    var after := files[path := conf[repository := sec1]];
    EnableDisableUpdate(after, repository, second);
    Overwrite(conf[repository], "enabled", PyStr(first), PyStr(second));
    Overwrite(conf, repository, sec1, sec2);
    Overwrite(files, path, conf[repository := sec1], conf[repository := sec2]);
  }
}
