# Repository steps of dnf-docker-test, modelled in Dafny

`dnf-docker-test/features/steps/repo_steps.py` holds the behave steps that
build throw-away RPM repositories for DNF feature tests:

- a step reads a `Package | Tag | Value` table, renders one RPM spec file per
  package from a Jinja template (`PKG_TMPL`), builds each package with
  `rpmbuild` (wrapped in `setarch … --target …` when a non-noarch `Arch` is
  given), runs `createrepo_c` on the directory, fixes ownership, and writes
  `/etc/yum.repos.d/<repository>.repo` with the repository disabled and a
  `baseurl` whose scheme is the repository type (`http`, `ftp` or `file`);
- "empty repository" does the same with no packages and a local directory;
- "I enable/disable repository" sets `enabled` to `True`/`False` in the
  `.repo` file and leaves everything else alone;
- two step-argument parsers turn `http `, `ftp `, `local ` or nothing into a
  repository type, and `enable`/`disable` into a boolean.

Modules:

| file | module | what it holds |
|---|---|---|
| `wrappers.dfy` | `Wrappers` | `Option` and `Result` |
| `text.dfy` | `Text` | space joining of words, Python's `str(bool)` |
| `step_types.dfy` | `StepTypes` | the two step-argument parsers and their inverses |
| `package_table.dfy` | `PackageTable` | RPM tags, per-package settings, lowercasing of tag names, template defaults |
| `spec_template.dfy` | `SpecTemplate` | the rendered spec as its exact sequence of lines, a reader of spec declarations, and the round trip between them |
| `build_commands.dfy` | `BuildCommands` | staging directory, base URL, the `rpmbuild` and `createrepo_c` command lines |
| `repo_config.dfy` | `RepoConfig` | the `.repo` file as INI sections, the rows the step writes, enabling and disabling |
| `repo_steps.dfy` | `RepoSteps` | the two "given" steps as methods that return the actions they perform, and end-to-end scenarios |

The rendered spec file is modelled as the list of its lines. The model keeps
what Jinja actually emits for `PKG_TMPL`: the leading blank line, the blank
line before each defined group of repeating tags (the `{%-` markers strip the
newline before the `if` but not the one after it), and no newline after
`%files` (Jinja drops the final newline by default). `Conflicts:` is followed
by one more space than the other tags, as in the template.

The source's comments and the code disagree twice; the model follows the code:

- the step's docstring says `rpmbuild` runs with `--nodeps`; the command
  strings at lines 189-193 do not pass `--nodeps`, and neither does the model;
- the docstring gives `x86_64` as the default `Arch`; the template (line 33)
  and the command choice (line 188) treat a missing `Arch` as `noarch`.

## Model

| member | source | states |
|---|---|---|
| StepTypes.ParseRepoType | dnf-docker-test/features/steps/repo_steps.py:89-97 | `http ` gives http, `ftp ` gives ftp, `local ` and the empty string give file (each an if-and-only-if); any other text is not a repository type |
| StepTypes.ParseRepoTypeTotalOnPattern | dnf-docker-test/features/steps/repo_steps.py:89-97 | every text the step pattern `local |http |ftp |` accepts parses to a type, so the final `assert False` is unreachable |
| StepTypes.RepoTypeRoundTrip | dnf-docker-test/features/steps/repo_steps.py:89-97 | parsing the step text of a type gives that type back |
| StepTypes.ParseEnableDisable | dnf-docker-test/features/steps/repo_steps.py:79-85 | `enable` gives true and `disable` gives false (both directions); other text is rejected exactly when the pattern rejects it |
| StepTypes.EnableDisableRoundTrip | dnf-docker-test/features/steps/repo_steps.py:79-85 | parsing the step text of a state gives that state back |
| PackageTable.VarNameIsLoweredTagName | dnf-docker-test/features/steps/repo_steps.py:184 | the template variable of each tag is the tag name lowercased |
| PackageTable.VarNamesDistinct | dnf-docker-test/features/steps/repo_steps.py:74-75 | lowercasing keeps the ten tags apart, so no setting overwrites another |
| PackageTable.TextOr | dnf-docker-test/features/steps/repo_steps.py:27-31 | a single-valued tag renders its table value when given and the template default otherwise |
| PackageTable.Items | dnf-docker-test/features/steps/repo_steps.py:37-65 | a repeating tag contributes its table values in order, or nothing when absent |
| SpecTemplate.RenderSpec | dnf-docker-test/features/steps/repo_steps.py:25-71 | the rendered spec opens with a blank line and the `Name:` line and closes with `%description`, `%{summary}.`, a blank line and `%files`; what it declares is stated by `ParseRenderedSpec`, `SpecFieldValues`, `SpecInTemplateOrder` and `BuildArchLineIff` |
| SpecTemplate.ParseRenderedSpec | dnf-docker-test/features/steps/repo_steps.py:25-71 | reading the declarations back from the rendered spec gives exactly the declarations the template defines for the package, in template order |
| SpecTemplate.SpecFieldValues | dnf-docker-test/features/steps/repo_steps.py:25-65 | for every spec tag, the values declared in the rendered spec are the table values or the template defaults (`Empty`, `1`, `1%{?dist}`, `Public Domain`), and the repeating tags' values in table order |
| SpecTemplate.SpecInTemplateOrder | dnf-docker-test/features/steps/repo_steps.py:25-65 | the declarations of the rendered spec come in the template's tag order |
| SpecTemplate.BuildArchLineIff | dnf-docker-test/features/steps/repo_steps.py:33-35 | the spec carries `BuildArch: noarch` if and only if `Arch` is absent or `noarch` |
| SpecTemplate.ExpectedLineRendered | dnf-docker-test/features/steps/repo_steps.py:25-65 | every value the template should declare for a tag appears as that tag's line |
| BuildCommands.StagingFor | dnf-docker-test/features/steps/repo_steps.py:173-181 | a local repository is addressed by its staging directory itself and an http or ftp one is not; the directory and the URL path both end with the directory name mkdtemp picks (exact paths in `BaseUrlMatchesType`) |
| BuildCommands.BaseUrl | dnf-docker-test/features/steps/repo_steps.py:207 | the base URL is the type's scheme, then `://`, then the repository path, nothing more |
| BuildCommands.BaseUrlMatchesType | dnf-docker-test/features/steps/repo_steps.py:173-181 | http repositories live under `/var/www/html` and are served from `localhost/`, ftp ones under `/var/ftp/pub` from `localhost/pub/`, local ones are their directory; the base URL is scheme, `://`, repository path |
| BuildCommands.SpecPath | dnf-docker-test/features/steps/repo_steps.py:186 | the spec file of a package is `<dir>/<name>.spec`: the directory, a slash, the name, `.spec` |
| BuildCommands.SpecPathInjective | dnf-docker-test/features/steps/repo_steps.py:186 | packages with different names get different spec files |
| BuildCommands.CrossArch | dnf-docker-test/features/steps/repo_steps.py:188 | a cross build is chosen exactly when `Arch` is set to something other than `noarch`, and then carries that architecture |
| BuildCommands.BuildCommand | dnf-docker-test/features/steps/repo_steps.py:186-193 | each build command is its word list joined by single spaces: `rpmbuild --define '_rpmdir <dir>' -bb <spec>`, or that build under `setarch <arch>` with `--target <arch>`; when each is chosen is `CrossBuildIffNoBuildArchLine` |
| BuildCommands.CrossBuildIffNoBuildArchLine | dnf-docker-test/features/steps/repo_steps.py:186-193 | the command is wrapped in `setarch <arch>` with `--target <arch>` if and only if the spec has no `BuildArch: noarch` line; the wrapped command is the plain one with those four words added; every command ends with `-bb <dir>/<name>.spec` |
| BuildCommands.CreaterepoCommand | dnf-docker-test/features/steps/repo_steps.py:196 | the repository is created by `createrepo_c` on the staging directory |
| RepoConfig.RepoFile | dnf-docker-test/features/steps/repo_steps.py:72 | a repository's file is `/etc/yum.repos.d/` + its name + `.repo` |
| RepoConfig.RepoFileInjective | dnf-docker-test/features/steps/repo_steps.py:72 | different repositories are configured in different files |
| RepoConfig.RepoRows | dnf-docker-test/features/steps/repo_steps.py:203-207 | four rows, the first naming the repository's section and the others continuing it, no key written twice; the section they produce is `NewRepoSection` |
| RepoConfig.NewRepoSection | dnf-docker-test/features/steps/repo_steps.py:202-207 | the `.repo` file written for a repository has one section, named after it, with exactly `name`, `enabled = False`, `gpgcheck = False` and `baseurl` |
| RepoConfig.SetOption | dnf-docker-test/features/steps/repo_steps.py:226 | setting an option of an existing section changes that one option and nothing else; a missing section is an error |
| RepoConfig.EnableDisableRepository | dnf-docker-test/features/steps/repo_steps.py:219-228 | the step fails exactly when the repository's file or its section is missing; otherwise no file appears or disappears and `enabled` becomes `True`/`False`; frame, idempotence and last-wins are the lemmas below |
| RepoConfig.EnableDisableFrame | dnf-docker-test/features/steps/repo_steps.py:219-228 | enabling or disabling sets `enabled` to `True`/`False` in the repository's own section and changes no other option, section or file; a missing file or section is an error |
| RepoConfig.EnableDisableUpdate | dnf-docker-test/features/steps/repo_steps.py:224-228 | when the file and section exist, the step replaces that section's `enabled` and nothing else, as one nested map update |
| RepoConfig.EnableDisableIdempotent | dnf-docker-test/features/steps/repo_steps.py:219-228 | doing the same enable or disable twice is the same as doing it once |
| RepoConfig.EnableDisableLastWins | dnf-docker-test/features/steps/repo_steps.py:219-228 | of two enable/disable steps in a row, the second decides |
| RepoSteps.PackageActions | dnf-docker-test/features/steps/repo_steps.py:183-194 | one iteration writes the spec to `<dir>/<name>.spec` and runs exactly one command, the package's build |
| RepoSteps.PackageSpecReadsBack | dnf-docker-test/features/steps/repo_steps.py:183-186 | the spec an iteration writes declares exactly what the template defines for that package |
| RepoSteps.BuildActions | dnf-docker-test/features/steps/repo_steps.py:183-194 | the loop takes two actions per package; their layout and commands are `BuildActionsLayout` and `BuildActionsCommands` |
| RepoSteps.DistinctSpecFiles | dnf-docker-test/features/steps/repo_steps.py:183-186 | since the table keys packages by name, no two packages write the same spec file |
| RepoSteps.BuildPackages | dnf-docker-test/features/steps/repo_steps.py:183-194 | the loop's actions are exactly `BuildActions`: for each package in table order, its spec write followed by its build |
| RepoSteps.BuildActionsLayout | dnf-docker-test/features/steps/repo_steps.py:183-194 | the loop yields two actions per package: action `2k` writes package `k`'s rendered spec to `<dir>/<name>.spec`, action `2k + 1` runs its build command |
| RepoSteps.BuildActionsCommands | dnf-docker-test/features/steps/repo_steps.py:183-194 | the commands the loop runs are the packages' build commands, one each, in table order |
| RepoSteps.GivenRepositoryWithPackages | dnf-docker-test/features/steps/repo_steps.py:165-208 | fails with the source's messages when `rpmbuild` or `createrepo_c` is missing; otherwise, for each package in turn, writes its rendered spec and runs its build command, then runs `createrepo_c`, sets ownership and writes the `.repo` file with the type's base URL; the commands run are exactly the builds followed by `createrepo_c` |
| RepoSteps.GivenEmptyRepository | dnf-docker-test/features/steps/repo_steps.py:210-217 | an empty repository is a local one: no builds, `createrepo_c` on the directory, ownership, and a `.repo` file whose base URL is `file://` plus the directory |
| RepoSteps.UntaggedPackageSpec | dnf-docker-test/features/steps/repo_steps.py:25-35 | a package listed without tags gets Name, `Summary: Empty`, `Version: 1`, `Release: 1%{?dist}` and `BuildArch: noarch`, and is built without `setarch` |
| RepoSteps.BlankTypeIsLocal | dnf-docker-test/features/steps/repo_steps.py:95-96 | a step with no repository type builds a local repository with a `file://` base URL |
| RepoSteps.ToggleNewRepository | dnf-docker-test/features/steps/repo_steps.py:202-228 | enabling or disabling a freshly written repository leaves its section as name, the requested `enabled`, `gpgcheck = False` and the original base URL |
| RepoSteps.EnableThenDisableScenario | dnf-docker-test/features/steps/repo_steps.py:219-228 | enabling and then disabling a repository leaves it with `enabled = False` |

## Left out

- `step_i_remove_all_repositories` (lines 101-107): it only globs and deletes files in `/etc/yum.repos.d`; the file system is not part of this model.
- `step_updateinfo_defined_in_repository` (lines 230-318): it builds an XML document and runs `modifyrepo_c`; XML generation is not part of this model.
- `table_utils.parse_skv_table` is not part of this model: its output shape (single tags map to a string, repeating tags to a list) is the `WellTyped` precondition, and its validation errors are not modelled.
- The name-keyed dictionary `parse_skv_table` returns is modelled as a sequence of packages in table order with distinct names (`TableWellTyped`); the model fixes the iteration order of `packages.items()` to table order.
- `which` lookups of `rpmbuild` and `createrepo_c` are parameters of type `Option`, and `tempfile.mkdtemp` is replaced by a caller-supplied root and unique directory name.
- Running commands, writing files and `file_utils.set_dir_content_ownership` are not performed: the steps return the list of actions they would take, in order, and the exit status of each command is not modelled.
- `file_utils.read_ini_file`, `conf2table` and `step_an_ini_file_filepath_with` are not part of this model: a `.repo` file is modelled as a map from section to options, and writing back through a table is taken to reproduce that map.
- The Jinja engine and `StrictUndefined` are not modelled; the template's output for this one template is written out line by line.
- ConfigParser's `DEFAULT` section and option-name case folding are not modelled.
- PackageTable.Lower: lowercases ASCII letters only, which covers every tag name.
- behave's step registration and the `ctx` object are not modelled.
