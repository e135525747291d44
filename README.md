# Slurm install manager, modelled in Dafny

This project models `SlurmInstallManager`, the object a Slurm charm uses to
install one Slurm role on its host. The role is one of four: compute node
(`slurmd`), REST gateway (`slurmrestd`), controller (`slurmctld`) or database
daemon (`slurmdbd`). The model covers what the manager does:

- it picks the role's config template, config target and systemd unit paths;
- it checks systemctl operations;
- it renders and writes the config file;
- it creates the service account;
- it lays out the role's directories and state files;
- it unpacks and copies the Slurm binaries;
- it points the dynamic linker at them;
- it installs the systemd unit.

The two flags it keeps in the charm's stored state (`slurm_installed` and
`slurm_started`) are modelled too.

The host is abstract:

- The filesystem is a map from paths to nodes. A path is a sequence of
  components, and `[]` is the root.
- Every external command is appended to a command log, and its exit code is
  ignored. This matches `subprocess.call`, which reports failure through an
  exit code that the source never reads. For the same reason none of the
  source's `except subprocess.CalledProcessError` handlers can fire.
- An exception that escapes an operation becomes `Fail(error)`.
- An operation that never returns ends in `Hang`. The only such place is the
  readiness poll loop, when `/tmp/slurm-resource/sbin/slurmd` never appears.

The project is layered:

- `paths.dfy`, `results.dfy`, `commands.dfy`: paths and ancestors; errors,
  outcomes and results; the commands the manager issues.
- `filesystem.dfy`: the pathlib operations `mkdir(parents=True)`, `touch`,
  `write_text` and `unlink` as functions on the filesystem map. Each has a
  contract that says exactly when it raises and what it leaves behind.
- `layout.dfy`, `component.dfy`: the fixed account, manifest and staging
  constants, and the role dispatch of the constructor.
- `provisioning.dfy`: each operation as a function from the state before
  (filesystem, command log, the two flags) to the state after plus how it
  ended. This is the specification.
- `facts.dfy`: what those functions promise, proved as lemmas. Examples:
  - "enable" is always rejected, so installation never sets the installed
    flag;
  - the filesystem step cannot run twice;
  - the exact layout and command order on a fresh host;
  - the wait ends with the readiness file present;
  - the copies go in order.
- `install_ops.dfy`: the manager itself, as classes.
  - `Host` holds the mutable filesystem and command log, with the pathlib
    calls as methods.
  - `SlurmInstallManager` holds the role settings and the two flags. Each of
    its methods (with its loops and their invariants) is proved to produce
    exactly the state and outcome of its specification function.

The two flag properties `slurm_installed` and `slurm_component_started` are the
reader functions `SlurmInstallManager.SlurmInstalled` and
`SlurmInstallManager.SlurmComponentStarted`. What they report after each
operation follows from that operation's method contract.

## Model

| member | source | states |
|---|---|---|
| Filesystem.Mkdir | slurm_install_manager/slurm_install_ops.py:203 | `mkdir(parents=True)` without `exist_ok` succeeds exactly when the path is absent and no regular file lies on the way. An existing path raises FileExistsError. On success the path and all its missing ancestors are directories and every entry already present is unchanged. |
| Filesystem.Touch | slurm_install_manager/slurm_install_ops.py:193 | `touch` succeeds exactly when the path exists or its parent is a directory. It adds at most that one path, as an empty file, and leaves every existing entry as it was. |
| Filesystem.WriteText | slurm_install_manager/slurm_install_ops.py:246 | `write_text` succeeds exactly when the path is a regular file, or is absent with a directory as its parent. The path then holds exactly the text and nothing else changes. A directory raises IsADirectoryError. |
| Filesystem.Unlink | slurm_install_manager/slurm_install_ops.py:113 | `unlink` succeeds exactly on a regular file and removes only that entry. A directory raises IsADirectoryError and a missing path raises FileNotFoundError. |
| Component.Select | slurm_install_manager/slurm_install_ops.py:48-63 | Construction succeeds exactly for the four roles. Any other key raises with the message text as written. `slurmdbd` gets `slurmdbd.conf.tmpl` and `/etc/slurm/slurmdbd.conf`; the other roles get `slurm.conf.tmpl` and `/etc/slurm/slurm.conf`. The unit is `<role>.service` in the template directory and in `/etc/systemd/system`. |
| Component.TemplateIsNotTarget | slurm_install_manager/slurm_install_ops.py:50-56 | For every role and every template directory, the config target is never the template file itself, so deleting the target cannot delete the template. |
| Layout.SlurmdManifestShape | slurm_install_manager/slurm_install_ops.py:171-194 | The slurmd manifest has four directories and nine state files. Each state file lies directly in `/var/lib/slurmd`, which is one of the four directories. |
| Layout.ManifestIndependent | slurm_install_manager/slurm_install_ops.py:198-201 | In each role's directory list, no directory equals an earlier one or is an ancestor of one, so a single pass meets no directory it already made. |
| Provisioning.MergeContext | slurm_install_manager/slurm_install_ops.py:102 | The merged context has the caller's keys plus `hostname`. Every caller value is kept, including a caller `hostname`. The derived hostname appears only when the caller gives none. |
| ProvisioningFacts.SlurmSystemctlContract | slurm_install_manager/slurm_install_ops.py:73-90 | An operation outside start/stop/restart raises, issues no command and changes nothing. An accepted operation issues `systemctl <op> <role>` and changes neither the filesystem nor the installed flag. `start` sets the started flag, the other operations leave it, and nothing clears it. |
| ProvisioningFacts.EnableRejected | slurm_install_manager/slurm_install_ops.py:264 | The "enable" request of the systemd step always raises the unsupported-operation exception and changes nothing. |
| ProvisioningFacts.WriteConfigRejects | slurm_install_manager/slurm_install_ops.py:99-106 | A context that is not a dict raises TypeError, and a missing template raises FileNotFoundError. Both happen before the target is deleted or written: the host is unchanged. |
| ProvisioningFacts.WriteConfigWrites | slurm_install_manager/slurm_install_ops.py:108-115 | With a dict context and a template file, the write returns exactly when the target is not a directory and its directory exists. The target then holds exactly the rendering of the merged context and nothing else on the host changes. |
| ProvisioningFacts.WriteConfigTwice | slurm_install_manager/slurm_install_ops.py:112-115 | Writing the config again replaces the first rendering: the host ends as if only the second write had happened. |
| ProvisioningFacts.MkdirsChownAppend | slurm_install_manager/slurm_install_ops.py:202-204 | A directory loop over two lists in a row is one loop over both, stopping at the first mkdir that raises. |
| ProvisioningFacts.MkdirsChownKeeps | slurm_install_manager/slurm_install_ops.py:202-204 | A directory loop returns or raises (it never hangs), never changes an existing entry or a flag, and when it returns every listed directory is a directory. |
| ProvisioningFacts.MkdirsChownExisting | slurm_install_manager/slurm_install_ops.py:203 | If any listed directory already exists, the loop raises. |
| ProvisioningFacts.MkdirsChownFirstExists | slurm_install_manager/slurm_install_ops.py:203 | If the first directory exists, the loop raises FileExistsError at once and changes nothing. |
| ProvisioningFacts.MkdirsChownCreates | slurm_install_manager/slurm_install_ops.py:202-204 | On a host with none of the directories, where none lies below a file and none precedes one of its descendants, the loop returns. It adds exactly those directories and their ancestors and issues one chown per directory, in list order. |
| ProvisioningFacts.TouchAllKeeps | slurm_install_manager/slurm_install_ops.py:192-193 | The touch loop returns or raises (it never hangs), issues no command, changes no existing entry or flag, and when it returns every listed file exists. |
| ProvisioningFacts.TouchAllCreates | slurm_install_manager/slurm_install_ops.py:192-193 | When every file's directory exists, the touch loop returns having added exactly the missing files, each empty. |
| ProvisioningFacts.ManifestPaths | slurm_install_manager/slurm_install_ops.py:171-201 | Every manifest directory and ancestor has at most three components and is never `/etc/ld.so.conf.d/slurm.conf`. |
| ProvisioningFacts.PrepareFilesystemKeeps | slurm_install_manager/slurm_install_ops.py:196-207 | The filesystem step returns or raises (it never hangs), and either way it never changes an existing entry or a flag. |
| ProvisioningFacts.PrepareFilesystemLayout | slurm_install_manager/slurm_install_ops.py:196-207 | When the filesystem step returns, every directory of the role's manifest is a directory; for slurmd, all nine state files exist. |
| ProvisioningFacts.PrepareFilesystemCreates | slurm_install_manager/slurm_install_ops.py:169-207 | On a host without the manifest, the filesystem step returns. It creates exactly the two generic directories, plus for slurmd the four slurmd directories (with ancestors) and nine empty state files, and touches nothing else. It issues one chown per directory in order, and for slurmd a final chown of `/var/lib/slurmd`. |
| ProvisioningFacts.OtherFilesystemCreates | slurm_install_manager/slurm_install_ops.py:196-207 | For the roles other than slurmd, only the generic directories are created and chowned, and no state file. |
| ProvisioningFacts.SlurmdSteps | slurm_install_manager/slurm_install_ops.py:169-194 | For slurmd on a fresh host, both directory loops return. The state files are then touched into an existing `/var/lib/slurmd`, and the step ends with its chown. |
| ProvisioningFacts.SlurmdFilesystemLog | slurm_install_manager/slurm_install_ops.py:169-194 | For slurmd on a fresh host, the commands are the six directory chowns in order, then the chown of `/var/lib/slurmd`. |
| ProvisioningFacts.SlurmdFilesystemContents | slurm_install_manager/slurm_install_ops.py:169-194 | For slurmd on a fresh host, the filesystem gains exactly the six directories with their ancestors and the nine empty state files. |
| ProvisioningFacts.PrepareFilesystemNotRerunnable | slurm_install_manager/slurm_install_ops.py:196-204 | After the filesystem step has returned once, running it again raises FileExistsError at `/etc/sysconfig/slurm` and changes nothing. |
| ProvisioningFacts.AwaitReadinessEnds | slurm_install_manager/slurm_install_ops.py:231-232 | The wait ends with `/tmp/slurm-resource/sbin/slurmd` present whenever the file is already there or appears in one of the batches. |
| ProvisioningFacts.AwaitReadinessLands | slurm_install_manager/slurm_install_ops.py:231-232 | While waiting, only paths that land in the batches can appear or change. |
| ProvisioningFacts.SubtreeCopyOrder | slurm_install_manager/slurm_install_ops.py:234-238 | The copies go `bin`, `sbin`, `lib`, `include`, each from `/tmp/slurm-resource/<d>` into `/usr/local/<d>`. |
| ProvisioningFacts.ProvisionSlurmResourceContract | slurm_install_manager/slurm_install_ops.py:209-242 | If the fetch failed, the step raises (unbound resource path) before any command. Otherwise it issues the untar and waits. It returns exactly when the readiness file is already there or lands; it then ends with the file present and has issued exactly the four copies after the untar. Otherwise it hangs with only the untar issued, so no copy is ever issued without the readiness file. It changes no flag. |
| ProvisioningFacts.PrepareSystemNeverInstalls | slurm_install_manager/slurm_install_ops.py:124-131 | Whatever the host and the fetch result, the installation never returns normally and leaves the installed flag as it was. It raises whenever the readiness file is there or lands; otherwise it can only hang, and only after a fetched archive. |
| ProvisioningFacts.PrepareSystemOrder | slurm_install_manager/slurm_install_ops.py:117-131 | In the good case, the commands are issued in source order and the run raises at "enable" with both flags unchanged. The good case is: a fresh host, the linker config directory present, and a fetched archive whose readiness file is there or lands, with files landing only in the staging area. The order is: groupadd and useradd, the filesystem chowns, untar, the four copies, ldconfig, then the unit copy and daemon-reload. |
| ProvisioningFacts.LayoutKeepsLinkerDir | slurm_install_manager/slurm_install_ops.py:196-207 | On a fresh host the filesystem step returns and keeps `/etc/ld.so.conf.d` a directory. It places no directory at the linker config file. |
| ProvisioningFacts.ResourceThenLinker | slurm_install_manager/slurm_install_ops.py:209-250 | With the linker config directory present, the readiness file there or landing, and files landing only in the staging area, the resource and linker steps both return. They issue untar, the copies, then ldconfig. |
| InstallOps.Host.Call | slurm_install_manager/slurm_install_ops.py:136-141 | A command appends exactly itself to the log and leaves the filesystem alone. |
| InstallOps.Host.Mkdir | slurm_install_manager/slurm_install_ops.py:203 | The host's filesystem becomes the result of `Filesystem.Mkdir`, or stays unchanged with its error. |
| InstallOps.Host.Touch | slurm_install_manager/slurm_install_ops.py:193 | The host's filesystem becomes the result of `Filesystem.Touch`, or stays unchanged with its error. |
| InstallOps.Host.WriteText | slurm_install_manager/slurm_install_ops.py:246 | The host's filesystem becomes the result of `Filesystem.WriteText`, or stays unchanged with its error. |
| InstallOps.Host.Unlink | slurm_install_manager/slurm_install_ops.py:113 | The host's filesystem becomes the result of `Filesystem.Unlink`, or stays unchanged with its error. |
| InstallOps.Host.Sleep | slurm_install_manager/slurm_install_ops.py:232 | During one sleep the next batch of files may appear on the host from outside the program; no command is issued. |
| InstallOps.SlurmInstallManager.constructor | slurm_install_manager/slurm_install_ops.py:39-63 | The manager holds the settings of its role as the dispatch derives them, together with the given flags. |
| InstallOps.SlurmInstallManager.Create | slurm_install_manager/slurm_install_ops.py:39-63 | Construction succeeds exactly for the four roles and raises the dispatch's error otherwise, without touching the host. Each flag keeps its stored value and defaults to false. |
| InstallOps.SlurmInstallManager.SlurmSystemctl | slurm_install_manager/slurm_install_ops.py:73-90 | It leaves the host and flags exactly as `Provisioning.SlurmSystemctl` says, with the same outcome. |
| InstallOps.SlurmInstallManager.WriteConfig | slurm_install_manager/slurm_install_ops.py:92-115 | On a manager whose settings are the dispatch's, it checks, unlinks and writes in source order and ends exactly as `Provisioning.WriteConfig`. |
| InstallOps.SlurmInstallManager.ChownSlurmUserAndGroupRecursive | slurm_install_manager/slurm_install_ops.py:133-143 | It issues exactly one `chown -R slurm:slurm <dir>`. |
| InstallOps.SlurmInstallManager.CreateSlurmUserAndGroup | slurm_install_manager/slurm_install_ops.py:145-167 | It issues groupadd with gid 995, then useradd into group slurm with uid 995, and nothing else. |
| InstallOps.SlurmInstallManager.MakeDirs | slurm_install_manager/slurm_install_ops.py:202-204 | The mkdir/chown loop ends exactly as `Provisioning.MkdirsChown`, stopping at the first mkdir that raises. |
| InstallOps.SlurmInstallManager.TouchFiles | slurm_install_manager/slurm_install_ops.py:192-193 | The touch loop ends exactly as `Provisioning.TouchAll`, stopping at the first touch that raises. |
| InstallOps.SlurmInstallManager.PrepareForSlurmd | slurm_install_manager/slurm_install_ops.py:169-194 | It ends exactly as `Provisioning.PrepareForSlurmd`. |
| InstallOps.SlurmInstallManager.PrepareFilesystem | slurm_install_manager/slurm_install_ops.py:196-207 | It ends exactly as `Provisioning.PrepareFilesystem`. |
| InstallOps.SlurmInstallManager.ProvisionSlurmResource | slurm_install_manager/slurm_install_ops.py:209-242 | It ends exactly as `Provisioning.ProvisionSlurmResource`, for runs in which the readiness file is there or lands (the runs that return). |
| InstallOps.SlurmInstallManager.AwaitReadiness | slurm_install_manager/slurm_install_ops.py:229-232 | The polling loop terminates with the readiness file present and the host's filesystem equal to `Provisioning.AwaitReadiness` of the batches; it issues no command. |
| InstallOps.SlurmInstallManager.CopySubtrees | slurm_install_manager/slurm_install_ops.py:234-242 | The copy loop runs only with the readiness file present and issues exactly the four copies in order. |
| InstallOps.SlurmInstallManager.SetLdLibraryPath | slurm_install_manager/slurm_install_ops.py:244-250 | It ends exactly as `Provisioning.SetLdLibraryPath`: write the linker config file, then ldconfig. |
| InstallOps.SlurmInstallManager.SetupSystemd | slurm_install_manager/slurm_install_ops.py:252-266 | It ends exactly as `Provisioning.SetupSystemd`: the unit copy and daemon-reload, then the rejected "enable". |
| InstallOps.SlurmInstallManager.PrepareSystemForSlurm | slurm_install_manager/slurm_install_ops.py:117-131 | For runs whose readiness wait ends, it ends exactly as `Provisioning.PrepareSystemForSlurm`. It always raises, and the installed flag keeps its old value. |

## Where the model departs from the text of the source

- `write_config` reads `self.slurm_config_template` (line 96) and
  `self._hostname` (line 102). The class defines neither, so the method as
  written raises AttributeError on every call.
  - The template is taken from `_slurm_conf_template` instead, the attribute
    the `get_template` call at line 110 passes.
  - The hostname is a parameter of `WriteConfig`.
- With only the line-96 repair, the source still fails. For `slurmdbd`,
  line 50 stores the template as a bare `str`, so `source.exists()` at
  line 103 raises AttributeError. For the other roles, line 55 stores an
  absolute `Path`, which jinja2's `FileSystemLoader` does not resolve inside
  its search path at line 110. The model repairs lines 50 and 55 as well. It
  keeps the template as a file name and resolves it under the manager's
  template directory, both for the existence check and for loading. A
  template path that is a directory stands for the loader failing to find
  the template.
- The exception message at line 58 lacks its `f` prefix. The model keeps the
  literal text `Slurm component not supported: {key}`.
- Line 102 unpacks the caller's dict last, so a `hostname` key supplied by
  the caller overrides the derived one (`Provisioning.MergeContext`).
- Line 131 never runs, because line 264 always raises, so
  `SlurmInstallManager.PrepareSystemForSlurm` marks that point unreachable.
  The specification function still contains the branch that would set the flag.

## Left out

- The effects of `tar`, `cp -R`, `chown`, `groupadd`, `useradd`, `ldconfig` and `systemctl` on the host are not modelled. They are external programs, so each is only a log entry whose exit code is ignored.
- Jinja2 rendering is an uninterpreted `render(template text, context)` function parameter; template syntax and rendering errors are not modelled.
- The ops framework's StoredState persistence and the `Object` registration in `__init__` are out of scope. The flags are fields, and `Create` takes the already-stored values.
- `model.resources.fetch` is an input, `Option<Path>`; its ModelError and the logging around it are not modelled.
- InstallOps.SlurmInstallManager.ProvisionSlurmResource: the method, and `PrepareSystemForSlurm` with it, covers only runs whose readiness wait ends: the readiness file is on the host already or appears in one of the batches, one batch per sleep. A method cannot run for ever, so the endless wait is given only by the specification functions, as the `Hang` outcome.
- `subprocess.call` waits for each command to exit, so the untar has finished before the wait begins. Files that appear during the wait come from outside the program; the batches are an input, and no process that writes them is modelled.
- `subprocess.call` raises OSError when a command cannot be started at all (for example a missing executable). The `except subprocess.CalledProcessError` handlers do not catch it, so the operation would raise. The model assumes every command starts, and models no such error.
- The one-second sleep duration and all logging are left out.
- Ownership, permissions and modes are left out. So are symbolic links, and filesystem errors other than those named in `Results.Error` (permissions, full disk).
- The untar command itself changes nothing in the model; what appears under the staging area is only what the batches say.
- `slurm_ops_manager/ntp_ops.py` is not part of this model. It is an apt/yum wrapper that shares no state with provisioning.
