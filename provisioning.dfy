/** What each operation of `SlurmInstallManager` does to the host and to the
    stored flags, as functions from the state before to the state after and
    the way the operation ended. The methods of the class are proved to
    follow these functions, and ProvisioningFacts proves what they promise. */
module Provisioning {
  import opened Paths
  import opened Results
  import opened Filesystem
  import opened Commands
  import opened Layout
  import opened Component

  /** Everything an operation can change: the filesystem, the commands issued
      so far, and the two stored flags. */
  datatype Machine = Machine(fs: Fs, log: seq<Command>, installed: bool, started: bool)

  /** The state after an operation, and whether it returned or raised. */
  datatype Step = Step(m: Machine, outcome: Outcome)

  /** The argument of write_config: a dict of template variables, or anything
      else (which the type check rejects). */
  datatype ContextArg = Dict(entries: map<string, string>) | NotADict

  /** Template rendering, left uninterpreted: template text and context to output. */
  type Renderer = (string, map<string, string>) -> string

  const SystemctlOps: seq<string> := ["start", "stop", "restart"]

  /** subprocess.call: the command is issued and its exit code ignored. */
  function Run(m: Machine, c: Command): Machine {
    m.(log := m.log + [c])
  }

  function ChownSlurm(m: Machine, p: Path): Machine {
    Run(m, ChownRecursive(SlurmUser, SlurmGroup, p))
  }

  /** The chown commands of a directory loop, in order. */
  function Chowns(dirs: seq<Path>): seq<Command> {
    if dirs == [] then [] else [ChownRecursive(SlurmUser, SlurmGroup, dirs[0])] + Chowns(dirs[1..])
  }

  /** Every directory of dirs with all its ancestors. */
  function Closure(dirs: seq<Path>): set<Path> {
    if dirs == [] then {} else Ancestors(dirs[0]) + {dirs[0]} + Closure(dirs[1..])
  }

  // slurm_systemctl

  function SlurmSystemctl(m: Machine, component: string, op: string): Step {
    if op !in SystemctlOps then
      Step(m, Fail(UnsupportedOperation("Unsupported systemctl command for " + component)))
    else
      var m1 := Run(m, Systemctl(op, component));
      Step(if op == "start" then m1.(started := true) else m1, Pass)
  }

  // write_config

  /** The template context: the derived hostname, overridden by whatever the
      caller passes (the caller's dict is unpacked last). */
  function MergeContext(hostname: string, context: map<string, string>): (r: map<string, string>)
    ensures r.Keys == context.Keys + {"hostname"}
    ensures forall k :: k in context ==> r[k] == context[k]
    ensures "hostname" !in context ==> r["hostname"] == hostname
  {
    map["hostname" := hostname] + context
  }

  /** `write_config`: type check, merge, template check, unlink, write. The
      source takes the template name from `self.slurm_config_template` and
      the hostname from `self._hostname`, and the class defines neither;
      here the template is the settings' `confTemplate` and the hostname is
      a parameter. */
  function WriteConfig(m: Machine, s: Settings, templateDir: Path, context: ContextArg,
                       hostname: string, render: Renderer): Step
  {
    if context.NotADict? then Step(m, Fail(ContextNotADict))
    else
      var ctxt := MergeContext(hostname, context.entries);
      var source := templateDir + [s.confTemplate];
      if source !in m.fs then Step(m, Fail(TemplateMissing))
      else if m.fs[source].Dir? then Step(m, Fail(TemplateNotFound(s.confTemplate)))
      else
        var cleared := if Exists(m.fs, s.confTarget) then Unlink(m.fs, s.confTarget) else Ok(m.fs);
        if cleared.Err? then Step(m, Fail(cleared.error))
        else
          var written := WriteText(cleared.value, s.confTarget, render(m.fs[source].text, ctxt));
          if written.Err? then Step(m.(fs := cleared.value), Fail(written.error))
          else Step(m.(fs := written.value), Pass)
  }

  // _create_slurm_user_and_group

  function CreateSlurmUserAndGroup(m: Machine): Machine {
    Run(Run(m, GroupAdd(SlurmGid, SlurmUser)), UserAdd(SlurmGroup, SlurmUid, SlurmUser))
  }

  // _prepare_filesystem and _prepare_for_slurmd

  /** A loop that creates each directory and hands it to the slurm account;
      the first mkdir that raises ends it. */
  function MkdirsChown(m: Machine, dirs: seq<Path>): Step
    decreases |dirs|
  {
    if dirs == [] then Step(m, Pass)
    else
      var made := Mkdir(m.fs, dirs[0]);
      if made.Err? then Step(m, Fail(made.error))
      else MkdirsChown(ChownSlurm(m.(fs := made.value), dirs[0]), dirs[1..])
  }

  /** A loop that touches each file; the first touch that raises ends it. */
  function TouchAll(m: Machine, files: seq<Path>): Step
    decreases |files|
  {
    if files == [] then Step(m, Pass)
    else
      var touched := Touch(m.fs, files[0]);
      if touched.Err? then Step(m, Fail(touched.error))
      else TouchAll(m.(fs := touched.value), files[1..])
  }

  function PrepareForSlurmd(m: Machine): Step {
    var dirs := MkdirsChown(m, SlurmdDirs);
    if dirs.outcome != Pass then dirs
    else
      var files := TouchAll(dirs.m, SlurmdFiles);
      if files.outcome != Pass then files
      else Step(ChownSlurm(files.m, SlurmdStateDir), Pass)
  }

  function PrepareFilesystem(m: Machine, component: string): Step {
    var dirs := MkdirsChown(m, GenericDirs);
    if dirs.outcome != Pass || component != "slurmd" then dirs
    else PrepareForSlurmd(dirs.m)
  }

  // _provision_slurm_resource

  /** Everything that lands on the host during the wait, over all the batches. */
  function Landed(batches: seq<Fs>): Fs {
    if batches == [] then map[] else batches[0] + Landed(batches[1..])
  }

  /** The readiness wait: while the readiness file is missing, sleep, during
      which the next batch of files appears on the host from outside the
      program. When the batches run out with the file still missing, the
      loop goes on sleeping for ever and nothing more changes. */
  function AwaitReadiness(fs: Fs, batches: seq<Fs>): Fs
    decreases |batches|
  {
    if ReadinessFile in fs || batches == [] then fs
    else AwaitReadiness(fs + batches[0], batches[1..])
  }

  /** The copy commands for the given subtrees, in order. */
  function SubtreeCopies(subtrees: seq<string>): seq<Command> {
    if subtrees == [] then []
    else [CopyTreeContents(ResourceStaging + [subtrees[0]], UsrLocal + [subtrees[0]])] + SubtreeCopies(subtrees[1..])
  }

  /** `fetched` is the path the resource fetch returned, or None when it raised
      (the error is logged, and resource_path is then unbound). */
  function ProvisionSlurmResource(m: Machine, fetched: Option<Path>, batches: seq<Fs>): Step {
    if fetched.None? then Step(m, Fail(UnboundResourcePath))
    else
      var untarred := Run(m, Untar(fetched.value, ResourceStaging));
      var ready := untarred.(fs := AwaitReadiness(untarred.fs, batches));
      if ReadinessFile !in ready.fs then Step(ready, Hang)  // the poll loop never ends
      else Step(ready.(log := ready.log + SubtreeCopies(ResourceSubtrees)), Pass)
  }

  // _set_ld_library_path

  function SetLdLibraryPath(m: Machine): Step {
    var written := WriteText(m.fs, LdConfFile, LdConfText);
    if written.Err? then Step(m, Fail(written.error))
    else Step(Run(m.(fs := written.value), Ldconfig), Pass)
  }

  // _setup_systemd

  function SetupSystemd(m: Machine, s: Settings): Step {
    var m1 := Run(Run(m, CopyFile(s.unitSource, s.unitTarget)), DaemonReload);
    SlurmSystemctl(m1, s.component, "enable")
  }

  // prepare_system_for_slurm

  /** Each step runs only when the one before it returned normally. */
  function PrepareSystemForSlurm(m: Machine, s: Settings, fetched: Option<Path>, batches: seq<Fs>): Step {
    var account := CreateSlurmUserAndGroup(m);
    var layout := PrepareFilesystem(account, s.component);
    if layout.outcome != Pass then layout
    else
      var resource := ProvisionSlurmResource(layout.m, fetched, batches);
      if resource.outcome != Pass then resource
      else
        var ld := SetLdLibraryPath(resource.m);
        if ld.outcome != Pass then ld
        else
          var systemd := SetupSystemd(ld.m, s);
          if systemd.outcome != Pass then systemd
          else Step(systemd.m.(installed := true), Pass)
  }
}
