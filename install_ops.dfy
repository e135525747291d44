/** The install manager as the object the charm holds: its role-derived
    settings, the two stored flags it updates, and the host it changes step
    by step. Every method is proved to follow its function in Provisioning,
    so what ProvisioningFacts proves of those functions holds of the methods. */
module InstallOps {
  import opened Paths
  import opened Results
  import opened Filesystem
  import opened Commands
  import opened Layout
  import opened Component
  import P = Provisioning
  import F = ProvisioningFacts

  /** The machine the charm runs on: its filesystem, and the commands issued
      on it so far. The pathlib calls of the manager are methods here. */
  class Host {
    var fs: Fs
    var log: seq<Command>

    constructor(fs: Fs)
      ensures this.fs == fs && log == []
    {
      this.fs := fs;
      log := [];
    }

    /** `subprocess.call(...)`: the command is issued, its exit code unread. */
    method Call(c: Command)
      modifies this
      ensures fs == old(fs) && log == old(log) + [c]
    {
      log := log + [c];
    }

    /** `Path(p).mkdir(parents=True)`. */
    method Mkdir(p: Path) returns (o: Outcome)
      modifies this
      ensures log == old(log)
      ensures var r := Filesystem.Mkdir(old(fs), p);
        if r.Ok? then o == Pass && fs == r.value else o == Fail(r.error) && fs == old(fs)
    {
      var r := Filesystem.Mkdir(fs, p);
      if r.Err? {
        return Fail(r.error);
      }
      fs := r.value;
      o := Pass;
    }

    /** `Path(p).touch()`. */
    method Touch(p: Path) returns (o: Outcome)
      modifies this
      ensures log == old(log)
      ensures var r := Filesystem.Touch(old(fs), p);
        if r.Ok? then o == Pass && fs == r.value else o == Fail(r.error) && fs == old(fs)
    {
      var r := Filesystem.Touch(fs, p);
      if r.Err? {
        return Fail(r.error);
      }
      fs := r.value;
      o := Pass;
    }

    /** `Path(p).write_text(text)`. */
    method WriteText(p: Path, text: string) returns (o: Outcome)
      modifies this
      ensures log == old(log)
      ensures var r := Filesystem.WriteText(old(fs), p, text);
        if r.Ok? then o == Pass && fs == r.value else o == Fail(r.error) && fs == old(fs)
    {
      var r := Filesystem.WriteText(fs, p, text);
      if r.Err? {
        return Fail(r.error);
      }
      fs := r.value;
      o := Pass;
    }

    /** `Path(p).unlink()`. */
    method Unlink(p: Path) returns (o: Outcome)
      modifies this
      ensures log == old(log)
      ensures var r := Filesystem.Unlink(old(fs), p);
        if r.Ok? then o == Pass && fs == r.value else o == Fail(r.error) && fs == old(fs)
    {
      var r := Filesystem.Unlink(fs, p);
      if r.Err? {
        return Fail(r.error);
      }
      fs := r.value;
      o := Pass;
    }

    /** `sleep(1)`, during which files may appear on the host from outside
        the program (the untar before the wait has already exited). */
    method Sleep(landed: Fs)
      modifies this
      ensures fs == old(fs) + landed && log == old(log)
    {
      fs := fs + landed;
    }
  }

  class SlurmInstallManager {
    const host: Host
    const templateDir: Path
    const component: string
    const confTemplate: string
    const confTarget: Path
    const unitSource: Path
    const unitTarget: Path

    /** The two flags of the charm's StoredState. */
    var slurmInstalled: bool
    var slurmStarted: bool

    function Settings(): Settings {
      Component.Settings(component, confTemplate, confTarget, unitSource, unitTarget)
    }

    /** The settings are the ones the constructor's dispatch derives. */
    ghost predicate Valid() {
      Select(component, templateDir) == Ok(Settings())
    }

    /** Everything the operations read and change. */
    function State(): P.Machine
      reads this, host
    {
      P.Machine(host.fs, host.log, slurmInstalled, slurmStarted)
    }

    constructor(host: Host, templateDir: Path, s: Settings, installed: bool, started: bool)
      requires Select(s.component, templateDir) == Ok(s)
      ensures Valid() && Settings() == s
      ensures this.host == host && this.templateDir == templateDir
      ensures slurmInstalled == installed && slurmStarted == started
    {
      this.host := host;
      this.templateDir := templateDir;
      component := s.component;
      confTemplate := s.confTemplate;
      confTarget := s.confTarget;
      unitSource := s.unitSource;
      unitTarget := s.unitTarget;
      slurmInstalled := installed;
      slurmStarted := started;
    }

    /** `SlurmInstallManager(charm, key)`: raises for a key outside the four
        roles; otherwise each stored flag keeps the value already stored
        and defaults to False. */
    static method Create(key: string, templateDir: Path, host: Host,
                         storedInstalled: Option<bool>, storedStarted: Option<bool>)
      returns (r: Result<SlurmInstallManager>)
      ensures r.Ok? <==> key in Components
      ensures r.Err? ==> r.error == Select(key, templateDir).error
      ensures r.Ok? ==> (r.value.Valid() && r.value.component == key
                         && r.value.host == host && r.value.templateDir == templateDir)
      ensures r.Ok? ==> r.value.slurmInstalled == (storedInstalled.Some? && storedInstalled.value)
      ensures r.Ok? ==> r.value.slurmStarted == (storedStarted.Some? && storedStarted.value)
    {
      var installed := if storedInstalled.Some? then storedInstalled.value else false;
      var started := if storedStarted.Some? then storedStarted.value else false;
      var s := Select(key, templateDir);
      if s.Err? {
        return Err(s.error);
      }
      var m := new SlurmInstallManager(host, templateDir, s.value, installed, started);
      r := Ok(m);
    }

    /** The `slurm_installed` property. */
    function SlurmInstalled(): bool
      reads this
    {
      slurmInstalled
    }

    /** The `slurm_component_started` property. */
    function SlurmComponentStarted(): bool
      reads this
    {
      slurmStarted
    }

    method SlurmSystemctl(op: string) returns (o: Outcome)
      modifies this, host
      ensures P.Step(State(), o) == P.SlurmSystemctl(old(State()), component, op)
    {
      if op !in ["start", "stop", "restart"] {
        return Fail(UnsupportedOperation("Unsupported systemctl command for " + component));
      }
      host.Call(Systemctl(op, component));
      if op == "start" {
        slurmStarted := true;
      }
      o := Pass;
    }

    /** `write_config`. The source reads the template name from
        `self.slurm_config_template` and the hostname from `self._hostname`,
        neither of which the class defines; the template here is the one
        `__init__` stores, and the hostname is a parameter. The settings
        are the dispatch's (`Valid`), so the template is never the target
        and a second write overwrites the first (WriteConfigTwice). */
    method WriteConfig(context: P.ContextArg, hostname: string, render: P.Renderer) returns (o: Outcome)
      requires Valid()
      modifies host
      ensures P.Step(State(), o) == P.WriteConfig(old(State()), Settings(), templateDir, context, hostname, render)
    {
      var source := templateDir + [confTemplate];
      if context.NotADict? {
        return Fail(ContextNotADict);
      }
      var ctxt := P.MergeContext(hostname, context.entries);
      if source !in host.fs {
        return Fail(TemplateMissing);
      }
      if host.fs[source].Dir? {
        return Fail(TemplateNotFound(confTemplate));
      }
      var rendered := render(host.fs[source].text, ctxt);
      if Exists(host.fs, confTarget) {
        o := host.Unlink(confTarget);
        if o != Pass {
          return;
        }
      }
      o := host.WriteText(confTarget, rendered);
    }

    method ChownSlurmUserAndGroupRecursive(dir: Path)
      modifies host
      ensures State() == P.ChownSlurm(old(State()), dir)
    {
      host.Call(ChownRecursive(SlurmUser, SlurmGroup, dir));
    }

    method CreateSlurmUserAndGroup()
      modifies host
      ensures State() == P.CreateSlurmUserAndGroup(old(State()))
    {
      host.Call(GroupAdd(SlurmGid, SlurmUser));
      host.Call(UserAdd(SlurmGroup, SlurmUid, SlurmUser));
    }

    /** One directory loop: mkdir, then chown, for each directory in turn. */
    method MakeDirs(dirs: seq<Path>) returns (o: Outcome)
      modifies host
      ensures P.Step(State(), o) == P.MkdirsChown(old(State()), dirs)
    {
      for i := 0 to |dirs|
        invariant P.MkdirsChown(old(State()), dirs) == P.MkdirsChown(State(), dirs[i..])
      {
        assert dirs[i..][1..] == dirs[i + 1..];
        o := host.Mkdir(dirs[i]);
        if o != Pass {
          return;
        }
        ChownSlurmUserAndGroupRecursive(dirs[i]);
      }
      o := Pass;
    }

    /** One touch loop over the files in turn. */
    method TouchFiles(files: seq<Path>) returns (o: Outcome)
      modifies host
      ensures P.Step(State(), o) == P.TouchAll(old(State()), files)
    {
      for i := 0 to |files|
        invariant P.TouchAll(old(State()), files) == P.TouchAll(State(), files[i..])
      {
        assert files[i..][1..] == files[i + 1..];
        o := host.Touch(files[i]);
        if o != Pass {
          return;
        }
      }
      o := Pass;
    }

    method PrepareForSlurmd() returns (o: Outcome)
      modifies host
      ensures P.Step(State(), o) == P.PrepareForSlurmd(old(State()))
    {
      o := MakeDirs(SlurmdDirs);
      if o != Pass {
        return;
      }
      o := TouchFiles(SlurmdFiles);
      if o != Pass {
        return;
      }
      ChownSlurmUserAndGroupRecursive(SlurmdStateDir);
    }

    method PrepareFilesystem() returns (o: Outcome)
      modifies host
      ensures P.Step(State(), o) == P.PrepareFilesystem(old(State()), component)
    {
      o := MakeDirs(GenericDirs);
      if o != Pass {
        return;
      }
      if component == "slurmd" {
        o := PrepareForSlurmd();
      }
    }

    /** `fetched` is what the resource fetch returned, None when it raised.
        A method cannot run for ever, so this one is for the runs whose wait
        ends: the readiness file is on the host already or appears in one of
        the batches that land between sleeps. The function it follows also
        gives the runs that never return. */
    method ProvisionSlurmResource(fetched: Option<Path>, batches: seq<Fs>) returns (o: Outcome)
      requires fetched.Some? ==> ReadinessFile in host.fs.Keys + P.Landed(batches).Keys
      modifies host
      ensures P.Step(State(), o) == P.ProvisionSlurmResource(old(State()), fetched, batches)
    {
      if fetched.None? {
        return Fail(UnboundResourcePath);
      }
      host.Call(Untar(fetched.value, ResourceStaging));
      AwaitReadiness(batches);
      CopySubtrees();
      o := Pass;
    }

    /** The polling loop: sleep while the readiness file is missing. */
    method AwaitReadiness(batches: seq<Fs>)
      requires ReadinessFile in host.fs.Keys + P.Landed(batches).Keys
      modifies host
      ensures host.fs == P.AwaitReadiness(old(host.fs), batches) && host.log == old(host.log)
      ensures ReadinessFile in host.fs
    {
      var i := 0;
      while ReadinessFile !in host.fs
        invariant i <= |batches|
        invariant ReadinessFile in host.fs.Keys + P.Landed(batches[i..]).Keys
        invariant P.AwaitReadiness(host.fs, batches[i..]) == P.AwaitReadiness(old(host.fs), batches)
        invariant host.log == old(host.log)
        decreases |batches| - i
      {
        assert batches[i..][1..] == batches[i + 1..];
        host.Sleep(batches[i]);
        i := i + 1;
      }
    }

    /** The copy loop over bin, sbin, lib and include, which only runs once
        the readiness file is there. */
    method CopySubtrees()
      requires ReadinessFile in host.fs
      modifies host
      ensures host.fs == old(host.fs) && host.log == old(host.log) + P.SubtreeCopies(ResourceSubtrees)
    {
      for k := 0 to |ResourceSubtrees|
        invariant host.log + P.SubtreeCopies(ResourceSubtrees[k..]) == old(host.log) + P.SubtreeCopies(ResourceSubtrees)
        invariant host.fs == old(host.fs)
      {
        var d := ResourceSubtrees[k];
        assert ResourceSubtrees[k..][1..] == ResourceSubtrees[k + 1..];
        host.Call(CopyTreeContents(ResourceStaging + [d], UsrLocal + [d]));
      }
    }

    method SetLdLibraryPath() returns (o: Outcome)
      modifies host
      ensures P.Step(State(), o) == P.SetLdLibraryPath(old(State()))
    {
      o := host.WriteText(LdConfFile, LdConfText);
      if o != Pass {
        return;
      }
      host.Call(Ldconfig);
    }

    method SetupSystemd() returns (o: Outcome)
      requires Valid()
      modifies this, host
      ensures P.Step(State(), o) == P.SetupSystemd(old(State()), Settings())
    {
      host.Call(CopyFile(unitSource, unitTarget));
      host.Call(DaemonReload);
      o := SlurmSystemctl("enable");
    }

    /** The whole installation. It ends by raising at "enable", so the
        installed flag is never set. */
    method PrepareSystemForSlurm(fetched: Option<Path>, batches: seq<Fs>) returns (o: Outcome)
      requires Valid()
      requires fetched.Some? ==> ReadinessFile in host.fs.Keys + P.Landed(batches).Keys
      modifies this, host
      ensures P.Step(State(), o) == P.PrepareSystemForSlurm(old(State()), Settings(), fetched, batches)
      ensures o.Fail? && slurmInstalled == old(slurmInstalled)
    {
      F.PrepareSystemNeverInstalls(State(), Settings(), fetched, batches);
      CreateSlurmUserAndGroup();
      F.PrepareFilesystemKeeps(State(), component);
      o := PrepareFilesystem();
      if o != Pass {
        return;
      }
      o := ProvisionSlurmResource(fetched, batches);
      if o != Pass {
        return;
      }
      o := SetLdLibraryPath();
      if o != Pass {
        return;
      }
      o := SetupSystemd();
      if o != Pass {
        return;
      }
      // Unreachable: SetupSystemd asks for "enable", which SlurmSystemctl
      // rejects, so the flag below the call is never stored.
      assert false;
    }
  }
}
