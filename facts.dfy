/** What the install manager's operations promise, proved about the functions
    of Provisioning. */
module ProvisioningFacts {
  import opened Paths
  import opened Results
  import opened Filesystem
  import opened Commands
  import opened Layout
  import opened Component
  import opened Provisioning

  /** None of dirs exists yet and none lies below a regular file. */
  ghost predicate Fresh(fs: Fs, dirs: seq<Path>) {
    forall i :: 0 <= i < |dirs| ==> !Exists(fs, dirs[i]) && !UnderFile(fs, dirs[i])
  }

  /** The commands the filesystem step issues for a component, in order. */
  function FilesystemLog(component: string): seq<Command> {
    Chowns(ManifestDirs(component))
      + if component == "slurmd" then [ChownRecursive(SlurmUser, SlurmGroup, SlurmdStateDir)] else []
  }

  /** The state files the filesystem step creates for a component. */
  function ManifestFiles(component: string): set<Path> {
    if component == "slurmd" then set f | f in SlurmdFiles else {}
  }

  // ---------------------------------------------------------------- systemctl

  /** An operation outside start, stop and restart raises before any command
      is issued and changes nothing; the others issue `systemctl <op>
      <component>`. Only start touches the started flag, and it sets it
      whatever systemctl's exit code: nothing ever resets it. */
  lemma SlurmSystemctlContract(m: Machine, component: string, op: string)
    ensures var r := SlurmSystemctl(m, component, op);
      && (op !in SystemctlOps ==>
            r == Step(m, Fail(UnsupportedOperation("Unsupported systemctl command for " + component))))
      && (op in SystemctlOps ==>
            && r.outcome == Pass
            && r.m.fs == m.fs && r.m.installed == m.installed
            && r.m.log == m.log + [Systemctl(op, component)])
      && (op == "start" ==> r.m.started)
      && (op != "start" ==> r.m.started == m.started)
  {
  }

  /** "enable", which _setup_systemd asks for, is not one of the accepted
      operations: it raises and changes nothing. */
  lemma EnableRejected(m: Machine, component: string)
    ensures SlurmSystemctl(m, component, "enable")
      == Step(m, Fail(UnsupportedOperation("Unsupported systemctl command for " + component)))
  {
    assert "enable" !in SystemctlOps;
  }

  // ------------------------------------------------------------- write_config

  /** A context that is not a dict, or a template that is not there, raises
      before the target is deleted or written: nothing changes. */
  lemma WriteConfigRejects(m: Machine, s: Settings, templateDir: Path, context: ContextArg,
                           hostname: string, render: Renderer)
    ensures context.NotADict? ==>
      WriteConfig(m, s, templateDir, context, hostname, render) == Step(m, Fail(ContextNotADict))
    ensures context.Dict? && templateDir + [s.confTemplate] !in m.fs ==>
      WriteConfig(m, s, templateDir, context, hostname, render) == Step(m, Fail(TemplateMissing))
  {
  }

  /** With a dict context and a template file, the write succeeds exactly when
      the target is not a directory and its directory exists; the target then
      holds exactly the rendering of the merged context, and nothing else on
      the host changes. */
  lemma WriteConfigWrites(m: Machine, s: Settings, templateDir: Path, context: ContextArg,
                          hostname: string, render: Renderer)
    requires context.Dict?
    requires templateDir + [s.confTemplate] in m.fs && m.fs[templateDir + [s.confTemplate]].File?
    ensures var r := WriteConfig(m, s, templateDir, context, hostname, render);
      && (r.outcome.Pass? <==> !IsDir(m.fs, s.confTarget) && IsDir(m.fs, Parent(s.confTarget)))
      && (r.outcome.Pass? ==>
            r.m == m.(fs := m.fs[s.confTarget := File(render(m.fs[templateDir + [s.confTemplate]].text,
                                                                MergeContext(hostname, context.entries)))]))
  {
    var target := s.confTarget;
    if target != [] && target in m.fs && m.fs[target].File? {
      var cleared := m.fs - {target};
      assert Parent(target) != target;
      assert IsDir(cleared, Parent(target)) == IsDir(m.fs, Parent(target));
    }
  }

  /** Writing the config twice leaves the second rendering at the target, as if
      the first had never happened. */
  lemma WriteConfigTwice(m: Machine, key: string, templateDir: Path, first: ContextArg, second: ContextArg,
                         hostname: string, render: Renderer)
    requires key in Components
    requires second.Dict?
    requires WriteConfig(m, Select(key, templateDir).value, templateDir, first, hostname, render).outcome.Pass?
    ensures var s := Select(key, templateDir).value;
      var once := WriteConfig(m, s, templateDir, first, hostname, render);
      var twice := WriteConfig(once.m, s, templateDir, second, hostname, render);
      && twice.outcome.Pass?
      && twice.m == m.(fs := m.fs[s.confTarget := File(render(m.fs[templateDir + [s.confTemplate]].text,
                                                               MergeContext(hostname, second.entries)))])
  {
    var s := Select(key, templateDir).value;
    var source := templateDir + [s.confTemplate];
    TemplateIsNotTarget(key, templateDir);
    WriteConfigWrites(m, s, templateDir, first, hostname, render);
    var once := WriteConfig(m, s, templateDir, first, hostname, render);
    assert once.m.fs[source] == m.fs[source];
    WriteConfigWrites(once.m, s, templateDir, second, hostname, render);
  }

  // ---------------------------------------------------- directory and file loops

  /** Every directory of the list is in its closure. */
  lemma {:induction false} InClosure(dirs: seq<Path>, i: nat)
    requires i < |dirs|
    ensures dirs[i] in Closure(dirs)
  {
    if i > 0 {
      InClosure(dirs[1..], i - 1);
    }
  }

  /** A path is in the closure of dirs exactly when it is one of them or an
      ancestor of one. */
  lemma {:induction false} ClosureMembers(dirs: seq<Path>, p: Path)
    ensures p in Closure(dirs) <==> exists i :: 0 <= i < |dirs| && (p == dirs[i] || p in Ancestors(dirs[i]))
  {
    if dirs != [] {
      ClosureMembers(dirs[1..], p);
      if p in Closure(dirs[1..]) {
        var i :| 0 <= i < |dirs[1..]| && (p == dirs[1..][i] || p in Ancestors(dirs[1..][i]));
        assert dirs[i + 1] == dirs[1..][i];
      }
      if exists i :: 0 <= i < |dirs| && (p == dirs[i] || p in Ancestors(dirs[i])) {
        var i :| 0 <= i < |dirs| && (p == dirs[i] || p in Ancestors(dirs[i]));
        if i > 0 {
          assert dirs[1..][i - 1] == dirs[i];
        }
      }
    }
  }

  /** Running the directory loop over a + b is running it over a and then,
      unless that raised, over b. */
  lemma {:induction false} MkdirsChownAppend(m: Machine, a: seq<Path>, b: seq<Path>)
    decreases |a|
    ensures MkdirsChown(m, a + b) ==
      (var first := MkdirsChown(m, a); if first.outcome != Pass then first else MkdirsChown(first.m, b))
  {
    if a == [] {
      assert a + b == b;
    } else {
      assert (a + b)[0] == a[0];
      assert (a + b)[1..] == a[1..] + b;
      var made := Mkdir(m.fs, a[0]);
      if made.Ok? {
        MkdirsChownAppend(ChownSlurm(m.(fs := made.value), a[0]), a[1..], b);
      }
    }
  }

  /** The directory loop returns or raises; it never changes an entry that
      was there, nor the flags; when it returns, every directory of the list
      is a directory. */
  lemma {:induction false} MkdirsChownKeeps(m: Machine, dirs: seq<Path>)
    decreases |dirs|
    ensures var r := MkdirsChown(m, dirs);
      && r.outcome != Hang
      && r.m.installed == m.installed && r.m.started == m.started
      && (forall p :: p in m.fs ==> p in r.m.fs && r.m.fs[p] == m.fs[p])
      && (r.outcome.Pass? ==> forall i :: 0 <= i < |dirs| ==> IsDir(r.m.fs, dirs[i]))
  {
    if dirs != [] {
      var made := Mkdir(m.fs, dirs[0]);
      if made.Ok? {
        var m1 := ChownSlurm(m.(fs := made.value), dirs[0]);
        MkdirsChownKeeps(m1, dirs[1..]);
        var r := MkdirsChown(m, dirs);
        if r.outcome.Pass? {
          forall i | 0 <= i < |dirs| ensures IsDir(r.m.fs, dirs[i]) {
            if i > 0 {
              assert dirs[1..][i - 1] == dirs[i];
            }
          }
        }
      }
    }
  }

  /** If a directory of the list already exists, the loop raises: mkdir
      without exist_ok is not re-runnable. */
  lemma {:induction false} MkdirsChownExisting(m: Machine, dirs: seq<Path>, k: nat)
    requires k < |dirs| && Exists(m.fs, dirs[k])
    decreases k
    ensures MkdirsChown(m, dirs).outcome.Fail?
  {
    var made := Mkdir(m.fs, dirs[0]);
    if k > 0 && made.Ok? {
      assert dirs[1..][k - 1] == dirs[k];
      MkdirsChownExisting(ChownSlurm(m.(fs := made.value), dirs[0]), dirs[1..], k - 1);
    }
  }

  /** Creating the first directory of an independent, fresh list leaves the
      rest of the list fresh: mkdir adds only directories, none of them one
      still to be made. */
  lemma FreshAfterFirst(fs: Fs, dirs: seq<Path>)
    requires dirs != [] && Fresh(fs, dirs) && Independent(dirs)
    ensures Fresh(fs + Dirs(Ancestors(dirs[0]) + {dirs[0]}), dirs[1..]) && Independent(dirs[1..])
  {
    var fs1 := fs + Dirs(Ancestors(dirs[0]) + {dirs[0]});
    var rest := dirs[1..];
    forall i | 0 <= i < |rest|
      ensures !Exists(fs1, rest[i]) && !UnderFile(fs1, rest[i])
    {
      assert rest[i] == dirs[i + 1];
      assert dirs[i + 1] != dirs[0] && dirs[i + 1] !in Ancestors(dirs[0]);
      assert !UnderFile(fs, dirs[i + 1]);
    }
    forall i, j | 0 <= j < i < |rest|
      ensures rest[i] != rest[j] && rest[i] !in Ancestors(rest[j])
    {
      assert rest[i] == dirs[i + 1] && rest[j] == dirs[j + 1];
    }
  }

  /** One more chown in front of the rest is the chowns of the whole list. */
  lemma ChownsStep(log: seq<Command>, dirs: seq<Path>)
    requires dirs != []
    ensures log + [ChownRecursive(SlurmUser, SlurmGroup, dirs[0])] + Chowns(dirs[1..]) == log + Chowns(dirs)
  {
  }

  /** Laying two sets of directories one after the other lays their union. */
  lemma DirsUnion(fs: Fs, a: set<Path>, b: set<Path>)
    ensures fs + Dirs(a) + Dirs(b) == fs + Dirs(a + b)
  {
  }

  /** On a host where none of the directories exists and none lies below a
      regular file, and where no directory is listed after one of its
      descendants, the loop returns having created exactly those directories
      and their ancestors and issued one chown per directory, in order. */
  lemma {:induction false} MkdirsChownCreates(m: Machine, dirs: seq<Path>)
    requires Fresh(m.fs, dirs) && Independent(dirs)
    ensures MkdirsChown(m, dirs) == Step(m.(fs := m.fs + Dirs(Closure(dirs)), log := m.log + Chowns(dirs)), Pass)
    decreases |dirs|
  {
    if dirs != [] {
      var d := dirs[0];
      assert !Exists(m.fs, d) && !UnderFile(m.fs, d);
      var fs1 := m.fs + Dirs(Ancestors(d) + {d});
      assert Mkdir(m.fs, d) == Ok(fs1);
      var m1 := ChownSlurm(m.(fs := fs1), d);
      assert MkdirsChown(m, dirs) == MkdirsChown(m1, dirs[1..]);
      FreshAfterFirst(m.fs, dirs);
      MkdirsChownCreates(m1, dirs[1..]);
      DirsUnion(m.fs, Ancestors(d) + {d}, Closure(dirs[1..]));
      assert Closure(dirs) == Ancestors(d) + {d} + Closure(dirs[1..]);
      assert fs1 + Dirs(Closure(dirs[1..])) == m.fs + Dirs(Closure(dirs));
      ChownsStep(m.log, dirs);
    }
  }

  /** The touch loop returns or raises; it never changes an entry that was
      there, the log or the flags; when it returns, every file of the list
      exists. */
  lemma {:induction false} TouchAllKeeps(m: Machine, files: seq<Path>)
    decreases |files|
    ensures var r := TouchAll(m, files);
      && r.outcome != Hang
      && r.m.log == m.log && r.m.installed == m.installed && r.m.started == m.started
      && (forall p :: p in m.fs ==> p in r.m.fs && r.m.fs[p] == m.fs[p])
      && (r.outcome.Pass? ==> forall i :: 0 <= i < |files| ==> Exists(r.m.fs, files[i]))
  {
    if files != [] {
      var touched := Touch(m.fs, files[0]);
      if touched.Ok? {
        TouchAllKeeps(m.(fs := touched.value), files[1..]);
        var r := TouchAll(m, files);
        if r.outcome.Pass? {
          forall i | 0 <= i < |files| ensures Exists(r.m.fs, files[i]) {
            if i > 0 {
              assert files[1..][i - 1] == files[i];
            }
          }
        }
      }
    }
  }

  /** When every file's directory exists, the touch loop returns having added
      exactly the missing files, each empty. */
  lemma {:induction false} TouchAllCreates(m: Machine, files: seq<Path>)
    decreases |files|
    requires forall f <- files :: f != [] && IsDir(m.fs, Parent(f))
    ensures var r := TouchAll(m, files);
      && r.outcome == Pass
      && r.m == m.(fs := r.m.fs)
      && r.m.fs.Keys == m.fs.Keys + (set f | f in files)
      && (forall p :: p in m.fs ==> r.m.fs[p] == m.fs[p])
      && (forall f :: f in files && f !in m.fs ==> r.m.fs[f] == File(""))
  {
    if files != [] {
      var fs1 := Touch(m.fs, files[0]).value;
      var m1 := m.(fs := fs1);
      forall f <- files[1..] ensures f != [] && IsDir(fs1, Parent(f)) {
        assert f in files;
      }
      TouchAllCreates(m1, files[1..]);
      var r := TouchAll(m, files);
      assert r == TouchAll(m1, files[1..]);
      assert (set f | f in files) == {files[0]} + (set f | f in files[1..]);
      forall f | f in files && f !in m.fs ensures r.m.fs[f] == File("") {
        if f != files[0] {
          assert f in files[1..];
        }
      }
    }
  }

  // ------------------------------------------------------ _prepare_filesystem

  /** The manifest directories are short paths, none of them under the
      dynamic linker's configuration directory. */
  lemma ManifestPaths(component: string)
    ensures forall p :: p in Closure(ManifestDirs(component)) ==> 0 < |p| <= 3 && p != LdConfFile
  {
    var dirs := ManifestDirs(component);
    ManifestDirsShort(component);
    forall p | p in Closure(dirs) ensures 0 < |p| <= 3 && p != LdConfFile {
      ClosureMembers(dirs, p);
      var i :| 0 <= i < |dirs| && (p == dirs[i] || p in Ancestors(dirs[i]));
    }
  }

  /** Each manifest directory has two or three components, the second of
      which is never ld.so.conf.d. */
  lemma ManifestDirsShort(component: string)
    ensures forall d <- ManifestDirs(component) :: 2 <= |d| <= 3 && d[1] != "ld.so.conf.d"
  {
  }

  /** The filesystem step never changes an entry that was there, nor the
      flags, whether it returns or raises. */
  lemma PrepareFilesystemKeeps(m: Machine, component: string)
    ensures var r := PrepareFilesystem(m, component);
      && r.outcome != Hang
      && r.m.installed == m.installed && r.m.started == m.started
      && (forall p :: p in m.fs ==> p in r.m.fs && r.m.fs[p] == m.fs[p])
  {
    var generic := MkdirsChown(m, GenericDirs);
    MkdirsChownKeeps(m, GenericDirs);
    if generic.outcome.Pass? && component == "slurmd" {
      var slurmd := MkdirsChown(generic.m, SlurmdDirs);
      MkdirsChownKeeps(generic.m, SlurmdDirs);
      if slurmd.outcome.Pass? {
        TouchAllKeeps(slurmd.m, SlurmdFiles);
      }
    }
  }

  /** Two directory loops and a touch loop that all return leave every
      directory of both lists a directory and every file present. */
  lemma LayoutChain(m: Machine, a: seq<Path>, b: seq<Path>, files: seq<Path>, last: Path)
    requires MkdirsChown(m, a).outcome.Pass?
    requires MkdirsChown(MkdirsChown(m, a).m, b).outcome.Pass?
    requires TouchAll(MkdirsChown(MkdirsChown(m, a).m, b).m, files).outcome.Pass?
    ensures var r := ChownSlurm(TouchAll(MkdirsChown(MkdirsChown(m, a).m, b).m, files).m, last).fs;
      && (forall i :: 0 <= i < |a| ==> IsDir(r, a[i]))
      && (forall i :: 0 <= i < |b| ==> IsDir(r, b[i]))
      && (forall i :: 0 <= i < |files| ==> Exists(r, files[i]))
  {
    var first := MkdirsChown(m, a);
    var second := MkdirsChown(first.m, b);
    var third := TouchAll(second.m, files);
    MkdirsChownKeeps(m, a);
    MkdirsChownKeeps(first.m, b);
    TouchAllKeeps(second.m, files);
    assert ChownSlurm(third.m, last).fs == third.m.fs;
  }

  /** When the filesystem step returns, every manifest directory is a
      directory and, for slurmd, every state file exists. */
  lemma PrepareFilesystemLayout(m: Machine, component: string)
    requires PrepareFilesystem(m, component).outcome.Pass?
    ensures var r := PrepareFilesystem(m, component);
      && (forall i :: 0 <= i < |ManifestDirs(component)| ==> IsDir(r.m.fs, ManifestDirs(component)[i]))
      && (component == "slurmd" ==> forall i :: 0 <= i < |SlurmdFiles| ==> Exists(r.m.fs, SlurmdFiles[i]))
  {
    var generic := MkdirsChown(m, GenericDirs);
    if component == "slurmd" {
      var slurmd := MkdirsChown(generic.m, SlurmdDirs);
      var files := TouchAll(slurmd.m, SlurmdFiles);
      var fs := ChownSlurm(files.m, SlurmdStateDir).fs;
      assert PrepareFilesystem(m, component) == PrepareForSlurmd(generic.m);
      assert slurmd.outcome.Pass? && files.outcome.Pass?;
      assert PrepareFilesystem(m, component).m.fs == fs;
      LayoutChain(m, GenericDirs, SlurmdDirs, SlurmdFiles, SlurmdStateDir);
      var dirs := ManifestDirs(component);
      assert dirs == GenericDirs + SlurmdDirs;
      forall i | 0 <= i < |dirs| ensures IsDir(fs, dirs[i]) {
        if i < |GenericDirs| {
          assert dirs[i] == GenericDirs[i];
        } else {
          assert dirs[i] == SlurmdDirs[i - |GenericDirs|];
        }
      }
    } else {
      MkdirsChownKeeps(m, GenericDirs);
    }
  }

  /** The directory loop raises at once, changing nothing, when its first
      directory already exists. */
  lemma MkdirsChownFirstExists(m: Machine, dirs: seq<Path>)
    requires dirs != [] && Exists(m.fs, dirs[0])
    ensures MkdirsChown(m, dirs) == Step(m, Fail(FileExists(dirs[0])))
  {
  }

  /** On a host that has none of the component's manifest directories (and no
      regular file in their way), the filesystem step returns having created
      exactly the manifest directories with their ancestors and, for slurmd
      only, the nine empty state files, and having issued the chowns in order. */
  lemma PrepareFilesystemCreates(m: Machine, component: string)
    requires Fresh(m.fs, ManifestDirs(component))
    ensures var r := PrepareFilesystem(m, component);
      && r.outcome == Pass
      && r.m.log == m.log + FilesystemLog(component)
      && r.m.installed == m.installed && r.m.started == m.started
      && r.m.fs.Keys == m.fs.Keys + Closure(ManifestDirs(component)) + ManifestFiles(component)
      && (forall p :: p in m.fs ==> r.m.fs[p] == m.fs[p])
      && (forall p :: p in Closure(ManifestDirs(component)) && p !in m.fs ==> r.m.fs[p] == Dir)
      && (forall f :: f in ManifestFiles(component) && f !in m.fs ==> r.m.fs[f] == File(""))
  {
    if component == "slurmd" {
      SlurmdFilesystemLog(m, component);
      SlurmdFilesystemContents(m, component);
    } else {
      OtherFilesystemCreates(m, component);
    }
  }

  /** The case of PrepareFilesystemCreates for the roles other than slurmd:
      only the two generic directories. */
  lemma OtherFilesystemCreates(m: Machine, component: string)
    requires component != "slurmd"
    requires Fresh(m.fs, ManifestDirs(component))
    ensures var r := PrepareFilesystem(m, component);
      && r.outcome == Pass
      && r.m.log == m.log + FilesystemLog(component)
      && r.m.installed == m.installed && r.m.started == m.started
      && r.m.fs.Keys == m.fs.Keys + Closure(ManifestDirs(component)) + ManifestFiles(component)
      && (forall p :: p in m.fs ==> r.m.fs[p] == m.fs[p])
      && (forall p :: p in Closure(ManifestDirs(component)) && p !in m.fs ==> r.m.fs[p] == Dir)
      && ManifestFiles(component) == {}
  {
    var dirs := ManifestDirs(component);
    ManifestIndependent(component);
    MkdirsChownCreates(m, dirs);
    MkdirsChownKeeps(m, dirs);
    assert FilesystemLog(component) == Chowns(dirs);
    assert PrepareFilesystem(m, component) == MkdirsChown(m, dirs);
  }

  /** For slurmd the directory loops create all six directories in one go,
      and the state files are touched in the result. */
  lemma SlurmdSteps(m: Machine)
    requires Fresh(m.fs, ManifestDirs("slurmd"))
    ensures var dirs := ManifestDirs("slurmd");
      var made := m.(fs := m.fs + Dirs(Closure(dirs)), log := m.log + Chowns(dirs));
      && TouchAll(made, SlurmdFiles).outcome == Pass
      && PrepareFilesystem(m, "slurmd") == Step(ChownSlurm(TouchAll(made, SlurmdFiles).m, SlurmdStateDir), Pass)
      && (forall f <- SlurmdFiles :: f != [] && IsDir(made.fs, Parent(f)))
      && (forall p :: p in m.fs ==> made.fs[p] == m.fs[p])
  {
    var dirs := ManifestDirs("slurmd");
    ManifestIndependent("slurmd");
    MkdirsChownCreates(m, dirs);
    MkdirsChownAppend(m, GenericDirs, SlurmdDirs);
    var generic := MkdirsChown(m, GenericDirs);
    var made := MkdirsChown(m, dirs).m;
    assert MkdirsChown(generic.m, SlurmdDirs) == Step(made, Pass);
    SlurmdManifestShape();
    assert SlurmdStateDir == dirs[4];
    InClosure(dirs, 4);
    assert IsDir(made.fs, SlurmdStateDir);
    TouchAllCreates(made, SlurmdFiles);
    assert PrepareFilesystem(m, "slurmd") == PrepareForSlurmd(generic.m);
    MkdirsChownKeeps(m, dirs);
  }

  /** The slurmd case of PrepareFilesystemCreates, for the commands: the
      state directory is chowned once more, after all the directory chowns. */
  lemma SlurmdFilesystemLog(m: Machine, component: string)
    requires component == "slurmd"
    requires Fresh(m.fs, ManifestDirs(component))
    ensures var r := PrepareFilesystem(m, component);
      && r.outcome == Pass
      && r.m.log == m.log + FilesystemLog(component)
      && r.m.installed == m.installed && r.m.started == m.started
  {
    var dirs := ManifestDirs("slurmd");
    var made := m.(fs := m.fs + Dirs(Closure(dirs)), log := m.log + Chowns(dirs));
    SlurmdSteps(m);
    TouchAllCreates(made, SlurmdFiles);
    var chown := ChownRecursive(SlurmUser, SlurmGroup, SlurmdStateDir);
    assert FilesystemLog("slurmd") == Chowns(dirs) + [chown];
    LogAssoc(m.log, Chowns(dirs), [chown]);
  }

  /** The slurmd case of PrepareFilesystemCreates, for the filesystem: the
      six directories with their ancestors, then the nine empty state files. */
  lemma SlurmdFilesystemContents(m: Machine, component: string)
    requires component == "slurmd"
    requires Fresh(m.fs, ManifestDirs(component))
    ensures var r := PrepareFilesystem(m, component);
      && r.m.fs.Keys == m.fs.Keys + Closure(ManifestDirs(component)) + ManifestFiles(component)
      && (forall p :: p in m.fs ==> r.m.fs[p] == m.fs[p])
      && (forall p :: p in Closure(ManifestDirs(component)) && p !in m.fs ==> r.m.fs[p] == Dir)
      && (forall f :: f in ManifestFiles(component) && f !in m.fs ==> r.m.fs[f] == File(""))
  {
    var dirs := ManifestDirs("slurmd");
    var made := m.(fs := m.fs + Dirs(Closure(dirs)), log := m.log + Chowns(dirs));
    SlurmdSteps(m);
    TouchAllCreates(made, SlurmdFiles);
    var fs := TouchAll(made, SlurmdFiles).m.fs;
    assert PrepareFilesystem(m, "slurmd").m.fs == fs;
    SlurmdFilesAreNotDirs();
    LayerContents(m.fs, made.fs, fs, Closure(dirs), ManifestFiles("slurmd"));
  }

  /** Directories laid over a filesystem, then files laid over the result,
      none of them one of the directories. */
  lemma LayerContents(base: Fs, made: Fs, fs: Fs, dirs: set<Path>, files: set<Path>)
    requires made == base + Dirs(dirs)
    requires forall p :: p in base ==> made[p] == base[p]
    requires fs.Keys == made.Keys + files
    requires forall p :: p in made ==> fs[p] == made[p]
    requires forall f :: f in files && f !in made ==> fs[f] == File("")
    requires forall f :: f in files ==> f !in dirs
    ensures fs.Keys == base.Keys + dirs + files
    ensures forall p :: p in base ==> fs[p] == base[p]
    ensures forall p :: p in dirs && p !in base ==> fs[p] == Dir
    ensures forall f :: f in files && f !in base ==> fs[f] == File("")
  {
  }

  /** No state file is a manifest directory or an ancestor of one. */
  lemma SlurmdFilesAreNotDirs()
    ensures forall f :: f in ManifestFiles("slurmd") ==> f !in Closure(ManifestDirs("slurmd"))
  {
    SlurmdManifestShape();
    ManifestPaths("slurmd");
    forall f | f in ManifestFiles("slurmd")
      ensures f !in Closure(ManifestDirs("slurmd"))
    {
      assert |f| == 4;
    }
  }

  /** `mkdir` without exist_ok makes the filesystem step one-shot: run again
      after it returned, it raises FileExistsError at the first directory and
      changes nothing. */
  lemma PrepareFilesystemNotRerunnable(m: Machine, component: string)
    requires PrepareFilesystem(m, component).outcome.Pass?
    ensures var once := PrepareFilesystem(m, component);
      PrepareFilesystem(once.m, component) == Step(once.m, Fail(FileExists(GenericDirs[0])))
  {
    var once := PrepareFilesystem(m, component);
    PrepareFilesystemLayout(m, component);
    assert IsDir(once.m.fs, ManifestDirs(component)[0]);
    MkdirsChownFirstExists(once.m, GenericDirs);
  }

  // ------------------------------------------------ _provision_slurm_resource

  /** The wait ends with the readiness file present whenever the file is
      already there or appears in one of the batches. */
  lemma {:induction false} AwaitReadinessEnds(fs: Fs, batches: seq<Fs>)
    requires ReadinessFile in fs.Keys + Landed(batches).Keys
    ensures ReadinessFile in AwaitReadiness(fs, batches)
    decreases |batches|
  {
    if ReadinessFile !in fs {
      AwaitReadinessEnds(fs + batches[0], batches[1..]);
    }
  }

  /** While waiting, only paths that land in the batches can appear or change. */
  lemma {:induction false} AwaitReadinessLands(fs: Fs, batches: seq<Fs>)
    ensures forall p :: p !in Landed(batches) ==>
      (p in AwaitReadiness(fs, batches) <==> p in fs) && (p in fs ==> AwaitReadiness(fs, batches)[p] == fs[p])
    decreases |batches|
  {
    if ReadinessFile !in fs && batches != [] {
      AwaitReadinessLands(fs + batches[0], batches[1..]);
    }
  }

  /** The copies go bin, sbin, lib, include, each from the staging area into
      the same-named directory of /usr/local. */
  lemma SubtreeCopyOrder()
    ensures SubtreeCopies(ResourceSubtrees) == [
      CopyTreeContents(["tmp", "slurm-resource", "bin"], ["usr", "local", "bin"]),
      CopyTreeContents(["tmp", "slurm-resource", "sbin"], ["usr", "local", "sbin"]),
      CopyTreeContents(["tmp", "slurm-resource", "lib"], ["usr", "local", "lib"]),
      CopyTreeContents(["tmp", "slurm-resource", "include"], ["usr", "local", "include"])]
  {
    var names := ["bin", "sbin", "lib", "include"];
    forall k | 0 <= k < 4
      ensures SubtreeCopies(names[k..]) == [CopyTreeContents(ResourceStaging + [names[k]], UsrLocal + [names[k]])] + SubtreeCopies(names[k + 1..])
    {
      assert names[k..][1..] == names[k + 1..];
    }
    assert names[4..] == [];
    forall k | 0 <= k < 4 ensures ResourceStaging + [names[k]] == ["tmp", "slurm-resource", names[k]] && UsrLocal + [names[k]] == ["usr", "local", names[k]] {
    }
    assert names[0..] == ResourceSubtrees;
  }

  /** A failed fetch leaves resource_path unbound: the step raises with no
      command issued. Otherwise it unpacks the archive into the staging area
      and waits for the readiness file. It returns exactly when the file is
      there already or lands, and only then issues the four copies; when the
      file never comes the wait never ends and no copy is issued. It changes
      no flag. */
  lemma ProvisionSlurmResourceContract(m: Machine, fetched: Option<Path>, batches: seq<Fs>)
    ensures var r := ProvisionSlurmResource(m, fetched, batches);
      && (fetched.None? ==> r == Step(m, Fail(UnboundResourcePath)))
      && (fetched.Some? ==>
            && r.m.installed == m.installed && r.m.started == m.started
            && r.m.fs == AwaitReadiness(m.fs, batches)
            && (r.outcome == Pass <==> ReadinessFile in m.fs.Keys + Landed(batches).Keys)
            && (r.outcome == Pass ==>
                  && ReadinessFile in r.m.fs
                  && r.m.log == m.log + [Untar(fetched.value, ResourceStaging)] + SubtreeCopies(ResourceSubtrees))
            && (r.outcome != Pass ==>
                  && r.outcome == Hang
                  && r.m.log == m.log + [Untar(fetched.value, ResourceStaging)]))
  {
    if fetched.Some? {
      AwaitReadinessLands(m.fs, batches);
      if ReadinessFile in m.fs.Keys + Landed(batches).Keys {
        AwaitReadinessEnds(m.fs, batches);
      }
    }
  }

  // ------------------------------------------------- prepare_system_for_slurm

  /** `_setup_systemd` asks slurm_systemctl for "enable", which it rejects,
      and nothing catches that: prepare_system_for_slurm never returns
      normally and never sets the installed flag. It raises whenever the
      readiness file is there or lands; otherwise it may instead hang in the
      resource step's wait, which needs a fetched archive. */
  lemma PrepareSystemNeverInstalls(m: Machine, s: Settings, fetched: Option<Path>, batches: seq<Fs>)
    ensures var r := PrepareSystemForSlurm(m, s, fetched, batches);
      && r.m.installed == m.installed
      && (r.outcome.Fail? || (r.outcome == Hang && fetched.Some?))
      && (ReadinessFile in m.fs.Keys + Landed(batches).Keys ==> r.outcome.Fail?)
  {
    var account := CreateSlurmUserAndGroup(m);
    var layout := PrepareFilesystem(account, s.component);
    PrepareFilesystemKeeps(account, s.component);
    if layout.outcome.Pass? {
      var resource := ProvisionSlurmResource(layout.m, fetched, batches);
      ProvisionSlurmResourceContract(layout.m, fetched, batches);
      assert ReadinessFile in m.fs ==> ReadinessFile in layout.m.fs;
      if resource.outcome.Pass? {
        var ld := SetLdLibraryPath(resource.m);
        if ld.outcome.Pass? {
          var m1 := Run(Run(ld.m, CopyFile(s.unitSource, s.unitTarget)), DaemonReload);
          assert SetupSystemd(ld.m, s) == SlurmSystemctl(m1, s.component, "enable");
          EnableRejected(m1, s.component);
        }
      }
    }
  }

  /** Regrouping appended commands. */
  lemma LogAssoc(a: seq<Command>, b: seq<Command>, c: seq<Command>)
    ensures a + b + c == a + (b + c)
  {
  }

  /** Two commands issued one after the other. */
  lemma LogPair(log: seq<Command>, a: Command, b: Command)
    ensures log + [a] + [b] == log + [a, b]
  {
  }

  /** On a fresh host with the linker configuration directory in place, a
      fetched resource whose readiness file is there or lands, and files
      landing only in the staging area, the steps run in the source's order:
      account, filesystem, resource, linker path, systemd unit, and then the
      run raises at "enable". */
  lemma PrepareSystemOrder(m: Machine, s: Settings, archive: Path, batches: seq<Fs>)
    requires Fresh(m.fs, ManifestDirs(s.component))
    requires IsDir(m.fs, LdConfDir) && !IsDir(m.fs, LdConfFile)
    requires ReadinessFile in m.fs.Keys + Landed(batches).Keys
    requires forall p :: p in Landed(batches) ==> ResourceStaging <= p
    ensures var r := PrepareSystemForSlurm(m, s, Some(archive), batches);
      && r.outcome == Fail(UnsupportedOperation("Unsupported systemctl command for " + s.component))
      && r.m.installed == m.installed && r.m.started == m.started
      && r.m.log == m.log
           + [GroupAdd(SlurmGid, SlurmUser), UserAdd(SlurmGroup, SlurmUid, SlurmUser)]
           + FilesystemLog(s.component)
           + [Untar(archive, ResourceStaging)] + SubtreeCopies(ResourceSubtrees)
           + [Ldconfig]
           + [CopyFile(s.unitSource, s.unitTarget), DaemonReload]
  {
    var account := CreateSlurmUserAndGroup(m);
    LogPair(m.log, GroupAdd(SlurmGid, SlurmUser), UserAdd(SlurmGroup, SlurmUid, SlurmUser));
    LayoutKeepsLinkerDir(account, s.component);
    var layout := PrepareFilesystem(account, s.component);
    PrepareFilesystemKeeps(account, s.component);
    assert ReadinessFile in m.fs ==> ReadinessFile in layout.m.fs;
    ResourceThenLinker(layout.m, archive, batches);
    var ld := SetLdLibraryPath(ProvisionSlurmResource(layout.m, Some(archive), batches).m);
    var m1 := Run(Run(ld.m, CopyFile(s.unitSource, s.unitTarget)), DaemonReload);
    assert SetupSystemd(ld.m, s) == SlurmSystemctl(m1, s.component, "enable");
    EnableRejected(m1, s.component);
    LogPair(ld.m.log, CopyFile(s.unitSource, s.unitTarget), DaemonReload);
  }

  /** On a fresh host, the filesystem step returns, issues its chowns, and
      leaves the linker configuration directory in place with no directory
      where the linker configuration file goes. */
  lemma LayoutKeepsLinkerDir(m: Machine, component: string)
    requires Fresh(m.fs, ManifestDirs(component))
    requires IsDir(m.fs, LdConfDir) && !IsDir(m.fs, LdConfFile)
    ensures var r := PrepareFilesystem(m, component);
      && r.outcome == Pass
      && r.m.log == m.log + FilesystemLog(component)
      && r.m.installed == m.installed && r.m.started == m.started
      && IsDir(r.m.fs, LdConfDir)
      && (LdConfFile in r.m.fs ==> r.m.fs[LdConfFile].File?)
  {
    PrepareFilesystemCreates(m, component);
    ManifestPaths(component);
    assert LdConfDir in m.fs;
    assert LdConfFile !in ManifestFiles(component) by {
      SlurmdManifestShape();
      forall f <- SlurmdFiles ensures f != LdConfFile {
        assert |Parent(f)| == 3;
      }
    }
  }

  /** With the linker configuration directory in place, the readiness file
      there or landing, and files landing only in the staging area, the
      resource step and then the linker step both return, issuing the untar,
      the four copies and ldconfig. */
  lemma ResourceThenLinker(m: Machine, archive: Path, batches: seq<Fs>)
    requires IsDir(m.fs, LdConfDir) && (LdConfFile in m.fs ==> m.fs[LdConfFile].File?)
    requires ReadinessFile in m.fs.Keys + Landed(batches).Keys
    requires forall p :: p in Landed(batches) ==> ResourceStaging <= p
    ensures var resource := ProvisionSlurmResource(m, Some(archive), batches);
      var ld := SetLdLibraryPath(resource.m);
      && resource.outcome == Pass
      && ld.outcome == Pass
      && ld.m.installed == m.installed && ld.m.started == m.started
      && ld.m.log == m.log + [Untar(archive, ResourceStaging)] + SubtreeCopies(ResourceSubtrees) + [Ldconfig]
  {
    var resource := ProvisionSlurmResource(m, Some(archive), batches);
    ProvisionSlurmResourceContract(m, Some(archive), batches);
    AwaitReadinessLands(m.fs, batches);
    assert !(ResourceStaging <= LdConfDir) && !(ResourceStaging <= LdConfFile) by {
      assert LdConfDir[0] != ResourceStaging[0] && LdConfFile[0] != ResourceStaging[0];
    }
    assert Parent(LdConfFile) == LdConfDir;
    assert resource.m.fs[LdConfDir] == m.fs[LdConfDir];
    assert LdConfFile in resource.m.fs ==> resource.m.fs[LdConfFile].File?;
  }
}
