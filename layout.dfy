/** The fixed names and paths of the install manager: the service account,
    the directory and state-file manifests, the resource staging area and the
    dynamic linker configuration. */
module Layout {
  import opened Paths

  const SlurmUser := "slurm"
  const SlurmUid := 995
  const SlurmGroup := "slurm"
  const SlurmGid := 995

  const SlurmConfDir: Path := ["etc", "slurm"]

  /** Directories every component gets. */
  const GenericDirs: seq<Path> := [["etc", "sysconfig", "slurm"], ["var", "log", "slurm"]]

  /** Directories only the compute-node daemon gets. */
  const SlurmdDirs: seq<Path> :=
    [["var", "spool", "slurmd"], ["var", "run", "slurmd"], ["var", "lib", "slurmd"], ["etc", "slurm"]]

  const SlurmdStateDir: Path := ["var", "lib", "slurmd"]

  /** Empty state files the compute-node daemon gets. */
  const SlurmdFiles: seq<Path> := [
    ["var", "lib", "slurmd", "node_state"],
    ["var", "lib", "slurmd", "front_end_state"],
    ["var", "lib", "slurmd", "job_state"],
    ["var", "lib", "slurmd", "resv_state"],
    ["var", "lib", "slurmd", "trigger_state"],
    ["var", "lib", "slurmd", "assoc_mgr_state"],
    ["var", "lib", "slurmd", "assoc_usage"],
    ["var", "lib", "slurmd", "qos_usage"],
    ["var", "lib", "slurmd", "fed_mgr_state"]
  ]

  /** Where the resource archive is unpacked, and the file whose presence says
      the unpacking is complete. */
  const ResourceStaging: Path := ["tmp", "slurm-resource"]
  const ReadinessFile: Path := ["tmp", "slurm-resource", "sbin", "slurmd"]

  /** The subtrees copied from the staging area into /usr/local, in order. */
  const ResourceSubtrees: seq<string> := ["bin", "sbin", "lib", "include"]
  const UsrLocal: Path := ["usr", "local"]

  const LdConfDir: Path := ["etc", "ld.so.conf.d"]
  const LdConfFile: Path := ["etc", "ld.so.conf.d", "slurm.conf"]
  const LdConfText := "/usr/local/lib/slurm"

  /** The directories the filesystem step creates for a component, in order. */
  function ManifestDirs(component: string): seq<Path> {
    if component == "slurmd" then GenericDirs + SlurmdDirs else GenericDirs
  }

  /** No directory of the list is the same as, or an ancestor of, one listed
      before it, so creating them in order never meets one already made. */
  ghost predicate Independent(dirs: seq<Path>) {
    forall i, j :: 0 <= j < i < |dirs| ==> dirs[i] != dirs[j] && dirs[i] !in Ancestors(dirs[j])
  }

  /** The slurmd manifest: four directories and nine state files, each of
      which lies directly in the state directory, itself one of the four. */
  lemma SlurmdManifestShape()
    ensures |SlurmdDirs| == 4 && |SlurmdFiles| == 9
    ensures SlurmdStateDir in SlurmdDirs
    ensures forall f <- SlurmdFiles :: f != [] && Parent(f) == SlurmdStateDir
  {
  }

  /** Each manifest can be created in one pass on a host that has none of it. */
  lemma ManifestIndependent(component: string)
    ensures Independent(ManifestDirs(component))
  {
    var dirs := ManifestDirs(component);
    var names := seq(|dirs|, k requires 0 <= k < |dirs| => dirs[k][1]);
    assert names == if component == "slurmd" then ["sysconfig", "log", "spool", "run", "lib", "slurm"]
                    else ["sysconfig", "log"];
    forall i, j | 0 <= j < i < |dirs|
      ensures dirs[i] != dirs[j] && dirs[i] !in Ancestors(dirs[j])
    {
      assert names[i] != names[j];
      assert |dirs[i]| >= 2;
    }
  }
}
