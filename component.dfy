/** The component dispatch of `SlurmInstallManager.__init__`: which role the
    manager provisions, and the config template, config target and systemd
    unit paths that role selects. */
module Component {
  import opened Paths
  import opened Results
  import opened Layout

  /** The closed set of supported roles: compute node, REST gateway,
      controller and database daemon. */
  const Components: set<string> := {"slurmd", "slurmrestd", "slurmctld", "slurmdbd"}

  /** What the constructor derives from the role. The config template is kept
      as a file name inside the template directory. */
  datatype Settings = Settings(
    component: string,
    confTemplate: string,
    confTarget: Path,
    unitSource: Path,
    unitTarget: Path)

  function WithUnits(component: string, confTemplate: string, confTarget: Path, templateDir: Path): Settings {
    Settings(component, confTemplate, confTarget,
             templateDir + [component + ".service"],
             ["etc", "systemd", "system", component + ".service"])
  }

  /** Construction succeeds exactly for the four roles; the database daemon has
      its own template and target, every other role shares slurm.conf, and
      the unit file is named after the role. The error message is the literal
      text of the source, whose missing f-prefix leaves "{key}" uninterpolated. */
  function Select(key: string, templateDir: Path): (r: Result<Settings>)
    ensures r.Ok? <==> key in Components
    ensures r.Err? ==> r.error == UnsupportedComponent("Slurm component not supported: {key}")
    ensures r.Ok? ==> r.value.component == key
    ensures r.Ok? && key == "slurmdbd" ==>
      r.value.confTemplate == "slurmdbd.conf.tmpl" && r.value.confTarget == ["etc", "slurm", "slurmdbd.conf"]
    ensures r.Ok? && key != "slurmdbd" ==>
      r.value.confTemplate == "slurm.conf.tmpl" && r.value.confTarget == ["etc", "slurm", "slurm.conf"]
    ensures r.Ok? ==> r.value.unitSource == templateDir + [key + ".service"]
    ensures r.Ok? ==> r.value.unitTarget == ["etc", "systemd", "system", key + ".service"]
  {
    if key == "slurmdbd" then
      Ok(WithUnits(key, "slurmdbd.conf.tmpl", SlurmConfDir + ["slurmdbd.conf"], templateDir))
    else if key in ["slurmd", "slurmrestd", "slurmctld", "slurmdbd"] then
      Ok(WithUnits(key, "slurm.conf.tmpl", SlurmConfDir + ["slurm.conf"], templateDir))
    else
      Err(UnsupportedComponent("Slurm component not supported: {key}"))
  }

  /** The rendered config never lands on its own template: the target is
      /etc/slurm/<name>.conf while the template is <name>.conf.tmpl in the
      template directory, whatever that directory is. */
  lemma TemplateIsNotTarget(key: string, templateDir: Path)
    requires key in Components
    ensures Select(key, templateDir).value.confTarget != templateDir + [Select(key, templateDir).value.confTemplate]
  {
    var s := Select(key, templateDir).value;
    var t := templateDir + [s.confTemplate];
    assert |s.confTarget[2]| < |s.confTemplate|;
    assert t[|t| - 1] == s.confTemplate;
  }
}
