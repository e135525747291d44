/** The exceptions the install manager can raise, and the values that carry them. */
module Results {
  import opened Paths

  datatype Option<T> = None | Some(value: T)

  /** An exception that escapes an operation. Only those the source can
      actually raise are here: its `except subprocess.CalledProcessError`
      handlers never fire, because `subprocess.call` reports a failing
      command through its exit code. */
  datatype Error =
    | UnsupportedComponent(message: string)  // plain Exception raised by __init__
    | UnsupportedOperation(message: string)  // plain Exception raised by slurm_systemctl
    | ContextNotADict                        // TypeError raised by write_config
    | TemplateMissing                        // FileNotFoundError raised by write_config
    | TemplateNotFound(name: string)         // jinja2 cannot load the template
    | FileExists(path: Path)                 // OSError kinds raised by pathlib
    | FileNotFound(path: Path)
    | NotADirectory(path: Path)
    | IsADirectory(path: Path)
    | UnboundResourcePath                    // UnboundLocalError: the resource was never fetched

  /** How an operation ended: normally, by raising, or not at all (`Hang`:
      the readiness poll loop, whose file never appears, runs forever). */
  datatype Outcome = Pass | Fail(error: Error) | Hang

  datatype Result<T> = Ok(value: T) | Err(error: Error)
}
