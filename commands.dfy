/** The external commands the install manager issues. Their effect on the host
    (user database, ownership, unit files, the dynamic linker cache) is not
    modelled: each is recorded in the host's command log and its exit code is
    ignored, as `subprocess.call` returns it unread. */
module Commands {
  import opened Paths

  datatype Command =
    | GroupAdd(gid: int, name: string)                          // groupadd -r --gid=<gid> <name>
    | UserAdd(group: string, uid: int, name: string)            // useradd -r -g <group> --uid=<uid> <name>
    | ChownRecursive(user: string, group: string, path: Path)   // chown -R <user>:<group> <path>
    | Untar(archive: Path, topLevel: Path)                      // tar -xzvf <archive> --one-top-level=<topLevel>
    | CopyTreeContents(from: Path, into: Path)                  // cp -R <from>/* <into>/ (through a shell)
    | CopyFile(from: Path, to: Path)                            // cp <from> <to>
    | Ldconfig                                                  // ldconfig
    | DaemonReload                                              // systemctl daemon-reload
    | Systemctl(op: string, unit: string)                       // systemctl <op> <unit>
}
