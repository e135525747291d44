/** The host filesystem as a map from paths to nodes, and the pathlib
    operations the install manager performs on it. */
module Filesystem {
  import opened Paths
  import opened Results

  /** Contents are kept for regular files only; ownership and modes are not modelled. */
  datatype Node = Dir | File(text: string)

  /** Every path present on the host other than the root, which always exists. */
  type Fs = map<Path, Node>

  predicate Exists(fs: Fs, p: Path) {
    p == [] || p in fs
  }

  predicate IsDir(fs: Fs, p: Path) {
    p == [] || (p in fs && fs[p].Dir?)
  }

  /** Some directory on the way to p is a regular file. */
  predicate UnderFile(fs: Fs, p: Path) {
    exists i :: 0 < i < |p| && p[..i] in fs && fs[p[..i]].File?
  }

  /** A directory entry for each of the paths ps. */
  function Dirs(ps: set<Path>): map<Path, Node> {
    map a | a in ps :: Dir
  }

  /** `Path(p).mkdir(parents=True)` with exist_ok left False: an existing p is
      an error, missing ancestors are created, a regular file on the way is an
      error. */
  function Mkdir(fs: Fs, p: Path): (r: Result<Fs>)
    ensures r.Ok? <==> !Exists(fs, p) && !UnderFile(fs, p)
    ensures Exists(fs, p) ==> r == Err(FileExists(p))
    ensures r.Ok? ==> r.value.Keys == fs.Keys + Ancestors(p) + {p}
    ensures r.Ok? ==> r.value[p] == Dir && forall a :: a in Ancestors(p) ==> r.value[a] == Dir
    ensures r.Ok? ==> forall q :: q in fs ==> r.value[q] == fs[q]
  {
    if Exists(fs, p) then Err(FileExists(p))
    else if UnderFile(fs, p) then Err(NotADirectory(p))
    else Ok(fs + Dirs(Ancestors(p) + {p}))
  }

  /** Opening a missing p for writing: it needs a directory to go in. */
  function CreateFile(fs: Fs, p: Path, text: string): Result<Fs>
    requires !Exists(fs, p)
  {
    if IsDir(fs, Parent(p)) then Ok(fs[p := File(text)])
    else if UnderFile(fs, p) then Err(NotADirectory(p))
    else Err(FileNotFound(p))
  }

  /** `Path(p).touch()`: an existing path is left as it is, a missing one
      becomes an empty file. */
  function Touch(fs: Fs, p: Path): (r: Result<Fs>)
    ensures r.Ok? <==> Exists(fs, p) || IsDir(fs, Parent(p))
    ensures r.Ok? ==> Exists(r.value, p) && r.value.Keys == fs.Keys + (if p == [] then {} else {p})
    ensures r.Ok? ==> forall q :: q in fs ==> r.value[q] == fs[q]
    ensures r.Ok? && !Exists(fs, p) ==> r.value[p] == File("")
  {
    if Exists(fs, p) then Ok(fs) else CreateFile(fs, p, "")
  }

  /** `Path(p).write_text(text)`: p ends up a regular file holding exactly text. */
  function WriteText(fs: Fs, p: Path, text: string): (r: Result<Fs>)
    ensures r.Ok? <==> p != [] && ((p in fs && fs[p].File?) || (p !in fs && IsDir(fs, Parent(p))))
    ensures r.Ok? ==> r.value == fs[p := File(text)]
    ensures IsDir(fs, p) ==> r == Err(IsADirectory(p))
  {
    if IsDir(fs, p) then Err(IsADirectory(p))
    else if p in fs then Ok(fs[p := File(text)])
    else CreateFile(fs, p, text)
  }

  /** `Path(p).unlink()`: removes a regular file; on Linux a directory gives EISDIR. */
  function Unlink(fs: Fs, p: Path): (r: Result<Fs>)
    ensures r.Ok? <==> p != [] && p in fs && fs[p].File?
    ensures r.Ok? ==> r.value.Keys == fs.Keys - {p} && forall q :: q in r.value ==> r.value[q] == fs[q]
    ensures IsDir(fs, p) ==> r == Err(IsADirectory(p))
    ensures !Exists(fs, p) ==> r == Err(FileNotFound(p))
  {
    if IsDir(fs, p) then Err(IsADirectory(p))
    else if p in fs then Ok(fs - {p})
    else Err(FileNotFound(p))
  }
}
