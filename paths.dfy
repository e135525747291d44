/** Absolute host paths. */
module Paths {

  /** An absolute path as the list of its components: "/var/lib/slurmd" is
      ["var", "lib", "slurmd"] and [] is the root directory "/". */
  type Path = seq<string>

  /** The directory holding p (the root is its own parent). */
  function Parent(p: Path): Path {
    if p == [] then [] else p[..|p| - 1]
  }

  /** The directories strictly between the root and p: for /var/lib/slurmd,
      /var and /var/lib. */
  function Ancestors(p: Path): (r: set<Path>)
    ensures forall a :: a in r <==> 0 < |a| < |p| && a == p[..|a|]
  {
    set i | 0 < i < |p| :: p[..i]
  }
}
