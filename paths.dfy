/**
 * Node's `path` module, on paths held as sequences of segment names:
 * `join(dir, name)` appends a segment, `dirname` drops the last one and
 * `basename` is the last one. `extname` works on a single segment.
 */
module Paths {
  import opened Wrappers
  import opened Strings

  type Path = seq<string>

  function Join(dir: Path, name: string): (p: Path)
    ensures Dirname(p) == dir && Basename(p) == name
  {
    dir + [name]
  }

  function Basename(p: Path): string
  {
    if |p| == 0 then "" else p[|p| - 1]
  }

  function Dirname(p: Path): Path
  {
    if |p| == 0 then [] else p[..|p| - 1]
  }

  /** Dropping a prefix of the directory commutes with joining a name. */
  lemma JoinDrop(dir: Path, name: string, k: nat)
    requires k <= |dir|
    ensures Join(dir, name)[k..] == Join(dir[k..], name)
  {
  }

  /** `join(dirname(p), basename(p))` gives back any non-empty path. */
  lemma JoinDirnameBasename(p: Path)
    requires |p| > 0
    ensures Join(Dirname(p), Basename(p)) == p
  {
  }

  /** The index of the last '.' of `name`, if it has one. */
  function LastDot(name: string): (r: Option<nat>)
    ensures r.Some? ==> r.value < |name| && name[r.value] == '.'
    ensures r.Some? ==> forall j :: r.value < j < |name| ==> name[j] != '.'
    ensures r.None? <==> forall j :: 0 <= j < |name| ==> name[j] != '.'
  {
    if |name| == 0 then None
    else if name[|name| - 1] == '.' then Some(|name| - 1)
    else LastDot(name[..|name| - 1])
  }

  /**
   * `path.extname(name)` for a name without separators: from the last dot
   * to the end, except that a dot in first position (a "hidden" name such
   * as `.zip`) and the name `..` have no extension.
   */
  function Extname(name: string): (r: string)
    ensures r == "" || (r[0] == '.' && |r| < |name| && EndsWith(name, r))
    ensures r != "" ==> forall j :: 0 < j < |r| ==> r[j] != '.'
  {
    match LastDot(name)
    case None => ""
    case Some(i) => if i == 0 || name == ".." then "" else name[i..]
  }

  /**
   * A name has an extension exactly when it has a dot after its first
   * character and is not `..`. With `Extname`'s own contract this fixes the
   * extension as the suffix that starts at the last dot.
   */
  lemma ExtnameNonEmptyIff(name: string)
    ensures Extname(name) != "" <==> (exists j :: 0 < j < |name| && name[j] == '.') && name != ".."
  {
    match LastDot(name)
    case None =>
    case Some(i) =>
      if i == 0 {
        assert forall j :: 0 < j < |name| ==> name[j] != '.';
      } else {
        assert name[i] == '.';
      }
  }

  /**
   * The extension is `.zip` exactly when the name ends in `.zip` and has
   * something before it; the bare name `.zip` has no extension.
   */
  lemma ExtnameZipIff(name: string)
    ensures Extname(name) == ".zip" <==> |name| > 4 && EndsWith(name, ".zip")
  {
    if |name| > 4 && EndsWith(name, ".zip") {
      var n := |name|;
      assert name[n - 4..] == ".zip";
      assert name[n - 4] == '.' && name[n - 3] == 'z' && name[n - 2] == 'i' && name[n - 1] == 'p';
      var d := LastDot(name);
      assert d == Some(n - 4);
    }
  }
}
