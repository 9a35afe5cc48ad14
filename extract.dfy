/**
 * `extract`: choosing the decompression primitive by the archive's name,
 * then locating the directory that holds the executable inside what it
 * produced, by four strategies in a fixed order.
 */
module Extraction {
  import opened Wrappers
  import opened Seqs
  import opened Strings
  import opened Paths
  import opened FsTree
  import opened InstallTypes

  datatype ArchiveKind = Zip | Tar | Unsupported

  /**
   * What a decompression primitive leaves behind: the directory it reports
   * and that directory's contents.
   */
  datatype Extracted = Extracted(dir: Path, entries: seq<Node>)

  /**
   * `p` names an existing node of what a primitive left behind: it lies
   * strictly below the reported directory, along entries of the tree.
   */
  predicate ExistsIn(x: Extracted, p: Path)
  {
    |p| > |x.dir| && p[..|x.dir|] == x.dir && Lookup(x.entries, p[|x.dir|..])
  }

  /** The branch `extract` takes for an archive with this base name. */
  function KindOf(basename: string): ArchiveKind
  {
    if Extname(basename) == ".zip" then Zip
    else if EndsWith(basename, ".tar.gz") || EndsWith(basename, ".tgz") then Tar
    else Unsupported
  }

  /**
   * Zip exactly for names ending in `.zip` with something before it; tar
   * for the other names ending in `.tar.gz` or `.tgz`; nothing else.
   */
  lemma DispatchBySuffix(basename: string)
    ensures KindOf(basename) == Zip <==> |basename| > 4 && EndsWith(basename, ".zip")
    ensures KindOf(basename) == Tar <==>
      && !(|basename| > 4 && EndsWith(basename, ".zip"))
      && (EndsWith(basename, ".tar.gz") || EndsWith(basename, ".tgz"))
    ensures KindOf(basename) == Unsupported <==>
      && !(|basename| > 4 && EndsWith(basename, ".zip"))
      && !EndsWith(basename, ".tar.gz") && !EndsWith(basename, ".tgz")
  {
    ExtnameZipIff(basename);
  }

  /** The dispatch is case-sensitive and a bare `.zip` is no zip archive. */
  lemma DispatchExamples()
    ensures KindOf(".zip") == Unsupported
    ensures KindOf("kit.ZIP") == Unsupported
    ensures KindOf("kit.exe") == Unsupported
    ensures KindOf(".tgz") == Tar
    ensures KindOf("kit_linux_x86_64.tar.gz") == Tar
    ensures KindOf("kit_darwin_arm64.zip") == Zip
  {
    DispatchBySuffix(".zip");
    DispatchBySuffix("kit.ZIP");
    DispatchBySuffix("kit.exe");
    DispatchBySuffix(".tgz");
    DispatchBySuffix("kit_linux_x86_64.tar.gz");
    DispatchBySuffix("kit_darwin_arm64.zip");
  }

  /**
   * `findFileRecursive(path, target)` on the node `n` found at `path`: the
   * path of the first regular file named `target`, depth first.
   */
  function SearchNode(path: Path, n: Node, target: string): Option<Path>
    decreases n, 1
  {
    match n
    case File(name) => if name == target then Some(path) else None
    case Dir(_, children) => SearchEntries(path, children, target)
  }

  /** The loop over a directory's entries: the first entry whose search succeeds wins. */
  function SearchEntries(dir: Path, entries: seq<Node>, target: string): Option<Path>
    decreases entries, 0
  {
    if |entries| == 0 then None
    else
      match SearchNode(dir + [entries[0].name], entries[0], target)
      case Some(p) => Some(p)
      case None => SearchEntries(dir, entries[1..], target)
  }

  /** `findFileRecursive`, with its loop over the directory listing. */
  method FindFileRecursive(dir: Path, n: Node, target: string) returns (found: Option<Path>)
    ensures found == SearchNode(dir, n, target)
    decreases n
  {
    if n.File? && n.name == target {
      return Some(dir);
    }
    if !n.Dir? {
      return None;
    }
    var entries := n.children;
    var i := 0;
    while i < |entries|
      invariant 0 <= i <= |entries|
      invariant SearchEntries(dir, entries, target) == SearchEntries(dir, entries[i..], target)
    {
      assert entries[i] in n.children;
      var res := FindFileRecursive(dir + [entries[i].name], entries[i], target);
      if res.Some? {
        return res;
      }
      assert entries[i..][1..] == entries[i + 1..];
      i := i + 1;
    }
    return None;
  }

  /** Is a walk item a regular file named `target`? */
  function FileNamed(target: string): ((Path, Node)) -> bool
  {
    (item: (Path, Node)) => item.1.File? && item.1.name == target
  }

  /** The path of the first regular file named `target` in a walk. */
  function FirstFileNamed(walk: seq<(Path, Node)>, target: string): Option<Path>
  {
    match Find(walk, FileNamed(target))
    case Some(item) => Some(item.0)
    case None => None
  }

  /** The search returns the first file named `target` in depth-first preorder. */
  lemma {:induction false} SearchIsFirstInWalk(dir: Path, entries: seq<Node>, target: string)
    ensures SearchEntries(dir, entries, target) == FirstFileNamed(Walk(dir, entries), target)
    decreases entries
  {
    if |entries| > 0 {
      var e := entries[0];
      var here := dir + [e.name];
      var below := if e.Dir? then Walk(here, e.children) else [];
      var rest := Walk(dir, entries[1..]);
      var p := FileNamed(target);
      assert Walk(dir, entries) == [(here, e)] + below + rest;
      FindConcat([(here, e)] + below, rest, p);
      FindConcat([(here, e)], below, p);
      if e.Dir? {
        SearchIsFirstInWalk(here, e.children, target);
      }
      SearchIsFirstInWalk(dir, entries[1..], target);
    }
  }

  /** A file below the rest of a listing is also below the whole listing. */
  lemma FileAtTail(entries: seq<Node>, rel: Path)
    requires |entries| > 0 && FileAt(entries[1..], rel)
    ensures FileAt(entries, rel)
  {
    var i :| 0 <= i < |entries[1..]| && entries[1..][i].name == rel[0] &&
      (if |rel| == 1 then entries[1..][i].File?
       else entries[1..][i].Dir? && FileAt(entries[1..][i].children, rel[1..]));
    assert entries[i + 1] == entries[1..][i];
  }

  /** What the search returns is a regular file named `target` below `dir`. */
  lemma {:induction false} SearchSound(dir: Path, entries: seq<Node>, target: string)
    ensures match SearchEntries(dir, entries, target)
      case Some(p) => |p| > |dir| && p[..|dir|] == dir && Basename(p) == target && FileAt(entries, p[|dir|..])
      case None => true
    decreases entries
  {
    if |entries| > 0 {
      var e := entries[0];
      var here := dir + [e.name];
      SearchSound(dir, entries[1..], target);
      match SearchNode(here, e, target)
      case Some(p) =>
        if e.File? {
          assert p[|dir|..] == [e.name];
        } else {
          SearchSound(here, e.children, target);
          assert p[..|dir|] == dir;
          assert p[|dir|..][1..] == p[|here|..];
        }
      case None =>
        if SearchEntries(dir, entries[1..], target).Some? {
          FileAtTail(entries, SearchEntries(dir, entries[1..], target).value[|dir|..]);
        }
    }
  }

  /** When a regular file named `target` exists below `dir`, the search finds one. */
  lemma {:induction false} SearchComplete(dir: Path, entries: seq<Node>, target: string, rel: Path)
    requires FileAt(entries, rel) && Basename(rel) == target
    ensures SearchEntries(dir, entries, target).Some?
    decreases entries
  {
    var i :| 0 <= i < |entries| && entries[i].name == rel[0] &&
      (if |rel| == 1 then entries[i].File?
       else entries[i].Dir? && FileAt(entries[i].children, rel[1..]));
    var e := entries[0];
    var here := dir + [e.name];
    if SearchNode(here, e, target).None? {
      if i == 0 {
        if |rel| > 1 {
          SearchComplete(here, e.children, target, rel[1..]);
        }
      } else {
        assert entries[1..][i - 1] == entries[i];
        assert FileAt(entries[1..], rel);
        SearchComplete(dir, entries[1..], target, rel);
      }
    }
  }

  /** The single-wrapper layout: one entry, a directory, holding something named `binName`. */
  predicate WrapsExecutable(entries: seq<Node>, binName: string)
  {
    |entries| == 1 && entries[0].Dir? && HasEntry(entries[0].children, binName)
  }

  /**
   * The directory `extract` reports for what a primitive left in `dir`:
   * `dir` itself when it holds `binName`; else the single wrapping
   * directory when that holds `binName`; else the parent of the first
   * regular file named `binName`; else `dir` unchanged.
   */
  function LocateExecutable(dir: Path, entries: seq<Node>, binName: string): (r: Path)
    ensures |r| >= |dir| && r[..|dir|] == dir
    ensures HasEntry(entries, binName) ==> r == dir
    ensures !HasEntry(entries, binName) && WrapsExecutable(entries, binName) ==>
      r == dir + [entries[0].name]
  {
    if HasEntry(entries, binName) then dir
    else if WrapsExecutable(entries, binName) then dir + [entries[0].name]
    else
      match SearchEntries(dir, entries, binName)
      case Some(found) => SearchSound(dir, entries, binName); Dirname(found)
      case None => dir
  }

  /**
   * When neither quick check applies, the reported directory is the parent
   * of the first regular file named `binName` in depth-first preorder, and
   * that file lies below it.
   */
  lemma LocatedBySearch(dir: Path, entries: seq<Node>, binName: string)
    requires !HasEntry(entries, binName) && !WrapsExecutable(entries, binName)
    requires HasFileNamed(entries, binName)
    ensures var r := LocateExecutable(dir, entries, binName);
      && FirstFileNamed(Walk(dir, entries), binName) == Some(r + [binName])
      && FileAt(entries, r[|dir|..] + [binName])
  {
    var rel :| FileAt(entries, rel) && Basename(rel) == binName;
    SearchComplete(dir, entries, binName, rel);
    var found := SearchEntries(dir, entries, binName).value;
    assert |found| > |dir| && Basename(found) == binName && FileAt(entries, found[|dir|..]) by {
      SearchSound(dir, entries, binName);
    }
    var r := LocateExecutable(dir, entries, binName);
    assert found == Join(r, binName) by {
      JoinDirnameBasename(found);
    }
    JoinDrop(r, binName, |dir|);
    SearchIsFirstInWalk(dir, entries, binName);
  }

  /** Something named `name` directly in the listing is what `access` checks. */
  lemma ExistsAtOne(entries: seq<Node>, name: string)
    ensures ExistsAt(entries, [name]) <==> HasEntry(entries, name)
  {
  }

  /**
   * `extract` falls back to `dir` exactly when `dir` holds `binName`
   * itself, or when no wrapping directory holds it and no regular file
   * anywhere below bears that name.
   */
  lemma FallbackIff(dir: Path, entries: seq<Node>, binName: string)
    ensures LocateExecutable(dir, entries, binName) == dir <==>
      HasEntry(entries, binName) ||
      (!WrapsExecutable(entries, binName) && !HasFileNamed(entries, binName))
  {
    if !HasEntry(entries, binName) && !WrapsExecutable(entries, binName) {
      SearchSound(dir, entries, binName);
      match SearchEntries(dir, entries, binName)
      case Some(found) =>
        var rel := found[|dir|..];
        assert Basename(rel) == binName;
        assert HasFileNamed(entries, binName);
        assert |Dirname(found)| > |dir|;
      case None =>
        if HasFileNamed(entries, binName) {
          var rel :| FileAt(entries, rel) && Basename(rel) == binName;
          SearchComplete(dir, entries, binName, rel);
        }
    }
  }

  /**
   * The path `extract`'s caller joins, `result/binName`, names an existing
   * node exactly when one of the three strategies had something to find.
   */
  lemma InstalledPathExistsIff(dir: Path, entries: seq<Node>, binName: string)
    ensures var r := LocateExecutable(dir, entries, binName);
      ExistsAt(entries, r[|dir|..] + [binName]) <==>
        HasEntry(entries, binName) || WrapsExecutable(entries, binName) || HasFileNamed(entries, binName)
  {
    var r := LocateExecutable(dir, entries, binName);
    ExistsAtOne(entries, binName);
    if HasEntry(entries, binName) {
      assert r[|dir|..] == [];
    } else if WrapsExecutable(entries, binName) {
      assert r[|dir|..] + [binName] == [entries[0].name, binName];
      assert [entries[0].name, binName][1..] == [binName];
      ExistsAtOne(entries[0].children, binName);
    } else if HasFileNamed(entries, binName) {
      LocatedBySearch(dir, entries, binName);
      FileAtExists(entries, r[|dir|..] + [binName]);
    } else {
      FallbackIff(dir, entries, binName);
      assert r[|dir|..] == [];
    }
  }

  /**
   * The two layouts the extraction tests build: the executable at the
   * archive's root, and the executable inside one top-level folder. In
   * both, `join(result, binName)` names the executable.
   */
  lemma ArchiveLayouts(dir: Path, binName: string, folder: string)
    ensures LocateExecutable(dir, [File(binName)], binName) == dir
    ensures ExistsAt([File(binName)], [binName])
    ensures folder != binName ==>
      LocateExecutable(dir, [Dir(folder, [File(binName)])], binName) == dir + [folder]
    ensures ExistsAt([Dir(folder, [File(binName)])], [folder, binName])
  {
    var wrapped := [Dir(folder, [File(binName)])];
    assert wrapped[0].children[0].name == [binName][0];
    assert [folder, binName][1..] == [binName];
    assert wrapped[0].name == [folder, binName][0];
  }
}
