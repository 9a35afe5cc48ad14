/**
 * The extracted archive as a read-only tree. A directory's `children` are
 * in the order `readdir` lists them; names are single path segments.
 */
module FsTree {
  import opened Paths

  datatype Node = File(name: string) | Dir(name: string, children: seq<Node>)

  /** `access(join(dir, name), F_OK)` where `entries` lists `dir`: some entry, of any kind, has that name. */
  predicate HasEntry(entries: seq<Node>, name: string)
  {
    exists i :: 0 <= i < |entries| && entries[i].name == name
  }

  /** A node of any kind sits at the relative path `rel` below the directory listed by `entries`. */
  ghost predicate ExistsAt(entries: seq<Node>, rel: Path)
    decreases rel
  {
    && |rel| > 0
    && exists i :: 0 <= i < |entries| && entries[i].name == rel[0] &&
         (|rel| == 1 || (entries[i].Dir? && ExistsAt(entries[i].children, rel[1..])))
  }

  /**
   * The lookup a path operation such as `chmod` makes: the first segment is
   * matched against the listing entry by entry, and the rest below the
   * directory that matched.
   */
  predicate Lookup(entries: seq<Node>, rel: Path)
    decreases rel, entries
  {
    && |rel| > 0
    && |entries| > 0
    && ((entries[0].name == rel[0] && (|rel| == 1 || (entries[0].Dir? && Lookup(entries[0].children, rel[1..]))))
        || Lookup(entries[1..], rel))
  }

  /** The lookup succeeds exactly when a node sits at the path. */
  lemma {:induction false} LookupIff(entries: seq<Node>, rel: Path)
    ensures Lookup(entries, rel) <==> ExistsAt(entries, rel)
    decreases rel, entries
  {
    if |rel| > 0 && |entries| > 0 {
      LookupIff(entries[1..], rel);
      if entries[0].Dir? && |rel| > 1 {
        LookupIff(entries[0].children, rel[1..]);
      }
      if ExistsAt(entries, rel) {
        var i :| 0 <= i < |entries| && entries[i].name == rel[0] &&
          (|rel| == 1 || (entries[i].Dir? && ExistsAt(entries[i].children, rel[1..])));
        if i > 0 {
          assert entries[1..][i - 1] == entries[i];
        }
      }
      if ExistsAt(entries[1..], rel) {
        var i :| 0 <= i < |entries[1..]| && entries[1..][i].name == rel[0] &&
          (|rel| == 1 || (entries[1..][i].Dir? && ExistsAt(entries[1..][i].children, rel[1..])));
        assert entries[i + 1] == entries[1..][i];
      }
    }
  }

  /** A regular file sits at the relative path `rel` below the directory listed by `entries`. */
  ghost predicate FileAt(entries: seq<Node>, rel: Path)
    decreases rel
  {
    && |rel| > 0
    && exists i :: 0 <= i < |entries| && entries[i].name == rel[0] &&
         (if |rel| == 1 then entries[i].File?
          else entries[i].Dir? && FileAt(entries[i].children, rel[1..]))
  }

  /** A file named `name` sits somewhere below the directory listed by `entries`. */
  ghost predicate HasFileNamed(entries: seq<Node>, name: string)
  {
    exists rel :: FileAt(entries, rel) && Basename(rel) == name
  }

  /** A file is in particular a node. */
  lemma {:induction false} FileAtExists(entries: seq<Node>, rel: Path)
    requires FileAt(entries, rel)
    ensures ExistsAt(entries, rel)
    decreases rel
  {
    var i :| 0 <= i < |entries| && entries[i].name == rel[0] &&
      (if |rel| == 1 then entries[i].File?
       else entries[i].Dir? && FileAt(entries[i].children, rel[1..]));
    if |rel| > 1 {
      FileAtExists(entries[i].children, rel[1..]);
    }
  }

  /**
   * Every node below the directory listed by `entries`, with its path
   * below `dir`: a depth-first preorder walk in listing order.
   */
  ghost function Walk(dir: Path, entries: seq<Node>): seq<(Path, Node)>
    decreases entries
  {
    if |entries| == 0 then []
    else
      var here := dir + [entries[0].name];
      var below := if entries[0].Dir? then Walk(here, entries[0].children) else [];
      [(here, entries[0])] + below + Walk(dir, entries[1..])
  }
}
