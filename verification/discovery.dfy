/**
  Finding the input videos: `iter_video_files` (transcode_core.py).

  The file system below the input is a finite tree. A file input yields
  itself when its suffix, lower-cased, is one of the video extensions; a
  directory yields the files that `glob("*")` (the children) or
  the recursive pattern (all descendants) lists and that have such a suffix.
  Paths are built by joining names with '/'; names contain no '/'.
 */
module Discovery {
  import opened Common
  import opened Naming

  datatype Node = File(name: string) | Dir(name: string, children: seq<Node>)

  /** `VIDEO_EXTS`. */
  const VideoExts: set<string> := {".mov", ".mp4", ".mxf", ".m4v"}

  /** `p.suffix.lower() in VIDEO_EXTS`, on the last path component. */
  predicate IsVideo(name: string) {
    Lower(Suffix(name)) in VideoExts
  }

  /** What `glob` lists below `dir`: the entries of `dir` in the order of
      the children, then, when the search is recursive, what lies below each
      child directory in turn, depth first. */
  function Glob(dir: string, children: seq<Node>, recursive: bool): (r: seq<(string, Node)>)
    ensures |r| >= |children| && (!recursive ==> |r| == |children|)
    ensures forall k | 0 <= k < |children| :: r[k] == (Join(dir, children[k].name), children[k])
    decreases children, 1
  {
    Listing(dir, children) + (if recursive then Deep(dir, children) else [])
  }

  /** The entries of `dir` itself. */
  function Listing(dir: string, children: seq<Node>): (r: seq<(string, Node)>)
    ensures |r| == |children|
    ensures forall k | 0 <= k < |children| :: r[k] == (Join(dir, children[k].name), children[k])
  {
    if children == [] then [] else [(Join(dir, children[0].name), children[0])] + Listing(dir, children[1..])
  }

  /** What a recursive search lists below the child directories of `dir`,
      one child after the other. */
  function Deep(dir: string, children: seq<Node>): seq<(string, Node)>
    decreases children, 0
  {
    if children == [] then []
    else
      var c := children[0];
      (if c.Dir? then Glob(Join(dir, c.name), c.children, true) else []) + Deep(dir, children[1..])
  }

  /** An independent description of what lies below `dir`: a child, or,
      when searching recursively, something below a child directory. */
  predicate Below(dir: string, children: seq<Node>, recursive: bool, path: string, node: Node)
    decreases children
  {
    exists k | 0 <= k < |children| ::
      || (path == Join(dir, children[k].name) && node == children[k])
      || (recursive && children[k].Dir?
          && Below(Join(dir, children[k].name), children[k].children, true, path, node))
  }

  /** Something below one of the child directories. */
  predicate BelowChildDir(dir: string, children: seq<Node>, path: string, node: Node) {
    exists k | 0 <= k < |children| ::
      children[k].Dir? && Below(Join(dir, children[k].name), children[k].children, true, path, node)
  }

  /** `glob` lists exactly what lies below. */
  lemma {:induction false} GlobIsBelow(dir: string, children: seq<Node>, recursive: bool, path: string, node: Node)
    ensures (path, node) in Glob(dir, children, recursive) <==> Below(dir, children, recursive, path, node)
    decreases children, 1
  {
    if recursive {
      DeepIsBelow(dir, children, path, node);
    }
    BelowSplit(dir, children, recursive, path, node);
  }

  /** The recursive part lists exactly what lies below the child
      directories. */
  lemma {:induction false} DeepIsBelow(dir: string, children: seq<Node>, path: string, node: Node)
    ensures (path, node) in Deep(dir, children) <==> BelowChildDir(dir, children, path, node)
    decreases children, 0
  {
    if children != [] {
      var c := children[0];
      if c.Dir? {
        GlobIsBelow(Join(dir, c.name), c.children, true, path, node);
      }
      DeepIsBelow(dir, children[1..], path, node);
      BelowChildDirCons(dir, children, path, node);
    }
  }

  lemma BelowChildDirCons(dir: string, children: seq<Node>, path: string, node: Node)
    requires children != []
    ensures BelowChildDir(dir, children, path, node) <==>
      || (children[0].Dir? && Below(Join(dir, children[0].name), children[0].children, true, path, node))
      || BelowChildDir(dir, children[1..], path, node)
  {
    if BelowChildDir(dir, children, path, node) {
      var k :| 0 <= k < |children| && children[k].Dir?
        && Below(Join(dir, children[k].name), children[k].children, true, path, node);
      if k > 0 {
        assert children[k] == children[1..][k - 1];
      }
    }
    if BelowChildDir(dir, children[1..], path, node) {
      var k :| 0 <= k < |children[1..]| && children[1..][k].Dir?
        && Below(Join(dir, children[1..][k].name), children[1..][k].children, true, path, node);
      assert children[1..][k] == children[k + 1];
    }
  }

  /** Below `dir`: one of its entries, or, searching recursively, below one
      of its child directories. */
  lemma BelowSplit(dir: string, children: seq<Node>, recursive: bool, path: string, node: Node)
    ensures Below(dir, children, recursive, path, node) <==>
      || (exists k | 0 <= k < |children| :: path == Join(dir, children[k].name) && node == children[k])
      || (recursive && BelowChildDir(dir, children, path, node))
  {
    if Below(dir, children, recursive, path, node) {
      var k :| 0 <= k < |children| &&
        (|| (path == Join(dir, children[k].name) && node == children[k])
         || (recursive && children[k].Dir?
             && Below(Join(dir, children[k].name), children[k].children, true, path, node)));
    }
  }

  /** The paths of the video files among `entries`. */
  function Videos(entries: seq<(string, Node)>): (r: seq<string>)
    ensures |r| <= |entries|
    ensures forall p :: p in r <==> exists n :: (p, File(n)) in entries && IsVideo(n)
  {
    if entries == [] then []
    else
      var rest := Videos(entries[1..]);
      assert forall e :: e in entries <==> e == entries[0] || e in entries[1..];
      match entries[0].1
      case File(n) => if IsVideo(n) then [entries[0].0] + rest else rest
      case Dir(_, _) => rest
  }

  /** `iter_video_files(input_path, recursive)` for the input `node` found
      at `root`. */
  function IterVideoFiles(node: Node, root: string, recursive: bool): seq<string> {
    match node
    case File(_) => if IsVideo(Name(root)) then [root] else []
    case Dir(_, children) => Videos(Glob(root, children, recursive))
  }

  /** A file input yields itself exactly when it has a video suffix, and
      nothing else. */
  lemma FileInput(n: string, root: string, recursive: bool)
    ensures var r := IterVideoFiles(File(n), root, recursive);
      && |r| <= 1
      && (root in r <==> IsVideo(Name(root)))
      && forall p | p in r :: p == root
  {
  }

  /** A directory yields exactly the video files below it. */
  lemma DirectoryInput(name: string, children: seq<Node>, root: string, recursive: bool, path: string)
    ensures path in IterVideoFiles(Dir(name, children), root, recursive)
        <==> exists n :: Below(root, children, recursive, path, File(n)) && IsVideo(n)
  {
    forall n {
      GlobIsBelow(root, children, recursive, path, File(n));
    }
  }

  /** The video files of two runs of entries, one after the other. */
  lemma {:induction false} VideosAppend(a: seq<(string, Node)>, b: seq<(string, Node)>)
    ensures Videos(a + b) == Videos(a) + Videos(b)
  {
    if a == [] {
      assert a + b == b;
    } else {
      assert (a + b)[0] == a[0] && (a + b)[1..] == a[1..] + b;
      VideosAppend(a[1..], b);
    }
  }

  /** A recursive search of a directory yields the video files among its
      own entries, in listing order, before any file of a subdirectory,
      whatever the place of the subdirectories in the listing. */
  lemma EntriesBeforeSubdirectories(name: string, children: seq<Node>, root: string)
    ensures IterVideoFiles(Dir(name, children), root, true)
         == Videos(Listing(root, children)) + Videos(Deep(root, children))
    ensures forall p :: p in Videos(Listing(root, children)) <==>
      exists k | 0 <= k < |children| ::
        children[k].File? && IsVideo(children[k].name) && p == Join(root, children[k].name)
    ensures forall p :: p in Videos(Deep(root, children)) <==>
      exists n :: BelowChildDir(root, children, p, File(n)) && IsVideo(n)
  {
    VideosAppend(Listing(root, children), Deep(root, children));
    forall p, n {
      DeepIsBelow(root, children, p, File(n));
    }
  }

  /** One instance: a subdirectory listed before a file is still searched
      after it. */
  lemma EntriesBeforeSubdirectoriesExample(root: string)
    ensures IterVideoFiles(Dir("in", [Dir("sub", [File("x.mov")]), File("a.mov")]), root, true)
         == [Join(root, "a.mov"), Join(Join(root, "sub"), "x.mov")]
  {
    var p := Join(root, "sub");
    MovIsVideo("a.mov");
    MovIsVideo("x.mov");
    GlobExample(root);
    VideosOfEntries(Join(root, "a.mov"), p, "a.mov", Join(p, "x.mov"), "x.mov");
  }

  /** A one-letter name with the ".mov" suffix is a video file. */
  lemma MovIsVideo(n: string)
    requires |n| == 5 && n[0] != '.' && n[1..] == ".mov"
    ensures IsVideo(n)
  {
    var i := Rfind(n, '.');
    assert n[1] == '.' && n[2] != '.' && n[3] != '.' && n[4] != '.';
    assert i == 1;
    assert Suffix(n) == ".mov";
    var m := ".mov";
    assert Lower(m)[0] == m[0] && Lower(m)[1] == m[1] && Lower(m)[2] == m[2] && Lower(m)[3] == m[3];
    assert Lower(m) == m;
  }

  lemma GlobExample(root: string)
    ensures var sub := Dir("sub", [File("x.mov")]);
      var p := Join(root, "sub");
      Glob(root, [sub, File("a.mov")], true)
        == [(p, sub), (Join(root, "a.mov"), File("a.mov")), (Join(p, "x.mov"), File("x.mov"))]
  {
    var sub := Dir("sub", [File("x.mov")]);
    var p := Join(root, "sub");
    var x, a := File("x.mov"), File("a.mov");
    assert [x][1..] == [] && [sub, a][1..] == [a] && [a][1..] == [];
    assert Glob(p, [x], true) == [(Join(p, "x.mov"), x)] by {
      assert Deep(p, [x]) == [];
    }
    assert Deep(root, [a]) == [];
  }

  /** A directory entry followed by two video files yields the two files. */
  lemma VideosOfEntries(p1: string, p0: string, n1: string, p2: string, n2: string)
    requires IsVideo(n1) && IsVideo(n2)
    ensures Videos([(p0, Dir("sub", [File("x.mov")])), (p1, File(n1)), (p2, File(n2))]) == [p1, p2]
  {
    var e := [(p0, Dir("sub", [File("x.mov")])), (p1, File(n1)), (p2, File(n2))];
    assert e[1..] == [(p1, File(n1)), (p2, File(n2))] && e[1..][1..] == [(p2, File(n2))];
    assert e[1..][1..][1..] == [];
    assert Videos(e[1..][1..]) == [p2];
    assert Videos(e[1..]) == [p1, p2];
  }

  /** What a flat search finds, a recursive one finds too. */
  lemma {:induction false} FlatBelowIsDeepBelow(dir: string, children: seq<Node>, path: string, node: Node)
    requires Below(dir, children, false, path, node)
    ensures Below(dir, children, true, path, node)
  {
    var k :| 0 <= k < |children| && path == Join(dir, children[k].name) && node == children[k];
  }

  lemma NonRecursiveWithinRecursive(node: Node, root: string, path: string)
    requires path in IterVideoFiles(node, root, false)
    ensures path in IterVideoFiles(node, root, true)
  {
    if node.Dir? {
      DirectoryInput(node.name, node.children, root, false, path);
      var n :| Below(root, node.children, false, path, File(n)) && IsVideo(n);
      FlatBelowIsDeepBelow(root, node.children, path, File(n));
      DirectoryInput(node.name, node.children, root, true, path);
    }
  }
}
