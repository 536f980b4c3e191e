/** The breadth-first walk over a workspace without git. It is bounded in four ways and says so: a
    listing that is not marked as truncated is complete. */
module WorkspaceWalk {
  import opened Wrappers

  const MAX_WORKSPACE_FILES := 5000
  const MAX_WORKSPACE_FILE_CANDIDATES := 20000
  const MAX_WORKSPACE_DIRECTORIES := 2000
  const MAX_WORKSPACE_DEPTH := 16
  const IGNORED_WORKSPACE_DIRECTORIES := {".git", "node_modules", ".pi", "dist", "build"}

  /** A finite file tree. Reading a directory may fail before its entry number `fault`. */
  datatype Node = File | SymbolicLink | Special | Directory(entries: seq<Entry>, fault: Option<nat>)

  datatype Entry = Entry(name: string, node: Node)

  /** A path relative to the root, name by name. */
  type Path = seq<string>

  datatype Pending = Pending(path: Path, directory: Node, depth: nat)

  datatype Listing = Listing(paths: seq<Path>, truncated: bool)

  // ----- what is in the tree

  /** No directory holds a name twice. */
  ghost predicate DistinctNames(entries: seq<Entry>) {
    forall i, j :: 0 <= i < j < |entries| ==> entries[i].name != entries[j].name
  }

  ghost predicate WellFormedTree(node: Node) {
    node.Directory? ==>
      DistinctNames(node.entries) && forall i :: 0 <= i < |node.entries| ==> WellFormedTree(node.entries[i].node)
  }

  /** A regular file that is reached without passing an ignored or a linked directory. */
  ghost predicate HasFile(entries: seq<Entry>, path: Path)
    decreases |path|
  {
    && path != []
    && exists e :: e in entries && e.name == path[0] && LeadsTo(e, path)
  }

  ghost predicate LeadsTo(e: Entry, path: Path)
    requires path != []
    decreases |path|, 0
  {
    if |path| == 1 then e.node.File?
    else e.node.Directory? && e.name !in IGNORED_WORKSPACE_DIRECTORIES && HasFile(e.node.entries, path[1..])
  }

  /** A directory that is reached without passing an ignored or a linked one. */
  ghost predicate Reached(root: Node, path: Path, directory: Node)
    decreases |path|
  {
    directory.Directory? &&
    if path == [] then directory == root
    else
      Last(path) !in IGNORED_WORKSPACE_DIRECTORIES &&
      exists parent: Node :: Reached(root, path[..|path| - 1], parent) && Entry(Last(path), directory) in parent.entries
  }

  /** The file lies below the pending directory. */
  ghost predicate Below(item: Pending, path: Path) {
    item.directory.Directory? && item.path <= path && HasFile(item.directory.entries, path[|item.path|..])
  }

  ghost predicate SomewhereBelow(pending: seq<Pending>, path: Path) {
    exists item :: item in pending && Below(item, path)
  }

  // ----- one directory

  /** What scanning a directory appends. */
  datatype Scan = Scan(files: seq<Path>, directories: seq<Pending>, scanned: nat, truncated: bool, failed: bool)

  /** The files and directories found among the entries before number k. */
  ghost predicate Sound(current: Pending, k: nat, files: seq<Path>, directories: seq<Pending>)
    requires current.directory.Directory?
  {
    var entries := current.directory.entries;
    && k <= |entries|
    && (forall p :: p in files ==> exists i :: 0 <= i < k && entries[i].node.File? && p == current.path + [entries[i].name])
    && (forall d :: d in directories ==>
          exists i :: 0 <= i < k && entries[i].node.Directory? && entries[i].name !in IGNORED_WORKSPACE_DIRECTORIES
                      && d == Pending(current.path + [entries[i].name], entries[i].node, current.depth + 1))
  }

  /** Nothing before number k was left out. */
  ghost predicate Complete(current: Pending, k: nat, files: seq<Path>, directories: seq<Pending>)
    requires current.directory.Directory? && k <= |current.directory.entries|
  {
    var entries := current.directory.entries;
    forall i :: 0 <= i < k ==>
      && (entries[i].node.File? ==> current.path + [entries[i].name] in files)
      && (entries[i].node.Directory? && entries[i].name !in IGNORED_WORKSPACE_DIRECTORIES ==>
            Pending(current.path + [entries[i].name], entries[i].node, current.depth + 1) in directories)
  }

  ghost predicate DistinctItems(directories: seq<Pending>) {
    forall i, j :: 0 <= i < j < |directories| ==> directories[i].path != directories[j].path
  }

  /** A directory that cannot be listed in full whatever the limits on numbers: reading it fails, a
      name in it does not decode, or it is too deep for the directories in it. */
  ghost predicate Troublesome(item: Pending)
    requires item.directory.Directory?
  {
    || item.directory.fault.Some?
    || (exists e :: e in item.directory.entries && '\U{FFFD}' in e.name)
    || (item.depth >= MAX_WORKSPACE_DEPTH &&
        exists e :: e in item.directory.entries && e.node.Directory? && e.name !in IGNORED_WORKSPACE_DIRECTORIES)
  }

  /** The loop over the entries of one directory. `listed` and `scanned` count what came before. */
  method ScanDirectory(current: Pending, listed: nat, scanned: nat) returns (r: Scan, ghost k: nat)
    requires current.directory.Directory? && DistinctNames(current.directory.entries)
    requires listed < MAX_WORKSPACE_FILES && scanned < MAX_WORKSPACE_FILE_CANDIDATES
    ensures k <= |current.directory.entries| && Sound(current, k, r.files, r.directories)
    ensures !r.truncated && !r.failed ==>
      k == |current.directory.entries| && Complete(current, k, r.files, r.directories)
    ensures Distinct(r.files) && DistinctItems(r.directories)
    ensures listed + |r.files| <= MAX_WORKSPACE_FILES
    ensures listed + |r.files| == MAX_WORKSPACE_FILES ==> r.truncated
    ensures scanned <= r.scanned <= MAX_WORKSPACE_FILE_CANDIDATES + 1
    ensures r.scanned > MAX_WORKSPACE_FILE_CANDIDATES ==> r.truncated
    ensures r.failed ==> current.directory.fault.Some?
    ensures r.scanned <= scanned + |current.directory.entries|
    ensures r.truncated ==>
      listed + |r.files| == MAX_WORKSPACE_FILES || r.scanned > MAX_WORKSPACE_FILE_CANDIDATES || Troublesome(current)
  {
    var entries := current.directory.entries;
    var files: seq<Path>, directories: seq<Pending> := [], [];
    var count, truncated := scanned, false;
    k := 0;
    var n := 0;
    while n < |entries|
      invariant 0 <= n == k <= |entries|
      invariant Sound(current, n, files, directories)
      invariant !truncated ==> Complete(current, n, files, directories)
      invariant Distinct(files) && DistinctItems(directories)
      invariant listed + |files| < MAX_WORKSPACE_FILES
      invariant scanned <= count <= MAX_WORKSPACE_FILE_CANDIDATES && count == scanned + n
      invariant truncated ==> Troublesome(current)
    {
      if current.directory.fault == Some(n) {
        return Scan(files, directories, count, truncated, true), k;
      }
      count := count + 1;
      if count > MAX_WORKSPACE_FILE_CANDIDATES {
        return Scan(files, directories, count, true, false), k;
      }
      var entry := entries[n];
      NewName(current, n, files, directories);
      if '\U{FFFD}' in entry.name {
        truncated := true;
      } else if entry.node.SymbolicLink? {
      } else if entry.node.File? {
        files := files + [current.path + [entry.name]];
        if listed + |files| >= MAX_WORKSPACE_FILES {
          k := k + 1;
          return Scan(files, directories, count, true, false), k;
        }
      } else if entry.node.Directory? && entry.name !in IGNORED_WORKSPACE_DIRECTORIES {
        if current.depth >= MAX_WORKSPACE_DEPTH {
          truncated := true;
        } else {
          directories := directories + [Pending(current.path + [entry.name], entry.node, current.depth + 1)];
        }
      }
      n, k := n + 1, k + 1;
    }
    var failed := current.directory.fault == Some(n);
    return Scan(files, directories, count, truncated, failed), k;
  }

  /** The next name is new to both lists. */
  lemma NewName(current: Pending, k: nat, files: seq<Path>, directories: seq<Pending>)
    requires current.directory.Directory? && DistinctNames(current.directory.entries)
    requires k < |current.directory.entries| && Sound(current, k, files, directories)
    ensures var path := current.path + [current.directory.entries[k].name];
            path !in files && forall d :: d in directories ==> d.path != path
  {
    var entries := current.directory.entries;
    forall i | 0 <= i < k
      ensures current.path + [entries[i].name] != current.path + [entries[k].name]
    {
      assert (current.path + [entries[i].name])[|current.path|] == entries[i].name;
      assert (current.path + [entries[k].name])[|current.path|] == entries[k].name;
    }
  }

  /** A complete scan hands every file below the directory on. */
  lemma CompleteHandsOn(current: Pending, files: seq<Path>, directories: seq<Pending>, path: Path)
    requires current.directory.Directory?
    requires Complete(current, |current.directory.entries|, files, directories)
    requires Below(current, path)
    ensures path in files || SomewhereBelow(directories, path)
  {
    var entries := current.directory.entries;
    var rest := path[|current.path|..];
    var e :| e in entries && e.name == rest[0] && LeadsTo(e, rest);
    var i :| 0 <= i < |entries| && entries[i] == e;
    assert path == current.path + rest;
    var deeper := current.path + [e.name];
    if |rest| == 1 {
      assert path == deeper;
    } else {
      var item := Pending(deeper, e.node, current.depth + 1);
      assert deeper <= path && path[|deeper|..] == rest[1..];
      assert Below(item, path);
    }
  }

  /** What a sound scan found is in the tree. */
  lemma SoundIsInTree(root: Node, current: Pending, k: nat, files: seq<Path>, directories: seq<Pending>)
    requires root.Directory? && InTree(root.entries, current)
    requires current.directory.Directory? && WellFormedTree(current.directory)
    requires Sound(current, k, files, directories)
    ensures forall p :: p in files ==> HasFile(root.entries, p)
    ensures forall d :: d in directories ==> InTree(root.entries, d) && WellFormedTree(d.directory) && d.directory.Directory?
  {
    var entries := current.directory.entries;
    forall p | p in files
      ensures HasFile(root.entries, p)
    {
      var i :| 0 <= i < k && entries[i].node.File? && p == current.path + [entries[i].name];
      assert LeadsTo(entries[i], [entries[i].name]);
      assert HasFile(entries, [entries[i].name]);
      InTreeFile(root.entries, current, [entries[i].name]);
    }
    forall d | d in directories
      ensures InTree(root.entries, d) && WellFormedTree(d.directory) && d.directory.Directory?
    {
      var i :| 0 <= i < k && entries[i].node.Directory? && entries[i].name !in IGNORED_WORKSPACE_DIRECTORIES
               && d == Pending(current.path + [entries[i].name], entries[i].node, current.depth + 1);
      forall f | HasFile(d.directory.entries, f)
        ensures HasFile(root.entries, d.path + f)
      {
        var rel := [entries[i].name] + f;
        assert rel[1..] == f;
        assert LeadsTo(entries[i], rel);
        assert HasFile(entries, rel);
        InTreeFile(root.entries, current, rel);
        assert d.path + f == current.path + rel;
      }
    }
  }

  /** Every file below the pending directory is, with its path in front, a file of the tree. */
  ghost predicate InTree(root: seq<Entry>, item: Pending) {
    item.directory.Directory? ==> forall f :: HasFile(item.directory.entries, f) ==> HasFile(root, item.path + f)
  }

  lemma InTreeFile(root: seq<Entry>, item: Pending, f: Path)
    requires InTree(root, item) && item.directory.Directory? && HasFile(item.directory.entries, f)
    ensures HasFile(root, item.path + f)
  {
  }

  // ----- the walk

  /** Each directory is queued once: a queued or listed path that is not the root stands below a
      directory that has been taken off the queue. */
  ghost predicate Once(paths: seq<Path>, pending: seq<Pending>, taken: set<Path>) {
    && Distinct(paths) && DistinctItems(pending)
    && (forall p :: p in paths ==> p != [] && p[..|p| - 1] in taken)
    && (forall d :: d in pending ==> d.path !in taken && (d.path == [] || d.path[..|d.path| - 1] in taken))
    && (forall t :: t in taken && t != [] ==> t[..|t| - 1] in taken)
  }

  lemma OnceMore(paths: seq<Path>, pending: seq<Pending>, taken: set<Path>, files: seq<Path>, directories: seq<Pending>, k: nat)
    requires pending != [] && Once(paths, pending, taken)
    requires pending[0].directory.Directory? && Sound(pending[0], k, files, directories)
    requires Distinct(files) && DistinctItems(directories)
    ensures Once(paths + files, pending[1..] + directories, taken + {pending[0].path})
  {
    var current := pending[0];
    forall p | p in files
      ensures p != [] && p[..|p| - 1] == current.path && p !in paths
    {
    }
    forall d | d in directories
      ensures d.path != [] && d.path[..|d.path| - 1] == current.path
      ensures d.path !in taken && d.path != current.path && forall other :: other in pending ==> other.path != d.path
    {
      assert current in pending;
      assert current.path !in taken;
    }
    OnceDistinct(paths, pending, files, directories);
  }

  lemma OnceDistinct(paths: seq<Path>, pending: seq<Pending>, files: seq<Path>, directories: seq<Pending>)
    requires Distinct(paths) && Distinct(files) && (forall p :: p in files ==> p !in paths)
    requires pending != [] && DistinctItems(pending) && DistinctItems(directories)
    requires forall d, other :: d in directories && other in pending ==> other.path != d.path
    ensures Distinct(paths + files) && DistinctItems(pending[1..] + directories)
  {
    var all := pending[1..] + directories;
    forall i, j | 0 <= i < j < |all|
      ensures all[i].path != all[j].path
    {
      if i < |pending| - 1 <= j {
        assert all[i] in pending && all[j] in directories;
      }
    }
    forall i, j | 0 <= i < j < |paths + files|
      ensures (paths + files)[i] != (paths + files)[j]
    {
      if i < |paths| <= j {
        assert (paths + files)[j] in files;
      }
    }
  }

  ghost predicate Queued(root: Node, pending: seq<Pending>)
    requires root.Directory?
  {
    forall d :: d in pending ==>
      && d.directory.Directory? && InTree(root.entries, d) && WellFormedTree(d.directory)
      && Reached(root, d.path, d.directory) && d.depth == |d.path|
  }

  /** Every file of the tree is listed or lies below a queued directory. */
  ghost predicate Accounted(root: Node, paths: seq<Path>, pending: seq<Pending>)
    requires root.Directory?
  {
    forall f :: HasFile(root.entries, f) ==> f in paths || SomewhereBelow(pending, f)
  }

  lemma AccountedOn(root: Node, paths: seq<Path>, pending: seq<Pending>, files: seq<Path>, directories: seq<Pending>)
    requires root.Directory? && Accounted(root, paths, pending)
    requires pending != [] && pending[0].directory.Directory?
    requires Complete(pending[0], |pending[0].directory.entries|, files, directories)
    ensures Accounted(root, paths + files, pending[1..] + directories)
  {
    var rest := pending[1..] + directories;
    forall f | HasFile(root.entries, f)
      ensures f in paths + files || SomewhereBelow(rest, f)
    {
      if f !in paths {
        var item :| item in pending && Below(item, f);
        if item == pending[0] {
          CompleteHandsOn(pending[0], files, directories, f);
          if f !in files {
            var deeper :| deeper in directories && Below(deeper, f);
            assert deeper in rest;
          }
        } else {
          assert item in rest;
        }
      }
    }
  }

  ghost predicate AllFiles(root: Node, paths: seq<Path>)
    requires root.Directory?
  {
    forall p :: p in paths ==> HasFile(root.entries, p)
  }

  function PathsOf(items: seq<Pending>): set<Path> {
    set item | item in items :: item.path
  }

  function EntryCount(items: seq<Pending>): nat {
    if items == [] then 0
    else EntryCount(items[..|items| - 1]) + (if Last(items).directory.Directory? then |Last(items).directory.entries| else 0)
  }

  /** Directories that were looked into: different ones, all of them in the tree. */
  ghost predicate Visited(root: Node, visited: seq<Pending>) {
    && DistinctItems(visited)
    && forall v :: v in visited ==> Reached(root, v.path, v.directory) && v.depth == |v.path|
  }

  /** What holds whenever the loop looks at its queue. */
  ghost predicate WalkInv(root: Node, paths: seq<Path>, pending: seq<Pending>, visited: seq<Pending>, truncated: bool) {
    && root.Directory? && Queued(root, pending) && Once(paths, pending, PathsOf(visited)) && AllFiles(root, paths)
    && Visited(root, visited)
    && (!truncated ==> Accounted(root, paths, pending))
  }

  /** Why a listing may be incomplete. */
  ghost predicate ReasonToTruncate(paths: seq<Path>, visited: seq<Pending>) {
    || |paths| == MAX_WORKSPACE_FILES
    || |visited| == MAX_WORKSPACE_DIRECTORIES
    || EntryCount(visited) >= MAX_WORKSPACE_FILE_CANDIDATES
    || exists v :: v in visited && v.directory.Directory? && Troublesome(v)
  }

  lemma WalkStarts(root: Node)
    requires root.Directory? && WellFormedTree(root)
    ensures WalkInv(root, [], [Pending([], root, 0)], [], false)
  {
    assert PathsOf([]) == {};
    RootAccounted(root);
  }

  lemma WalkGoesOn(root: Node, paths: seq<Path>, pending: seq<Pending>, visited: seq<Pending>, truncated: bool, scan: Scan, k: nat)
    requires WalkInv(root, paths, pending, visited, truncated) && pending != []
    requires pending[0].directory.Directory? && Sound(pending[0], k, scan.files, scan.directories)
    requires !scan.truncated && !scan.failed ==>
      Complete(pending[0], |pending[0].directory.entries|, scan.files, scan.directories)
    requires Distinct(scan.files) && DistinctItems(scan.directories)
    ensures WalkInv(root, paths + scan.files, pending[1..] + scan.directories, visited + [pending[0]],
                    truncated || scan.truncated || scan.failed)
  {
    FoundIsThere(root, paths, pending, k, scan.files, scan.directories);
    OnceMore(paths, pending, PathsOf(visited), scan.files, scan.directories, k);
    PathsGrow(visited, pending[0]);
    if !truncated && !scan.truncated && !scan.failed {
      AccountedOn(root, paths, pending, scan.files, scan.directories);
    }
    HeadIsVisited(root, pending, visited);
  }

  lemma HeadIsVisited(root: Node, pending: seq<Pending>, visited: seq<Pending>)
    requires root.Directory? && pending != [] && Queued(root, pending) && Visited(root, visited)
    requires forall d :: d in pending ==> d.path !in PathsOf(visited)
    ensures Visited(root, visited + [pending[0]])
  {
    assert pending[0] in pending;
    VisitedGrows(root, visited, pending[0]);
  }

  lemma PathsGrow(visited: seq<Pending>, current: Pending)
    ensures PathsOf(visited + [current]) == PathsOf(visited) + {current.path}
  {
    assert current in visited + [current];
    assert forall v :: v in visited ==> v in visited + [current];
  }

  /** What a scan of the head found keeps the queue and the list within the tree. */
  lemma FoundIsThere(root: Node, paths: seq<Path>, pending: seq<Pending>, k: nat, files: seq<Path>, directories: seq<Pending>)
    requires root.Directory? && pending != [] && Queued(root, pending) && AllFiles(root, paths)
    requires pending[0].directory.Directory? && Sound(pending[0], k, files, directories)
    ensures Queued(root, pending[1..] + directories) && AllFiles(root, paths + files)
  {
    var current := pending[0];
    assert current in pending;
    SoundIsInTree(root, current, k, files, directories);
    SoundIsReached(root, current, k, files, directories);
    forall d | d in pending[1..]
      ensures d in pending
    {
    }
  }

  lemma VisitedGrows(root: Node, visited: seq<Pending>, current: Pending)
    requires Visited(root, visited) && current.path !in PathsOf(visited)
    requires Reached(root, current.path, current.directory) && current.depth == |current.path|
    ensures Visited(root, visited + [current])
  {
    forall i | 0 <= i < |visited|
      ensures visited[i].path != current.path
    {
      assert visited[i] in visited;
    }
  }

  lemma SoundIsReached(root: Node, current: Pending, k: nat, files: seq<Path>, directories: seq<Pending>)
    requires Reached(root, current.path, current.directory) && current.depth == |current.path|
    requires Sound(current, k, files, directories)
    ensures forall d :: d in directories ==> Reached(root, d.path, d.directory) && d.depth == |d.path|
  {
    var entries := current.directory.entries;
    forall d | d in directories
      ensures Reached(root, d.path, d.directory) && d.depth == |d.path|
    {
      var i :| 0 <= i < k && entries[i].node.Directory? && entries[i].name !in IGNORED_WORKSPACE_DIRECTORIES
               && d == Pending(current.path + [entries[i].name], entries[i].node, current.depth + 1);
      assert d.path[..|d.path| - 1] == current.path;
      assert Entry(Last(d.path), d.directory) == entries[i];
    }
  }

  /** The head of the queue can be scanned; if it is at the root, it is the root. */
  lemma HeadOfQueue(root: Node, paths: seq<Path>, pending: seq<Pending>, visited: seq<Pending>, truncated: bool)
    requires WalkInv(root, paths, pending, visited, truncated) && pending != []
    ensures pending[0].directory.Directory? && DistinctNames(pending[0].directory.entries)
    ensures pending[0].path == [] ==> pending[0].directory == root
  {
    assert pending[0] in pending;
  }

  lemma WalkEnds(root: Node, paths: seq<Path>, visited: seq<Pending>)
    requires WalkInv(root, paths, [], visited, false)
    ensures forall f :: HasFile(root.entries, f) ==> f in paths
  {
  }

  lemma VisitedCount(visited: seq<Pending>, current: Pending)
    requires current.directory.Directory?
    ensures EntryCount(visited + [current]) == EntryCount(visited) + |current.directory.entries|
  {
    assert (visited + [current])[..|visited|] == visited;
  }

  lemma StillTroubled(visited: seq<Pending>, current: Pending)
    ensures (exists v :: v in visited && v.directory.Directory? && Troublesome(v)) ==>
              exists v :: v in visited + [current] && v.directory.Directory? && Troublesome(v)
    ensures current.directory.Directory? && Troublesome(current) ==>
              exists v :: v in visited + [current] && v.directory.Directory? && Troublesome(v)
  {
    if v :| v in visited && v.directory.Directory? && Troublesome(v) {
      assert v in visited + [current];
    }
    assert current in visited + [current];
  }

  /** `walkedWorkspaceFiles`: None stands for the error of a root that cannot be read. The sorting of
      the result is left to the caller here. Nothing is listed that is not there; nothing is left out
      unless the listing says so; and it says so only with a reason. */
  method WalkedWorkspaceFiles(root: Node) returns (r: Option<Listing>, ghost visited: seq<Pending>)
    requires WellFormedTree(root)
    ensures r.Some? ==> root.Directory? && AllFiles(root, r.value.paths)
    ensures r.Some? ==> Distinct(r.value.paths) && |r.value.paths| <= MAX_WORKSPACE_FILES
    ensures r.Some? && !r.value.truncated ==> forall f :: HasFile(root.entries, f) ==> f in r.value.paths
    ensures r.Some? && r.value.truncated ==> Visited(root, visited) && ReasonToTruncate(r.value.paths, visited)
    ensures r.None? ==> !root.Directory? || root.fault.Some?
  {
    visited := [];
    if !root.Directory? {
      return None, visited;
    }
    var pending := [Pending([], root, 0)];
    var paths: seq<Path> := [];
    var directories: nat, scanned: nat := 0, 0;
    var truncated := false;
    WalkStarts(root);
    while |pending| > 0 && |paths| < MAX_WORKSPACE_FILES && directories < MAX_WORKSPACE_DIRECTORIES
          && scanned < MAX_WORKSPACE_FILE_CANDIDATES
      invariant directories == |visited| <= MAX_WORKSPACE_DIRECTORIES && |paths| <= MAX_WORKSPACE_FILES
      invariant scanned <= EntryCount(visited)
      invariant |paths| == MAX_WORKSPACE_FILES ==> truncated
      invariant truncated ==> ReasonToTruncate(paths, visited)
      invariant WalkInv(root, paths, pending, visited, truncated)
      decreases MAX_WORKSPACE_DIRECTORIES - directories
    {
      var current := pending[0];
      directories := directories + 1;
      HeadOfQueue(root, paths, pending, visited, truncated);
      var scan, k := ScanDirectory(current, |paths|, scanned);
      if scan.failed && current.path == [] {
        return None, visited;
      }
      WalkGoesOn(root, paths, pending, visited, truncated, scan, k);
      VisitedCount(visited, current);
      StillTroubled(visited, current);
      visited := visited + [current];
      paths := paths + scan.files;
      pending := pending[1..] + scan.directories;
      scanned := scan.scanned;
      truncated := truncated || scan.truncated || scan.failed;
    }
    if |pending| > 0 || directories >= MAX_WORKSPACE_DIRECTORIES || scanned >= MAX_WORKSPACE_FILE_CANDIDATES {
      truncated := true;
    }
    if !truncated {
      WalkEnds(root, paths, visited);
    }
    return Some(Listing(paths, truncated)), visited;
  }

  lemma RootAccounted(root: Node)
    requires root.Directory?
    ensures Accounted(root, [], [Pending([], root, 0)])
    ensures InTree(root.entries, Pending([], root, 0))
  {
    var item := Pending([], root, 0);
    forall f | HasFile(root.entries, f)
      ensures SomewhereBelow([item], f) && HasFile(root.entries, [] + f)
    {
      assert f[0..] == f && [] + f == f;
      assert Below(item, f);
      assert item in [item];
    }
  }
}
