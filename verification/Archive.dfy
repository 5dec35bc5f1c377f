/** Snapshot archives: walking a project tree into entries, and extracting entries into a directory. */
module Archives {
  import opened Wrappers

  /** Path components below a directory; [] is the directory itself. */
  type RelPath = seq<string>

  /** A directory listing in walking order. `Special` stands for links, sockets and devices. */
  datatype Listing = Empty | Item(name: string, node: Node, rest: Listing)
  datatype Node = File(content: string) | Special | Dir(items: Listing)

  /** A directory on disk, as the map of everything below it. */
  datatype Stored = StoredDir | StoredFile(content: string)
  type Contents = map<RelPath, Stored>

  const BLANK: Contents := map[[] := StoredDir]

  datatype Entry = DirEntry(path: RelPath) | FileEntry(path: RelPath, content: string)

  const EXCLUDED := ".godot"

  predicate IsExcluded(name: string, node: Node) {
    node.Dir? && name == EXCLUDED
  }

  function Names(l: Listing): set<string> {
    match l
    case Empty => {}
    case Item(name, _, rest) => {name} + Names(rest)
  }

  /** Names in a directory are distinct. */
  predicate IsTree(l: Listing) {
    match l
    case Empty => true
    case Item(name, node, rest) => name !in Names(rest) && IsTree(rest) && (node.Dir? ==> IsTree(node.items))
  }

  // ---- Writing ----

  function Walk(at: RelPath, l: Listing): seq<Entry>
    decreases l
  {
    match l
    case Empty => []
    case Item(name, node, rest) =>
      (if IsExcluded(name, node) then [] else WalkNode(at + [name], node)) + Walk(at, rest)
  }

  function WalkNode(path: RelPath, node: Node): seq<Entry>
    decreases node
  {
    match node
    case File(content) => [FileEntry(path, content)]
    case Special => []
    case Dir(items) => [DirEntry(path)] + Walk(path, items)
  }

  // ---- Extracting ----

  predicate StartsWithDots(name: string) {
    |name| >= 2 && name[..2] == ".."
  }

  /** What the extraction refuses: a cleaned name that starts with two dots. */
  predicate IsUnsafe(path: RelPath) {
    path != [] && StartsWithDots(path[0])
  }

  /** Creates a directory with all its parents; fails where a file is in the way. */
  function MakeDirs(disk: Contents, path: RelPath): Option<Contents> {
    var above := if path == [] then Some(disk) else MakeDirs(disk, path[..|path| - 1]);
    if above.None? then None
    else if path !in above.value then Some(above.value[path := StoredDir])
    else if above.value[path] == StoredDir then above
    else None
  }

  function ExtractOne(disk: Contents, e: Entry): Option<Contents> {
    if IsUnsafe(e.path) then None
    else
      match e
      case DirEntry(path) => MakeDirs(disk, path)
      case FileEntry(path, content) =>
        if path == [] then None
        else
          var above := MakeDirs(disk, path[..|path| - 1]);
          if above.None? || (path in above.value && above.value[path] == StoredDir) then None
          else Some(above.value[path := StoredFile(content)])
  }

  function Extract(disk: Contents, entries: seq<Entry>): Option<Contents>
    decreases |entries|
  {
    if entries == [] then Some(disk)
    else
      var next := ExtractOne(disk, entries[0]);
      if next.None? then None else Extract(next.value, entries[1..])
  }

  /** Reads entry by entry until the end of the archive or the first refusal. */
  method ExtractArchive(entries: seq<Entry>, dest: Contents) returns (ok: bool, disk: Contents)
    ensures ok <==> Extract(dest, entries).Some?
    ensures ok ==> disk == Extract(dest, entries).value
  {
    disk := dest;
    var i := 0;
    while i < |entries|
      invariant i <= |entries|
      invariant Extract(disk, entries[i..]) == Extract(dest, entries)
    {
      var next := ExtractOne(disk, entries[i]);
      assert entries[i..][1..] == entries[i + 1..];
      if next.None? {
        return false, disk;
      }
      disk := next.value;
      i := i + 1;
    }
    ok := true;
  }

  // ---- What an archive keeps ----

  /** The tree without excluded directories and without anything but files and directories. */
  function Pruned(l: Listing): Listing
    decreases l
  {
    match l
    case Empty => Empty
    case Item(name, node, rest) =>
      if node.Special? || IsExcluded(name, node) then Pruned(rest)
      else Item(name, PrunedNode(node), Pruned(rest))
  }

  function PrunedNode(node: Node): Node {
    if node.Dir? then Dir(Pruned(node.items)) else node
  }

  /** Everything below a directory at the given place, except links and devices. */
  function Below(at: RelPath, l: Listing): Contents
    decreases l
  {
    match l
    case Empty => map[]
    case Item(name, node, rest) => BelowNode(at + [name], node) + Below(at, rest)
  }

  function BelowNode(path: RelPath, node: Node): Contents
    decreases node
  {
    match node
    case File(content) => map[path := StoredFile(content)]
    case Special => map[]
    case Dir(items) => map[path := StoredDir] + Below(path, items)
  }

  function ContentsOf(l: Listing): Contents {
    BLANK + Below([], l)
  }

  /** Some name at the top of the tree that the archive includes starts with two dots. */
  predicate HasUnsafeName(l: Listing) {
    match l
    case Empty => false
    case Item(name, node, rest) => (StartsWithDots(name) && !node.Special?) || HasUnsafeName(rest)
  }

  predicate IsPrefix(p: RelPath, q: RelPath) {
    |p| <= |q| && q[..|p|] == p
  }

  /** The directory and all above it exist, and nothing below it has one of the listing's names. */
  ghost predicate Room(disk: Contents, at: RelPath, l: Listing) {
    Stands(disk, at) && forall name, q | name in Names(l) && IsPrefix(at + [name], q) :: q !in disk
  }

  predicate Stands(disk: Contents, at: RelPath) {
    forall n | 0 <= n <= |at| :: at[..n] in disk && disk[at[..n]] == StoredDir
  }

  lemma {:induction false} MakeDirsStanding(disk: Contents, at: RelPath)
    requires Stands(disk, at)
    ensures MakeDirs(disk, at) == Some(disk)
  {
    assert at[..|at|] == at;
    if at != [] {
      var above := at[..|at| - 1];
      assert forall n | 0 <= n <= |above| :: above[..n] == at[..n];
      MakeDirsStanding(disk, above);
    }
  }

  /** Paths below a listing go through one of its names. */
  lemma {:induction false} BelowPaths(at: RelPath, l: Listing, q: RelPath)
    requires q in Below(at, l)
    ensures |q| > |at| && q[..|at|] == at && q[|at|] in Names(l)
    decreases l
  {
    if q in Below(at, l.rest) {
      BelowPaths(at, l.rest, q);
    } else {
      BelowNodePaths(at + [l.name], l.node, q);
    }
  }

  lemma {:induction false} BelowNodePaths(path: RelPath, node: Node, q: RelPath)
    requires q in BelowNode(path, node)
    ensures IsPrefix(path, q)
    decreases node
  {
    if node.Dir? && q in Below(path, node.items) {
      BelowPaths(path, node.items, q);
    }
  }

  lemma {:induction false} ExtractConcat(disk: Contents, a: seq<Entry>, b: seq<Entry>)
    ensures Extract(disk, a + b) ==
              if Extract(disk, a).None? then None else Extract(Extract(disk, a).value, b)
    decreases |a|
  {
    if a == [] {
      assert a + b == b;
    } else {
      assert (a + b)[0] == a[0] && (a + b)[1..] == a[1..] + b;
      var next := ExtractOne(disk, a[0]);
      if next.Some? {
        ExtractConcat(next.value, a[1..], b);
      }
    }
  }

  lemma {:induction false} WalkNodeExtracts(disk: Contents, path: RelPath, node: Node)
    requires path != [] && !StartsWithDots(path[0]) && (node.Dir? ==> IsTree(node.items))
    requires Stands(disk, path[..|path| - 1]) && forall q | IsPrefix(path, q) :: q !in disk
    ensures Extract(disk, WalkNode(path, node)) == Some(disk + BelowNode(path, PrunedNode(node)))
    decreases node
  {
    hide IsPrefix, IsTree;
    MakeDirsStanding(disk, path[..|path| - 1]);
    PrefixOfSelf(path);
    match node
    case File(content) =>
      OneEntry(disk, FileEntry(path, content));
      assert disk + map[path := StoredFile(content)] == disk[path := StoredFile(content)];
    case Special =>
      assert disk + map[] == disk;
    case Dir(items) =>
      var made := disk[path := StoredDir];
      assert MakeDirs(disk, path) == Some(made);
      RoomInNew(disk, path, items);
      WalkExtracts(made, path, items);
      ExtractConcat(disk, [DirEntry(path)], Walk(path, items));
      OneEntry(disk, DirEntry(path));
      assert made + Below(path, Pruned(items)) == disk + (map[path := StoredDir] + Below(path, Pruned(items)));
  }

  lemma PrefixOfSelf(path: RelPath)
    ensures IsPrefix(path, path)
  {
  }

  lemma OneEntry(disk: Contents, e: Entry)
    ensures Extract(disk, [e]) == ExtractOne(disk, e)
  {
    assert [e][1..] == [];
  }

  lemma RoomInNew(disk: Contents, path: RelPath, items: Listing)
    requires path != [] && Stands(disk, path[..|path| - 1]) && forall q | IsPrefix(path, q) :: q !in disk
    ensures Room(disk[path := StoredDir], path, items)
  {
    var above, made := path[..|path| - 1], disk[path := StoredDir];
    forall n | 0 <= n <= |path| ensures path[..n] in made && made[path[..n]] == StoredDir {
      if n < |path| {
        assert path[..n] == above[..n];
      } else {
        assert path[..n] == path;
      }
    }
    forall name, q | name in Names(items) && IsPrefix(path + [name], q) ensures q !in made {
      assert q[..|path|] == (path + [name])[..|path|] == path;
      assert IsPrefix(path, q);
    }
  }

  /** Extracting what a walk wrote adds the pruned tree, wherever there is room for it. */
  lemma {:induction false} WalkExtracts(disk: Contents, at: RelPath, l: Listing)
    requires IsTree(l) && Room(disk, at, l)
    requires if at == [] then !HasUnsafeName(l) else !StartsWithDots(at[0])
    ensures Extract(disk, Walk(at, l)) == Some(disk + Below(at, Pruned(l)))
    decreases l, 1
  {
    hide Extract, Walk, Below, Pruned, Room, HeadWalk, HeadBelow;
    if l.Empty? {
      EmptyExtracts(disk, at);
    } else {
      var next := disk + HeadBelow(at, l);
      HeadExtracts(disk, at, l);
      RoomForRest(disk, at, l);
      WalkExtracts(next, at, l.rest);
      ExtractConcat(disk, HeadWalk(at, l), Walk(at, l.rest));
      PrunedBelow(at, l);
      AddedInTurn(disk, HeadBelow(at, l), Below(at, Pruned(l.rest)));
    }
  }

  lemma EmptyExtracts(disk: Contents, at: RelPath)
    ensures Extract(disk, Walk(at, Empty)) == Some(disk + Below(at, Pruned(Empty)))
  {
    assert disk + map[] == disk;
  }

  lemma AddedInTurn(disk: Contents, a: Contents, b: Contents)
    ensures (disk + a) + b == disk + (a + b)
  {
  }

  /** What the first item of a listing contributes to the walk, and to what is rebuilt. */
  function HeadWalk(at: RelPath, l: Listing): seq<Entry>
    requires l.Item?
  {
    if IsExcluded(l.name, l.node) then [] else WalkNode(at + [l.name], l.node)
  }

  function HeadBelow(at: RelPath, l: Listing): Contents
    requires l.Item?
  {
    if IsExcluded(l.name, l.node) then map[] else BelowNode(at + [l.name], PrunedNode(l.node))
  }

  lemma PrunedBelow(at: RelPath, l: Listing)
    requires l.Item?
    ensures Below(at, Pruned(l)) == HeadBelow(at, l) + Below(at, Pruned(l.rest))
    ensures Walk(at, l) == HeadWalk(at, l) + Walk(at, l.rest)
  {
  }

  lemma {:induction false} HeadExtracts(disk: Contents, at: RelPath, l: Listing)
    requires l.Item? && IsTree(l) && Room(disk, at, l)
    requires if at == [] then !HasUnsafeName(l) else !StartsWithDots(at[0])
    ensures Extract(disk, HeadWalk(at, l)) == Some(disk + HeadBelow(at, l))
    decreases l, 0
  {
    assert disk + map[] == disk;
    var path := at + [l.name];
    assert path[..|path| - 1] == at;
    if !IsExcluded(l.name, l.node) && !l.node.Special? {
      NothingAt(disk, at, l);
      WalkNodeExtracts(disk, path, l.node);
    }
  }

  lemma NothingAt(disk: Contents, at: RelPath, l: Listing)
    requires l.Item? && Room(disk, at, l)
    ensures forall q | IsPrefix(at + [l.name], q) :: q !in disk
  {
    assert l.name in Names(l);
  }

  lemma RoomForRest(disk: Contents, at: RelPath, l: Listing)
    requires l.Item? && IsTree(l) && Room(disk, at, l)
    ensures Room(disk + HeadBelow(at, l), at, l.rest)
  {
    var added := HeadBelow(at, l);
    forall q | q in added ensures |q| > |at| && q[|at|] == l.name {
      BelowNodePaths(at + [l.name], PrunedNode(l.node), q);
      assert q[..|at| + 1][|at|] == l.name;
    }
    forall n | 0 <= n <= |at| ensures at[..n] in disk + added && (disk + added)[at[..n]] == StoredDir {
      assert |at[..n]| <= |at|;
    }
    forall name, q | name in Names(l.rest) && IsPrefix(at + [name], q) ensures q !in disk + added {
      assert q[..|at| + 1][|at|] == name;
    }
  }

  lemma {:induction false} UnsafeEntryRefused(disk: Contents, entries: seq<Entry>, k: nat)
    requires k < |entries| && IsUnsafe(entries[k].path)
    ensures Extract(disk, entries).None?
    decreases k
  {
    var next := ExtractOne(disk, entries[0]);
    if k > 0 && next.Some? {
      UnsafeEntryRefused(next.value, entries[1..], k - 1);
    }
  }

  lemma {:induction false} UnsafeNameWalked(l: Listing) returns (k: nat)
    requires HasUnsafeName(l)
    ensures k < |Walk([], l)| && IsUnsafe(Walk([], l)[k].path)
    decreases l
  {
    var first := if IsExcluded(l.name, l.node) then [] else WalkNode([] + [l.name], l.node);
    if StartsWithDots(l.name) && !l.node.Special? {
      k := 0;
      assert l.name[..2] == "..";
      assert EXCLUDED[..2] == ".g";
    } else {
      var m := UnsafeNameWalked(l.rest);
      k := |first| + m;
      assert Walk([], l)[k] == Walk([], l.rest)[m];
    }
  }

  /**
   * The round trip: extracting a snapshot into an empty directory rebuilds the tree without
   * excluded directories, links and devices; it succeeds exactly if no archived name at the top of
   * the tree starts with two dots.
   */
  lemma SnapshotRoundTrip(l: Listing)
    requires IsTree(l)
    ensures Extract(BLANK, Walk([], l)) ==
              if HasUnsafeName(l) then None else Some(ContentsOf(Pruned(l)))
  {
    if HasUnsafeName(l) {
      var k := UnsafeNameWalked(l);
      UnsafeEntryRefused(BLANK, Walk([], l), k);
    } else {
      assert Room(BLANK, [], l);
      WalkExtracts(BLANK, [], l);
    }
  }

  /** A second snapshot of what was rebuilt is the first one again. */
  lemma {:induction false} PrunedWalk(at: RelPath, l: Listing)
    ensures Walk(at, Pruned(l)) == Walk(at, l)
    decreases l
  {
    if l.Item? {
      PrunedWalk(at, l.rest);
      if l.node.Dir? {
        PrunedWalk(at + [l.name], l.node.items);
      }
    }
  }
}
