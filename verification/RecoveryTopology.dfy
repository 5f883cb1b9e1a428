/** The ownership topology of a recovery bundle: how the maintenance agent derives it from the
    files, and what the host accepts for the tree staged from those files. */
module RecoveryTopology {
  import opened ArchivePaths
  import opened BundlePolicy
  import opened Ordering
  import opened Values

  datatype FileRow = FileRow(path: Path, role: Role, size: nat, sha256: string, mode: string)

  datatype Entry = Entry(path: Path, isDirectory: bool, role: Role, owner: Owner)

  function FilePath(f: FileRow): Path { f.path }

  function EntryPath(e: Entry): Path { e.path }

  function FileEntry(f: FileRow): Entry { Entry(f.path, false, f.role, FileOwner(f.path)) }

  function DirectoryEntry(d: Path): Entry { Entry(d, true, DirectoryRole(d), DirectoryOwner(d)) }

  // ------------------------------------------------- maintenance agent's side

  function Longer(p: Path, k: nat): set<Path> {
    set j | k <= j < |p| && j >= 1 :: p[..j]
  }

  function DirectoryMap(ds: set<Path>, directory: Path -> Entry): map<Path, Entry> {
    map d | d in ds && d != HUB :: directory(d)
  }

  function WithDirectories(m: map<Path, Entry>, ds: set<Path>, directory: Path -> Entry): map<Path, Entry> {
    m + DirectoryMap(ds, directory)
  }

  function RecordedWith(files: seq<FileRow>, file: FileRow -> Entry, directory: Path -> Entry): map<Path, Entry> {
    if files == [] then map[]
    else
      var last := files[|files| - 1];
      WithDirectories(RecordedWith(files[..|files| - 1], file, directory), Ancestors(last.path), directory)[last.path := file(last)]
  }

  /** The map the agent fills: for each file its directories, then the file itself. */
  function Recorded(files: seq<FileRow>): map<Path, Entry> {
    RecordedWith(files, FileEntry, DirectoryEntry)
  }

  /** A map lists its keys in the order they were first put. */
  function PutKey(order: seq<Path>, p: Path): seq<Path> {
    if p in order then order else order + [p]
  }

  function WithParents(order: seq<Path>, p: Path): seq<Path>
    decreases |p|
  {
    if |p| <= 1 || p[..|p| - 1] == HUB then order else WithParents(PutKey(order, p[..|p| - 1]), p[..|p| - 1])
  }

  function RecordedOrder(files: seq<FileRow>): seq<Path> {
    if files == [] then []
    else
      var last := files[|files| - 1];
      PutKey(WithParents(RecordedOrder(files[..|files| - 1]), last.path), last.path)
  }

  function EntriesOf(order: seq<Path>, m: map<Path, Entry>): (r: seq<Entry>)
    requires forall p :: p in order ==> p in m
    ensures |r| == |order| && forall i :: 0 <= i < |order| ==> r[i] == m[order[i]]
  {
    seq(|order|, i requires 0 <= i < |order| => m[order[i]])
  }

  /** The order lists exactly the keys of the map, each once, and entries carry their key. */
  ghost predicate Listed(order: seq<Path>, m: map<Path, Entry>) {
    && (forall i, j :: 0 <= i < j < |order| ==> order[i] != order[j])
    && (forall p :: p in order <==> p in m)
    && (forall p :: p in m ==> m[p].path == p)
  }

  /** The recorded entries in path order, those whose paths compare equal in recording order. */
  ghost predicate IsTopology(r: seq<Entry>, files: seq<FileRow>, before: (Path, Path) -> bool) {
    && Listed(RecordedOrder(files), Recorded(files))
    && r == Sort(EntriesOf(RecordedOrder(files), Recorded(files)), EntryPath, before)
  }

  /** It is sorted and holds each recorded entry once. */
  lemma TopologyContents(r: seq<Entry>, files: seq<FileRow>, before: (Path, Path) -> bool)
    requires IsTopology(r, files, before)
    ensures DistinctKeys(r, EntryPath)
    ensures forall e :: e in r <==> e.path in Recorded(files) && Recorded(files)[e.path] == e
    ensures WeakOrder(before) ==> Sorted(r, EntryPath, before)
  {
    var values := EntriesOf(RecordedOrder(files), Recorded(files));
    EntriesMembers(RecordedOrder(files), Recorded(files));
    SameDistinct(values, r, EntryPath);
    SameMembers(r, values);
    if WeakOrder(before) { SortSorts(values, EntryPath, before); }
  }

  lemma EntriesMembers(order: seq<Path>, m: map<Path, Entry>)
    requires Listed(order, m)
    ensures DistinctKeys(EntriesOf(order, m), EntryPath)
    ensures forall e :: e in EntriesOf(order, m) <==> e.path in m && m[e.path] == e
  {
    var values := EntriesOf(order, m);
    forall e
      ensures e in values <==> e.path in m && m[e.path] == e
    {
      if e.path in m && m[e.path] == e {
        assert e.path in order;
        var i :| 0 <= i < |order| && order[i] == e.path;
        assert values[i] == e;
      }
    }
  }

  method Put(order: seq<Path>, m: map<Path, Entry>, e: Entry) returns (order': seq<Path>, m': map<Path, Entry>)
    requires Listed(order, m)
    ensures Listed(order', m') && m' == m[e.path := e] && order' == PutKey(order, e.path)
  {
    order' := if e.path in m then order else order + [e.path];
    m' := m[e.path := e];
  }

  /** The order in which the agent records really lists its map. */
  lemma {:induction false} OrderListed(files: seq<FileRow>)
    ensures Listed(RecordedOrder(files), Recorded(files))
  {
    if files != [] {
      var most, last := files[..|files| - 1], files[|files| - 1];
      OrderListed(most);
      ParentsListed(RecordedOrder(most), Recorded(most), last.path, DirectoryEntry);
      PutKeyListed(WithParents(RecordedOrder(most), last.path), WithDirectories(Recorded(most), Ancestors(last.path), DirectoryEntry), FileEntry(last));
    }
  }

  lemma {:induction false} ParentsListed(order: seq<Path>, m: map<Path, Entry>, p: Path, directory: Path -> Entry)
    requires Listed(order, m) && forall d :: directory(d).path == d
    ensures Listed(WithParents(order, p), WithDirectories(m, Ancestors(p), directory))
    decreases |p|
  {
    if |p| <= 1 || p[..|p| - 1] == HUB {
      assert WithDirectories(m, Ancestors(p), directory) == m;
    } else {
      var d := p[..|p| - 1];
      PutKeyListed(order, m, directory(d));
      ParentsListed(PutKey(order, d), m[d := directory(d)], d, directory);
      AncestorStep(p);
      assert d !in Ancestors(d);
      PutBeforeOthers(m, Ancestors(d), d, directory);
    }
  }

  lemma PutKeyListed(order: seq<Path>, m: map<Path, Entry>, e: Entry)
    requires Listed(order, m)
    ensures Listed(PutKey(order, e.path), m[e.path := e])
  {
  }

  lemma PutBeforeOthers(m: map<Path, Entry>, ds: set<Path>, d: Path, directory: Path -> Entry)
    requires d != HUB
    ensures WithDirectories(m[d := directory(d)], ds, directory) == WithDirectories(m, ds + {d}, directory)
  {
  }

  lemma AncestorStep(p: Path)
    requires |p| > 1
    ensures Ancestors(p) == Ancestors(p[..|p| - 1]) + {p[..|p| - 1]}
  {
    forall a
      ensures a in Ancestors(p) <==> a in Ancestors(p[..|p| - 1]) || a == p[..|p| - 1]
    {
      if a in Ancestors(p) {
        var k :| 1 <= k < |p| && a == p[..k];
        assert k < |p| - 1 ==> a == p[..|p| - 1][..k];
      }
      if a in Ancestors(p[..|p| - 1]) {
        var k :| 1 <= k < |p| - 1 && a == p[..|p| - 1][..k];
        assert a == p[..k];
      }
    }
  }

  lemma LongerStep(p: Path, k: nat)
    requires 1 <= k < |p|
    ensures Longer(p, k) == Longer(p, k + 1) + {p[..k]}
  {
    forall d
      ensures d in Longer(p, k) <==> d in Longer(p, k + 1) || d == p[..k]
    {
      if d in Longer(p, k) {
        var j :| k <= j < |p| && d == p[..j];
      }
    }
  }

  lemma OneDirectory(m: map<Path, Entry>, ds: set<Path>, d: Path, directory: Path -> Entry)
    ensures WithDirectories(m, ds + {d}, directory) ==
            if d == HUB then WithDirectories(m, ds, directory) else WithDirectories(m, ds, directory)[d := directory(d)]
  {
  }

  /** One more directory on the way up. */
  lemma ParentPut(m: map<Path, Entry>, p: Path, k: nat, directory: Path -> Entry)
    requires 1 <= k < |p|
    ensures WithDirectories(m, Longer(p, k), directory) ==
            var most := WithDirectories(m, Longer(p, k + 1), directory);
            if p[..k] == HUB then most else most[p[..k] := directory(p[..k])]
  {
    LongerStep(p, k);
    OneDirectory(m, Longer(p, k + 1), p[..k], directory);
  }

  lemma NoneLonger(m: map<Path, Entry>, p: Path, directory: Path -> Entry)
    ensures WithDirectories(m, Longer(p, |p|), directory) == m
  {
  }

  lemma LongerThanNone(p: Path)
    requires p != []
    ensures Longer(p, 1) == Ancestors(p)
  {
  }

  /** Record every directory on the way to a file; `directory` gives the entry of one. */
  method PutDirectories(order: seq<Path>, m: map<Path, Entry>, p: Path, directory: Path -> Entry)
    returns (order': seq<Path>, m': map<Path, Entry>)
    requires Listed(order, m) && forall d :: directory(d).path == d
    ensures Listed(order', m') && m' == WithDirectories(m, Ancestors(p), directory) && order' == WithParents(order, p)
  {
    order', m' := order, m;
    NoneLonger(m, p, directory);
    if p == [] { return; }
    var parent := p;
    while |parent| > 1
      invariant 1 <= |parent| <= |p| && parent == p[..|parent|]
      invariant Listed(order', m') && m' == WithDirectories(m, Longer(p, |parent|), directory)
      invariant WithParents(order', parent) == WithParents(order, p)
      decreases |parent|
    {
      var k := |parent| - 1;
      assert parent[..k] == p[..k];
      ParentPut(m, p, k, directory);
      parent := parent[..k];
      if parent == HUB {
        assert order' == WithParents(order, p);
        break;
      }
      order', m' := Put(order', m', directory(parent));
    }
    LongerThanNone(p);
  }

  method RecoveryTopology(files: seq<FileRow>, before: (Path, Path) -> bool) returns (r: seq<Entry>)
    ensures IsTopology(r, files, before)
  {
    var order: seq<Path>, paths: map<Path, Entry> := [], map[];
    for k := 0 to |files|
      invariant Listed(order, paths) && paths == Recorded(files[..k]) && order == RecordedOrder(files[..k])
    {
      order, paths := PutDirectories(order, paths, files[k].path, DirectoryEntry);
      order, paths := Put(order, paths, FileEntry(files[k]));
      assert files[..k + 1][..k] == files[..k];
    }
    assert files[..|files|] == files;
    r := Sort(EntriesOf(order, paths), EntryPath, before);
  }

  // -------------------------------------------------------------- host's side

  predicate EntryAccepted(e: Entry, stagedFiles: set<Path>, stagedDirectories: set<Path>, uid: int, gid: int) {
    && SafeRel(e.path) && ModeText(e.owner.mode)
    && (e.owner.uid == 0 || e.owner.uid == uid) && (e.owner.gid == 0 || e.owner.gid == gid)
    && Classify(e.path).Some?
    && e.path in (if e.isDirectory then stagedDirectories else stagedFiles)
    && HostPolicy(e.path, e.isDirectory, uid, gid) == HostOwner(e.owner.uid, e.owner.gid, Octal(e.owner.mode))
    && HostRole(e.path, e.isDirectory) == Some(e.role)
  }

  function Directories(topology: seq<Entry>): set<Path> {
    set e | e in topology && e.isDirectory :: e.path
  }

  predicate Declares(topology: seq<Entry>, p: Path, role: Role) {
    exists e :: e in topology && e.path == p && e.role == role
  }

  function Paths(topology: seq<Entry>): set<Path> {
    set e | e in topology :: e.path
  }

  predicate AllAccepted(topology: seq<Entry>, stagedFiles: set<Path>, stagedDirectories: set<Path>, uid: int, gid: int) {
    forall e :: e in topology ==> EntryAccepted(e, stagedFiles, stagedDirectories, uid, gid)
  }

  predicate HostAccepts(topology: seq<Entry>, inventory: map<Path, Role>, stagedFiles: set<Path>, stagedDirectories: set<Path>,
                        uid: int, gid: int) {
    && DistinctKeys(topology, EntryPath)
    && AllAccepted(topology, stagedFiles, stagedDirectories, uid, gid)
    && (forall p :: p in inventory ==> Classify(p).Some? && Declares(topology, p, inventory[p]))
    && Directories(topology) == stagedDirectories - {HUB}
  }

  method ValidateEntry(e: Entry, stagedFiles: set<Path>, stagedDirectories: set<Path>, uid: int, gid: int) returns (ok: bool)
    ensures ok <==> EntryAccepted(e, stagedFiles, stagedDirectories, uid, gid)
  {
    if !SafeRel(e.path) || !ModeText(e.owner.mode) { return false; }
    if !((e.owner.uid == 0 || e.owner.uid == uid) && (e.owner.gid == 0 || e.owner.gid == gid)) { return false; }
    if Classify(e.path) == None { return false; }
    if e.path !in (if e.isDirectory then stagedDirectories else stagedFiles) { return false; }
    if HostPolicy(e.path, e.isDirectory, uid, gid) != HostOwner(e.owner.uid, e.owner.gid, Octal(e.owner.mode)) { return false; }
    ok := HostRole(e.path, e.isDirectory) == Some(e.role);
  }

  lemma OneMore(topology: seq<Entry>, k: nat, stagedFiles: set<Path>, stagedDirectories: set<Path>, uid: int, gid: int)
    requires k < |topology|
    requires DistinctKeys(topology[..k], EntryPath) && AllAccepted(topology[..k], stagedFiles, stagedDirectories, uid, gid)
    ensures Paths(topology[..k + 1]) == Paths(topology[..k]) + {topology[k].path}
    ensures DistinctKeys(topology[..k + 1], EntryPath) <==> topology[k].path !in Paths(topology[..k])
    ensures AllAccepted(topology[..k + 1], stagedFiles, stagedDirectories, uid, gid)
            <==> EntryAccepted(topology[k], stagedFiles, stagedDirectories, uid, gid)
  {
    var most, all := topology[..k], topology[..k + 1];
    assert all == most + [topology[k]];
    assert topology[k] in all;
    if e :| e in most && e.path == topology[k].path {
      var i :| 0 <= i < |most| && most[i] == e;
      assert EntryPath(all[i]) == EntryPath(all[k]);
    }
  }

  lemma PrefixFails(topology: seq<Entry>, k: nat, stagedFiles: set<Path>, stagedDirectories: set<Path>, uid: int, gid: int)
    requires k <= |topology|
    ensures DistinctKeys(topology, EntryPath) ==> DistinctKeys(topology[..k], EntryPath)
    ensures AllAccepted(topology, stagedFiles, stagedDirectories, uid, gid) ==> AllAccepted(topology[..k], stagedFiles, stagedDirectories, uid, gid)
  {
    assert forall e :: e in topology[..k] ==> e in topology;
  }

  method ValidateEntries(topology: seq<Entry>, stagedFiles: set<Path>, stagedDirectories: set<Path>, uid: int, gid: int)
    returns (ok: bool, seen: set<Path>)
    ensures ok <==> DistinctKeys(topology, EntryPath) && AllAccepted(topology, stagedFiles, stagedDirectories, uid, gid)
    ensures ok ==> seen == Paths(topology)
  {
    seen, ok := {}, true;
    for k := 0 to |topology|
      invariant ok && DistinctKeys(topology[..k], EntryPath) && AllAccepted(topology[..k], stagedFiles, stagedDirectories, uid, gid)
      invariant seen == Paths(topology[..k])
    {
      OneMore(topology, k, stagedFiles, stagedDirectories, uid, gid);
      PrefixFails(topology, k + 1, stagedFiles, stagedDirectories, uid, gid);
      if topology[k].path in seen { return false, seen; }
      ok := ValidateEntry(topology[k], stagedFiles, stagedDirectories, uid, gid);
      if !ok { return; }
      seen := seen + {topology[k].path};
    }
    assert topology[..|topology|] == topology;
  }

  /** The role of the first entry declared for a path. */
  method DeclaredFor(topology: seq<Entry>, p: Path) returns (role: Option<Role>)
    requires DistinctKeys(topology, EntryPath)
    ensures forall r :: role == Some(r) <==> Declares(topology, p, r)
  {
    for k := 0 to |topology|
      invariant forall i :: 0 <= i < k ==> topology[i].path != p
    {
      if topology[k].path == p {
        assert forall i :: 0 <= i < |topology| && i != k ==> EntryPath(topology[i]) != EntryPath(topology[k]);
        return Some(topology[k].role);
      }
    }
    role := None;
  }

  method ValidateTopology(topology: seq<Entry>, inventory: map<Path, Role>, stagedFiles: set<Path>, stagedDirectories: set<Path>,
                          uid: int, gid: int) returns (ok: bool)
    ensures ok <==> HostAccepts(topology, inventory, stagedFiles, stagedDirectories, uid, gid)
  {
    var seen;
    ok, seen := ValidateEntries(topology, stagedFiles, stagedDirectories, uid, gid);
    if !ok { return; }
    var rest := inventory.Keys;
    while rest != {}
      invariant rest <= inventory.Keys
      invariant forall p :: p in inventory && p !in rest ==> Classify(p).Some? && Declares(topology, p, inventory[p])
      decreases rest
    {
      var p :| p in rest;
      rest := rest - {p};
      if Classify(p) == None || p !in seen { return false; }
      var declared := DeclaredFor(topology, p);
      if declared != Some(inventory[p]) { return false; }
    }
    ok := Directories(topology) == stagedDirectories - {HUB};
  }

  // ------------------------------------------------------------ the agreement

  /** The rows an accepted archive has, of files that can lie side by side in one tree: names
      without NUL, and no file where another needs a directory. */
  ghost predicate Admitted(files: seq<FileRow>, lower: string -> string) {
    && DistinctKeys(files, FilePath)
    && (forall f :: f in files ==> AllowedFile(f.path, lower) && Some(f.role) == DeclaredRole(f.path) && NoNul(f.path))
    && Leaves(files)
  }

  predicate Leaves(files: seq<FileRow>) {
    forall f, g :: f in files && g in files ==> f.path !in Ancestors(g.path)
  }

  function FilePaths(files: seq<FileRow>): set<Path> { set f | f in files :: f.path }

  function AncestorPaths(files: seq<FileRow>): set<Path> { set f, d | f in files && d in Ancestors(f.path) :: d }

  function Inventory(files: seq<FileRow>): map<Path, Role>
    requires DistinctKeys(files, FilePath)
  {
    map f | f in files :: f.path := f.role
  }

  /** The same entry up to the spelling of its mode. */
  predicate SameEntry(e: Entry, x: Entry) {
    && e.path == x.path && e.isDirectory == x.isDirectory && e.role == x.role
    && e.owner.uid == x.owner.uid && e.owner.gid == x.owner.gid
    && ModeText(e.owner.mode) && ModeText(x.owner.mode) && Octal(e.owner.mode) == Octal(x.owner.mode)
  }

  predicate Expected(e: Entry, files: seq<FileRow>) {
    if e.isDirectory then e.path in AncestorPaths(files) && e.path != HUB && SameEntry(e, DirectoryEntry(e.path))
    else exists f :: f in files && f.path == e.path && SameEntry(e, FileEntry(f))
  }

  /** The files with exactly their directories, each once and owned as the agent owns it, in any order. */
  ghost predicate Rearranged(topology: seq<Entry>, files: seq<FileRow>) {
    && DistinctKeys(topology, EntryPath)
    && (forall e :: e in topology ==> Expected(e, files))
    && Paths(topology) == FilePaths(files) + (AncestorPaths(files) - {HUB})
  }

  lemma PrefixFiles(files: seq<FileRow>)
    requires files != []
    ensures FilePaths(files) == FilePaths(files[..|files| - 1]) + {files[|files| - 1].path}
    ensures AncestorPaths(files) == AncestorPaths(files[..|files| - 1]) + Ancestors(files[|files| - 1].path)
    ensures Leaves(files) ==> Leaves(files[..|files| - 1])
    ensures DistinctKeys(files, FilePath) ==> DistinctKeys(files[..|files| - 1], FilePath) && files[|files| - 1].path !in FilePaths(files[..|files| - 1])
  {
    var most, last := files[..|files| - 1], files[|files| - 1];
    assert files == most + [last];
    assert forall k :: 0 <= k < |most| ==> FilePath(most[k]) == FilePath(files[k]);
  }

  function FileMap(files: seq<FileRow>, file: FileRow -> Entry): map<Path, Entry> {
    if files == [] then map[]
    else FileMap(files[..|files| - 1], file)[files[|files| - 1].path := file(files[|files| - 1])]
  }

  lemma {:induction false} FileMapContents(files: seq<FileRow>, file: FileRow -> Entry)
    requires DistinctKeys(files, FilePath)
    ensures FileMap(files, file).Keys == FilePaths(files)
    ensures forall f :: f in files ==> f.path in FileMap(files, file) && FileMap(files, file)[f.path] == file(f)
  {
    if files != [] {
      var most, last := files[..|files| - 1], files[|files| - 1];
      PrefixFiles(files);
      FileMapContents(most, file);
      var before := FileMap(most, file);
      forall f | f in files
        ensures f.path in FileMap(files, file) && FileMap(files, file)[f.path] == file(f)
      {
        assert f in most || f == last;
        assert f in most ==> f.path in FilePaths(most) && before[f.path] == file(f);
      }
    }
  }

  /** Directories recorded later override no earlier file. */
  lemma DirectoriesFirst(ds: set<Path>, more: set<Path>, files: map<Path, Entry>, p: Path, e: Entry, directory: Path -> Entry)
    requires files.Keys !! more
    ensures WithDirectories(DirectoryMap(ds, directory) + files, more, directory)[p := e] == DirectoryMap(ds + more, directory) + files[p := e]
  {
  }

  /** What the agent's map holds once no file stands where a directory is needed: every file
      has its entry, every directory its own, and nothing else is there. */
  lemma {:induction false} RecordedExact(files: seq<FileRow>, file: FileRow -> Entry, directory: Path -> Entry)
    requires Leaves(files) && DistinctKeys(files, FilePath)
    ensures RecordedWith(files, file, directory) == DirectoryMap(AncestorPaths(files), directory) + FileMap(files, file)
  {
    if files != [] {
      var most, last := files[..|files| - 1], files[|files| - 1];
      PrefixFiles(files);
      RecordedExact(most, file, directory);
      FileMapContents(most, file);
      assert last in files && forall f :: f in most ==> f in files;
      DirectoriesFirst(AncestorPaths(most), Ancestors(last.path), FileMap(most, file), last.path, file(last), directory);
    }
  }

  /** The entry the agent records for a path. */
  lemma RecordedEntry(files: seq<FileRow>, p: Path)
    requires Leaves(files) && DistinctKeys(files, FilePath)
    ensures p in Recorded(files) <==> p in FilePaths(files) || (p in AncestorPaths(files) && p != HUB)
    ensures p in FilePaths(files) ==> exists f :: f in files && f.path == p && Recorded(files)[p] == FileEntry(f)
    ensures p in AncestorPaths(files) && p != HUB ==> Recorded(files)[p] == DirectoryEntry(p)
  {
    RecordedExact(files, FileEntry, DirectoryEntry);
    FileMapContents(files, FileEntry);
    if p in FilePaths(files) {
      var f :| f in files && f.path == p;
      assert FileMap(files, FileEntry)[f.path] == FileEntry(f);
    }
  }

  lemma FileRowAgrees(f: FileRow, files: seq<FileRow>, lower: string -> string)
    requires Admitted(files, lower) && f in files
    ensures SafeRel(f.path) && HostAgrees(f.path, false, f.role, FileOwner(f.path))
  {
    FileAgrees(f.path, lower);
  }

  lemma DirectoryAgrees(d: Path, files: seq<FileRow>, lower: string -> string)
    requires Admitted(files, lower) && d in AncestorPaths(files) && d != HUB
    ensures SafeRel(d) && HostAgrees(d, true, DirectoryRole(d), DirectoryOwner(d))
  {
    var f :| f in files && d in Ancestors(f.path);
    AncestorAgrees(f.path, d, lower);
    assert Canonical(f.path) && NoNul(f.path);
    assert forall k :: 0 <= k < |d| ==> d[k] == f.path[k];
  }

  lemma RecordedIsExpected(e: Entry, files: seq<FileRow>, lower: string -> string)
    requires Admitted(files, lower) && e.path in Recorded(files) && Recorded(files)[e.path] == e
    ensures Expected(e, files)
  {
    RecordedEntry(files, e.path);
    if e.path in FilePaths(files) {
      var f :| f in files && f.path == e.path && e == FileEntry(f);
      FileRowAgrees(f, files, lower);
    } else {
      DirectoryAgrees(e.path, files, lower);
    }
  }

  /** A list of the entries of a map, each carrying its key, has the map's paths. */
  lemma PathsOfMap(topology: seq<Entry>, m: map<Path, Entry>, wanted: set<Path>)
    requires forall e :: e in topology <==> e.path in m && m[e.path] == e
    requires forall p :: p in m ==> m[p].path == p
    requires forall p :: p in m <==> p in wanted
    ensures Paths(topology) == wanted
  {
    forall p
      ensures p in Paths(topology) <==> p in wanted
    {
      if p in m { assert m[p] in topology; }
    }
  }

  lemma AgentPaths(topology: seq<Entry>, files: seq<FileRow>, before: (Path, Path) -> bool, lower: string -> string)
    requires Admitted(files, lower) && IsTopology(topology, files, before)
    ensures Paths(topology) == FilePaths(files) + (AncestorPaths(files) - {HUB})
  {
    var m := Recorded(files);
    TopologyContents(topology, files, before);
    forall p
      ensures p in m <==> p in FilePaths(files) + (AncestorPaths(files) - {HUB})
    {
      RecordedEntry(files, p);
    }
    PathsOfMap(topology, m, FilePaths(files) + (AncestorPaths(files) - {HUB}));
  }

  /** The agent's topology is one of the arrangements. */
  lemma AgentRearranged(topology: seq<Entry>, files: seq<FileRow>, before: (Path, Path) -> bool, lower: string -> string)
    requires Admitted(files, lower) && IsTopology(topology, files, before)
    ensures Rearranged(topology, files)
  {
    TopologyContents(topology, files, before);
    forall e | e in topology
      ensures Expected(e, files)
    {
      RecordedIsExpected(e, files, lower);
    }
    AgentPaths(topology, files, before, lower);
  }

  lemma AcceptedIsExpected(e: Entry, files: seq<FileRow>, lower: string -> string)
    requires Admitted(files, lower)
    requires EntryAccepted(e, FilePaths(files) + {MANIFEST}, AncestorPaths(files), APP, APP)
    ensures Expected(e, files)
  {
    assert Classify(HUB) == None && Classify(MANIFEST) == None;
    if e.isDirectory {
      DirectoryAgrees(e.path, files, lower);
    } else {
      var f :| f in files && f.path == e.path;
      FileRowAgrees(f, files, lower);
    }
  }

  lemma ExpectedIsAccepted(e: Entry, files: seq<FileRow>, lower: string -> string)
    requires Admitted(files, lower) && Expected(e, files)
    ensures EntryAccepted(e, FilePaths(files) + {MANIFEST}, AncestorPaths(files), APP, APP)
  {
    if e.isDirectory {
      DirectoryAgrees(e.path, files, lower);
      AgreedIsAccepted(e, DirectoryEntry(e.path), FilePaths(files) + {MANIFEST}, AncestorPaths(files));
    } else {
      var f :| f in files && f.path == e.path && SameEntry(e, FileEntry(f));
      FileRowAgrees(f, files, lower);
      AgreedIsAccepted(e, FileEntry(f), FilePaths(files) + {MANIFEST}, AncestorPaths(files));
    }
  }

  /** An entry the two sides agree on passes the host's checks. */
  lemma AgreedIsAccepted(e: Entry, x: Entry, stagedFiles: set<Path>, stagedDirectories: set<Path>)
    requires SafeRel(e.path) && HostAgrees(e.path, e.isDirectory, x.role, x.owner) && SameEntry(e, x)
    requires e.path in (if e.isDirectory then stagedDirectories else stagedFiles)
    ensures EntryAccepted(e, stagedFiles, stagedDirectories, APP, APP)
  {
    OwnedByRootOrApp(e.path, e.isDirectory);
  }

  lemma OwnedByRootOrApp(p: Path, isDirectory: bool)
    requires Classify(p).Some?
    ensures var o := HostPolicy(p, isDirectory, APP, APP); (o.uid == 0 || o.uid == APP) && (o.gid == 0 || o.gid == APP)
  {
  }

  /** For the tree staged from an accepted archive, the host accepts a topology exactly when it
      is an arrangement of the files and their directories, owned as the agent owns them. */
  lemma HostAcceptsExactly(topology: seq<Entry>, files: seq<FileRow>, lower: string -> string)
    requires Admitted(files, lower)
    ensures HostAccepts(topology, Inventory(files), FilePaths(files) + {MANIFEST}, AncestorPaths(files), APP, APP)
            <==> Rearranged(topology, files)
  {
    if HostAccepts(topology, Inventory(files), FilePaths(files) + {MANIFEST}, AncestorPaths(files), APP, APP) {
      AcceptedRearranged(topology, files, lower);
    }
    if Rearranged(topology, files) {
      RearrangedAccepted(topology, files, lower);
    }
  }

  lemma AcceptedRearranged(topology: seq<Entry>, files: seq<FileRow>, lower: string -> string)
    requires Admitted(files, lower)
    requires HostAccepts(topology, Inventory(files), FilePaths(files) + {MANIFEST}, AncestorPaths(files), APP, APP)
    ensures Rearranged(topology, files)
  {
    forall e | e in topology
      ensures Expected(e, files)
    {
      AcceptedIsExpected(e, files, lower);
    }
    forall p | p in FilePaths(files)
      ensures p in Paths(topology)
    {
      assert p in Inventory(files);
    }
    assert Directories(topology) <= Paths(topology);
  }

  lemma RearrangedDeclares(topology: seq<Entry>, files: seq<FileRow>, p: Path)
    requires DistinctKeys(files, FilePath) && Leaves(files) && Rearranged(topology, files) && p in Inventory(files)
    ensures Declares(topology, p, Inventory(files)[p])
  {
    assert p in FilePaths(files) && p !in AncestorPaths(files);
    assert p in Paths(topology);
    var e :| e in topology && e.path == p;
    assert Expected(e, files);
    var f :| f in files && f.path == e.path && SameEntry(e, FileEntry(f));
    assert Inventory(files)[f.path] == f.role by {
      CountedOnce(files, FilePath);
    }
  }

  lemma RearrangedDirectories(topology: seq<Entry>, files: seq<FileRow>)
    requires Leaves(files) && Rearranged(topology, files)
    ensures Directories(topology) == AncestorPaths(files) - {HUB}
  {
    forall d | d in AncestorPaths(files) - {HUB}
      ensures d in Directories(topology)
    {
      assert d in Paths(topology);
      var e :| e in topology && e.path == d;
      assert Expected(e, files) && d !in FilePaths(files);
    }
    forall d | d in Directories(topology)
      ensures d in AncestorPaths(files) - {HUB}
    {
      var e :| e in topology && e.isDirectory && e.path == d;
      assert Expected(e, files);
    }
  }

  lemma RearrangedAccepted(topology: seq<Entry>, files: seq<FileRow>, lower: string -> string)
    requires Admitted(files, lower) && Rearranged(topology, files)
    ensures HostAccepts(topology, Inventory(files), FilePaths(files) + {MANIFEST}, AncestorPaths(files), APP, APP)
  {
    forall e | e in topology
      ensures EntryAccepted(e, FilePaths(files) + {MANIFEST}, AncestorPaths(files), APP, APP)
    {
      ExpectedIsAccepted(e, files, lower);
    }
    forall p | p in Inventory(files)
      ensures Classify(p).Some? && Declares(topology, p, Inventory(files)[p])
    {
      RearrangedDeclares(topology, files, p);
      var f :| f in files && f.path == p;
      FileRowAgrees(f, files, lower);
    }
    RearrangedDirectories(topology, files);
  }

  lemma DatabaseIdentity(e: Entry, stagedFiles: set<Path>, stagedDirectories: set<Path>, uid: int, gid: int)
    requires e.path == DATABASE && !e.isDirectory && e.owner == Owner(10001, 10001, "0660")
    requires EntryAccepted(e, stagedFiles, stagedDirectories, uid, gid)
    ensures uid == APP && gid == APP
  {
    assert Classify(DATABASE) == Some(Data);
  }

  lemma DatabaseOwner()
    ensures FileOwner(DATABASE) == Owner(10001, 10001, "0660")
  {
    assert SIGNING[0] != DATABASE[0] && |ADB| > |DATABASE|;
  }

  lemma AgentDatabaseEntry(topology: seq<Entry>, files: seq<FileRow>, before: (Path, Path) -> bool) returns (e: Entry)
    requires Leaves(files) && DistinctKeys(files, FilePath) && IsTopology(topology, files, before) && DATABASE in FilePaths(files)
    ensures e in topology && e.path == DATABASE && !e.isDirectory && e.owner == Owner(10001, 10001, "0660")
  {
    TopologyContents(topology, files, before);
    RecordedEntry(files, DATABASE);
    e := Recorded(files)[DATABASE];
    DatabaseOwner();
  }

  /** The host accepts what the agent wrote, and only on the appliance's own user and group. */
  lemma HostAcceptsAgentIff(topology: seq<Entry>, files: seq<FileRow>, before: (Path, Path) -> bool, lower: string -> string, uid: int, gid: int)
    requires Admitted(files, lower) && IsTopology(topology, files, before) && DATABASE in FilePaths(files)
    ensures HostAccepts(topology, Inventory(files), FilePaths(files) + {MANIFEST}, AncestorPaths(files), uid, gid)
            <==> uid == APP && gid == APP
  {
    if uid == APP && gid == APP {
      AgentRearranged(topology, files, before, lower);
      HostAcceptsExactly(topology, files, lower);
    } else if HostAccepts(topology, Inventory(files), FilePaths(files) + {MANIFEST}, AncestorPaths(files), uid, gid) {
      var e := AgentDatabaseEntry(topology, files, before);
      DatabaseIdentity(e, FilePaths(files) + {MANIFEST}, AncestorPaths(files), uid, gid);
      assert false;
    }
  }
}
