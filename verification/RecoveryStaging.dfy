/** From an accepted archive to the host: the files are staged side by side in a fresh
    directory, and the host validates the tree it finds there against the manifest. */
module RecoveryStaging {
  import opened ArchiveInventory
  import opened ArchivePaths
  import opened BundlePolicy
  import opened HostValidation
  import opened Ordering
  import opened RecoveryTopology
  import opened ReleaseVersions
  import opened Values

  /** The octal number of a mode text; zero, which counts as no mode, for any other text. */
  function ModeNumber(text: string): int {
    if ModeText(text) then Octal(text) else 0
  }

  function Modes(files: seq<FileRow>): map<Path, int> {
    if files == [] then map[]
    else Modes(files[..|files| - 1])[files[|files| - 1].path := ModeNumber(files[|files| - 1].mode)]
  }

  predicate HasMode(name: Path, modes: map<Path, int>) {
    name == MANIFEST || (name in modes && modes[name] != 0)
  }

  /** One entry: its directories are made, then the file is created where nothing may be. */
  function StageOne(tree: Staged, e: ArchiveEntry, modes: map<Path, int>): Option<Staged> {
    if e.isDirectory then Some(tree)
    else if !HasMode(e.name, modes) || !NoNul(e.name) then None
    else if exists d :: d in Ancestors(e.name) && d in tree.files then None
    else if e.name in tree.files || e.name in tree.directories then None
    else Some(Staged(tree.files[e.name := e.data], tree.directories + Ancestors(e.name)))
  }

  function StageAll(entries: seq<ArchiveEntry>, modes: map<Path, int>): Option<Staged> {
    if entries == [] then Some(Staged(map[], {}))
    else
      var tree := StageAll(entries[..|entries| - 1], modes);
      if tree.None? then None else StageOne(tree.value, entries[|entries| - 1], modes)
  }

  lemma {:induction false} StageFails(entries: seq<ArchiveEntry>, k: nat, modes: map<Path, int>)
    requires k <= |entries| && StageAll(entries[..k], modes) == None
    ensures StageAll(entries, modes) == None
    decreases |entries|
  {
    if k == |entries| {
      assert entries[..k] == entries;
    } else {
      assert entries[..|entries| - 1][..k] == entries[..k];
      StageFails(entries[..|entries| - 1], k, modes);
    }
  }

  /** None where staging throws, after removing what it had made. */
  method StageFullRecovery(entries: seq<ArchiveEntry>, files: seq<FileRow>) returns (r: Option<Staged>)
    ensures r == StageAll(entries, Modes(files))
  {
    var modes: map<Path, int> := map[];
    for k := 0 to |files|
      invariant modes == Modes(files[..k])
    {
      assert files[..k + 1][..k] == files[..k];
      modes := modes[files[k].path := ModeNumber(files[k].mode)];
    }
    assert files[..|files|] == files;
    var tree := Staged(map[], {});
    for k := 0 to |entries|
      invariant StageAll(entries[..k], modes) == Some(tree)
    {
      assert entries[..k + 1][..k] == entries[..k];
      var next := StageOne(tree, entries[k], modes);
      if next == None {
        StageFails(entries, k + 1, modes);
        return None;
      }
      tree := next.value;
    }
    assert entries[..|entries|] == entries;
    r := Some(tree);
  }

  // ------------------------------------------------------ what can be staged

  function StagedNames(entries: seq<ArchiveEntry>): set<Path> {
    set e | e in entries && !e.isDirectory :: e.name
  }

  function StagedParents(entries: seq<ArchiveEntry>): set<Path> {
    set e, d | e in entries && !e.isDirectory && d in Ancestors(e.name) :: d
  }

  predicate Clear(a: ArchiveEntry, b: ArchiveEntry) {
    a.isDirectory || b.isDirectory || (a.name != b.name && a.name !in Ancestors(b.name) && b.name !in Ancestors(a.name))
  }

  /** Every file has a mode and a name a file system holds, and none is in another's way. */
  predicate SideBySide(entries: seq<ArchiveEntry>, modes: map<Path, int>) {
    && (forall e :: e in entries && !e.isDirectory ==> HasMode(e.name, modes) && NoNul(e.name))
    && (forall i, j :: 0 <= i < j < |entries| ==> Clear(entries[i], entries[j]))
  }

  lemma StagedStep(most: seq<ArchiveEntry>, last: ArchiveEntry)
    ensures StagedNames(most + [last]) == StagedNames(most) + (if last.isDirectory then {} else {last.name})
    ensures StagedParents(most + [last]) == StagedParents(most) + (if last.isDirectory then {} else Ancestors(last.name))
  {
    var all := most + [last];
    assert forall e :: e in all <==> e in most || e == last;
  }

  /** The last entry is in nobody's way exactly if staging it succeeds. */
  lemma StageOneIff(most: seq<ArchiveEntry>, last: ArchiveEntry, tree: Staged, modes: map<Path, int>)
    requires tree.files.Keys == StagedNames(most) && tree.directories == StagedParents(most)
    ensures StageOne(tree, last, modes).Some? <==>
            (!last.isDirectory ==> HasMode(last.name, modes) && NoNul(last.name)) && forall e :: e in most ==> Clear(e, last)
  {
    if !last.isDirectory {
      assert (exists d :: d in Ancestors(last.name) && d in tree.files) <==> exists e :: e in most && !e.isDirectory && e.name in Ancestors(last.name);
      assert last.name in tree.files <==> exists e :: e in most && !e.isDirectory && e.name == last.name;
      assert last.name in tree.directories <==> exists e :: e in most && !e.isDirectory && last.name in Ancestors(e.name);
    }
  }

  /** Staging succeeds exactly then, and makes the files and their directories, nothing else. */
  lemma {:induction false} StagedIff(entries: seq<ArchiveEntry>, modes: map<Path, int>)
    ensures StageAll(entries, modes).Some? <==> SideBySide(entries, modes)
    ensures StageAll(entries, modes).Some? ==>
              var tree := StageAll(entries, modes).value;
              tree.files.Keys == StagedNames(entries) && tree.directories == StagedParents(entries)
  {
    if entries != [] {
      var most, last := entries[..|entries| - 1], entries[|entries| - 1];
      assert entries == most + [last];
      StagedIff(most, modes);
      SideBySideStep(most, last, modes);
      StagedStep(most, last);
      if StageAll(most, modes).Some? {
        StageOneIff(most, last, StageAll(most, modes).value, modes);
      }
    }
  }

  /** Each staged file holds what the archive does. */
  lemma {:induction false} StagedContents(entries: seq<ArchiveEntry>, modes: map<Path, int>)
    requires StageAll(entries, modes).Some?
    ensures var files := StageAll(entries, modes).value.files;
            forall e :: e in entries && !e.isDirectory ==> e.name in files && files[e.name] == e.data
  {
    if entries != [] {
      var most, last := entries[..|entries| - 1], entries[|entries| - 1];
      assert entries == most + [last];
      StagedContents(most, modes);
      assert forall e :: e in entries <==> e in most || e == last;
    }
  }

  lemma SideBySideStep(most: seq<ArchiveEntry>, last: ArchiveEntry, modes: map<Path, int>)
    ensures SideBySide(most + [last], modes) <==>
            && SideBySide(most, modes)
            && (!last.isDirectory ==> HasMode(last.name, modes) && NoNul(last.name))
            && (forall e :: e in most ==> Clear(e, last))
  {
    var all := most + [last];
    assert forall i :: 0 <= i < |most| ==> all[i] == most[i];
    assert forall e :: e in all <==> e in most || e == last;
    if SideBySide(all, modes) {
      forall i, j | 0 <= i < j < |most|
        ensures Clear(most[i], most[j])
      {
        assert Clear(all[i], all[j]);
      }
      forall e | e in most
        ensures Clear(e, last)
      {
        var i :| 0 <= i < |most| && most[i] == e;
        assert Clear(all[i], all[|most|]);
      }
    }
  }

  // ------------------------------------------------- what an accepted archive is

  lemma {:induction false} ModesKnown(files: seq<FileRow>)
    requires DistinctKeys(files, FilePath)
    ensures forall f :: f in files ==> f.path in Modes(files) && Modes(files)[f.path] == ModeNumber(f.mode)
  {
    if files != [] {
      var most, last := files[..|files| - 1], files[|files| - 1];
      PrefixFiles(files);
      ModesKnown(most);
      forall f | f in files
        ensures f.path in Modes(files) && Modes(files)[f.path] == ModeNumber(f.mode)
      {
        assert f in most || f == last;
        assert f in most ==> f.path in FilePaths(most);
      }
    }
  }

  lemma InventoryModeCounts(p: Path)
    ensures ModeNumber(InventoryMode(p)) != 0
  {
  }

  lemma ManifestApart(p: Path, lower: string -> string)
    requires AllowedFile(p, lower)
    ensures MANIFEST !in Ancestors(p) && p !in Ancestors(MANIFEST) && p != MANIFEST
  {
    AllowedFiles(p, lower);
    if UnderDataRoot(p) || InService(p) { RootsApart(p); }
    assert p[0] == "classroom-hub" || p[0] == "services" || p[0] == "recovery-secrets";
    assert MANIFEST[0] != p[0];
  }

  predicate AllNoNul(files: seq<FileRow>) {
    forall f :: f in files ==> NoNul(f.path)
  }

  /** What acceptance says of each entry that is a file. */
  lemma AcceptedEntry(e: ArchiveEntry, entries: seq<ArchiveEntry>, m: Manifest, lower: string -> string, sha: Bytes -> string,
                      before: (Path, Path) -> bool)
    requires WeakOrder(before) && Acceptable(entries, m, lower, sha, before) && e in entries && Inventoried(e)
    ensures AllowedFile(e.name, lower) && e.name in FilePaths(m.files) && HasMode(e.name, Modes(m.files))
  {
    var rows := RowsOf(entries, lower, sha);
    AcceptedFiles(entries, m, lower, sha, before);
    RowsMembers(entries, lower, sha);
    SameMembers(m.files, rows);
    ModesKnown(m.files);
    var f :| f in rows && f.path == e.name;
    InventoryModeCounts(e.name);
  }

  lemma FileHasEntry(f: FileRow, entries: seq<ArchiveEntry>, m: Manifest, lower: string -> string, sha: Bytes -> string,
                     before: (Path, Path) -> bool) returns (i: nat)
    requires WeakOrder(before) && Acceptable(entries, m, lower, sha, before) && f in m.files
    ensures i < |entries| && Inventoried(entries[i]) && entries[i].name == f.path
  {
    AcceptedFiles(entries, m, lower, sha, before);
    RowsMembers(entries, lower, sha);
    SameMembers(m.files, RowsOf(entries, lower, sha));
    var e :| e in entries && Inventoried(e) && e.name == f.path;
    i :| 0 <= i < |entries| && entries[i] == e;
  }

  lemma StagedFilesAreLeaves(entries: seq<ArchiveEntry>, m: Manifest, lower: string -> string, sha: Bytes -> string, before: (Path, Path) -> bool)
    requires WeakOrder(before) && Acceptable(entries, m, lower, sha, before) && SideBySide(entries, Modes(m.files))
    ensures Leaves(m.files) && AllNoNul(m.files)
  {
    forall f | f in m.files
      ensures NoNul(f.path)
    {
      var i := FileHasEntry(f, entries, m, lower, sha, before);
      assert entries[i] in entries;
    }
    forall f, g | f in m.files && g in m.files
      ensures f.path !in Ancestors(g.path)
    {
      var i := FileHasEntry(f, entries, m, lower, sha, before);
      var j := FileHasEntry(g, entries, m, lower, sha, before);
      if i < j { assert Clear(entries[i], entries[j]); }
      if j < i { assert Clear(entries[j], entries[i]); }
    }
  }

  lemma ClearEntries(a: ArchiveEntry, b: ArchiveEntry, entries: seq<ArchiveEntry>, m: Manifest, lower: string -> string, sha: Bytes -> string,
                     before: (Path, Path) -> bool)
    requires WeakOrder(before) && Acceptable(entries, m, lower, sha, before) && Leaves(m.files)
    requires a in entries && b in entries && a.name != b.name
    ensures Clear(a, b)
  {
    if Inventoried(a) { AcceptedEntry(a, entries, m, lower, sha, before); ManifestApart(a.name, lower); }
    if Inventoried(b) { AcceptedEntry(b, entries, m, lower, sha, before); ManifestApart(b.name, lower); }
  }

  lemma LeavesStageSideBySide(entries: seq<ArchiveEntry>, m: Manifest, lower: string -> string, sha: Bytes -> string, before: (Path, Path) -> bool)
    requires WeakOrder(before) && Acceptable(entries, m, lower, sha, before) && Leaves(m.files) && AllNoNul(m.files)
    ensures SideBySide(entries, Modes(m.files))
  {
    forall e | e in entries && !e.isDirectory
      ensures HasMode(e.name, Modes(m.files)) && NoNul(e.name)
    {
      if Inventoried(e) { AcceptedEntry(e, entries, m, lower, sha, before); }
    }
    forall i, j | 0 <= i < j < |entries|
      ensures Clear(entries[i], entries[j])
    {
      assert Folded(entries[i].name, lower) != Folded(entries[j].name, lower);
      ClearEntries(entries[i], entries[j], entries, m, lower, sha, before);
    }
  }

  /** The staged tree of an accepted archive is the one its rows describe. */
  lemma StagedTree(entries: seq<ArchiveEntry>, m: Manifest, lower: string -> string, sha: Bytes -> string, before: (Path, Path) -> bool)
    requires WeakOrder(before) && Acceptable(entries, m, lower, sha, before) && MANIFEST in Names(entries)
    ensures StagedNames(entries) == FilePaths(m.files) + {MANIFEST} && StagedParents(entries) == AncestorPaths(m.files)
  {
    forall e | e in entries && Inventoried(e)
      ensures e.name in FilePaths(m.files)
    {
      AcceptedEntry(e, entries, m, lower, sha, before);
    }
    forall f | f in m.files
      ensures f.path in StagedNames(entries)
    {
      var i := FileHasEntry(f, entries, m, lower, sha, before);
      assert entries[i] in entries;
    }
    var e :| e in entries && e.name == MANIFEST;
    assert EntryAllowed(MANIFEST, e.isDirectory, lower);
    assert Ancestors(MANIFEST) == {};
    ParentsOfNames(entries, m.files);
  }

  lemma ParentsOfNames(entries: seq<ArchiveEntry>, files: seq<FileRow>)
    requires StagedNames(entries) == FilePaths(files) + {MANIFEST} && Ancestors(MANIFEST) == {}
    ensures StagedParents(entries) == AncestorPaths(files)
  {
    forall d
      ensures d in StagedParents(entries) <==> d in AncestorPaths(files)
    {
      if d in StagedParents(entries) {
        var e :| e in entries && !e.isDirectory && d in Ancestors(e.name);
        assert e.name in StagedNames(entries);
      }
      if d in AncestorPaths(files) {
        var f :| f in files && d in Ancestors(f.path);
        assert f.path in FilePaths(files);
      }
    }
  }

  /** The archive reaches the host whole, and the host's validation of it passes. */
  ghost predicate Restorable(entries: seq<ArchiveEntry>, m: Manifest, host: Host, digit: char -> bool, sha: Bytes -> string) {
    var tree := StageAll(entries, Modes(m.files));
    tree.Some? && HostValidates(m, tree.value, host, digit, sha)
  }

  lemma AcceptedAdmitted(entries: seq<ArchiveEntry>, m: Manifest, lower: string -> string, sha: Bytes -> string, before: (Path, Path) -> bool)
    requires WeakOrder(before) && Acceptable(entries, m, lower, sha, before) && Leaves(m.files) && AllNoNul(m.files)
    ensures Admitted(m.files, lower)
    ensures m.version == 6 ==> IsTopology(m.topology, InventoryOf(entries, lower, sha, before), before)
    ensures Admitted(InventoryOf(entries, lower, sha, before), lower) && DATABASE in FilePaths(InventoryOf(entries, lower, sha, before))
    ensures multiset(m.files) == multiset(InventoryOf(entries, lower, sha, before))
  {
    var rows, actual := RowsOf(entries, lower, sha), InventoryOf(entries, lower, sha, before);
    AcceptedFiles(entries, m, lower, sha, before);
    RowsMembers(entries, lower, sha);
    SameMembers(rows, m.files);
    SameMembers(actual, m.files);
    SameDistinct(m.files, actual, FilePath);
  }

  lemma SameFiles(a: seq<FileRow>, b: seq<FileRow>)
    requires multiset(a) == multiset(b)
    ensures FilePaths(a) == FilePaths(b) && AncestorPaths(a) == AncestorPaths(b)
    ensures forall e :: Expected(e, a) ==> Expected(e, b)
  {
    SameMembers(a, b);
  }

  lemma HostJudgesDeclared(entries: seq<ArchiveEntry>, m: Manifest, lower: string -> string, sha: Bytes -> string,
                           before: (Path, Path) -> bool, uid: int, gid: int)
    requires WeakOrder(before) && Acceptable(entries, m, lower, sha, before) && m.version == 6 && Leaves(m.files) && AllNoNul(m.files)
    ensures Admitted(m.files, lower)
    ensures HostAccepts(m.topology, Inventory(m.files), FilePaths(m.files) + {MANIFEST}, AncestorPaths(m.files), uid, gid)
            <==> uid == APP && gid == APP
  {
    var actual := InventoryOf(entries, lower, sha, before);
    AcceptedAdmitted(entries, m, lower, sha, before);
    SameFiles(actual, m.files);
    if uid == APP && gid == APP {
      AgentRearranged(m.topology, actual, before, lower);
      HostAcceptsExactly(m.topology, m.files, lower);
    } else if HostAccepts(m.topology, Inventory(m.files), FilePaths(m.files) + {MANIFEST}, AncestorPaths(m.files), uid, gid) {
      var e := AgentDatabaseEntry(m.topology, actual, before);
      DatabaseIdentity(e, FilePaths(m.files) + {MANIFEST}, AncestorPaths(m.files), uid, gid);
      assert false;
    }
  }

  /** Every row is of a file of the archive, with its size and digest. */
  lemma {:induction false} RowsMeasured(entries: seq<ArchiveEntry>, lower: string -> string, sha: Bytes -> string)
    requires AllAdmitted(entries, lower)
    ensures forall f :: f in RowsOf(entries, lower, sha) ==>
              exists e :: e in entries && !e.isDirectory && e.name == f.path && |e.data| == f.size && sha(e.data) == f.sha256
  {
    if entries != [] {
      var most, last := entries[..|entries| - 1], entries[|entries| - 1];
      assert entries == most + [last];
      RowsMeasured(most, lower, sha);
      if Inventoried(last) { FileAgrees(last.name, lower); }
      forall f | f in RowsOf(entries, lower, sha)
        ensures exists e :: e in entries && !e.isDirectory && e.name == f.path && |e.data| == f.size && sha(e.data) == f.sha256
      {
        if f in RowsOf(most, lower, sha) {
          var e :| e in most && !e.isDirectory && e.name == f.path && |e.data| == f.size && sha(e.data) == f.sha256;
          assert e in entries;
        } else {
          assert last in entries;
        }
      }
    }
  }

  /** Once staged, every declared file is there as declared. */
  lemma AcceptedRowsHeld(entries: seq<ArchiveEntry>, m: Manifest, lower: string -> string, sha: Bytes -> string, before: (Path, Path) -> bool)
    requires WeakOrder(before) && Acceptable(entries, m, lower, sha, before) && Leaves(m.files) && AllNoNul(m.files)
    requires StageAll(entries, Modes(m.files)).Some?
    ensures RowsHeld(m.files, StageAll(entries, Modes(m.files)).value.files, sha)
  {
    var files := StageAll(entries, Modes(m.files)).value.files;
    AcceptedAdmitted(entries, m, lower, sha, before);
    AcceptedFiles(entries, m, lower, sha, before);
    StagedContents(entries, Modes(m.files));
    RowsMeasured(entries, lower, sha);
    RowsMembers(entries, lower, sha);
    SameMembers(m.files, RowsOf(entries, lower, sha));
    forall f | f in m.files
      ensures RowHeld(f, files, sha)
    {
      FileRowAgrees(f, m.files, lower);
      InventoryModeText(f.path);
      var e :| e in entries && !e.isDirectory && e.name == f.path && |e.data| == f.size && sha(e.data) == f.sha256;
    }
  }

  lemma InventoryModeText(p: Path)
    ensures ModeText(InventoryMode(p))
  {
  }

  lemma HeaderSettles(m: Manifest)
    requires HeaderAccepted(m) && m.version == 6
    ensures ContractHeld(m) <==> m.databaseSchemaVersion <= SUPPORTED_SCHEMA_VERSION
  {
  }

  /** What acceptance already settles of the host's other checks. */
  lemma AcceptedSettles(entries: seq<ArchiveEntry>, m: Manifest, lower: string -> string, sha: Bytes -> string, before: (Path, Path) -> bool)
    requires WeakOrder(before) && Acceptable(entries, m, lower, sha, before) && m.version == 6
    ensures ContractHeld(m) <==> m.databaseSchemaVersion <= SUPPORTED_SCHEMA_VERSION
    ensures ServicesAccepted(m.managedServices) && PairsComplete(FilePaths(m.files))
  {
    HeaderSettles(m);
    AcceptedFiles(entries, m, lower, sha, before);
    SameFiles(m.files, RowsOf(entries, lower, sha));
  }

  lemma AcceptedDatabase(entries: seq<ArchiveEntry>, m: Manifest, lower: string -> string, sha: Bytes -> string, before: (Path, Path) -> bool)
    requires WeakOrder(before) && Acceptable(entries, m, lower, sha, before)
    ensures DistinctKeys(m.files, FilePath) && RolePlaced(Inventory(m.files))
  {
    AcceptedFiles(entries, m, lower, sha, before);
    SameMembers(m.files, RowsOf(entries, lower, sha));
    RowsMembers(entries, lower, sha);
    var f :| f in m.files && f.path == DATABASE;
    DatabaseRole();
    RoleInInventory(m.files, f);
  }

  lemma RoleInInventory(files: seq<FileRow>, f: FileRow)
    requires DistinctKeys(files, FilePath) && f in files
    ensures f.path in Inventory(files) && Inventory(files)[f.path] == f.role
  {
    CountedOnce(files, FilePath);
  }

  lemma DatabaseRole()
    ensures DeclaredRole(DATABASE) == Some(Database)
  {
    assert DATABASE[0] != MASTER[0] && DATABASE[0] != KEYSTORE[0] && DATABASE[0] != PASSWORD[0];
    assert DATABASE[0] != VEYON_KEY[0] && DATABASE[0] != VEYON_NAME[0];
  }

  /** What is left for the host to refuse. */
  predicate HostSuited(m: Manifest, host: Host, digit: char -> bool) {
    && host.uid == APP && host.gid == APP
    && SameMajor(m.applicationVersion, host.installed, digit) && m.databaseSchemaVersion <= SUPPORTED_SCHEMA_VERSION
    && ServicesDeclared(m.managedServices, FilePaths(m.files))
  }

  lemma StagedIffSideBySide(entries: seq<ArchiveEntry>, m: Manifest, lower: string -> string, sha: Bytes -> string, before: (Path, Path) -> bool)
    requires WeakOrder(before) && Acceptable(entries, m, lower, sha, before)
    ensures StageAll(entries, Modes(m.files)).Some? <==> Leaves(m.files) && AllNoNul(m.files)
  {
    StagedIff(entries, Modes(m.files));
    if SideBySide(entries, Modes(m.files)) {
      StagedFilesAreLeaves(entries, m, lower, sha, before);
    } else if Leaves(m.files) && AllNoNul(m.files) {
      LeavesStageSideBySide(entries, m, lower, sha, before);
      assert false;
    }
  }

  /** Of every archive that the agent's verifier accepts: it can be staged exactly if no file
      stands where another needs a directory and no name holds a NUL; and then the host's
      validation passes exactly if the host runs with the appliance's user and group, is of the
      same major release, knows the database schema, and finds each service with files declared. */
  lemma AcceptedArchiveRestorableIff(entries: seq<ArchiveEntry>, m: Manifest, lower: string -> string, sha: Bytes -> string,
                                     before: (Path, Path) -> bool, host: Host, digit: char -> bool)
    requires WeakOrder(before) && Acceptable(entries, m, lower, sha, before) && m.version == 6 && MANIFEST in Names(entries)
    ensures StageAll(entries, Modes(m.files)).Some? <==> Leaves(m.files) && AllNoNul(m.files)
    ensures Restorable(entries, m, host, digit, sha) <==> Leaves(m.files) && AllNoNul(m.files) && HostSuited(m, host, digit)
  {
    StagedIffSideBySide(entries, m, lower, sha, before);
    if Leaves(m.files) && AllNoNul(m.files) {
      StagedIff(entries, Modes(m.files));
      StagedTree(entries, m, lower, sha, before);
      AcceptedRowsHeld(entries, m, lower, sha, before);
      AcceptedSettles(entries, m, lower, sha, before);
      AcceptedDatabase(entries, m, lower, sha, before);
      HostJudgesDeclared(entries, m, lower, sha, before, host.uid, host.gid);
    }
  }

  // ------------------------------------------------------------------ witnesses

  const IN_SERVICE: Path := ["services", "nodered", "a"]
  const BELOW_FILE: Path := ["services", "nodered", "a", "b"]
  const WITH_NUL: Path := ["services", "nodered", "a\0"]

  function FileAt(p: Path): ArchiveEntry { ArchiveEntry(p, false, []) }

  function SmallEntries(more: seq<Path>): seq<ArchiveEntry> {
    [FileAt(DATABASE), FileAt(MASTER)] + seq(|more|, i requires 0 <= i < |more| => FileAt(more[i]))
  }

  predicate Extra(p: Path) { p == IN_SERVICE || p == BELOW_FILE || p == WITH_NUL }

  predicate Extras(more: seq<Path>) {
    (forall k :: 0 <= k < |more| ==> Extra(more[k])) && forall i, j :: 0 <= i < j < |more| ==> more[i] != more[j]
  }

  /** The indispensable files, one or two more, and the manifest. */
  function SmallArchive(more: seq<Path>): seq<ArchiveEntry> {
    Archive(SmallEntries(more), [])
  }

  /** Lower-casing leaves the segments of these names alone, as it does. */
  predicate KeepsCase(lower: string -> string) {
    && Folded(DATABASE, lower) == DATABASE && Folded(MASTER, lower) == MASTER && Folded(MANIFEST, lower) == MANIFEST
    && Folded(IN_SERVICE, lower) == IN_SERVICE && Folded(BELOW_FILE, lower) == BELOW_FILE && Folded(WITH_NUL, lower) == WITH_NUL
  }

  predicate PlainText(s: string) { PlainSegment(s) && '/' !in s && '\\' !in s }

  lemma PlainTexts()
    ensures PlainText("classroom-hub") && PlainText("data") && PlainText("recovery-secrets")
  {
  }

  lemma PlainServiceTexts()
    ensures PlainText("services") && PlainText("nodered") && PlainText("a") && PlainText("b") && PlainText("a\0")
  {
  }

  lemma PlainDatabaseName()
    ensures PlainText("classroom-control-hub.db")
  {
  }

  lemma PlainFileNames()
    ensures PlainText("classroom-hub-master.key") && PlainText("backup-manifest.json")
  {
  }

  lemma PlainIsCanonical(p: Path)
    requires |p| >= 1 && forall k :: 0 <= k < |p| ==> PlainText(p[k])
    ensures Canonical(p)
  {
  }

  lemma FixedNamesAllowed(lower: string -> string)
    ensures EntryAllowed(DATABASE, false, lower) && EntryAllowed(MASTER, false, lower) && EntryAllowed(MANIFEST, false, lower)
  {
    PlainTexts();
    PlainDatabaseName();
    PlainFileNames();
    PlainIsCanonical(DATABASE);
    PlainIsCanonical(MASTER);
    PlainIsCanonical(MANIFEST);
  }

  lemma ServiceNameAllowed(p: Path, lower: string -> string)
    requires InService(p) && p[1] == "nodered" && (forall k :: 2 <= k < |p| ==> p[k] == "a" || p[k] == "b" || p[k] == "a\0")
    requires lower("a") == "a" && lower("b") == "b" && lower("a\0") == "a\0"
    ensures AllowedFile(p, lower)
  {
    PlainServiceTexts();
    PlainIsCanonical(p);
    forall k | 0 <= k < |p[2..]|
      ensures !Excluded(p[2..][k], lower)
    {
      assert p[2..][k] == p[k + 2] && 1 <= |lower(p[k + 2])| <= 2;
    }
    AllowedFiles(p, lower);
  }

  lemma ExtraAllowed(p: Path, lower: string -> string)
    requires KeepsCase(lower) && Extra(p)
    ensures AllowedFile(p, lower) && Folded(p, lower) == p && p[0] == "services"
  {
    assert lower("a") == Folded(IN_SERVICE, lower)[2] && lower("b") == Folded(BELOW_FILE, lower)[3] && lower("a\0") == Folded(WITH_NUL, lower)[2];
    ServiceNameAllowed(p, lower);
  }

  lemma SmallNames(more: seq<Path>, lower: string -> string)
    requires KeepsCase(lower) && Extras(more)
    ensures NamesAccepted(SmallArchive(more), lower)
  {
    var all := SmallArchive(more);
    var n := |more|;
    assert |all| == n + 3 && all[0] == FileAt(DATABASE) && all[1] == FileAt(MASTER) && all[n + 2] == FileAt(MANIFEST);
    assert forall k :: 0 <= k < n ==> all[k + 2] == FileAt(more[k]);
    FixedNamesAllowed(lower);
    forall k | 0 <= k < |all|
      ensures NameAccepted(all[k], lower) && Folded(all[k].name, lower) == all[k].name
      ensures all[k].name[0] == (if k == 0 then "classroom-hub" else if k == 1 then "recovery-secrets" else if k == n + 2 then "backup-manifest.json" else "services")
    {
      if 2 <= k < n + 2 {
        assert all[k] == FileAt(more[k - 2]);
        ExtraAllowed(more[k - 2], lower);
      }
    }
    forall i, j | 0 <= i < j < |all|
      ensures Folded(all[i].name, lower) != Folded(all[j].name, lower)
    {
      if 2 <= i && j < n + 2 {
        assert all[i] == FileAt(more[i - 2]) && all[j] == FileAt(more[j - 2]);
      } else {
        assert all[i].name[0] != all[j].name[0];
      }
    }
  }

  /** Every archive the policy admits has an export. */
  lemma ExportExists(entries: seq<ArchiveEntry>, release: string, schema: int, services: seq<Service>, lower: string -> string,
                     sha: Bytes -> string, before: (Path, Path) -> bool) returns (m: Manifest)
    requires AllAdmitted(entries, lower)
    ensures IsExport(m, entries, release, schema, services, lower, sha, before) && m.files == InventoryOf(entries, lower, sha, before)
  {
    var files := InventoryOf(entries, lower, sha, before);
    OrderListed(files);
    m := Manifest(6, "full", "scrypt-aes-256-gcm", "sha256", release, schema, files,
                  Sort(EntriesOf(RecordedOrder(files), Recorded(files)), EntryPath, before), services);
  }

  /** The files such an archive has. */
  lemma SmallPaths(more: seq<Path>)
    requires Extras(more)
    ensures InventoriedNames(SmallEntries(more)) == {DATABASE, MASTER} + (set p | p in more)
  {
    var entries := SmallEntries(more);
    assert entries[0] == FileAt(DATABASE) && entries[1] == FileAt(MASTER);
    assert forall k :: 0 <= k < |more| ==> entries[k + 2] == FileAt(more[k]);
    NotManifest(DATABASE);
    NotManifest(MASTER);
    forall p | p in more
      ensures p in InventoriedNames(entries)
    {
      NotManifest(p);
      var k :| 0 <= k < |more| && more[k] == p;
      assert entries[k + 2] in entries;
    }
    forall e | e in entries
      ensures e.name == DATABASE || e.name == MASTER || e.name in more
    {
      var i :| 0 <= i < |entries| && entries[i] == e;
      assert i >= 2 ==> e == FileAt(more[i - 2]);
    }
    assert entries[0] in entries && entries[1] in entries;
  }

  lemma NotManifest(p: Path)
    requires p == DATABASE || p == MASTER || Extra(p)
    ensures p != MANIFEST
  {
    assert |MANIFEST| == 1;
  }

  lemma SmallPairs(more: seq<Path>)
    requires Extras(more)
    ensures var paths := {DATABASE, MASTER} + (set p | p in more); Indispensable(paths) && PairsComplete(paths)
  {
    forall p | p in more
      ensures p[0] == "services"
    {
      var k :| 0 <= k < |more| && more[k] == p;
    }
    assert ADB_KEY[0] != "services" && ADB_PUB[0] != "services" && |ADB_KEY| == |ADB_PUB| == 5;
    assert KEYSTORE[0] != "services" && PASSWORD[0] != "services" && |KEYSTORE| == |PASSWORD| == 4;
    assert VEYON_KEY[0] == VEYON_NAME[0] != "services" && |VEYON_KEY| == |VEYON_NAME| == 3 && VEYON_KEY[0] != DATABASE[0];
  }

  predicate PlanMade(release: string, schema: int, services: seq<Service>) {
    1 <= |release| <= 100 && schema >= 1 && ServicesAccepted(services)
  }

  lemma ExportAccepted(m: Manifest, entries: seq<ArchiveEntry>, release: string, schema: int, services: seq<Service>,
                       lower: string -> string, sha: Bytes -> string, before: (Path, Path) -> bool)
    requires WeakOrder(before) && AllAdmitted(entries, lower) && IsExport(m, entries, release, schema, services, lower, sha, before)
    requires NamesAccepted(Archive(entries, []), lower) && Indispensable(FilePaths(m.files)) && PairsComplete(FilePaths(m.files))
    requires PlanMade(release, schema, services)
    ensures Acceptable(Archive(entries, []), m, lower, sha, before) && m.version == 6
  {
    ExportAcceptedIff(m, m.files, entries, [], release, schema, services, lower, sha, before);
    assert m.(files := m.files) == m;
  }

  lemma ExportPaths(m: Manifest, more: seq<Path>, lower: string -> string, sha: Bytes -> string, before: (Path, Path) -> bool)
    requires Extras(more) && AllAdmitted(SmallEntries(more), lower) && m.files == InventoryOf(SmallEntries(more), lower, sha, before)
    ensures FilePaths(m.files) == {DATABASE, MASTER} + (set p | p in more)
  {
    SmallPaths(more);
    RowsPaths(SmallEntries(more), lower, sha);
    SameFiles(m.files, RowsOf(SmallEntries(more), lower, sha));
  }

  /** Such an archive, exported, is accepted. */
  lemma SmallAccepted(more: seq<Path>, release: string, schema: int, services: seq<Service>, lower: string -> string,
                      sha: Bytes -> string, before: (Path, Path) -> bool) returns (m: Manifest)
    requires WeakOrder(before) && KeepsCase(lower) && Extras(more) && PlanMade(release, schema, services)
    ensures Acceptable(SmallArchive(more), m, lower, sha, before) && m.version == 6
    ensures m.applicationVersion == release && m.databaseSchemaVersion == schema && m.managedServices == services
    ensures FilePaths(m.files) == {DATABASE, MASTER} + (set p | p in more)
    ensures forall p :: p in more ==> p in FilePaths(m.files)
  {
    SmallNames(more, lower);
    NamesAdmitted(SmallArchive(more), lower);
    ArchiveRows(SmallEntries(more), [], lower, sha);
    m := ExportExists(SmallEntries(more), release, schema, services, lower, sha, before);
    ExportPaths(m, more, lower, sha, before);
    SmallPairs(more);
    ExportAccepted(m, SmallEntries(more), release, schema, services, lower, sha, before);
  }

  lemma ManifestBeside(more: seq<Path>)
    ensures MANIFEST in Names(SmallArchive(more))
  {
    assert SmallArchive(more)[|SmallEntries(more)|].name == MANIFEST;
  }

  lemma NotAllNoNul(files: seq<FileRow>)
    requires WITH_NUL in FilePaths(files)
    ensures !AllNoNul(files)
  {
    assert WITH_NUL[2][1] == '\0';
  }

  lemma NotLeaves(files: seq<FileRow>)
    requires IN_SERVICE in FilePaths(files) && BELOW_FILE in FilePaths(files)
    ensures !Leaves(files)
  {
    assert IN_SERVICE == BELOW_FILE[..3] && IN_SERVICE in Ancestors(BELOW_FILE);
  }

  const RELEASE := "1.0.0"
  const OUR_HOST := Host(APP, APP, RELEASE)
  const NODERED := Service.Service("nodered", "nodered", "nodered/node-red:4.1.14-22", true, true, "roomgoblin")

  /** Accepted with a NUL in a name, and not to be staged. */
  lemma NulNameAccepted(lower: string -> string, sha: Bytes -> string, before: (Path, Path) -> bool) returns (m: Manifest)
    requires WeakOrder(before) && KeepsCase(lower)
    ensures Acceptable(SmallArchive([WITH_NUL]), m, lower, sha, before)
    ensures StageAll(SmallArchive([WITH_NUL]), Modes(m.files)) == None
  {
    m := SmallAccepted([WITH_NUL], RELEASE, 1, [], lower, sha, before);
    NotAllNoNul(m.files);
    StagedIffSideBySide(SmallArchive([WITH_NUL]), m, lower, sha, before);
  }

  /** Accepted with a file where another needs a directory, and not to be staged. */
  lemma FileInTheWayAccepted(lower: string -> string, sha: Bytes -> string, before: (Path, Path) -> bool) returns (m: Manifest)
    requires WeakOrder(before) && KeepsCase(lower)
    ensures Acceptable(SmallArchive([IN_SERVICE, BELOW_FILE]), m, lower, sha, before)
    ensures StageAll(SmallArchive([IN_SERVICE, BELOW_FILE]), Modes(m.files)) == None
  {
    var more := [IN_SERVICE, BELOW_FILE];
    assert |IN_SERVICE| != |BELOW_FILE|;
    m := SmallAccepted(more, RELEASE, 1, [], lower, sha, before);
    NotLeaves(m.files);
    StagedIffSideBySide(SmallArchive(more), m, lower, sha, before);
  }

  /** An archive of the indispensable files, and perhaps one of a service, can be staged. */
  lemma PlainStages(more: seq<Path>, release: string, schema: int, services: seq<Service>, lower: string -> string,
                    sha: Bytes -> string, before: (Path, Path) -> bool, host: Host, digit: char -> bool) returns (m: Manifest)
    requires WeakOrder(before) && KeepsCase(lower) && PlanMade(release, schema, services) && (more == [] || more == [IN_SERVICE])
    ensures Acceptable(SmallArchive(more), m, lower, sha, before) && StageAll(SmallArchive(more), Modes(m.files)).Some?
    ensures m.applicationVersion == release && m.databaseSchemaVersion == schema && m.managedServices == services
    ensures Restorable(SmallArchive(more), m, host, digit, sha) <==>
            && host.uid == APP && host.gid == APP && SameMajor(release, host.installed, digit) && schema <= SUPPORTED_SCHEMA_VERSION
            && (more != [] ==> "nodered" in ServiceIds(services))
  {
    m := SmallAccepted(more, release, schema, services, lower, sha, before);
    ManifestBeside(more);
    PlainLeaves(m.files, more);
    DeclaredIff(services, more);
    AcceptedArchiveRestorableIff(SmallArchive(more), m, lower, sha, before, host, digit);
  }

  lemma PlainLeaves(files: seq<FileRow>, more: seq<Path>)
    requires FilePaths(files) == {DATABASE, MASTER} + (set p | p in more) && (more == [] || more == [IN_SERVICE])
    ensures Leaves(files) && AllNoNul(files)
  {
    NoNulFixed();
    assert DATABASE[0] != MASTER[0] && IN_SERVICE[0] != DATABASE[0] && IN_SERVICE[0] != MASTER[0];
    forall f | f in files
      ensures f.path == DATABASE || f.path == MASTER || f.path == IN_SERVICE
    {
      assert f.path in FilePaths(files);
    }
  }

  lemma DeclaredIff(services: seq<Service>, more: seq<Path>)
    requires more == [] || more == [IN_SERVICE]
    ensures ServicesDeclared(services, {DATABASE, MASTER} + (set p | p in more)) <==> (more != [] ==> "nodered" in ServiceIds(services))
  {
    assert DATABASE[0] != IN_SERVICE[0] && MASTER[0] != IN_SERVICE[0];
    if more != [] { assert IN_SERVICE in more; }
  }

  lemma NoderedAccepted()
    ensures ServicesAccepted([NODERED]) && "nodered" in ServiceIds([NODERED])
  {
    assert ServiceAccepted(NODERED) && NODERED in [NODERED];
  }

  lemma OurRelease(digit: char -> bool)
    requires Digits(digit)
    ensures SameMajor(RELEASE, RELEASE, digit)
  {
    assert Parts(RELEASE, "", "1", "0", "0", "", digit);
    MajorIff(RELEASE, "1", digit);
  }

  /** Accepted, staged and restored by the appliance, and refused by a host that runs as
      anybody else. */
  lemma OtherIdentityRefused(lower: string -> string, sha: Bytes -> string, before: (Path, Path) -> bool, host: Host, digit: char -> bool)
    returns (m: Manifest)
    requires WeakOrder(before) && KeepsCase(lower) && Digits(digit) && (host.uid != APP || host.gid != APP)
    ensures Acceptable(SmallArchive([]), m, lower, sha, before)
    ensures Restorable(SmallArchive([]), m, OUR_HOST, digit, sha) && !Restorable(SmallArchive([]), m, host, digit, sha)
  {
    OurRelease(digit);
    m := PlainStages([], RELEASE, 1, [], lower, sha, before, OUR_HOST, digit);
    ManifestBeside([]);
    AcceptedArchiveRestorableIff(SmallArchive([]), m, lower, sha, before, host, digit);
  }

  /** Accepted and staged with a service's file but no plan for the service, and refused by every
      host; with the plan it is restored. */
  lemma UndeclaredServiceRefused(lower: string -> string, sha: Bytes -> string, before: (Path, Path) -> bool, host: Host, digit: char -> bool)
    returns (bare: Manifest, planned: Manifest)
    requires WeakOrder(before) && KeepsCase(lower) && Digits(digit)
    ensures Acceptable(SmallArchive([IN_SERVICE]), bare, lower, sha, before) && bare.managedServices == []
    ensures StageAll(SmallArchive([IN_SERVICE]), Modes(bare.files)).Some? && !Restorable(SmallArchive([IN_SERVICE]), bare, host, digit, sha)
    ensures Acceptable(SmallArchive([IN_SERVICE]), planned, lower, sha, before) && planned.managedServices == [NODERED]
    ensures Restorable(SmallArchive([IN_SERVICE]), planned, OUR_HOST, digit, sha)
  {
    OurRelease(digit);
    bare := PlainStages([IN_SERVICE], RELEASE, 1, [], lower, sha, before, host, digit);
    NoderedAccepted();
    planned := PlainStages([IN_SERVICE], RELEASE, 1, [NODERED], lower, sha, before, OUR_HOST, digit);
  }

  /** Accepted and staged with a release that the agent takes for the installed one, and refused
      by every host, whose pattern wants three numbers. */
  lemma ShortReleaseRefused(lower: string -> string, sha: Bytes -> string, before: (Path, Path) -> bool, host: Host, digit: char -> bool)
    returns (m: Manifest)
    requires WeakOrder(before) && KeepsCase(lower)
    ensures Acceptable(SmallArchive([]), m, lower, sha, before) && m.applicationVersion == "1" && AgentTakes("1", RELEASE)
    ensures StageAll(SmallArchive([]), Modes(m.files)).Some? && !Restorable(SmallArchive([]), m, host, digit, sha)
  {
    m := PlainStages([], "1", 1, [], lower, sha, before, host, digit);
    ShortRelease(digit);
  }

  lemma ShortRelease(digit: char -> bool)
    ensures Major("1", digit) == None && AgentTakes("1", RELEASE)
  {
    assert LeadingDigits("1") == "1" && LeadingDigits(RELEASE) == "1";
    assert "1"[..0] == "" && Value("1") == 1;
  }

  /** Accepted and staged from a newer release's database, and refused by every host. */
  lemma NewerSchemaRefused(lower: string -> string, sha: Bytes -> string, before: (Path, Path) -> bool, host: Host, digit: char -> bool)
    returns (m: Manifest)
    requires WeakOrder(before) && KeepsCase(lower)
    ensures Acceptable(SmallArchive([]), m, lower, sha, before) && m.databaseSchemaVersion == SUPPORTED_SCHEMA_VERSION + 1
    ensures StageAll(SmallArchive([]), Modes(m.files)).Some? && !Restorable(SmallArchive([]), m, host, digit, sha)
  {
    m := PlainStages([], RELEASE, SUPPORTED_SCHEMA_VERSION + 1, [], lower, sha, before, host, digit);
  }

  lemma NoNulFixed()
    ensures NoNul(DATABASE) && NoNul(MASTER) && NoNul(IN_SERVICE)
  {
    assert '\0' !in "classroom-hub" && '\0' !in "data" && '\0' !in "classroom-control-hub.db";
    assert '\0' !in "recovery-secrets" && '\0' !in "classroom-hub-master.key";
    assert '\0' !in "services" && '\0' !in "nodered" && '\0' !in "a";
  }
}
