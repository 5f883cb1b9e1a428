/** The inventory of a portable recovery archive: what the exporter declares, and what the
    verifier accepts before anything is staged. */
module ArchiveInventory {
  import opened ArchivePaths
  import opened BundlePolicy
  import opened Ordering
  import opened RecoveryTopology
  import opened Values

  datatype ArchiveEntry = ArchiveEntry(name: Path, isDirectory: bool, data: Bytes)

  datatype Service = Service(id: string, container: string, image: string, enabled: bool, running: bool, ownership: string)

  /** A manifest with the fields its version asks for; version 5 leaves some of them unused. */
  datatype Manifest = Manifest(
    version: int, scope: string, confidentiality: string, integrityAlgorithm: string, applicationVersion: string,
    databaseSchemaVersion: int, files: seq<FileRow>, topology: seq<Entry>, managedServices: seq<Service>)

  // ---------------------------------------------------------------- inventory

  predicate Inventoried(e: ArchiveEntry) { !e.isDirectory && e.name != MANIFEST }

  function RowOf(e: ArchiveEntry, sha: Bytes -> string): FileRow
    requires DeclaredRole(e.name).Some?
  {
    FileRow(e.name, DeclaredRole(e.name).value, |e.data|, sha(e.data), InventoryMode(e.name))
  }

  predicate AllAdmitted(entries: seq<ArchiveEntry>, lower: string -> string) {
    forall e :: e in entries && Inventoried(e) ==> EntryAllowed(e.name, false, lower)
  }

  /** The rows of the files in the archive, in its order. */
  function RowsOf(entries: seq<ArchiveEntry>, lower: string -> string, sha: Bytes -> string): seq<FileRow>
    requires AllAdmitted(entries, lower)
  {
    if entries == [] then []
    else
      var last := entries[|entries| - 1];
      assert last in entries;
      RowsOf(entries[..|entries| - 1], lower, sha) +
      if Inventoried(last) then FileAgrees(last.name, lower); [RowOf(last, sha)] else []
  }

  function InventoryOf(entries: seq<ArchiveEntry>, lower: string -> string, sha: Bytes -> string, before: (Path, Path) -> bool): seq<FileRow>
    requires AllAdmitted(entries, lower)
  {
    Sort(RowsOf(entries, lower, sha), FilePath, before)
  }

  lemma {:induction false} RowsMembers(entries: seq<ArchiveEntry>, lower: string -> string, sha: Bytes -> string)
    requires AllAdmitted(entries, lower)
    ensures forall f :: f in RowsOf(entries, lower, sha) ==>
                          && AllowedFile(f.path, lower) && Some(f.role) == DeclaredRole(f.path) && f.mode == InventoryMode(f.path)
                          && exists e :: e in entries && Inventoried(e) && e.name == f.path
    ensures forall e :: e in entries && Inventoried(e) ==> e.name in FilePaths(RowsOf(entries, lower, sha))
  {
    if entries != [] {
      var most, last := entries[..|entries| - 1], entries[|entries| - 1];
      assert entries == most + [last];
      RowsMembers(most, lower, sha);
      if Inventoried(last) {
        FileAgrees(last.name, lower);
        assert RowOf(last, sha) in RowsOf(entries, lower, sha);
      }
      assert forall f :: f in RowsOf(most, lower, sha) ==> f in RowsOf(entries, lower, sha);
    }
  }

  function InventoriedNames(entries: seq<ArchiveEntry>): set<Path> {
    set e | e in entries && Inventoried(e) :: e.name
  }

  /** The inventory names exactly the files of the archive but the manifest. */
  lemma RowsPaths(entries: seq<ArchiveEntry>, lower: string -> string, sha: Bytes -> string)
    requires AllAdmitted(entries, lower)
    ensures FilePaths(RowsOf(entries, lower, sha)) == InventoriedNames(entries)
  {
    RowsMembers(entries, lower, sha);
  }

  /** None where the exporter throws for a file that the policy does not admit. */
  method ArchiveInventory(entries: seq<ArchiveEntry>, lower: string -> string, sha: Bytes -> string, before: (Path, Path) -> bool)
    returns (r: Option<seq<FileRow>>)
    ensures r.Some? <==> AllAdmitted(entries, lower)
    ensures r.Some? ==> r.value == InventoryOf(entries, lower, sha, before)
  {
    var rows: seq<FileRow> := [];
    for k := 0 to |entries|
      invariant AllAdmitted(entries[..k], lower) && rows == RowsOf(entries[..k], lower, sha)
    {
      var e := entries[k];
      assert e in entries && entries[..k + 1] == entries[..k] + [e] && entries[..k + 1][..k] == entries[..k];
      if Inventoried(e) {
        if !EntryAllowed(e.name, false, lower) { return None; }
        FileAgrees(e.name, lower);
        rows := rows + [RowOf(e, sha)];
      }
    }
    assert entries[..|entries|] == entries;
    r := Some(Sort(rows, FilePath, before));
  }

  // -------------------------------------------------------------- acceptance

  predicate HeaderAccepted(m: Manifest) {
    && m.scope == "full" && (m.version == 5 || m.version == 6)
    && (m.version == 6 ==> m.confidentiality == "scrypt-aes-256-gcm" && 1 <= |m.applicationVersion| <= 100 && m.databaseSchemaVersion >= 1)
    && m.integrityAlgorithm == "sha256"
  }

  function Folded(p: Path, lower: string -> string): Path {
    seq(|p|, i requires 0 <= i < |p| => lower(p[i]))
  }

  predicate NameAccepted(e: ArchiveEntry, lower: string -> string) {
    Canonical(e.name) && EntryAllowed(e.name, e.isDirectory, lower)
  }

  predicate AllNamed(entries: seq<ArchiveEntry>, lower: string -> string) {
    forall k :: 0 <= k < |entries| ==> NameAccepted(entries[k], lower)
  }

  predicate FoldDistinct(entries: seq<ArchiveEntry>, lower: string -> string) {
    forall i, j :: 0 <= i < j < |entries| ==> Folded(entries[i].name, lower) != Folded(entries[j].name, lower)
  }

  /** Canonical, admitted and distinct even when case is ignored. */
  predicate NamesAccepted(entries: seq<ArchiveEntry>, lower: string -> string) {
    AllNamed(entries, lower) && FoldDistinct(entries, lower)
  }

  lemma NamesAdmitted(entries: seq<ArchiveEntry>, lower: string -> string)
    requires NamesAccepted(entries, lower)
    ensures AllAdmitted(entries, lower)
  {
  }

  /** No row of the earlier entries has the last entry's name. */
  lemma LastNameIsNew(entries: seq<ArchiveEntry>, paths: set<Path>, lower: string -> string)
    requires entries != [] && FoldDistinct(entries, lower)
    requires forall p :: p in paths ==> exists e :: e in entries[..|entries| - 1] && e.name == p
    ensures entries[|entries| - 1].name !in paths
  {
    var most, last := entries[..|entries| - 1], entries[|entries| - 1];
    forall e | e in most
      ensures e.name != last.name
    {
      var i :| 0 <= i < |most| && most[i] == e;
      assert entries[i] == e && Folded(entries[i].name, lower) != Folded(last.name, lower);
    }
  }

  lemma DistinctAppended(rows: seq<FileRow>, row: FileRow)
    requires DistinctKeys(rows, FilePath) && row.path !in FilePaths(rows)
    ensures DistinctKeys(rows + [row], FilePath)
  {
    forall k | 0 <= k < |rows|
      ensures FilePath(rows[k]) != FilePath(row)
    {
      assert rows[k] in rows;
    }
  }

  lemma {:induction false} RowsDistinct(entries: seq<ArchiveEntry>, lower: string -> string, sha: Bytes -> string)
    requires FoldDistinct(entries, lower) && AllAdmitted(entries, lower)
    ensures DistinctKeys(RowsOf(entries, lower, sha), FilePath)
  {
    if entries != [] {
      var most, last := entries[..|entries| - 1], entries[|entries| - 1];
      assert entries == most + [last];
      RowsDistinct(most, lower, sha);
      RowsPaths(most, lower, sha);
      var rows := RowsOf(most, lower, sha);
      LastNameIsNew(entries, FilePaths(rows), lower);
      if Inventoried(last) {
        FileAgrees(last.name, lower);
        DistinctAppended(rows, RowOf(last, sha));
      }
    }
  }

  function Names(entries: seq<ArchiveEntry>): set<Path> { set e | e in entries :: e.name }

  function FoldedNames(entries: seq<ArchiveEntry>, lower: string -> string): set<Path> {
    set e | e in entries :: Folded(e.name, lower)
  }

  lemma NameStep(entries: seq<ArchiveEntry>, last: ArchiveEntry, lower: string -> string)
    ensures Names(entries + [last]) == Names(entries) + {last.name}
    ensures FoldedNames(entries + [last], lower) == FoldedNames(entries, lower) + {Folded(last.name, lower)}
    ensures last.name in Names(entries) ==> Folded(last.name, lower) in FoldedNames(entries, lower)
    ensures FoldDistinct(entries, lower) && Folded(last.name, lower) !in FoldedNames(entries, lower) ==> FoldDistinct(entries + [last], lower)
    ensures Folded(last.name, lower) in FoldedNames(entries, lower) ==> !FoldDistinct(entries + [last], lower)
  {
    var all := entries + [last];
    if e :| e in entries && Folded(e.name, lower) == Folded(last.name, lower) {
      var i :| 0 <= i < |entries| && entries[i] == e;
      assert all[i] == e && all[|entries|] == last;
    }
  }

  lemma FoldPrefix(entries: seq<ArchiveEntry>, k: nat, lower: string -> string)
    requires k <= |entries|
    ensures FoldDistinct(entries, lower) ==> FoldDistinct(entries[..k], lower)
  {
  }

  method CheckNames(entries: seq<ArchiveEntry>, lower: string -> string) returns (ok: bool)
    ensures ok <==> NamesAccepted(entries, lower)
  {
    ok := CheckEach(entries, e => NameAccepted(e, lower), lower);
  }

  /** One name at a time: admitted, and new even when case is ignored. */
  method CheckEach(entries: seq<ArchiveEntry>, accepted: ArchiveEntry -> bool, lower: string -> string) returns (ok: bool)
    ensures ok <==> (forall k :: 0 <= k < |entries| ==> accepted(entries[k])) && FoldDistinct(entries, lower)
  {
    var seen: set<Path>, folded: set<Path> := {}, {};
    for k := 0 to |entries|
      invariant forall i :: 0 <= i < k ==> accepted(entries[i])
      invariant FoldDistinct(entries[..k], lower)
      invariant seen == Names(entries[..k]) && folded == FoldedNames(entries[..k], lower)
    {
      var e := entries[k];
      NameStep(entries[..k], e, lower);
      assert entries[..k + 1] == entries[..k] + [e];
      FoldPrefix(entries, k + 1, lower);
      if e.name in seen || Folded(e.name, lower) in folded || !accepted(e) { return false; }
      seen, folded := seen + {e.name}, folded + {Folded(e.name, lower)};
    }
    assert entries[..|entries|] == entries;
    ok := true;
  }

  predicate Hex64(s: string) {
    |s| == 64 && forall k :: 0 <= k < 64 ==> '0' <= s[k] <= '9' || 'a' <= s[k] <= 'f'
  }

  /** Sixty-four lower-case hexadecimal digits. */
  lemma Hex64Iff(s: string)
    ensures Hex64(s) <==> |s| == 64 && forall c :: c in s ==> c in "0123456789abcdef"
  {
    if |s| == 64 {
      if Hex64(s) {
        forall c | c in s
          ensures c in "0123456789abcdef"
        {
          HexDigit(c);
        }
      } else {
        var k :| 0 <= k < 64 && !('0' <= s[k] <= '9' || 'a' <= s[k] <= 'f');
        HexDigit(s[k]);
        assert s[k] in s;
      }
    }
  }

  lemma HexDigit(c: char)
    ensures c in "0123456789abcdef" <==> '0' <= c <= '9' || 'a' <= c <= 'f'
  {
  }

  /** Compare the declared rows with the observed ones, both in path order. */
  method CompareRows(declared: seq<FileRow>, actual: seq<FileRow>) returns (ok: bool)
    requires forall k :: 0 <= k < |actual| ==> Hex64(actual[k].sha256)
    ensures ok <==> declared == actual
  {
    if |actual| != |declared| { return false; }
    for k := 0 to |actual|
      invariant declared[..k] == actual[..k]
    {
      var expected, observed := declared[k], actual[k];
      if expected.path != observed.path || expected.role != observed.role || expected.mode != observed.mode
      || expected.size != observed.size || !Hex64(expected.sha256) || expected.sha256 != observed.sha256 {
        return false;
      }
    }
    ok := true;
  }

  predicate Complete(paths: set<Path>, left: Path, right: Path) { left in paths <==> right in paths }

  predicate PairsComplete(paths: set<Path>) {
    Complete(paths, ADB_KEY, ADB_PUB) && Complete(paths, KEYSTORE, PASSWORD) && Complete(paths, VEYON_KEY, VEYON_NAME)
  }

  predicate Indispensable(paths: set<Path>) { DATABASE in paths && MASTER in paths }

  function Container(id: string): string
    requires ServiceName(id)
  {
    if id == "music-assistant" then "music-assistant-server" else id
  }

  function Image(id: string): string
    requires ServiceName(id)
  {
    if id == "govee2mqtt" then "ghcr.io/wez/govee2mqtt:2025.04.13-17d43d72"
    else if id == "mosquitto" then "eclipse-mosquitto:2.0.22"
    else if id == "music-assistant" then "ghcr.io/music-assistant/server:2.9.13"
    else "nodered/node-red:4.1.14-22"
  }

  predicate ServiceAccepted(s: Service) {
    && ServiceName(s.id) && s.container == Container(s.id) && s.image == Image(s.id)
    && (s.running ==> s.enabled) && s.ownership == "roomgoblin"
  }

  predicate ServicesAccepted(services: seq<Service>) {
    AllAre(services, ServiceAccepted) && IdsDistinct(services)
  }

  predicate AllAre(services: seq<Service>, accepted: Service -> bool) {
    forall k :: 0 <= k < |services| ==> accepted(services[k])
  }

  predicate IdsDistinct(services: seq<Service>) {
    forall i, j :: 0 <= i < j < |services| ==> services[i].id != services[j].id
  }

  method CheckService(s: Service) returns (ok: bool)
    ensures ok <==> ServiceAccepted(s)
  {
    if !ServiceName(s.id) || s.container != Container(s.id) || s.image != Image(s.id) { return false; }
    ok := !(s.running && !s.enabled) && s.ownership == "roomgoblin";
  }

  function ServiceIds(services: seq<Service>): set<string> { set s | s in services :: s.id }

  lemma IdStep(services: seq<Service>, k: nat)
    requires k < |services|
    ensures ServiceIds(services[..k + 1]) == ServiceIds(services[..k]) + {services[k].id}
    ensures IdsDistinct(services[..k + 1]) <==> IdsDistinct(services[..k]) && services[k].id !in ServiceIds(services[..k])
  {
    var most, last := services[..k], services[k];
    assert services[..k + 1] == most + [last];
    if s :| s in most && s.id == last.id {
      var i :| 0 <= i < |most| && most[i] == s;
      assert services[..k + 1][i] == s && services[..k + 1][k] == last;
    }
  }

  lemma AllStep(services: seq<Service>, k: nat, accepted: Service -> bool)
    requires k < |services|
    ensures AllAre(services[..k + 1], accepted) <==> AllAre(services[..k], accepted) && accepted(services[k])
    ensures AllAre(services, accepted) ==> AllAre(services[..k + 1], accepted)
  {
    assert services[..k + 1] == services[..k] + [services[k]] && services[..k + 1][k] == services[k];
    assert AllAre(services[..k + 1], accepted) ==> forall i :: 0 <= i < k ==> services[..k][i] == services[..k + 1][i];
  }

  /** The check of service k, given that those before it passed. */
  lemma ServiceStep(services: seq<Service>, k: nat)
    requires k < |services| && ServicesAccepted(services[..k])
    ensures ServiceIds(services[..k + 1]) == ServiceIds(services[..k]) + {services[k].id}
    ensures ServicesAccepted(services[..k + 1]) <==> ServiceAccepted(services[k]) && services[k].id !in ServiceIds(services[..k])
    ensures ServicesAccepted(services) ==> ServicesAccepted(services[..k + 1])
  {
    IdStep(services, k);
    AllStep(services, k, ServiceAccepted);
  }

  method CheckServices(services: seq<Service>) returns (ok: bool)
    ensures ok <==> ServicesAccepted(services)
  {
    var ids: set<string> := {};
    for k := 0 to |services|
      invariant ServicesAccepted(services[..k]) && ids == ServiceIds(services[..k])
    {
      ServiceStep(services, k);
      if services[k].id in ids { return false; }
      ok := CheckService(services[k]);
      if !ok { return; }
      ids := ids + {services[k].id};
    }
    assert services[..|services|] == services;
    ok := true;
  }

  /** What acceptance means: `files` is the archive's inventory in any order that keeps rows
      whose paths compare equal in theirs, and `topology` the ownership of exactly those files
      and their directories. */
  ghost predicate Acceptable(entries: seq<ArchiveEntry>, m: Manifest, lower: string -> string, sha: Bytes -> string, before: (Path, Path) -> bool) {
    && HeaderAccepted(m) && NamesAccepted(entries, lower) && AllAdmitted(entries, lower)
    && var rows := RowsOf(entries, lower, sha);
    && SameTies(m.files, rows, FilePath, before)
    && Indispensable(FilePaths(rows))
    && (m.version == 6 ==>
          && PairsComplete(FilePaths(rows)) && ServicesAccepted(m.managedServices)
          && IsTopology(m.topology, InventoryOf(entries, lower, sha, before), before))
  }

  ghost predicate Digests(sha: Bytes -> string) {
    forall data :: Hex64(sha(data))
  }

  lemma {:induction false} RowsHex(entries: seq<ArchiveEntry>, lower: string -> string, sha: Bytes -> string)
    requires AllAdmitted(entries, lower) && Digests(sha)
    ensures forall f :: f in RowsOf(entries, lower, sha) ==> Hex64(f.sha256)
  {
    if entries != [] {
      RowsHex(entries[..|entries| - 1], lower, sha);
      if Inventoried(entries[|entries| - 1]) { FileAgrees(entries[|entries| - 1].name, lower); }
    }
  }

  /** The declared files are a permutation of the real inventory. */
  lemma AcceptedFiles(entries: seq<ArchiveEntry>, m: Manifest, lower: string -> string, sha: Bytes -> string, before: (Path, Path) -> bool)
    requires WeakOrder(before) && Acceptable(entries, m, lower, sha, before)
    ensures multiset(m.files) == multiset(RowsOf(entries, lower, sha)) && DistinctKeys(m.files, FilePath)
  {
    SortedAlikeIff(m.files, RowsOf(entries, lower, sha), FilePath, before);
    RowsDistinct(entries, lower, sha);
    SameDistinct(RowsOf(entries, lower, sha), m.files, FilePath);
  }

  method VerifyArchiveInventory(entries: seq<ArchiveEntry>, m: Manifest, lower: string -> string, sha: Bytes -> string,
                                before: (Path, Path) -> bool) returns (r: Option<seq<FileRow>>)
    requires WeakOrder(before) && Digests(sha)
    ensures r.Some? <==> Acceptable(entries, m, lower, sha, before)
    ensures r.Some? ==> r.value == InventoryOf(entries, lower, sha, before)
  {
    if !HeaderAccepted(m) { return None; }
    var named := CheckNames(entries, lower);
    if !named { return None; }
    NamesAdmitted(entries, lower);
    var inventory := ArchiveInventory(entries, lower, sha, before);
    var actual := inventory.value;
    ghost var rows := RowsOf(entries, lower, sha);
    RowsDistinct(entries, lower, sha);
    RowsHex(entries, lower, sha);
    SameMembers(actual, rows);
    SortedAlikeIff(m.files, rows, FilePath, before);
    var same := CompareRows(Sort(m.files, FilePath, before), actual);
    if !same { return None; }
    var paths := FilePaths(actual);
    assert paths == FilePaths(rows);
    if !Indispensable(paths) { return None; }
    if m.version == 5 { return Some(actual); }
    if !PairsComplete(paths) { return None; }
    var services := CheckServices(m.managedServices);
    if !services { return None; }
    var topology := RecoveryTopology.RecoveryTopology(actual, before);
    r := if m.topology == topology then Some(actual) else None;
  }

  // ------------------------------------------------------------------ exporter

  /** Build the version 6 manifest of an archive; None where the exporter throws. */
  method ExportManifest(entries: seq<ArchiveEntry>, applicationVersion: string, databaseSchemaVersion: int, services: seq<Service>,
                        lower: string -> string, sha: Bytes -> string, before: (Path, Path) -> bool) returns (m: Option<Manifest>)
    ensures m.Some? <==> AllAdmitted(entries, lower)
    ensures m.Some? ==> IsExport(m.value, entries, applicationVersion, databaseSchemaVersion, services, lower, sha, before)
  {
    var files := ArchiveInventory(entries, lower, sha, before);
    if files == None { return None; }
    var topology := RecoveryTopology.RecoveryTopology(files.value, before);
    m := Some(Manifest(6, "full", "scrypt-aes-256-gcm", "sha256", applicationVersion, databaseSchemaVersion, files.value, topology, services));
  }

  ghost predicate IsExport(m: Manifest, entries: seq<ArchiveEntry>, applicationVersion: string, databaseSchemaVersion: int,
                           services: seq<Service>, lower: string -> string, sha: Bytes -> string, before: (Path, Path) -> bool)
    requires AllAdmitted(entries, lower)
  {
    && IsTopology(m.topology, InventoryOf(entries, lower, sha, before), before)
    && m == Manifest(6, "full", "scrypt-aes-256-gcm", "sha256", applicationVersion, databaseSchemaVersion,
                     InventoryOf(entries, lower, sha, before), m.topology, services)
  }

  /** The archive an export makes: its entries and the manifest beside them. */
  function Archive(entries: seq<ArchiveEntry>, json: Bytes): seq<ArchiveEntry> {
    entries + [ArchiveEntry(MANIFEST, false, json)]
  }

  lemma ArchiveRows(entries: seq<ArchiveEntry>, json: Bytes, lower: string -> string, sha: Bytes -> string)
    ensures AllAdmitted(entries, lower) <==> AllAdmitted(Archive(entries, json), lower)
    ensures AllAdmitted(entries, lower) ==> RowsOf(Archive(entries, json), lower, sha) == RowsOf(entries, lower, sha)
  {
    var all := Archive(entries, json);
    assert all[..|all| - 1] == entries;
    assert forall e :: e in all <==> e in entries || e == all[|entries|];
  }

  /** An export is accepted, with its files listed in another order, exactly when its names are
      distinct, its indispensable files are there, its pairs complete, its services in order, and
      rows whose paths compare equal kept their order. */
  lemma ExportAcceptedIff(m: Manifest, files: seq<FileRow>, entries: seq<ArchiveEntry>, json: Bytes, applicationVersion: string,
                          databaseSchemaVersion: int, services: seq<Service>, lower: string -> string, sha: Bytes -> string,
                          before: (Path, Path) -> bool)
    requires AllAdmitted(entries, lower) && WeakOrder(before)
    requires IsExport(m, entries, applicationVersion, databaseSchemaVersion, services, lower, sha, before)
    requires multiset(files) == multiset(m.files)
    ensures Acceptable(Archive(entries, json), m.(files := files), lower, sha, before) <==>
            (&& NamesAccepted(Archive(entries, json), lower) && SameTies(files, m.files, FilePath, before)
             && Indispensable(FilePaths(m.files)) && PairsComplete(FilePaths(m.files))
             && ServicesAccepted(services) && 1 <= |applicationVersion| <= 100 && databaseSchemaVersion >= 1)
  {
    ArchiveRows(entries, json, lower, sha);
    var rows := RowsOf(entries, lower, sha);
    SameMembers(m.files, rows);
    assert FilePaths(m.files) == FilePaths(rows);
    forall k
      ensures Tied(m.files, k, FilePath, before) == Tied(rows, k, FilePath, before)
    {
      SortKeepsTies(rows, k, FilePath, before);
    }
    SameTiesThrough(files, m.files, rows, before);
  }

  lemma SameTiesThrough(a: seq<FileRow>, b: seq<FileRow>, c: seq<FileRow>, before: (Path, Path) -> bool)
    requires SameTies(b, c, FilePath, before)
    ensures SameTies(a, b, FilePath, before) <==> SameTies(a, c, FilePath, before)
  {
    assert forall k :: Tied(b, k, FilePath, before) == Tied(c, k, FilePath, before);
  }

  /** Where no two names of the archive compare equal, every order of the files will do. */
  lemma AnyOrderWhenToldApart(files: seq<FileRow>, declared: seq<FileRow>, before: (Path, Path) -> bool)
    requires WeakOrder(before) && multiset(files) == multiset(declared) && ToldApart(declared, FilePath, before)
    ensures SameTies(files, declared, FilePath, before)
  {
    SortForgetsOrder(declared, files, FilePath, before);
    SortedAlikeIff(files, declared, FilePath, before);
  }

  /** The list with two of its elements the other way round. */
  function Swapped<T>(s: seq<T>, i: nat, j: nat): (r: seq<T>)
    requires i < j < |s|
    ensures multiset(r) == multiset(s)
  {
    SwapKeeps(s, i, j);
    s[i := s[j]][j := s[i]]
  }

  lemma SwapKeeps<T>(s: seq<T>, i: nat, j: nat)
    requires i < j < |s|
    ensures multiset(s[i := s[j]][j := s[i]]) == multiset(s)
  {
  }

  lemma SwapBreaksTies(files: seq<FileRow>, i: nat, j: nat, before: (Path, Path) -> bool)
    requires i < j < |files| && DistinctKeys(files, FilePath)
    requires WeakOrder(before) && Ties(files[i].path, files[j].path, before)
    ensures !SameTies(Swapped(files, i, j), files, FilePath, before)
  {
    var k := FilePath(files[i]);
    assert k != FilePath(files[j]) && Ties(k, k, before);
    assert Swapped(files, i, j)[..i] == files[..i];
    TiesDiffer(Swapped(files, i, j), files, i, k, FilePath, before);
  }

  lemma ExportedOnce(files: seq<FileRow>, entries: seq<ArchiveEntry>, json: Bytes, lower: string -> string, sha: Bytes -> string,
                     before: (Path, Path) -> bool)
    requires AllAdmitted(entries, lower) && NamesAccepted(Archive(entries, json), lower)
    requires files == InventoryOf(entries, lower, sha, before)
    ensures DistinctKeys(files, FilePath)
  {
    ArchiveRows(entries, json, lower, sha);
    RowsDistinct(Archive(entries, json), lower, sha);
    SameDistinct(RowsOf(entries, lower, sha), files, FilePath);
  }

  /** And where two do, an export that lists them the other way round is refused. */
  lemma TiedPairKeepsOrder(m: Manifest, i: nat, j: nat, entries: seq<ArchiveEntry>, json: Bytes, applicationVersion: string,
                           databaseSchemaVersion: int, services: seq<Service>, lower: string -> string, sha: Bytes -> string,
                           before: (Path, Path) -> bool)
    requires AllAdmitted(entries, lower) && WeakOrder(before)
    requires IsExport(m, entries, applicationVersion, databaseSchemaVersion, services, lower, sha, before)
    requires i < j < |m.files| && Ties(m.files[i].path, m.files[j].path, before)
    ensures !Acceptable(Archive(entries, json), m.(files := Swapped(m.files, i, j)), lower, sha, before)
  {
    var files := Swapped(m.files, i, j);
    ExportAcceptedIff(m, files, entries, json, applicationVersion, databaseSchemaVersion, services, lower, sha, before);
    if NamesAccepted(Archive(entries, json), lower) {
      ExportedOnce(m.files, entries, json, lower, sha, before);
      SwapBreaksTies(m.files, i, j, before);
    }
  }
}
