/** What the host checks of a staged recovery before its transaction begins. */
module HostValidation {
  import opened ArchiveInventory
  import opened ArchivePaths
  import opened BundlePolicy
  import opened Ordering
  import opened RecoveryTopology
  import opened ReleaseVersions
  import opened Values

  const SUPPORTED_SCHEMA_VERSION := 10

  /** The user and group of the appliance, and the release that is installed. */
  datatype Host = Host(uid: int, gid: int, installed: string)

  datatype Staged = Staged(files: map<Path, Bytes>, directories: set<Path>)

  predicate ContractHeld(m: Manifest) {
    && m.version == 6 && m.scope == "full" && m.confidentiality == "scrypt-aes-256-gcm" && m.integrityAlgorithm == "sha256"
    && |m.applicationVersion| <= 100 && 1 <= m.databaseSchemaVersion <= SUPPORTED_SCHEMA_VERSION
  }

  /** The staged file is the one that was declared. */
  predicate RowHeld(f: FileRow, files: map<Path, Bytes>, sha: Bytes -> string) {
    && SafeRel(f.path) && ModeText(f.mode)
    && f.path in files && |files[f.path]| == f.size && sha(files[f.path]) == f.sha256
  }

  predicate RowsHeld(rows: seq<FileRow>, files: map<Path, Bytes>, sha: Bytes -> string) {
    DistinctKeys(rows, FilePath) && EachHeld(rows, (f: FileRow) => RowHeld(f, files, sha))
  }

  predicate EachHeld(rows: seq<FileRow>, held: FileRow -> bool) {
    forall f :: f in rows ==> held(f)
  }

  /** Every service with files has a declaration. */
  predicate ServicesDeclared(services: seq<Service>, paths: set<Path>) {
    forall p :: p in paths && |p| >= 2 && p[0] == "services" ==> p[1] in ServiceIds(services)
  }

  predicate RolePlaced(inventory: map<Path, Role>) {
    DATABASE in inventory && inventory[DATABASE] == Database
  }

  predicate HostValidates(m: Manifest, tree: Staged, host: Host, digit: char -> bool, sha: Bytes -> string) {
    && ContractHeld(m) && SameMajor(m.applicationVersion, host.installed, digit)
    && RowsHeld(m.files, tree.files, sha)
    && tree.files.Keys == FilePaths(m.files) + {MANIFEST}
    && HostAccepts(m.topology, Inventory(m.files), tree.files.Keys, tree.directories, host.uid, host.gid)
    && ServicesAccepted(m.managedServices) && ServicesDeclared(m.managedServices, FilePaths(m.files))
    && RolePlaced(Inventory(m.files)) && PairsComplete(FilePaths(m.files))
  }

  lemma HeldStep(rows: seq<FileRow>, k: nat, held: FileRow -> bool)
    requires k < |rows|
    ensures EachHeld(rows[..k + 1], held) <==> EachHeld(rows[..k], held) && held(rows[k])
    ensures EachHeld(rows, held) ==> EachHeld(rows[..k + 1], held)
  {
    assert rows[..k + 1] == rows[..k] + [rows[k]];
    assert forall f :: f in rows[..k + 1] ==> f in rows;
  }

  lemma DistinctStep(rows: seq<FileRow>, k: nat)
    requires k < |rows| && DistinctKeys(rows[..k], FilePath)
    ensures DistinctKeys(rows[..k + 1], FilePath) <==> rows[k].path !in FilePaths(rows[..k])
  {
    var most, all := rows[..k], rows[..k + 1];
    assert all == most + [rows[k]];
    if f :| f in most && f.path == rows[k].path {
      var i :| 0 <= i < |most| && most[i] == f;
      assert FilePath(all[i]) == FilePath(all[k]);
    } else {
      assert forall i :: 0 <= i < k ==> all[i] in most && FilePath(all[i]) != rows[k].path;
    }
  }

  lemma RowsStep(rows: seq<FileRow>, k: nat, files: map<Path, Bytes>, sha: Bytes -> string)
    requires k < |rows| && RowsHeld(rows[..k], files, sha)
    ensures RowsHeld(rows[..k + 1], files, sha) <==> rows[k].path !in FilePaths(rows[..k]) && RowHeld(rows[k], files, sha)
    ensures RowsHeld(rows, files, sha) ==> RowsHeld(rows[..k + 1], files, sha)
  {
    DistinctStep(rows, k);
    HeldStep(rows, k, (f: FileRow) => RowHeld(f, files, sha));
  }

  lemma InventoryStep(rows: seq<FileRow>, k: nat)
    requires k < |rows| && DistinctKeys(rows[..k + 1], FilePath) && DistinctKeys(rows[..k], FilePath)
    ensures Inventory(rows[..k + 1]) == Inventory(rows[..k])[rows[k].path := rows[k].role]
    ensures FilePaths(rows[..k + 1]) == FilePaths(rows[..k]) + {rows[k].path}
  {
    assert rows[..k + 1][..k] == rows[..k];
    PrefixFiles(rows[..k + 1]);
    assert forall f :: f in rows[..k + 1] <==> f in rows[..k] || f == rows[k];
  }

  /** The inventory of the declared rows; None where the host raises. */
  method ReadInventory(rows: seq<FileRow>, files: map<Path, Bytes>, sha: Bytes -> string) returns (r: Option<map<Path, Role>>)
    ensures r.Some? <==> RowsHeld(rows, files, sha)
    ensures r.Some? ==> r.value == Inventory(rows) && r.value.Keys == FilePaths(rows)
  {
    var inventory: map<Path, Role> := map[];
    for k := 0 to |rows|
      invariant RowsHeld(rows[..k], files, sha)
      invariant inventory == Inventory(rows[..k]) && inventory.Keys == FilePaths(rows[..k])
    {
      RowsStep(rows, k, files, sha);
      var f := rows[k];
      if !SafeRel(f.path) || f.path in inventory { return None; }
      if f.path !in files || f.size != |files[f.path]| || f.sha256 != sha(files[f.path]) { return None; }
      if !ModeText(f.mode) { return None; }
      InventoryStep(rows, k);
      inventory := inventory[f.path := f.role];
    }
    assert rows[..|rows|] == rows;
    r := Some(inventory);
  }

  method ValidateServices(services: seq<Service>, paths: set<Path>) returns (ok: bool)
    ensures ok <==> ServicesAccepted(services) && ServicesDeclared(services, paths)
  {
    ok := CheckServices(services);
    if !ok { return; }
    var staged := set p | p in paths && |p| >= 2 && p[0] == "services" :: p[1];
    ok := staged <= ServiceIds(services);
  }

  method CheckContract(m: Manifest) returns (ok: bool)
    ensures ok <==> ContractHeld(m)
  {
    if m.version != 6 || m.scope != "full" { return false; }
    if m.confidentiality != "scrypt-aes-256-gcm" || m.integrityAlgorithm != "sha256" { return false; }
    if m.databaseSchemaVersion < 1 || |m.applicationVersion| > 100 { return false; }
    ok := m.databaseSchemaVersion <= SUPPORTED_SCHEMA_VERSION;
  }

  method CheckRole(inventory: map<Path, Role>) returns (ok: bool)
    ensures ok <==> RolePlaced(inventory)
  {
    ok := DATABASE in inventory && inventory[DATABASE] == Database;
  }

  method ValidateStaging(m: Manifest, tree: Staged, host: Host, digit: char -> bool, sha: Bytes -> string) returns (ok: bool)
    ensures ok <==> HostValidates(m, tree, host, digit, sha)
  {
    var contract := CheckContract(m);
    if !contract { return false; }
    if !SameMajor(m.applicationVersion, host.installed, digit) { return false; }
    var inventory := ReadInventory(m.files, tree.files, sha);
    if inventory == None { return false; }
    var paths := inventory.value.Keys;
    if tree.files.Keys != paths + {MANIFEST} { return false; }
    ok := ValidateTopology(m.topology, inventory.value, tree.files.Keys, tree.directories, host.uid, host.gid);
    if !ok { return; }
    ok := ValidateServices(m.managedServices, paths);
    if !ok { return; }
    ok := CheckRole(inventory.value);
    if !ok { return; }
    ok := PairsComplete(paths);
  }
}
