/** The recovery-bundle policy, twice: as the maintenance agent writes it into an archive and
    as the host checks it before touching anything. The two were written independently. */
module BundlePolicy {
  import opened ArchivePaths
  import opened Values

  const MANIFEST: Path := ["backup-manifest.json"]
  const HUB: Path := ["classroom-hub"]
  const ENV: Path := ["classroom-hub", ".env"]
  const DATA: Path := ["classroom-hub", "data"]
  const DATABASE: Path := ["classroom-hub", "data", "classroom-control-hub.db"]
  const ANDROID: Path := ["classroom-hub", "data", "android-tv"]
  const DEVICES: Path := ["classroom-hub", "data", "android-tv", "devices.json"]
  const ADB: Path := ["classroom-hub", "data", "android-tv", ".android"]
  const ADB_KEY: Path := ["classroom-hub", "data", "android-tv", ".android", "adbkey"]
  const ADB_PUB: Path := ["classroom-hub", "data", "android-tv", ".android", "adbkey.pub"]
  const SCREENSHOTS: Path := ["classroom-hub", "data", "lab-screenshots"]
  const UPDATES: Path := ["classroom-hub", "data", "lab-updates"]
  const MEDIA: Path := ["classroom-hub", "data", "media"]
  const PRESENTATIONS: Path := ["classroom-hub", "data", "presentations"]
  const SECRETS: Path := ["recovery-secrets"]
  const MASTER: Path := ["recovery-secrets", "classroom-hub-master.key"]
  const SIGNING: Path := ["recovery-secrets", "android-agent-signing"]
  const AGENT: Path := ["recovery-secrets", "android-agent-signing", "android-agent"]
  const KEYSTORE: Path := ["recovery-secrets", "android-agent-signing", "android-agent", "RoomGoblin-Display-Agent.keystore"]
  const PASSWORD: Path := ["recovery-secrets", "android-agent-signing", "android-agent", "password"]
  const VEYON: Path := ["recovery-secrets", "veyon"]
  const VEYON_KEY: Path := ["recovery-secrets", "veyon", "private.pem"]
  const VEYON_NAME: Path := ["recovery-secrets", "veyon", "key-name"]
  const SERVICES: Path := ["services"]

  const APP := 10001

  datatype Role =
    | MasterKey | AndroidSigning | VeyonIdentity | Database | AndroidInventory | AdbTrust
    | ApplicationData | ServiceState | RecoverySecrets | DeploymentEnv

  predicate ServiceName(s: string) {
    s == "govee2mqtt" || s == "mosquitto" || s == "music-assistant" || s == "nodered"
  }

  // ------------------------------------------------------------- octal modes

  predicate OctalDigits(s: string) { forall k :: 0 <= k < |s| ==> '0' <= s[k] <= '7' }

  /** Three or four octal digits, after an optional zero. */
  predicate ModeText(s: string) {
    OctalDigits(s) && (3 <= |s| <= 4 || (|s| == 5 && s[0] == '0'))
  }

  /** An optional zero before three or four octal digits. */
  lemma ModeTextIff(s: string)
    ensures ModeText(s) <==> exists zero: string, digits: string ::
              (zero == "" || zero == "0") && 3 <= |digits| <= 4 && OctalDigits(digits) && s == zero + digits
  {
    if ModeText(s) {
      if |s| == 5 {
        assert s == "0" + s[1..] && OctalDigits(s[1..]);
      } else {
        assert s == "" + s;
      }
    }
    if zero: string, digits: string :|
        (zero == "" || zero == "0") && 3 <= |digits| <= 4 && OctalDigits(digits) && s == zero + digits {
      assert zero == "" ==> s == digits;
      assert zero == "0" ==> s[1..] == digits && forall k :: 1 <= k < |s| ==> s[k] == digits[k - 1];
    }
  }

  function Octal4(a: int, b: int, c: int, d: int): int { ((a * 8 + b) * 8 + c) * 8 + d }

  function Digit(c: char): int { c as int - '0' as int }

  /** The number such a text stands for; the first of five digits is zero. */
  function Octal(s: string): int
    requires ModeText(s)
  {
    var n := |s|;
    Octal4(if n == 4 then Digit(s[0]) else if n == 5 then Digit(s[1]) else 0, Digit(s[n - 3]), Digit(s[n - 2]), Digit(s[n - 1]))
  }

  // ------------------------------------------------- maintenance agent's side

  predicate Excluded(segment: string, lower: string -> string) {
    lower(segment) in {"backups", "cache", "caches", "file-trash", "legacy", "log", "logs", "tmp", "convert-tmp", "presentation-upload-tmp"}
  }

  predicate NoneExcluded(p: Path, lower: string -> string) {
    forall k :: 0 <= k < |p| ==> !Excluded(p[k], lower)
  }

  predicate SecretFile(p: Path) {
    p == MASTER || p == KEYSTORE || p == PASSWORD || p == VEYON_KEY || p == VEYON_NAME
  }

  predicate DataFile(p: Path) {
    p == DATABASE || p == DEVICES || p == ADB_KEY || p == ADB_PUB
  }

  predicate UnderDataRoot(p: Path) {
    Under(SCREENSHOTS, p) || Under(UPDATES, p) || Under(MEDIA, p) || Under(PRESENTATIONS, p)
  }

  predicate InService(p: Path) {
    |p| > 2 && p[0] == "services" && ServiceName(p[1])
  }

  predicate DataDirectory(p: Path) {
    p == HUB || p == DATA || p == ANDROID || p == ADB || p == SCREENSHOTS || p == UPDATES || p == MEDIA || p == PRESENTATIONS
  }

  predicate EntryAllowed(p: Path, isDirectory: bool, lower: string -> string) {
    if !Canonical(p) then false
    else if p == MANIFEST || SecretFile(p) || DataFile(p) then !isDirectory
    else if isDirectory && DataDirectory(p) then true
    else if UnderDataRoot(p) then NoneExcluded(p, lower)
    else if InService(p) then NoneExcluded(p[2..], lower)
    else
      && isDirectory
      && (p == SERVICES || p == SECRETS || (|p| == 2 && p[0] == "services" && ServiceName(p[1])) || p == SIGNING || p == AGENT || p == VEYON)
  }

  /** None where the agent throws for want of a role. */
  function DeclaredRole(p: Path): Option<Role> {
    if p == MASTER then Some(MasterKey)
    else if p == KEYSTORE || p == PASSWORD then Some(AndroidSigning)
    else if p == VEYON_KEY || p == VEYON_NAME then Some(VeyonIdentity)
    else if p == DATABASE then Some(Database)
    else if p == DEVICES then Some(AndroidInventory)
    else if p == ADB_KEY || p == ADB_PUB then Some(AdbTrust)
    else if Under(DATA, p) then Some(ApplicationData)
    else if Under(SERVICES, p) then Some(ServiceState)
    else None
  }

  /** The modes fixed for single files; empty for any other. */
  function RequiredMode(p: Path): string {
    if p == DATABASE || p == DEVICES then "0660"
    else if p == ADB_KEY || p == KEYSTORE || p == PASSWORD then "0600"
    else if p == ADB_PUB || p == VEYON_NAME then "0644"
    else if p == MASTER || p == VEYON_KEY then "0640"
    else ""
  }

  function InventoryMode(p: Path): string {
    if RequiredMode(p) != "" then RequiredMode(p) else "0660"
  }

  datatype Owner = Owner(uid: int, gid: int, mode: string)

  function FileOwner(p: Path): Owner {
    if p == DEVICES then Owner(0, 10001, "0660")
    else if Under(ADB, p) then Owner(10001, 10001, RequiredMode(p))
    else if p == MASTER then Owner(0, 10001, "0640")
    else if Under(SIGNING, p) then Owner(10001, 10001, "0600")
    else if p == VEYON_KEY then Owner(0, 10001, "0640")
    else if p == VEYON_NAME then Owner(0, 0, "0644")
    else Owner(10001, 10001, "0660")
  }

  /** Two of these tests lack the slash and so also take longer names. */
  function DirectoryOwner(p: Path): Owner {
    if p == DATA then Owner(0, 10001, "0770")
    else if p == ANDROID then Owner(0, 10001, "02770")
    else if Resembles(ADB, p) then Owner(10001, 10001, "0700")
    else if p == SECRETS || p == VEYON then Owner(0, 10001, "0750")
    else if Resembles(SIGNING, p) then Owner(10001, 10001, "0700")
    else if p == SERVICES then Owner(0, 10001, "0770")
    else Owner(10001, 10001, "0770")
  }

  function DirectoryRole(p: Path): Role {
    if Resembles(SERVICES, p) then ServiceState else if Resembles(SECRETS, p) then RecoverySecrets else ApplicationData
  }

  // -------------------------------------------------------------- host's side

  datatype Kind =
    | ServicesRoot | RecoveryRoot | Env | Master | Adb | Data | Signing | Veyon | Service(id: string)

  predicate AtOrUnder(root: Path, p: Path) { p == root || Under(root, p) }

  /** None where the host refuses the path. */
  function Classify(p: Path): Option<Kind> {
    if p == SERVICES then Some(ServicesRoot)
    else if p == SECRETS then Some(RecoveryRoot)
    else if p == ENV then Some(Env)
    else if p == MASTER then Some(Master)
    else if AtOrUnder(DATA, p) then Some(if AtOrUnder(ADB, p) then Adb else Data)
    else if AtOrUnder(SIGNING, p) then Some(Signing)
    else if AtOrUnder(VEYON, p) then Some(Veyon)
    else if |p| >= 2 && p[0] == "services" && ServiceName(p[1]) then Some(Service(p[1]))
    else None
  }

  datatype HostOwner = HostOwner(uid: int, gid: int, mode: int)

  function HostPolicy(p: Path, isDirectory: bool, uid: int, gid: int): HostOwner
    requires Classify(p).Some?
  {
    match Classify(p).value
    case ServicesRoot => HostOwner(0, gid, Octal4(0, 7, 7, 0))
    case RecoveryRoot => HostOwner(0, gid, Octal4(0, 7, 5, 0))
    case Master => HostOwner(0, gid, Octal4(0, 6, 4, 0))
    case Env => HostOwner(0, 0, Octal4(0, 6, 0, 0))
    case Adb =>
      if isDirectory then HostOwner(uid, gid, Octal4(0, 7, 0, 0))
      else HostOwner(uid, gid, if EndsWith(p[|p| - 1], "adbkey.pub") then Octal4(0, 6, 4, 4) else Octal4(0, 6, 0, 0))
    case Signing => HostOwner(uid, gid, if isDirectory then Octal4(0, 7, 0, 0) else Octal4(0, 6, 0, 0))
    case Veyon =>
      if isDirectory then HostOwner(0, gid, Octal4(0, 7, 5, 0))
      else if p[|p| - 1] == "key-name" then HostOwner(0, 0, Octal4(0, 6, 4, 4)) else HostOwner(0, gid, Octal4(0, 6, 4, 0))
    case Data =>
      if p == DATA then HostOwner(0, gid, Octal4(0, 7, 7, 0))
      else if p == ANDROID then HostOwner(0, gid, Octal4(2, 7, 7, 0))
      else if p == DEVICES then HostOwner(0, gid, Octal4(0, 6, 6, 0))
      else HostOwner(uid, gid, if isDirectory then Octal4(0, 7, 7, 0) else Octal4(0, 6, 6, 0))
    case Service(_) => HostOwner(uid, gid, if isDirectory then Octal4(0, 7, 7, 0) else Octal4(0, 6, 6, 0))
  }

  /** None where the host raises: the two roots are never files. */
  function HostRole(p: Path, isDirectory: bool): Option<Role>
    requires Classify(p).Some?
  {
    var kind := Classify(p).value;
    if isDirectory then
      match kind
      case ServicesRoot => Some(ServiceState)
      case RecoveryRoot => Some(RecoverySecrets)
      case Data => Some(ApplicationData)
      case Adb => Some(ApplicationData)
      case Service(_) => Some(ServiceState)
      case _ => Some(RecoverySecrets)
    else if p == DATABASE then Some(Database)
    else if p == DEVICES then Some(AndroidInventory)
    else
      match kind
      case Adb => Some(AdbTrust)
      case Data => Some(ApplicationData)
      case Service(_) => Some(ServiceState)
      case Master => Some(MasterKey)
      case Signing => Some(AndroidSigning)
      case Veyon => Some(VeyonIdentity)
      case Env => Some(DeploymentEnv)
      case _ => None
  }

  // ------------------------------------------------------------ the agreement

  /** What the host wants of an entry, in the archive's own terms. */
  predicate HostAgrees(p: Path, isDirectory: bool, role: Role, owner: Owner) {
    && Classify(p).Some?
    && ModeText(owner.mode)
    && HostPolicy(p, isDirectory, APP, APP) == HostOwner(owner.uid, owner.gid, Octal(owner.mode))
    && HostRole(p, isDirectory) == Some(role)
  }

  predicate AllowedFile(p: Path, lower: string -> string) {
    EntryAllowed(p, false, lower) && p != MANIFEST
  }

  /** Nothing in the data and service roots is or contains one of the fixed names. */
  lemma RootsApart(p: Path)
    requires UnderDataRoot(p) || InService(p)
    ensures p[0] != "recovery-secrets" && (p[0] == "classroom-hub" ==> p[1] == "data" && |p| > 3 && p[2] != "android-tv")
    ensures UnderDataRoot(p) ==> p[0] == "classroom-hub"
    ensures InService(p) ==> p[0] != "classroom-hub"
  {
    assert "lab-updates"[0] != "android-tv"[0] && "media"[0] != "android-tv"[0];
  }

  /** The admitted files are exactly nine fixed ones and what lies in the data and service
      roots without an excluded segment on the way. */
  lemma AllowedFiles(p: Path, lower: string -> string)
    ensures AllowedFile(p, lower) <==>
            && Canonical(p)
            && (SecretFile(p) || DataFile(p) || (UnderDataRoot(p) && NoneExcluded(p, lower)) || (InService(p) && NoneExcluded(p[2..], lower)))
  {
    if UnderDataRoot(p) || InService(p) {
      RootsApart(p);
      assert MANIFEST != p && |p| > 2;
      RootedNotFixed(p);
    }
  }

  /** On the way to one of the fixed files. */
  ghost predicate LeadsToFixed(d: Path) {
    |d| >= 1 && exists f :: (SecretFile(f) || DataFile(f)) && Under(d, f)
  }

  lemma WayToSecret(d: Path, f: Path)
    requires SecretFile(f) && |d| >= 1
    ensures Under(d, f) ==> d == SECRETS || d == SIGNING || d == AGENT || d == VEYON
  {
    assert f[..1] == SECRETS && (f == MASTER || f[..2] == SIGNING || f[..2] == VEYON);
    assert |f| == 4 ==> f[..3] == AGENT;
  }

  lemma WayToData(d: Path, f: Path)
    requires DataFile(f) && |d| >= 1
    ensures Under(d, f) ==> d == HUB || d == DATA || d == ANDROID || d == ADB
  {
    assert f[..1] == HUB && f[..2] == DATA && (f == DATABASE || f[..3] == ANDROID);
    assert |f| == 5 ==> f[..4] == ADB;
  }

  lemma WaysToFixed(d: Path)
    ensures LeadsToFixed(d) <==>
            d == HUB || d == DATA || d == ANDROID || d == ADB || d == SECRETS || d == SIGNING || d == AGENT || d == VEYON
  {
    if LeadsToFixed(d) {
      var f :| (SecretFile(f) || DataFile(f)) && Under(d, f);
      if SecretFile(f) { WayToSecret(d, f); } else { WayToData(d, f); }
    }
    assert Under(HUB, DATABASE) && Under(DATA, DATABASE) && Under(ANDROID, DEVICES) && Under(ADB, ADB_KEY);
    assert Under(SECRETS, MASTER) && Under(SIGNING, KEYSTORE) && Under(AGENT, KEYSTORE) && Under(VEYON, VEYON_KEY);
  }

  predicate Root(d: Path) {
    || d == SCREENSHOTS || d == UPDATES || d == MEDIA || d == PRESENTATIONS || d == SERVICES
    || (|d| == 2 && d[0] == "services" && ServiceName(d[1]))
  }

  /** Directories on the way to a fixed file are none of the fixed files, and nor are the roots. */
  lemma DirectoriesNotFixed(d: Path)
    requires LeadsToFixed(d) || Root(d)
    ensures d != MANIFEST && !SecretFile(d) && !DataFile(d)
  {
    WaysToFixed(d);
    assert MASTER[1] == "classroom-hub-master.key" && SIGNING[1] == "android-agent-signing" && VEYON[1] == "veyon";
    assert DATABASE[2] == "classroom-control-hub.db" && DEVICES[3] == "devices.json" && |ADB_KEY| == |ADB_PUB| == 5;
    assert |KEYSTORE| == |PASSWORD| == 4 && |VEYON_KEY| == |VEYON_NAME| == 3 && AGENT[2] == "android-agent";
    assert VEYON_KEY[1] == VEYON_NAME[1] == "veyon" && KEYSTORE[0] == "recovery-secrets" && ADB[3] == ".android";
  }

  /** The admitted directories are exactly those on the way to a fixed file, the data and service
      roots, and what lies in them without an excluded segment on the way. */
  lemma AllowedDirectories(d: Path, lower: string -> string)
    ensures EntryAllowed(d, true, lower) <==>
            && Canonical(d)
            && (LeadsToFixed(d) || Root(d) || (UnderDataRoot(d) && NoneExcluded(d, lower)) || (InService(d) && NoneExcluded(d[2..], lower)))
  {
    WaysToFixed(d);
    if LeadsToFixed(d) || Root(d) { DirectoriesNotFixed(d); }
    if UnderDataRoot(d) || InService(d) {
      RootsApart(d);
      RootedNotFixed(d);
    }
  }

  lemma RootedNotFixed(p: Path)
    requires UnderDataRoot(p) || InService(p)
    ensures !SecretFile(p) && !DataFile(p) && !(UnderDataRoot(p) && InService(p))
  {
    RootsApart(p);
    assert MASTER[0] == KEYSTORE[0] == PASSWORD[0] == VEYON_KEY[0] == VEYON_NAME[0] == "recovery-secrets";
    assert |DATABASE| == 3 && DEVICES[2] == ADB_KEY[2] == ADB_PUB[2] == "android-tv";
    assert DATABASE[0] == DEVICES[0] == ADB_KEY[0] == ADB_PUB[0] == "classroom-hub";
  }

  lemma MasterAgrees(p: Path)
    requires p == MASTER
    ensures DeclaredRole(p).Some? && HostAgrees(p, false, DeclaredRole(p).value, FileOwner(p))
    ensures InventoryMode(p) == FileOwner(p).mode
  {
    assert DATABASE[0] != p[0] && DEVICES[0] != p[0] && ADB[0] != p[0];
    assert Classify(p) == Some(Master);
  }

  lemma SigningFileAgrees(p: Path)
    requires p == KEYSTORE || p == PASSWORD
    ensures DeclaredRole(p).Some? && HostAgrees(p, false, DeclaredRole(p).value, FileOwner(p))
    ensures InventoryMode(p) == FileOwner(p).mode
  {
    assert DATABASE[0] != p[0] && DEVICES[0] != p[0] && DATA[0] != p[0] && ADB[0] != p[0];
    assert p[..2] == SIGNING && Classify(p) == Some(Signing);
  }

  lemma VeyonFileAgrees(p: Path)
    requires p == VEYON_KEY || p == VEYON_NAME
    ensures DeclaredRole(p).Some? && HostAgrees(p, false, DeclaredRole(p).value, FileOwner(p))
    ensures InventoryMode(p) == FileOwner(p).mode
  {
    assert DATABASE[0] != p[0] && DEVICES[0] != p[0] && DATA[0] != p[0] && ADB[0] != p[0];
    assert p[1] == "veyon" && SIGNING[1] != p[1] && p[..2] == VEYON && Classify(p) == Some(Veyon);
  }

  lemma SecretFileAgrees(p: Path)
    requires SecretFile(p)
    ensures DeclaredRole(p).Some? && HostAgrees(p, false, DeclaredRole(p).value, FileOwner(p))
    ensures InventoryMode(p) == FileOwner(p).mode
  {
    if p == MASTER {
      MasterAgrees(p);
    } else if p == KEYSTORE || p == PASSWORD {
      SigningFileAgrees(p);
    } else {
      VeyonFileAgrees(p);
    }
  }

  lemma AdbFileAgrees(p: Path)
    requires p == ADB_KEY || p == ADB_PUB
    ensures DeclaredRole(p).Some? && HostAgrees(p, false, DeclaredRole(p).value, FileOwner(p))
    ensures InventoryMode(p) == FileOwner(p).mode
  {
    assert p[..4] == ADB && p[..2] == DATA;
  }

  lemma DataFileAgrees(p: Path)
    requires p == DATABASE || p == DEVICES
    ensures DeclaredRole(p).Some? && HostAgrees(p, false, DeclaredRole(p).value, FileOwner(p))
    ensures InventoryMode(p) == FileOwner(p).mode
  {
    assert p[..2] == DATA;
  }

  lemma DataRootFileAgrees(p: Path)
    requires UnderDataRoot(p)
    ensures DeclaredRole(p).Some? && HostAgrees(p, false, DeclaredRole(p).value, FileOwner(p))
    ensures InventoryMode(p) == FileOwner(p).mode
  {
    RootsApart(p);
    assert ADB[2] == "android-tv" && SIGNING[0] == "recovery-secrets";
    assert FileOwner(p) == Owner(10001, 10001, "0660") && InventoryMode(p) == "0660";
  }

  lemma ServiceFileAgrees(p: Path)
    requires InService(p)
    ensures DeclaredRole(p).Some? && HostAgrees(p, false, DeclaredRole(p).value, FileOwner(p))
    ensures InventoryMode(p) == FileOwner(p).mode
  {
    RootsApart(p);
    assert FileOwner(p) == Owner(10001, 10001, "0660") && InventoryMode(p) == "0660";
  }

  /** Every file the agent admits gets the role, owner and mode the host expects of it. */
  lemma FileAgrees(p: Path, lower: string -> string)
    requires AllowedFile(p, lower)
    ensures DeclaredRole(p).Some? && HostAgrees(p, false, DeclaredRole(p).value, FileOwner(p))
    ensures InventoryMode(p) == FileOwner(p).mode
  {
    AllowedFiles(p, lower);
    if SecretFile(p) {
      SecretFileAgrees(p);
    } else if p == ADB_KEY || p == ADB_PUB {
      AdbFileAgrees(p);
    } else if DataFile(p) {
      DataFileAgrees(p);
    } else {
      if UnderDataRoot(p) { DataRootFileAgrees(p); } else { ServiceFileAgrees(p); }
    }
  }

  /** The directories of the host's policy that the two sides own differently: the names of
      single files, anything below the Veyon directory, and the siblings of `.android` that
      only the prefix test without the slash takes. */
  predicate OwnedDifferently(d: Path) {
    d == ENV || d == MASTER || d == DEVICES || Under(VEYON, d) || (Resembles(ADB, d) && !AtOrUnder(ADB, d))
  }

  lemma HubDirectory(d: Path)
    requires Classify(d).Some? && d[0] == "classroom-hub"
    ensures HostAgrees(d, true, DirectoryRole(d), DirectoryOwner(d)) <==> !OwnedDifferently(d)
  {
    assert !Resembles(SERVICES, d) && !Resembles(SECRETS, d) by {
      assert SERVICES[0][0] != d[0][0] && SECRETS[0][0] != d[0][0];
    }
  }

  lemma SecretDirectory(d: Path)
    requires Classify(d).Some? && d[0] == "recovery-secrets"
    ensures HostAgrees(d, true, DirectoryRole(d), DirectoryOwner(d)) <==> !OwnedDifferently(d)
  {
    assert !Resembles(SERVICES, d) && Resembles(SECRETS, d) by {
      assert SERVICES[0][0] != d[0][0];
    }
  }

  lemma ServiceDirectory(d: Path)
    requires Classify(d).Some? && d[0] == "services"
    ensures HostAgrees(d, true, DirectoryRole(d), DirectoryOwner(d)) && !OwnedDifferently(d)
  {
  }

  /** On every directory the host knows, the two policies agree exactly outside those. */
  lemma DirectoriesAgreeIff(d: Path)
    requires Classify(d).Some?
    ensures HostAgrees(d, true, DirectoryRole(d), DirectoryOwner(d)) <==> !OwnedDifferently(d)
  {
    if d[0] == "classroom-hub" { HubDirectory(d); }
    else if d[0] == "recovery-secrets" { SecretDirectory(d); }
    else { ServiceDirectory(d); }
  }

  lemma FixedAncestor(p: Path, d: Path)
    requires (SecretFile(p) || DataFile(p)) && d in Ancestors(p) && d != HUB
    ensures d == SECRETS || d == SIGNING || d == AGENT || d == VEYON || d == DATA || d == ANDROID || d == ADB
  {
  }

  lemma RootedAncestor(p: Path, d: Path)
    requires (UnderDataRoot(p) || InService(p)) && d in Ancestors(p) && d != HUB
    ensures d == DATA || d == SERVICES || (|d| >= 3 && DATA == d[..2] && d[2] != "android-tv") || (|d| >= 2 && d[0] == "services" && ServiceName(d[1]))
  {
    RootsApart(p);
    if UnderDataRoot(p) {
      assert p[..2] == DATA;
      if |d| >= 2 { assert d[..2] == p[..2]; }
      assert |d| == 1 ==> d == HUB;
      assert |d| == 2 ==> d == d[..2];
    }
  }

  lemma AncestorKnown(p: Path, d: Path)
    requires SecretFile(p) || DataFile(p) || UnderDataRoot(p) || InService(p)
    requires d in Ancestors(p) && d != HUB
    ensures Classify(d).Some? && !OwnedDifferently(d)
  {
    if SecretFile(p) || DataFile(p) {
      FixedAncestor(p, d);
    } else {
      RootedAncestor(p, d);
      if |d| >= 3 && DATA == d[..2] { assert d[0] == DATA[0] && d[1] == DATA[1] && ADB[2] == "android-tv"; }
    }
  }

  /** Every directory on the way to an admitted file is in the host's policy and owned alike. */
  lemma AncestorAgrees(p: Path, d: Path, lower: string -> string)
    requires AllowedFile(p, lower) && d in Ancestors(p) && d != HUB
    ensures HostAgrees(d, true, DirectoryRole(d), DirectoryOwner(d))
  {
    AllowedFiles(p, lower);
    AncestorKnown(p, d);
    DirectoriesAgreeIff(d);
  }
}
