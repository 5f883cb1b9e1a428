/** The durable vocabulary of the full-recovery transaction: directory entries that
    hold whole trees, the journal, and the predicates that say where an original is. */
module FullRecoveryModel {

  import opened Durability
  import opened Values

  datatype Place = Place(dir: string, name: string)

  type Disk = map<Place, Tree>

  datatype Kind = Data | Master | Signing | Veyon | Service | Env | Adb

  datatype Job = Job(source: Tree, target: Place, kind: Kind)

  datatype Record = Record(target: Place, prepared: Place, safety: Place, existed: bool, kind: Kind,
                           activated: bool, activating: bool, preparing: bool)

  datatype Phase = Quiescing | Snapshot | Prepared | Activated | Committed

  /** `running` is None for a container that did not exist when the transaction began. */
  datatype PriorContainer = PriorContainer(name: string, running: Option<bool>)
  datatype PriorUnit = PriorUnit(name: string, running: bool)
  datatype Prior = Prior(containers: seq<PriorContainer>, units: seq<PriorUnit>)

  datatype Journal = Journal(recoveryId: string, phase: Phase, targets: seq<Record>, prior: Prior)

  datatype Report = Idle | InProgress | Completed | Failed | RolledBack | RollbackFailed

  // ---------------------------------------------------------------- names

  const NEW_MARK := ".roomgoblin-new-"
  const OLD_MARK := ".roomgoblin-old-"

  function PreparedPlace(target: Place, id: string): Place {
    Place(target.dir, "." + target.name + NEW_MARK + id)
  }

  function SafetyPlace(target: Place, id: string): Place {
    Place(target.dir, "." + target.name + OLD_MARK + id)
  }

  /** A configured root is never itself named like a work file of this recovery. */
  predicate PlainName(target: Place, id: string) {
    !EndsWith(target.name, NEW_MARK + id) && !EndsWith(target.name, OLD_MARK + id)
  }

  lemma DerivedName(name: string, mark: string, id: string)
    ensures EndsWith("." + name + mark + id, mark + id)
    ensures |"." + name + mark + id| == 1 + |name| + |mark| + |id|
    ensures ("." + name + mark + id)[1..1 + |name|] == name
  {
    var text := "." + name + mark + id;
    assert text == ("." + name) + (mark + id);
    assert ("." + name)[1..] == name;
    assert text[1..1 + |name|] == ("." + name)[1..];
  }

  lemma MarksDiffer(id: string)
    ensures |NEW_MARK + id| == |OLD_MARK + id| && NEW_MARK + id != OLD_MARK + id
  {
    assert (NEW_MARK + id)[12] == 'n';
    assert (OLD_MARK + id)[12] == 'o';
  }

  /** Work files of distinct targets never collide with each other or with a target. */
  lemma PlacesApart(t: Place, u: Place, id: string)
    requires PlainName(t, id) && PlainName(u, id)
    ensures PreparedPlace(t, id) != SafetyPlace(u, id)
    ensures PreparedPlace(t, id) != u && SafetyPlace(t, id) != u
    ensures PreparedPlace(t, id) == PreparedPlace(u, id) ==> t == u
    ensures SafetyPlace(t, id) == SafetyPlace(u, id) ==> t == u
  {
    MarksDiffer(id);
    DerivedName(t.name, NEW_MARK, id);
    DerivedName(t.name, OLD_MARK, id);
    DerivedName(u.name, NEW_MARK, id);
    DerivedName(u.name, OLD_MARK, id);
  }

  // ------------------------------------------------- where an original is

  function Places(r: Record): set<Place> {
    {r.target, r.prepared, r.safety}
  }

  /** The rollback's existence test. */
  predicate Changed(disk: Disk, r: Record) {
    if r.existed then r.safety in disk else r.prepared !in disk
  }

  /** What every intermediate state keeps for one recorded root before `committed`. */
  ghost predicate ItemSafe(disk: Disk, r: Record, orig: Disk) {
    && r.existed == (r.target in orig)
    && (if !r.activating && !r.activated then
          SameAt(disk, orig, r.target) && r.safety !in disk
        else if r.existed then
          if r.safety in disk then disk[r.safety] == orig[r.target] else SameAt(disk, orig, r.target)
        else
          r.safety !in disk && (r.target !in disk || r.prepared !in disk))
  }

  ghost predicate Restored(disk: Disk, r: Record, orig: Disk) {
    SameAt(disk, orig, r.target) && r.safety !in disk && r.prepared !in disk
  }

  predicate RecordOf(r: Record, target: Place, id: string) {
    r.target == target && r.prepared == PreparedPlace(target, id) && r.safety == SafetyPlace(target, id)
  }

  predicate Targets(targets: seq<Place>, id: string) {
    && (forall i :: 0 <= i < |targets| ==> PlainName(targets[i], id))
    && (forall i, j :: 0 <= i < j < |targets| ==> targets[i] != targets[j])
  }

  predicate Follows(rs: seq<Record>, targets: seq<Place>, id: string) {
    && Targets(targets, id)
    && |rs| <= |targets|
    && (forall i :: 0 <= i < |rs| ==> RecordOf(rs[i], targets[i], id))
  }

  lemma RecordsApart(rs: seq<Record>, targets: seq<Place>, id: string, i: nat, j: nat)
    requires Follows(rs, targets, id) && i < |rs| && j < |targets|
    ensures rs[i].target != rs[i].prepared && rs[i].target != rs[i].safety && rs[i].prepared != rs[i].safety
    ensures i != j ==> targets[j] !in Places(rs[i])
    ensures i != j && j < |rs| ==> Places(rs[i]) !! Places(rs[j])
  {
    PlacesApart(targets[i], targets[i], id);
    PlacesApart(targets[i], targets[j], id);
    PlacesApart(targets[j], targets[i], id);
  }

  ghost predicate AllSame(disk: Disk, goal: Disk, targets: seq<Place>) {
    forall i :: 0 <= i < |targets| ==> SameAt(disk, goal, targets[i])
  }

  /** Every recorded root can be put back; every other root was never touched. */
  ghost predicate Recoverable(disk: Disk, j: Journal, targets: seq<Place>, orig: Disk) {
    && Follows(j.targets, targets, j.recoveryId)
    && (forall i :: 0 <= i < |j.targets| ==> ItemSafe(disk, j.targets[i], orig))
    && (forall i :: |j.targets| <= i < |targets| ==> SameAt(disk, orig, targets[i]))
  }

  lemma ItemFrame(a: Disk, b: Disk, r: Record, orig: Disk, ps: set<Place>)
    requires OnlyAt(a, b, ps) && Places(r) !! ps
    ensures ItemSafe(a, r, orig) <==> ItemSafe(b, r, orig)
    ensures Restored(a, r, orig) <==> Restored(b, r, orig)
    ensures SameAt(a, b, r.target) && SameAt(a, b, r.prepared) && SameAt(a, b, r.safety)
  {
    assert r.target in Places(r) && r.prepared in Places(r) && r.safety in Places(r);
  }

  /** Work on one recorded root leaves what is known about all the others. */
  lemma OthersFrame(a: Disk, b: Disk, j: Journal, targets: seq<Place>, orig: Disk, k: nat)
    requires Recoverable(a, j, targets, orig) && k < |j.targets|
    requires OnlyAt(a, b, Places(j.targets[k])) && ItemSafe(b, j.targets[k], orig)
    ensures Recoverable(b, j, targets, orig)
    ensures forall i :: 0 <= i < |j.targets| && i != k ==>
              && SameAt(a, b, j.targets[i].target) && SameAt(a, b, j.targets[i].prepared)
              && SameAt(a, b, j.targets[i].safety)
    ensures forall i :: 0 <= i < |targets| && i != k ==> SameAt(a, b, targets[i])
  {
    forall i | 0 <= i < |j.targets| && i != k
      ensures ItemSafe(b, j.targets[i], orig)
      ensures SameAt(a, b, j.targets[i].target) && SameAt(a, b, j.targets[i].prepared)
      ensures SameAt(a, b, j.targets[i].safety)
    {
      RecordsApart(j.targets, targets, j.recoveryId, k, i);
      ItemFrame(a, b, j.targets[i], orig, Places(j.targets[k]));
    }
    forall i | 0 <= i < |targets| && i != k
      ensures SameAt(a, b, targets[i])
    {
      RecordsApart(j.targets, targets, j.recoveryId, k, i);
    }
  }

  /** No loss: before `committed`, the rollback's test says exactly where a pre-existing
      root is, and a root that did not exist is never judged by a leftover. */
  lemma ChangedLocatesOriginal(disk: Disk, j: Journal, targets: seq<Place>, orig: Disk, i: nat)
    requires Recoverable(disk, j, targets, orig) && i < |j.targets|
    ensures var r := j.targets[i];
            && (r.existed && Changed(disk, r) ==> r.target in orig && r.safety in disk && disk[r.safety] == orig[r.target])
            && (r.existed && !Changed(disk, r) ==>
                  r.safety !in disk && r.target in orig && r.target in disk && disk[r.target] == orig[r.target])
            && (!r.existed && !Changed(disk, r) ==> r.target !in disk && r.target !in orig)
  {
    assert ItemSafe(disk, j.targets[i], orig);
  }

  // ------------------------------------------------------ what is adopted

  const ADB_PREFIX := "android-tv/.android"

  predicate AdbPart(part: string) {
    part == ADB_PREFIX || ADB_PREFIX + "/" <= part
  }

  /** Exactly the directory and what is below it, and no longer name. */
  lemma AdbPartIff(part: string)
    ensures AdbPart(part) <==> ADB_PREFIX + "/" <= part + "/"
  {
    if ADB_PREFIX + "/" <= part + "/" && |part| == |ADB_PREFIX| {
      assert part == (part + "/")[..|part|];
    }
    if ADB_PREFIX + "/" <= part + "/" && |part| > |ADB_PREFIX| {
      assert part[..|ADB_PREFIX| + 1] == (part + "/")[..|ADB_PREFIX| + 1];
    }
  }

  /** The data root is prepared without the ADB trust that moves into its own volume. */
  function Incoming(job: Job): Tree {
    if job.kind == Data then map part | part in job.source && !AdbPart(part) :: job.source[part] else job.source
  }

  function TargetsOf(jobs: seq<Job>): (r: seq<Place>)
    ensures |r| == |jobs| && forall i :: 0 <= i < |jobs| ==> r[i] == jobs[i].target
  {
    seq(|jobs|, i requires 0 <= i < |jobs| => jobs[i].target)
  }

  // ------------------------------------------------------------- the plan

  /** The content a root holds once adopted: the prepared tree, unless the restored
      workload has already written to it before the commit. */
  function FinalTree(job: Job, workload: Disk): Tree {
    if job.target in workload then workload[job.target] else Incoming(job)
  }

  ghost predicate AllAdopted(disk: Disk, jobs: seq<Job>, workload: Disk) {
    forall i :: 0 <= i < |jobs| ==> jobs[i].target in disk && disk[jobs[i].target] == FinalTree(jobs[i], workload)
  }

  const CORE := ["classroom-control-hub", "classroom-control-hub-maintenance"]

  function Captured(names: seq<string>, units: seq<string>, containers: map<string, bool>, active: set<string>): Prior {
    Prior(seq(|names|, i requires 0 <= i < |names| =>
              PriorContainer(names[i], if names[i] in containers then Some(containers[names[i]]) else None)),
          seq(|units|, i requires 0 <= i < |units| => PriorUnit(units[i], units[i] in active)))
  }

  predicate DistinctPrior(prior: Prior) {
    && (forall i, j :: 0 <= i < j < |prior.containers| ==> prior.containers[i].name != prior.containers[j].name)
    && (forall i, j :: 0 <= i < j < |prior.units| ==> prior.units[i].name != prior.units[j].name)
  }

  predicate ContainerAsBefore(p: PriorContainer, containers: map<string, bool>) {
    match p.running
    case None => p.name !in containers
    case Some(b) => p.name in containers && containers[p.name] == b
  }

  /** Every captured container and unit is stopped. */
  predicate StandStill(prior: Prior, containers: map<string, bool>, active: set<string>) {
    && (forall i :: 0 <= i < |prior.containers| ==>
          prior.containers[i].name in containers ==> !containers[prior.containers[i].name])
    && (forall i :: 0 <= i < |prior.units| ==> prior.units[i].name !in active)
  }

  predicate CoreWanted(prior: Prior) {
    exists i :: 0 <= i < |prior.containers| && prior.containers[i].name in CORE && prior.containers[i].running == Some(true)
  }

  predicate CoreKept(before: map<string, bool>, after: map<string, bool>) {
    forall n :: n in CORE ==> (n in after <==> n in before) && (n in after ==> after[n] == before[n])
  }

  /** Add-on containers and native units are as captured; the core pair runs if either did. */
  predicate ServicesAsBefore(prior: Prior, containers: map<string, bool>, active: set<string>) {
    && (forall i :: 0 <= i < |prior.containers| && prior.containers[i].name !in CORE ==>
          ContainerAsBefore(prior.containers[i], containers))
    && (forall i :: 0 <= i < |prior.units| ==> (prior.units[i].name in active) == prior.units[i].running)
    && (CoreWanted(prior) ==> forall n :: n in CORE ==> n in containers && containers[n])
  }

  /** Being as it was captured means what it says: every captured service outside the core
      pair, and every unit, exists and runs exactly if it did; and if one of the core pair ran,
      both run. */
  lemma AsBeforeMeansUnchanged(names: seq<string>, units: seq<string>, c0: map<string, bool>, a0: set<string>,
                               c1: map<string, bool>, a1: set<string>)
    requires ServicesAsBefore(Captured(names, units, c0, a0), c1, a1)
    ensures forall n :: n in names && n !in CORE ==> (n in c0 <==> n in c1) && (n in c0 ==> c0[n] == c1[n])
    ensures forall u :: u in units ==> (u in a0 <==> u in a1)
    ensures forall n, m :: n in names && n in CORE && n in c0 && c0[n] && m in CORE ==> m in c1 && c1[m]
  {
    var prior := Captured(names, units, c0, a0);
    forall n | n in names && n !in CORE
      ensures (n in c0 <==> n in c1) && (n in c0 ==> c0[n] == c1[n])
    {
      var i :| 0 <= i < |names| && names[i] == n;
      assert ContainerAsBefore(prior.containers[i], c1);
    }
    forall u | u in units
      ensures u in a0 <==> u in a1
    {
      var i :| 0 <= i < |units| && units[i] == u;
      assert prior.units[i].name == u;
    }
    forall n | n in names && n in CORE && n in c0 && c0[n]
      ensures CoreWanted(prior)
    {
      var i :| 0 <= i < |names| && names[i] == n;
      assert prior.containers[i].name == n;
    }
  }

  /** Everything one transaction is judged against. */
  datatype Plan = Plan(jobs: seq<Job>, workload: Disk, orig: Disk, prior: Prior)

  ghost predicate Adopting(disk: Disk, j: Journal, plan: Plan) {
    && Follows(j.targets, TargetsOf(plan.jobs), j.recoveryId)
    && |j.targets| == |plan.jobs|
    && AllAdopted(disk, plan.jobs, plan.workload)
  }

  /** Prepared in full, not yet swapped in. */
  ghost predicate Ready(disk: Disk, r: Record, job: Job, orig: Disk) {
    && !r.activating && !r.activated && ItemSafe(disk, r, orig)
    && r.prepared in disk && disk[r.prepared] == Incoming(job)
  }

  /** Clearing a stale work file of the root about to be recorded. */
  lemma UnrecordedFrame(a: Disk, b: Disk, j: Journal, targets: seq<Place>, orig: Disk, p: Place)
    requires Recoverable(a, j, targets, orig) && |j.targets| < |targets| && OnlyAt(a, b, {p})
    requires var t := targets[|j.targets|];
             p == PreparedPlace(t, j.recoveryId) || p == SafetyPlace(t, j.recoveryId)
    ensures Recoverable(b, j, targets, orig)
  {
    var t := targets[|j.targets|];
    forall i | 0 <= i < |j.targets|
      ensures ItemSafe(b, j.targets[i], orig)
    {
      PlacesApart(t, targets[i], j.recoveryId);
      PlacesApart(targets[i], t, j.recoveryId);
      ItemFrame(a, b, j.targets[i], orig, {p});
    }
    forall i | |j.targets| <= i < |targets|
      ensures SameAt(b, orig, targets[i])
    {
      PlacesApart(t, targets[i], j.recoveryId);
      assert SameAt(a, b, targets[i]);
    }
  }

  /** Writing the prepared copy of the root recorded last. */
  lemma CopyFrame(a: Disk, b: Disk, j: Journal, targets: seq<Place>, orig: Disk)
    requires Recoverable(a, j, targets, orig) && j.targets != []
    requires var r := j.targets[|j.targets| - 1]; !r.activating && !r.activated && OnlyAt(a, b, {r.prepared})
    ensures Recoverable(b, j, targets, orig)
  {
    var k := |j.targets| - 1;
    var r := j.targets[k];
    RecordsApart(j.targets, targets, j.recoveryId, k, k);
    assert SameAt(a, b, r.target) && SameAt(a, b, r.safety);
    OthersFrame(a, b, j, targets, orig, k);
  }

  lemma PreparingFlag(disk: Disk, mem: Journal, r: Record, targets: seq<Place>, orig: Disk)
    requires Recoverable(disk, mem.(targets := mem.targets + [r]), targets, orig)
    ensures Recoverable(disk, mem.(targets := mem.targets + [r.(preparing := false)]), targets, orig)
    ensures ItemSafe(disk, r.(preparing := false), orig)
  {
    var before, after := mem.targets + [r], mem.targets + [r.(preparing := false)];
    assert ItemSafe(disk, before[|mem.targets|], orig);
    forall i | 0 <= i < |after|
      ensures ItemSafe(disk, after[i], orig)
    {
      assert ItemSafe(disk, before[i], orig);
    }
  }

  /** Swapped in. */
  ghost predicate Live(disk: Disk, r: Record, job: Job) {
    && r.activated && r.target in disk && disk[r.target] == Incoming(job)
    && (r.existed ==> r.safety in disk)
  }

  lemma ReadyFrame(a: Disk, b: Disk, r: Record, job: Job, orig: Disk, ps: set<Place>)
    requires OnlyAt(a, b, ps) && Places(r) !! ps
    ensures Ready(a, r, job, orig) <==> Ready(b, r, job, orig)
    ensures Live(a, r, job) <==> Live(b, r, job)
  {
    ItemFrame(a, b, r, orig, ps);
  }

  /** A new version of one record is as good as the old one while its root stays safe. */
  lemma ReplaceRecord(disk: Disk, mem: Journal, k: nat, r: Record, targets: seq<Place>, orig: Disk)
    requires Recoverable(disk, mem, targets, orig) && k < |mem.targets|
    requires Places(r) == Places(mem.targets[k]) && ItemSafe(disk, r, orig)
    requires r.target == mem.targets[k].target && r.prepared == mem.targets[k].prepared && r.safety == mem.targets[k].safety
    ensures Recoverable(disk, mem.(targets := mem.targets[k := r]), targets, orig)
  {
    var after := mem.targets[k := r];
    forall i | 0 <= i < |after|
      ensures ItemSafe(disk, after[i], orig) && RecordOf(after[i], targets[i], mem.recoveryId)
    {
      assert RecordOf(mem.targets[i], targets[i], mem.recoveryId);
    }
  }

  /** Swapped in, with its original beside it. */
  predicate StillSwapped(disk: Disk, r: Record) {
    r.activated && r.target in disk && (r.existed ==> r.safety in disk)
  }

  /** Once a root is swapped in, its own content no longer matters for putting the original
      back, so whatever the restored workload writes to it is harmless to a rollback. */
  lemma WorkloadFrame(a: Disk, b: Disk, j: Journal, targets: seq<Place>, orig: Disk, k: nat)
    requires Recoverable(a, j, targets, orig) && k < |j.targets|
    requires StillSwapped(a, j.targets[k]) && j.targets[k].target in b && OnlyAt(a, b, {j.targets[k].target})
    ensures Recoverable(b, j, targets, orig)
    ensures forall i :: 0 <= i < |j.targets| && StillSwapped(a, j.targets[i]) ==> StillSwapped(b, j.targets[i])
    ensures forall i :: 0 <= i < |j.targets| && i != k ==> SameAt(a, b, j.targets[i].target)
  {
    var r := j.targets[k];
    RecordsApart(j.targets, targets, j.recoveryId, k, k);
    assert SameAt(a, b, r.prepared) && SameAt(a, b, r.safety);
    OthersFrame(a, b, j, targets, orig, k);
  }

  /** A root put back and then written by the restarted workload is judged changed exactly if it
      did not exist before the transaction. */
  lemma RestartedRootJudged(disk: Disk, r: Record, orig: Disk, made: Tree)
    requires Restored(disk, r, orig) && r.target != r.safety && r.target != r.prepared
    ensures Changed(disk[r.target := made], r) <==> !r.existed
  {
  }

  /** Clearing work files of adopted roots leaves every target alone. */
  lemma AdoptedFrame(a: Disk, b: Disk, j: Journal, plan: Plan, k: nat, p: Place)
    requires Adopting(a, j, plan) && k < |j.targets| && OnlyAt(a, b, {p})
    requires p == j.targets[k].prepared || p == j.targets[k].safety
    ensures Adopting(b, j, plan)
  {
    forall i | 0 <= i < |plan.jobs|
      ensures plan.jobs[i].target in b && b[plan.jobs[i].target] == FinalTree(plan.jobs[i], plan.workload)
    {
      PlacesApart(j.targets[k].target, plan.jobs[i].target, j.recoveryId);
      assert SameAt(a, b, plan.jobs[i].target);
    }
  }

  lemma RestoredMeansSame(disk: Disk, j: Journal, targets: seq<Place>, orig: Disk)
    requires Recoverable(disk, j, targets, orig)
    requires forall i :: 0 <= i < |j.targets| ==> Restored(disk, j.targets[i], orig)
    ensures AllSame(disk, orig, targets)
  {
    forall i | 0 <= i < |targets|
      ensures SameAt(disk, orig, targets[i])
    {
      if i < |j.targets| {
        assert RecordOf(j.targets[i], targets[i], j.recoveryId) && Restored(disk, j.targets[i], orig);
      }
    }
  }
}
