/** The root-owned recovery transaction. Every durable operation may raise, and the
    process may die before or after it; `if *` marks those choices, so each contract
    below holds for every placement of faults and crashes. */
module FullRecovery {
  import opened Durability
  import opened FullRecoveryModel
  import opened Values

  class FullRecoveryManager {
    var disk: Disk
    var journal: Option<Journal>
    var report: Report
    var containers: map<string, bool>   // present key: the container exists; value: it runs
    var active: set<string>             // running native units
    ghost var everCommitted: bool       // a journal with phase Committed was durable once
    ghost var everJournaled: bool       // a journal was durable once
    ghost var raised: nat               // exceptions so far
    ghost var trouble: nat              // steps that raised or died, and services that refused

    // ------------------------------------------------------------ invariants

    /** What holds of the disk and the journal file whenever the process may die. */
    ghost predicate Durable(plan: Plan)
      reads `disk, `journal, `everCommitted
    {
      match journal
      case None =>
        if everCommitted then AllAdopted(disk, plan.jobs, plan.workload)
        else AllSame(disk, plan.orig, TargetsOf(plan.jobs))
      case Some(j) =>
        && j.prior == plan.prior
        && (j.phase.Committed? <==> everCommitted)
        && (if everCommitted then Adopting(disk, j, plan)
            else Recoverable(disk, j, TargetsOf(plan.jobs), plan.orig))
    }

    /** A terminal report never claims more than the disk and the services show. */
    ghost predicate Truthful(plan: Plan)
      reads `disk, `journal, `report, `everCommitted, `containers, `active
    {
      && (report.RolledBack? ==>
            && journal.None? && !everCommitted && AllSame(disk, plan.orig, TargetsOf(plan.jobs))
            && ServicesAsBefore(plan.prior, containers, active))
      && (report.Completed? ==> everCommitted && AllAdopted(disk, plan.jobs, plan.workload))
      && (report.Failed? ==> journal.None?)
    }

    // --------------------------------------------------------------- faults

    /** An exception leaves a method exactly if the outcome says so, and neither that nor a
        death happens without a cause outside the program. */
    twostate predicate Counted(o: Outcome)
      reads `raised, `trouble, `everJournaled
    {
      && raised == old(raised) + (if o.Raised? then 1 else 0)
      && trouble >= old(trouble) && (!o.Done? ==> trouble > old(trouble))
      && (old(everJournaled) ==> everJournaled)
    }

    twostate predicate Quiet()
      reads `raised, `trouble, `everJournaled
    {
      raised == old(raised) && trouble >= old(trouble) && (old(everJournaled) ==> everJournaled)
    }

    /** A step of the system has ended like this. */
    ghost method Note(o: Outcome)
      modifies `raised, `trouble
      ensures raised == old(raised) + (if o.Raised? then 1 else 0)
      ensures trouble == old(trouble) + (if o.Done? then 0 else 1)
    {
      if o.Raised? { raised := raised + 1; }
      if !o.Done? { trouble := trouble + 1; }
    }

    /** A service did not do what it was asked for. */
    ghost method Refused()
      modifies `trouble
      ensures trouble == old(trouble) + 1
    {
      trouble := trouble + 1;
    }

    /** The program itself raises. */
    ghost method Throw()
      modifies `raised
      ensures raised == old(raised) + 1
    {
      raised := raised + 1;
    }

    method Attempt() returns (o: Outcome)
      modifies `raised, `trouble
      ensures Counted(o) && trouble == old(trouble) + (if o.Done? then 0 else 1)
    {
      o := Step();
      Note(o);
    }

    // ------------------------------------------------- single durable steps

    method WriteJournal(j: Journal) returns (o: Outcome)
      modifies `journal, `everCommitted, `everJournaled, `raised, `trouble
      ensures o.Done? ==> journal == Some(j)
      ensures || (journal == Some(j) && everCommitted == (old(everCommitted) || j.phase.Committed?) && everJournaled)
              || (journal == old(journal) && everCommitted == old(everCommitted) && everJournaled == old(everJournaled) && !o.Done?)
      ensures Counted(o)
    {
      o := Attempt();
      if o.IsFailure() { return; }
      journal := Some(j);
      everCommitted, everJournaled := everCommitted || j.phase.Committed?, true;
      o := Attempt();
    }

    method UnlinkJournalAs(f: Fate) returns (o: Outcome)
      modifies `journal, `raised, `trouble
      ensures o == f.Ends() && journal == if f.Takes() then None else old(journal)
      ensures Counted(o)
    {
      o := f.before;
      if o.Done? {
        journal := None;
        o := f.after;
      }
      Note(o);
    }

    method UnlinkJournal() returns (o: Outcome)
      modifies `journal, `raised, `trouble
      ensures o.Done? ==> journal == None
      ensures journal == None || journal == old(journal)
      ensures Counted(o)
    {
      var f := AnyFate();
      o := UnlinkJournalAs(f);
    }

    method SetReportAs(r: Report, f: Fate) returns (o: Outcome)
      modifies `report, `raised, `trouble
      ensures o == f.Ends() && report == if f.Takes() then r else old(report)
      ensures Counted(o)
    {
      o := f.before;
      if o.Done? {
        report := r;
        o := f.after;
      }
      Note(o);
    }

    method SetReport(r: Report) returns (o: Outcome)
      modifies `report, `raised, `trouble
      ensures o.Done? ==> report == r
      ensures report == r || report == old(report)
      ensures Counted(o)
    {
      var f := AnyFate();
      o := SetReportAs(r, f);
    }

    // ------------------------------------------------------------- services

    /** `wanted` if the caller needs the command to succeed. */
    method DockerStop(name: string, wanted: bool) returns (o: Outcome, ok: bool)
      modifies `containers, `raised, `trouble
      ensures containers.Keys == old(containers).Keys
      ensures forall n :: n in containers && n != name ==> containers[n] == old(containers)[n]
      ensures name in containers && containers[name] ==> old(containers)[name]
      ensures ok ==> name in containers && !containers[name]
      ensures Counted(o)
      ensures !ok && (wanted || (name in containers && containers[name])) ==> trouble > old(trouble)
    {
      ok := false;
      o := Attempt();
      if o.IsFailure() { return; }
      if name in containers {
        if * {
          containers := containers[name := false];
          if * { ok := true; }
        }
      }
      if !ok && (wanted || (name in containers && containers[name])) { Refused(); }
      o := Attempt();
    }

    method DockerStart(name: string) returns (o: Outcome, ok: bool)
      modifies `containers, `raised, `trouble
      ensures containers.Keys == old(containers).Keys
      ensures forall n :: n in containers && n != name ==> containers[n] == old(containers)[n]
      ensures ok ==> name in containers && containers[name]
      ensures Counted(o)
      ensures !ok ==> trouble > old(trouble)
    {
      ok := false;
      o := Attempt();
      if o.IsFailure() { return; }
      if name in containers {
        if * {
          containers := containers[name := true];
          if * { ok := true; }
        }
      }
      if !ok { Refused(); }
      o := Attempt();
    }

    method DockerRemove(name: string) returns (o: Outcome)
      modifies `containers, `raised, `trouble
      ensures containers == old(containers) || containers == old(containers) - {name}
      ensures Counted(o)
      ensures name in containers ==> trouble > old(trouble)
    {
      o := Attempt();
      if o.IsFailure() { return; }
      if * { containers := containers - {name}; }
      if name in containers { Refused(); }
      o := Attempt();
    }

    method ComposeUpCore() returns (o: Outcome, ok: bool)
      modifies `containers, `raised, `trouble
      ensures forall n :: n !in CORE ==>
                (n in containers <==> n in old(containers)) &&
                (n in containers ==> containers[n] == old(containers)[n])
      ensures ok ==> forall n :: n in CORE ==> n in containers && containers[n]
      ensures Counted(o)
      ensures !ok ==> trouble > old(trouble)
    {
      ok := false;
      o := Attempt();
      if o.IsFailure() { return; }
      if * {
        containers := containers[CORE[0] := true];
        if * {
          containers := containers[CORE[1] := true];
          if * { ok := true; }
        }
      }
      if !ok { Refused(); }
      o := Attempt();
    }

    method UnitStop(name: string, wanted: bool) returns (o: Outcome, ok: bool)
      modifies `active, `raised, `trouble
      ensures active == old(active) || active == old(active) - {name}
      ensures Counted(o)
      ensures (wanted && !ok) || name in active ==> trouble > old(trouble)
    {
      ok := false;
      o := Attempt();
      if o.IsFailure() { return; }
      if * { active := active - {name}; }
      if * { ok := true; }
      if (wanted && !ok) || name in active { Refused(); }
      o := Attempt();
    }

    method UnitStart(name: string) returns (o: Outcome, ok: bool)
      modifies `active, `raised, `trouble
      ensures active == old(active) || active == old(active) + {name}
      ensures ok ==> name in active
      ensures Counted(o)
      ensures !ok ==> trouble > old(trouble)
    {
      ok := false;
      o := Attempt();
      if o.IsFailure() { return; }
      if * {
        active := active + {name};
        if * { ok := true; }
      }
      if !ok { Refused(); }
      o := Attempt();
    }

    /** Stop every container and unit, and go on only once each is seen stopped. */
    method StopWriters(prior: Prior) returns (o: Outcome)
      modifies `containers, `active, `raised, `trouble
      ensures o.Done? ==> StandStill(prior, containers, active)
      ensures Counted(o)
    {
      for k := 0 to |prior.containers|
        invariant Quiet()
        invariant forall i :: 0 <= i < k ==>
                    prior.containers[i].name in containers ==> !containers[prior.containers[i].name]
      {
        var name := prior.containers[k].name;
        var stopped;
        o, stopped := DockerStop(name, prior.containers[k].running != None);
        if o.IsFailure() { return; }
        if prior.containers[k].running != None && !stopped { Throw(); return Raised; }
        if name in containers && containers[name] { Throw(); return Raised; }
      }
      for k := 0 to |prior.units|
        invariant Quiet()
        invariant forall i :: 0 <= i < |prior.containers| ==>
                    prior.containers[i].name in containers ==> !containers[prior.containers[i].name]
        invariant forall i :: 0 <= i < k ==> prior.units[i].name !in active
      {
        var name := prior.units[k].name;
        var stopped;
        o, stopped := UnitStop(name, prior.units[k].running);
        if o.IsFailure() { return; }
        if prior.units[k].running && !stopped { Throw(); return Raised; }
        if name in active { Throw(); return Raised; }
      }
      return Done;
    }

    method CaptureDesiredState(names: seq<string>, units: seq<string>) returns (prior: Prior)
      ensures prior == Captured(names, units, containers, active)
    {
      var seen: seq<PriorContainer> := [];
      for k := 0 to |names|
        invariant Quiet()
        invariant seen == Captured(names, units, containers, active).containers[..k]
      {
        seen := seen + [PriorContainer(names[k], if names[k] in containers then Some(containers[names[k]]) else None)];
      }
      var native: seq<PriorUnit> := [];
      for k := 0 to |units|
        invariant Quiet()
        invariant native == Captured(names, units, containers, active).units[..k]
      {
        native := native + [PriorUnit(units[k], units[k] in active)];
      }
      prior := Prior(seen, native);
    }

    // --------------------------------------------------------- forward path

    /** Remove leftovers under the two work names of a root not yet recorded. */
    method ClearWorkFiles(target: Place, mem: Journal, ghost plan: Plan) returns (o: Outcome)
      requires |mem.targets| < |plan.jobs| && target == plan.jobs[|mem.targets|].target
      requires Recoverable(disk, mem, TargetsOf(plan.jobs), plan.orig)
      modifies `disk, `raised, `trouble
      ensures Recoverable(disk, mem, TargetsOf(plan.jobs), plan.orig)
      ensures OnlyAt(old(disk), disk, {PreparedPlace(target, mem.recoveryId), SafetyPlace(target, mem.recoveryId)})
      ensures o.Done? ==> SafetyPlace(target, mem.recoveryId) !in disk
      ensures Counted(o)
    {
      var prepared, safety := PreparedPlace(target, mem.recoveryId), SafetyPlace(target, mem.recoveryId);
      o, disk := RemovePath(disk, prepared);
      Note(o);
      UnrecordedFrame(old(disk), disk, mem, TargetsOf(plan.jobs), plan.orig, prepared);
      if o.IsFailure() { return; }
      label Cleared:
      o, disk := RemovePath(disk, safety);
      Note(o);
      UnrecordedFrame(old@Cleared(disk), disk, mem, TargetsOf(plan.jobs), plan.orig, safety);
      OnlyAtThen(old(disk), old@Cleared(disk), disk, {prepared}, {safety});
    }

    /** Fill the prepared copy of the root recorded last. */
    method CopyPrepared(job: Job, mem: Journal, ghost plan: Plan) returns (o: Outcome)
      requires mem.targets != [] && Recoverable(disk, mem, TargetsOf(plan.jobs), plan.orig)
      requires var r := mem.targets[|mem.targets| - 1]; !r.activating && !r.activated
      modifies `disk, `raised, `trouble
      ensures Recoverable(disk, mem, TargetsOf(plan.jobs), plan.orig)
      ensures OnlyAt(old(disk), disk, {mem.targets[|mem.targets| - 1].prepared})
      ensures o.Done? ==>
                && mem.targets[|mem.targets| - 1].prepared in disk
                && disk[mem.targets[|mem.targets| - 1].prepared] == Incoming(job)
      ensures Counted(o)
    {
      var prepared := mem.targets[|mem.targets| - 1].prepared;
      o, disk := CopyTree(disk, job.source, prepared);
      Note(o);
      CopyFrame(old(disk), disk, mem, TargetsOf(plan.jobs), plan.orig);
      if o.IsFailure() { return; }
      if job.kind == Data {
        label Copied:
        var doomed := set part | part in job.source && AdbPart(part);
        o, disk := RemoveParts(disk, prepared, doomed);
        Note(o);
        CopyFrame(old@Copied(disk), disk, mem, TargetsOf(plan.jobs), plan.orig);
        OnlyAtThen(old(disk), old@Copied(disk), disk, {prepared}, {prepared});
        if o.IsFailure() { return; }
        assert job.source - doomed == Incoming(job);
      }
      o := Attempt();
    }

    method PrepareSwap(job: Job, mem: Journal, ghost plan: Plan) returns (o: Outcome, next: Journal)
      requires |mem.targets| < |plan.jobs| && job == plan.jobs[|mem.targets|]
      requires journal == Some(mem) && Durable(plan) && !everCommitted
      modifies `disk, `journal, `everCommitted, `everJournaled, `raised, `trouble
      ensures Durable(plan) && !everCommitted && journal.Some?
      ensures OnlyAt(old(disk), disk, {PreparedPlace(job.target, mem.recoveryId), SafetyPlace(job.target, mem.recoveryId)})
      ensures o.Done? ==>
                && |next.targets| == |mem.targets| + 1
                && next.(targets := mem.targets) == mem && next.targets[..|mem.targets|] == mem.targets
                && Ready(disk, next.targets[|mem.targets|], job, plan.orig) && !next.targets[|mem.targets|].preparing
                && Recoverable(disk, next, TargetsOf(plan.jobs), plan.orig)
      ensures Counted(o)
    {
      next := mem;
      o := ClearWorkFiles(job.target, mem, plan);
      if o.IsFailure() { return; }
      ghost var targets := TargetsOf(plan.jobs);
      ghost var k := |mem.targets|;
      var record := Record(job.target, PreparedPlace(job.target, mem.recoveryId), SafetyPlace(job.target, mem.recoveryId),
                           job.target in disk, job.kind, false, false, true);
      next := mem.(targets := mem.targets + [record]);
      assert SameAt(disk, plan.orig, targets[k]);
      assert Recoverable(disk, next, targets, plan.orig);
      o := WriteJournal(next);
      if o.IsFailure() { return; }
      label Recorded:
      o := CopyPrepared(job, next, plan);
      OnlyAtThen(old(disk), old@Recorded(disk), disk, {record.prepared, record.safety}, {record.prepared});
      assert {record.prepared, record.safety} + {record.prepared} == {record.prepared, record.safety};
      if o.IsFailure() { return; }
      next := mem.(targets := mem.targets + [record.(preparing := false)]);
      PreparingFlag(disk, mem, record, targets, plan.orig);
    }

    /** The two renames of one root. */
    method ActivateSwap(r: Record, job: Job, ghost orig: Disk) returns (o: Outcome)
      requires r.target != r.prepared && r.target != r.safety && r.prepared != r.safety
      requires r.activating && ItemSafe(disk, r, orig) && r.safety !in disk
      requires r.prepared in disk && disk[r.prepared] == Incoming(job)
      modifies `disk, `raised, `trouble
      ensures OnlyAt(old(disk), disk, Places(r)) && ItemSafe(disk, r, orig)
      ensures o.Done? ==> r.target in disk && disk[r.target] == Incoming(job) && (r.existed ==> r.safety in disk)
      ensures Counted(o)
    {
      if r.target in disk {
        o, disk := Replace(disk, r.target, r.safety);
        Note(o);
        if o.IsFailure() { return; }
      }
      o, disk := Replace(disk, r.prepared, r.target);
      Note(o);
      if o.IsFailure() { return; }
      o := Attempt();
    }

    /** Durable intent, swap, durable completion for root k. */
    method ActivateRoot(k: nat, mem: Journal, job: Job, ghost plan: Plan) returns (o: Outcome, next: Journal)
      requires k < |mem.targets| && Ready(disk, mem.targets[k], job, plan.orig)
      requires journal == Some(mem) && Durable(plan) && !everCommitted
      modifies `disk, `journal, `everCommitted, `everJournaled, `raised, `trouble
      ensures Durable(plan) && !everCommitted && journal.Some?
      ensures OnlyAt(old(disk), disk, Places(mem.targets[k]))
      ensures o.Done? ==>
                && journal == Some(next) && |next.targets| == |mem.targets|
                && next == mem.(targets := mem.targets[k := next.targets[k]]) && Live(disk, next.targets[k], job)
      ensures Counted(o)
    {
      ghost var targets := TargetsOf(plan.jobs);
      var r := mem.targets[k].(activating := true);
      RecordsApart(mem.targets, targets, mem.recoveryId, k, k);
      ReplaceRecord(disk, mem, k, r, targets, plan.orig);
      next := mem.(targets := mem.targets[k := r]);
      o := WriteJournal(next);
      if o.IsFailure() { return; }
      o := ActivateSwap(r, job, plan.orig);
      OthersFrame(old(disk), disk, next, targets, plan.orig, k);
      if o.IsFailure() { return; }
      r := r.(activated := true, activating := false);
      assert ItemSafe(disk, r, plan.orig);
      ReplaceRecord(disk, next, k, r, targets, plan.orig);
      next := next.(targets := next.targets[k := r]);
      assert next.targets == mem.targets[k := r];
      o := WriteJournal(next);
    }

    method PrepareAll(jobs: seq<Job>, start: Journal, ghost plan: Plan) returns (o: Outcome, mem: Journal)
      requires jobs == plan.jobs && start.targets == [] && !start.phase.Committed? && StandStill(start.prior, containers, active)
      requires journal == Some(start) && Durable(plan) && !everCommitted
      modifies `disk, `journal, `everCommitted, `everJournaled, `raised, `trouble
      ensures Durable(plan) && !everCommitted && journal.Some?
      ensures o.Done? ==>
                && journal == Some(mem) && mem.(targets := []) == start && |mem.targets| == |jobs|
                && forall i :: 0 <= i < |jobs| ==> Ready(disk, mem.targets[i], jobs[i], plan.orig)
      ensures Counted(o)
    {
      mem := start;
      for k := 0 to |jobs|
        invariant Quiet()
        invariant Durable(plan) && !everCommitted && journal == Some(mem)
        invariant mem.(targets := []) == start && |mem.targets| == k
        invariant forall i :: 0 <= i < k ==> Ready(disk, mem.targets[i], jobs[i], plan.orig)
      {
        label Before:
        var next;
        o, next := PrepareSwap(jobs[k], mem, plan);
        if o.IsFailure() { return; }
        forall i | 0 <= i < k
          ensures Ready(disk, next.targets[i], jobs[i], plan.orig)
        {
          assert next.targets[i] == next.targets[..k][i];
          RecordsApart(next.targets, TargetsOf(jobs), next.recoveryId, i, k);
          RecordsApart(next.targets, TargetsOf(jobs), next.recoveryId, k, i);
          ReadyFrame(old@Before(disk), disk, mem.targets[i], jobs[i], plan.orig,
                     {PreparedPlace(jobs[k].target, mem.recoveryId), SafetyPlace(jobs[k].target, mem.recoveryId)});
        }
        mem := next;
        o := WriteJournal(mem);
        if o.IsFailure() { return; }
      }
      o := Done;
    }

    method ActivateAll(jobs: seq<Job>, start: Journal, ghost plan: Plan) returns (o: Outcome, mem: Journal)
      requires jobs == plan.jobs && |start.targets| == |jobs| && StandStill(start.prior, containers, active)
      requires journal == Some(start) && Durable(plan) && !everCommitted
      requires forall i :: 0 <= i < |jobs| ==> Ready(disk, start.targets[i], jobs[i], plan.orig)
      modifies `disk, `journal, `everCommitted, `everJournaled, `raised, `trouble
      ensures Durable(plan) && !everCommitted && journal.Some?
      ensures o.Done? ==>
                && journal == Some(mem) && |mem.targets| == |jobs| && mem.(targets := start.targets) == start
                && forall i :: 0 <= i < |jobs| ==> Live(disk, mem.targets[i], jobs[i])
      ensures Counted(o)
    {
      mem := start;
      for k := 0 to |jobs|
        invariant Quiet()
        invariant Durable(plan) && !everCommitted && journal == Some(mem)
        invariant |mem.targets| == |jobs| && mem.(targets := start.targets) == start
        invariant forall i :: 0 <= i < k ==> Live(disk, mem.targets[i], jobs[i])
        invariant forall i :: k <= i < |jobs| ==> Ready(disk, mem.targets[i], jobs[i], plan.orig)
      {
        label Before:
        var next;
        o, next := ActivateRoot(k, mem, jobs[k], plan);
        if o.IsFailure() { return; }
        forall i | 0 <= i < |jobs| && i != k
          ensures Live(disk, next.targets[i], jobs[i]) <==> Live(old@Before(disk), mem.targets[i], jobs[i])
          ensures Ready(disk, next.targets[i], jobs[i], plan.orig) <==> Ready(old@Before(disk), mem.targets[i], jobs[i], plan.orig)
        {
          RecordsApart(mem.targets, TargetsOf(jobs), mem.recoveryId, i, k);
          ReadyFrame(old@Before(disk), disk, mem.targets[i], jobs[i], plan.orig, Places(mem.targets[k]));
        }
        mem := next;
      }
      o := Done;
    }

    // ------------------------------------------------------------- backward

    /** Put one root back; safe to repeat after dying anywhere inside. */
    method RollbackItem(r: Record, ghost orig: Disk) returns (o: Outcome)
      requires r.target != r.prepared && r.target != r.safety && r.prepared != r.safety
      requires ItemSafe(disk, r, orig)
      modifies `disk, `raised, `trouble
      ensures OnlyAt(old(disk), disk, Places(r)) && ItemSafe(disk, r, orig)
      ensures o.Done? ==> Restored(disk, r, orig)
      ensures Counted(o)
    {
      if r.activated || r.activating {
        if Changed(disk, r) {
          o, disk := RemovePath(disk, r.target);
          Note(o);
          assert SameAt(old(disk), disk, r.prepared) && SameAt(old(disk), disk, r.safety);
          if o.IsFailure() { return; }
          if r.existed && r.safety in disk {
            o, disk := Replace(disk, r.safety, r.target);
            Note(o);
            if o.IsFailure() { return; }
          }
        }
      }
      label Put:
      o, disk := RemovePath(disk, r.prepared);
      Note(o);
      assert SameAt(old@Put(disk), disk, r.target) && SameAt(old@Put(disk), disk, r.safety);
      OnlyAtThen(old(disk), old@Put(disk), disk, Places(r), {r.prepared});
      assert Places(r) + {r.prepared} == Places(r);
    }

    /** A rollback repeated after it had already put a root back and restarted the workload,
        which has written there since: what the workload made stays if the root existed before
        the transaction, and is removed if it did not. */
    method RepeatedRollback(r: Record, made: Tree, ghost orig: Disk) returns (o: Outcome)
      requires r.target != r.prepared && r.target != r.safety && r.prepared != r.safety
      requires (r.activated || r.activating) && r.existed == (r.target in orig) && Restored(disk, r, orig)
      modifies `disk, `raised, `trouble
      ensures o.Done? ==> if r.existed then r.target in disk && disk[r.target] == made else r.target !in disk
      ensures Counted(o)
    {
      disk := disk[r.target := made];
      o := RollbackItem(r, if r.existed then orig[r.target := made] else orig);
    }

    method RollbackTargets(j: Journal, ghost plan: Plan) returns (o: Outcome)
      requires Recoverable(disk, j, TargetsOf(plan.jobs), plan.orig) && StandStill(j.prior, containers, active)
      modifies `disk, `raised, `trouble
      ensures Recoverable(disk, j, TargetsOf(plan.jobs), plan.orig)
      ensures o.Done? ==> forall i :: 0 <= i < |j.targets| ==> Restored(disk, j.targets[i], plan.orig)
      ensures Counted(o)
    {
      var k := |j.targets|;
      while k > 0
        invariant Quiet()
        invariant 0 <= k <= |j.targets|
        invariant Recoverable(disk, j, TargetsOf(plan.jobs), plan.orig)
        invariant forall i :: k <= i < |j.targets| ==> Restored(disk, j.targets[i], plan.orig)
      {
        k := k - 1;
        label Before:
        RecordsApart(j.targets, TargetsOf(plan.jobs), j.recoveryId, k, k);
        o := RollbackItem(j.targets[k], plan.orig);
        OthersFrame(old@Before(disk), disk, j, TargetsOf(plan.jobs), plan.orig, k);
        if o.IsFailure() { return; }
      }
      o := Done;
    }

    method ReconcileContainers(prior: Prior) returns (o: Outcome)
      requires DistinctPrior(prior)
      modifies `containers, `raised, `trouble
      ensures o.Done? ==> forall i :: 0 <= i < |prior.containers| && prior.containers[i].name !in CORE ==>
                ContainerAsBefore(prior.containers[i], containers)
      ensures CoreKept(old(containers), containers)
      ensures Counted(o)
    {
      for k := 0 to |prior.containers|
        invariant Quiet()
        invariant forall i :: 0 <= i < k && prior.containers[i].name !in CORE ==>
                    ContainerAsBefore(prior.containers[i], containers)
        invariant CoreKept(old(containers), containers)
      {
        var c := prior.containers[k];
        if c.name in CORE { continue; }
        var ok;
        match c.running {
          case None =>
            o := DockerRemove(c.name);
            if o.IsFailure() { return; }
            if c.name in containers { Throw(); return Raised; }
          case Some(run) =>
            if run {
              o, ok := DockerStart(c.name);
            } else {
              o, ok := DockerStop(c.name, true);
            }
            if o.IsFailure() { return; }
            if !ok { Throw(); return Raised; }
        }
      }
      return Done;
    }

    method ReconcilePrior(prior: Prior) returns (o: Outcome)
      requires DistinctPrior(prior) && StandStill(prior, containers, active)
      modifies `containers, `active, `raised, `trouble
      ensures o.Done? ==> ServicesAsBefore(prior, containers, active)
      ensures Counted(o)
    {
      if exists i :: 0 <= i < |prior.containers| && prior.containers[i].name in CORE && prior.containers[i].running == Some(true) {
        var up;
        o, up := ComposeUpCore();
        if o.IsFailure() { return; }
        if !up { Throw(); return Raised; }
      }
      assert CoreWanted(prior) ==> forall n :: n in CORE ==> n in containers && containers[n];
      o := ReconcileContainers(prior);
      if o.IsFailure() { return; }
      assert CoreWanted(prior) ==> forall n :: n in CORE ==> n in containers && containers[n];
      label Containers:
      for k := 0 to |prior.units|
        invariant Quiet()
        invariant containers == old@Containers(containers)
        invariant forall i :: 0 <= i < k ==> (prior.units[i].name in active) == prior.units[i].running
        invariant forall i :: k <= i < |prior.units| ==> prior.units[i].name !in active
      {
        var ok;
        if prior.units[k].running {
          o, ok := UnitStart(prior.units[k].name);
        } else {
          o, ok := UnitStop(prior.units[k].name, false);
        }
        if o.IsFailure() { return; }
        if prior.units[k].running && !ok { Throw(); return Raised; }
      }
      return Done;
    }

    method Rollback(j: Journal, ghost plan: Plan) returns (o: Outcome)
      requires journal == Some(j) && Durable(plan) && !everCommitted && DistinctPrior(plan.prior)
      modifies `disk, `journal, `containers, `active, `raised, `trouble
      ensures Durable(plan) && !everCommitted
      ensures journal == None || journal == Some(j)
      ensures o.Done? ==>
                && journal == None && AllSame(disk, plan.orig, TargetsOf(plan.jobs))
                && ServicesAsBefore(plan.prior, containers, active)
      ensures Counted(o)
    {
      o := StopWriters(j.prior);
      if o.IsFailure() { return; }
      o := RollbackTargets(j, plan);
      if o.IsFailure() { return; }
      RestoredMeansSame(disk, j, TargetsOf(plan.jobs), plan.orig);
      o := ReconcilePrior(j.prior);
      if o.IsFailure() { return; }
      o := UnlinkJournal();
    }

    // -------------------------------------------------------------- cleanup

    method DiscardSafety(j: Journal, ghost plan: Plan) returns (o: Outcome)
      requires Adopting(disk, j, plan)
      modifies `disk, `raised, `trouble
      ensures Adopting(disk, j, plan)
      ensures o.Done? ==> forall i :: 0 <= i < |j.targets| ==> j.targets[i].safety !in disk && j.targets[i].prepared !in disk
      ensures Counted(o)
    {
      for k := 0 to |j.targets|
        invariant Quiet()
        invariant Adopting(disk, j, plan)
        invariant forall i :: 0 <= i < k ==> j.targets[i].safety !in disk && j.targets[i].prepared !in disk
      {
        label Before:
        o, disk := RemovePath(disk, j.targets[k].safety);
        Note(o);
        AdoptedFrame(old@Before(disk), disk, j, plan, k, j.targets[k].safety);
        if o.IsFailure() { return; }
        label Middle:
        o, disk := RemovePath(disk, j.targets[k].prepared);
        Note(o);
        AdoptedFrame(old@Middle(disk), disk, j, plan, k, j.targets[k].prepared);
        if o.IsFailure() { return; }
      }
      o := Attempt();
    }

    // --------------------------------------------------------- transaction

    /** The restored workload writes to one adopted root, first something partial. */
    method WriteRoot(k: nat, content: Tree, mem: Journal, ghost plan: Plan) returns (o: Outcome)
      requires journal == Some(mem) && Durable(plan) && !everCommitted && k < |mem.targets|
      requires StillSwapped(disk, mem.targets[k])
      modifies `disk, `raised, `trouble
      ensures Durable(plan)
      ensures forall i :: 0 <= i < |mem.targets| && StillSwapped(old(disk), mem.targets[i]) ==> StillSwapped(disk, mem.targets[i])
      ensures forall i :: 0 <= i < |mem.targets| && i != k ==> SameAt(old(disk), disk, mem.targets[i].target)
      ensures o.Done? ==> mem.targets[k].target in disk && disk[mem.targets[k].target] == content
      ensures Counted(o)
    {
      var partial: Tree := *;
      disk := disk[mem.targets[k].target := partial];
      WorkloadFrame(old(disk), disk, mem, TargetsOf(plan.jobs), plan.orig, k);
      o := Attempt();
      if o.IsFailure() { return; }
      label Partly:
      disk := disk[mem.targets[k].target := content];
      WorkloadFrame(old@Partly(disk), disk, mem, TargetsOf(plan.jobs), plan.orig, k);
    }

    /** One adopted root under the restored workload, which writes to it or does not. */
    method RunRoot(k: nat, job: Job, workload: Disk, mem: Journal, ghost plan: Plan) returns (o: Outcome)
      requires journal == Some(mem) && Durable(plan) && !everCommitted && k < |mem.targets| && mem.targets[k].target == job.target
      requires StillSwapped(disk, mem.targets[k]) && disk[job.target] == Incoming(job)
      modifies `disk, `raised, `trouble
      ensures Durable(plan)
      ensures forall i :: 0 <= i < |mem.targets| && StillSwapped(old(disk), mem.targets[i]) ==> StillSwapped(disk, mem.targets[i])
      ensures forall i :: 0 <= i < |mem.targets| && i != k ==> SameAt(old(disk), disk, mem.targets[i].target)
      ensures o.Done? ==> job.target in disk && disk[job.target] == FinalTree(job, workload)
      ensures Counted(o)
    {
      o := Attempt();
      if o.IsFailure() { return; }
      if job.target in workload {
        o := WriteRoot(k, workload[job.target], mem, plan);
      }
    }

    /** The restored workload starts: it may write to any adopted root, and the managed
        services move freely. */
    method RestartAndValidate(jobs: seq<Job>, workload: Disk, mem: Journal, ghost plan: Plan) returns (o: Outcome)
      requires jobs == plan.jobs && workload == plan.workload
      requires journal == Some(mem) && Durable(plan) && !everCommitted && |mem.targets| == |jobs|
      requires forall i :: 0 <= i < |jobs| ==> Live(disk, mem.targets[i], jobs[i])
      modifies `disk, `containers, `active, `raised, `trouble
      ensures Durable(plan)
      ensures o.Done? ==> AllAdopted(disk, jobs, workload)
      ensures Counted(o)
    {
      containers, active := *, *;
      assert forall i :: 0 <= i < |jobs| ==> mem.targets[i].target == TargetsOf(jobs)[i];
      for k := 0 to |jobs|
        invariant Quiet()
        invariant Durable(plan)
        invariant forall i :: 0 <= i < |jobs| ==> StillSwapped(disk, mem.targets[i])
        invariant forall i :: 0 <= i < k ==> disk[mem.targets[i].target] == FinalTree(jobs[i], workload)
        invariant forall i :: k <= i < |jobs| ==> disk[mem.targets[i].target] == Incoming(jobs[i])
      {
        o := RunRoot(k, jobs[k], workload, mem, plan);
        if o.IsFailure() { return; }
      }
      o := Attempt();
    }

    method Advance(j: Journal, phase: Phase, ghost plan: Plan) returns (o: Outcome, next: Journal)
      requires journal == Some(j) && Durable(plan) && !everCommitted
      requires phase.Committed? ==> Adopting(disk, j, plan)
      modifies `journal, `everCommitted, `everJournaled, `raised, `trouble
      ensures next == j.(phase := phase) && Durable(plan) && journal.Some?
      ensures everCommitted ==> phase.Committed?
      ensures o.Done? ==> journal == Some(next) && (everCommitted <==> phase.Committed?)
      ensures Counted(o)
    {
      next := j.(phase := phase);
      o := WriteJournal(next);
    }

    /** From the quiesced snapshot to the durable commit. The captured services stand still from
        the start until every root is swapped in. */
    method Swap(jobs: seq<Job>, workload: Disk, start: Journal, ghost plan: Plan) returns (o: Outcome, j: Journal)
      requires jobs == plan.jobs && workload == plan.workload
      requires start.targets == [] && start.phase.Quiescing? && journal == Some(start) && Durable(plan) && !everCommitted
      requires StandStill(start.prior, containers, active)
      modifies `disk, `journal, `everCommitted, `everJournaled, `containers, `active, `raised, `trouble
      ensures Durable(plan) && journal.Some?
      ensures o.Done? ==> everCommitted && journal == Some(j)
      ensures Counted(o)
    {
      o, j := Advance(start, Snapshot, plan);
      if o.IsFailure() { return; }
      o, j := PrepareAll(jobs, j, plan);
      if o.IsFailure() { return; }
      o, j := Advance(j, Prepared, plan);
      if o.IsFailure() { return; }
      o, j := ActivateAll(jobs, j, plan);
      if o.IsFailure() { return; }
      o, j := Advance(j, Activated, plan);
      if o.IsFailure() { return; }
      o := Attempt();
      if o.IsFailure() { return; }
      o := RestartAndValidate(jobs, workload, j, plan);
      if o.IsFailure() { return; }
      o, j := Advance(j, Committed, plan);
    }

    /** The last two steps of a committed transaction. */
    method CloseJournal(unlink: Fate, status: Fate) returns (o: Outcome)
      modifies `journal, `report, `raised, `trouble
      ensures journal == if unlink.Takes() then None else old(journal)
      ensures report == if unlink.Ends().Done? && status.Takes() then Completed else old(report)
      ensures o == if unlink.Ends().Done? then status.Ends() else unlink.Ends()
      ensures Counted(o)
    {
      o := UnlinkJournalAs(unlink);
      if o.IsFailure() { return; }
      o := SetReportAs(Completed, status);
    }

    /** Cleanup of a committed transaction, in process or after a restart. */
    method FinishCommitted(j: Journal, ghost plan: Plan) returns (o: Outcome)
      requires everCommitted && journal == Some(j) && Durable(plan)
      modifies `disk, `journal, `report, `raised, `trouble
      ensures Durable(plan)
      ensures AllAdopted(disk, plan.jobs, plan.workload)
      ensures report == old(report) || report == Completed
      ensures journal == None || (journal == Some(j) && report == old(report))
      ensures o.Done? ==> journal == None && report == Completed
      ensures Counted(o)
    {
      o := Attempt();
      if o.IsFailure() { return; }
      :- DiscardSafety(j, plan);
      var unlink := AnyFate();
      var status := AnyFate();
      o := CloseJournal(unlink, status);
    }

    /** The first journal, and every captured service stopped. */
    method Quiesce(id: string, names: seq<string>, units: seq<string>, ghost plan: Plan) returns (o: Outcome, j: Journal)
      requires plan == Plan(plan.jobs, plan.workload, disk, Captured(names, units, containers, active))
      requires Targets(TargetsOf(plan.jobs), id)
      requires journal == None && !everCommitted && !everJournaled && report.InProgress?
      modifies `journal, `everCommitted, `everJournaled, `report, `containers, `active, `raised, `trouble
      ensures Durable(plan) && !everCommitted && report.InProgress? && (everJournaled <==> journal.Some?)
      ensures o.Done? ==>
                && journal == Some(j) && j.targets == [] && j.phase.Quiescing? && StandStill(j.prior, containers, active)
      ensures journal == None ==> containers == old(containers) && active == old(active)
      ensures Counted(o)
    {
      j := Journal(id, Quiescing, [], Prior([], []));
      o := Attempt();
      if o.IsFailure() { return; }
      :- SetReport(InProgress);
      var prior := CaptureDesiredState(names, units);
      j := Journal(id, Quiescing, [], prior);
      :- WriteJournal(j);
      :- SetReport(InProgress);
      :- StopWriters(prior);
      :- Attempt();
    }

    method Execute(id: string, jobs: seq<Job>, names: seq<string>, units: seq<string>, workload: Disk, ghost plan: Plan)
      returns (o: Outcome)
      requires plan == Plan(jobs, workload, disk, Captured(names, units, containers, active))
      requires Targets(TargetsOf(jobs), id)
      requires journal == None && !everCommitted && !everJournaled && report.InProgress?
      modifies this
      ensures Durable(plan) && Truthful(plan) && (everJournaled <==> journal.Some? || everCommitted)
      ensures report.InProgress? || report.Completed?
      ensures o.Done? ==> journal == None && everCommitted && report.Completed?
      ensures journal == None && !everCommitted ==> disk == old(disk) && containers == old(containers) && active == old(active)
      ensures Counted(o)
    {
      var j;
      o, j := Quiesce(id, names, units, plan);
      if o.IsFailure() { return; }
      o, j := Swap(jobs, workload, j, plan);
      if o.IsFailure() { return; }
      o := FinishCommitted(j, plan);
    }

    /** The report with which an exception is answered, by the durable journal. */
    function Answer(journal: Option<Journal>): Report {
      match journal
      case None => Failed
      case Some(j) => if j.phase.Committed? then Completed else RolledBack
    }

    /** The worker's handler of an exception that escaped the transaction. */
    method HandleFailure(ghost plan: Plan) returns (o: Outcome)
      requires Durable(plan) && Truthful(plan) && DistinctPrior(plan.prior)
      requires report.InProgress? || report.Completed?
      modifies this
      ensures Durable(plan) && Truthful(plan) && everCommitted == old(everCommitted)
      ensures o.Done? ==> report == Answer(old(journal))
      ensures everJournaled == old(everJournaled) && (old(journal).Some? && everCommitted ==> journal == old(journal))
      ensures old(journal) == None ==> disk == old(disk) && containers == old(containers) && active == old(active) && journal == None
      ensures report.Failed? ==> old(journal) == None
      ensures report.Failed? && everCommitted ==> AllAdopted(disk, plan.jobs, plan.workload)
      ensures Counted(o)
    {
      match journal
      case None =>
        o := Attempt();
        if o.IsFailure() { return; }
        o := SetReport(Failed);
      case Some(j) =>
        if j.phase.Committed? {
          o := SetReport(Completed);
        } else {
          :- Rollback(j, plan);
          :- Attempt();
          o := SetReport(RolledBack);
        }
    }

    /** An exception at the very end of a committed transaction, answered by the handler: the
        report says "failed" exactly if the journal was already unlinked, whichever later step
        it was that raised, although the commit was durable and every root is the recovered one. */
    method AnswerAfterCommit(unlink: Fate, status: Fate, ghost plan: Plan) returns (o: Outcome)
      requires Durable(plan) && Truthful(plan) && DistinctPrior(plan.prior)
      requires everCommitted && journal.Some? && report.InProgress?
      modifies this
      ensures Durable(plan) && Truthful(plan) && everCommitted && AllAdopted(disk, plan.jobs, plan.workload)
      ensures o.Done? ==> (report.Failed? <==> unlink.Takes() && (unlink.after.Raised? || (unlink.after.Done? && status.Ends().Raised?)))
    {
      o := CloseJournal(unlink, status);
      if o.Raised? {
        o := HandleFailure(plan);
      }
    }

    /** Such a run: the unlink returns, the status write raises, and the handler answers. */
    method FailedAfterCommit(ghost plan: Plan) returns (o: Outcome)
      requires Durable(plan) && Truthful(plan) && DistinctPrior(plan.prior)
      requires everCommitted && journal.Some? && report.InProgress?
      modifies this
      ensures o.Done? ==> report.Failed? && everCommitted && AllAdopted(disk, plan.jobs, plan.workload)
    {
      o := AnswerAfterCommit(Fate(Done, Done), Fate(Raised, Done), plan);
    }

    /** The report of a worker in which so many exceptions were raised: without any it has
        completed; one is answered by what the journal demanded; and a second one, raised by the
        answer itself, means that the rollback failed. */
    ghost function Verdict(exceptions: nat, journal: Option<Journal>, everJournaled: bool, everCommitted: bool): Report {
      if exceptions == 0 then Completed
      else if exceptions > 1 then RollbackFailed
      else if everCommitted then (if journal.Some? then Completed else Failed)
      else if everJournaled then RolledBack
      else Failed
    }

    /** Runs the transaction, and answers any exception with the rollback or the report the
        durable journal calls for. A dead process answers nothing. "Failed" means either that
        nothing was touched or that everything was adopted, and it means the latter exactly if
        the commit was durable. */
    method Worker(id: string, jobs: seq<Job>, names: seq<string>, units: seq<string>, workload: Disk, ghost plan: Plan)
      returns (o: Outcome)
      requires plan == Plan(jobs, workload, disk, Captured(names, units, containers, active))
      requires Targets(TargetsOf(jobs), id) && DistinctPrior(plan.prior)
      requires journal == None && !everCommitted && !everJournaled && report.InProgress?
      modifies this
      ensures Durable(plan) && Truthful(plan)
      ensures o.Done? ==> !report.InProgress? && !report.Idle?
      ensures report.Failed? && !everCommitted ==> disk == old(disk) && containers == old(containers) && active == old(active)
      ensures report.Failed? && everCommitted ==> AllAdopted(disk, jobs, workload)
      ensures trouble >= old(trouble) && (trouble == old(trouble) ==> o.Done? && raised == old(raised))
      ensures o.Done? ==> old(raised) <= raised <= old(raised) + 2
      ensures o.Done? ==> report == Verdict(raised - old(raised), journal, everJournaled, everCommitted)
      ensures o.Raised? ==> raised == old(raised) + 3
    {
      o := Execute(id, jobs, names, units, workload, plan);
      if o.Raised? {
        o := HandleFailure(plan);
        if o.Raised? {
          o := SetReport(RollbackFailed);
        }
      }
    }

    /** Roll back or clean up, and report an exception of either. */
    method RecoverJournal(j: Journal, ghost plan: Plan) returns (o: Outcome)
      requires journal == Some(j) && Durable(plan) && Truthful(plan) && DistinctPrior(plan.prior) && report.InProgress?
      modifies this
      ensures Durable(plan) && Truthful(plan) && everCommitted == old(everCommitted)
      ensures o.Done? ==> journal == None && report == if everCommitted then Completed else RolledBack
      ensures o.Done? ==> raised == old(raised)
      ensures trouble >= old(trouble) && (trouble == old(trouble) ==> o.Done?)
      ensures o.Raised? ==> old(raised) < raised <= old(raised) + 2
      ensures o.Raised? && raised == old(raised) + 1 ==> report.RollbackFailed?
    {
      if j.phase.Committed? {
        o := FinishCommitted(j, plan);
      } else {
        o := Rollback(j, plan);
        if o.Done? { o := Attempt(); }
        if o.Done? { o := SetReport(RolledBack); }
      }
      if o.Raised? {
        var reported := SetReport(RollbackFailed);
        if reported.Crashed? { o := Crashed; }
      }
    }

    /** What a restarted host agent does with a journal it finds. A start that meets no trouble
        finishes; of one that raises, the report says so unless a status write itself raised. */
    method StartupRecover(ghost plan: Plan) returns (o: Outcome)
      requires Durable(plan) && Truthful(plan) && DistinctPrior(plan.prior)
      modifies this
      ensures Durable(plan) && Truthful(plan) && everCommitted == old(everCommitted)
      ensures o.Done? ==> journal == None
      ensures o.Done? && old(journal).Some? ==> report == if everCommitted then Completed else RolledBack
      ensures old(journal) == None ==> disk == old(disk) && report == old(report) && o.Done?
      ensures trouble >= old(trouble) && (trouble == old(trouble) ==> o.Done?)
      ensures o.Done? ==> raised == old(raised)
      ensures o.Raised? ==>
                || (raised == old(raised) + 1 && report.RollbackFailed?)
                || raised == old(raised) + 2
                || (raised == old(raised) + 1 && Untouched() && (report == old(report) || report.InProgress?))
    {
      if journal == None { return Done; }
      var j := journal.value;
      o := SetReport(InProgress);
      if o.IsFailure() { return; }
      o := RecoverJournal(j, plan);
    }

    twostate predicate Untouched()
      reads `disk, `journal, `containers, `active
    {
      disk == old(disk) && journal == old(journal) && containers == old(containers) && active == old(active)
    }

    /** A restarted workload that outlived the host agent keeps writing to the roots that are
        still swapped in. */
    method RestartedWrites(ghost plan: Plan)
      requires Durable(plan) && Truthful(plan)
      modifies `disk
      ensures Durable(plan) && Truthful(plan)
      ensures journal == None || everCommitted ==> disk == old(disk)
      ensures journal.Some? ==> OnlyAt(old(disk), disk, set r | r in journal.value.targets :: r.target)
    {
      if journal == None || journal.value.phase != Activated { return; }
      var j := journal.value;
      for k := 0 to |j.targets|
        invariant Durable(plan) && Truthful(plan)
        invariant OnlyAt(old(disk), disk, set r | r in j.targets :: r.target)
      {
        var writes: bool := *;
        if writes && StillSwapped(disk, j.targets[k]) {
          ghost var before := disk;
          var written: Tree := *;
          disk := disk[j.targets[k].target := written];
          WorkloadFrame(before, disk, j, TargetsOf(plan.jobs), plan.orig, k);
        }
      }
    }

    /** All or nothing. One transaction over any number of roots, then any number of host
        agent starts, each of which may fail or die anywhere: the disk always stays in a
        state the next start can finish, and once a start finishes, either the commit was
        durable and every root is the recovered one, or every root is as it was, absent
        roots included. */
    method RunWithRestarts(id: string, jobs: seq<Job>, names: seq<string>, units: seq<string>, workload: Disk,
                           restarts: nat, ghost plan: Plan) returns (settled: bool)
      requires plan == Plan(jobs, workload, disk, Captured(names, units, containers, active))
      requires Targets(TargetsOf(jobs), id) && DistinctPrior(plan.prior)
      requires journal == None && !everCommitted && !everJournaled && report.InProgress?
      modifies this
      ensures Durable(plan) && Truthful(plan)
      ensures settled ==>
                if everCommitted then forall i :: 0 <= i < |jobs| ==>
                  jobs[i].target in disk && disk[jobs[i].target] == FinalTree(jobs[i], workload)
                else forall i :: 0 <= i < |jobs| ==> SameAt(disk, old(disk), jobs[i].target)
    {
      var o := Worker(id, jobs, names, units, workload, plan);
      settled := journal == None;
      for n := 0 to restarts
        invariant Durable(plan) && Truthful(plan)
        invariant settled ==> journal == None
      {
        RestartedWrites(plan);
        o := StartupRecover(plan);
        settled := o.Done?;
      }
      assert settled && !everCommitted ==> forall i :: 0 <= i < |jobs| ==> SameAt(disk, plan.orig, TargetsOf(jobs)[i]);
    }

    /** A second transaction is refused while a journal is on disk. */
    method Start(ghost plan: Plan) returns (o: Outcome)
      requires Durable(plan)
      modifies `report, `raised, `trouble
      ensures journal.Some? ==> o.Raised? && report == old(report)
      ensures o.Done? ==> journal == None && report.InProgress?
      ensures journal == None ==> Counted(o)
    {
      if journal.Some? { Throw(); return Raised; }
      :- Attempt();
      o := SetReport(InProgress);
    }
  }
}
