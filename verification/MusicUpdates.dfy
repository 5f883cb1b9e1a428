/** Fixed Music Assistant upgrades: a cold snapshot, three durable claims, a rollback that
    may itself be interrupted and run again, and the restart limiter of service recovery. */
module MusicUpdates {
  import opened Durability
  import opened Values

  /** The directories of one job: live data, the cold snapshot, the staged restore, and the
      migrated data that a rollback displaces. */
  datatype Dir = Live | Snapshot | Restore | Displaced

  /** A Compose source with its single explicit image. */
  datatype Compose = Compose(image: string, rest: string)

  datatype Stage = Preparing | Stopping | BackedUp | Applying | Verifying | Restoring
                 | Recovering | Succeeded | RolledBack | Failed | RollbackRequired

  datatype Operation = Upgrade | Recover

  /** `image` is the image the deployment ran before the job. */
  datatype Job = Job(stage: Stage, image: string, stopClaimed: bool, snapshotComplete: bool, deploymentChangeClaimed: bool,
                     operation: Operation := Upgrade)

  /** What the deployment was when the job began. */
  datatype Before = Before(data: Tree, compose: Compose)

  function ReplaceImage(source: Compose, image: string): Compose {
    source.(image := image)
  }

  predicate Terminal(stage: Stage) {
    stage.Succeeded? || stage.RolledBack? || stage.Failed?
  }

  predicate ClaimChain(j: Job) {
    (j.deploymentChangeClaimed ==> j.snapshotComplete) && (j.snapshotComplete ==> j.stopClaimed)
  }

  /** Claims are only ever added. */
  predicate ClaimsWithin(a: Job, b: Job) {
    && (a.stopClaimed ==> b.stopClaimed)
    && (a.snapshotComplete ==> b.snapshotComplete)
    && (a.deploymentChangeClaimed ==> b.deploymentChangeClaimed)
  }

  class MusicUpdates {
    var dirs: map<Dir, Tree>
    var saved: Option<Compose>      // the Compose copy beside the snapshot
    var compose: Compose            // the deployment's Compose file
    var job: Option<Job>            // job.json
    var built: Compose              // what the container was last created from
    var running: bool
    var responds: bool              // the service answers with the version of its image
    var blocked: bool               // the appliance lock is kept after a failed rollback
    ghost var trouble: nat          // steps that raised, or that the process died in

    /** What a job record, durable or held in memory, says about the deployment. */
    ghost predicate Backed(j: Job, b: Before)
      reads `dirs, `saved, `compose, `built
    {
      && j.operation.Upgrade? && ClaimChain(j) && j.image == b.compose.image
      && (j.stage.Preparing? ==> !j.stopClaimed)
      && (j.snapshotComplete ==> Snapshot in dirs && dirs[Snapshot] == b.data && saved == Some(b.compose))
      && (!j.deploymentChangeClaimed ==> Untouched(b) && Displaced !in dirs)
    }

    ghost predicate Untouched(b: Before)
      reads `dirs, `compose, `built
    {
      Live in dirs && dirs[Live] == b.data && compose == b.compose && built == b.compose
    }

    ghost predicate Durable(b: Before)
      reads `dirs, `saved, `compose, `built, `job
    {
      && job.Some? && Backed(job.value, b)
      && (job.value.stage.RolledBack? ==> Untouched(b))
      && (job.value.stage.Failed? ==> Untouched(b) && !job.value.stopClaimed)
      && (job.value.stage.Succeeded? ==> job.value.deploymentChangeClaimed)
    }

    /** The first displaced data directory stays as it is from then on. */
    twostate predicate KeepsDisplaced()
      reads `dirs
    {
      old(Displaced in dirs) ==> Displaced in dirs && dirs[Displaced] == old(dirs[Displaced])
    }

    /** Only the step that stopped a stretch, if any did, has failed in it. */
    twostate predicate Counted(o: Outcome)
      reads `trouble
    {
      trouble == old(trouble) + if o.Done? then 0 else 1
    }

    ghost method Note(o: Outcome)
      modifies `trouble
      ensures Counted(o)
    {
      trouble := trouble + if o.Done? then 0 else 1;
    }

    method Try() returns (o: Outcome)
      modifies `trouble
      ensures Counted(o)
    {
      o := Step();
      Note(o);
    }

    // ------------------------------------------------------ durable actions

    method Save(next: Job) returns (o: Outcome)
      modifies `job, `trouble
      ensures Counted(o)
      ensures o.Done? ==> job == Some(next)
      ensures job == Some(next) || job == old(job)
    {
      o := Try();
      if o.IsFailure() { return; }
      job := Some(next);
      o := Try();
    }

    method WriteCompose(content: Compose) returns (o: Outcome)
      modifies `compose, `trouble
      ensures Counted(o)
      ensures o.Done? ==> compose == content
      ensures compose == content || compose == old(compose)
    {
      o := Try();
      if o.IsFailure() { return; }
      compose := content;
      o := Try();
    }

    method DockerStop() returns (o: Outcome)
      modifies `running, `responds, `trouble
      ensures Counted(o)
      ensures o.Done? ==> !running
    {
      o := Try();
      if o.IsFailure() { return; }
      if * { running, responds := false, false; } else { Note(Raised); return Raised; }
      o := Try();
    }

    method DockerStart() returns (o: Outcome)
      modifies `running, `responds, `trouble
      ensures Counted(o)
      ensures o.Done? ==> running
    {
      o := Try();
      if o.IsFailure() { return; }
      if * { running, responds := true, *; } else { Note(Raised); return Raised; }
      o := Try();
    }

    /** Recreate the container from the Compose file. A release other than the previous one
        migrates the live data to whatever it likes. */
    method ComposeUp(previous: string) returns (o: Outcome)
      modifies `dirs, `built, `running, `responds, `trouble
      ensures Counted(o)
      ensures built == compose || built == old(built)
      ensures o.Done? ==> built == compose && running
      ensures compose.image == previous ==> dirs == old(dirs)
      ensures dirs - {Live} == old(dirs) - {Live}
    {
      o := Try();
      if o.IsFailure() { return; }
      if * { Note(Raised); return Raised; }
      built, running, responds := compose, true, *;
      if built.image != previous && Live in dirs {
        var migrated: Tree := *;
        dirs := dirs[Live := migrated];
      }
      o := Try();
    }

    /** The wanted image is running and answers in time; that it does not answer counts as a
        failing step, and that another image runs does not. */
    method Healthy(image: string) returns (o: Outcome)
      modifies `trouble
      ensures o.Done? ==> running && built.image == image && responds
      ensures if running && built.image == image then Counted(o) else (o.Raised? && trouble == old(trouble)) || Counted(o)
    {
      o := Try();
      if o.IsFailure() { return; }
      if !running || built.image != image { return Raised; }
      if !responds { Note(Raised); return Raised; }
      return Done;
    }

    /** The migrating release keeps writing for as long as it runs. */
    method WorkloadWrites(previous: string)
      modifies `dirs
      ensures dirs - {Live} == old(dirs) - {Live}
      ensures !running || built.image == previous ==> dirs == old(dirs)
    {
      if running && built.image != previous && Live in dirs {
        var migrated: Tree := *;
        dirs := dirs[Live := migrated];
      }
    }

    // -------------------------------------------------------------- upgrade

    /** Stop, snapshot, switch and verify. The job held in memory is returned even when a
        step raises, since the handler works on it. */
    method ColdSnapshot(start: Job, ghost b: Before) returns (o: Outcome, mem: Job)
      requires job == Some(start) && start == Job(Preparing, start.image, false, false, false) && Durable(b)
      modifies `dirs, `saved, `job, `running, `responds, `trouble
      ensures Counted(o) && (mem.stopClaimed || mem.stage.Preparing?) && built == old(built)
      ensures Durable(b) && Backed(mem, b) && ClaimsWithin(job.value, mem) && !Terminal(mem.stage)
      ensures !mem.deploymentChangeClaimed && KeepsDisplaced() && !Terminal(job.value.stage)
      ensures o.Done? ==> job == Some(mem) && mem == Job(BackedUp, start.image, true, true, false) && !running
    {
      mem := start;
      o := Try();
      if o.IsFailure() { return; }
      var partial: Compose := *;
      saved := Some(partial);
      o := Try();
      if o.IsFailure() { return; }
      saved := Some(compose);
      mem := mem.(stage := Stopping, stopClaimed := true);
      o := Save(mem);
      if o.IsFailure() { return; }
      o := DockerStop();
      if o.IsFailure() { return; }
      o, dirs := CopyTree(dirs, dirs[Live], Snapshot);
      Note(o);
      assert SameAt(old(dirs), dirs, Live) && SameAt(old(dirs), dirs, Displaced);
      if o.IsFailure() { return; }
      o := Try();
      if o.IsFailure() { return; }
      mem := mem.(stage := BackedUp, snapshotComplete := true);
      o := Save(mem);
    }

    method Switch(start: Job, newImage: string, ghost b: Before) returns (o: Outcome, mem: Job)
      requires job == Some(start) && start == Job(BackedUp, start.image, true, true, false) && Durable(b) && !running
      modifies `dirs, `compose, `job, `built, `running, `responds, `trouble
      ensures Counted(o) && mem.stopClaimed
      ensures Durable(b) && Backed(mem, b) && ClaimsWithin(job.value, mem)
      ensures Terminal(job.value.stage) ==>
                mem.stage.Succeeded? && job == Some(mem) && compose == ReplaceImage(b.compose, newImage)
      ensures mem.stage.Succeeded? || !Terminal(mem.stage)
      ensures KeepsDisplaced()
      ensures o.Done? ==>
                && job == Some(mem) && mem.stage.Succeeded?
                && running && built.image == newImage && responds && compose == ReplaceImage(b.compose, newImage)
    {
      var source := ReplaceImage(saved.value, newImage);
      mem := start.(stage := Applying, deploymentChangeClaimed := true);
      o := Save(mem);
      if o.IsFailure() { return; }
      o := WriteCompose(source);
      if o.IsFailure() { return; }
      o := ComposeUp(start.image);
      KeptBesideLive(old(dirs), dirs);
      if o.IsFailure() { return; }
      mem := mem.(stage := Verifying);
      o := Save(mem);
      if o.IsFailure() { return; }
      o := Healthy(newImage);
      if o.IsFailure() { return; }
      o := Try();
      if o.IsFailure() { return; }
      mem := mem.(stage := Succeeded);
      o := Save(mem);
    }

    /** The exception handler of the upgrade: roll back, or keep the lock and say so. With no
        failing step the upgrade succeeds; with one, the deployment is as it was before; and only
        a rollback in which a step failed too is left to an administrator. */
    method Execute(start: Job, newImage: string, ghost b: Before) returns (o: Outcome)
      requires job == Some(start) && start == Job(Preparing, start.image, false, false, false) && Durable(b)
      modifies this
      ensures Durable(b) && KeepsDisplaced()
      ensures o.Done? ==> job.value.stage.Succeeded? || job.value.stage.RolledBack? || job.value.stage.Failed?
                          || (blocked && job.value.stage.RollbackRequired?)
      ensures job.value.stage.Succeeded? ==> compose == ReplaceImage(b.compose, newImage)
      ensures trouble == old(trouble) ==>
                && o.Done? && job.value.stage.Succeeded? && blocked == old(blocked)
                && running && built.image == newImage && responds && compose == ReplaceImage(b.compose, newImage)
      ensures o.Done? && trouble == old(trouble) + 1 ==>
                && Untouched(b) && blocked == old(blocked)
                && (if job.value.stopClaimed then job.value.stage.RolledBack? && running && responds else job.value.stage.Failed?)
      ensures o.Done? && trouble > old(trouble) + 1 ==> trouble == old(trouble) + 2 && job.value.stage.RollbackRequired? && blocked
      ensures o.Raised? ==> trouble == old(trouble) + 3 && blocked
    {
      var mem;
      o, mem := ColdSnapshot(start, b);
      if o.Done? {
        o, mem := Switch(mem, newImage, b);
      }
      if o.Raised? { o := Answer(mem, newImage, b); }
    }

    /** Roll back; a rollback that raises keeps the lock and is left to an administrator. */
    method Answer(start: Job, newImage: string, ghost b: Before) returns (o: Outcome)
      requires Durable(b) && Backed(start, b) && ClaimsWithin(job.value, start) && (start.stopClaimed || start.stage.Preparing?)
      requires job.value.stage.Succeeded? ==> compose == ReplaceImage(b.compose, newImage)
      modifies this
      ensures Durable(b) && KeepsDisplaced()
      ensures job.value.stage.Succeeded? ==> compose == ReplaceImage(b.compose, newImage)
      ensures o.Done? ==> if trouble == old(trouble) then
                            && Untouched(b) && blocked == old(blocked)
                            && (if job.value.stopClaimed then job.value.stage.RolledBack? && running && responds else job.value.stage.Failed?)
                          else trouble == old(trouble) + 1 && job.value.stage.RollbackRequired? && blocked
      ensures o.Raised? ==> trouble == old(trouble) + 2 && blocked
      ensures o.Crashed? ==> trouble > old(trouble)
    {
      var mem;
      o, mem := Rollback(start, b);
      if o.Raised? {
        mem := mem.(stage := RollbackRequired);
        blocked := true;
        o := Save(mem);
      }
    }

    /** Put the staged copy in place of the live data. The first data displaced is kept;
        anything displaced by a repeated attempt is a half-restored copy and goes. */
    method SwapData(ghost b: Before) returns (o: Outcome)
      requires Snapshot in dirs && dirs[Snapshot] == b.data && !running
      modifies `dirs, `trouble
      ensures Counted(o)
      ensures Snapshot in dirs && dirs[Snapshot] == b.data
      ensures KeepsDisplaced()
      ensures Displaced !in old(dirs) && Displaced in dirs ==> Live in old(dirs) && dirs[Displaced] == old(dirs)[Live]
      ensures o.Done? ==> Live in dirs && dirs[Live] == b.data
    {
      if Restore in dirs {
        o, dirs := RemovePath(dirs, Restore);
        Note(o);
        assert SameAt(old(dirs), dirs, Snapshot) && SameAt(old(dirs), dirs, Displaced) && SameAt(old(dirs), dirs, Live);
        if o.IsFailure() { return; }
      }
      label Cleared:
      o, dirs := CopyTree(dirs, dirs[Snapshot], Restore);
      Note(o);
      assert SameAt(old@Cleared(dirs), dirs, Snapshot) && SameAt(old@Cleared(dirs), dirs, Displaced)
          && SameAt(old@Cleared(dirs), dirs, Live);
      if o.IsFailure() { return; }
      o := Try();
      if o.IsFailure() { return; }
      if Live in dirs {
        label Moving:
        if Displaced in dirs {
          o, dirs := RemovePath(dirs, Live);
          Note(o);
          assert SameAt(old@Moving(dirs), dirs, Snapshot) && SameAt(old@Moving(dirs), dirs, Displaced)
              && SameAt(old@Moving(dirs), dirs, Restore);
        } else {
          o, dirs := Replace(dirs, Live, Displaced);
          Note(o);
        }
        if o.IsFailure() { return; }
      }
      o, dirs := Replace(dirs, Restore, Live);
      Note(o);
    }

    method RestoreSnapshot(start: Job, ghost b: Before) returns (o: Outcome, mem: Job)
      requires Durable(b) && Backed(start, b) && ClaimsWithin(job.value, start) && start.deploymentChangeClaimed
      modifies `dirs, `job, `compose, `built, `running, `responds, `trouble
      ensures Counted(o)
      ensures Durable(b) && Backed(mem, b) && ClaimsWithin(job.value, mem) && KeepsDisplaced()
      ensures mem == start.(stage := mem.stage) && (mem == start || mem.stage.Restoring?)
      ensures Displaced !in old(dirs) && Displaced in dirs ==> Live in old(dirs) && dirs[Displaced] == old(dirs)[Live]
      ensures job.value.stage.Succeeded? ==> job == old(job) && compose == old(compose) && dirs == old(dirs)
      ensures o.Done? ==> Untouched(b) && running && job == Some(mem)
    {
      mem := start;
      o := Try();
      if o.IsFailure() { return; }
      mem := mem.(stage := Restoring);
      o := Save(mem);
      if o.IsFailure() { return; }
      o := DockerStop();
      if o.IsFailure() { return; }
      o := SwapData(b);
      if o.IsFailure() { return; }
      o := WriteCompose(saved.value);
      if o.IsFailure() { return; }
      o := ComposeUp(mem.image);
    }

    /** Without a failing step it finishes, unless a stop was never claimed and an earlier
        attempt has failed: then it raises, whatever happens. */
    method Rollback(start: Job, ghost b: Before) returns (o: Outcome, mem: Job)
      requires Durable(b) && Backed(start, b) && ClaimsWithin(job.value, start)
      modifies `dirs, `job, `compose, `built, `running, `responds, `trouble
      ensures if start.stopClaimed || start.stage.Preparing? then Counted(o)
              else o.Raised? && trouble == old(trouble) && job == old(job) && dirs == old(dirs) && compose == old(compose)
      ensures mem == start.(stage := mem.stage)
      ensures Durable(b) && Backed(mem, b) && ClaimsWithin(job.value, mem) && KeepsDisplaced()
      ensures Displaced !in old(dirs) && Displaced in dirs ==> Live in old(dirs) && dirs[Displaced] == old(dirs)[Live]
      ensures o.Done? ==> Untouched(b) && job == Some(mem) &&
                          (if start.stopClaimed then mem.stage.RolledBack? && running && responds else mem.stage.Failed?)
      ensures job.value.stage.Succeeded? ==> job == old(job) && compose == old(compose) && dirs == old(dirs)
    {
      mem := start;
      if mem.stage.Preparing? && !mem.stopClaimed {
        mem := mem.(stage := Failed);
        o := Save(mem);
        return;
      }
      if !mem.stopClaimed { o := Raised; return; }
      if !mem.deploymentChangeClaimed {
        o := DockerStart();
        if o.IsFailure() { return; }
      } else {
        o, mem := RestoreSnapshot(mem, b);
        if o.IsFailure() { return; }
      }
      o := Healthy(mem.image);
      if o.IsFailure() { return; }
      mem := mem.(stage := RolledBack);
      o := Save(mem);
    }

    /** What a restarted host agent does with a job it finds: an upgrade is rolled back, and an
        interrupted service recovery is only marked as failed. */
    method StartupRecover(ghost b: Before) returns (o: Outcome)
      requires job.Some? && job.value.operation.Upgrade? ==> Durable(b)
      modifies this
      ensures old(Durable(b)) ==> Durable(b)
      ensures old(job).Some? && !Terminal(old(job).value.stage) && trouble == old(trouble) ==>
                (o.Done? <==> old(job).value.operation.Recover? || old(job).value.stopClaimed || old(job).value.stage.Preparing?)
      ensures blocked == (old(blocked) || (o.Raised? && old(job).Some? && old(job).value.operation.Upgrade?))
      ensures KeepsDisplaced()
      ensures Displaced !in old(dirs) && Displaced in dirs ==> Live in old(dirs) && dirs[Displaced] == old(dirs)[Live]
      ensures o.Done? ==> job == None || Terminal(job.value.stage)
      ensures old(job).None? || Terminal(old(job).value.stage) ==> o.Done? && job == old(job)
      ensures old(job).None? || Terminal(old(job).value.stage) || old(job).value.operation.Recover? ==> Idle()
      ensures old(job).Some? && !Terminal(old(job).value.stage) && old(job).value.operation.Recover? ==>
                && (job == old(job) || job == Some(old(job).value.(stage := Failed)))
                && (o.Done? ==> job.value.stage.Failed?)
      ensures old(job).Some? && old(job).value.operation.Upgrade? && o.Done? ==>
                Terminal(old(job).value.stage) || (job.value.stage == if old(job).value.stopClaimed then RolledBack else Failed)
    {
      if job == None || Terminal(job.value.stage) { return Done; }
      if job.value.operation.Recover? {
        o := Save(job.value.(stage := Failed));
        return;
      }
      var mem;
      o, mem := Rollback(job.value, b);
      if o.Raised? { blocked := true; }
    }

    /** Nothing but the job's own record has changed. */
    twostate predicate Idle()
      reads this
    {
      && dirs == old(dirs) && saved == old(saved) && compose == old(compose)
      && built == old(built) && running == old(running) && responds == old(responds) && blocked == old(blocked)
    }

    /** One upgrade and any number of host agent starts, with the migrating release writing
        whenever it runs. A job that ends rolled back has the data, the Compose file and the
        container it began with. `trail` holds the directories as the upgrade and each start
        left them: `first`, the first data a rollback displaced, was never replaced by any other
        and is still there. */
    method RunWithRestarts(start: Job, newImage: string, restarts: nat, ghost b: Before)
      returns (ghost first: Option<Tree>, ghost trail: seq<map<Dir, Tree>>)
      requires job == Some(start) && start == Job(Preparing, start.image, false, false, false) && Durable(b)
      modifies this
      ensures Durable(b) && ClaimChain(job.value)
      ensures job.value.stage.RolledBack? ==> dirs[Live] == b.data && compose == b.compose && built == b.compose
      ensures job.value.stage.Failed? ==> dirs[Live] == b.data && compose == b.compose && built == b.compose
      ensures first.Some? ==> Displaced in dirs && dirs[Displaced] == first.value
      ensures first == None ==> Displaced !in dirs
      ensures |trail| == restarts + 1 && trail[restarts] == dirs
      ensures forall i :: 0 <= i < |trail| && Displaced in trail[i] ==> first == Some(trail[i][Displaced])
    {
      var o := Execute(start, newImage, b);
      first, trail := if Displaced in dirs then Some(dirs[Displaced]) else None, [dirs];
      for n := 0 to restarts
        invariant Durable(b)
        invariant first.Some? ==> Displaced in dirs && dirs[Displaced] == first.value
        invariant first == None ==> Displaced !in dirs
        invariant |trail| == n + 1 && trail[n] == dirs
        invariant forall i :: 0 <= i < |trail| && Displaced in trail[i] ==> first == Some(trail[i][Displaced])
      {
        label Before:
        WorkloadWrites(job.value.image);
        KeptBesideLive(old@Before(dirs), dirs);
        o := StartupRecover(b);
        if first == None && Displaced in dirs { first := Some(dirs[Displaced]); }
        trail := trail + [dirs];
      }
    }
  }

  lemma KeptBesideLive(a: map<Dir, Tree>, b: map<Dir, Tree>)
    requires b - {Live} == a - {Live}
    ensures SameAt(a, b, Snapshot) && SameAt(a, b, Restore) && SameAt(a, b, Displaced)
  {
    forall d | d != Live
      ensures SameAt(a, b, d)
    {
      assert d in a - {Live} <==> d in a;
      assert d in b - {Live} <==> d in b;
      assert d in a ==> (a - {Live})[d] == a[d];
      assert d in b ==> (b - {Live})[d] == b[d];
    }
  }

  // ------------------------------------------------------- restart limiter

  const DAY := 86400
  const COOLDOWN := 1800

  /** The attempts still inside the sliding day. */
  function Recent(attempts: seq<int>, now: int): seq<int> {
    if attempts == [] then []
    else (if now - attempts[0] < DAY then [attempts[0]] else []) + Recent(attempts[1..], now)
  }

  predicate Refused(recent: seq<int>, now: int) {
    |recent| >= 3 || (recent != [] && now - recent[|recent| - 1] < COOLDOWN)
  }

  predicate Ascending(s: seq<int>) {
    forall i, j :: 0 <= i < j < |s| ==> s[i] <= s[j]
  }

  /** No two restarts within half an hour, no four within a day. */
  predicate Limited(claims: seq<int>) {
    && (forall i, j :: 0 <= i < j < |claims| ==> claims[j] - claims[i] >= COOLDOWN)
    && (forall i, j :: 0 <= i && i + 3 <= j < |claims| ==> claims[j] - claims[i] >= DAY)
  }

  predicate CooledDown(claims: seq<int>, now: int) {
    forall i :: 0 <= i < |claims| ==> now - claims[i] >= COOLDOWN
  }

  /** At most two claims are younger than a day. */
  predicate DayFree(claims: seq<int>, now: int) {
    forall i :: 0 <= i <= |claims| - 3 ==> now - claims[i] >= DAY
  }

  /** The ledger is the tail of all claims ever made; what it dropped is a day old. */
  predicate LedgerOf(ledger: seq<int>, claims: seq<int>, clock: int) {
    && |ledger| <= |claims| && ledger == claims[|claims| - |ledger|..]
    && (forall i :: 0 <= i < |claims| - |ledger| ==> clock - claims[i] >= DAY)
    && Ascending(claims) && (forall i :: 0 <= i < |claims| ==> claims[i] <= clock)
    && Limited(claims)
  }

  /** What `r` leaves out of the attempts, all of it a day old, comes first. */
  predicate TailSince(r: seq<int>, attempts: seq<int>, now: int) {
    && |r| <= |attempts| && r == attempts[|attempts| - |r|..]
    && forall i :: 0 <= i < |attempts| - |r| ==> now - attempts[i] >= DAY
  }

  lemma {:induction false} AllRecent(attempts: seq<int>, now: int)
    requires forall i :: 0 <= i < |attempts| ==> now - attempts[i] < DAY
    ensures Recent(attempts, now) == attempts
  {
    if attempts != [] {
      AllRecent(attempts[1..], now);
      assert [attempts[0]] + attempts[1..] == attempts;
    }
  }

  lemma TailOneEarlier(r: seq<int>, attempts: seq<int>, now: int)
    requires attempts != [] && now - attempts[0] >= DAY && TailSince(r, attempts[1..], now)
    ensures TailSince(r, attempts, now)
  {
    var rest := attempts[1..];
    assert attempts[|attempts| - |r|..] == rest[|rest| - |r|..];
    forall i | 0 <= i < |attempts| - |r|
      ensures now - attempts[i] >= DAY
    {
      if i > 0 { assert attempts[i] == rest[i - 1]; }
    }
  }

  lemma AscendingRest(attempts: seq<int>)
    requires Ascending(attempts) && attempts != []
    ensures Ascending(attempts[1..]) && forall i :: 0 <= i < |attempts| ==> attempts[0] <= attempts[i]
  {
    var rest := attempts[1..];
    forall i, j | 0 <= i < j < |rest|
      ensures rest[i] <= rest[j]
    {
      assert rest[i] == attempts[i + 1] && rest[j] == attempts[j + 1];
    }
  }

  lemma {:induction false} RecentIsTail(attempts: seq<int>, now: int)
    requires Ascending(attempts)
    ensures TailSince(Recent(attempts, now), attempts, now)
  {
    if attempts != [] {
      AscendingRest(attempts);
      if now - attempts[0] < DAY {
        AllRecent(attempts, now);
      } else {
        RecentIsTail(attempts[1..], now);
        assert Recent(attempts, now) == Recent(attempts[1..], now);
        TailOneEarlier(Recent(attempts[1..], now), attempts, now);
      }
    }
  }

  lemma LedgerAscends(ledger: seq<int>, claims: seq<int>, clock: int)
    requires LedgerOf(ledger, claims, clock)
    ensures Ascending(ledger)
  {
    var m := |claims| - |ledger|;
    forall i, j | 0 <= i < j < |ledger|
      ensures ledger[i] <= ledger[j]
    {
      assert ledger[i] == claims[m + i] && ledger[j] == claims[m + j];
    }
  }

  /** A tail of a tail, with what each of them left out. */
  lemma TailOfTail(r: seq<int>, ledger: seq<int>, claims: seq<int>, now: int)
    requires |r| <= |ledger| <= |claims| && r == ledger[|ledger| - |r|..] && ledger == claims[|claims| - |ledger|..]
    requires forall i :: 0 <= i < |ledger| - |r| ==> now - ledger[i] >= DAY
    requires forall i :: 0 <= i < |claims| - |ledger| ==> now - claims[i] >= DAY
    ensures r == claims[|claims| - |r|..]
    ensures forall i :: 0 <= i < |claims| - |r| ==> now - claims[i] >= DAY
  {
    var m := |claims| - |ledger|;
    forall i | m <= i < |claims| - |r|
      ensures now - claims[i] >= DAY
    {
      assert claims[i] == ledger[i - m];
    }
  }

  /** What the filter keeps of the ledger is exactly the last day of all claims. */
  lemma RecentOfClaims(ledger: seq<int>, claims: seq<int>, clock: int, now: int)
    requires LedgerOf(ledger, claims, clock) && clock <= now
    ensures var r := Recent(ledger, now);
            && |r| <= |claims| && r == claims[|claims| - |r|..]
            && (forall i :: 0 <= i < |claims| - |r| ==> now - claims[i] >= DAY)
            && (forall i :: |claims| - |r| <= i < |claims| ==> now - claims[i] < DAY)
  {
    var r := Recent(ledger, now);
    LedgerAscends(ledger, claims, clock);
    RecentIsTail(ledger, now);
    TailOfTail(r, ledger, claims, now);
    TailIsRecent(ledger, claims, now);
  }

  lemma TailIsRecent(ledger: seq<int>, claims: seq<int>, now: int)
    requires var r := Recent(ledger, now); |r| <= |claims| && r == claims[|claims| - |r|..]
    ensures forall i :: |claims| - |Recent(ledger, now)| <= i < |claims| ==> now - claims[i] < DAY
  {
    var r := Recent(ledger, now);
    forall i | |claims| - |r| <= i < |claims|
      ensures now - claims[i] < DAY
    {
      assert claims[i] == r[i - (|claims| - |r|)];
      RecentIsRecent(ledger, now, i - (|claims| - |r|));
    }
  }

  lemma LimitedThen(claims: seq<int>, now: int)
    requires Limited(claims)
    ensures Limited(claims + [now]) <==> CooledDown(claims, now) && DayFree(claims, now)
  {
    var all := claims + [now];
    if Limited(all) {
      forall i | 0 <= i < |claims|
        ensures now - claims[i] >= COOLDOWN
        ensures i <= |claims| - 3 ==> now - claims[i] >= DAY
      {
        assert all[|claims|] - all[i] >= COOLDOWN;
      }
    }
  }

  lemma CooldownByNewest(recent: seq<int>, claims: seq<int>, now: int)
    requires Ascending(claims) && |recent| <= |claims| && recent == claims[|claims| - |recent|..]
    requires forall i :: 0 <= i < |claims| - |recent| ==> now - claims[i] >= DAY
    ensures (recent == [] || now - recent[|recent| - 1] >= COOLDOWN) <==> CooledDown(claims, now)
  {
    if recent != [] {
      var n := |claims|;
      assert recent[|recent| - 1] == claims[n - 1];
      assert forall i :: 0 <= i < n ==> claims[i] <= claims[n - 1];
    }
  }

  lemma DailyByCount(recent: nat, claims: seq<int>, now: int)
    requires recent <= |claims|
    requires forall i :: 0 <= i < |claims| - recent ==> now - claims[i] >= DAY
    requires forall i :: |claims| - recent <= i < |claims| ==> now - claims[i] < DAY
    ensures recent < 3 <==> DayFree(claims, now)
  {
    assert recent >= 3 ==> now - claims[|claims| - 3] < DAY;
  }

  lemma RefusedIffTooSoon(recent: seq<int>, claims: seq<int>, now: int)
    requires Ascending(claims) && |recent| <= |claims| && recent == claims[|claims| - |recent|..]
    requires forall i :: 0 <= i < |claims| - |recent| ==> now - claims[i] >= DAY
    requires forall i :: |claims| - |recent| <= i < |claims| ==> now - claims[i] < DAY
    ensures !Refused(recent, now) <==> CooledDown(claims, now) && DayFree(claims, now)
  {
    CooldownByNewest(recent, claims, now);
    DailyByCount(|recent|, claims, now);
  }

  lemma AdmittedLedger(recent: seq<int>, claims: seq<int>, now: int)
    requires Ascending(claims) && (forall i :: 0 <= i < |claims| ==> claims[i] <= now)
    requires |recent| <= |claims| && recent == claims[|claims| - |recent|..]
    requires forall i :: 0 <= i < |claims| - |recent| ==> now - claims[i] >= DAY
    requires Limited(claims + [now])
    ensures LedgerOf(recent + [now], claims + [now], now)
  {
    var all, next := claims + [now], recent + [now];
    assert next == all[|all| - |next|..];
    assert Ascending(all);
  }

  /** Although old attempts are forgotten, an admitted restart keeps every limit over the
      whole history, and a refused one was really too soon or one too many. */
  lemma AdmissionKeepsLimits(ledger: seq<int>, claims: seq<int>, clock: int, now: int)
    requires LedgerOf(ledger, claims, clock) && clock <= now
    ensures var recent := Recent(ledger, now);
            && (!Refused(recent, now) ==> LedgerOf(recent + [now], claims + [now], now))
            && (Refused(recent, now) <==> !Limited(claims + [now]))
    ensures LedgerOf(ledger, claims, now)
  {
    var recent := Recent(ledger, now);
    RecentOfClaims(ledger, claims, clock, now);
    RefusedIffTooSoon(recent, claims, now);
    LimitedThen(claims, now);
    if !Refused(recent, now) {
      AdmittedLedger(recent, claims, now);
    }
  }

  lemma {:induction false} RecentIsRecent(attempts: seq<int>, now: int, i: nat)
    requires i < |Recent(attempts, now)|
    ensures now - Recent(attempts, now)[i] < DAY
  {
    var rest := Recent(attempts[1..], now);
    if now - attempts[0] < DAY {
      if i > 0 { RecentIsRecent(attempts[1..], now, i - 1); }
    } else {
      RecentIsRecent(attempts[1..], now, i);
    }
  }

  /** Explicit service recovery: claim durably, then dispatch one restart. */
  class ServiceRecovery {
    var ledger: Option<seq<int>>     // recovery.json
    ghost var claims: seq<int>       // every attempt that became durable
    ghost var clock: int
    ghost var trouble: nat           // steps that raised, or that the process died in

    ghost predicate Valid()
      reads this
    {
      LedgerOf(if ledger.Some? then ledger.value else [], claims, clock)
    }

    constructor ()
      ensures Valid() && claims == []
    {
      ledger, claims, trouble := None, [], 0;
    }

    method Try() returns (o: Outcome)
      modifies `trouble
      ensures trouble == old(trouble) + if o.Done? then 0 else 1
    {
      o := Step();
      trouble := trouble + if o.Done? then 0 else 1;
    }

    /** A restart is refused exactly if it would break a limit, and otherwise it is dispatched
        unless a step fails. */
    method Recover(now: int) returns (o: Outcome, dispatched: bool)
      requires Valid() && clock <= now
      modifies this
      ensures Valid() && Limited(claims) && clock == now
      ensures dispatched ==> claims == old(claims) + [now] && ledger.Some? && ledger.value != [] && [now] == ledger.value[|ledger.value| - 1..]
      ensures claims == old(claims) || claims == old(claims) + [now]
      ensures if Limited(old(claims) + [now]) then dispatched == o.Done? == (trouble == old(trouble))
              else o.Raised? && !dispatched && trouble == old(trouble) && claims == old(claims) && ledger == old(ledger)
    {
      dispatched := false;
      var previous := if ledger.Some? then ledger.value else [];
      var attempts := Recent(previous, now);
      AdmissionKeepsLimits(previous, claims, clock, now);
      clock := now;
      if Refused(attempts, now) { o := Raised; return; }
      o := Try();
      if o.IsFailure() { return; }
      ledger := Some(attempts + [now]);
      claims := claims + [now];
      o := Try();
      if o.IsFailure() { return; }
      dispatched := true;
    }
  }
}
