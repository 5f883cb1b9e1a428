/** The resumable upload store. Every `await` of the program ends a stretch; each method
    below is one synchronous stretch, and stretches of different tasks, retirements,
    expiry and process deaths come in any order. */
module ResumableUpload {
  import opened Durability
  import opened UploadModel
  import opened Values

  function WithReceipt(m: Meta, r: Receipt): Meta { m.(completion := Some(r)) }

  /** A retirement may overtake any suspended task of the session: what the task holds in
      memory then trails the file by exactly the retirement. */
  lemma RetirementOvertakes(w: Work, s: Session, m: Meta, accepted: Parts, sha: Bytes -> string)
    requires SessionOk(s, accepted, sha) && WorkOk(w, s.meta, accepted) && HasDigest(s.meta)
    requires Deleted(m) && m == s.meta.(completion := Some(s.meta.completion.value.(deleted := true,
                                                                                  reclaimed := m.completion.value.reclaimed)))
    ensures WorkOk(w, m, accepted)
  {
  }

  /** The next part of a complete session is there, unless the session was retired. */
  lemma PartToRead(w: Work, s: Session, accepted: Parts, sha: Bytes -> string)
    requires SessionOk(s, accepted, sha) && w.Reading? && WorkOk(w, s.meta, accepted) && w.next < w.stale.totalChunks
    ensures w.next in s.parts ==> WorkOk(w.(next := w.next + 1, out := w.out + s.parts[w.next]), s.meta, accepted)
    ensures w.next !in s.parts ==> Deleted(s.meta)
  {
    assert w.next in s.meta.received;
    assert w.next in s.parts ==> s.parts[w.next] == accepted[w.next];
  }

  /** A retirement's step: it marks the session, drops parts and marks them reclaimed. */
  predicate Retires(s: Session, next: Session) {
    && HasDigest(s.meta) && Deleted(next.meta) && next.parts.Keys <= s.parts.Keys
    && (forall i :: i in next.parts ==> next.parts[i] == s.parts[i])
    && (Reclaimed(s.meta) ==> Reclaimed(next.meta)) && (Reclaimed(next.meta) ==> next.parts == map[])
    && next.meta == s.meta.(completion := Some(s.meta.completion.value.(deleted := true,
                                                                        reclaimed := next.meta.completion.value.reclaimed)))
  }

  lemma RetiresKeeps(s: Session, next: Session, accepted: Parts, sha: Bytes -> string)
    requires SessionOk(s, accepted, sha) && Retires(s, next)
    ensures SessionOk(next, accepted, sha)
    ensures forall owner :: Held(Some(next), owner) <= Held(Some(s), owner)
  {
  }

  /** The owner asks for an existing chunk, announcing its exact length and a digest. */
  predicate AskedRight(s: Option<Session>, r: Request)
    requires r.Put?
  {
    && s.Some? && s.value.meta.owner == r.owner && 0 <= r.index < s.value.meta.totalChunks
    && r.contentLength == Expected(s.value.meta, r.index) <= ABSOLUTE_CHUNK_BYTES && r.digest.Some?
  }

  /** A session whose parts below an index have been dropped. */
  function From(s: Session, i: nat): Session {
    s.(parts := map k | k in s.parts && k >= i :: s.parts[k])
  }

  /** Dropping one more part is a step of a retirement, and of a receipt. */
  lemma PartGoes(s: Session, i: nat)
    requires HasDigest(s.meta) && !Reclaimed(s.meta)
    ensures From(s, i).meta == s.meta
    ensures Deleted(s.meta) ==> Retires(From(s, i), From(s, i + 1))
    ensures Registered(s.meta) ==> ReceiptStep(From(s, i), From(s, i + 1))
  {
  }

  /** So is dropping several, and none is left in the end. */
  lemma PartsGone(s: Session, i: nat)
    requires HasDigest(s.meta) && !Reclaimed(s.meta) && (forall k :: k in s.parts ==> k < s.meta.totalChunks)
    ensures i == 0 ==> From(s, i) == s
    ensures i >= s.meta.totalChunks ==> From(s, i) == Session(s.meta, map[])
    ensures Deleted(s.meta) ==> Retires(s, From(s, i))
    ensures Registered(s.meta) ==> ReceiptStep(s, From(s, i))
  {
    assert i == 0 ==> From(s, i).parts == s.parts;
    assert i >= s.meta.totalChunks ==> From(s, i).parts == map[];
  }

  /** Its owner asks to assemble a session that was not retired, announcing a digest. */
  predicate AssembleAsked(s: Option<Session>, r: Request)
    requires r.Assemble?
  {
    s.Some? && s.value.meta.owner == r.owner && r.digest.Some? && !Deleted(s.value.meta)
  }

  /** The first assemble of a session leaves a receipt for its destination. */
  function WithDestination(s: Session, destination: string): Session {
    if s.meta.completion.Some? then s
    else s.(meta := WithReceipt(s.meta, Receipt(destination, None, false, false, false)))
  }

  /** Registered and reclaimed. */
  function Finished(m: Meta): Meta
    requires m.completion.Some?
  {
    WithReceipt(m, m.completion.value.(registered := true, reclaimed := true))
  }

  /** Deleted and reclaimed. */
  function Gone(m: Meta): Meta
    requires m.completion.Some?
  {
    WithReceipt(m, m.completion.value.(deleted := true, reclaimed := true))
  }

  /** The identity under which the library knows the file of an upload. */
  predicate Known(m: Meta, storedName: string, digest: string) {
    m.completion.Some? && m.completion.value.storedName == storedName && m.completion.value.digest == Some(digest)
  }

  // ------------------------------------------------------------------ history

  datatype Event = Accept(id: Id, request: Request)
                 | Begin(t: nat)
                 | Streamed(t: nat, bytes: Bytes)
                 | Resumed(t: nat, answer: Option<bool>)
                 | Finally(t: nat)
                 | Retiring(id: Id, storedName: string, digest: string)
                 | Creating(owner: string, size: int, enoughFree: bool, expired: set<Id>)
                 | Expiring(expired: set<Id>)
                 | Dying

  /** An event, the task it took hold of as it stood before, and whether a step failed in it. */
  datatype Moment = Moment(event: Event, task: Option<Task>, trouble: bool)

  /** The task that an event names and may move. */
  function Subject(e: Event): Option<nat> {
    match e
    case Begin(t) => Some(t)
    case Streamed(t, _) => Some(t)
    case Resumed(t, _) => Some(t)
    case _ => None
  }

  /** The task that an event takes hold of: the one it names, if it waits for just this. */
  function Taken(e: Event, tasks: seq<Task>): Option<Task> {
    var t := Subject(e);
    if t.None? || t.value >= |tasks| then None
    else
      var task := tasks[t.value];
      match e
      case Begin(_) => if task.work.Waiting? && MayAct(tasks, t.value) then Some(task) else None
      case Streamed(_, _) => if task.work.Putting? then Some(task) else None
      case _ => if Running(task) && !task.work.Putting? then Some(task) else None
  }

  predicate RegisteredAt(sessions: seq<Option<Session>>, id: Id) {
    id < |sessions| && sessions[id].Some? && Registered(sessions[id].value.meta)
  }

  /** The library accepted the file of a session, or said that it holds it. */
  predicate Vouches(m: Moment, id: Id) {
    && m.event.Resumed? && m.event.answer == Some(true)
    && m.task.Some? && m.task.value.session == id && (m.task.value.work.Registering? || m.task.value.work.Replaying?)
  }

  /** Why the file of a task may be withdrawn: a step failed past publication, the library did
      not accept the file, or the session was retired. */
  predicate Blames(m: Moment, task: Task, retired: map<Id, Retirement>)
    requires task.work.Discarding?
  {
    && m.event.Resumed? && m.task.Some? && m.task.value.session == task.session
    && var w := m.task.value.work;
       || (w.Reading? && m.trouble && w.stale.completion.Some? && w.stale.completion.value.storedName == task.work.name)
       || (w.Registering? && w.stale.completion.Some? && w.stale.completion.value.storedName == task.work.name
           && (m.event.answer != Some(true) || m.trouble || task.session in retired))
  }

  /** A file is withdrawn by the task that holds its name, unless the library committed it. */
  predicate Withdraws(m: Moment, name: string) {
    && m.event.Resumed? && m.event.answer != Some(true)
    && m.task.Some? && m.task.value.work == Discarding(name)
  }

  /** All chunks were read, the output has the size and the digest announced for it, and its
      form was inspected. */
  predicate Publishes(m: Moment, name: string, bytes: Bytes, sha: Bytes -> string) {
    && m.event.Resumed? && m.event.answer == Some(true) && m.task.Some?
    && var w := m.task.value.work;
       && w.Reading? && w.next == w.stale.totalChunks && w.out == bytes
       && |bytes| == w.stale.size && sha(bytes) == w.digest
       && w.stale.completion.Some? && w.stale.completion.value.storedName == name
  }

  /** The latest event that took hold of a task of this number. */
  function Latest(trace: seq<Moment>, t: nat): Option<Moment> {
    if trace == [] then None
    else
      var m := trace[|trace| - 1];
      if m.task.Some? && Subject(m.event) == Some(t) then Some(m) else Latest(trace[..|trace| - 1], t)
  }

  predicate Excused(task: Task, t: nat, trace: seq<Moment>, retired: map<Id, Retirement>) {
    task.work.Discarding? ==>
      var m := Latest(trace, t);
      m.Some? && Blames(m.value, task, retired)
  }

  /** Only the task that the event took hold of moves, and move it does. */
  ghost predicate TasksBy(m: Moment, before: seq<Task>, tasks: seq<Task>, retired: map<Id, Retirement>) {
    && (forall u :: 0 <= u < |tasks| && !(m.task.Some? && Subject(m.event) == Some(u)) && !tasks[u].work.Waiting? ==>
          u < |before| && tasks[u] == before[u])
    && (m.task.Some? && tasks != [] ==>
          && Subject(m.event).Some?
          && var t := Subject(m.event).value;
             && t < |tasks| && tasks[t].session == m.task.value.session && tasks[t].work != m.task.value.work
             && (tasks[t].work.Discarding? ==> Blames(m, tasks[t], retired)))
  }

  /** A session becomes registered only by an answer for it. */
  ghost predicate SessionsBy(m: Moment, before: seq<Option<Session>>, sessions: seq<Option<Session>>) {
    forall id: Id :: RegisteredAt(sessions, id) && !RegisteredAt(before, id) ==> Vouches(m, id)
  }

  /** A file goes by its withdrawal, and appears or changes by its publication. */
  ghost predicate FilesBy(m: Moment, before: map<string, Bytes>, files: map<string, Bytes>, sha: Bytes -> string) {
    && (forall name :: name in before && name !in files ==> Withdraws(m, name))
    && (forall name :: name in files && (name !in before || files[name] != before[name]) ==>
          Publishes(m, name, files[name], sha))
  }

  /** Every registered session has had an answer for it, and every file up for withdrawal an
      event that failed or refused it. */
  ghost predicate AccountedBy(sessions: seq<Option<Session>>, tasks: seq<Task>, trace: seq<Moment>,
                              retired: map<Id, Retirement>) {
    && (forall id: Id :: RegisteredAt(sessions, id) ==> exists k :: 0 <= k < |trace| && Vouches(trace[k], id))
    && (forall t :: 0 <= t < |tasks| ==> Excused(tasks[t], t, trace, retired))
  }

  /** What a whole run did, from the state it began in: the same, each with the event of the
      run that explains it, and each withdrawal with what excuses it. */
  ghost predicate Explains(trace: seq<Moment>, n: nat, sessions: seq<Option<Session>>, files: map<string, Bytes>,
                           later: seq<Option<Session>>, filesLater: map<string, Bytes>,
                           retired: map<Id, Retirement>, sha: Bytes -> string) {
    && (forall id: Id :: RegisteredAt(later, id) && !RegisteredAt(sessions, id) ==>
          exists k :: n <= k < |trace| && Vouches(trace[k], id))
    && (forall name :: name in files && name !in filesLater ==>
          exists k :: n <= k < |trace| && Withdraws(trace[k], name))
    && (forall name :: name in filesLater && (name !in files || filesLater[name] != files[name]) ==>
          exists k :: n <= k < |trace| && Publishes(trace[k], name, filesLater[name], sha))
    && (forall k :: n <= k < |trace| ==> WithdrawalExcused(trace, k, retired))
  }

  ghost predicate WithdrawalExcused(trace: seq<Moment>, k: nat, retired: map<Id, Retirement>)
    requires k < |trace|
  {
    trace[k].task.Some? && Subject(trace[k].event).Some? ==>
      Excused(trace[k].task.value, Subject(trace[k].event).value, trace[..k], retired)
  }

  lemma ExplainsMore(trace: seq<Moment>, n: nat, sessions0: seq<Option<Session>>, files0: map<string, Bytes>,
                     sessions1: seq<Option<Session>>, files1: map<string, Bytes>, retired1: map<Id, Retirement>,
                     sessions2: seq<Option<Session>>, files2: map<string, Bytes>, retired2: map<Id, Retirement>,
                     m: Moment, sha: Bytes -> string)
    requires n <= |trace| && Explains(trace, n, sessions0, files0, sessions1, files1, retired1, sha)
    requires SessionsBy(m, sessions1, sessions2) && FilesBy(m, files1, files2, sha)
    requires forall r :: r in retired1 ==> r in retired2
    requires m.task.Some? && Subject(m.event).Some? ==> Excused(m.task.value, Subject(m.event).value, trace, retired2)
    ensures Explains(trace + [m], n, sessions0, files0, sessions2, files2, retired2, sha)
  {
    var next := trace + [m];
    assert next[|trace|] == m && next[..|trace|] == trace;
    forall id: Id | RegisteredAt(sessions2, id) && !RegisteredAt(sessions0, id)
      ensures exists k :: n <= k < |next| && Vouches(next[k], id)
    {
      if RegisteredAt(sessions1, id) {
        var k :| n <= k < |trace| && Vouches(trace[k], id);
        assert Vouches(next[k], id);
      } else {
        assert Vouches(next[|trace|], id);
      }
    }
    forall name | name in files0 && name !in files2
      ensures exists k :: n <= k < |next| && Withdraws(next[k], name)
    {
      if name !in files1 {
        var k :| n <= k < |trace| && Withdraws(trace[k], name);
        assert Withdraws(next[k], name);
      } else {
        assert Withdraws(next[|trace|], name);
      }
    }
    forall name | name in files2 && (name !in files0 || files2[name] != files0[name])
      ensures exists k :: n <= k < |next| && Publishes(next[k], name, files2[name], sha)
    {
      if name in files1 && files1[name] == files2[name] {
        var k :| n <= k < |trace| && Publishes(trace[k], name, files1[name], sha);
        assert Publishes(next[k], name, files2[name], sha);
      } else {
        assert Publishes(next[|trace|], name, files2[name], sha);
      }
    }
    forall k | n <= k < |next|
      ensures WithdrawalExcused(next, k, retired2)
    {
      if k < |trace| {
        assert WithdrawalExcused(trace, k, retired1);
        assert next[..k] == trace[..k];
      }
    }
  }

  class ResumableUploadStore {
    const maxFileBytes: nat
    const chunkBytes: nat
    const maxOwnerBytes: nat
    const sha: Bytes -> string

    var sessions: seq<Option<Session>>     // upload directories by number; None once removed
    var files: map<string, Bytes>          // the destination root
    var tasks: seq<Task>                   // accepted in this process
    var locks: map<Id, nat>                // tail of each session's promise chain

    ghost var accepted: seq<Parts>
    ghost var retired: map<Id, Retirement>
    ghost var publishes: seq<Id>
    ghost var trouble: nat                 // steps that raised, or that the process died in
    ghost var trace: seq<Moment>           // every event so far, and what it found

    ghost function Snapshot(): State
      reads `sessions, `accepted, `tasks, `locks, `retired, `publishes
    {
      State(sessions, accepted, tasks, locks, retired, publishes)
    }

    ghost predicate Valid()
      reads `sessions, `accepted, `tasks, `locks, `retired, `publishes
    {
      chunkBytes > 0 && ValidState(Snapshot(), sha, maxOwnerBytes)
    }

    /** What the invariant says of a task. */
    lemma TaskKnown(t: nat)
      requires Valid() && t < |tasks|
      ensures |accepted| == |sessions| && TaskOk(tasks[t], sessions, accepted)
      ensures Running(tasks[t]) ==>
                var id := tasks[t].session;
                && SessionOk(sessions[id].value, accepted[id], sha) && MarkKnown(sessions[id], id, retired)
                && (id in retired ==> StaysRetired(sessions[id], id, retired[id], publishes))
    {
      ValidIff(Snapshot(), sha, maxOwnerBytes);
    }

    lemma PartsKnown(id: Id)
      requires Valid() && Exists(id)
      ensures forall i :: i in sessions[id].value.parts ==> i < sessions[id].value.meta.totalChunks
    {
      SessionKnown(id);
    }

    /** What the invariant says of the tasks together. */
    lemma TasksKnown()
      requires Valid()
      ensures |accepted| == |sessions| && ChainOk(tasks, locks)
      ensures forall t :: 0 <= t < |tasks| ==> TaskOk(tasks[t], sessions, accepted)
    {
      ValidIff(Snapshot(), sha, maxOwnerBytes);
    }

    lemma QuotaKnown()
      requires Valid()
      ensures forall owner :: OwnerStored(sessions, owner) <= OwnerBytes(sessions, owner) <= maxOwnerBytes
    {
      ValidIff(Snapshot(), sha, maxOwnerBytes);
      forall owner
        ensures OwnerStored(sessions, owner) <= OwnerBytes(sessions, owner)
      {
        OwnerStoredBound(sessions, accepted, sha, owner);
      }
    }

    /** What the invariant says of a session. */
    lemma SessionKnown(id: Id)
      requires Valid() && id < |sessions|
      ensures |accepted| == |sessions| && MarkKnown(sessions[id], id, retired)
      ensures sessions[id].Some? ==> SessionOk(sessions[id].value, accepted[id], sha)
      ensures id in retired ==> StaysRetired(sessions[id], id, retired[id], publishes)
    {
      ValidIff(Snapshot(), sha, maxOwnerBytes);
    }

    constructor (maxFileBytes: nat, chunkBytes: nat, maxOwnerBytes: nat, sha: Bytes -> string)
      requires chunkBytes > 0
      ensures Valid() && Accounted() && sessions == [] && files == map[] && retired == map[]
    {
      this.maxFileBytes, this.maxOwnerBytes, this.sha := maxFileBytes, maxOwnerBytes, sha;
      this.chunkBytes := if chunkBytes < ABSOLUTE_CHUNK_BYTES then chunkBytes else ABSOLUTE_CHUNK_BYTES;
      sessions, files, tasks, locks := [], map[], [], map[];
      accepted, retired, publishes, trouble, trace := [], map[], [], 0, [];
    }

    // ---------------------------------------------------------------- locking

    method Locked(id: Id, request: Request) returns (t: nat)
      requires Valid()
      modifies `tasks, `locks
      ensures Valid() && t == |old(tasks)| && |tasks| == t + 1 && tasks[..t] == old(tasks)
      ensures tasks[t] == Task(id, if id in old(locks) then Some(old(locks)[id]) else None, Waiting(request))
      ensures locks == old(locks)[id := t]
    {
      t := |tasks|;
      AcceptStep(Snapshot(), id, request, sha, maxOwnerBytes);
      tasks := tasks + [Task(id, if id in locks then Some(locks[id]) else None, Waiting(request))];
      locks := locks[id := t];
    }

    /** The `finally` of a settled task. */
    method Release(t: nat)
      requires Valid() && t < |tasks| && tasks[t].work.Settled?
      modifies `locks
      ensures Valid()
      ensures var id := tasks[t].session;
              locks == if id in old(locks) && old(locks)[id] == t then old(locks) - {id} else old(locks)
    {
      var id := tasks[t].session;
      if id in locks && locks[id] == t {
        ReleaseStep(Snapshot(), t, sha, maxOwnerBytes);
        locks := locks - {id};
      }
    }

    /** The process dies: what was in memory is gone. */
    method Restart()
      requires Valid()
      modifies `tasks, `locks
      ensures Valid() && tasks == [] && locks == map[]
    {
      RestartStep(Snapshot(), sha, maxOwnerBytes);
      tasks, locks := [], map[];
    }

    /** Task t moves on, and its session with it. */
    method Proceed(t: nat, s: Option<Session>, ghost acc: Parts, work: Work)
      requires Valid() && t < |tasks| && MayAct(tasks, t) && !work.Waiting?
      requires var id := tasks[t].session;
               && id < |sessions|
               && (s.Some? ==> SessionOk(s.value, acc, sha))
               && (forall owner :: Held(s, owner) <= Held(sessions[id], owner))
               && (id in retired ==> StaysRetired(s, id, retired[id], publishes)) && MarkKnown(s, id, retired)
               && (Running(Task(id, None, work)) ==> s.Some? && WorkOk(work, s.value.meta, acc))
      modifies `sessions, `accepted, `tasks
      ensures Valid()
      ensures sessions == old(sessions)[old(tasks)[t].session := s]
      ensures accepted == old(accepted)[old(tasks)[t].session := acc]
      ensures tasks == old(tasks)[t := old(tasks)[t].(work := work)]
    {
      TaskStep(Snapshot(), t, s, acc, work, sha, maxOwnerBytes);
      var id := tasks[t].session;
      sessions := sessions[id := s];
      accepted := accepted[id := acc];
      tasks := tasks[t := tasks[t].(work := work)];
    }

    /** Task t moves on without touching its session. */
    method MoveTo(t: nat, work: Work)
      requires Valid() && t < |tasks| && MayAct(tasks, t) && !work.Waiting?
      requires var id := tasks[t].session;
               Running(Task(id, None, work)) ==> Exists(id) && WorkOk(work, sessions[id].value.meta, accepted[id])
      modifies `tasks
      ensures Valid() && tasks == old(tasks)[t := old(tasks)[t].(work := work)]
    {
      MoveStep(Snapshot(), t, work, sha, maxOwnerBytes);
      tasks := tasks[t := tasks[t].(work := work)];
    }

    method Settle(t: nat, ok: bool)
      requires Valid() && t < |tasks| && MayAct(tasks, t)
      modifies `tasks
      ensures Valid() && tasks == old(tasks)[t := old(tasks)[t].(work := Settled(ok))]
    {
      MoveTo(t, Settled(ok));
    }

    /** Task t stands at the given work, and no step has failed on the way. */
    twostate predicate MovesTo(t: nat, work: Work)
      reads `tasks, `locks, `trouble
    {
      && t < |old(tasks)| && tasks == old(tasks)[t := old(tasks)[t].(work := work)]
      && locks == old(locks) && trouble == old(trouble)
    }

    /** A step of task t did not return: the task failed over, or the process is dead. */
    twostate predicate Fell(o: Outcome, t: nat, failed: Work)
      reads `tasks, `locks, `trouble
    {
      && !o.Done? && trouble == old(trouble) + 1
      && (o.Raised? ==> t < |old(tasks)| && tasks == old(tasks)[t := old(tasks)[t].(work := failed)] && locks == old(locks))
      && (o.Crashed? ==> tasks == [] && locks == map[])
    }

    /** A fallible operation inside task t: the process may die, or t may fail over. */
    method Attempt(t: nat, failed: Work) returns (o: Outcome)
      requires Valid() && t < |tasks| && Running(tasks[t]) && (failed.Discarding? || failed.Settled?)
      modifies `tasks, `locks, `trouble
      ensures Valid()
      ensures if o.Done? then tasks == old(tasks) && locks == old(locks) && trouble == old(trouble) else Fell(o, t, failed)
    {
      TaskKnown(t);
      o := Step();
      if o.Crashed? {
        Restart();
      } else if o.Raised? {
        MoveTo(t, failed);
      }
      if !o.Done? { trouble := trouble + 1; }
    }

    predicate Exists(id: Id)
      reads `sessions
    {
      id < |sessions| && sessions[id].Some?
    }

    // ----------------------------------------------------------------- chunks

    /** Up to the first await of a chunk upload: a chunk asked for as it must be is taken, unless
        it was recorded before, which succeeds only for the same content. All else is refused. */
    method StartPut(t: nat)
      requires Valid() && t < |tasks| && MayAct(tasks, t) && tasks[t].work.Waiting? && tasks[t].work.request.Put?
      modifies `sessions, `accepted, `tasks
      ensures Valid() && sessions == old(sessions) && accepted == old(accepted)
      ensures |tasks| == |old(tasks)| && tasks == old(tasks)[t := old(tasks)[t].(work := tasks[t].work)]
      ensures var id, request := tasks[t].session, old(tasks)[t].work.request;
              if id < |sessions| && AskedRight(sessions[id], request) then
                var meta, digest := sessions[id].value.meta, request.digest.value;
                if request.index in meta.received then
                  tasks[t].work == Settled(meta.received[request.index].digest == digest)
                else tasks[t].work == Putting(meta, request.index, digest)
              else tasks[t].work == Settled(false)
    {
      var id, request := tasks[t].session, tasks[t].work.request;
      if !Exists(id) || sessions[id].value.meta.owner != request.owner { Settle(t, false); return; }
      var meta, index := sessions[id].value.meta, request.index;
      if index < 0 || index >= meta.totalChunks { Settle(t, false); return; }
      var expected := Expected(meta, index);
      if request.contentLength != expected || request.contentLength > ABSOLUTE_CHUNK_BYTES || request.digest == None {
        Settle(t, false);
        return;
      }
      if index in meta.received {
        SessionKnown(id);
        Settle(t, meta.received[index].digest == request.digest.value && meta.received[index].size == expected);
        return;
      }
      MoveTo(t, Putting(meta, index, request.digest.value));
    }

    /** The verified part is renamed into place; nothing counts it yet. */
    method StorePart(t: nat, bytes: Bytes)
      requires Valid() && t < |tasks| && tasks[t].work.Putting?
      requires |bytes| == Expected(tasks[t].work.stale, tasks[t].work.index)
      modifies `sessions, `accepted, `tasks
      ensures Valid() && tasks == old(tasks) && accepted == old(accepted) && t < |tasks| && Exists(tasks[t].session)
      ensures var id, w := tasks[t].session, tasks[t].work;
              && id < |old(sessions)| && old(sessions)[id].Some?
              && sessions == old(sessions)[id := Some(old(sessions)[id].value.(
                                                        parts := WithPart(old(sessions)[id].value.parts, w.index, bytes)))]
    {
      var id, w := tasks[t].session, tasks[t].work;
      TaskKnown(t);
      var s := sessions[id].value;
      PartStored(s, accepted[id], sha, w.index, bytes);
      Proceed(t, Some(s.(parts := WithPart(s.parts, w.index, bytes))), accepted[id], w);
      assert tasks == old(tasks);
      assert accepted == old(accepted);
    }

    /** The stored part is recorded in session.json. */
    method RecordPart(t: nat, bytes: Bytes)
      requires Valid() && t < |tasks| && tasks[t].work.Putting?
      requires |bytes| == Expected(tasks[t].work.stale, tasks[t].work.index) && sha(bytes) == tasks[t].work.digest
      requires Exists(tasks[t].session)
      requires tasks[t].work.index in sessions[tasks[t].session].value.parts
      requires sessions[tasks[t].session].value.parts[tasks[t].work.index] == bytes
      modifies `sessions, `accepted, `tasks
      ensures Valid() && |sessions| == |old(sessions)| && |accepted| == |old(accepted)|
      ensures var id, w := old(tasks)[t].session, old(tasks)[t].work;
              && id < |old(sessions)| && old(sessions)[id].Some? && id < |accepted|
              && sessions == old(sessions)[id := Some(old(sessions)[id].value.(meta := Recorded(w.stale, w.index, |bytes|, w.digest)))]
              && w.index !in old(accepted)[id]
              && accepted == old(accepted)[id := WithPart(old(accepted)[id], w.index, bytes)]
              && tasks == old(tasks)[t := old(tasks)[t].(work := Settled(true))]
    {
      var id, w := tasks[t].session, tasks[t].work;
      TaskKnown(t);
      var s := sessions[id].value;
      PartRecorded(s, accepted[id], sha, w.index, bytes, w.digest);
      Proceed(t, Some(s.(meta := Recorded(w.stale, w.index, |bytes|, w.digest))), WithPart(accepted[id], w.index, bytes), Settled(true));
    }

    /** How a verified part ends: recorded and accepted, or with a failure before or after its
        rename, of which only the part file may remain. */
    twostate predicate PutEnds(o: Outcome, t: nat, bytes: Bytes)
      requires t < |old(tasks)| && old(tasks)[t].work.Putting?
      reads `sessions, `accepted, `tasks, `locks, `trouble
    {
      var id, w := old(tasks)[t].session, old(tasks)[t].work;
      && id < |old(sessions)| && old(sessions)[id].Some? && id < |old(accepted)| && w.index !in old(accepted)[id]
      && var s := old(sessions)[id].value;
         if o.Done? then
           && MovesTo(t, Settled(true))
           && accepted == old(accepted)[id := WithPart(old(accepted)[id], w.index, bytes)]
           && sessions == old(sessions)[id := Some(Session(Recorded(w.stale, w.index, |bytes|, w.digest),
                                                           WithPart(s.parts, w.index, bytes)))]
         else
           && Fell(o, t, Settled(false)) && accepted == old(accepted)
           && (sessions == old(sessions)
               || sessions == old(sessions)[id := Some(s.(parts := WithPart(s.parts, w.index, bytes)))])
    }

    /** The stream has ended with some bytes: verify, rename the part, record it. A death
        between the rename and the record leaves a part nobody counts. */
    method FinishPut(t: nat, bytes: Bytes) returns (o: Outcome)
      requires Valid() && t < |tasks| && tasks[t].work.Putting?
      modifies `sessions, `accepted, `tasks, `locks, `trouble
      ensures Valid()
      ensures var w := old(tasks)[t].work;
              if |bytes| != Expected(w.stale, w.index) || sha(bytes) != w.digest then
                o.Raised? && MovesTo(t, Settled(false)) && sessions == old(sessions) && accepted == old(accepted)
              else PutEnds(o, t, bytes)
    {
      var id, w := tasks[t].session, tasks[t].work;
      TaskKnown(t);
      if |bytes| != Expected(w.stale, w.index) || sha(bytes) != w.digest {
        Settle(t, false);
        return Raised;
      }
      o := KeepPart(t, bytes);
    }

    /** Rename the verified part into place, and record it. */
    method KeepPart(t: nat, bytes: Bytes) returns (o: Outcome)
      requires Valid() && t < |tasks| && tasks[t].work.Putting?
      requires |bytes| == Expected(tasks[t].work.stale, tasks[t].work.index) && sha(bytes) == tasks[t].work.digest
      modifies `sessions, `accepted, `tasks, `locks, `trouble
      ensures Valid()
      ensures PutEnds(o, t, bytes)
    {
      TaskKnown(t);
      o := Attempt(t, Settled(false));
      if !o.Done? { return; }
      StorePart(t, bytes);
      o := Attempt(t, Settled(false));
      if !o.Done? { return; }
      RecordPart(t, bytes);
    }

    // -------------------------------------------------------------- assembly

    /** Read the record, create or check the receipt, and go as far as the first await. */
    method StartAssemble(t: nat)
      requires Valid() && t < |tasks| && MayAct(tasks, t) && tasks[t].work.Waiting? && tasks[t].work.request.Assemble?
      modifies `sessions, `accepted, `tasks
      ensures Valid() && accepted == old(accepted) && |tasks| == |old(tasks)|
      ensures tasks == old(tasks)[t := old(tasks)[t].(work := tasks[t].work)]
      ensures var id, request := tasks[t].session, old(tasks)[t].work.request;
              if id < |old(sessions)| && AssembleAsked(old(sessions)[id], request) then
                var s, digest := WithDestination(old(sessions)[id].value, request.destination), request.digest.value;
                && sessions == old(sessions)[id := Some(s)]
                && tasks[t].work == FirstWork(s.meta, digest)
              else sessions == old(sessions) && tasks[t].work == Settled(false)
    {
      var id, request := tasks[t].session, tasks[t].work.request;
      if !Exists(id) || sessions[id].value.meta.owner != request.owner || request.digest == None {
        Settle(t, false);
        return;
      }
      var meta, digest := sessions[id].value.meta, request.digest.value;
      if Deleted(meta) { Settle(t, false); return; }
      var s := sessions[id].value;
      if meta.completion == None {
        s := s.(meta := WithReceipt(meta, Receipt(request.destination, None, false, false, false)));
      }
      FirstStretch(t, s, digest);
    }

    /** A recorded digest must be the announced one, and then the library is asked whether it
        holds the file; without one, a complete session is read. */
    static function FirstWork(m: Meta, digest: string): Work
      requires m.completion.Some?
    {
      match m.completion.value.digest
      case Some(recorded) => if recorded == digest then Replaying(m, digest) else Settled(false)
      case None => if Complete(m) then Reading(m, digest, 0, []) else Settled(false)
    }

    /** With its receipt at hand, refuse, ask the library, or start reading. */
    method FirstStretch(t: nat, s: Session, digest: string)
      requires Valid() && t < |tasks| && MayAct(tasks, t) && Exists(tasks[t].session)
      requires !Deleted(s.meta) && s.meta.completion.Some?
      requires s.parts == sessions[tasks[t].session].value.parts
      requires var old_ := sessions[tasks[t].session].value.meta;
               s.meta == old_ || (old_.completion == None && s.meta == WithReceipt(old_, s.meta.completion.value)
                                  && s.meta.completion.value.digest == None && !Registered(s.meta) && !Reclaimed(s.meta))
      modifies `sessions, `accepted, `tasks
      ensures Valid() && accepted == old(accepted)
      ensures sessions == old(sessions)[old(tasks)[t].session := Some(s)]
      ensures tasks == old(tasks)[t := old(tasks)[t].(work := FirstWork(s.meta, digest))]
    {
      var id, receipt := tasks[t].session, s.meta.completion.value;
      SessionKnown(id);
      ReceiptAdded(sessions[id].value, s, accepted[id], sha);
      CompleteByCount(s, accepted[id], sha);
      if receipt.digest != None && receipt.digest != Some(digest) {
        Settle(t, false);
      } else if receipt.digest != None {
        Proceed(t, Some(s), accepted[id], Replaying(s.meta, digest));
      } else if receipt.registered || |s.meta.received| != s.meta.totalChunks {
        Proceed(t, Some(s), accepted[id], Settled(false));
      } else {
        Proceed(t, Some(s), accepted[id], Reading(s.meta, digest, 0, []));
      }
    }

    /** The library has answered whether it holds the verified file, or raised: held, its
        receipt is finished; not held, the file is built again unless it was registered or
        retired. */
    method ResumeReplay(t: nat, held: Option<bool>) returns (o: Outcome)
      requires Valid() && t < |tasks| && tasks[t].work.Replaying?
      modifies `sessions, `accepted, `tasks, `locks, `trouble
      ensures Valid() && accepted == old(accepted)
      ensures var id, w := old(tasks)[t].session, old(tasks)[t].work;
              && id < |old(sessions)| && old(sessions)[id].Some?
              && if held == Some(true) then ReceiptEnds(o, t, Settled(false))
                 else if held == None || Deleted(old(sessions)[id].value.meta) || Registered(w.stale) then
                   o.Raised? && sessions == old(sessions) && MovesTo(t, Settled(false))
                 else
                   o.Done? && sessions == old(sessions) && MovesTo(t, Reading(w.stale, w.digest, 0, []))
    {
      var Replaying(meta, digest) := tasks[t].work;
      var id := tasks[t].session;
      TaskKnown(t);
      if held == None { Settle(t, false); return Raised; }
      if held == Some(true) {
        MoveTo(t, Registering(meta));
        o := FinishReceipt(t, Settled(false));
        return;
      }
      CompleteByCount(sessions[id].value, accepted[id], sha);
      if Deleted(sessions[id].value.meta) || meta.completion.value.registered || |meta.received| != meta.totalChunks {
        Settle(t, false);
        return Raised;
      }
      MoveTo(t, Reading(meta, digest, 0, []));
      o := Done;
    }

    lemma PartKnown(t: nat)
      requires Valid() && t < |tasks| && tasks[t].work.Reading? && tasks[t].work.next < tasks[t].work.stale.totalChunks
      ensures |accepted| == |sessions| && TaskOk(tasks[t], sessions, accepted)
      ensures var id, w := tasks[t].session, tasks[t].work;
              var s := sessions[id].value;
              && (w.next in s.parts ==> WorkOk(w.(next := w.next + 1, out := w.out + s.parts[w.next]), s.meta, accepted[id]))
              && (w.next !in s.parts ==> Deleted(s.meta))
    {
      TaskKnown(t);
      PartToRead(tasks[t].work, sessions[tasks[t].session].value, accepted[tasks[t].session], sha);
    }

    /** One part streams into the output. It is missing only after a retirement. */
    method ReadPart(t: nat) returns (o: Outcome)
      requires Valid() && t < |tasks| && tasks[t].work.Reading? && tasks[t].work.next < tasks[t].work.stale.totalChunks
      modifies `tasks
      ensures Valid()
      ensures var id, w := old(tasks)[t].session, old(tasks)[t].work;
              && id < |sessions| && sessions[id].Some?
              && (o.Done? <==> w.next in sessions[id].value.parts) && (o.Done? || o.Raised?)
              && (!o.Done? ==> Deleted(sessions[id].value.meta) && MovesTo(t, Settled(false)))
              && (o.Done? ==> MovesTo(t, w.(next := w.next + 1, out := w.out + sessions[id].value.parts[w.next])))
    {
      var Reading(meta, digest, next, out) := tasks[t].work;
      var id := tasks[t].session;
      PartKnown(t);
      var s := sessions[id].value;
      if next !in s.parts {
        Settle(t, false);
        return Raised;
      }
      MoveTo(t, Reading(meta, digest, next + 1, out + s.parts[next]));
      o := Done;
    }

    /** The verified output appears under the receipt's name. */
    method Publish(t: nat)
      requires Valid() && t < |tasks| && tasks[t].work.Reading? && tasks[t].session < |sessions|
      requires sessions[tasks[t].session].Some? && !Deleted(sessions[tasks[t].session].value.meta)
      modifies `files, `publishes
      ensures Valid() && tasks[t].session !in retired && Published(t)
    {
      var id := tasks[t].session;
      TaskKnown(t);
      SessionKnown(id);
      PublishStep(Snapshot(), id, sha, maxOwnerBytes);
      files := files[tasks[t].work.stale.completion.value.storedName := tasks[t].work.out];
      publishes := publishes + [id];
    }

    /** The output of task t now stands under the name in its receipt. */
    twostate predicate Published(t: nat)
      requires t < |old(tasks)| && old(tasks)[t].work.Reading?
      reads `publishes, `files
    {
      var w := old(tasks)[t].work;
      && publishes == old(publishes) + [old(tasks)[t].session]
      && w.stale.completion.Some? && files == old(files)[w.stale.completion.value.storedName := w.out]
    }

    method RecordDigest(t: nat)
      requires Valid() && t < |tasks| && tasks[t].work.Reading? && tasks[t].session < |sessions|
      requires sessions[tasks[t].session].Some? && !Deleted(sessions[tasks[t].session].value.meta)
      modifies `sessions, `accepted, `tasks
      ensures Valid() && accepted == old(accepted) && DigestDurable(t)
    {
      var id := tasks[t].session;
      var Reading(meta, digest, next, out) := tasks[t].work;
      TaskKnown(t);
      var s := sessions[id].value;
      var m := WithReceipt(meta, meta.completion.value.(digest := Some(digest)));
      DigestRecorded(s, m, accepted[id], sha, digest);
      Proceed(t, Some(s.(meta := m)), accepted[id], Registering(m));
      assert accepted == old(accepted);
    }

    /** Task t has written its digest into the receipt, and asks the library to register the file. */
    twostate predicate DigestDurable(t: nat)
      requires t < |old(tasks)| && old(tasks)[t].work.Reading?
      reads `sessions, `tasks, `locks, `trouble
    {
      var id, w := old(tasks)[t].session, old(tasks)[t].work;
      && id < |old(sessions)| && old(sessions)[id].Some? && w.stale.completion.Some?
      && var m := WithReceipt(w.stale, w.stale.completion.value.(digest := Some(w.digest)));
         sessions == old(sessions)[id := Some(old(sessions)[id].value.(meta := m))] && MovesTo(t, Registering(m))
    }

    /** The output appears; a failure past that discards it. */
    method TryPublish(t: nat) returns (o: Outcome)
      requires Valid() && t < |tasks| && tasks[t].work.Reading? && tasks[t].session < |sessions|
      requires sessions[tasks[t].session].Some? && !Deleted(sessions[tasks[t].session].value.meta)
      modifies `tasks, `locks, `trouble, `files, `publishes
      ensures Valid() && Published(t)
      ensures if o.Done? then Undisturbed() else Fell(o, t, Discarding(old(tasks)[t].work.stale.completion.value.storedName))
    {
      Publish(t);
      o := Attempt(t, Discarding(tasks[t].work.stale.completion.value.storedName));
    }

    /** The output is synced, appears, and then its digest becomes durable. */
    method PublishGood(t: nat) returns (o: Outcome)
      requires Valid() && t < |tasks| && tasks[t].work.Reading? && tasks[t].session < |sessions|
      requires sessions[tasks[t].session].Some? && !Deleted(sessions[tasks[t].session].value.meta)
      modifies `sessions, `accepted, `tasks, `locks, `trouble, `files, `publishes
      ensures Valid() && accepted == old(accepted)
      ensures if o.Done? then Published(t) && DigestDurable(t)
              else
                && sessions == old(sessions)
                && if publishes == old(publishes) then files == old(files) && Fell(o, t, Settled(false))
                   else Published(t) && Fell(o, t, Discarding(old(tasks)[t].work.stale.completion.value.storedName))
    {
      o := Attempt(t, Settled(false));
      if !o.Done? { return; }
      o := TryPublish(t);
      if !o.Done? { return; }
      RecordDigest(t);
    }

    /** Whether a fully read output may be published. */
    static predicate Good(w: Work, m: Meta, inspected: bool, sha: Bytes -> string)
      requires w.Reading?
    {
      |w.out| == w.stale.size && sha(w.out) == w.digest && !Deleted(m) && inspected
    }

    /** How a fully read task ends: a good output is published under the receipt's name and its
        digest made durable, unless a step fails; any other is dropped and nothing changes. */
    twostate predicate AssembleEnds(o: Outcome, t: nat, inspected: bool)
      requires t < |old(tasks)| && old(tasks)[t].work.Reading? && old(tasks)[t].session < |old(sessions)|
      reads `sessions, `tasks, `locks, `trouble, `files, `publishes
    {
      var id, w := old(tasks)[t].session, old(tasks)[t].work;
      && old(sessions)[id].Some? && w.stale.completion.Some?
      && (if publishes == old(publishes) then files == old(files) else Published(t))
      && if !Good(w, old(sessions)[id].value.meta, inspected, sha) then
           o.Raised? && publishes == old(publishes) && sessions == old(sessions) && MovesTo(t, Settled(false))
         else if o.Done? then
           publishes != old(publishes) && DigestDurable(t)
         else
           && sessions == old(sessions)
           && Fell(o, t, if publishes == old(publishes) then Settled(false) else Discarding(w.stale.completion.value.storedName))
    }

    /** All parts read: what was read is the index-order concatenation of the accepted chunks,
        and nothing but that is published. */
    method FinishAssemble(t: nat, inspected: bool) returns (o: Outcome)
      requires Valid() && t < |tasks| && tasks[t].work.Reading? && tasks[t].work.next == tasks[t].work.stale.totalChunks
      modifies `sessions, `accepted, `tasks, `locks, `trouble, `files, `publishes
      ensures Valid() && accepted == old(accepted)
      ensures var id, w := old(tasks)[t].session, old(tasks)[t].work;
              && id < |old(sessions)| && id < |accepted| && AssembleEnds(o, t, inspected)
              && (forall i :: 0 <= i < w.stale.totalChunks ==> i in accepted[id])
              && w.out == Concat(accepted[id], w.stale.totalChunks)
    {
      var Reading(meta, digest, next, out) := tasks[t].work;
      var id := tasks[t].session;
      TaskKnown(t);
      if |out| != meta.size || sha(out) != digest || Deleted(sessions[id].value.meta) || !inspected {
        Settle(t, false);
        return Raised;
      }
      o := PublishGood(t);
    }

    /** One durable step of a receipt: registered, a part dropped, or reclaimed. */
    method ReceiptTo(t: nat, s: Session)
      requires Valid() && t < |tasks| && tasks[t].work.Registering? && Exists(tasks[t].session)
      requires var id, stale := tasks[t].session, tasks[t].work.stale;
               && sessions[id].value.meta == stale && HasDigest(stale) && !Deleted(stale)
               && ReceiptStep(sessions[id].value, s)
      modifies `sessions, `accepted, `tasks
      ensures Valid() && accepted == old(accepted)
      ensures sessions == old(sessions)[old(tasks)[t].session := Some(s)]
      ensures tasks == old(tasks)[t := old(tasks)[t].(work := Registering(s.meta))]
    {
      var id := tasks[t].session;
      TaskKnown(t);
      ReceiptKept(sessions[id].value, s, accepted[id], sha);
      SessionKnown(id);
      Proceed(t, Some(s), accepted[id], Registering(s.meta));
      assert accepted == old(accepted);
    }

    /** One such step, which may fail before it is durable. */
    method TryReceiptTo(t: nat, s: Session, failed: Work) returns (o: Outcome)
      requires Valid() && t < |tasks| && tasks[t].work.Registering? && Exists(tasks[t].session)
      requires failed.Discarding? || failed.Settled?
      requires var id, stale := tasks[t].session, tasks[t].work.stale;
               && sessions[id].value.meta == stale && HasDigest(stale) && !Deleted(stale)
               && ReceiptStep(sessions[id].value, s)
      modifies `sessions, `accepted, `tasks, `locks, `trouble
      ensures Valid() && accepted == old(accepted)
      ensures if o.Done? then
                sessions == old(sessions)[old(tasks)[t].session := Some(s)] && MovesTo(t, Registering(s.meta))
              else sessions == old(sessions) && Fell(o, t, failed)
    {
      o := Attempt(t, failed);
      if !o.Done? { return; }
      ReceiptTo(t, s);
    }

    /** Drop the parts of a registered session. */
    method ReclaimParts(t: nat, failed: Work) returns (o: Outcome)
      requires Valid() && t < |tasks| && tasks[t].work.Registering? && Exists(tasks[t].session)
      requires failed.Discarding? || failed.Settled?
      requires var id, stale := tasks[t].session, tasks[t].work.stale;
               sessions[id].value.meta == stale && HasDigest(stale) && !Deleted(stale) && Registered(stale) && !Reclaimed(stale)
      modifies `sessions, `accepted, `tasks, `locks, `trouble
      ensures Valid() && accepted == old(accepted) && OwnSession(t) && sessions[old(tasks)[t].session].Some?
      ensures ReceiptStep(old(sessions)[old(tasks)[t].session].value, sessions[old(tasks)[t].session].value)
      ensures if o.Done? then
                && Undisturbed()
                && sessions[old(tasks)[t].session].value == Session(old(tasks)[t].work.stale, map[])
              else Fell(o, t, failed)
    {
      var id, stale := tasks[t].session, tasks[t].work.stale;
      var s := sessions[id].value;
      PartsKnown(id);
      PartsGone(s, 0);
      for i := 0 to stale.totalChunks
        invariant Valid() && accepted == old(accepted) && Undisturbed()
        invariant sessions == old(sessions)[id := Some(From(s, i))]
      {
        PartGoes(s, i);
        PartsGone(s, i);
        o := TryReceiptTo(t, From(s, i + 1), failed);
        if !o.Done? { return; }
      }
      PartsGone(s, stale.totalChunks);
      o := Done;
    }

    /** Drop the parts, then say so, unless that was done. */
    method Reclaim(t: nat, failed: Work) returns (o: Outcome)
      requires Valid() && t < |tasks| && tasks[t].work.Registering? && Exists(tasks[t].session)
      requires failed.Discarding? || failed.Settled?
      requires var id, stale := tasks[t].session, tasks[t].work.stale;
               sessions[id].value.meta == stale && HasDigest(stale) && !Deleted(stale) && Registered(stale)
      modifies `sessions, `accepted, `tasks, `locks, `trouble
      ensures Valid() && accepted == old(accepted) && OwnSession(t)
      ensures var id, m := old(tasks)[t].session, old(tasks)[t].work.stale;
              if o.Done? then
                sessions[id] == Some(Session(Finished(m), map[])) && MovesTo(t, Registering(Finished(m)))
              else
                Fell(o, t, failed) && sessions[id].Some? && ReceiptStep(old(sessions)[id].value, sessions[id].value)
    {
      if tasks[t].work.stale.completion.value.reclaimed {
        SessionKnown(tasks[t].session);
        return Done;
      }
      o := ReclaimParts(t, failed);
      if !o.Done? { return; }
      o := TryReceiptTo(t, Session(Finished(tasks[t].work.stale), map[]), failed);
    }

    /** Mark the session of task t registered, unless it is. */
    method MarkRegistered(t: nat, failed: Work) returns (o: Outcome)
      requires Valid() && t < |tasks| && tasks[t].work.Registering? && Exists(tasks[t].session)
      requires failed.Discarding? || failed.Settled?
      requires sessions[tasks[t].session].value.meta == tasks[t].work.stale
      requires HasDigest(tasks[t].work.stale) && !Deleted(tasks[t].work.stale)
      modifies `sessions, `accepted, `tasks, `locks, `trouble
      ensures Valid() && accepted == old(accepted) && OwnSession(t)
      ensures var id, m := old(tasks)[t].session, old(tasks)[t].work.stale;
              if o.Done? then
                var next := WithReceipt(m, m.completion.value.(registered := true));
                sessions[id] == Some(old(sessions)[id].value.(meta := next)) && MovesTo(t, Registering(next))
              else Fell(o, t, failed) && sessions == old(sessions)
    {
      var s := sessions[tasks[t].session].value;
      SessionKnown(tasks[t].session);
      if s.meta.completion.value.registered { return Done; }
      o := TryReceiptTo(t, s.(meta := WithReceipt(s.meta, s.meta.completion.value.(registered := true))), failed);
    }

    /** No session but that of task t has changed. */
    twostate predicate OwnSession(t: nat)
      reads `sessions
    {
      && t < |old(tasks)| && old(tasks)[t].session < |sessions| == |old(sessions)|
      && sessions == old(sessions)[old(tasks)[t].session := sessions[old(tasks)[t].session]]
    }

    /** How finishing the receipt of task t ends: refused once its session is retired, complete
        if every step returns, and otherwise somewhere on the way. */
    twostate predicate ReceiptEnds(o: Outcome, t: nat, failed: Work)
      requires t < |old(tasks)| && old(tasks)[t].session < |old(sessions)| && old(sessions)[old(tasks)[t].session].Some?
      reads `sessions, `tasks, `locks, `trouble
    {
      var id := old(tasks)[t].session;
      var s := old(sessions)[id].value;
      if Deleted(s.meta) then
        o.Raised? && sessions == old(sessions) && MovesTo(t, failed)
      else if o.Done? then
        && s.meta.completion.Some?
        && sessions == old(sessions)[id := Some(Session(Finished(s.meta), map[]))] && MovesTo(t, Settled(true))
      else
        && OwnSession(t) && Fell(o, t, failed)
        && (sessions == old(sessions)
            || (s.meta.completion.Some? && sessions[id].Some? && ReceiptStep(s, sessions[id].value)))
    }

    /** Mark registered, drop the parts, mark reclaimed; refuse all of it once retired. */
    method FinishReceipt(t: nat, failed: Work) returns (o: Outcome)
      requires Valid() && t < |tasks| && tasks[t].work.Registering?
      requires failed.Discarding? || failed.Settled?
      modifies `sessions, `accepted, `tasks, `locks, `trouble
      ensures Valid() && accepted == old(accepted)
      ensures var id := old(tasks)[t].session;
              id < |old(sessions)| && old(sessions)[id].Some? && ReceiptEnds(o, t, failed)
    {
      TaskKnown(t);
      if Deleted(sessions[tasks[t].session].value.meta) {
        MoveTo(t, failed);
        return Raised;
      }
      o := CompleteReceipt(t, failed);
    }

    method CompleteReceipt(t: nat, failed: Work) returns (o: Outcome)
      requires Valid() && t < |tasks| && tasks[t].work.Registering? && Exists(tasks[t].session)
      requires failed.Discarding? || failed.Settled?
      requires sessions[tasks[t].session].value.meta == tasks[t].work.stale
      requires HasDigest(tasks[t].work.stale) && !Deleted(tasks[t].work.stale)
      modifies `sessions, `accepted, `tasks, `locks, `trouble
      ensures Valid() && accepted == old(accepted) && ReceiptEnds(o, t, failed)
    {
      o := MarkRegistered(t, failed);
      if !o.Done? { return; }
      o := Reclaim(t, failed);
      if !o.Done? { return; }
      Settle(t, true);
    }

    /** The library has accepted the file or refused it: accepted, the receipt is finished;
        refused, no session changes and the file is up for withdrawal. */
    method FinishRegister(t: nat, registered: bool) returns (o: Outcome)
      requires Valid() && t < |tasks| && tasks[t].work.Registering?
      modifies `sessions, `accepted, `tasks, `locks, `trouble
      ensures Valid() && accepted == old(accepted)
      ensures var id, w := old(tasks)[t].session, old(tasks)[t].work;
              && id < |old(sessions)| && old(sessions)[id].Some? && w.stale.completion.Some?
              && var failed := Discarding(w.stale.completion.value.storedName);
                 if registered then ReceiptEnds(o, t, failed)
                 else o.Raised? && sessions == old(sessions) && MovesTo(t, failed)
    {
      var Registering(meta) := tasks[t].work;
      TaskKnown(t);
      var failed := Discarding(meta.completion.value.storedName);
      if registered {
        o := FinishReceipt(t, failed);
      } else {
        MoveTo(t, failed);
        o := Raised;
      }
    }

    /** After a failure past publication: the file goes unless the library has committed it. */
    method FinishDiscard(t: nat, committed: bool)
      requires Valid() && t < |tasks| && tasks[t].work.Discarding?
      modifies `tasks, `files
      ensures Valid() && MovesTo(t, Settled(false))
      ensures files == if committed then old(files) else old(files) - {old(tasks)[t].work.name}
    {
      if !committed { files := files - {tasks[t].work.name}; }
      Settle(t, false);
    }

    // ------------------------------------------------- removal and retirement

    /** Cancelling removes the session for its owner and does nothing for anybody else. */
    method StartCancel(t: nat)
      requires Valid() && t < |tasks| && MayAct(tasks, t) && tasks[t].work.Waiting? && tasks[t].work.request.Cancel?
      modifies `sessions, `accepted, `tasks
      ensures Valid() && |tasks| == |old(tasks)| && tasks[t].work.Settled?
      ensures tasks == old(tasks)[t := old(tasks)[t].(work := tasks[t].work)]
      ensures var id, ok := tasks[t].session, tasks[t].work.ok;
              && (ok <==> id < |old(sessions)| && old(sessions)[id].Some?
                          && old(sessions)[id].value.meta.owner == old(tasks)[t].work.request.owner)
              && sessions == if ok then old(sessions)[id := None] else old(sessions)
    {
      var id, request := tasks[t].session, tasks[t].work.request;
      if !Exists(id) || sessions[id].value.meta.owner != request.owner { Settle(t, false); return; }
      SessionKnown(id);
      Proceed(t, None, map[], Settled(true));
    }

    /** No step has failed, and no task has moved. */
    twostate predicate Undisturbed()
      reads `tasks, `locks, `trouble
    {
      tasks == old(tasks) && locks == old(locks) && trouble == old(trouble)
    }

    /** A step outside all tasks did not return. */
    twostate predicate Stopped(o: Outcome)
      reads `tasks, `locks, `trouble
    {
      && !o.Done? && trouble == old(trouble) + 1
      && (o.Raised? ==> tasks == old(tasks) && locks == old(locks)) && (o.Crashed? ==> tasks == [] && locks == map[])
    }

    /** The owner of the library file retires its upload without waiting for the lock. */
    method Retire(id: Id, storedName: string, digest: string) returns (o: Outcome)
      requires Valid()
      modifies `sessions, `tasks, `locks, `trouble, `retired
      ensures Valid() && Elsewhere(id) && RetiredKept(id)
      ensures if id < |old(sessions)| && old(sessions)[id].Some? then
                var s := old(sessions)[id].value;
                if !Known(s.meta, storedName, digest) then
                  o.Raised? && Undisturbed() && sessions == old(sessions) && retired == old(retired)
                else if o.Done? then
                  Undisturbed() && id in retired && sessions[id] == Some(Session(Gone(s.meta), map[]))
                else
                  Stopped(o) && (sessions == old(sessions)
                                 || (id in retired && sessions[id].Some? && Retires(s, sessions[id].value)))
              else
                o.Done? && Undisturbed() && sessions == old(sessions) && retired == old(retired)
    {
      if !Exists(id) { return Done; }
      var s := sessions[id].value;
      SessionKnown(id);
      if s.meta.completion == None || s.meta.completion.value.storedName != storedName
         || s.meta.completion.value.digest != Some(digest) {
        return Raised;
      }
      var marked := s.(meta := WithReceipt(s.meta, s.meta.completion.value.(deleted := true)));
      o := TryMark(id, marked);
      if !o.Done? { return; }
      if !s.meta.completion.value.reclaimed {
        o := DropRetired(id);
      }
    }

    /** The deletion mark becomes durable, or the step does not return. */
    method TryMark(id: Id, s: Session) returns (o: Outcome)
      requires Valid() && Exists(id) && Retires(sessions[id].value, s)
      modifies `sessions, `tasks, `locks, `trouble, `retired
      ensures Valid() && RetiredKept(id) && (id in old(retired) ==> retired == old(retired))
      ensures if o.Done? then Undisturbed() && sessions == old(sessions)[id := Some(s)] && id in retired
              else Stopped(o) && sessions == old(sessions) && retired == old(retired)
    {
      o := Step();
      if o.Crashed? { Restart(); }
      if !o.Done? { trouble := trouble + 1; return; }
      RetireTo(id, s);
    }

    /** Drop the parts of a retired session. */
    method DropParts(id: Id) returns (o: Outcome)
      requires Valid() && Exists(id) && HasDigest(sessions[id].value.meta) && Deleted(sessions[id].value.meta) && id in retired
      requires !Reclaimed(sessions[id].value.meta)
      modifies `sessions, `tasks, `locks, `trouble, `retired
      ensures Valid() && retired == old(retired) && Elsewhere(id) && sessions[id].Some?
      ensures Retires(old(sessions)[id].value, sessions[id].value)
      ensures if o.Done? then Undisturbed() && sessions[id].value == old(sessions)[id].value.(parts := map[])
              else Stopped(o)
    {
      var s := sessions[id].value;
      PartsKnown(id);
      PartsGone(s, 0);
      for i := 0 to s.meta.totalChunks
        invariant Valid() && retired == old(retired) && Undisturbed()
        invariant sessions == old(sessions)[id := Some(From(s, i))]
      {
        PartGoes(s, i);
        PartsGone(s, i);
        o := TryMark(id, From(s, i + 1));
        if !o.Done? { return; }
      }
      PartsGone(s, s.meta.totalChunks);
      o := Done;
    }

    /** Once the parts are gone, say so. */
    method DropRetired(id: Id) returns (o: Outcome)
      requires Valid() && Exists(id) && HasDigest(sessions[id].value.meta) && Deleted(sessions[id].value.meta) && id in retired
      requires !Reclaimed(sessions[id].value.meta)
      modifies `sessions, `tasks, `locks, `trouble, `retired
      ensures Valid() && retired == old(retired) && Elsewhere(id) && sessions[id].Some?
      ensures Retires(old(sessions)[id].value, sessions[id].value)
      ensures if o.Done? then Undisturbed() && sessions[id].value == Session(Gone(old(sessions)[id].value.meta), map[])
              else Stopped(o)
    {
      o := DropParts(id);
      if !o.Done? { return; }
      var s := sessions[id].value;
      o := TryMark(id, s.(meta := WithReceipt(s.meta, s.meta.completion.value.(reclaimed := true))));
    }

    twostate predicate Elsewhere(id: Id)
      reads `sessions
    {
      && |sessions| == |old(sessions)|
      && (forall u :: 0 <= u < |sessions| && u != id ==> sessions[u] == old(sessions)[u])
    }

    twostate predicate RetiredKept(id: Id)
      reads `retired
    {
      && retired.Keys <= old(retired).Keys + {id}
      && (forall r :: r in old(retired) ==> r in retired && retired[r] == old(retired)[r])
    }

    /** One durable step of a retirement. */
    method RetireTo(id: Id, s: Session)
      requires Valid() && Exists(id) && Retires(sessions[id].value, s)
      modifies `sessions, `retired
      ensures Valid() && sessions == old(sessions)[id := Some(s)]
      ensures retired == if id in old(retired) then old(retired)
                         else old(retired)[id := Retirement(|publishes|, Registered(s.meta))]
    {
      ghost var st := Snapshot();
      ghost var m := sessions[id].value.meta;
      ghost var after := if id in retired then retired else retired[id := Retirement(|publishes|, Registered(s.meta))];
      ghost var next := st.(sessions := sessions[id := Some(s)], retired := after);
      SessionKnown(id);
      RetiresKeeps(sessions[id].value, s, accepted[id], sha);
      TasksKnown();
      forall t | 0 <= t < |tasks| && tasks[t].session == id
        ensures TaskOk(tasks[t], next.sessions, next.accepted)
      {
        if Running(tasks[t]) { RetirementOvertakes(tasks[t].work, sessions[id].value, s.meta, accepted[id], sha); }
      }
      assert StaysRetired(next.sessions[id], id, after[id], publishes);
      SessionStep(st, next, id, sha, maxOwnerBytes);
      sessions := sessions[id := Some(s)];
      retired := after;
    }

    /** Expiry removes sessions nobody has accepted work on. */
    method Cleanup(expired: set<Id>)
      requires Valid()
      modifies `sessions
      ensures Valid() && |sessions| == |old(sessions)|
      ensures forall u :: 0 <= u < |sessions| ==>
                sessions[u] == if u in expired && u !in locks then None else old(sessions)[u]
      ensures forall t :: 0 <= t < |tasks| && !tasks[t].work.Settled? && tasks[t].session < |sessions| ==>
                sessions[tasks[t].session] == old(sessions)[tasks[t].session]
    {
      for id := 0 to |sessions|
        invariant Valid() && |sessions| == |old(sessions)|
        invariant forall u :: 0 <= u < |sessions| ==>
                    sessions[u] == if u < id && u in expired && u !in locks then None else old(sessions)[u]
      {
        if id in expired && id !in locks {
          Expire(id);
        }
      }
      TasksKnown();
    }

    method Expire(id: Id)
      requires Valid() && id < |sessions| && id !in locks
      modifies `sessions
      ensures Valid() && sessions == old(sessions)[id := None]
    {
      ghost var st := Snapshot();
      TasksKnown();
      SessionKnown(id);
      SessionStep(st, st.(sessions := sessions[id := None]), id, sha, maxOwnerBytes);
      sessions := sessions[id := None];
    }

    /** Admission: the size limit, the owner's quota over what expiry leaves, and the free
        space all hold, and then a new empty session is there. */
    method Create(owner: string, size: int, enoughFree: bool, expired: set<Id>) returns (id: Option<Id>)
      requires Valid()
      modifies `sessions, `accepted
      ensures Valid() && |sessions| >= |old(sessions)|
      ensures forall u :: 0 <= u < |old(sessions)| ==>
                sessions[u] == if 1 <= size <= maxFileBytes && u in expired && u !in locks then None else old(sessions)[u]
      ensures id.Some? <==> && 1 <= size <= maxFileBytes && enoughFree
                            && OwnerBytes(sessions[..|old(sessions)|], owner) + size <= maxOwnerBytes
      ensures if id.Some? then
                && id.value == |old(sessions)| && accepted == old(accepted) + [map[]]
                && var m := Meta(owner, size, chunkBytes, TotalChunks(size, chunkBytes), map[], None);
                   Sized(m) && sessions[id.value..] == [Some(Session(m, map[]))]
              else |sessions| == |old(sessions)| && accepted == old(accepted)
      ensures chunkBytes > 0
    {
      if size < 1 || size > maxFileBytes { return None; }
      Cleanup(expired);
      var activeOwnerBytes := 0;
      for k := 0 to |sessions|
        invariant activeOwnerBytes == OwnerBytes(sessions[..k], owner)
      {
        assert sessions[..k + 1][..k] == sessions[..k];
        if sessions[k].Some? && !Released(sessions[k].value.meta) && sessions[k].value.meta.owner == owner {
          activeOwnerBytes := activeOwnerBytes + sessions[k].value.meta.size;
        }
      }
      assert sessions[..|sessions|] == sessions;
      if activeOwnerBytes + size > maxOwnerBytes || !enoughFree { return None; }
      var meta := Meta(owner, size, chunkBytes, TotalChunks(size, chunkBytes), map[], None);
      CreateStep(Snapshot(), meta, sha, maxOwnerBytes);
      id := Some(|sessions|);
      sessions := sessions + [Some(Session(meta, map[]))];
      accepted := accepted + [map[]];
    }

    // -------------------------------------------------------------- all runs

    ghost predicate Accounted()
      reads `sessions, `tasks, `trace, `retired
    {
      AccountedBy(sessions, tasks, trace, retired)
    }

    /** What an event did, seen from outside: only the task it took hold of moves; a session
        is registered and a file appears or goes only by the event that may do so. */
    twostate predicate Explained(m: Moment)
      reads `sessions, `tasks, `retired, `files, `trouble
    {
      && (m.trouble <==> trouble != old(trouble)) && m.task == Taken(m.event, old(tasks))
      && TasksBy(m, old(tasks), tasks, retired) && SessionsBy(m, old(sessions), sessions)
      && FilesBy(m, old(files), files, sha)
    }

    /** The record of an event that has just been handled. */
    twostate function Here(e: Event): Moment
      reads `trouble
    {
      Moment(e, Taken(e, old(tasks)), trouble != old(trouble))
    }

    twostate lemma StillAccounted(m: Moment)
      requires old(Accounted()) && Remembers() && Explained(m) && trace == old(trace)
      ensures AccountedBy(sessions, tasks, trace + [m], retired)
    {
      var next := trace + [m];
      assert next[..|trace|] == trace;
      forall id: Id | RegisteredAt(sessions, id)
        ensures exists k :: 0 <= k < |next| && Vouches(next[k], id)
      {
        if RegisteredAt(old(sessions), id) {
          var k :| 0 <= k < |trace| && Vouches(trace[k], id);
          assert Vouches(next[k], id);
        } else {
          assert Vouches(next[|trace|], id);
        }
      }
      forall t | 0 <= t < |tasks|
        ensures Excused(tasks[t], t, next, retired)
      {
        if !tasks[t].work.Waiting? && !(m.task.Some? && Subject(m.event) == Some(t)) {
          assert Excused(old(tasks)[t], t, old(trace), old(retired));
        }
      }
    }

    /** An event inside task t that leaves registrations and files as they were. */
    twostate lemma JustMoved(e: Event)
      requires Taken(e, old(tasks)).Some?
      requires tasks == [] || (Subject(e).value < |tasks| && !tasks[Subject(e).value].work.Discarding?
                               && tasks == old(tasks)[Subject(e).value := tasks[Subject(e).value]]
                               && tasks[Subject(e).value].session == old(tasks)[Subject(e).value].session
                               && tasks[Subject(e).value].work != old(tasks)[Subject(e).value].work)
      requires files == old(files)
      requires forall id: Id :: RegisteredAt(sessions, id) ==> RegisteredAt(old(sessions), id)
      ensures Explained(Here(e))
    {
    }

    /** An event outside all tasks. */
    twostate lemma Outside(e: Event)
      requires Taken(e, old(tasks)).None? && files == old(files)
      requires tasks == old(tasks) || tasks == [] || (|tasks| > 0 && tasks[|tasks| - 1].work.Waiting? && tasks[..|tasks| - 1] == old(tasks))
      requires forall id: Id :: RegisteredAt(sessions, id) ==> RegisteredAt(old(sessions), id)
      ensures Explained(Here(e))
    {
      if |tasks| > 0 && tasks != old(tasks) {
        forall u | 0 <= u < |tasks| - 1
          ensures tasks[u] == old(tasks)[u]
        {
          assert tasks[u] == tasks[..|tasks| - 1][u];
        }
      }
    }

    /** The first stretch of a task. */
    method Start(t: nat)
      requires Valid() && t < |tasks| && MayAct(tasks, t) && tasks[t].work.Waiting?
      modifies `sessions, `accepted, `tasks
      ensures Valid() && Explained(Here(Begin(t)))
    {
      match tasks[t].work.request {
        case Put(_, _, _, _) => StartPut(t);
        case Assemble(_, _, _) => StartAssemble(t);
        case Cancel(_) => StartCancel(t);
      }
      JustMoved(Begin(t));
    }

    /** What a suspended task waited for has happened. */
    method Resume(t: nat, answer: Option<bool>)
      requires Valid() && t < |tasks|
      modifies `sessions, `accepted, `tasks, `locks, `trouble, `files, `publishes
      ensures Valid() && old(publishes) <= publishes && Explained(Here(Resumed(t, answer)))
    {
      match tasks[t].work
      case Replaying(_, _) => ResumeHeld(t, answer);
      case Reading(stale, _, next, _) =>
        if next < stale.totalChunks { ResumePart(t, answer); } else { ResumeRead(t, answer); }
      case Registering(_) => ResumeRegister(t, answer);
      case Discarding(_) => FinishDiscard(t, answer == Some(true));
      case _ =>
    }

    method ResumePart(t: nat, answer: Option<bool>)
      requires Valid() && t < |tasks| && tasks[t].work.Reading? && tasks[t].work.next < tasks[t].work.stale.totalChunks
      modifies `tasks
      ensures Valid() && Explained(Here(Resumed(t, answer)))
    {
      var o := ReadPart(t);
      JustMoved(Resumed(t, answer));
    }

    method ResumeRead(t: nat, answer: Option<bool>)
      requires Valid() && t < |tasks| && tasks[t].work.Reading? && tasks[t].work.next >= tasks[t].work.stale.totalChunks
      modifies `sessions, `accepted, `tasks, `locks, `trouble, `files, `publishes
      ensures Valid() && old(publishes) <= publishes && Explained(Here(Resumed(t, answer)))
    {
      TaskKnown(t);
      var o := FinishAssemble(t, answer == Some(true));
    }

    /** The library has said whether it holds the file. */
    method ResumeHeld(t: nat, answer: Option<bool>)
      requires Valid() && t < |tasks| && tasks[t].work.Replaying?
      modifies `sessions, `accepted, `tasks, `locks, `trouble
      ensures Valid() && Explained(Here(Resumed(t, answer)))
    {
      TaskKnown(t);
      var o := ResumeReplay(t, answer);
    }

    /** The library has accepted or refused the file. */
    method ResumeRegister(t: nat, answer: Option<bool>)
      requires Valid() && t < |tasks| && tasks[t].work.Registering?
      modifies `sessions, `accepted, `tasks, `locks, `trouble
      ensures Valid() && Explained(Here(Resumed(t, answer)))
    {
      TaskKnown(t);
      var o := FinishRegister(t, answer == Some(true));
    }

    /** What an event outside all tasks brings about. */
    twostate predicate Handled(e: Event)
      reads `sessions, `tasks, `locks, `trouble
    {
      match e
      case Accept(id, request) =>
        tasks == old(tasks) + [Task(id, if id in old(locks) then Some(old(locks)[id]) else None, Waiting(request))]
      case Finally(t) =>
        t < |old(tasks)| && old(tasks)[t].work.Settled? ==> old(tasks)[t].session !in locks || locks[old(tasks)[t].session] != t
      case Retiring(id, storedName, digest) =>
        id < |old(sessions)| && old(sessions)[id].Some? && Known(old(sessions)[id].value.meta, storedName, digest)
        && trouble == old(trouble) ==>
          id < |sessions| && sessions[id] == Some(Session(Gone(old(sessions)[id].value.meta), map[]))
      case Creating(owner, size, enoughFree, expired) =>
        && |sessions| >= |old(sessions)|
        && (|sessions| > |old(sessions)| <==>
              && 1 <= size <= maxFileBytes && enoughFree
              && OwnerBytes(sessions[..|old(sessions)|], owner) + size <= maxOwnerBytes)
      case Expiring(expired) =>
        && |sessions| == |old(sessions)|
        && (forall u :: 0 <= u < |sessions| ==>
              sessions[u] == if u in expired && u !in locks then None else old(sessions)[u])
      case Dying => tasks == [] && locks == map[]
      case _ => true
    }

    /** What happens outside all tasks. */
    method Maintain(e: Event)
      requires Valid() && Subject(e) == None && !e.Finally?
      modifies `sessions, `accepted, `tasks, `locks, `trouble, `retired
      ensures Valid() && Remembers() && Explained(Here(e)) && Handled(e)
    {
      match e {
        case Accept(id, request) => var t := Locked(id, request);
        case Retiring(id, storedName, digest) => var o := Retire(id, storedName, digest);
        case Creating(owner, size, enoughFree, expired) => var id := Create(owner, size, enoughFree, expired);
        case Expiring(expired) => Cleanup(expired);
        case Dying => Restart();
        case _ =>
      }
      Outside(e);
    }

    /** One scheduler choice. A choice that is not enabled does nothing, and one that is
        moves its task. */
    method Serve(e: Event)
      requires Valid()
      modifies `sessions, `accepted, `tasks, `locks, `trouble, `files, `publishes, `retired
      ensures Valid() && Remembers() && Explained(Here(e)) && Handled(e)
    {
      match e {
        case Begin(t) => if t < |tasks| && MayAct(tasks, t) && tasks[t].work.Waiting? { Start(t); }
        case Streamed(t, bytes) => if t < |tasks| && tasks[t].work.Putting? { FinishStream(t, bytes); }
        case Resumed(t, answer) => if t < |tasks| { Resume(t, answer); }
        case Finally(t) => if t < |tasks| && tasks[t].work.Settled? { Release(t); }
        case _ => Maintain(e);
      }
    }

    /** The same, recorded. */
    method Dispatch(e: Event) returns (ghost m: Moment)
      requires Valid() && Accounted()
      modifies this
      ensures Valid() && Accounted() && Remembers() && Explained(m) && Handled(e)
      ensures m.event == e && trace == old(trace) + [m]
    {
      Serve(e);
      m := Here(e);
      StillAccounted(m);
      trace := trace + [m];
    }

    method FinishStream(t: nat, bytes: Bytes)
      requires Valid() && t < |tasks| && tasks[t].work.Putting?
      modifies `sessions, `accepted, `tasks, `locks, `trouble
      ensures Valid() && Explained(Here(Streamed(t, bytes)))
    {
      TaskKnown(t);
      var o := FinishPut(t, bytes);
      JustMoved(Streamed(t, bytes));
    }

    /** A deletion sticks over any stretch of a run. */
    twostate lemma RetirementSticks()
      requires old(Valid()) && Valid() && Remembers()
      ensures forall r: nat :: r < |old(sessions)| && old(sessions)[r].Some? && Deleted(old(sessions)[r].value.meta) ==>
                && r < |sessions|
                && (sessions[r].Some? ==> Deleted(sessions[r].value.meta)
                                          && Registered(sessions[r].value.meta) == Registered(old(sessions)[r].value.meta))
                && (forall k :: |old(publishes)| <= k < |publishes| ==> publishes[k] != r)
      ensures forall r :: r in old(retired) && r < |sessions| && sessions[r].Some? ==>
                Deleted(sessions[r].value.meta) && Registered(sessions[r].value.meta) == old(retired)[r].registered
      ensures forall r, k :: r in old(retired) && old(retired)[r].at <= k < |publishes| ==> publishes[k] != r
    {
      ValidIff(old(Snapshot()), sha, maxOwnerBytes);
      ValidIff(Snapshot(), sha, maxOwnerBytes);
      assert forall r :: 0 <= r < |old(sessions)| ==> MarkKnown(old(sessions)[r], r, old(retired));
      assert forall r :: r in old(retired) ==> StaysRetired(old(sessions)[r], r, old(retired)[r], old(publishes));
      assert forall r :: r in old(retired) ==> StaysRetired(sessions[r], r, retired[r], publishes);
    }

    /** Every interleaving: whatever the order of stretches, retirements, expiry and deaths,
        quotas hold, for the part files on disk too, chains run one task at a time, and a session that is marked deleted, even
        by a retirement that was cut short, keeps its mark for as long as it exists, gains no
        registration and publishes nothing any more.
        A session becomes registered only by an answer that accepted or held its file, a file
        appears only as a verified output, and is withdrawn only after a failure, a refusal or
        a retirement. */
    method Run(events: seq<Event>)
      requires Valid() && Accounted()
      modifies this
      ensures Valid() && Accounted() && Remembers()
      ensures |trace| == |old(trace)| + |events| && trace[..|old(trace)|] == old(trace)
      ensures forall n :: 0 <= n < |events| ==> trace[|old(trace)| + n].event == events[n]
      ensures forall r: nat :: r < |old(sessions)| && old(sessions)[r].Some? && Deleted(old(sessions)[r].value.meta) ==>
                && r < |sessions|
                && (sessions[r].Some? ==> Deleted(sessions[r].value.meta)
                                          && Registered(sessions[r].value.meta) == Registered(old(sessions)[r].value.meta))
                && (forall k :: |old(publishes)| <= k < |publishes| ==> publishes[k] != r)
      ensures forall r :: r in old(retired) && r < |sessions| && sessions[r].Some? ==>
                Deleted(sessions[r].value.meta) && Registered(sessions[r].value.meta) == old(retired)[r].registered
      ensures forall r, k :: r in old(retired) && old(retired)[r].at <= k < |publishes| ==> publishes[k] != r
      ensures forall owner :: OwnerStored(sessions, owner) <= OwnerBytes(sessions, owner) <= maxOwnerBytes
      ensures Explains(trace, |old(trace)|, old(sessions), old(files), sessions, files, retired, sha)
    {
      for n := 0 to |events|
        invariant Valid() && Accounted() && Remembers()
        invariant |trace| == |old(trace)| + n && trace[..|old(trace)|] == old(trace)
        invariant forall k :: 0 <= k < n ==> trace[|old(trace)| + k].event == events[k]
        invariant Explains(trace, |old(trace)|, old(sessions), old(files), sessions, files, retired, sha)
      {
        ghost var s1, f1, r1, t1, tr := sessions, files, retired, tasks, trace;
        ghost var m := Dispatch(events[n]);
        ExplainsMore(tr, |old(trace)|, old(sessions), old(files), s1, f1, r1, sessions, files, retired, m, sha);
      }
      RetirementSticks();
      QuotaKnown();
    }

    twostate predicate Remembers()
      reads `retired, `publishes
    {
      && old(publishes) <= publishes
      && forall r :: r in old(retired) ==> r in retired && retired[r] == old(retired)[r]
    }
  }
}
