/** Data, chunk arithmetic and invariants of resumable uploads. */
module UploadModel {
  import opened Values

  type Id = nat
  type Parts = map<nat, Bytes>

  const ABSOLUTE_CHUNK_BYTES := 95 * 1024 * 1024

  datatype Chunk = Chunk(size: nat, digest: string)

  datatype Receipt = Receipt(storedName: string, digest: Option<string>, registered: bool, reclaimed: bool, deleted: bool)

  datatype Meta = Meta(owner: string, size: nat, chunkBytes: nat, totalChunks: nat, received: map<nat, Chunk>,
                       completion: Option<Receipt>)

  /** A session directory: session.json and the part files beside it. */
  datatype Session = Session(meta: Meta, parts: Parts)

  // ------------------------------------------------------ chunk arithmetic

  /** Math.ceil(size / chunkBytes). */
  function TotalChunks(size: nat, chunkBytes: nat): nat
    requires chunkBytes > 0
  {
    (size + chunkBytes - 1) / chunkBytes
  }

  function Expected(m: Meta, index: int): int {
    if index == m.totalChunks - 1 then m.size - index * m.chunkBytes else m.chunkBytes
  }

  predicate Sized(m: Meta) {
    m.chunkBytes > 0 && m.size > 0 && m.totalChunks == TotalChunks(m.size, m.chunkBytes)
  }

  function ExpectedSum(m: Meta, n: nat): int {
    if n == 0 then 0 else ExpectedSum(m, n - 1) + Expected(m, n - 1)
  }

  lemma CeilingBounds(size: nat, chunkBytes: nat)
    requires chunkBytes > 0 && size > 0
    ensures var n := TotalChunks(size, chunkBytes); n >= 1 && (n - 1) * chunkBytes < size <= n * chunkBytes
  {
    var n := TotalChunks(size, chunkBytes);
    var r := (size + chunkBytes - 1) % chunkBytes;
    assert size + chunkBytes - 1 == n * chunkBytes + r;
    assert (n - 1) * chunkBytes == n * chunkBytes - chunkBytes;
  }

  lemma {:induction false} PrefixSum(m: Meta, n: nat)
    requires n < m.totalChunks
    ensures ExpectedSum(m, n) == n * m.chunkBytes
  {
    if n > 0 {
      PrefixSum(m, n - 1);
      assert n * m.chunkBytes == (n - 1) * m.chunkBytes + m.chunkBytes;
    }
  }

  /** The chunk lengths the store demands add up to the file, and the last is a real chunk. */
  lemma ChunksCoverFile(m: Meta)
    requires Sized(m)
    ensures ExpectedSum(m, m.totalChunks) == m.size
    ensures m.totalChunks >= 1 && 1 <= Expected(m, m.totalChunks - 1) <= m.chunkBytes
    ensures forall i :: 0 <= i < m.totalChunks ==> 1 <= Expected(m, i) <= m.chunkBytes
  {
    CeilingBounds(m.size, m.chunkBytes);
    PrefixSum(m, m.totalChunks - 1);
    assert m.totalChunks * m.chunkBytes == (m.totalChunks - 1) * m.chunkBytes + m.chunkBytes;
  }

  /** Part contents in index order. */
  function Concat(parts: Parts, n: nat): Bytes
    requires forall i :: 0 <= i < n ==> i in parts
  {
    if n == 0 then [] else Concat(parts, n - 1) + parts[n - 1]
  }

  lemma {:induction false} ConcatLength(m: Meta, parts: Parts, n: nat)
    requires forall i :: 0 <= i < n ==> i in parts && |parts[i]| == Expected(m, i)
    ensures |Concat(parts, n)| == ExpectedSum(m, n)
  {
    if n > 0 { ConcatLength(m, parts, n - 1); }
  }

  // ------------------------------------------------------------ session state

  predicate HasDigest(m: Meta) { m.completion.Some? && m.completion.value.digest.Some? }
  predicate Registered(m: Meta) { m.completion.Some? && m.completion.value.registered }
  predicate Deleted(m: Meta) { m.completion.Some? && m.completion.value.deleted }
  predicate Reclaimed(m: Meta) { m.completion.Some? && m.completion.value.reclaimed }

  /** Counted against nobody's quota any more. */
  predicate Released(m: Meta) { (Registered(m) || Deleted(m)) && Reclaimed(m) }

  predicate Complete(m: Meta) {
    forall i :: 0 <= i < m.totalChunks ==> i in m.received
  }

  ghost predicate SessionOk(s: Session, accepted: Parts, sha: Bytes -> string) {
    var m := s.meta;
    && Sized(m) && accepted.Keys == m.received.Keys
    && (forall i :: i in m.received ==>
          && i < m.totalChunks
          && |accepted[i]| == Expected(m, i) == m.received[i].size && sha(accepted[i]) == m.received[i].digest)
    && (forall i :: i in m.received && i in s.parts ==> s.parts[i] == accepted[i])
    && (!Registered(m) && !Deleted(m) ==> forall i :: i in m.received ==> i in s.parts)
    && (HasDigest(m) ==> Complete(m))
    && (Registered(m) || Deleted(m) ==> HasDigest(m))
    && (forall i :: i in s.parts ==> i < m.totalChunks && |s.parts[i]| == Expected(m, i))
    && (Reclaimed(m) ==> (Registered(m) || Deleted(m)) && s.parts == map[])
  }

  function Below(n: nat): (r: set<nat>)
    ensures |r| == n && forall i: nat :: i in r <==> i < n
  {
    if n == 0 then {} else Below(n - 1) + {n - 1}
  }

  /** As many chunks recorded as there are means every single one. */
  lemma CompleteByCount(s: Session, accepted: Parts, sha: Bytes -> string)
    requires SessionOk(s, accepted, sha)
    ensures |s.meta.received| == s.meta.totalChunks <==> Complete(s.meta)
  {
    var keys, all := s.meta.received.Keys, Below(s.meta.totalChunks);
    assert keys <= all && |keys| == |s.meta.received|;
    if |keys| == |all| {
      SubsetOfSameSize(keys, all);
      assert forall i :: 0 <= i < s.meta.totalChunks ==> i in all;
    }
    if Complete(s.meta) { assert all <= keys && keys == all; }
  }

  lemma SubsetOfSameSize(a: set<nat>, b: set<nat>)
    requires a <= b && |a| == |b|
    ensures a == b
  {
    assert |b - a| == |b| - |a|;
  }

  /** What an assemble's in-memory copy may differ from the file by: a retirement. */
  predicate Trails(stale: Meta, m: Meta) {
    || m == stale
    || (&& Deleted(m) && stale.completion.Some?
        && m == stale.(completion := Some(stale.completion.value.(deleted := true,
                                                                  reclaimed := m.completion.value.reclaimed))))
  }

  // ------------------------------------------------------------------- tasks

  datatype Request = Put(owner: string, index: int, contentLength: int, digest: Option<string>)
                   | Assemble(owner: string, digest: Option<string>, destination: string)
                   | Cancel(owner: string)

  /** Where a task is suspended; what it holds in memory travels with it. */
  datatype Work = Waiting(request: Request)
                | Putting(stale: Meta, index: nat, digest: string)
                | Replaying(stale: Meta, digest: string)
                | Reading(stale: Meta, digest: string, next: nat, out: Bytes)
                | Registering(stale: Meta)
                | Discarding(name: string)
                | Settled(ok: bool)

  datatype Task = Task(session: Id, prior: Option<nat>, work: Work)

  predicate Running(t: Task) { !t.work.Waiting? && !t.work.Settled? }

  ghost predicate WorkOk(w: Work, m: Meta, accepted: Parts) {
    match w
    case Waiting(_) => true
    case Settled(_) => true
    case Discarding(_) => true
    case Putting(stale, index, _) => m == stale && index < m.totalChunks && index !in m.received
    case Replaying(stale, _) => !Deleted(stale) && Trails(stale, m) && HasDigest(stale)
    case Reading(stale, _, next, out) =>
      && !Deleted(stale) && Trails(stale, m) && stale.completion.Some? && !Registered(stale)
      && Complete(stale) && next <= stale.totalChunks
      && (forall i :: 0 <= i < next ==> i in accepted) && out == Concat(accepted, next)
    case Registering(stale) => !Deleted(stale) && Trails(stale, m) && HasDigest(stale)
  }

  // ------------------------------------------------------------------- locks

  /** The per-session promise chain. */
  ghost predicate ChainOk(tasks: seq<Task>, locks: map<Id, nat>) {
    && (forall s :: s in locks ==> locks[s] < |tasks| && tasks[locks[s]].session == s)
    && (forall s, a :: s in locks && 0 <= a < |tasks| && tasks[a].session == s ==> a <= locks[s])
    && (forall a :: 0 <= a < |tasks| && tasks[a].session !in locks ==> tasks[a].work.Settled?)
    && (forall b :: 0 <= b < |tasks| ==> LinkOk(tasks, b))
  }

  ghost predicate LinkOk(tasks: seq<Task>, b: nat)
    requires b < |tasks|
  {
    match tasks[b].prior
    case None => forall a :: 0 <= a < b && tasks[a].session == tasks[b].session ==> tasks[a].work.Settled?
    case Some(p) =>
      && p < b && tasks[p].session == tasks[b].session
      && (forall a :: 0 <= a < b && tasks[a].session == tasks[b].session ==> a <= p)
      && (!tasks[b].work.Waiting? ==> tasks[p].work.Settled?)
  }

  /** Unsettled, and if not started then next in line. */
  predicate MayAct(tasks: seq<Task>, t: nat)
    requires t < |tasks|
  {
    && !tasks[t].work.Settled?
    && (tasks[t].work.Waiting? && tasks[t].prior.Some? ==>
          tasks[t].prior.value < |tasks| && tasks[tasks[t].prior.value].work.Settled?)
  }

  /** One at a time, in acceptance order: whoever started finds everyone accepted before
      it on the same session settled. */
  lemma {:induction false} AcceptedOrder(tasks: seq<Task>, locks: map<Id, nat>, a: nat, b: nat)
    requires ChainOk(tasks, locks) && a < b < |tasks| && tasks[a].session == tasks[b].session
    requires !tasks[b].work.Waiting?
    ensures tasks[a].work.Settled?
    decreases b
  {
    assert LinkOk(tasks, b);
    if tasks[b].prior.Some? && a != tasks[b].prior.value {
      AcceptedOrder(tasks, locks, a, tasks[b].prior.value);
    }
  }

  lemma OneRunning(tasks: seq<Task>, locks: map<Id, nat>, a: nat, b: nat)
    requires ChainOk(tasks, locks) && a < |tasks| && b < |tasks| && tasks[a].session == tasks[b].session
    requires Running(tasks[a]) && Running(tasks[b])
    ensures a == b
  {
    if a < b { AcceptedOrder(tasks, locks, a, b); }
    if b < a { AcceptedOrder(tasks, locks, b, a); }
  }

  // ------------------------------------------------------------------- quota

  function Held(s: Option<Session>, owner: string): nat {
    if s.Some? && s.value.meta.owner == owner && !Released(s.value.meta) then s.value.meta.size else 0
  }

  function OwnerBytes(sessions: seq<Option<Session>>, owner: string): nat {
    if sessions == [] then 0
    else OwnerBytes(sessions[..|sessions| - 1], owner) + Held(sessions[|sessions| - 1], owner)
  }

  lemma {:induction false} OwnerBytesUpdate(sessions: seq<Option<Session>>, id: nat, s: Option<Session>, owner: string)
    requires id < |sessions|
    ensures OwnerBytes(sessions[id := s], owner) == OwnerBytes(sessions, owner) - Held(sessions[id], owner) + Held(s, owner)
  {
    var last := |sessions| - 1;
    if id == last {
      assert sessions[id := s][..last] == sessions[..last];
    } else {
      OwnerBytesUpdate(sessions[..last], id, s, owner);
      assert sessions[id := s][..last] == sessions[..last][id := s];
    }
  }

  /** Bytes in the part files below an index. */
  function PartBytes(parts: Parts, n: nat): nat {
    if n == 0 then 0 else PartBytes(parts, n - 1) + if n - 1 in parts then |parts[n - 1]| else 0
  }

  lemma {:induction false} PartBytesBound(s: Session, accepted: Parts, sha: Bytes -> string, n: nat)
    requires SessionOk(s, accepted, sha) && n <= s.meta.totalChunks
    ensures PartBytes(s.parts, n) <= ExpectedSum(s.meta, n)
  {
    if n > 0 {
      PartBytesBound(s, accepted, sha, n - 1);
      ChunksCoverFile(s.meta);
    }
  }

  lemma {:induction false} NoPartBytes(n: nat)
    ensures PartBytes(map[], n) == 0
  {
    if n > 0 { NoPartBytes(n - 1); }
  }

  function StoredBytes(s: Option<Session>, owner: string): nat {
    if s.Some? && s.value.meta.owner == owner then PartBytes(s.value.parts, s.value.meta.totalChunks) else 0
  }

  function OwnerStored(sessions: seq<Option<Session>>, owner: string): nat {
    if sessions == [] then 0
    else OwnerStored(sessions[..|sessions| - 1], owner) + StoredBytes(sessions[|sessions| - 1], owner)
  }

  /** What a session counts for covers the part files it has on disk; one that counts for
      nothing any more has none. */
  lemma StoredIsHeld(s: Session, accepted: Parts, sha: Bytes -> string, owner: string)
    requires SessionOk(s, accepted, sha)
    ensures StoredBytes(Some(s), owner) <= Held(Some(s), owner)
  {
    if Released(s.meta) {
      NoPartBytes(s.meta.totalChunks);
    } else {
      PartBytesBound(s, accepted, sha, s.meta.totalChunks);
      ChunksCoverFile(s.meta);
    }
  }

  /** So the quota bounds what an owner's part files take on disk. */
  lemma {:induction false} OwnerStoredBound(sessions: seq<Option<Session>>, accepted: seq<Parts>, sha: Bytes -> string, owner: string)
    requires |accepted| == |sessions|
    requires forall id :: 0 <= id < |sessions| && sessions[id].Some? ==> SessionOk(sessions[id].value, accepted[id], sha)
    ensures OwnerStored(sessions, owner) <= OwnerBytes(sessions, owner)
  {
    if sessions != [] {
      var last := |sessions| - 1;
      OwnerStoredBound(sessions[..last], accepted[..last], sha, owner);
      if sessions[last].Some? { StoredIsHeld(sessions[last].value, accepted[last], sha, owner); }
    }
  }

  // ------------------------------------------------------------- whole state

  /** The moment of a retirement: how many files had been published, and whether the
      upload counted as registered. */
  datatype Retirement = Retirement(at: nat, registered: bool)

  datatype State = State(sessions: seq<Option<Session>>, accepted: seq<Parts>, tasks: seq<Task>, locks: map<Id, nat>,
                         retired: map<Id, Retirement>, publishes: seq<Id>)

  ghost predicate TaskOk(t: Task, sessions: seq<Option<Session>>, accepted: seq<Parts>)
    requires |accepted| == |sessions|
  {
    Running(t) ==>
      && t.session < |sessions| && sessions[t.session].Some?
      && WorkOk(t.work, sessions[t.session].value.meta, accepted[t.session])
  }

  /** A deletion sticks: neither its mark nor the registration mark moves again, and the
      session publishes nothing more. */
  ghost predicate StaysRetired(s: Option<Session>, id: Id, r: Retirement, publishes: seq<Id>) {
    && r.at <= |publishes|
    && (s.Some? ==> Deleted(s.value.meta) && Registered(s.value.meta) == r.registered)
    && (forall k :: r.at <= k < |publishes| ==> publishes[k] != id)
  }

  /** What holds at every moment, all at once. */
  ghost predicate Consistent(st: State, sha: Bytes -> string, quota: nat) {
    && |st.accepted| == |st.sessions|
    && (forall id :: 0 <= id < |st.sessions| && st.sessions[id].Some? ==>
          SessionOk(st.sessions[id].value, st.accepted[id], sha))
    && ChainOk(st.tasks, st.locks)
    && (forall t :: 0 <= t < |st.tasks| ==> TaskOk(st.tasks[t], st.sessions, st.accepted))
    && (forall owner :: OwnerBytes(st.sessions, owner) <= quota)
    && (forall id :: id in st.retired ==>
          id < |st.sessions| && StaysRetired(st.sessions[id], id, st.retired[id], st.publishes))
    && (forall id :: 0 <= id < |st.sessions| ==> MarkKnown(st.sessions[id], id, st.retired))
  }

  /** The same, session by session: what only carries the invariant along carries one fact,
      and `ValidIff` opens it. */
  ghost predicate ValidState(st: State, sha: Bytes -> string, quota: nat) {
    |st.accepted| == |st.sessions| && ValidUpTo(st, |st.sessions|, sha, quota)
  }

  ghost predicate ValidUpTo(st: State, n: nat, sha: Bytes -> string, quota: nat)
    requires n <= |st.sessions| == |st.accepted|
  {
    if n == 0 then
      && ChainOk(st.tasks, st.locks)
      && (forall t :: 0 <= t < |st.tasks| ==> TaskOk(st.tasks[t], st.sessions, st.accepted))
      && (forall owner :: OwnerBytes(st.sessions, owner) <= quota)
      && (forall id :: id in st.retired ==>
            id < |st.sessions| && StaysRetired(st.sessions[id], id, st.retired[id], st.publishes))
    else
      && ValidUpTo(st, n - 1, sha, quota)
      && (st.sessions[n - 1].Some? ==> SessionOk(st.sessions[n - 1].value, st.accepted[n - 1], sha))
      && MarkKnown(st.sessions[n - 1], n - 1, st.retired)
  }

  lemma {:induction false} ValidUpToIff(st: State, n: nat, sha: Bytes -> string, quota: nat)
    requires n <= |st.sessions| == |st.accepted|
    ensures ValidUpTo(st, n, sha, quota) <==>
              && ValidUpTo(st, 0, sha, quota)
              && (forall id :: 0 <= id < n && st.sessions[id].Some? ==>
                    SessionOk(st.sessions[id].value, st.accepted[id], sha))
              && (forall id :: 0 <= id < n ==> MarkKnown(st.sessions[id], id, st.retired))
  {
    if n > 0 { ValidUpToIff(st, n - 1, sha, quota); }
  }

  lemma ValidIff(st: State, sha: Bytes -> string, quota: nat)
    ensures ValidState(st, sha, quota) <==> Consistent(st, sha, quota)
  {
    if |st.accepted| == |st.sessions| { ValidUpToIff(st, |st.sessions|, sha, quota); }
  }

  /** A session that is marked deleted has been retired, however its retirement ended. */
  predicate MarkKnown(s: Option<Session>, id: Id, retired: map<Id, Retirement>) {
    s.Some? && Deleted(s.value.meta) ==> id in retired
  }

  lemma ChainStep(tasks: seq<Task>, locks: map<Id, nat>, t: nat, work: Work)
    requires ChainOk(tasks, locks) && t < |tasks| && MayAct(tasks, t) && !work.Waiting?
    ensures ChainOk(tasks[t := tasks[t].(work := work)], locks)
  {
    var next := tasks[t := tasks[t].(work := work)];
    forall b | 0 <= b < |next|
      ensures LinkOk(next, b)
    {
      assert LinkOk(tasks, b);
    }
  }

  lemma ChainAppend(tasks: seq<Task>, locks: map<Id, nat>, id: Id, request: Request)
    requires ChainOk(tasks, locks)
    ensures ChainOk(tasks + [Task(id, if id in locks then Some(locks[id]) else None, Waiting(request))],
                    locks[id := |tasks|])
  {
    var next := tasks + [Task(id, if id in locks then Some(locks[id]) else None, Waiting(request))];
    forall b | 0 <= b < |next|
      ensures LinkOk(next, b)
    {
      if b < |tasks| { assert LinkOk(tasks, b); }
    }
  }

  lemma ChainRelease(tasks: seq<Task>, locks: map<Id, nat>, t: nat)
    requires ChainOk(tasks, locks) && t < |tasks| && tasks[t].work.Settled?
    requires tasks[t].session in locks && locks[tasks[t].session] == t
    ensures ChainOk(tasks, locks - {tasks[t].session})
  {
    forall a | 0 <= a < |tasks| && tasks[a].session == tasks[t].session
      ensures tasks[a].work.Settled?
    {
      if a < t { AcceptedOrder(tasks, locks, a, t); }
    }
  }

  /** One synchronous stretch of task t on its session, or none of them when t is None:
      everything else stays as it was. */
  lemma SessionStep(st: State, next: State, id: Id, sha: Bytes -> string, quota: nat)
    requires ValidState(st, sha, quota) && id < |st.sessions| && id < |st.accepted|
    requires |next.sessions| == |st.sessions| && |next.accepted| == |st.accepted|
    requires next.sessions == st.sessions[id := next.sessions[id]] && next.accepted == st.accepted[id := next.accepted[id]]
    requires next.sessions[id].Some? ==> SessionOk(next.sessions[id].value, next.accepted[id], sha)
    requires forall owner :: Held(next.sessions[id], owner) <= Held(st.sessions[id], owner)
    requires ChainOk(next.tasks, next.locks) && |next.tasks| == |st.tasks|
    requires forall t :: 0 <= t < |st.tasks| ==>
               if st.tasks[t].session == id then TaskOk(next.tasks[t], next.sessions, next.accepted)
               else next.tasks[t] == st.tasks[t]
    requires st.retired.Keys <= next.retired.Keys <= st.retired.Keys + {id}
    requires next.publishes == st.publishes && forall r :: r in st.retired && r != id ==> next.retired[r] == st.retired[r]
    requires id in next.retired ==> StaysRetired(next.sessions[id], id, next.retired[id], next.publishes)
    requires MarkKnown(next.sessions[id], id, next.retired)
    ensures ValidState(next, sha, quota)
  {
    ValidIff(st, sha, quota);
    forall owner
      ensures OwnerBytes(next.sessions, owner) <= quota
    {
      OwnerBytesUpdate(st.sessions, id, next.sessions[id], owner);
    }
    forall t | 0 <= t < |next.tasks|
      ensures TaskOk(next.tasks[t], next.sessions, next.accepted)
    {
      assert TaskOk(st.tasks[t], st.sessions, st.accepted);
    }
    ValidIff(next, sha, quota);
  }

  /** A stretch of the running task t: it may rewrite its own session and its own state. */
  lemma TaskStep(st: State, t: nat, s: Option<Session>, acc: Parts, work: Work, sha: Bytes -> string, quota: nat)
    requires ValidState(st, sha, quota) && t < |st.tasks| && MayAct(st.tasks, t) && !work.Waiting?
    requires var id := st.tasks[t].session;
             && id < |st.sessions|
             && (s.Some? ==> SessionOk(s.value, acc, sha))
             && (forall owner :: Held(s, owner) <= Held(st.sessions[id], owner))
             && (id in st.retired ==> StaysRetired(s, id, st.retired[id], st.publishes)) && MarkKnown(s, id, st.retired)
             && (Running(Task(id, None, work)) ==> s.Some? && WorkOk(work, s.value.meta, acc))
    ensures var id := st.tasks[t].session;
            ValidState(st.(sessions := st.sessions[id := s], accepted := st.accepted[id := acc],
                           tasks := st.tasks[t := st.tasks[t].(work := work)]), sha, quota)
  {
    var id := st.tasks[t].session;
    var next := st.(sessions := st.sessions[id := s], accepted := st.accepted[id := acc],
                    tasks := st.tasks[t := st.tasks[t].(work := work)]);
    ValidIff(st, sha, quota);
    ChainStep(st.tasks, st.locks, t, work);
    forall u | 0 <= u < |st.tasks| && st.tasks[u].session == id
      ensures TaskOk(next.tasks[u], next.sessions, next.accepted)
    {
      OnlyOneActs(st.tasks, st.locks, t, u);
    }
    SessionStep(st, next, id, sha, quota);
  }

  /** Whoever may act on a session is alone on it. */
  lemma OnlyOneActs(tasks: seq<Task>, locks: map<Id, nat>, t: nat, u: nat)
    requires ChainOk(tasks, locks) && t < |tasks| && u < |tasks| && tasks[t].session == tasks[u].session
    requires MayAct(tasks, t)
    ensures u != t ==> !Running(tasks[u])
  {
    if u != t && Running(tasks[u]) {
      ChainStep(tasks, locks, t, Discarding(""));
      OneRunning(tasks[t := tasks[t].(work := Discarding(""))], locks, t, u);
    }
  }

  lemma FreshSession(m: Meta, sha: Bytes -> string)
    requires Sized(m) && m.received == map[] && m.completion == None
    ensures SessionOk(Session(m, map[]), map[], sha)
  {
    ChunksCoverFile(m);
  }

  /** A new, empty session of a size the owner's quota still has room for. */
  lemma CreateStep(st: State, m: Meta, sha: Bytes -> string, quota: nat)
    requires ValidState(st, sha, quota) && Sized(m) && m.received == map[] && m.completion == None
    requires OwnerBytes(st.sessions, m.owner) + m.size <= quota
    ensures ValidState(st.(sessions := st.sessions + [Some(Session(m, map[]))], accepted := st.accepted + [map[]]), sha, quota)
  {
    var next := st.(sessions := st.sessions + [Some(Session(m, map[]))], accepted := st.accepted + [map[]]);
    ValidIff(st, sha, quota);
    FreshSession(m, sha);
    QuotaAppend(st.sessions, Session(m, map[]), quota);
    forall t | 0 <= t < |next.tasks|
      ensures TaskOk(next.tasks[t], next.sessions, next.accepted)
    {
      assert TaskOk(st.tasks[t], st.sessions, st.accepted);
    }
    ValidIff(next, sha, quota);
  }

  lemma QuotaAppend(sessions: seq<Option<Session>>, s: Session, quota: nat)
    requires forall owner :: OwnerBytes(sessions, owner) <= quota
    requires OwnerBytes(sessions, s.meta.owner) + s.meta.size <= quota
    ensures forall owner :: OwnerBytes(sessions + [Some(s)], owner) <= quota
  {
    forall owner
      ensures OwnerBytes(sessions + [Some(s)], owner) <= quota
    {
      assert (sessions + [Some(s)])[..|sessions|] == sessions;
    }
  }

  /** A new task behind the latest one of its session. */
  lemma AcceptStep(st: State, id: Id, request: Request, sha: Bytes -> string, quota: nat)
    requires ValidState(st, sha, quota)
    ensures var t := Task(id, if id in st.locks then Some(st.locks[id]) else None, Waiting(request));
            ValidState(st.(tasks := st.tasks + [t], locks := st.locks[id := |st.tasks|]), sha, quota)
  {
    ValidIff(st, sha, quota);
    ChainAppend(st.tasks, st.locks, id, request);
    ValidIff(st.(tasks := st.tasks + [Task(id, if id in st.locks then Some(st.locks[id]) else None, Waiting(request))],
                locks := st.locks[id := |st.tasks|]), sha, quota);
  }

  /** A task moves on without touching its session. */
  lemma MoveStep(st: State, t: nat, work: Work, sha: Bytes -> string, quota: nat)
    requires ValidState(st, sha, quota) && t < |st.tasks| && MayAct(st.tasks, t) && !work.Waiting?
    requires TaskOk(Task(st.tasks[t].session, None, work), st.sessions, st.accepted)
    ensures ValidState(st.(tasks := st.tasks[t := st.tasks[t].(work := work)]), sha, quota)
  {
    ValidIff(st, sha, quota);
    ChainStep(st.tasks, st.locks, t, work);
    ValidIff(st.(tasks := st.tasks[t := st.tasks[t].(work := work)]), sha, quota);
  }

  lemma ReleaseStep(st: State, t: nat, sha: Bytes -> string, quota: nat)
    requires ValidState(st, sha, quota) && t < |st.tasks| && st.tasks[t].work.Settled?
    requires st.tasks[t].session in st.locks && st.locks[st.tasks[t].session] == t
    ensures ValidState(st.(locks := st.locks - {st.tasks[t].session}), sha, quota)
  {
    ValidIff(st, sha, quota);
    ChainRelease(st.tasks, st.locks, t);
    ValidIff(st.(locks := st.locks - {st.tasks[t].session}), sha, quota);
  }

  lemma RestartStep(st: State, sha: Bytes -> string, quota: nat)
    requires ValidState(st, sha, quota)
    ensures ValidState(st.(tasks := [], locks := map[]), sha, quota)
  {
    ValidIff(st, sha, quota);
    ValidIff(st.(tasks := [], locks := map[]), sha, quota);
  }

  lemma PublishStep(st: State, id: Id, sha: Bytes -> string, quota: nat)
    requires ValidState(st, sha, quota) && id !in st.retired
    ensures ValidState(st.(publishes := st.publishes + [id]), sha, quota)
  {
    ValidIff(st, sha, quota);
    forall r | r in st.retired
      ensures StaysRetired(st.sessions[r], r, st.retired[r], st.publishes + [id])
    {
    }
    ValidIff(st.(publishes := st.publishes + [id]), sha, quota);
  }

  function WithPart(parts: Parts, index: nat, bytes: Bytes): Parts { parts[index := bytes] }

  function Recorded(m: Meta, index: nat, size: nat, digest: string): Meta {
    m.(received := m.received[index := Chunk(size, digest)])
  }

  lemma PartStored(s: Session, accepted: Parts, sha: Bytes -> string, index: nat, bytes: Bytes)
    requires SessionOk(s, accepted, sha) && index !in s.meta.received && index < s.meta.totalChunks
    requires |bytes| == Expected(s.meta, index)
    ensures SessionOk(s.(parts := WithPart(s.parts, index, bytes)), accepted, sha)
  {
  }

  lemma PartRecorded(s: Session, accepted: Parts, sha: Bytes -> string, index: nat, bytes: Bytes, digest: string)
    requires SessionOk(s, accepted, sha) && index !in s.meta.received && index < s.meta.totalChunks
    requires index in s.parts && s.parts[index] == bytes && |bytes| == Expected(s.meta, index) && sha(bytes) == digest
    ensures SessionOk(s.(meta := Recorded(s.meta, index, |bytes|, digest)), WithPart(accepted, index, bytes), sha)
  {
    var m := Recorded(s.meta, index, |bytes|, digest);
    assert WithPart(accepted, index, bytes).Keys == m.received.Keys;
  }

  lemma DigestRecorded(s: Session, m: Meta, accepted: Parts, sha: Bytes -> string, digest: string)
    requires SessionOk(s, accepted, sha) && Complete(s.meta) && s.meta.completion.Some?
    requires m == s.meta.(completion := Some(s.meta.completion.value.(digest := Some(digest))))
    ensures SessionOk(s.(meta := m), accepted, sha)
  {
  }

  /** A whole set of accepted chunks, put together in index order, is as long as the file. */
  lemma AssembledLength(s: Session, accepted: Parts, sha: Bytes -> string)
    requires SessionOk(s, accepted, sha) && Complete(s.meta)
    ensures |Concat(accepted, s.meta.totalChunks)| == s.meta.size
  {
    ConcatLength(s.meta, accepted, s.meta.totalChunks);
    ChunksCoverFile(s.meta);
  }

  /** The receipt only gains marks, and parts only go once it is registered. */
  ghost predicate ReceiptStep(s: Session, next: Session)
    requires s.meta.completion.Some?
  {
    var r := s.meta.completion.value;
    && next.parts.Keys <= s.parts.Keys && (forall i :: i in next.parts ==> next.parts[i] == s.parts[i])
    && next.meta.completion.Some? && next.meta.completion.value.registered
    && (r.reclaimed ==> next.meta.completion.value.reclaimed)
    && (next.meta.completion.value.reclaimed ==> next.parts == map[])
    && next.meta == s.meta.(completion := Some(r.(registered := true, reclaimed := next.meta.completion.value.reclaimed)))
  }

  lemma ReceiptKept(s: Session, next: Session, accepted: Parts, sha: Bytes -> string)
    requires SessionOk(s, accepted, sha) && HasDigest(s.meta) && ReceiptStep(s, next)
    ensures SessionOk(next, accepted, sha)
    ensures forall owner :: Held(Some(next), owner) <= Held(Some(s), owner)
  {
  }

  /** A fresh receipt claims nothing. */
  lemma ReceiptAdded(s: Session, next: Session, accepted: Parts, sha: Bytes -> string)
    requires SessionOk(s, accepted, sha) && next.parts == s.parts
    requires next.meta == s.meta || (s.meta.completion == None && next.meta == s.meta.(completion := next.meta.completion)
                                     && !HasDigest(next.meta) && !Registered(next.meta) && !Reclaimed(next.meta) && !Deleted(next.meta))
    ensures SessionOk(next, accepted, sha)
    ensures forall owner :: Held(Some(next), owner) <= Held(Some(s), owner)
  {
  }
}
