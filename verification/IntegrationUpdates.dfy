/** Firmware delivery to managed devices: claims are durable before a send, asynchronous
    writers overwrite each other's whole saved state, and no delivery is blindly repeated. */
module IntegrationUpdates {
  import opened Durability
  import opened Values

  type Device = string

  datatype Stage = Issued | Unconfirmed | Succeeded

  /** What a delivery is bound to. */
  datatype Claim = Claim(version: string, mac: string, generation: int)

  datatype Job = Job(stage: Stage, claim: Claim, startedAt: int)

  /** The one saved preference, always read and written whole. */
  datatype Saved = Saved(apollo: map<Device, Job>, attempts: map<string, string>)

  /** What a device last reported: whether it is the project and the board that firmware is made
      for, and `candidate`, a release newer than its own that it offers on the stable channel. */
  datatype Report = Report(online: bool, enabled: bool, project: bool, board: bool, mac: string, generation: int,
                           version: string, candidate: Option<string>)

  datatype Kind = Apollo | MusicAssistant

  /** Where an install is suspended, with the state it has read. */
  datatype Await = FirstIdle | Check | SecondIdle(saved: Saved, claim: Claim, seen: Report) | MusicIdle(saved: Saved)
                 | Sending(saved: Saved) | HostStart | Finished

  datatype Install = Install(kind: Kind, device: Device, version: string, automatic: bool, at: Await)

  const TEN_MINUTES := 600000

  function Key(i: Install): string {
    if i.kind.Apollo? then "apollo:" + i.device else "musicAssistant"
  }

  /** Attempts are remembered for each device apart, and for the music service apart from those. */
  lemma KeysApart(a: Install, b: Install)
    ensures Key(a) == Key(b) <==> a.kind == b.kind && (a.kind.Apollo? ==> a.device == b.device)
  {
    assert a.kind.Apollo? ==> Key(a)[0] == 'a' && Key(a)[7..] == a.device;
    assert b.kind.Apollo? ==> Key(b)[0] == 'a' && Key(b)[7..] == b.device;
  }

  // ------------------------------------------------------------- reconciling

  /** The device was online, with the claimed identity, running the claimed version. */
  predicate Fulfils(r: Report, c: Claim) {
    r.online && r.project && r.mac == c.mac && r.generation == c.generation && r.version == c.version
  }

  /** The device was online and managed, and offered the release. */
  predicate Offers(r: Report, version: string) {
    r.online && r.enabled && r.project && r.board && r.candidate == Some(version)
  }

  /** The claim is for a release the device offered, under the identity it reported. */
  predicate Binds(c: Claim, r: Report) {
    Offers(r, c.version) && c.mac == r.mac && c.generation == r.generation
  }

  predicate Confirms(j: Job, r: Option<Report>) {
    r.Some? && Fulfils(r.value, j.claim)
  }

  function Seen(devices: map<Device, Report>, id: Device): Option<Report> {
    if id in devices then Some(devices[id]) else None
  }

  function ReconcileJob(j: Job, r: Option<Report>, now: int): Job {
    if j.stage.Succeeded? then j
    else if Confirms(j, r) then j.(stage := Succeeded)
    else if j.stage.Issued? && now - j.startedAt >= TEN_MINUTES then j.(stage := Unconfirmed)
    else j
  }

  function Reconciled(apollo: map<Device, Job>, devices: map<Device, Report>, now: int): map<Device, Job> {
    map id | id in apollo :: ReconcileJob(apollo[id], Seen(devices, id), now)
  }

  // ----------------------------------------------------------------- history

  /** Each entry stands on a report. */
  datatype Entry = Claimed(id: Device, claim: Claim, seen: Report)
                 | Sent(id: Device, claim: Claim, seen: Report)
                 | Confirmed(id: Device, claim: Claim, seen: Report)

  /** Entry k is a confirmation of the claim, from a report that fulfils it. */
  predicate ConfirmedAt(log: seq<Entry>, k: nat, id: Device, claim: Claim) {
    k < |log| && log[k].Confirmed? && log[k].id == id && log[k].claim == claim && Fulfils(log[k].seen, claim)
  }

  ghost predicate ConfirmedAfter(log: seq<Entry>, i: nat, end: nat)
    requires i < |log| && end <= |log|
  {
    exists k :: i < k < end && ConfirmedAt(log, k, log[i].id, log[i].claim)
  }

  /** Between two claims of one device, a reconcile saw it run what the first one claimed. */
  ghost predicate ClaimsSeparated(log: seq<Entry>) {
    forall i, j :: 0 <= i < j < |log| && log[i].Claimed? && log[j].Claimed? && log[i].id == log[j].id ==>
      ConfirmedAfter(log, i, j)
  }

  /** A send comes right after its own durable claim. */
  ghost predicate SendsClaimed(log: seq<Entry>) {
    forall j :: 0 <= j < |log| && log[j].Sent? ==> j > 0 && log[j - 1] == Claimed(log[j].id, log[j].claim, log[j].seen)
  }

  /** `last` is each device's newest claim and `confirmed` the devices seen running it. */
  ghost predicate Follows(log: seq<Entry>, last: map<Device, Claim>, confirmed: set<Device>) {
    forall i :: 0 <= i < |log| && log[i].Claimed? ==>
      && log[i].id in last
      && (ConfirmedAfter(log, i, |log|) || (log[i].claim == last[log[i].id] && log[i].id !in confirmed))
  }

  /** A copy of the saved state, current or stale, never hides an open claim. */
  ghost predicate Tracks(apollo: map<Device, Job>, last: map<Device, Claim>, confirmed: set<Device>) {
    forall id :: id in last ==>
      id in apollo && apollo[id].claim == last[id] && (apollo[id].stage.Succeeded? ==> id in confirmed)
  }

  /** Every confirmation stands on a report that fulfils its claim, every claim and every send
      on one that offers its release. */
  ghost predicate WellFounded(log: seq<Entry>) {
    forall k :: 0 <= k < |log| ==>
      if log[k].Confirmed? then Fulfils(log[k].seen, log[k].claim) else Binds(log[k].claim, log[k].seen)
  }

  ghost predicate History(log: seq<Entry>, last: map<Device, Claim>, confirmed: set<Device>) {
    ClaimsSeparated(log) && SendsClaimed(log) && Follows(log, last, confirmed) && WellFounded(log)
  }

  lemma LaterConfirmed(log: seq<Entry>, e: Entry, i: nat, end: nat)
    requires i < |log| && end <= |log|
    ensures ConfirmedAfter(log, i, end) ==> ConfirmedAfter(log + [e], i, end) && ConfirmedAfter(log + [e], i, |log| + 1)
  {
    if ConfirmedAfter(log, i, end) {
      var k :| i < k < end && ConfirmedAt(log, k, log[i].id, log[i].claim);
      assert ConfirmedAt(log + [e], k, (log + [e])[i].id, (log + [e])[i].claim);
    }
  }

  lemma EarlierConfirmed(log: seq<Entry>, e: Entry)
    requires ClaimsSeparated(log)
    ensures forall i, j :: 0 <= i < j < |log| && log[i].Claimed? && log[j].Claimed? && log[i].id == log[j].id ==>
              ConfirmedAfter(log + [e], i, j)
  {
    forall i, j | 0 <= i < j < |log| && log[i].Claimed? && log[j].Claimed? && log[i].id == log[j].id
      ensures ConfirmedAfter(log + [e], i, j)
    {
      LaterConfirmed(log, e, i, j);
    }
  }

  /** A new claim is sound when the device has no open one. */
  lemma ClaimKeeps(log: seq<Entry>, last: map<Device, Claim>, confirmed: set<Device>, id: Device, c: Claim, r: Report)
    requires History(log, last, confirmed) && (id in last ==> id in confirmed) && Binds(c, r)
    ensures History(log + [Claimed(id, c, r)], last[id := c], confirmed - {id})
  {
    var e := Claimed(id, c, r);
    EarlierConfirmed(log, e);
    forall i | 0 <= i < |log| && log[i].Claimed?
      ensures ConfirmedAfter(log, i, |log|) ==> ConfirmedAfter(log + [e], i, |log|) && ConfirmedAfter(log + [e], i, |log| + 1)
    {
      LaterConfirmed(log, e, i, |log|);
    }
  }

  lemma SendKeeps(log: seq<Entry>, last: map<Device, Claim>, confirmed: set<Device>, id: Device, c: Claim, r: Report)
    requires History(log, last, confirmed) && log != [] && log[|log| - 1] == Claimed(id, c, r)
    ensures History(log + [Sent(id, c, r)], last, confirmed)
  {
    var e := Sent(id, c, r);
    EarlierConfirmed(log, e);
    forall i | 0 <= i < |log| && log[i].Claimed?
      ensures ConfirmedAfter(log, i, |log|) ==> ConfirmedAfter(log + [e], i, |log| + 1)
    {
      LaterConfirmed(log, e, i, |log|);
    }
  }

  lemma ConfirmKeeps(log: seq<Entry>, last: map<Device, Claim>, confirmed: set<Device>, id: Device, c: Claim, r: Report)
    requires History(log, last, confirmed) && (id in last ==> last[id] == c) && Fulfils(r, c)
    ensures History(log + [Confirmed(id, c, r)], last, confirmed + {id})
  {
    var e := Confirmed(id, c, r);
    EarlierConfirmed(log, e);
    forall i | 0 <= i < |log| && log[i].Claimed?
      ensures ConfirmedAfter(log + [e], i, |log| + 1) || (log[i].claim == last[log[i].id] && log[i].id !in confirmed + {id})
    {
      LaterConfirmed(log, e, i, |log|);
      if !ConfirmedAfter(log, i, |log|) && log[i].id == id {
        assert ConfirmedAt(log + [e], |log|, (log + [e])[i].id, (log + [e])[i].claim);
      }
    }
  }

  /** Never blindly re-sent. */
  lemma SendsSeparated(log: seq<Entry>, i: nat, j: nat)
    requires ClaimsSeparated(log) && SendsClaimed(log)
    requires i < j < |log| && log[i].Sent? && log[j].Sent? && log[i].id == log[j].id
    ensures ConfirmedAfter(log, i, j)
  {
    assert ConfirmedAfter(log, i - 1, j - 1);
    var k :| i - 1 < k < j - 1 && ConfirmedAt(log, k, log[i - 1].id, log[i - 1].claim);
    assert ConfirmedAt(log, k, log[i].id, log[i].claim) && k != i;
  }

  lemma ReconcileTracks(apollo: map<Device, Job>, devices: map<Device, Report>, now: int,
                        last: map<Device, Claim>, confirmed: set<Device>, more: set<Device>)
    requires Tracks(apollo, last, confirmed) && confirmed <= more
    requires forall id :: id in apollo && !apollo[id].stage.Succeeded? && Confirms(apollo[id], Seen(devices, id)) ==> id in more
    ensures Tracks(Reconciled(apollo, devices, now), last, more)
  {
  }

  class IntegrationUpdates {
    var stored: Saved                     // the durable preference
    var devices: map<Device, Report>      // as last observed
    var release: Option<string>           // catalogued firmware release
    var musicRelease: Option<string>
    var clock: int
    var canRun: bool
    var closed: bool
    var busy: bool
    var ticking: bool
    var hostRunning: bool
    var installs: seq<Install>            // calls of this process

    ghost var log: seq<Entry>
    ghost var last: map<Device, Claim>
    ghost var confirmed: set<Device>
    ghost var observed: set<(Device, Report)>   // every report so far
    ghost var served: seq<Event>                // every event so far

    ghost predicate InstallOk(i: Install)
      reads `last, `confirmed, `observed
    {
      match i.at
      case SecondIdle(saved, claim, seen) =>
        && Tracks(saved.apollo, last, confirmed) && (i.device in last ==> i.device in confirmed)
        && Binds(claim, seen) && (i.device, seen) in observed
      case MusicIdle(saved) => Tracks(saved.apollo, last, confirmed)
      case Sending(saved) => Tracks(saved.apollo, last, confirmed) && i.device in saved.apollo
      case _ => true
    }

    ghost predicate Valid()
      reads `stored, `devices, `busy, `installs, `log, `last, `confirmed, `observed
    {
      && History(log, last, confirmed) && Tracks(stored.apollo, last, confirmed)
      && (forall i :: 0 <= i < |installs| && installs[i].at != Finished ==> busy)
      && (forall i, j :: 0 <= i < j < |installs| ==> installs[i].at == Finished || installs[j].at == Finished)
      && (forall i :: 0 <= i < |installs| ==> InstallOk(installs[i]))
      && (forall id :: id in devices ==> (id, devices[id]) in observed)
      && (forall k :: 0 <= k < |log| ==> (log[k].id, log[k].seen) in observed)
    }

    constructor (stored: Saved)
      ensures Valid() && this.stored == stored && log == []
    {
      this.stored := stored;
      devices, release, musicRelease := map[], None, None;
      clock, canRun, closed, busy, ticking, hostRunning, installs := 0, true, false, false, false, false, [];
      log, last, confirmed, observed, served := [], map[], {}, {}, [];
    }

    predicate Active()
      reads `stored, `clock, `busy, `hostRunning
    {
      || busy || hostRunning
      || exists id :: id in stored.apollo && stored.apollo[id].stage.Issued? && clock - stored.apollo[id].startedAt < TEN_MINUTES
    }

    method SaveState(value: Saved) returns (o: Outcome)
      modifies `stored
      ensures o.Done? <==> canRun && !closed
      ensures stored == if o.Done? then value else old(stored)
    {
      if !canRun || closed { return Raised; }
      stored := value;
      return Done;
    }

    // ---------------------------------------------------------------- install

    method Begin(kind: Kind, device: Device, version: string, automatic: bool) returns (o: Outcome)
      requires Valid()
      modifies `busy, `installs
      ensures Valid()
      ensures o.Done? <==>
                && !old(busy) && !hostRunning && device !in {"__proto__", "constructor", "prototype"}
                && forall id :: id in stored.apollo && stored.apollo[id].stage.Issued? ==>
                     clock - stored.apollo[id].startedAt >= TEN_MINUTES
      ensures if o.Done? then busy && installs == old(installs) + [Install(kind, device, version, automatic, FirstIdle)]
              else installs == old(installs) && busy == old(busy)
    {
      if device in {"__proto__", "constructor", "prototype"} || Active() { return Raised; }
      busy := true;
      installs := installs + [Install(kind, device, version, automatic, FirstIdle)];
      return Done;
    }

    /** The call moves to its next await, or is over and lets the next one in. */
    method MoveTo(i: nat, at: Await)
      requires Valid() && i < |installs| && installs[i].at != Finished && InstallOk(installs[i].(at := at))
      modifies `busy, `installs
      ensures Valid() && installs == old(installs)[i := old(installs)[i].(at := at)]
      ensures busy == (old(busy) && !at.Finished?)
    {
      installs := installs[i := installs[i].(at := at)];
      if at.Finished? { busy := false; }
    }

    method ResumeFirstIdle(i: nat, idle: bool, current: bool)
      requires Valid() && i < |installs| && installs[i].at.FirstIdle?
      modifies `busy, `installs
      ensures Valid()
      ensures installs == old(installs)[i := old(installs)[i].(
                at := if !idle || !canRun || closed then Finished else if !current then Check else old(Decision(installs[i])))]
    {
      if !idle || !canRun || closed {
        MoveTo(i, Finished);
      } else if !current {
        MoveTo(i, Check);
      } else {
        ReadSaved(i);
      }
    }

    method ResumeCheck(i: nat, found: Option<string>, music: Option<string>)
      requires Valid() && i < |installs| && installs[i].at.Check?
      modifies `busy, `installs, `release, `musicRelease
      ensures Valid() && release == found && musicRelease == music
      ensures installs == old(installs)[i := old(installs)[i].(at := Decision(old(installs)[i]))]
    {
      release, musicRelease := found, music;
      ReadSaved(i);
    }

    /** An install may go on: no automatic repetition of an attempt, the release selected is the
        one in the catalogue, and a device offers it and has no open delivery. */
    predicate MayInstall(call: Install)
      reads `stored, `devices, `release, `musicRelease
    {
      && !(call.automatic && Key(call) in stored.attempts && stored.attempts[Key(call)] == call.version)
      && match call.kind
         case MusicAssistant => musicRelease == Some(call.version)
         case Apollo =>
           && release == Some(call.version)
           && call.device in devices && Offers(devices[call.device], call.version)
           && (call.device in stored.apollo ==> stored.apollo[call.device].stage.Succeeded?)
    }

    /** Where such an install waits next, with what it has read. */
    function Decision(call: Install): Await
      reads `stored, `devices, `release, `musicRelease
    {
      if !MayInstall(call) then Finished
      else if call.kind.MusicAssistant? then MusicIdle(stored)
      else
        var r := devices[call.device];
        SecondIdle(stored, Claim(call.version, r.mac, r.generation), r)
    }

    /** Read the saved state and decide; it may be stale by the time it is written back. */
    method ReadSaved(i: nat)
      requires Valid() && i < |installs| && (installs[i].at.FirstIdle? || installs[i].at.Check?)
      modifies `busy, `installs
      ensures Valid()
      ensures installs == old(installs)[i := old(installs)[i].(at := Decision(old(installs)[i]))]
    {
      var call, saved := installs[i], stored;
      if call.automatic && Key(call) in saved.attempts && saved.attempts[Key(call)] == call.version {
        MoveTo(i, Finished);
      } else if call.kind.MusicAssistant? {
        MoveTo(i, if musicRelease == Some(call.version) then MusicIdle(saved) else Finished);
      } else if release != Some(call.version) {
        MoveTo(i, Finished);
      } else if call.device !in devices || !devices[call.device].online || !devices[call.device].enabled
             || !devices[call.device].project || !devices[call.device].board
             || devices[call.device].candidate != Some(call.version) {
        MoveTo(i, Finished);
      } else if call.device in saved.apollo && !saved.apollo[call.device].stage.Succeeded? {
        MoveTo(i, Finished);
      } else {
        var r := devices[call.device];
        MoveTo(i, SecondIdle(saved, Claim(call.version, r.mac, r.generation), r));
      }
    }

    /** What a claim writes over the stored state: the state read before, with the new job. */
    function WithClaim(call: Install, saved: Saved, claim: Claim): Saved
      reads `clock
    {
      Saved(saved.apollo[call.device := Job(Issued, claim, clock)], saved.attempts[Key(call) := call.version])
    }

    /** The claim becomes durable, over whatever was stored since the state was read. */
    method StoreClaim(call: Install, saved: Saved, claim: Claim, ghost seen: Report)
      requires canRun && !closed && History(log, last, confirmed) && Binds(claim, seen)
      requires Tracks(saved.apollo, last, confirmed) && (call.device in last ==> call.device in confirmed)
      modifies `stored, `log, `last, `confirmed
      ensures stored == WithClaim(call, saved, claim) && log == old(log) + [Claimed(call.device, claim, seen)]
      ensures History(log, last, confirmed) && Tracks(stored.apollo, last, confirmed)
    {
      var o := SaveState(WithClaim(call, saved, claim));
      ClaimKeeps(log, last, confirmed, call.device, claim, seen);
      log := log + [Claimed(call.device, claim, seen)];
      last, confirmed := last[call.device := claim], confirmed - {call.device};
    }

    /** The claim of a waiting install becomes durable. */
    method ClaimDelivery(i: nat)
      requires Valid() && i < |installs| && installs[i].at.SecondIdle? && canRun && !closed
      modifies `stored, `log, `last, `confirmed, `installs
      ensures Valid()
      ensures var call := old(installs)[i];
              var SecondIdle(saved, claim, seen) := call.at;
              && stored == WithClaim(call, saved, claim) && log == old(log) + [Claimed(call.device, claim, seen)]
              && installs == old(installs)[i := call.(at := Sending(stored))]
    {
      var call := installs[i];
      var SecondIdle(saved, claim, seen) := call.at;
      assert InstallOk(call);
      StoreClaim(call, saved, claim, seen);
      installs := installs[i := call.(at := Sending(stored))];
    }

    /** The firmware goes out under the claim just made. */
    method Transmit(i: nat)
      requires Valid() && i < |installs| && log != [] && log[|log| - 1].Claimed?
      modifies `log
      ensures Valid()
      ensures var e := old(log)[|old(log)| - 1]; log == old(log) + [Sent(e.id, e.claim, e.seen)]
    {
      ghost var e := log[|log| - 1];
      SendKeeps(log, last, confirmed, e.id, e.claim, e.seen);
      log := log + [Sent(e.id, e.claim, e.seen)];
    }

    /** A delivery goes out under its own durable claim, unless the process dies between the two. */
    twostate predicate Delivers(i: nat)
      requires i < |old(installs)| && old(installs)[i].at.SecondIdle?
      reads `stored, `log, `installs, `clock
    {
      var call := old(installs)[i];
      var SecondIdle(saved, claim, seen) := call.at;
      && stored == WithClaim(call, saved, claim)
      && if installs == [] then log == old(log) + [Claimed(call.device, claim, seen)]
         else
           && log == old(log) + [Claimed(call.device, claim, seen), Sent(call.device, claim, seen)]
           && installs == old(installs)[i := call.(at := Sending(stored))]
    }

    method Deliver(i: nat)
      requires Valid() && i < |installs| && installs[i].at.SecondIdle? && canRun && !closed
      modifies `stored, `log, `last, `confirmed, `busy, `ticking, `hostRunning, `installs
      ensures Valid() && Delivers(i)
    {
      ClaimDelivery(i);
      if * { Restart(); } else { Transmit(i); }
    }

    /** Claim durably, then send, and do neither unless everything is idle. */
    method ResumeSecondIdle(i: nat, idle: bool)
      requires Valid() && i < |installs| && installs[i].at.SecondIdle?
      modifies `stored, `log, `last, `confirmed, `busy, `ticking, `hostRunning, `installs
      ensures Valid() && Extends()
      ensures if idle && canRun && !closed then Delivers(i)
              else log == old(log) && stored == old(stored) && installs == old(installs)[i := old(installs)[i].(at := Finished)]
    {
      if !idle || !canRun || closed { MoveTo(i, Finished); return; }
      Deliver(i);
    }

    /** A delivery that failed is uncertain; the state read before it overwrites the stored one. */
    method ResumeSending(i: nat, delivered: bool)
      requires Valid() && i < |installs| && installs[i].at.Sending?
      modifies `stored, `busy, `installs
      ensures Valid() && installs == old(installs)[i := old(installs)[i].(at := Finished)] && !busy
      ensures var id, saved := old(installs)[i].device, old(installs)[i].at.saved;
              if delivered || !canRun || closed then stored == old(stored)
              else && id in saved.apollo && stored.attempts == saved.attempts
                   && stored.apollo == saved.apollo[id := saved.apollo[id].(stage := Unconfirmed)]
    {
      var call := installs[i];
      var saved := call.at.saved;
      assert InstallOk(call);
      if !delivered {
        saved := saved.(apollo := saved.apollo[call.device := saved.apollo[call.device].(stage := Unconfirmed)]);
        var o := SaveState(saved);
      }
      MoveTo(i, Finished);
    }

    method ResumeMusicIdle(i: nat, idle: bool)
      requires Valid() && i < |installs| && installs[i].at.MusicIdle?
      modifies `stored, `busy, `installs
      ensures Valid()
      ensures var call, saved := old(installs)[i], old(installs)[i].at.saved;
              if !idle || !canRun || closed then stored == old(stored) && installs == old(installs)[i := call.(at := Finished)]
              else && stored == saved.(attempts := saved.attempts[Key(call) := call.version])
                   && installs == old(installs)[i := call.(at := HostStart)]
    {
      var call := installs[i];
      var saved := call.at.saved;
      assert InstallOk(call);
      if !idle || !canRun || closed { MoveTo(i, Finished); return; }
      var o := SaveState(saved.(attempts := saved.attempts[Key(call) := call.version]));
      MoveTo(i, HostStart);
    }

    method ResumeHostStart(i: nat, running: bool)
      requires Valid() && i < |installs| && installs[i].at.HostStart?
      modifies `busy, `installs, `hostRunning
      ensures Valid() && hostRunning == running && !busy
      ensures installs == old(installs)[i := old(installs)[i].(at := Finished)]
    {
      hostRunning := running;
      MoveTo(i, Finished);
    }

    // ------------------------------------------------------------- reconciling

    /** Judge one job against what its device last reported. */
    method ReconcileOne(id: Device, job: Job) returns (next: Job)
      requires History(log, last, confirmed) && (id in last ==> last[id] == job.claim)
      modifies `log, `confirmed
      ensures next == ReconcileJob(job, Seen(devices, id), clock)
      ensures History(log, last, confirmed)
      ensures if !job.stage.Succeeded? && Confirms(job, Seen(devices, id))
              then log == old(log) + [Confirmed(id, job.claim, devices[id])] && confirmed == old(confirmed) + {id}
              else log == old(log) && confirmed == old(confirmed)
    {
      next := job;
      if !job.stage.Succeeded? {
        if Confirms(job, Seen(devices, id)) {
          next := job.(stage := Succeeded);
          ConfirmKeeps(log, last, confirmed, id, job.claim, devices[id]);
          log := log + [Confirmed(id, job.claim, devices[id])];
          confirmed := confirmed + {id};
        } else if job.stage.Issued? && clock - job.startedAt >= TEN_MINUTES {
          next := job.(stage := Unconfirmed);
        }
      }
    }

    /** Entries added by a reconcile of a state are confirmations of its own open jobs. */
    twostate predicate OnlyConfirms(apollo: map<Device, Job>)
      reads `log, `devices
    {
      && |old(log)| <= |log| && log[..|old(log)|] == old(log)
      && forall k :: |old(log)| <= k < |log| ==>
           && log[k].Confirmed? && log[k].id in apollo && log[k].claim == apollo[log[k].id].claim
           && Seen(devices, log[k].id) == Some(log[k].seen) && Fulfils(log[k].seen, log[k].claim)
    }

    method ReconcileAll() returns (apollo: map<Device, Job>)
      requires History(log, last, confirmed) && Tracks(stored.apollo, last, confirmed)
      modifies `log, `confirmed
      ensures apollo == Reconciled(stored.apollo, devices, clock)
      ensures History(log, last, confirmed) && old(confirmed) <= confirmed && OnlyConfirms(stored.apollo)
      ensures forall id :: id in stored.apollo && !stored.apollo[id].stage.Succeeded? && Confirms(stored.apollo[id], Seen(devices, id)) ==> id in confirmed
    {
      apollo := stored.apollo;
      var left := stored.apollo.Keys;
      while left != {}
        invariant left <= stored.apollo.Keys && apollo.Keys == stored.apollo.Keys
        invariant forall id :: id in apollo ==>
                    apollo[id] == if id in left then stored.apollo[id] else ReconcileJob(stored.apollo[id], Seen(devices, id), clock)
        invariant History(log, last, confirmed) && old(confirmed) <= confirmed && OnlyConfirms(stored.apollo)
        invariant forall id :: id in stored.apollo && id !in left ==>
                    !stored.apollo[id].stage.Succeeded? && Confirms(stored.apollo[id], Seen(devices, id)) ==> id in confirmed
        decreases left
      {
        var id :| id in left;
        left := left - {id};
        var next := ReconcileOne(id, stored.apollo[id]);
        apollo := apollo[id := next];
      }
    }

    method Reconcile()
      requires Valid()
      modifies `stored, `log, `last, `confirmed
      ensures Valid()
      ensures stored == if canRun && !closed then old(stored).(apollo := Reconciled(old(stored).apollo, devices, clock)) else old(stored)
      ensures OnlyConfirms(old(stored).apollo)
    {
      if !canRun || closed { return; }
      var apollo := ReconcileAll();
      ReconcileTracks(stored.apollo, devices, clock, last, old(confirmed), confirmed);
      forall i | 0 <= i < |installs|
        ensures InstallOk(installs[i])
      {
        assert old(InstallOk(installs[i]));
      }
      if apollo != stored.apollo {
        var o := SaveState(stored.(apollo := apollo));
      }
    }

    method BeginTick()
      requires Valid()
      modifies `stored, `log, `last, `confirmed, `ticking
      ensures Valid() && OnlyConfirms(old(stored).apollo)
      ensures ticking == (old(ticking) || (canRun && !closed))
      ensures stored == if canRun && !closed && !old(ticking)
                        then old(stored).(apollo := Reconciled(old(stored).apollo, devices, clock)) else old(stored)
    {
      if !canRun || closed || ticking { return; }
      ticking := true;
      Reconcile();
    }

    /** A tick that escalates to service recovery rewrites the whole state once more. */
    method ClaimServiceRecovery() returns (o: Outcome)
      requires Valid() && ticking
      modifies `stored
      ensures Valid()
      ensures stored == if canRun && !closed then old(stored).(attempts := old(stored).attempts["serviceRecovery" := "claimed"])
                        else old(stored)
    {
      o := SaveState(stored.(attempts := stored.attempts["serviceRecovery" := "claimed"]));
    }

    method EndTick()
      requires Valid()
      modifies `ticking
      ensures Valid() && !ticking
    {
      ticking := false;
    }

    /** The process dies; only the preference survives. */
    method Restart()
      requires History(log, last, confirmed) && Tracks(stored.apollo, last, confirmed)
      requires forall id :: id in devices ==> (id, devices[id]) in observed
      requires forall k :: 0 <= k < |log| ==> (log[k].id, log[k].seen) in observed
      modifies `busy, `ticking, `hostRunning, `installs
      ensures Valid() && !busy && !ticking && !hostRunning && installs == []
    {
      busy, ticking, hostRunning, installs := false, false, false, [];
    }

    // ---------------------------------------------------------------- all runs

    /** The log only grows. */
    twostate predicate Extends()
      reads `log
    {
      |old(log)| <= |log| && log[..|old(log)|] == old(log)
    }

    /** A suspended call goes on, with whatever it was waiting for. */
    method ResumeInstall(i: nat, yes: bool, current: bool, found: Option<string>, music: Option<string>)
      requires Valid() && i < |installs|
      modifies `stored, `log, `last, `confirmed, `busy, `ticking, `hostRunning, `installs, `release, `musicRelease
      ensures Valid() && Extends()
      ensures installs == [] || (i < |installs| && installs == old(installs)[i := installs[i]] && (old(installs)[i].at.Finished? || installs[i] != old(installs)[i]))
    {
      match installs[i].at
      case FirstIdle => ResumeFirstIdle(i, yes, current);
      case Check => ResumeCheck(i, found, music);
      case SecondIdle(_, _, _) => ResumeSecondIdle(i, yes);
      case MusicIdle(_) => ResumeMusicIdle(i, yes);
      case Sending(_) => ResumeSending(i, yes);
      case HostStart => ResumeHostStart(i, yes);
      case Finished =>
    }

    /** What an event brings about. */
    twostate predicate Handled(e: Event)
      reads `stored, `devices, `clock, `canRun, `closed, `busy, `ticking, `installs
    {
      match e
      case Request(kind, device, version, automatic) =>
        installs == old(installs) + (if old(Active()) || device in {"__proto__", "constructor", "prototype"} then []
                                     else [Install(kind, device, version, automatic, FirstIdle)])
      case Resume(i, _, _, _, _) =>
        i < |old(installs)| && !old(installs)[i].at.Finished? ==> installs != old(installs)
      case Tick =>
        old(canRun) && !old(closed) && !old(ticking) ==>
          ticking && stored == old(stored).(apollo := Reconciled(old(stored).apollo, old(devices), old(clock)))
      case Observe(reports, now) => devices == reports && clock == now && stored == old(stored)
      case Pause(run, close) => canRun == run && closed == close && stored == old(stored)
      case TickOver => !ticking && stored == old(stored)
      case Escalate => stored.apollo == old(stored).apollo
      case Die => installs == [] && !busy && !ticking && stored == old(stored)
    }

    method Dispatch(e: Event)
      requires Valid()
      modifies this
      ensures Valid() && Extends() && Handled(e)
      ensures observed == old(observed) + (if e.Observe? then Reports(e.reports) else {})
      ensures served == old(served) + [e]
    {
      Serve(e);
      served := served + [e];
    }

    method Serve(e: Event)
      requires Valid()
      modifies `stored, `devices, `release, `musicRelease, `clock, `canRun, `closed, `busy, `ticking, `hostRunning, `installs,
               `log, `last, `confirmed, `observed
      ensures Valid() && Extends() && Handled(e)
      ensures observed == old(observed) + (if e.Observe? then Reports(e.reports) else {})
    {
      match e
      case Request(kind, device, version, automatic) => var o := Begin(kind, device, version, automatic);
      case Resume(i, yes, current, found, music) => if i < |installs| { ResumeInstall(i, yes, current, found, music); }
      case Observe(reports, now) => Look(reports, now);
      case _ => Maintain(e);
    }

    /** Ticks, pauses and deaths. */
    method Maintain(e: Event)
      requires Valid() && !e.Request? && !e.Resume? && !e.Observe?
      modifies `stored, `log, `last, `confirmed, `ticking, `canRun, `closed, `busy, `hostRunning, `installs
      ensures Valid() && Extends() && Handled(e)
    {
      match e
      case Tick => BeginTick();
      case Escalate => if ticking { var o := ClaimServiceRecovery(); }
      case TickOver => EndTick();
      case Pause(run, close) => canRun, closed := run, close;
      case Die => Restart();
      case _ =>
    }

    method Look(reports: map<Device, Report>, now: int)
      requires Valid()
      modifies `devices, `clock, `observed
      ensures Valid() && devices == reports && clock == now && observed == old(observed) + Reports(reports)
    {
      devices, clock := reports, now;
      observed := observed + Reports(reports);
      forall i | 0 <= i < |installs|
        ensures InstallOk(installs[i])
      {
        assert old(InstallOk(installs[i]));
      }
    }

    /** Every interleaving of installs, ticks, reconciles, overwrites and restarts: a send comes
        right after its durable claim, and went to a device that an observed report showed
        online, managed and offering the release, under the identity it reported; and two sends
        to one device always have, between them, a reconcile whose report, an observed one too,
        showed the device under the first send's claim, running what it sent. */
    method Run(events: seq<Event>)
      requires Valid()
      modifies this
      ensures Valid() && Extends()
      ensures forall j :: 0 <= j < |log| && log[j].Sent? ==>
                && j > 0 && log[j - 1] == Claimed(log[j].id, log[j].claim, log[j].seen)
                && log[j].seen.online && log[j].seen.enabled && log[j].seen.project && log[j].seen.board
                && log[j].seen.candidate == Some(log[j].claim.version)
                && log[j].claim.mac == log[j].seen.mac && log[j].claim.generation == log[j].seen.generation
      ensures forall i, j :: 0 <= i < j < |log| && log[i].Sent? && log[j].Sent? && log[i].id == log[j].id ==>
                exists k :: i < k < j && log[k].Confirmed? && log[k].id == log[i].id && log[k].claim == log[i].claim
                              && log[k].seen.online && log[k].seen.mac == log[i].claim.mac
                              && log[k].seen.generation == log[i].claim.generation && log[k].seen.version == log[i].claim.version
      ensures served == old(served) + events
      ensures forall k :: |old(log)| <= k < |log| ==> Observed(events, old(observed), log[k].id, log[k].seen)
    {
      for n := 0 to |events|
        invariant Valid() && Extends()
        invariant served == old(served) + events[..n]
        invariant forall id, r :: (id, r) in observed ==> Observed(events[..n], old(observed), id, r)
      {
        Dispatch(events[n]);
        assert events[..n + 1][n] == events[n] && events[..n + 1][..n] == events[..n];
        forall id, r | Observed(events[..n], old(observed), id, r)
          ensures Observed(events[..n + 1], old(observed), id, r)
        {
          StillObserved(events[..n + 1], n, old(observed), id, r);
        }
      }
      assert events[..|events|] == events;
      forall i, j | 0 <= i < j < |log| && log[i].Sent? && log[j].Sent? && log[i].id == log[j].id
        ensures exists k :: i < k < j && log[k].Confirmed? && log[k].id == log[i].id && log[k].claim == log[i].claim
                              && log[k].seen.online && log[k].seen.mac == log[i].claim.mac
                              && log[k].seen.generation == log[i].claim.generation && log[k].seen.version == log[i].claim.version
      {
        SendsSeparated(log, i, j);
        var k :| i < k < j && ConfirmedAt(log, k, log[i].id, log[i].claim);
      }
    }
  }

  function Reports(reports: map<Device, Report>): set<(Device, Report)> {
    set id | id in reports :: (id, reports[id])
  }

  /** A device reported this, before the events or in one of them. */
  ghost predicate Observed(events: seq<Event>, before: set<(Device, Report)>, id: Device, r: Report) {
    || (id, r) in before
    || exists n :: 0 <= n < |events| && events[n].Observe? && Seen(events[n].reports, id) == Some(r)
  }

  lemma StillObserved(events: seq<Event>, n: nat, before: set<(Device, Report)>, id: Device, r: Report)
    requires n <= |events| && Observed(events[..n], before, id, r)
    ensures Observed(events, before, id, r)
  {
    if (id, r) !in before {
      var m :| 0 <= m < n && events[..n][m].Observe? && Seen(events[..n][m].reports, id) == Some(r);
      assert events[m] == events[..n][m];
    }
  }

  datatype Event = Request(kind: Kind, device: Device, version: string, automatic: bool)
                 | Resume(i: nat, yes: bool, current: bool, found: Option<string>, music: Option<string>)
                 | Tick
                 | Escalate
                 | TickOver
                 | Observe(reports: map<Device, Report>, now: int)
                 | Pause(run: bool, close: bool)
                 | Die
}
