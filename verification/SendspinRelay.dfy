/** The relay between one browser socket and one Music Assistant Sendspin socket: frames wait
    in a bounded queue until the upstream opens, then pass straight through. */
module SendspinRelay {
  import opened Values

  const MAX_PENDING_FRAMES := 100
  const MAX_PENDING_BYTES := 1024 * 1024
  const MAX_BUFFERED_BYTES := 8 * 1024 * 1024

  datatype Frame = Frame(data: Bytes, binary: bool)

  /** `Absent` is an upstream that was never created. */
  datatype ReadyState = Absent | Connecting | Open | Closing | Closed

  function Rank(s: ReadyState): nat {
    match s
    case Absent => 4
    case Connecting => 0
    case Open => 1
    case Closing => 2
    case Closed => 3
  }

  /** What one `send` meets: the bytes already buffered, and whether it throws. */
  datatype Link = Link(buffered: nat, throws: bool)

  /** The one record of how the bridge ended. */
  datatype Report = Report(closedBy: string, observed: Option<int>, forwarded: int, upstreamConnected: bool)

  predicate Sendable(code: int): (r: bool)
    ensures code < 3000 ==> (r <==> code in {1000, 1001, 1002, 1003, 1007, 1008, 1009, 1010, 1011, 1012, 1013, 1014})
  {
    (1000 <= code <= 1014 && code !in {1004, 1005, 1006}) || 3000 <= code <= 4999
  }

  function CloseCode(code: int): (r: int)
    ensures Sendable(r)
    ensures r == code || (!Sendable(code) && r == 1011)
  {
    if Sendable(code) then code else 1011
  }

  function TotalBytes(frames: seq<Frame>): nat {
    if frames == [] then 0 else TotalBytes(frames[..|frames| - 1]) + |frames[|frames| - 1].data|
  }

  function Stopped(s: ReadyState): ReadyState {
    if s.Connecting? || s.Open? then Closing else s
  }

  datatype Event =
    | SocketsMove(client: ReadyState, upstream: ReadyState)
    | ClientClose(code: int)
    | ClientError
    | ClientMessage(frame: Frame, link: Link)
    | UpstreamOpen(links: nat -> Link, connectedThrows: bool)
    | UpstreamMessage(reply: Frame, back: Link)
    | UpstreamClose(upstreamCode: int)
    | UpstreamError
    | SendFailed(toClient: bool)
    | ConnectTimeout
    | HubClose

  /** A send goes through: within the buffer limit, and without throwing. */
  predicate Accepts(link: Link, frame: Frame) {
    link.buffered + |frame.data| <= MAX_BUFFERED_BYTES && !link.throws
  }

  /** The record a failed send leaves. */
  function SendReport(isClient: bool, link: Link, frame: Frame, ready: bool): Report {
    if link.buffered + |frame.data| > MAX_BUFFERED_BYTES then Report("buffer-limit", Some(1013), 1013, ready)
    else if isClient then Report("browser-send-error", None, 1011, ready)
    else Report("upstream-send-error", None, 1011, ready)
  }

  /** The record an ending event leaves; a timeout ends only while the timer runs. */
  function EndReport(e: Event, ready: bool): Option<Report> {
    match e
    case ClientClose(code) => Some(Report("browser", Some(code), 1000, ready))
    case ClientError => Some(Report("browser-error", None, 1011, ready))
    case UpstreamClose(code) => Some(Report("upstream", Some(code), CloseCode(code), ready))
    case UpstreamError => Some(Report("upstream-error", None, 1011, ready))
    case SendFailed(true) => Some(Report("browser-send-error", None, 1011, ready))
    case SendFailed(false) => Some(Report("upstream-send-error", None, 1011, ready))
    case ConnectTimeout => Some(Report("connect-timeout", Some(1011), 1011, ready))
    case HubClose => Some(Report("hub", Some(1011), 1011, ready))
    case _ => None
  }

  function FromClient(events: seq<Event>): seq<Frame> {
    if events == [] then []
    else
      var e := events[|events| - 1];
      FromClient(events[..|events| - 1]) + if e.ClientMessage? then [e.frame] else []
  }

  function FromUpstream(events: seq<Event>): seq<Frame> {
    if events == [] then []
    else
      var e := events[|events| - 1];
      FromUpstream(events[..|events| - 1]) + if e.UpstreamMessage? then [e.reply] else []
  }

  class Relay {
    var client: ReadyState
    var upstream: ReadyState
    var ready: bool
    var closed: bool
    var timer: bool
    var pending: seq<Frame>
    var pendingBytes: nat

    // what the peers and the owner observe
    ghost var fromClient: seq<Frame>
    ghost var fromUpstream: seq<Frame>
    ghost var toClient: seq<Frame>
    ghost var toUpstream: seq<Frame>
    ghost var reports: seq<Report>

    ghost predicate Valid()
      reads this
    {
      && |pending| <= MAX_PENDING_FRAMES && pendingBytes == TotalBytes(pending) <= MAX_PENDING_BYTES
      && |reports| == (if closed then 1 else 0)
      && (closed ==> Rank(client) >= 2 && Rank(upstream) >= 2 && pending == [] && !timer)
      && (!closed ==> Rank(client) >= 1) && (ready ==> Rank(upstream) >= 1)
      && Ordered() && Lossless()
    }

    /** What a peer was sent is an in-order prefix of what the other peer delivered. */
    ghost predicate Ordered()
      reads this
    {
      toUpstream <= fromClient && toClient <= fromUpstream
    }

    /** While the bridge is up and a peer is open, nothing meant for it was dropped. */
    ghost predicate Lossless()
      reads this
    {
      && (!closed && !ready ==> toUpstream == [] && pending == fromClient)
      && (!closed && ready ==> pending == [])
      && (!closed && ready && upstream.Open? ==> toUpstream == fromClient)
      && (!closed && client.Open? ==> toClient == fromUpstream)
    }

    /** Later states only extend what was sent, keep the first report and never reopen; nothing
        is sent once closed. */
    twostate predicate Advances()
      reads this
    {
      && (old(closed) ==> closed && toClient == old(toClient) && toUpstream == old(toUpstream))
      && old(toClient) <= toClient && old(toUpstream) <= toUpstream && old(reports) <= reports
      && Rank(client) >= Rank(old(client)) && Rank(upstream) >= Rank(old(upstream))
    }

    method Finish(code: int, closedBy: string, observed: Option<int>)
      modifies this
      ensures closed && timer == (old(timer) && old(closed))
      ensures old(closed) ==> unchanged(this)
      ensures !old(closed) ==> reports == old(reports) + [Report(closedBy, observed, CloseCode(code), ready)]
      ensures !old(closed) ==> pending == [] && pendingBytes == 0 && client == Stopped(old(client)) && upstream == Stopped(old(upstream))
      ensures unchanged(`ready) && unchanged(`fromClient) && unchanged(`fromUpstream) && unchanged(`toClient) && unchanged(`toUpstream)
      ensures old(Valid()) ==> Valid() && Advances()
    {
      if closed { return; }
      closed, timer := true, false;
      pending, pendingBytes := [], 0;
      upstream := Stopped(upstream);
      client := Stopped(client);
      reports := reports + [Report(closedBy, observed, CloseCode(code), ready)];
    }

    method Failure(closedBy: string)
      modifies this
      ensures closed && timer == (old(timer) && old(closed))
      ensures old(closed) ==> unchanged(this)
      ensures !old(closed) ==> reports == old(reports) + [Report(closedBy, None, 1011, ready)]
      ensures !old(closed) ==> pending == [] && pendingBytes == 0 && client == Stopped(old(client)) && upstream == Stopped(old(upstream))
      ensures unchanged(`ready) && unchanged(`fromClient) && unchanged(`fromUpstream) && unchanged(`toClient) && unchanged(`toUpstream)
      ensures old(Valid()) ==> Valid() && Advances()
    {
      if closed { return; }
      Finish(1011, closedBy, None);
    }

    /** Send on one socket, unless the bridge is closed or the socket is not open. */
    method Forward(isClient: bool, frame: Frame, link: Link) returns (ok: bool)
      modifies this
      ensures var state := if isClient then old(client) else old(upstream);
              ok == (!old(closed) && state.Open? && Accepts(link, frame))
      ensures ok ==> toUpstream == (if isClient then old(toUpstream) else old(toUpstream) + [frame])
      ensures ok ==> toClient == (if isClient then old(toClient) + [frame] else old(toClient))
      ensures ok ==> unchanged(`pending) && unchanged(`pendingBytes) && unchanged(`closed) && unchanged(`client) && unchanged(`upstream)
      ensures ok ==> unchanged(`reports) && unchanged(`timer)
      ensures !ok ==> unchanged(`toClient) && unchanged(`toUpstream)
      ensures !ok && (old(closed) || !(if isClient then old(client) else old(upstream)).Open?) ==> unchanged(this)
      ensures !ok && !old(closed) && (if isClient then old(client) else old(upstream)).Open? ==>
                closed && reports == old(reports) + [SendReport(isClient, link, frame, ready)] && !timer && pending == [] && pendingBytes == 0
      ensures !ok && !old(closed) && (if isClient then old(client) else old(upstream)).Open? ==>
                client == Stopped(old(client)) && upstream == Stopped(old(upstream))
      ensures unchanged(`ready) && unchanged(`fromClient) && unchanged(`fromUpstream)
    {
      var state := if isClient then client else upstream;
      if closed || !state.Open? { return false; }
      if link.buffered + |frame.data| > MAX_BUFFERED_BYTES {
        Finish(1013, "buffer-limit", Some(1013));
        return false;
      }
      if link.throws {
        Failure(if isClient then "browser-send-error" else "upstream-send-error");
        return false;
      }
      if isClient { toClient := toClient + [frame]; } else { toUpstream := toUpstream + [frame]; }
      ok := true;
    }

    /** `creates` is false when building the endpoint or the upstream socket throws. */
    constructor (client: ReadyState, creates: bool)
      ensures Valid() && fromClient == [] && fromUpstream == []
      ensures !client.Open? ==> upstream.Absent? && reports == [Report("browser-not-open", None, 1000, false)]
      ensures client.Open? && creates ==> !closed && upstream.Connecting? && timer
      ensures client.Open? && !creates ==> upstream.Absent? && reports == [Report("upstream-error", None, 1011, false)]
    {
      this.client, upstream, ready, closed, timer := client, Absent, false, false, false;
      pending, pendingBytes := [], 0;
      fromClient, fromUpstream, toClient, toUpstream, reports := [], [], [], [], [];
      new;
      if client != Open {
        Finish(1000, "browser-not-open", None);
      } else if creates {
        upstream, timer := Connecting, true;
      } else {
        Failure("upstream-error");
      }
    }

    /** Keep a frame for later, or close when the queue would outgrow its limits. */
    method Enqueue(frame: Frame)
      requires Valid() && !closed && !ready
      modifies this
      ensures closed == (|old(pending)| >= MAX_PENDING_FRAMES || old(pendingBytes) + |frame.data| > MAX_PENDING_BYTES)
      ensures closed ==> pending == [] && pendingBytes == 0 && client == Stopped(old(client)) && upstream == Stopped(old(upstream)) && !timer
      ensures closed ==> reports == [Report("pending-buffer-limit", Some(1009), 1009, false)]
      ensures !closed ==> pending == old(pending) + [frame] && pendingBytes == old(pendingBytes) + |frame.data|
      ensures !closed ==> client == old(client) && upstream == old(upstream) && reports == old(reports)
      ensures toClient == old(toClient) && toUpstream == old(toUpstream) && !ready
      ensures fromClient == old(fromClient) && fromUpstream == old(fromUpstream)
    {
      if |pending| >= MAX_PENDING_FRAMES || pendingBytes + |frame.data| > MAX_PENDING_BYTES {
        Finish(1009, "pending-buffer-limit", Some(1009));
        return;
      }
      pending, pendingBytes := pending + [frame], pendingBytes + |frame.data|;
    }

    method OnClientMessage(frame: Frame, link: Link)
      requires Valid()
      modifies this
      ensures Valid() && Advances() && fromClient == old(fromClient) + [frame] && fromUpstream == old(fromUpstream)
      ensures !old(closed) && !old(ready) ==>
                closed == (|old(pending)| == MAX_PENDING_FRAMES || old(pendingBytes) + |frame.data| > MAX_PENDING_BYTES)
      ensures !old(closed) && !old(ready) ==>
                if closed then reports == [Report("pending-buffer-limit", Some(1009), 1009, false)]
                else pending == old(pending) + [frame]
      ensures !old(closed) && old(ready) && old(upstream).Open? ==>
                if Accepts(link, frame) then !closed && toUpstream == old(toUpstream) + [frame]
                else reports == [SendReport(false, link, frame, true)]
    {
      if closed {
      } else if ready {
        var _ := Forward(false, frame, link);
      } else {
        assert (pending + [frame])[..|pending|] == pending;
        Enqueue(frame);
      }
      fromClient := fromClient + [frame];
    }

    /** Send the frames that waited, in order, until one cannot be sent. */
    method Drain(frames: seq<Frame>, links: nat -> Link)
      requires ready && !closed && pending == [] && pendingBytes == 0 && reports == [] && toUpstream == [] && !timer
      modifies this
      ensures |reports| == (if closed then 1 else 0) && old(reports) <= reports && pending == [] && pendingBytes == 0
      ensures closed ==> Rank(client) >= 2 && Rank(upstream) >= 2 && !timer
      ensures !closed ==> client == old(client) && upstream == old(upstream) && timer == old(timer)
      ensures toUpstream <= frames && toClient == old(toClient) && ready
      ensures !closed && upstream.Open? ==> toUpstream == frames
      ensures closed <==> old(upstream).Open? && exists k :: 0 <= k < |frames| && !Accepts(links(k), frames[k])
      ensures Rank(client) >= Rank(old(client)) && Rank(upstream) >= Rank(old(upstream))
      ensures fromClient == old(fromClient) && fromUpstream == old(fromUpstream)
    {
      for k := 0 to |frames|
        invariant !closed && ready && pending == [] && pendingBytes == 0 && reports == [] && timer == old(timer)
        invariant toUpstream == frames[..k] && toClient == old(toClient) && client == old(client) && upstream == old(upstream)
        invariant fromClient == old(fromClient) && fromUpstream == old(fromUpstream)
        invariant upstream.Open? ==> forall i :: 0 <= i < k ==> Accepts(links(i), frames[i])
      {
        var ok := Forward(false, frames[k], links(k));
        if !ok { return; }
      }
    }

    /** The bridge is up: what waited goes out. */
    method Flush(links: nat -> Link)
      requires Valid() && !closed && !ready && upstream != Connecting
      modifies this
      ensures Valid() && Advances() && fromClient == old(fromClient) && fromUpstream == old(fromUpstream) && ready
      ensures !closed && upstream.Open? ==> toUpstream == fromClient
      ensures !timer
      ensures closed <==> old(upstream).Open? && exists k :: 0 <= k < |old(pending)| && !Accepts(links(k), old(pending)[k])
    {
      ready, timer := true, false;
      var frames := pending;
      pending, pendingBytes := [], 0;
      Drain(frames, links);
    }

    method OnUpstreamOpen(links: nat -> Link, connectedThrows: bool)
      requires Valid() && !ready
      modifies this
      ensures Valid() && Advances() && fromClient == old(fromClient) && fromUpstream == old(fromUpstream)
      ensures !closed && client.Open? && upstream.Open? ==> ready && toUpstream == fromClient
      ensures old(closed) || !old(client).Open? ==> Rank(upstream) >= 2 && closed == old(closed) && ready == old(ready)
      ensures !old(closed) && old(client).Open? ==> ready && !timer
      ensures !old(closed) && old(client).Open? && old(upstream).Connecting? ==>
                (closed <==> connectedThrows || exists k :: 0 <= k < |old(pending)| && !Accepts(links(k), old(pending)[k]))
    {
      if upstream == Connecting { upstream := Open; }
      if closed || client != Open {
        upstream := Stopped(upstream);
        return;
      }
      Flush(links);
      if !closed && connectedThrows { Failure("upstream-error"); }
    }

    method OnUpstreamMessage(frame: Frame, link: Link)
      requires Valid()
      modifies this
      ensures Valid() && Advances() && fromClient == old(fromClient) && fromUpstream == old(fromUpstream) + [frame]
      ensures !old(closed) && old(client).Open? ==>
                if Accepts(link, frame) then !closed && toClient == old(toClient) + [frame]
                else reports == [SendReport(true, link, frame, ready)]
    {
      fromUpstream := fromUpstream + [frame];
      var _ := Forward(true, frame, link);
    }

    /** Every way of ending the bridge but the queue and buffer limits. */
    method End(e: Event)
      requires Valid()
      modifies this
      ensures Valid() && Advances() && fromClient == old(fromClient) && fromUpstream == old(fromUpstream)
      ensures EndReport(e, ready).Some? && (e.ConnectTimeout? ==> old(timer)) ==>
                closed && (!old(closed) ==> reports == [EndReport(e, ready).value])
      ensures EndReport(e, ready).None? || (e.ConnectTimeout? && !old(timer)) ==> unchanged(this)
    {
      match e
      case ClientClose(code) => Finish(1000, "browser", Some(code));
      case ClientError => Failure("browser-error");
      case UpstreamClose(code) => Finish(code, "upstream", Some(code));
      case UpstreamError => Failure("upstream-error");
      case SendFailed(isClient) => Failure(if isClient then "browser-send-error" else "upstream-send-error");
      case ConnectTimeout => if timer { Finish(1011, "connect-timeout", Some(1011)); }
      case HubClose => Finish(1011, "hub", Some(1011));
      case _ =>
    }

    /** The sockets change state by themselves, never backwards. */
    method Move(client': ReadyState, upstream': ReadyState)
      requires Valid()
      modifies this
      ensures Valid() && Advances() && fromClient == old(fromClient) && fromUpstream == old(fromUpstream) && closed == old(closed)
    {
      if Rank(client') > Rank(client) { client := client'; }
      if Rank(upstream') > Rank(upstream) && !upstream.Absent? { upstream := upstream'; }
    }

    method Dispatch(e: Event)
      requires Valid()
      modifies this
      ensures Valid() && Advances()
      ensures fromClient == old(fromClient) + (if e.ClientMessage? then [e.frame] else [])
      ensures fromUpstream == old(fromUpstream) + (if e.UpstreamMessage? then [e.reply] else [])
      ensures EndReport(e, ready).Some? && (e.ConnectTimeout? ==> old(timer)) ==>
                closed && (!old(closed) ==> reports == [EndReport(e, ready).value])
      ensures e.UpstreamOpen? && !old(closed) && old(client).Open? ==> ready
    {
      match e
      case SocketsMove(c, u) => Move(c, u);
      case ClientMessage(frame, link) => OnClientMessage(frame, link);
      case UpstreamOpen(links, throws) => if !ready { OnUpstreamOpen(links, throws); }
      case UpstreamMessage(frame, link) => OnUpstreamMessage(frame, link);
      case _ => End(e);
    }

    /** Any events in any order: order, bounds, one report and silence after closing all hold,
        over exactly the frames that the events delivered, and an end that was announced came. */
    method Run(events: seq<Event>)
      requires Valid()
      modifies this
      ensures Valid() && Advances()
      ensures fromClient == old(fromClient) + FromClient(events) && fromUpstream == old(fromUpstream) + FromUpstream(events)
      ensures (exists k :: 0 <= k < |events| && !events[k].ConnectTimeout? && EndReport(events[k], false).Some?) ==> closed
    {
      for k := 0 to |events|
        invariant Valid() && Advances()
        invariant fromClient == old(fromClient) + FromClient(events[..k])
        invariant fromUpstream == old(fromUpstream) + FromUpstream(events[..k])
        invariant (exists i :: 0 <= i < k && !events[i].ConnectTimeout? && EndReport(events[i], false).Some?) ==> closed
      {
        assert events[..k + 1][..k] == events[..k];
        label before:
        Dispatch(events[k]);
        assert Advances@before();
      }
      assert events[..|events|] == events;
    }
  }
}
