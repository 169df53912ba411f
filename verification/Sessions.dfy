/** A session: its channels, its packet queue, and what the transport layer brings in. */
module Sessions {
  import opened Bytes
  import opened Errors
  import opened PacketQueue
  import opened Channels
  import opened Modular

  const DISCONNECT: byte := 1
  const IGNORE: byte := 2
  const DEBUG: byte := 4
  const GLOBAL_REQUEST: byte := 80
  const CHANNEL_OPEN: byte := 90
  const CHANNEL_WINDOW_ADJUST: byte := 93
  const CHANNEL_EOF: byte := 96
  const CHANNEL_CLOSE: byte := 97
  const CHANNEL_REQUEST: byte := 98
  const CHANNEL_SUCCESS: byte := 99
  const CHANNEL_FAILURE: byte := 100
  const WINDOW_DEFAULT: u32 := 0x20_0000
  const PACKET_DEFAULT: u32 := 0x8000

  /** What one call of the transport layer's read comes to: a payload, a request to open a channel
      for a listener, nothing yet, nothing at all, or a failure. */
  datatype Event =
    | Payload(data: seq<byte>)
    | ForwardedOpen(host: seq<byte>, port: int, sender: u32, window: u32, packetSize: u32)
    | WouldBlock
    | Nothing
    | Failure(code: int)
  {
    /** What the transport layer returns once it is dealt with: the type of a packet, 0, or an error. */
    function Result(): int {
      match this
      case Payload(data) =>
        if data == [] then 0 else if data[0] == DISCONNECT then ERROR_SOCKET_DISCONNECT else data[0] as int
      case ForwardedOpen(_, _, _, _, _) => CHANNEL_OPEN as int
      case WouldBlock => ERROR_EAGAIN
      case Nothing => 0
      case Failure(code) => if code < 0 then code else -code - 1
    }
  }

  /** A packet counts by its type; nothing, or an empty packet, is of no account; the rest ends the reading. */
  lemma ResultSigns(e: Event)
    ensures e.Result() > 0 <==> e.ForwardedOpen? || (e.Payload? && e.data != [] && e.data[0] != DISCONNECT && e.data[0] != 0)
    ensures e.Result() == 0 <==> e.Nothing? || (e.Payload? && (e.data == [] || e.data[0] == 0))
    ensures e.WouldBlock? ==> e.Result() == ERROR_EAGAIN
    ensures e.Failure? && e.code < 0 ==> e.Result() == e.code
  {
  }

  datatype Listener = Listener(host: seq<byte>, port: int, queue: seq<Channel>, maxSize: int)
  {
    predicate Full() {
      maxSize != 0 && maxSize <= |queue|
    }
  }

  /** An event that was taken in, and how many bytes of it were kept if it was channel data. */
  datatype Seen = Seen(event: Event, kept: nat)
  {
    /** Its packet in the queue: channel data cut to what was kept, and everything that someone asks for. */
    function Queue(): seq<Packet> {
      if !event.Payload? || event.data == [] then []
      else if !NoData(event.data[0]) then
        if kept == 0 || kept > |event.data| then [] else [Packet(event.data[..kept], Header(event.data[0]))]
      else if Queued(event.data[0]) then [Packet(event.data, 0)] else []
    }

    /** The channel data it brought. */
    function Arrival(): seq<Chunk> {
      if event.Payload? && event.data != [] && !NoData(event.data[0]) && Header(event.data[0]) <= kept <= |event.data| then
        [Chunk(U32At(event.data, 1), if event.data[0] == CHANNEL_DATA then Std else Ext(U32At(event.data, 5)),
               event.data[Header(event.data[0])..kept])]
      else []
    }

    /** Whether a channel is at its end after it: an end or a close says so, and data takes it back. */
    function Ends(id: u32, was: bool): bool {
      if event.Payload? && |event.data| >= 5 && (event.data[0] == CHANNEL_EOF || event.data[0] == CHANNEL_CLOSE)
         && U32At(event.data, 1) == id then true
      else if Arrival() != [] && Arrival()[0].id == id then false else was
    }

    /** It closes a channel. */
    predicate Closes(id: u32) {
      event.Payload? && |event.data| >= 5 && event.data[0] == CHANNEL_CLOSE && U32At(event.data, 1) == id
    }

    /** What it granted to a channel. */
    function Grant(id: u32): seq<u32> {
      if event.Payload? && |event.data| >= 9 && event.data[0] == CHANNEL_WINDOW_ADJUST && U32At(event.data, 1) == id then
        [U32At(event.data, 5)]
      else []
    }
  }

  /** The same over all that was taken in. */
  function Events(history: seq<Seen>): seq<Event> {
    if history == [] then [] else Events(history[..|history| - 1]) + [history[|history| - 1].event]
  }

  function Queues(history: seq<Seen>): seq<Packet> {
    if history == [] then [] else Queues(history[..|history| - 1]) + history[|history| - 1].Queue()
  }

  function Arrivals(history: seq<Seen>): seq<Chunk> {
    if history == [] then [] else Arrivals(history[..|history| - 1]) + history[|history| - 1].Arrival()
  }

  function GrantsTo(history: seq<Seen>, id: u32): seq<u32> {
    if history == [] then [] else GrantsTo(history[..|history| - 1], id) + history[|history| - 1].Grant(id)
  }

  /** Whether the other side has ended its data last, or has ever closed the channel. */
  function EndedIn(history: seq<Seen>, id: u32): bool {
    history != [] && history[|history| - 1].Ends(id, EndedIn(history[..|history| - 1], id))
  }

  predicate ClosedIn(history: seq<Seen>, id: u32) {
    history != [] && (ClosedIn(history[..|history| - 1], id) || history[|history| - 1].Closes(id))
  }

  lemma SeenStep(history: seq<Seen>, x: Seen)
    ensures var after := history + [x];
            && Events(after) == Events(history) + [x.event] && Queues(after) == Queues(history) + x.Queue()
            && Arrivals(after) == Arrivals(history) + x.Arrival()
            && (forall id :: GrantsTo(after, id) == GrantsTo(history, id) + x.Grant(id))
            && (forall id :: EndedIn(after, id) == x.Ends(id, EndedIn(history, id)))
            && forall id :: ClosedIn(after, id) <==> ClosedIn(history, id) || x.Closes(id)
  {
    hide Seen.Queue, Seen.Arrival, Seen.Grant, Seen.Ends, Seen.Closes;
    assert (history + [x])[..|history|] == history;
  }

  /** What the events since some place say of a channel. */
  ghost predicate SaidOf(c: Channel, history: seq<Seen>)
    reads c`grants, c`remoteEof, c`remoteClose
  {
    && c.born <= |history| && c.grants == GrantsTo(history[c.born..], c.id)
    && c.remoteEof == EndedIn(history[c.born..], c.id) && c.remoteClose == ClosedIn(history[c.born..], c.id)
  }

  /** The same with one more event that is not recorded yet. */
  ghost predicate NowSaid(c: Channel, history: seq<Seen>, x: Seen)
    reads c`grants, c`remoteEof, c`remoteClose
  {
    && c.born <= |history| && c.grants == GrantsTo(history[c.born..], c.id) + x.Grant(c.id)
    && c.remoteEof == x.Ends(c.id, EndedIn(history[c.born..], c.id))
    && c.remoteClose == (ClosedIn(history[c.born..], c.id) || x.Closes(c.id))
  }

  lemma SaidShift(history: seq<Seen>, from: nat, x: Seen, id: u32)
    requires from <= |history|
    ensures GrantsTo((history + [x])[from..], id) == GrantsTo(history[from..], id) + x.Grant(id)
    ensures EndedIn((history + [x])[from..], id) == x.Ends(id, EndedIn(history[from..], id))
    ensures ClosedIn((history + [x])[from..], id) == (ClosedIn(history[from..], id) || x.Closes(id))
  {
    hide Seen.Grant, Seen.Ends, Seen.Closes;
    assert (history + [x])[from..] == history[from..] + [x];
    SeenStep(history[from..], x);
  }

  lemma NothingSaid(history: seq<Seen>, id: u32)
    ensures GrantsTo(history[|history|..], id) == [] && !EndedIn(history[|history|..], id) && !ClosedIn(history[|history|..], id)
  {
  }

  lemma NothingQueued()
    ensures Queues([]) == []
  {
  }

  lemma QueuesGrow(start: seq<Seen>, before: seq<Seen>, x: Seen)
    requires start <= before
    ensures start <= before + [x]
    ensures Queues((before + [x])[|start|..]) == Queues(before[|start|..]) + x.Queue()
  {
    hide Seen.Queue;
    assert (before + [x])[|start|..] == before[|start|..] + [x];
    SeenStep(before[|start|..], x);
  }

  /** The first listener for a host and port, if there is one. */
  predicate ListensFirst(listeners: seq<Listener>, host: seq<byte>, port: int, found: Option<nat>) {
    match found
    case Some(k) =>
      && k < |listeners| && listeners[k].host == host && listeners[k].port == port
      && forall j :: 0 <= j < k ==> listeners[j].host != host || listeners[j].port != port
    case None => forall j :: 0 <= j < |listeners| ==> listeners[j].host != host || listeners[j].port != port
  }

  /** The events from the first one on that has a result other than 0. */
  function OfAccount(inbound: seq<Event>): seq<Event> {
    if inbound == [] || inbound[0].Result() != 0 then inbound else OfAccount(inbound[1..])
  }

  /** How many connections for listeners come in. */
  function Forwards(inbound: seq<Event>): nat {
    if inbound == [] then 0 else (if inbound[0].ForwardedOpen? then 1 else 0) + Forwards(inbound[1..])
  }

  /** `packet_queue_listener` between two of its calls for one connection: its state, the channel it
      holds, and the queue of the listener the connection is for. */
  datatype Accept = Accept(state: State, channel: Option<Channel>, queue: seq<Channel>)
  {
    /** One call. Every call that comes to the listener lets go of the channel first; only the first
        one, which makes a channel unless the queue is full, takes hold of another. */
    function Pass(full: bool, made: Option<Channel>, answer: Answer): Accept {
      if state.Sent? || (state.Idle? && full) then Accept(if answer.PutOff? then Sent else Idle, None, queue)
      else
        var held := if state.Idle? then made else None;
        match answer
        case Done => Accept(Idle, None, if held.Some? then queue + [held.value] else queue)
        case PutOff => Accept(Created, held, queue)
        case Broken => Accept(Idle, None, queue)
    }

    /** Calls until the connection is dealt with. */
    function Passes(full: bool, made: Option<Channel>, answers: seq<Answer>): Accept
      decreases |answers|
    {
      if answers == [] then this else Pass(full, made, answers[0]).Passes(full, made, answers[1..])
    }
  }

  /** The answers for one connection: put off any number of times, then not. */
  predicate OneConnection(answers: seq<Answer>) {
    answers != [] && forall i :: 0 <= i < |answers| ==> (answers[i].PutOff? <==> i < |answers| - 1)
  }

  /** A connection that has been put off once is confirmed, or not, but its channel is queued nowhere. */
  lemma {:induction false} RetriesQueueNothing(a: Accept, full: bool, made: Option<Channel>, answers: seq<Answer>)
    requires (a.state.Created? || a.state.Sent?) && OneConnection(answers)
    ensures a.Passes(full, made, answers) == Accept(Idle, None, a.queue)
    decreases |answers|
  {
    var b := a.Pass(full, made, answers[0]);
    assert a.Passes(full, made, answers) == b.Passes(full, made, answers[1..]);
    if |answers| > 1 {
      assert forall i :: 0 <= i < |answers| - 1 ==> answers[1..][i] == answers[i + 1];
      RetriesQueueNothing(b, full, made, answers[1..]);
    } else {
      assert answers[1..] == [];
    }
  }

  /** The new channel joins the queue if and only if the queue was not full and the confirmation was
      sent in the very call that made the channel. In any other case no queue changes. */
  lemma QueuedIfSentAtOnce(queue: seq<Channel>, full: bool, made: Channel, answers: seq<Answer>)
    requires OneConnection(answers)
    ensures Accept(Idle, None, queue).Passes(full, Some(made), answers)
         == Accept(Idle, None, if !full && answers[0].Done? then queue + [made] else queue)
    ensures Accept(Idle, None, queue).Passes(full, Some(made), answers).queue != queue <==> !full && answers[0].Done?
  {
    var a := Accept(Idle, None, queue);
    var b := a.Pass(full, Some(made), answers[0]);
    assert a.Passes(full, Some(made), answers) == b.Passes(full, Some(made), answers[1..]);
    if |answers| > 1 {
      assert forall i :: 0 <= i < |answers| - 1 ==> answers[1..][i] == answers[i + 1];
      RetriesQueueNothing(b, full, Some(made), answers[1..]);
    } else {
      assert answers[1..] == [];
    }
    assert |queue + [made]| == |queue| + 1;
  }

  /** The header of a data message: type, channel and length, and for extended data its type. */
  function Header(msg: byte): nat {
    if msg == CHANNEL_EXTENDED_DATA then 13 else 9
  }

  predicate Smallest(n: int, a: int, b: int, c: int) {
    n <= a && n <= b && n <= c && (n == a || n == b || n == c)
  }

  /** The counter of waiting bytes wraps around to no more than the window. */
  predicate LetsTooMuchIn(avail: u32, n: nat, window: u32) {
    TWO32 <= avail + n <= TWO32 + window
  }

  /** How much of `payload` bytes of data is kept, with the header before them. Of a packet for a full
      window nothing is kept; else the bytes kept are the smallest of the payload, the packet size and what
      is open of the window, unless the counter wraps around, which lets more in than is open. */
  predicate KeptOf(c: Channel, payload: nat, kept: nat, head: nat)
    reads c`remoteWindow, c`readAvail
  {
    if c.remoteWindow <= c.readAvail then kept == 0
    else
      && kept >= head
      && if LetsTooMuchIn(c.readAvail, if payload < c.packetSize then payload else c.packetSize, c.remoteWindow) then
           Smallest(kept - head, payload, c.packetSize, payload)
         else Smallest(kept - head, payload, c.packetSize, c.remoteWindow - c.readAvail)
  }

  /** The id that is handed out next: the counter, unless a channel of the session has a higher one. */
  function NextIdOf(next: u32, ids: seq<u32>): u32 {
    if ids == [] then next
    else
      var id := NextIdOf(next, ids[..|ids| - 1]);
      if ids[|ids| - 1] > id then ids[|ids| - 1] else id
  }

  lemma {:induction false} NextIdIsHighest(next: u32, ids: seq<u32>)
    ensures var id := NextIdOf(next, ids);
            next <= id && (id == next || id in ids) && forall i :: i in ids ==> i <= id
  {
    if ids != [] {
      NextIdIsHighest(next, ids[..|ids| - 1]);
      assert ids == ids[..|ids| - 1] + [ids[|ids| - 1]];
    }
  }

  /** It is fresh exactly when the counter is above all ids of the session's channels and is not
      the id of one that waits at a listener. */
  lemma NextIdIsFresh(next: u32, ids: seq<u32>, queued: set<u32>)
    ensures var id := NextIdOf(next, ids);
            id !in ids && id !in queued <==> (forall i :: i in ids ==> i < next) && next !in queued
  {
    hide NextIdOf;
    NextIdIsHighest(next, ids);
    var id := NextIdOf(next, ids);
    if forall i :: i in ids ==> i < next {
      assert id == next;
    } else {
      var i :| i in ids && i >= next;
      assert id in ids;
    }
  }

  function IdsOf(channels: seq<Channel>): (ids: seq<u32>)
    ensures |ids| == |channels| && forall i :: 0 <= i < |ids| ==> ids[i] == channels[i].id
  {
    seq(|channels|, i requires 0 <= i < |channels| => channels[i].id)
  }

  ghost function OwnedBy(channels: seq<Channel>, listeners: seq<Listener>): set<Channel> {
    (set c | c in channels) + (set k, c | 0 <= k < |listeners| && c in listeners[k].queue :: c)
  }

  /** No more channels wait at a listener than it has room for. */
  predicate Within(listeners: seq<Listener>) {
    forall k :: 0 <= k < |listeners| && listeners[k].maxSize > 0 ==> |listeners[k].queue| <= listeners[k].maxSize
  }

  /** A listener is full exactly if it has a limit and has come to it. */
  lemma FullExactly(l: Listener)
    requires Within([l]) && l.maxSize >= 0
    ensures l.Full() <==> l.maxSize != 0 && |l.queue| == l.maxSize
  {
    assert [l][0] == l;
  }

  /** No channel stands in two places. */
  ghost predicate Apart(channels: seq<Channel>, listeners: seq<Listener>) {
    && (forall i, j :: 0 <= i < j < |channels| ==> channels[i] != channels[j])
    && (forall k, i, j :: 0 <= k < |listeners| && 0 <= i < j < |listeners[k].queue| ==>
          listeners[k].queue[i] != listeners[k].queue[j])
    && (forall k, c :: 0 <= k < |listeners| && c in listeners[k].queue ==> c !in channels)
    && (forall k, l, c :: 0 <= k < l < |listeners| && c in listeners[k].queue ==> c !in listeners[l].queue)
  }

  lemma AppendedApart(channels: seq<Channel>, listeners: seq<Listener>, c: Channel)
    requires Apart(channels, listeners) && c !in OwnedBy(channels, listeners)
    ensures Apart(channels + [c], listeners)
  {
    forall k, d | 0 <= k < |listeners| && d in listeners[k].queue ensures d !in channels + [c] {
      assert d in OwnedBy(channels, listeners);
    }
  }

  lemma QueuedApart(channels: seq<Channel>, listeners: seq<Listener>, k: nat, c: Channel)
    requires Apart(channels, listeners) && k < |listeners| && c !in OwnedBy(channels, listeners)
    ensures var l := listeners[k]; Apart(channels, listeners[k := l.(queue := l.queue + [c])])
  {
    var after := listeners[k := listeners[k].(queue := listeners[k].queue + [c])];
    NowhereElse(channels, listeners, c);
    forall j, d | 0 <= j < |after| && d in after[j].queue ensures d in listeners[j].queue || (j == k && d == c) {
    }
    forall j, a, b | 0 <= j < |after| && 0 <= a < b < |after[j].queue| ensures after[j].queue[a] != after[j].queue[b] {
      if j == k && b == |listeners[k].queue| {
        assert after[j].queue[a] in listeners[k].queue;
      }
    }
  }

  lemma NowhereElse(channels: seq<Channel>, listeners: seq<Listener>, c: Channel)
    requires c !in OwnedBy(channels, listeners)
    ensures c !in channels && forall k :: 0 <= k < |listeners| ==> c !in listeners[k].queue
  {
    forall k | 0 <= k < |listeners| ensures c !in listeners[k].queue {
      assert c in listeners[k].queue ==> c in OwnedBy(channels, listeners);
    }
  }

  lemma RemovedApart(channels: seq<Channel>, listeners: seq<Listener>, i: nat)
    requires Apart(channels, listeners) && i < |channels|
    ensures var after := channels[..i] + channels[i + 1..];
            Apart(after, listeners) && channels[i] !in OwnedBy(after, listeners)
  {
    var after := channels[..i] + channels[i + 1..];
    assert forall d :: d in after ==> d in channels;
    assert channels[i] in channels;
  }

  lemma RemovedIsGone(channels: seq<Channel>, listeners: seq<Listener>, i: nat)
    requires Apart(channels, listeners) && i < |channels|
    ensures var after := channels[..i] + channels[i + 1..];
            OwnedBy(after, listeners) == OwnedBy(channels, listeners) - {channels[i]}
  {
    RemovedApart(channels, listeners, i);
    var after := channels[..i] + channels[i + 1..];
    forall d ensures d in OwnedBy(after, listeners) <==> d in OwnedBy(channels, listeners) && d != channels[i] {
      if d in channels && d != channels[i] {
        assert d in after;
      }
    }
  }

  lemma MovedApart(channels: seq<Channel>, listeners: seq<Listener>, k: nat)
    requires Apart(channels, listeners) && k < |listeners| && listeners[k].queue != []
    ensures var l := listeners[k];
            var after := listeners[k := l.(queue := l.queue[1..])];
            && Apart(channels + [l.queue[0]], after)
            && l.queue[0] !in channels && forall j :: 0 <= j < |after| ==> l.queue[0] !in after[j].queue
  {
    var l := listeners[k];
    var after := listeners[k := l.(queue := l.queue[1..])];
    assert l.queue[0] in l.queue && l.queue[0] !in channels;
    assert forall d :: d in l.queue[1..] ==> d in l.queue && d != l.queue[0];
    assert forall i :: 0 <= i < |channels| ==> channels[i] != l.queue[0];
  }

  lemma NewListenerApart(channels: seq<Channel>, listeners: seq<Listener>, l: Listener)
    requires Apart(channels, listeners) && l.queue == []
    ensures Apart(channels, listeners + [l])
  {
  }

  /** A channel at the end of a listener's queue is one more; the others stay. */
  lemma QueuedIsOwned(channels: seq<Channel>, listeners: seq<Listener>, k: nat, c: Channel)
    requires k < |listeners|
    ensures var l := listeners[k];
            OwnedBy(channels, listeners[k := l.(queue := l.queue + [c])]) == OwnedBy(channels, listeners) + {c}
  {
    var l := listeners[k];
    var after := listeners[k := l.(queue := l.queue + [c])];
    forall d ensures d in OwnedBy(channels, after) <==> d in OwnedBy(channels, listeners) + {c} {
      if d in OwnedBy(channels, listeners) && d !in channels {
        var j :| 0 <= j < |listeners| && d in listeners[j].queue;
        assert d in after[j].queue;
      }
      if d == c {
        assert d in after[k].queue;
      }
    }
  }

  /** A listener without channels changes nothing. */
  lemma NewListenerOwnsNothing(channels: seq<Channel>, listeners: seq<Listener>, l: Listener)
    requires l.queue == []
    ensures OwnedBy(channels, listeners + [l]) == OwnedBy(channels, listeners)
  {
    var after := listeners + [l];
    forall d ensures d in OwnedBy(channels, after) <==> d in OwnedBy(channels, listeners) {
      if d in OwnedBy(channels, listeners) && d !in channels {
        var j :| 0 <= j < |listeners| && d in listeners[j].queue;
        assert d in after[j].queue;
      }
    }
  }

  /** A channel that moves from the front of a queue to the session's list is still owned. */
  lemma MovedIsOwned(channels: seq<Channel>, listeners: seq<Listener>, k: nat)
    requires k < |listeners| && listeners[k].queue != []
    ensures var l := listeners[k];
            OwnedBy(channels + [l.queue[0]], listeners[k := l.(queue := l.queue[1..])]) == OwnedBy(channels, listeners)
  {
    var l := listeners[k];
    var after := listeners[k := l.(queue := l.queue[1..])];
    var now := channels + [l.queue[0]];
    forall d ensures d in OwnedBy(now, after) <==> d in OwnedBy(channels, listeners) {
      if d in OwnedBy(channels, listeners) && d !in now {
        var j :| 0 <= j < |listeners| && d in listeners[j].queue;
        assert d in after[j].queue;
      }
      if d in OwnedBy(now, after) && d !in channels {
        if d == l.queue[0] {
          assert d in listeners[k].queue;
        } else {
          var j :| 0 <= j < |after| && d in after[j].queue;
          assert d in listeners[j].queue;
        }
      }
    }
  }

  /** A channel made for a connection to a listener: with the numbers of the request, and our own for the way back. */
  ghost predicate MadeFor(c: Channel, sender: u32, window: u32, packetSize: u32)
    reads c`remoteId, c`localWindow, c`localPacketSize, c`marks, c`merge
  {
    c.windowInitial == WINDOW_DEFAULT && c.packetSize == PACKET_DEFAULT && c.OpenedFor(sender, window, packetSize)
  }

  /** The queue of the first listener for this host and port, if any, has one more channel at most; nothing else has. */
  ghost predicate QueuesAt(before: seq<Listener>, after: seq<Listener>, host: seq<byte>, port: int) {
    exists found :: ListensFirst(before, host, port, found) && QueuesOne(before, after, found)
  }

  predicate QueuesOne(before: seq<Listener>, after: seq<Listener>, found: Option<nat>) {
    match found
    case None => after == before
    case Some(k) =>
      && k < |before| == |after| && after == before[k := before[k].(queue := after[k].queue)]
      && before[k].queue <= after[k].queue && |after[k].queue| <= |before[k].queue| + 1
  }

  ghost predicate MadeBy(c: Channel, event: Event)
    reads c`remoteId, c`localWindow, c`localPacketSize, c`marks, c`merge
  {
    event.ForwardedOpen? && MadeFor(c, event.sender, event.window, event.packetSize)
  }

  class Session {
    var packets: seq<Packet>
    var channels: seq<Channel>
    var listeners: seq<Listener>
    var nextChannel: u32
    var connected: bool
    /** What the network delivers from beginning to end, what of it was taken in, and what is still to come. */
    ghost const stream: seq<Event>
    ghost var history: seq<Seen>
    var inbound: seq<Event>
    /** A forwarded connection that is being answered, and the channel made for it in this call. */
    var acceptState: State
    var accepting: Option<Channel>

    /** Every chunk of channel data that was queued, and every one taken out again. */
    ghost var arrived: seq<Chunk>
    ghost var taken: seq<Chunk>

    var openState: State
    var opening: Option<Channel>
    /** How many channels will still be opened from this side, at most. */
    ghost var reserve: nat

    constructor (inbound: seq<Event>, ghost reserve: nat)
      requires Forwards(inbound) + reserve < TWO32
      ensures Valid() && Room() && connected && channels == [] && listeners == [] && this.inbound == inbound
      ensures nextChannel == 0 && openState.Idle? && opening.None? && this.reserve == reserve && Live() == {}
      ensures stream == inbound && taken == []
    {
      packets, channels, listeners, nextChannel, connected := [], [], [], 0, true;
      this.inbound, acceptState, accepting, arrived, taken := inbound, Idle, None, [], [];
      stream, history := inbound, [];
      openState, opening, this.reserve := Idle, None, reserve;
    }

    /** The channels `_libssh2_channel_locate` can find. */
    ghost function Owned(): set<Channel>
      reads this`channels, this`listeners
    {
      OwnedBy(channels, listeners)
    }

    /** These and the one that is about to be queued. */
    ghost function Live(): set<Channel>
      reads this`channels, this`listeners, this`accepting
    {
      Owned() + (if accepting.Some? then {accepting.value} else {})
    }

    /** Every channel that was sound still is, and every new one is, under a new id. */
    twostate predicate KeepsSound()
      reads this`channels, this`listeners, this`accepting, this`nextChannel, Live()
    {
      && old(nextChannel) <= nextChannel
      && forall c :: c in Live() ==>
        if c in old(Live()) then old(c.Sound()) ==> c.Sound()
        else c.Sound() && c.Pristine() && old(nextChannel) <= c.id
    }

    /** No two channels share an id, none stands in two places, and all ids were allocated. */
    ghost predicate Ids()
      reads this`channels, this`listeners, this`accepting, this`nextChannel
    {
      && (forall c, d :: c in Live() && d in Live() && c.id == d.id ==> c == d)
      && (forall c :: c in Live() ==> c.id < nextChannel)
      && (accepting.Some? ==> accepting.value !in Owned())
      && Apart(channels, listeners) && Within(listeners)
    }

    /** All queued packets are well formed and belong to ids that were allocated. */
    ghost predicate Queue()
      reads this`packets, this`nextChannel
    {
      AllValid(packets) && IdsBelow(packets, nextChannel)
    }

    /** The cached counter of every channel is what waits for it. */
    ghost predicate Counted()
      requires AllValid(packets)
      reads this`packets, this`channels, this`listeners, this`accepting, Live()`readAvail, Live()`skewed
    {
      forall c :: c in Live() && !c.skewed ==> c.readAvail == Wrap32(Waiting(packets, c.id))
    }

    ghost predicate Valid()
      reads this`packets, this`channels, this`listeners, this`accepting, this`nextChannel, this`arrived, this`taken,
            Live()`readAvail, Live()`skewed
    {
      Ids() && Queue() && Counted() && Balanced(arrived, taken, packets)
    }

    /** It was, when this was the queue. */
    ghost predicate ValidWith(queue: seq<Packet>)
      reads this`channels, this`listeners, this`accepting, this`nextChannel, this`arrived, this`taken,
            Live()`readAvail, Live()`skewed
    {
      && Ids() && AllValid(queue) && IdsBelow(queue, nextChannel) && Balanced(arrived, taken, queue)
      && forall c :: c in Live() && !c.skewed ==> c.readAvail == Wrap32(Waiting(queue, c.id))
    }

    lemma ValidNow()
      requires Valid()
      ensures AllValid(packets) && ValidWith(packets)
    {
      hide Apart, Balanced, Waiting;
    }

    /** `_libssh2_channel_locate`: the session's own channels first, then those that wait at its
        listeners. */
    method Locate(id: u32) returns (found: Option<Channel>)
      ensures match found
              case Some(c) => c in Owned() && c.id == id
              case None => forall c :: c in Owned() ==> c.id != id
      ensures Ids() ==> forall c :: c in Owned() && c.id == id ==> found == Some(c)
    {
      var i := 0;
      while i < |channels|
        invariant i <= |channels| && forall j :: 0 <= j < i ==> channels[j].id != id
      {
        if channels[i].id == id {
          return Some(channels[i]);
        }
        i := i + 1;
      }
      var k := 0;
      while k < |listeners|
        invariant k <= |listeners|
        invariant forall j, c :: 0 <= j < k && c in listeners[j].queue ==> c.id != id
      {
        found := LocateIn(listeners[k].queue, id);
        if found.Some? {
          return;
        }
        k := k + 1;
      }
      return None;
    }

    method LocateIn(queue: seq<Channel>, id: u32) returns (found: Option<Channel>)
      ensures match found
              case Some(c) => c in queue && c.id == id
              case None => forall c :: c in queue ==> c.id != id
    {
      for i := 0 to |queue|
        invariant forall j :: 0 <= j < i ==> queue[j].id != id
      {
        if queue[i].id == id {
          return Some(queue[i]);
        }
      }
      return None;
    }

    /** `_libssh2_channel_nextid` */
    method NextId() returns (id: u32)
      modifies this`nextChannel
      ensures id == NextIdOf(old(nextChannel), IdsOf(channels)) && nextChannel == Wrap32(id + 1)
      ensures old(Ids()) ==> id == old(nextChannel) && forall c :: c in Live() ==> c.id != id
    {
      id := nextChannel;
      ghost var ids := IdsOf(channels);
      for i := 0 to |channels|
        invariant id == NextIdOf(nextChannel, ids[..i])
      {
        assert ids[..i + 1] == ids[..i] + [channels[i].id];
        if channels[i].id > id {
          id := channels[i].id;
        }
      }
      assert ids[..|ids|] == ids;
      NextIdIsHighest(nextChannel, ids);
      if Ids() {
        assert forall i :: i in ids ==> i < nextChannel;
      }
      nextChannel := Wrap32(id + 1);
    }

    /** How much of a data packet is kept, its header included: no more than the packet size and
        the window allow; nothing when the window is full. */
    function Kept(c: Channel, len: nat, head: nat): (n: nat)
      requires head <= len
      reads c`remoteWindow, c`readAvail
      ensures n == 0 || head <= n <= len
    {
      var capped := if c.packetSize < len - head then c.packetSize + head else len;
      if c.remoteWindow <= c.readAvail then 0
      else if Wrap32(c.readAvail + capped - head) > c.remoteWindow then
        KeptFits(c.readAvail, capped - head, c.remoteWindow);
        c.remoteWindow - c.readAvail + head
      else capped
    }

    lemma KeptIsRight(c: Channel, len: nat, head: nat)
      requires head <= len
      ensures KeptOf(c, len - head, Kept(c, len, head), head)
    {
      hide Wrap32;
      WrapBy(c.readAvail + if c.packetSize < len - head then c.packetSize else len - head);
    }

    /** The channel a message is for, if it is long enough and there is one. */
    ghost predicate Target(data: seq<byte>, minLen: nat, target: Option<Channel>)
      requires minLen >= 5
      reads this`channels, this`listeners
    {
      match target
      case Some(c) => |data| >= minLen && c in Owned() && c.id == U32At(data, 1)
      case None => |data| < minLen || forall c :: c in Owned() ==> c.id != U32At(data, 1)
    }

    lemma IdsDiffer()
      requires Valid()
      ensures forall c, d :: c in Live() && d in Live() && c.id == d.id ==> c == d
    {
    }

    /** The data part of `packet_add`: what the packet size and the window leave of the packet is
        queued, counted, and taken as a sign that the end has not come. */
    method AddData(data: seq<byte>) returns (ghost target: Option<Channel>, ghost kept: nat)
      requires data != [] && (data[0] == CHANNEL_DATA || data[0] == CHANNEL_EXTENDED_DATA) && Valid()
      modifies this`packets, this`arrived, Live()`readAvail, Live()`remoteEof
      ensures Valid() && Target(data, Header(data[0]), target)
      ensures old(Keeps(Payload(data), kept)) && (kept > 0 ==> target.Some?)
      ensures packets == old(packets) + Seen(Payload(data), kept).Queue()
      ensures arrived == old(arrived) + Seen(Payload(data), kept).Arrival()
      ensures target.Some? ==> old(KeptOf(target.value, |data| - Header(data[0]), kept, Header(data[0])))
      ensures target.None? ==> kept == 0
      ensures forall c :: c in Owned() ==> c.remoteEof == Seen(Payload(data), kept).Ends(c.id, old(c.remoteEof))
      ensures target.Some? ==>
                if kept == 0 then target.value.remoteEof == old(target.value.remoteEof)
                else !target.value.remoteEof
                     && target.value.readAvail == Wrap32(old(target.value.readAvail) + (kept - Header(data[0])))
    {
      hide Valid, Wrap32, Kept, KeptOf, U32At, Target, Seen.Ends;
      kept := 0;
      IdsDiffer();
      var head := Header(data[0]);
      var found := FindTarget(data, head);
      target := found;
      OnlyTargetFilled(data, found);
      if found.None? {
        return;
      }
      TargetHas(data, head, found.value);
      var c := found.value;
      var n := Kept(c, |data|, head);
      KeptIsRight(c, |data|, head);
      kept := n;
      if n == 0 {
        return;
      }
      c.remoteEof := false;
      assert data[..n][head..] == data[head..n];
      SamePrefix(data, n);
      Enqueue(c, data[..n], head);
      assert Owned() == old(Owned());
    }

    lemma TargetHas(data: seq<byte>, minLen: nat, c: Channel)
      requires minLen >= 5 && Target(data, minLen, Some(c))
      ensures |data| >= minLen && c.id == U32At(data, 1)
    {
    }

    lemma OnlyTargetFilled(data: seq<byte>, target: Option<Channel>)
      requires Valid() && data != [] && !NoData(data[0]) && Target(data, Header(data[0]), target)
      ensures forall c, k, was :: c in Owned() && (k == 0 || (target.Some? && Header(data[0]) <= k <= |data|)) ==>
                Seen(Payload(data), k).Ends(c.id, was) == (was && (k == 0 || target != Some(c)))
    {
      hide Apart, Queue, Counted, Balanced, U32At;
    }

    /** The end of `packet_add` for channel data: the counter goes up and the packet is queued. */
    method Enqueue(c: Channel, data: seq<byte>, head: nat)
      requires Valid() && c in Live()
      requires Packet(data, head).Valid() && Packet(data, head).IsData() && Packet(data, head).Id() == c.id
      modifies this`packets, this`arrived, c`readAvail
      ensures Valid() && packets == old(packets) + [Packet(data, head)]
      ensures arrived == old(arrived) + [Chunk(c.id, Packet(data, head).StreamOf(), data[head..])]
      ensures c.readAvail == Wrap32(old(c.readAvail) + (|data| - head))
    {
      hide Balanced, Apart, Waiting, Take, U32At, Wrap32;
      var p := Packet(data, head);
      ArrivalKeepsBalance(arrived, taken, packets, p);
      QueuedOne(packets, p);
      WrapSum(Waiting(packets, c.id), |data| - head);
      c.readAvail := Wrap32(c.readAvail + (|data| - head));
      packets := packets + [p];
      arrived := arrived + [Chunk(c.id, p.StreamOf(), p.Unread())];
    }

    method AddOther(data: seq<byte>)
      requires Valid() && Packet(data, 0).Valid() && !Packet(data, 0).IsData()
      modifies this`packets
      ensures Valid() && packets == old(packets) + [Packet(data, 0)]
    {
      hide Balanced, Apart, Waiting, U32At, Wrap32;
      OthersKeepBalance(arrived, taken, packets, Packet(data, 0));
      packets := packets + [Packet(data, 0)];
    }

    method FindTarget(data: seq<byte>, minLen: nat) returns (target: Option<Channel>)
      requires minLen >= 5
      ensures Target(data, minLen, target) && (target.Some? ==> target.value in Owned())
    {
      if |data| < minLen {
        return None;
      }
      target := Locate(U32At(data, 1));
    }

    /** A grant for the send window. */
    method AddWindowAdjust(data: seq<byte>) returns (ghost target: Option<Channel>)
      requires Valid() && data != [] && data[0] == CHANNEL_WINDOW_ADJUST
      modifies Live()`localWindow, Live()`grants, Live()`moves
      ensures Valid() && Target(data, 9, target)
      ensures forall c :: c in Live() && Some(c) != target ==>
                c.localWindow == old(c.localWindow) && c.grants == old(c.grants) && c.moves == old(c.moves)
      ensures target.Some? ==>
                var c, n := target.value, U32At(data, 5);
                && c.localWindow == Wrap32(old(target.value.localWindow) + n)
                && c.grants == old(target.value.grants) + [n] && c.moves == old(target.value.moves) + [Raise(n)]
      ensures forall c :: c in Owned() ==> c.grants == old(c.grants) + Seen(Payload(data), 0).Grant(c.id)
      ensures KeepsSound()
    {
      hide Valid, U32At, Wrap32, Target, Seen.Grant, Channel.Sound;
      var found := FindTarget(data, 9);
      target := found;
      OnlyTargetGranted(data, found);
      if found.Some? {
        GrantTo(found.value, U32At(data, 5));
      }
    }

    method GrantTo(c: Channel, n: u32)
      requires Valid() && c in Live()
      modifies c`localWindow, c`grants, c`moves
      ensures Valid() && KeepsSound() && c.localWindow == Wrap32(old(c.localWindow) + n)
      ensures c.grants == old(c.grants) + [n] && c.moves == old(c.moves) + [Raise(n)]
    {
      hide Valid, Wrap32, Channel.Sound;
      c.Grant(n);
      assert Live() == old(Live());
    }

    lemma OnlyTargetGranted(data: seq<byte>, target: Option<Channel>)
      requires Valid() && data != [] && data[0] == CHANNEL_WINDOW_ADJUST && Target(data, 9, target)
      ensures forall c :: c in Owned() ==>
                Seen(Payload(data), 0).Grant(c.id) == if target == Some(c) then [U32At(data, 5)] else []
    {
      hide Apart, Queue, Counted, Balanced, U32At;
    }

    method AddEof(data: seq<byte>, close: bool) returns (ghost target: Option<Channel>)
      requires Valid() && data != [] && data[0] == (if close then CHANNEL_CLOSE else CHANNEL_EOF)
      modifies Live()`remoteEof, Live()`remoteClose
      ensures Valid() && Target(data, 5, target)
      ensures forall c :: c in Live() && Some(c) != target ==>
                c.remoteEof == old(c.remoteEof) && c.remoteClose == old(c.remoteClose)
      ensures target.Some? ==> target.value.remoteEof && target.value.remoteClose == (close || old(target.value.remoteClose))
      ensures forall c :: c in Owned() ==>
                var x := Seen(Payload(data), 0);
                c.remoteEof == x.Ends(c.id, old(c.remoteEof)) && c.remoteClose == (old(c.remoteClose) || x.Closes(c.id))
    {
      hide Balanced, Apart, Waiting, Target, U32At, Seen.Ends, Seen.Closes;
      var found := FindTarget(data, 5);
      target := found;
      OnlyTargetEnded(data, close, found);
      if found.Some? {
        found.value.remoteEof := true;
        if close {
          found.value.remoteClose := true;
        }
      }
      assert Owned() == old(Owned());
    }

    lemma OnlyTargetEnded(data: seq<byte>, close: bool, target: Option<Channel>)
      requires Valid() && data != [] && data[0] == (if close then CHANNEL_CLOSE else CHANNEL_EOF) && Target(data, 5, target)
      ensures forall c :: c in Owned() ==> Seen(Payload(data), 0).Closes(c.id) == (close && target == Some(c))
      ensures forall c, was :: c in Owned() ==> Seen(Payload(data), 0).Ends(c.id, was) == (was || target == Some(c))
    {
      hide Apart, Queue, Counted, Balanced, U32At;
    }

    lemma NothingKept(data: seq<byte>)
      requires data != [] && NoData(data[0])
      ensures Keeps(Payload(data), 0)
    {
    }

    /** `_libssh2_packet_add`. Requests and connections the other side asks for are dropped here;
        the replies to them are not part of the model. */
    method PacketAdd(data: seq<byte>) returns (rc: int, ghost target: Option<Channel>, ghost kept: nat)
      requires Valid() && data != []
      modifies this`packets, this`arrived, this`connected, Live()`readAvail, Live()`remoteEof, Live()`remoteClose,
               Live()`localWindow, Live()`grants, Live()`moves
      ensures Valid() && KeepsSound()
      ensures if data[0] == DISCONNECT then rc == ERROR_SOCKET_DISCONNECT && !connected else rc == 0 && connected == old(connected)
      ensures packets == old(packets) + Seen(Payload(data), kept).Queue()
      ensures arrived == old(arrived) + Seen(Payload(data), kept).Arrival()
      ensures old(Keeps(Payload(data), kept)) && (!NoData(data[0]) ==> Target(data, Header(data[0]), target))
      ensures data[0] == CHANNEL_EOF || data[0] == CHANNEL_CLOSE ==>
                Target(data, 5, target) && (target.Some? ==> target.value.remoteEof)
      ensures data[0] == CHANNEL_CLOSE && target.Some? ==> target.value.remoteClose
      ensures data[0] == CHANNEL_WINDOW_ADJUST ==> Target(data, 9, target)
      ensures data[0] == CHANNEL_WINDOW_ADJUST && target.Some? ==>
                && target.value.localWindow == Wrap32(old(target.value.localWindow) + U32At(data, 5))
                && target.value.moves == old(target.value.moves) + [Raise(U32At(data, 5))]
      ensures forall c :: c in Live() && (data[0] != CHANNEL_WINDOW_ADJUST || Some(c) != target) ==>
                c.localWindow == old(c.localWindow) && c.moves == old(c.moves)
      ensures forall c :: c in Owned() ==>
                var x := Seen(Payload(data), kept);
                && c.grants == old(c.grants) + x.Grant(c.id) && c.remoteEof == x.Ends(c.id, old(c.remoteEof))
                && c.remoteClose == (old(c.remoteClose) || x.Closes(c.id))
    {
      hide Valid, U32At, Channel.Sound, Channel.Pristine, Wrap32, Target, Keeps, KeptOf, Apart;
      hide Seen.Arrival, Seen.Grant, Seen.Ends, Seen.Closes;
      rc, target, kept := 0, None, 0;
      var msg := data[0];
      SaysOnly(data);
      if NoData(msg) {
        NothingArrives(data);
        NothingKept(data);
      }
      if msg == DISCONNECT {
        connected := false;
        rc := ERROR_SOCKET_DISCONNECT;
      } else if msg == CHANNEL_DATA || msg == CHANNEL_EXTENDED_DATA {
        target, kept := AddData(data);
      } else if msg == CHANNEL_EOF || msg == CHANNEL_CLOSE {
        target := AddEof(data, msg == CHANNEL_CLOSE);
      } else if msg == CHANNEL_WINDOW_ADJUST {
        target := AddWindowAdjust(data);
      } else if Queued(msg) {
        AddOther(data);
      }
    }

    /** Fewer than 2^32 channels are ever opened: there are ids for all that may still come. A connection
        that is being answered is the next event, and may have its id already. */
    ghost predicate Room()
      reads this`nextChannel, this`inbound, this`history, this`acceptState, this`accepting, this`reserve, this`arrived,
            this`channels, this`listeners, Live()`grants, Live()`remoteEof, Live()`remoteClose
    {
      && (acceptState.Idle? || acceptState.Created? || acceptState.Sent?)
      && (accepting.Some? ==> acceptState.Created?)
      && (!acceptState.Idle? ==> inbound != [] && inbound[0].ForwardedOpen?)
      && nextChannel + Forwards(inbound) + reserve < TWO32 + (if acceptState.Idle? then 0 else 1)
      && Recorded()
    }

    /** What was taken in and what is still to come is what the network delivers; all channel data that
        was ever queued, and everything that was granted to a channel, is what those events brought. */
    ghost predicate Recorded()
      reads this`inbound, this`history, this`accepting, this`arrived, this`channels, this`listeners,
            Live()`grants, Live()`remoteEof, Live()`remoteClose
    {
      RecordedAs(history, inbound)
    }

    ghost predicate RecordedAs(seen: seq<Seen>, rest: seq<Event>)
      reads this`accepting, this`arrived, this`channels, this`listeners,
            Live()`grants, Live()`remoteEof, Live()`remoteClose
    {
      && Events(seen) + rest == stream && arrived == Arrivals(seen)
      && forall c :: c in Live() ==> SaidOf(c, seen)
    }

    /** One more event has brought what it brings, but is not recorded yet. */
    ghost predicate Brought(x: Seen)
      reads this`inbound, this`history, this`accepting, this`arrived, this`channels, this`listeners,
            Live()`grants, Live()`remoteEof, Live()`remoteClose
    {
      && inbound != [] && inbound[0] == x.event && Events(history) + inbound == stream
      && arrived == Arrivals(history) + x.Arrival()
      && forall c :: c in Live() ==> NowSaid(c, history, x)
    }

    lemma ThenRecorded(x: Seen)
      requires Brought(x)
      ensures RecordedAs(history + [x], inbound[1..])
    {
      hide GrantsTo, EndedIn, ClosedIn, Arrivals, Events, Seen.Arrival, Seen.Grant, Seen.Ends, Seen.Closes;
      SeenStep(history, x);
      assert Events(history) + [inbound[0]] + inbound[1..] == Events(history) + inbound;
      forall c | c in Live() ensures SaidOf(c, history + [x]) {
        SaidShift(history, c.born, x, c.id);
      }
    }

    /** An event that is not a packet, or an empty one, brings nothing for the channels there are. */
    lemma BringsNothing()
      requires inbound != [] && (inbound[0].Payload? ==> inbound[0].data == [])
      requires Events(history) + inbound == stream && arrived == Arrivals(history)
      requires forall c :: c in Live() ==> SaidOf(c, history)
      ensures Brought(Seen(inbound[0], 0))
    {
      hide GrantsTo, EndedIn, ClosedIn, Arrivals, Events;
    }

    /** How much of an event is kept: of channel data for a channel that is there what its packet size and
        its window leave, of anything else nothing. */
    ghost predicate Keeps(event: Event, kept: nat)
      reads this`channels, this`listeners, Owned()`remoteWindow, Owned()`readAvail
    {
      if event.Payload? && event.data != [] && !NoData(event.data[0]) && |event.data| >= Header(event.data[0]) then
        var id := U32At(event.data, 1);
        && (forall c :: c in Owned() && c.id == id ==>
              KeptOf(c, |event.data| - Header(event.data[0]), kept, Header(event.data[0])))
        && ((forall c :: c in Owned() ==> c.id != id) ==> kept == 0)
      else kept == 0
    }

    method FindListener(host: seq<byte>, port: int) returns (found: Option<nat>)
      ensures ListensFirst(listeners, host, port, found)
    {
      for k := 0 to |listeners|
        invariant forall j :: 0 <= j < k ==> listeners[j].host != host || listeners[j].port != port
      {
        if listeners[k].port == port && listeners[k].host == host {
          return Some(k);
        }
      }
      return None;
    }

    lemma NothingForNextId()
      requires Queue()
      ensures Waiting(packets, nextChannel) == 0
    {
      hide U32At, Waiting, Pending;
      NothingWaiting(packets, nextChannel);
    }

    method TakeId() returns (id: u32)
      requires Valid() && nextChannel < TWO32 - 1
      modifies this`nextChannel
      ensures Valid() && id == old(nextChannel) && nextChannel == old(nextChannel) + 1
      ensures Waiting(packets, id) == 0 && forall d :: d in Live() ==> d.id != id
    {
      hide Balanced, Apart, Waiting, U32At;
      NothingForNextId();
      id := NextId();
      WrapSmall(id + 1);
    }

    /** A new channel under the next id. */
    method NewChannel(window: u32, packetSize: u32) returns (c: Channel)
      requires Valid() && nextChannel < TWO32 - 1
      modifies this`nextChannel
      ensures Valid() && fresh(c) && c.id == old(nextChannel) && nextChannel == old(nextChannel) + 1
      ensures Waiting(packets, c.id) == 0 && forall d :: d in Live() ==> d.id != c.id
      ensures c.Untouched() && c.windowInitial == window && c.packetSize == packetSize && !c.merge && c.born == |history|
    {
      hide Valid, Waiting, Channel.Sound;
      var id := TakeId();
      c := new Channel(id, window, packetSize, |history|);
    }

    /** A channel is made for a forwarded connection. */
    method StartAccept(sender: u32, window: u32, packetSize: u32)
      requires Valid() && accepting.None? && nextChannel < TWO32 - 1
      modifies this`nextChannel, this`accepting
      ensures Valid() && accepting.Some? && fresh(accepting.value) && accepting.value.id == old(nextChannel)
      ensures accepting.value.Sound() && accepting.value.MadeAt(|history|) && nextChannel == old(nextChannel) + 1
      ensures MadeFor(accepting.value, sender, window, packetSize)
    {
      hide Valid, Waiting, Channel.Sound;
      var c := NewChannel(WINDOW_DEFAULT, PACKET_DEFAULT);
      c.OpenedAtOnce(sender, window, packetSize);
      Hold(c);
    }

    method Hold(c: Channel)
      requires Valid() && accepting.None? && c.id < nextChannel && forall d :: d in Live() ==> d.id != c.id
      requires c.readAvail == 0 && Waiting(packets, c.id) == 0
      modifies this`accepting
      ensures Valid() && accepting == Some(c)
    {
      hide Balanced, Apart, Pending, Waiting, U32At, OwnedBy;
      WrapSmall(0);
      accepting := Some(c);
    }

    /** The channel joins the end of a listener's queue. */
    method JoinQueue(k: nat)
      requires Valid() && accepting.Some? && k < |listeners| && !listeners[k].Full()
      modifies this`listeners, this`accepting
      ensures Valid() && accepting.None? && Live() == old(Live())
      ensures listeners == old(listeners)[k := old(listeners[k].(queue := listeners[k].queue + [accepting.value]))]
    {
      hide Balanced, Apart, Pending, Waiting, U32At, OwnedBy;
      var l := listeners[k];
      QueuedIsOwned(channels, listeners, k, accepting.value);
      QueuedApart(channels, listeners, k, accepting.value);
      listeners := listeners[k := l.(queue := l.queue + [accepting.value])];
      accepting := None;
    }

    /** The channel that is held is let go of: nobody knows it any more. */
    method LetGo()
      requires Valid()
      modifies this`accepting
      ensures Valid() && accepting.None? && Live() == Owned() && Live() <= old(Live())
    {
      hide Balanced, Apart, Pending, Waiting, U32At, OwnedBy;
      accepting := None;
    }

    /** The transport layer is given a message that belongs to no open channel. */
    method Reply() returns (rc: int, ghost answer: Answer)
      ensures rc == answer.Code()
    {
      var done, again := *, *;
      return if done then 0 else if again then ERROR_EAGAIN else ERROR_SOCKET_SEND,
             if done then Done else if again then PutOff else Broken;
    }

    /** The confirmation is sent, and the channel that is held, if any, is queued. */
    method FinishAccept(k: nat) returns (rc: int, ghost answer: Answer)
      requires Valid() && acceptState.Created? && k < |listeners| && (accepting.Some? ==> !listeners[k].Full())
      modifies this`listeners, this`acceptState, this`accepting
      ensures Valid() && rc == answer.Code() && Live() <= old(Live())
      ensures acceptState == if answer.PutOff? then Created else Idle
      ensures accepting == if answer.PutOff? then old(accepting) else None
      ensures listeners == if answer.Done? && old(accepting).Some? then
                             old(listeners)[k := old(listeners[k].(queue := listeners[k].queue + [accepting.value]))]
                           else old(listeners)
    {
      hide Valid;
      rc, answer := Reply();
      assert Live() == old(Live());
      if rc == ERROR_EAGAIN {
        return;
      }
      if rc == 0 && accepting.Some? {
        JoinQueue(k);
      } else {
        LetGo();
      }
      acceptState := Idle;
    }

    /** The other side is told that nobody listens, or that the queue is full. */
    method Refuse() returns (rc: int, ghost answer: Answer)
      requires Valid()
      modifies this`acceptState, this`accepting
      ensures Valid() && rc == answer.Code() && Live() <= old(Live()) && accepting.None?
      ensures acceptState == if answer.PutOff? then Sent else Idle
    {
      hide Valid;
      LetGo();
      label Free:
      rc, answer := Reply();
      assert Live() == old@Free(Live());
      acceptState := if rc == ERROR_EAGAIN then Sent else Idle;
    }

    /** What a listener's queue and the connection for it have come to. */
    ghost function AcceptAt(k: nat): Accept
      requires k < |listeners|
      reads this`listeners, this`acceptState, this`accepting
    {
      Accept(acceptState, accepting, listeners[k].queue)
    }

    /** One call of `packet_queue_listener` that comes to the listener. */
    method AnswerAt(k: nat, sender: u32, window: u32, packetSize: u32)
      returns (rc: int, ghost made: Option<Channel>, ghost answer: Answer)
      requires Valid() && k < |listeners| && (acceptState.Created? || (acceptState.Idle? && !listeners[k].Full()))
      requires acceptState.Idle? ==> nextChannel < TWO32 - 1
      modifies this`nextChannel, this`listeners, this`acceptState, this`accepting
      ensures Valid() && rc == answer.Code() && fresh(Live() - old(Live())) && KeepsSound()
      ensures made.Some? <==> old(acceptState).Idle?
      ensures made.Some? ==> fresh(made.value) && made.value.Sound() && made.value.id == old(nextChannel)
      ensures made.Some? ==> MadeFor(made.value, sender, window, packetSize)
      ensures forall c :: c in Live() && c !in old(Live()) ==>
                c.MadeAt(|history|) && c.id == old(nextChannel) && MadeFor(c, sender, window, packetSize)
      ensures nextChannel == old(nextChannel) + (if made.Some? then 1 else 0)
      ensures |listeners| == |old(listeners)|
      ensures AcceptAt(k) == old(AcceptAt(k)).Pass(old(listeners[k].Full()), made, answer)
      ensures listeners == old(listeners)[k := old(listeners[k]).(queue := listeners[k].queue)]
      ensures accepting.Some? ==> acceptState.Created?
    {
      hide Valid, Channel.Sound;
      made := TakeHold(sender, window, packetSize);
      label Held:
      rc, answer := FinishAccept(k);
      assert Live() <= old@Held(Live());
    }

    /** What a former call holds is let go of; the first call makes a channel. */
    method TakeHold(sender: u32, window: u32, packetSize: u32) returns (ghost made: Option<Channel>)
      requires Valid() && (acceptState.Created? || (acceptState.Idle? && nextChannel < TWO32 - 1))
      modifies this`nextChannel, this`acceptState, this`accepting
      ensures Valid() && fresh(Live() - old(Live())) && KeepsSound() && acceptState.Created? && accepting == made
      ensures made.Some? <==> old(acceptState).Idle?
      ensures made.Some? ==> fresh(made.value) && made.value.Sound() && made.value.id == old(nextChannel)
      ensures made.Some? ==> MadeFor(made.value, sender, window, packetSize)
      ensures forall c :: c in Live() && c !in old(Live()) ==>
                c.MadeAt(|history|) && c.id == old(nextChannel) && MadeFor(c, sender, window, packetSize)
      ensures nextChannel == old(nextChannel) + (if made.Some? then 1 else 0)
    {
      hide Valid, Channel.Sound;
      made := None;
      LetGo();
      if acceptState.Idle? {
        StartAccept(sender, window, packetSize);
        made := accepting;
        acceptState := Created;
      }
    }

    /** `packet_queue_listener`: one call of it, for the first listener for the host and port. */
    method QueueListener(host: seq<byte>, port: int, sender: u32, window: u32, packetSize: u32)
      returns (rc: int, ghost found: Option<nat>, ghost made: Option<Channel>, ghost answer: Answer)
      requires Valid() && (acceptState.Idle? || acceptState.Created? || acceptState.Sent?)
      requires (accepting.Some? ==> acceptState.Created?) && (acceptState.Idle? ==> nextChannel < TWO32 - 1)
      modifies this`nextChannel, this`listeners, this`acceptState, this`accepting
      ensures Valid() && rc == answer.Code() && fresh(Live() - old(Live())) && KeepsSound()
      ensures ListensFirst(old(listeners), host, port, found)
      ensures made.Some? <==> old(acceptState).Idle? && found.Some? && !old(listeners)[found.value].Full()
      ensures made.Some? ==> fresh(made.value) && made.value.Sound() && made.value.id == old(nextChannel)
      ensures made.Some? ==> MadeFor(made.value, sender, window, packetSize)
      ensures forall c :: c in Live() && c !in old(Live()) ==>
                c.MadeAt(|history|) && c.id == old(nextChannel) && MadeFor(c, sender, window, packetSize)
      ensures nextChannel == old(nextChannel) + (if made.Some? then 1 else 0)
      ensures match found
              case Some(k) =>
                && |listeners| == |old(listeners)|
                && AcceptAt(k) == old(AcceptAt(k)).Pass(old(listeners[k].Full()), made, answer)
                && listeners == old(listeners)[k := old(listeners[k]).(queue := listeners[k].queue)]
              case None => listeners == old(listeners) && accepting.None? && (acceptState.Idle? <==> !answer.PutOff?)
      ensures (acceptState.Idle? || acceptState.Created? || acceptState.Sent?) && (accepting.Some? ==> acceptState.Created?)
      ensures acceptState.Idle? <==> rc != ERROR_EAGAIN
    {
      hide Valid, Channel.Sound;
      made := None;
      found := None;
      var at := FindListener(host, port);
      found := at;
      assert Live() == old(Live());
      if acceptState.Sent? || at.None? || (acceptState.Idle? && listeners[at.value].Full()) {
        rc, answer := Refuse();
        return;
      }
      rc, made, answer := AnswerAt(at.value, sender, window, packetSize);
    }

    /** An event that brings nothing for anyone. */
    method Pass()
      requires Valid() && Room() && acceptState.Idle? && inbound != [] && !inbound[0].ForwardedOpen?
      requires inbound[0].Payload? ==> inbound[0].data == []
      modifies this`inbound, this`history
      ensures Valid() && Room() && inbound == old(inbound)[1..] && history == old(history) + [Seen(old(inbound)[0], 0)]
    {
      hide Valid, SaidOf, Arrivals, Events, Brought;
      BringsNothing();
      ThenRecorded(Seen(inbound[0], 0));
      history, inbound := history + [Seen(inbound[0], 0)], inbound[1..];
      assert Live() == old(Live());
    }

    /** A packet comes in. */
    method Receives(data: seq<byte>) returns (rc: int, ghost kept: nat)
      requires Valid() && Room() && acceptState.Idle? && inbound != [] && inbound[0] == Payload(data) && data != []
      modifies this`packets, this`arrived, this`connected, this`inbound, this`history,
               Live()`readAvail, Live()`remoteEof, Live()`remoteClose, Live()`localWindow, Live()`grants, Live()`moves
      ensures Valid() && Room() && KeepsSound() && inbound == old(inbound)[1..] && Live() == old(Live())
      ensures if data[0] == DISCONNECT then rc == ERROR_SOCKET_DISCONNECT else rc == 0 && connected == old(connected)
      ensures history == old(history) + [Seen(old(inbound)[0], kept)] && old(Keeps(inbound[0], kept))
      ensures packets == old(packets) + Seen(old(inbound)[0], kept).Queue()
    {
      hide Valid, GrantsTo, EndedIn, ClosedIn, Arrivals, Events, Seen.Arrival, Seen.Grant, Seen.Ends, Seen.Closes, Seen.Queue,
           Channel.Sound, Keeps, Target, Wrap32, U32At;
      rc, kept := Bring(data);
      Record(kept);
    }

    /** The event is recorded. */
    method Record(ghost kept: nat)
      requires Valid() && inbound != [] && inbound[0].Payload? && Brought(Seen(inbound[0], kept))
      requires accepting.None? && acceptState.Idle? && nextChannel + Forwards(inbound) + reserve < TWO32
      modifies this`inbound, this`history
      ensures Valid() && Room() && KeepsSound() && Live() == old(Live())
      ensures inbound == old(inbound)[1..] && history == old(history) + [Seen(old(inbound)[0], kept)]
    {
      hide Valid, Brought, SaidOf, Arrivals, Events, Channel.Sound;
      ThenRecorded(Seen(inbound[0], kept));
      history, inbound := history + [Seen(inbound[0], kept)], inbound[1..];
      assert Live() == old(Live());
    }

    /** What it brings is there, but it is not recorded yet. */
    method Bring(data: seq<byte>) returns (rc: int, ghost kept: nat)
      requires Valid() && Recorded() && accepting.None? && inbound != [] && inbound[0] == Payload(data) && data != []
      modifies this`packets, this`arrived, this`connected,
               Live()`readAvail, Live()`remoteEof, Live()`remoteClose, Live()`localWindow, Live()`grants, Live()`moves
      ensures Valid() && KeepsSound() && Live() == old(Live()) && Brought(Seen(Payload(data), kept))
      ensures if data[0] == DISCONNECT then rc == ERROR_SOCKET_DISCONNECT else rc == 0 && connected == old(connected)
      ensures old(Keeps(inbound[0], kept)) && packets == old(packets) + Seen(Payload(data), kept).Queue()
    {
      hide Valid, GrantsTo, EndedIn, ClosedIn, Arrivals, Events, Seen.Arrival, Seen.Grant, Seen.Ends, Seen.Closes, Seen.Queue,
           Channel.Sound, Keeps, Target, Wrap32, U32At;
      ghost var target;
      rc, target, kept := PacketAdd(data);
      assert Live() == old(Live()) && Owned() == Live();
    }

    /** The connection for a listener that comes next; it stays there until it is dealt with. */
    method Forwarded() returns (rc: int)
      requires Valid() && Room() && inbound != [] && inbound[0].ForwardedOpen?
      modifies this`inbound, this`history, this`nextChannel, this`listeners, this`acceptState, this`accepting
      ensures Valid() && Room() && fresh(Live() - old(Live())) && |listeners| == |old(listeners)|
      ensures forall c :: c in Live() && c !in old(Live()) ==> MadeBy(c, old(inbound)[0])
      ensures QueuesAt(old(listeners), listeners, old(inbound)[0].host, old(inbound)[0].port)
      ensures KeepsSound()
      ensures inbound == if acceptState.Idle? then old(inbound)[1..] else old(inbound)
      ensures history == old(history) + if acceptState.Idle? then [Seen(old(inbound)[0], 0)] else []
      ensures if acceptState.Idle? then rc == CHANNEL_OPEN as int || rc == ERROR_SOCKET_SEND else rc == ERROR_EAGAIN
    {
      hide Valid, Channel.Sound, SaidOf, Arrivals, Events, Brought;
      rc := Answered();
      if acceptState.Idle? {
        BringsNothing();
        ThenRecorded(Seen(inbound[0], 0));
        history, inbound := history + [Seen(inbound[0], 0)], inbound[1..];
      }
    }

    method Answered() returns (rc: int)
      requires Valid() && Room() && inbound != [] && inbound[0].ForwardedOpen?
      modifies this`nextChannel, this`listeners, this`acceptState, this`accepting
      ensures Valid() && KeepsSound() && fresh(Live() - old(Live())) && |listeners| == |old(listeners)|
      ensures forall c :: c in Live() && c !in old(Live()) ==> MadeBy(c, inbound[0])
      ensures QueuesAt(old(listeners), listeners, inbound[0].host, inbound[0].port)
      ensures Recorded() && (acceptState.Idle? || acceptState.Created? || acceptState.Sent?)
      ensures accepting.Some? ==> acceptState.Created?
      ensures nextChannel + Forwards(inbound) + reserve < TWO32 + 1
      ensures if acceptState.Idle? then rc == CHANNEL_OPEN as int || rc == ERROR_SOCKET_SEND else rc == ERROR_EAGAIN
    {
      hide Valid, Channel.Sound, GrantsTo, EndedIn, ClosedIn, Arrivals, Events;
      var e := inbound[0];
      ghost var before := listeners;
      var code, found, _, _ := QueueListener(e.host, e.port, e.sender, e.window, e.packetSize);
      assert QueuesOne(before, listeners, found);
      rc := if code == 0 then CHANNEL_OPEN as int else code;
      forall c | c in Live() ensures SaidOf(c, history) {
        NothingSaid(history, c.id);
        assert c in old(Live()) || c.MadeAt(|history|);
      }
    }

    /** Why reading comes to an end: the connection is gone, nothing more has come, a forwarded connection
        cannot be confirmed yet, or the last event taken in says so. */
    ghost predicate Stops(rc: int, before: nat)
      reads this`connected, this`inbound, this`history, this`acceptState
    {
      if before < |history| && history[|history| - 1].event.Result() <= 0 then rc == history[|history| - 1].event.Result()
      else
        || (!connected && rc == ERROR_SOCKET_DISCONNECT)
        || ((inbound == [] || !acceptState.Idle?) && rc == ERROR_EAGAIN)
        || (before < |history| && history[|history| - 1].event.ForwardedOpen? && rc == ERROR_SOCKET_SEND)
    }

    /** The last event taken in was one of no account. */
    ghost predicate CameToNothing(before: nat)
      reads this`history
    {
      before < |history| && history[|history| - 1].event.Result() == 0
    }

    /** The last event taken in had this result. */
    ghost predicate LastCame(rc: int, before: nat)
      reads this`history
    {
      before < |history| && history[|history| - 1].event.Result() == rc
    }

    lemma SaidNow(c: Channel)
      requires Room() && c in Live()
      ensures SaidOf(c, history)
    {
      hide SaidOf;
    }

    lemma NoReplyIsNoDenial(rc: int, before: nat, good: byte, bad: byte)
      requires NoReply(rc, before, good, bad)
      ensures rc < 0 && (rc == ERROR_CHANNEL_REQUEST_DENIED ==> LastCame(rc, before))
    {
    }

    lemma StopsAtNothing(rc: int, before: nat)
      requires Stops(rc, before)
      ensures rc == 0 <==> CameToNothing(before)
    {
    }

    /** All that has come is taken in, or reading came to an end before. */
    ghost predicate ReadOut(before: nat)
      reads this`connected, this`inbound, this`history, this`acceptState
    {
      || !connected || inbound == [] || !acceptState.Idle?
      || (before < |history|
          && var last := history[|history| - 1].event;
             last.ForwardedOpen? || last.Result() <= 0)
    }

    /** `_libssh2_transport_read`: one event. The type of a packet is returned, 0 for nothing, or an
        error; a connection that could not be confirmed yet is taken up again. */
    method TransportRead() returns (rc: int, ghost kept: nat)
      requires Valid() && Room()
      modifies this`packets, this`arrived, this`connected, this`inbound, this`history, this`nextChannel, this`listeners,
               this`acceptState, this`accepting,
               Live()`readAvail, Live()`remoteEof, Live()`remoteClose, Live()`localWindow, Live()`grants, Live()`moves
      ensures Valid() && Room() && KeepsSound() && fresh(Live() - old(Live())) && |listeners| == |old(listeners)|
      ensures forall c :: c in Live() && c !in old(Live()) ==> old(inbound) != [] && MadeBy(c, old(inbound)[0])
      ensures if old(connected && inbound != []) && old(inbound)[0].ForwardedOpen?
              then QueuesAt(old(listeners), listeners, old(inbound)[0].host, old(inbound)[0].port)
              else listeners == old(listeners)
      ensures |inbound| == |old(inbound)| ==>
                rc < 0 && inbound == old(inbound) && history == old(history) && packets == old(packets)
      ensures |inbound| != |old(inbound)| ==>
                && |old(inbound)| > 0 && inbound == old(inbound)[1..]
                && history == old(history) + [Seen(old(inbound)[0], kept)] && old(Keeps(inbound[0], kept))
                && packets == old(packets) + Seen(old(inbound)[0], kept).Queue()
      ensures if rc > 0 then |inbound| < |old(inbound)| && rc == old(inbound)[0].Result() else Stops(rc, |old(history)|)
      ensures !old(connected) ==> rc == ERROR_SOCKET_DISCONNECT && inbound == old(inbound)
      ensures old(connected && inbound == []) ==> rc == ERROR_EAGAIN
      ensures old(connected && inbound != []) ==>
                if old(inbound)[0].ForwardedOpen? then rc == CHANNEL_OPEN as int || rc == ERROR_EAGAIN || rc == ERROR_SOCKET_SEND
                else |inbound| < |old(inbound)| && rc == old(inbound)[0].Result()
      ensures connected == old(connected) || rc == ERROR_SOCKET_DISCONNECT
    {
      hide Valid, Room, Channel.Sound;
      kept := 0;
      if !connected {
        return ERROR_SOCKET_DISCONNECT, 0;
      }
      if inbound == [] {
        return ERROR_EAGAIN, 0;
      }
      var event := inbound[0];
      if event.ForwardedOpen? {
        rc := Forwarded();
        return;
      }
      NobodyIsAnswered();
      if event.Payload? && event.data != [] {
        rc, kept := Receives(event.data);
        if rc == 0 {
          rc := event.data[0];
        }
        return;
      }
      Pass();
      rc := event.Result();
    }

    lemma NobodyIsAnswered()
      requires Room() && inbound != [] && !inbound[0].ForwardedOpen?
      ensures acceptState.Idle?
    {
    }

    /** `do rc = transport_read while(rc > 0)` */
    method ReadAll() returns (rc: int)
      requires Valid() && Room()
      modifies this`packets, this`arrived, this`connected, this`inbound, this`history, this`nextChannel, this`listeners,
               this`acceptState, this`accepting,
               Live()`readAvail, Live()`remoteEof, Live()`remoteClose, Live()`localWindow, Live()`grants, Live()`moves
      ensures Valid() && Room() && rc <= 0 && fresh(Live() - old(Live()))
      ensures old(history) <= history && packets == old(packets) + Queues(history[|old(history)|..])
      ensures KeepsSound()
      ensures |listeners| == |old(listeners)|
      ensures Stops(rc, |old(history)|) && ReadOut(|old(history)|)
      ensures forall i :: |old(history)| <= i < |history| - 1 ==> history[i].event.Result() > 0
    {
      hide Valid, Room, Channel.Sound, Seen.Queue, Queues;
      rc := 1;
      NothingQueued();
      assert history[|history|..] == [];
      while rc > 0
        invariant Valid() && Room() && fresh(Live() - old(Live()))
        invariant old(history) <= history && packets == old(packets) + Queues(history[|old(history)|..])
        invariant KeepsSound()
        invariant |listeners| == |old(listeners)|
        invariant rc > 0 || Stops(rc, |old(history)|)
        invariant forall i :: |old(history)| <= i < |history| - (if rc > 0 then 0 else 1) ==> history[i].event.Result() > 0
        decreases |inbound| + (if rc > 0 then 1 else 0)
      {
        ghost var before, kept := history, 0;
        ghost var next := if inbound == [] then Nothing else inbound[0];
        rc, kept := TransportRead();
        QueuesGrow(old(history), before, Seen(next, kept));
      }
    }

    /** The loop of `_libssh2_channel_read` over the queue. */
    method TakePackets(id: u32, pick: Pick, buf: array<byte>) returns (n: nat, ghost log: seq<Chunk>)
      requires AllValid(packets)
      modifies this`packets, buf
      ensures AllValid(packets) && Take(old(packets), buf.Length, id, pick) == Taken(packets, log)
      ensures n == |BytesOf(log)| <= buf.Length && buf[..] == BytesOf(log) + old(buf[..])[n..]
    {
      hide Selected, Take, BytesOf, Walking;
      n, log := 0, [];
      BytesOfNothing();
      WalkStarts(packets, buf.Length, id, pick);
      ghost var before := buf[..];
      var i: nat := 0;
      while i < |packets| && n < buf.Length
        invariant n == |BytesOf(log)| <= buf.Length && buf[..] == BytesOf(log) + before[n..]
        invariant i <= |packets| && Walking(packets, i, log, old(packets), buf.Length, id, pick)
        decreases |packets| - i
      {
        if Selected(packets[i], id, pick) {
          n, i, log := TakeOne(i, n, id, pick, buf, log, before, old(packets));
        } else {
          WalkSkips(packets, i, log, old(packets), buf.Length, id, pick);
          i := i + 1;
        }
      }
      WalkEnds(packets, i, log, old(packets), buf.Length, id, pick);
    }

    /** A packet that is meant: its bytes are copied, and it is unlinked or its head moves on. */
    method TakeOne(i: nat, n: nat, id: u32, pick: Pick, buf: array<byte>, ghost log: seq<Chunk>, ghost before: seq<byte>,
                   ghost q0: seq<Packet>)
      returns (n': nat, i': nat, ghost log': seq<Chunk>)
      requires AllValid(q0) && Walking(packets, i, log, q0, buf.Length, id, pick) && i < |packets| && Selected(packets[i], id, pick)
      requires n == |BytesOf(log)| < buf.Length == |before| && buf[..] == BytesOf(log) + before[n..]
      modifies this`packets, buf
      ensures Walking(packets, i', log', q0, buf.Length, id, pick) && i' <= |packets| && |packets| - i' < old(|packets|) - i
      ensures n' == |BytesOf(log')| <= buf.Length && buf[..] == BytesOf(log') + before[n'..]
    {
      hide Selected, Take, BytesOf, Walking, U32At;
      WalkTakes(packets, i, log, q0, buf.Length, id, pick);
      var p := packets[i];
      var k, unlink := buf.Length - n, false;
      if k >= |p.data| - p.head {
        k, unlink := |p.data| - p.head, true;
      }
      assert p.Unread()[..k] == p.data[p.head..p.head + k];
      ghost var c := Chunk(id, p.StreamOf(), p.Unread()[..k]);
      log' := log + [c];
      BytesAppend(log, c);
      Deliver(buf, p.data[p.head..p.head + k], BytesOf(log), before, n);
      n' := n + k;
      if unlink {
        assert p.Unread()[..k] == p.Unread();
        packets := packets[..i] + packets[i + 1..];
        i' := i;
      } else {
        packets := packets[..i] + [Packet(p.data, p.head + k)] + packets[i + 1..];
        i' := i + 1;
      }
    }

    /** Chunks taken out of the queue are counted off. */
    method CountOff(c: Channel, ghost before: seq<Packet>, ghost want: nat, ghost pick: Pick, n: nat, ghost log: seq<Chunk>)
      requires ValidWith(before) && AllValid(before) && AllValid(packets)
      requires Take(before, want, c.id, pick) == Taken(packets, log)
      requires n == |BytesOf(log)| && c in Live()
      modifies this`taken, c`readAvail
      ensures Valid() && taken == old(taken) + log
      ensures c.readAvail == Wrap32(old(c.readAvail) - n)
      ensures !c.skewed ==> c.readAvail == Wrap32(Waiting(packets, c.id))
    {
      hide Balanced, Apart, Waiting, Take, BytesOf, IdsBelow, Wrap32, OwnedBy;
      TakingKeepsBalance(arrived, taken, before, want, c.id, pick);
      TakingCounts(before, want, c.id, pick);
      TakeKeepsIds(before, want, c.id, pick, nextChannel);
      WrapSum(Waiting(before, c.id), 0 - n);
      taken := taken + log;
      c.readAvail := Wrap32(c.readAvail - n);
    }

    /** The queue part of a read. */
    method Receive(c: Channel, pick: Pick, buf: array<byte>) returns (n: nat, ghost log: seq<Chunk>)
      requires Valid() && c in Live()
      modifies this`packets, this`taken, c`readAvail, buf
      ensures Valid() && KeepsSound() && taken == old(taken) + log && OnlyAsked(log, c.id, pick)
      ensures n == |BytesOf(log)| <= buf.Length && buf[..n] == BytesOf(log)
      ensures n < buf.Length ==> forall p :: p in packets ==> !Selected(p, c.id, pick)
      ensures Take(old(packets), buf.Length, c.id, pick) == Taken(packets, log)
    {
      hide Valid, ValidWith, Waiting, Take, BytesOf, IdsBelow, Wrap32, OnlyAsked, Selected, U32At, Channel.Sound;
      ValidNow();
      ghost var before := packets;
      n, log := TakePackets(c.id, pick, buf);
      TakeIsAsked(before, buf.Length, c.id, pick);
      if n < buf.Length {
        TakeDrains(before, buf.Length, c.id, pick);
      }
      CountOff(c, before, buf.Length, pick, n, log);
    }

    lemma QueueIsValid()
      requires Valid()
      ensures AllValid(packets)
    {
    }

    /** The middle of `_libssh2_channel_read`: all that has come in is queued, then the queue is
        walked, unless the connection failed. */
    method Fetch(c: Channel, pick: Pick, buf: array<byte>)
      returns (rc: int, n: nat, ghost log: seq<Chunk>, ghost came: seq<Packet>)
      requires Valid() && Room() && c in channels
      modifies this`packets, this`arrived, this`taken, this`connected, this`inbound, this`history, this`nextChannel, this`listeners,
               this`acceptState, this`accepting,
               Live()`readAvail, Live()`remoteEof, Live()`remoteClose, Live()`localWindow, Live()`grants, Live()`moves, buf
      ensures Valid() && Room() && taken == old(taken) + log && OnlyAsked(log, c.id, pick)
      ensures fresh(Live() - old(Live()))
      ensures KeepsSound()
      ensures rc <= 0 && n == |BytesOf(log)| <= buf.Length && buf[..n] == BytesOf(log)
      ensures Stops(rc, |old(history)|) && ReadOut(|old(history)|)
      ensures old(history) <= history && came == old(packets) + Queues(history[|old(history)|..]) && AllValid(came)
      ensures Taken(packets, log) == if rc < 0 && rc != ERROR_EAGAIN then Taken(came, [])
                                     else Take(came, buf.Length, c.id, pick)
      ensures (rc == 0 || rc == ERROR_EAGAIN) && n < buf.Length ==> forall p :: p in packets ==> !Selected(p, c.id, pick)
    {
      hide Valid, Room, Take, Total, Selected, Asked, Queues, Stops, ReadOut, Channel.Sound;
      n, log := 0, [];
      rc := ReadAll();
      came := packets;
      QueueIsValid();
      if rc < 0 && rc != ERROR_EAGAIN {
        return;
      }
      label Come:
      n, log := Receive(c, pick, buf);
      assert Live() == old@Come(Live());
    }

    /** The loop of `_libssh2_channel_flush` over the queue: whole packets are dropped. */
    method FlushPackets(id: u32, pick: Pick) returns (flushed: nat, refund: int, ghost log: seq<Chunk>)
      requires AllValid(packets)
      modifies this`packets
      ensures AllValid(packets)
      ensures Take(old(packets), Waiting(old(packets), id) + 1, id, pick) == Taken(packets, log)
      ensures flushed == |BytesOf(log)| && refund == Refund(old(packets), id, pick)
    {
      hide Selected, U32At, Take, Taken.After, Waiting;
      flushed, refund, log := 0, 0, [];
      ghost var want := Waiting(packets, id) + 1;
      TakeStarts(packets, want, id, pick);
      assert packets[0..] == packets;
      var i: nat := 0;
      while i < |packets|
        invariant i <= |packets| && AllValid(packets) && flushed == |BytesOf(log)| && want - flushed > Waiting(packets[i..], id)
        invariant Take(packets[i..], want - flushed, id, pick).After(packets[..i], log) == Take(old(packets), want, id, pick)
        invariant refund + Refund(packets[i..], id, pick) == Refund(old(packets), id, pick)
        decreases |packets| - i
      {
        var p := packets[i];
        assert packets[i..][1..] == packets[i + 1..];
        if Selected(p, id, pick) {
          FlushStep(packets, i, log, want - flushed, id, pick);
          ghost var c := Chunk(id, p.StreamOf(), p.Unread());
          BytesAppend(log, c);
          log := log + [c];
          refund := refund + (|p.data| - 13);
          flushed := flushed + (|p.data| - p.head);
          ghost var q := packets;
          packets := packets[..i] + packets[i + 1..];
          assert packets[i..] == q[i + 1..] && packets[..i] == q[..i];
        } else {
          TakeSkips(packets, i, log, want - flushed, id, pick);
          FlushSkips(packets, i, want - flushed, id);
          i := i + 1;
        }
      }
      assert packets[i..] == [] && packets[..i] == packets;
      TakeEnds(packets[..i], log, packets[i..], want - flushed, id, pick);
    }

    /** The first half of `_libssh2_channel_flush`: the packets go, and the counter goes down. */
    method FlushQueue(c: Channel, pick: Pick) returns (flushed: nat, refund: int, ghost log: seq<Chunk>)
      requires Valid() && c in Live()
      modifies this`packets, this`taken, c`readAvail
      ensures Valid() && taken == old(taken) + log && OnlyAsked(log, c.id, pick)
      ensures flushed == |BytesOf(log)| && refund == Refund(old(packets), c.id, pick)
      ensures c.readAvail == Wrap32(old(c.readAvail) - flushed)
      ensures !c.skewed ==> c.readAvail == Wrap32(Waiting(packets, c.id))
      ensures forall p :: p in packets ==> !Selected(p, c.id, pick)
    {
      hide Valid, ValidWith, Waiting, Take, BytesOf, IdsBelow, Wrap32, OnlyAsked, Selected, U32At, Refund;
      ValidNow();
      ghost var before := packets;
      ghost var want := Waiting(before, c.id) + 1;
      flushed, refund, log := FlushPackets(c.id, pick);
      TakeIsAsked(before, want, c.id, pick);
      TakeCounts(before, want, c.id, pick, c.id);
      TakeDrains(before, want, c.id, pick);
      CountOff(c, before, want, pick, flushed, log);
    }

    /** `_libssh2_packet_ask` for a packet of some type for a channel, other than channel data: the first
        one is taken out of the queue. */
    method Ask(msg: byte, id: u32) returns (data: Option<seq<byte>>, ghost at: nat)
      requires Valid() && NoData(msg)
      modifies this`packets
      ensures Valid()
      ensures data.Some? ==> at < |old(packets)| && old(packets)[at].data == data.value && IsReply(data.value, msg, id)
                             && packets == old(packets)[..at] + old(packets)[at + 1..]
      ensures data.Some? ==> forall j :: 0 <= j < at ==> !IsReply(old(packets)[j].data, msg, id)
      ensures data.None? ==> packets == old(packets) && forall p :: p in packets ==> !IsReply(p.data, msg, id)
    {
      hide Balanced, Apart, Waiting, U32At, IdsBelow;
      at := 0;
      for i := 0 to |packets|
        invariant packets == old(packets) && forall j :: 0 <= j < i ==> !IsReply(packets[j].data, msg, id)
      {
        var p := packets[i];
        assert p in packets;
        if p.data[0] == msg && |p.data| >= 5 && p.data[1..5] == U32(id) {
          RemovalKeepsBalance(arrived, taken, packets, i, nextChannel);
          packets := packets[..i] + packets[i + 1..];
          return Some(p.data), i;
        }
      }
      return None, at;
    }

    /** `_libssh2_packet_requirev` for one of two replies: one that is queued already, or the first to
        come in. Nothing at all coming in counts as the end of the search, because the type 0 is found
        at the end of the list of types. */
    method AwaitReply(good: byte, bad: byte, id: u32) returns (rc: int, reply: seq<byte>)
      requires Valid() && Room() && NoData(good) && NoData(bad) && good != 0 && bad != 0
      modifies this`packets, this`arrived, this`connected, this`inbound, this`history, this`nextChannel, this`listeners,
               this`acceptState, this`accepting,
               Live()`readAvail, Live()`remoteEof, Live()`remoteClose, Live()`localWindow, Live()`grants, Live()`moves
      ensures Valid() && Room() && rc <= 0 && fresh(Live() - old(Live()))
      ensures if rc == 0 then ReplyTaken(old(packets), packets, reply, good, bad, id) else old(packets) <= packets
      ensures rc == 0 ==> IsReply(reply, good, id) || IsReply(reply, bad, id)
      ensures HasReply(old(packets), good, bad, id) ==> rc == 0 && history == old(history)
      ensures rc != 0 ==> !HasReply(packets, good, bad, id) && NoReply(rc, |old(history)|, good, bad)
      ensures old(history) <= history && ReadOn(|old(history)|, good, bad)
      ensures KeepsSound()
      ensures |listeners| == |old(listeners)|
    {
      hide Valid, Room, Channel.Sound, IsReply, RepliedAt, HasReply;
      rc, reply := AskReply(good, bad, id);
      assert Live() == old(Live());
      if rc != 0 {
        rc, reply := ReadReply(good, bad, id);
      }
    }

    /** Why no reply has come: it took too long while nothing came, something else came under its type or of no
        account, the connection is gone, or reading came to an end. */
    ghost predicate NoReply(rc: int, before: nat, good: byte, bad: byte)
      reads this`connected, this`inbound, this`history, this`acceptState
    {
      || (rc == ERROR_TIMEOUT && (CameToNothing(before) || Stops(ERROR_EAGAIN, before)))
      || (rc == -1 && (LastCame(0, before) || LastCame(good as int, before) || LastCame(bad as int, before)))
      || (rc == ERROR_SOCKET_DISCONNECT && !connected)
      || (rc < 0 && Stops(rc, before))
    }

    /** Nothing is read behind an event of one of two types, or one that ends the reading. */
    ghost predicate ReadOn(before: nat, good: byte, bad: byte)
      reads this`history
    {
      forall i :: before <= i < |history| - 1 ==>
        var code := history[i].event.Result(); code > 0 && code != good as int && code != bad as int
    }

    method ReadReply(good: byte, bad: byte, id: u32) returns (rc: int, reply: seq<byte>)
      requires Valid() && Room() && NoData(good) && NoData(bad) && good != 0 && bad != 0
      requires !HasReply(packets, good, bad, id)
      modifies this`packets, this`arrived, this`connected, this`inbound, this`history, this`nextChannel, this`listeners,
               this`acceptState, this`accepting,
               Live()`readAvail, Live()`remoteEof, Live()`remoteClose, Live()`localWindow, Live()`grants, Live()`moves
      ensures Valid() && Room() && rc <= 0 && fresh(Live() - old(Live())) && KeepsSound() && |listeners| == |old(listeners)|
      ensures if rc == 0 then ReplyTaken(old(packets), packets, reply, good, bad, id) else old(packets) <= packets
      ensures rc == 0 ==> IsReply(reply, good, id) || IsReply(reply, bad, id)
      ensures rc != 0 ==> !HasReply(packets, good, bad, id) && NoReply(rc, |old(history)|, good, bad)
      ensures old(history) <= history && ReadOn(|old(history)|, good, bad)
    {
      hide Valid, Room, Channel.Sound, IsReply, RepliedAt, HasReply, Stops;
      reply := [];
      rc := ReadUntil(good, bad, id);
      if rc >= 0 {
        label Come:
        rc, reply := AskReply(good, bad, id);
        assert Live() == old@Come(Live());
      }
    }

    /** Reads until a packet of one of two types, or nothing, comes in, or the search has to stop. */
    method ReadUntil(good: byte, bad: byte, ghost id: u32) returns (got: int)
      requires Valid() && Room() && NoData(good) && NoData(bad) && good != 0 && bad != 0
      requires !HasReply(packets, good, bad, id)
      modifies this`packets, this`arrived, this`connected, this`inbound, this`history, this`nextChannel, this`listeners,
               this`acceptState, this`accepting,
               Live()`readAvail, Live()`remoteEof, Live()`remoteClose, Live()`localWindow, Live()`grants, Live()`moves
      ensures Valid() && Room() && fresh(Live() - old(Live()))
      ensures got < 0 || got == 0 || got == good as int || got == bad as int
      ensures got < 0 ==> !HasReply(packets, good, bad, id) && NoReply(got, |old(history)|, good, bad)
      ensures old(packets) <= packets && old(history) <= history && ReadOn(|old(history)|, good, bad)
      ensures got >= 0 ==> LastCame(got, |old(history)|)
      ensures KeepsSound()
      ensures |listeners| == |old(listeners)|
    {
      hide Valid, Room, Channel.Sound, HasReply, Seen.Queue, Event.Result, Keeps;
      got := 1;
      var going := true;
      while connected && going
        invariant Valid() && Room() && fresh(Live() - old(Live()))
        invariant KeepsSound()
        invariant |listeners| == |old(listeners)| && old(packets) <= packets && old(history) <= history
        invariant going || got < 0 ==> !HasReply(packets, good, bad, id)
        invariant ReadOn(|old(history)|, good, bad)
        invariant going && |history| > |old(history)| ==>
                    var code := history[|history| - 1].event.Result(); code > 0 && code != good as int && code != bad as int
        invariant !going && got >= 0 ==> LastCame(got, |old(history)|)
        invariant !going && got < 0 ==> NoReply(got, |old(history)|, good, bad)
        invariant !going ==> got < 0 || got == 0 || got == good as int || got == bad as int
        decreases |inbound| + (if going then 1 else 0)
      {
        label Before:
        ghost var kept;
        ghost var next := if inbound == [] then Nothing else inbound[0];
        got, kept := TransportRead();
        BringsNoReply(old@Before(packets), next, kept, good, bad, id);
        var late := *;
        if got <= 0 && late && (got == 0 || got == ERROR_EAGAIN) {
          got := ERROR_TIMEOUT;
        }
        going := got > 0 && got != good as int && got != bad as int;
      }
      if going {
        got := ERROR_SOCKET_DISCONNECT;
      }
    }

    /** `_libssh2_packet_askv` for two types: the first packet of the first type, else that of the second. */
    method AskReply(good: byte, bad: byte, id: u32) returns (rc: int, reply: seq<byte>)
      requires Valid() && NoData(good) && NoData(bad)
      modifies this`packets
      ensures Valid() && (rc == 0 || rc == -1)
      ensures if rc == 0 then ReplyTaken(old(packets), packets, reply, good, bad, id) else packets == old(packets)
      ensures rc == 0 ==> IsReply(reply, good, id) || IsReply(reply, bad, id)
      ensures HasReply(old(packets), good, bad, id) <==> rc == 0
    {
      hide Valid, IsReply;
      var data, at := Ask(good, id);
      if data.None? {
        data, at := Ask(bad, id);
        if data.None? {
          return -1, [];
        }
        assert RepliedAt(old(packets), at, good, bad, id);
      }
      assert RepliedAt(old(packets), at, good, bad, id);
      return 0, data.value;
    }

    /** `_libssh2_list_add` to the session's channels. */
    method Append(c: Channel)
      requires Valid() && c.id < nextChannel && forall d :: d in Live() ==> d.id != c.id
      requires c.readAvail == 0 && Waiting(packets, c.id) == 0
      modifies this`channels
      ensures Valid() && channels == old(channels) + [c] && Live() == old(Live()) + {c}
      ensures old(Recorded()) && c.MadeAt(|history|) ==> Recorded()
    {
      hide Balanced, Apart, Waiting, U32At, Events, Arrivals, GrantsTo, EndedIn, ClosedIn;
      NothingSaid(history, c.id);
      AppendedApart(channels, listeners, c);
      channels := channels + [c];
    }

    /** `_libssh2_list_remove` from the session's channels: place `i` is where it was. */
    method Remove(c: Channel) returns (ghost i: nat)
      requires Valid() && c in channels
      modifies this`channels
      ensures Valid() && i < |old(channels)| && old(channels)[i] == c && c !in old(channels)[..i]
      ensures channels == old(channels)[..i] + old(channels)[i + 1..] && Live() == old(Live()) - {c} && c !in Owned()
      ensures old(Recorded()) ==> Recorded()
    {
      hide Balanced, Apart, Waiting, U32At, Events, Arrivals, SaidOf;
      var k := 0;
      while k < |channels| && channels[k] != c
        invariant k <= |channels| && c !in channels[..k]
      {
        assert channels[..k + 1] == channels[..k] + [channels[k]];
        k := k + 1;
      }
      assert channels[..|channels|] == channels;
      RemovedApart(channels, listeners, k);
      RemovedIsGone(channels, listeners, k);
      channels := channels[..k] + channels[k + 1..];
      i := k;
    }

    /** The end of `channel_forward_listen`, once the other side has agreed. */
    method AddListener(host: seq<byte>, port: int, maxSize: int)
      requires Valid()
      modifies this`listeners
      ensures Valid() && listeners == old(listeners) + [Listener(host, port, [], maxSize)] && Live() == old(Live())
      ensures old(Recorded()) ==> Recorded()
    {
      hide Balanced, Apart, Waiting, U32At, OwnedBy, Events, Arrivals, SaidOf;
      NewListenerOwnsNothing(channels, listeners, Listener(host, port, [], maxSize));
      NewListenerApart(channels, listeners, Listener(host, port, [], maxSize));
      listeners := listeners + [Listener(host, port, [], maxSize)];
    }

    /** The first channel in a listener's queue becomes one of the session's. */
    method TakeFromQueue(k: nat) returns (c: Channel)
      requires Valid() && k < |listeners| && listeners[k].queue != []
      modifies this`channels, this`listeners
      ensures Valid() && c == old(listeners[k].queue[0]) && channels == old(channels) + [c] && Live() == old(Live())
      ensures listeners == old(listeners)[k := old(listeners[k]).(queue := old(listeners[k].queue[1..]))]
      ensures c !in old(channels) && forall j :: 0 <= j < |listeners| ==> c !in listeners[j].queue
      ensures old(Recorded()) ==> Recorded()
    {
      hide Balanced, Apart, Waiting, U32At, OwnedBy, Events, Arrivals, SaidOf;
      MovedIsOwned(channels, listeners, k);
      MovedApart(channels, listeners, k);
      var l := listeners[k];
      c := l.queue[0];
      listeners := listeners[k := l.(queue := l.queue[1..])];
      channels := channels + [c];
    }
  }

  /** A listener with an empty queue; the confirmation is put off once, then sent: the connection stands,
      and its channel is queued nowhere. */
  lemma RetriedIsLost(made: Channel)
    ensures var l := Listener([], 22, [], 16);
            !l.Full() && Accept(Idle, None, l.queue).Passes(l.Full(), Some(made), [PutOff, Done]) == Accept(Idle, None, [])
  {
    QueuedIfSentAtOnce([], false, made, [PutOff, Done]);
  }

  /** The same with the calls themselves, at any listener that has room: an id is used up, and the other
      side is told that the channel is open, but no list has it. */
  method LoseConnection(s: Session, host: seq<byte>, port: int, ghost k: nat)
    returns (ghost first: Answer, ghost second: Answer)
    requires s.Valid() && s.acceptState.Idle? && s.accepting.None? && s.nextChannel < TWO32 - 1
    requires ListensFirst(s.listeners, host, port, Some(k)) && !s.listeners[k].Full()
    modifies s`nextChannel, s`listeners, s`acceptState, s`accepting
    ensures s.Valid()
    ensures first.PutOff? && second.Done? ==>
              && s.nextChannel == old(s.nextChannel) + 1 && s.acceptState.Idle?
              && s.listeners == old(s.listeners) && s.Live() == old(s.Live())
  {
    hide Session.Valid, Channel.Sound;
    ghost var found, made;
    var rc;
    rc, found, made, first := s.QueueListener(host, port, 0, 0, 0);
    assert found == Some(k);
    second := first;
    if rc == ERROR_EAGAIN {
      rc, found, made, second := s.QueueListener(host, port, 0, 0, 0);
    }
  }

  /** Behind the highest id the counter starts over at 0; from then on, while the session has a channel
      the counter has not passed again, the id that is handed out is one in use. */
  lemma IdsRepeat(s: Session, c: Channel)
    requires c in s.channels && s.nextChannel <= c.id
    ensures exists d :: d in s.channels && d.id == NextIdOf(s.nextChannel, IdsOf(s.channels))
    ensures Wrap32(0xffff_ffff + 1) == 0
  {
    var ids := IdsOf(s.channels);
    NextIdIsHighest(s.nextChannel, ids);
    var i :| 0 <= i < |s.channels| && s.channels[i] == c;
    assert ids[i] in ids;
    var k :| 0 <= k < |ids| && ids[k] == NextIdOf(s.nextChannel, ids);
    assert s.channels[k] in s.channels;
  }

  /** The packets that are kept for whoever asks for them. */
  predicate Queued(msg: byte) {
    && NoData(msg) && msg != DISCONNECT && msg != IGNORE && msg != DEBUG && msg != GLOBAL_REQUEST && msg != CHANNEL_OPEN
    && msg != CHANNEL_REQUEST && msg != CHANNEL_EOF && msg != CHANNEL_CLOSE && msg != CHANNEL_WINDOW_ADJUST
  }

  /** A packet of this type for this channel. */
  predicate IsReply(data: seq<byte>, msg: byte, id: u32) {
    |data| >= 5 && data[0] == msg && data[1..5] == U32(id)
  }

  predicate HasReply(queue: seq<Packet>, good: byte, bad: byte, id: u32) {
    exists p :: p in queue && (IsReply(p.data, good, id) || IsReply(p.data, bad, id))
  }

  /** A packet of another type is no reply. */
  lemma BringsNoReply(queue: seq<Packet>, event: Event, kept: nat, good: byte, bad: byte, id: u32)
    requires NoData(good) && NoData(bad) && good != 0 && bad != 0 && !HasReply(queue, good, bad, id)
    ensures event.ForwardedOpen? || (event.Result() != good as int && event.Result() != bad as int) ==>
              !HasReply(queue + Seen(event, kept).Queue(), good, bad, id)
    ensures queue + [] == queue
  {
    hide U32At;
  }

  /** In this queue the reply is at place `at`: the first good one, or, if there is none, the first bad one. */
  predicate RepliedAt(queue: seq<Packet>, at: nat, good: byte, bad: byte, id: u32) {
    && at < |queue|
    && if IsReply(queue[at].data, good, id) then forall j :: 0 <= j < at ==> !IsReply(queue[j].data, good, id)
       else
         && IsReply(queue[at].data, bad, id) && (forall p :: p in queue ==> !IsReply(p.data, good, id))
         && forall j :: 0 <= j < at ==> !IsReply(queue[j].data, bad, id)
  }

  /** Nothing but the reply has left the queue, once something may have come in. */
  ghost predicate ReplyTaken(before: seq<Packet>, after: seq<Packet>, reply: seq<byte>, good: byte, bad: byte, id: u32) {
    exists queue: seq<Packet>, at: nat ::
      && before <= queue && RepliedAt(queue, at, good, bad, id)
      && queue[at].data == reply && after == queue[..at] + queue[at + 1..]
  }

  /** Such a reply, whatever becomes of the queue later. */
  ghost predicate ReplyIs(before: seq<Packet>, reply: seq<byte>, good: byte, bad: byte, id: u32) {
    exists after :: ReplyTaken(before, after, reply, good, bad, id)
  }

  /** If one good reply is queued, that is the one. */
  lemma TheReply(before: seq<Packet>, at: nat, reply: seq<byte>, good: byte, bad: byte, id: u32)
    requires ReplyIs(before, reply, good, bad, id) && at < |before| && IsReply(before[at].data, good, id)
    requires forall j :: 0 <= j < at ==> !IsReply(before[j].data, good, id)
    ensures reply == before[at].data
  {
    hide IsReply;
    var after :| ReplyTaken(before, after, reply, good, bad, id);
    var queue: seq<Packet>, i: nat :|
      && before <= queue && RepliedAt(queue, i, good, bad, id)
      && queue[i].data == reply && after == queue[..i] + queue[i + 1..];
    assert queue[at] == before[at] && queue[at] in queue;
  }

  predicate NoData(msg: byte) {
    msg != CHANNEL_DATA && msg != CHANNEL_EXTENDED_DATA
  }

  /** Copying behind what was copied before. */
  method Deliver(buf: array<byte>, bytes: seq<byte>, ghost done: seq<byte>, ghost before: seq<byte>, at: nat)
    requires at == |done| && at + |bytes| <= buf.Length == |before| && buf[..] == done + before[at..]
    modifies buf
    ensures buf[..] == done + bytes + before[at + |bytes|..]
  {
    assert (done + before[at..])[..at] == done;
    Copy(buf, at, bytes);
  }

  /** What is kept of a data message has the same header. */
  lemma SamePrefix(data: seq<byte>, n: nat)
    requires 9 <= n <= |data|
    ensures data[..n][0] == data[0] && U32At(data[..n], 1) == U32At(data, 1)
    ensures n >= 13 ==> U32At(data[..n], 5) == U32At(data, 5)
  {
  }

  /** Each kind of packet says one kind of thing only. */
  lemma SaysOnly(data: seq<byte>)
    requires data != []
    ensures data[0] != CHANNEL_EOF && data[0] != CHANNEL_CLOSE ==> forall k, id :: !Seen(Payload(data), k).Closes(id)
    ensures data[0] != CHANNEL_EOF && data[0] != CHANNEL_CLOSE && NoData(data[0]) ==>
              forall k, id, was :: Seen(Payload(data), k).Ends(id, was) == was
    ensures data[0] != CHANNEL_WINDOW_ADJUST ==> forall k, id :: Seen(Payload(data), k).Grant(id) == []
  {
  }

  lemma NothingArrives(data: seq<byte>)
    requires data != [] && NoData(data[0])
    ensures Seen(Payload(data), 0).Arrival() == []
  {
  }

  /** No more is kept than is open of the window, if and only if the counter does not wrap around that way. */
  lemma KeptFitsExactly(c: Channel, payload: nat, kept: nat, head: nat)
    requires KeptOf(c, payload, kept, head) && c.readAvail < c.remoteWindow
    ensures kept - head <= c.remoteWindow - c.readAvail
       <==> !LetsTooMuchIn(c.readAvail, if payload < c.packetSize then payload else c.packetSize, c.remoteWindow)
  {
  }

  /** 240 bytes are open of the window, but 4096 are kept. */
  lemma WrapLetsTooMuchIn(c: Channel, kept: nat)
    requires c.packetSize == 0x8000 && c.remoteWindow == 0xffff_fff0 && c.readAvail == 0xffff_ff00
    requires KeptOf(c, 0x1000, kept, 9)
    ensures kept == 9 + 0x1000 && c.remoteWindow - c.readAvail == 240
  {
  }

  /** A data message whose bytes fit the packet size and what is open of the window is queued as a whole, and its
      bytes arrive (section 5.2 of RFC 4254). */
  lemma DataArrives(c: Channel, payload: seq<byte>, kept: nat)
    requires |payload| <= c.packetSize && c.readAvail < c.remoteWindow && |payload| <= c.remoteWindow - c.readAvail
    ensures var data := [CHANNEL_DATA] + U32(c.id) + Str(payload);
            && U32At(data, 1) == c.id
            && (KeptOf(c, |data| - Header(data[0]), kept, Header(data[0])) ==>
                  && kept == |data| && Seen(Payload(data), kept).Queue() == [Packet(data, 9)]
                  && Seen(Payload(data), kept).Arrival() == [Chunk(c.id, Std, payload)])
  {
    hide U32, U32At;
    var data := [CHANNEL_DATA] + U32(c.id) + Str(payload);
    assert data[1..5] == U32(c.id);
    U32Held(data, 1, c.id);
    assert data[9..] == payload && data[..|data|] == data && data[9..|data|] == data[9..];
  }

  /** The same for extended data of some type. */
  lemma ExtendedDataArrives(c: Channel, code: u32, payload: seq<byte>, kept: nat)
    requires |payload| <= c.packetSize && c.readAvail < c.remoteWindow && |payload| <= c.remoteWindow - c.readAvail
    ensures var data := [CHANNEL_EXTENDED_DATA] + U32(c.id) + U32(code) + Str(payload);
            && U32At(data, 1) == c.id
            && (KeptOf(c, |data| - Header(data[0]), kept, Header(data[0])) ==>
                  && kept == |data| && Seen(Payload(data), kept).Queue() == [Packet(data, 13)]
                  && Seen(Payload(data), kept).Arrival() == [Chunk(c.id, Ext(code), payload)])
  {
    hide U32, U32At;
    var data := [CHANNEL_EXTENDED_DATA] + U32(c.id) + U32(code) + Str(payload);
    assert data[1..5] == U32(c.id) && data[5..9] == U32(code);
    U32Held(data, 1, c.id);
    U32Held(data, 5, code);
    assert data[13..] == payload && data[..|data|] == data && data[13..|data|] == data[13..];
  }

  lemma KeptFits(avail: u32, n: nat, window: u32)
    requires avail < window && Wrap32(avail + n) > window
    ensures window - avail < n
  {
  }
}
