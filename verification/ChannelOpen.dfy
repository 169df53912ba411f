/** Opening a channel, and accepting one that a listener has queued. */
module ChannelOpen {
  import opened Bytes
  import opened Errors
  import opened PacketQueue
  import opened Channels
  import opened Sessions

  const OPEN_CONFIRMATION: byte := 91
  const OPEN_FAILURE: byte := 92

  /** A new channel, which takes one of the ids that are left for channels opened from this side. */
  method Reserve(s: Session, window: u32, packetSize: u32) returns (c: Channel)
    requires s.Valid() && s.Room() && s.reserve > 0
    modifies s`nextChannel, s`reserve
    ensures s.Valid() && s.Room() && s.Live() == old(s.Live()) && fresh(c) && c.Untouched() && c.Sound() && c.MadeAt(|s.history|)
    ensures c.id == old(s.nextChannel) && s.nextChannel == old(s.nextChannel) + 1 && s.reserve == old(s.reserve) - 1
    ensures c.windowInitial == window && c.packetSize == packetSize
    ensures Waiting(s.packets, c.id) == 0 && forall d :: d in s.Live() ==> d.id != c.id
  {
    hide Session.Valid, Session.Recorded, Waiting, Channel.Sound;
    NextIsFree(s);
    c := s.NewChannel(window, packetSize);
    s.reserve := s.reserve - 1;
    assert s.Live() == old(s.Live());
  }

  /** It joins the session's list. */
  method AddChannel(s: Session, window: u32, packetSize: u32) returns (c: Channel)
    requires s.Valid() && s.Room() && s.reserve > 0
    modifies s`nextChannel, s`channels, s`reserve
    ensures s.Valid() && s.Room() && fresh(c) && c.Untouched() && c.Sound()
    ensures c.id == old(s.nextChannel) && s.nextChannel == old(s.nextChannel) + 1 && s.reserve == old(s.reserve) - 1
    ensures s.channels == old(s.channels) + [c] && s.Live() == old(s.Live()) + {c}
    ensures c.windowInitial == window && c.packetSize == packetSize
  {
    hide Session.Valid, Session.Recorded, Waiting, Channel.Sound;
    c := Reserve(s, window, packetSize);
    s.Append(c);
  }

  /** The channel that is being opened, if there is one. */
  ghost function Opening(s: Session): set<Channel>
    reads s`opening
  {
    if s.opening.Some? then {s.opening.value} else {}
  }

  /** An opening that is under way belongs to a channel of the session that nobody has used yet. */
  ghost predicate OpenOk(s: Session)
    reads s`openState, s`opening, s`channels, Opening(s)`sent, Opening(s)`writeState
  {
    if s.openState.Idle? then s.opening.None?
    else
      && (s.openState.Created? || s.openState.Sent?) && s.opening.Some? && s.opening.value in s.channels
      && Unused(s.opening.value)
  }

  ghost predicate Unused(c: Channel)
    reads c`sent, c`writeState
  {
    c.sent == [] && c.writeState.Idle?
  }

  /** The first state of `_libssh2_channel_open`. */
  method StartOpen(s: Session, window: u32, packetSize: u32)
    requires s.Valid() && s.Room() && s.reserve > 0 && s.openState.Idle?
    modifies s`nextChannel, s`channels, s`openState, s`opening, s`reserve
    ensures s.Valid() && s.Room() && s.openState.Created? && s.opening.Some? && fresh(s.opening.value)
    ensures s.opening.value.Untouched() && s.opening.value.Sound() && s.opening.value.id == old(s.nextChannel)
    ensures OpenOk(s)
    ensures s.channels == old(s.channels) + [s.opening.value] && s.Live() == old(s.Live()) + {s.opening.value}
    ensures s.opening.value.windowInitial == window && s.opening.value.packetSize == packetSize
    ensures s.reserve == old(s.reserve) - 1 && s.nextChannel == old(s.nextChannel) + 1 && s.KeepsSound()
  {
    hide Session.Valid, Session.Room, Channel.Sound;
    var c := AddChannel(s, window, packetSize);
    s.opening := Some(c);
    s.openState := Created;
  }

  /** While a channel may still be opened there is an id for it. */
  lemma NextIsFree(s: Session)
    requires s.Room() && s.reserve > 0
    ensures s.nextChannel < TWO32 - 1
  {
    if !s.acceptState.Idle? {
      assert Forwards(s.inbound) > 0;
    }
  }

  /** The channel `c` is gone from the list, and nothing else. */
  ghost predicate Gone(before: seq<Channel>, c: Channel, after: seq<Channel>) {
    exists i :: GoneAt(before, c, after, i)
  }

  ghost predicate GoneAt(before: seq<Channel>, c: Channel, after: seq<Channel>, i: nat) {
    i < |before| && before[i] == c && c !in before[..i] && after == before[..i] + before[i + 1..]
  }

  /** The end of a failed opening: what arrived for the channel is dropped, and the channel goes. */
  method AbandonOpen(s: Session) returns (ghost i: nat, ghost dropped: seq<Chunk>)
    requires s.Valid() && s.Room() && s.opening.Some? && s.opening.value in s.channels
    modifies s`packets, s`taken, s`channels, s`openState, s`opening, s.opening.value`readAvail
    ensures s.Valid() && s.Room() && s.openState.Idle? && s.opening.None?
    ensures GoneAt(old(s.channels), old(s.opening).value, s.channels, i)
    ensures s.Live() == old(s.Live()) - {old(s.opening).value} && forall d :: d in s.Live() ==> d.id != old(s.opening).value.id
    ensures s.taken == old(s.taken) + dropped && OnlyAsked(dropped, old(s.opening).value.id, ForFlush(FLUSH_ALL))
    ensures forall p :: p in s.packets ==> !p.For(old(s.opening).value.id)
  {
    hide Session.Valid, Session.Recorded, Refund, BytesOf, OnlyAsked, Waiting, U32At;
    var c := s.opening.value;
    var _, _, log := s.FlushQueue(c, ForFlush(FLUSH_ALL));
    dropped := log;
    assert forall p :: p in s.packets ==> !p.For(c.id);
    assert s.Live() == old(s.Live());
    s.IdsDiffer();
    i := s.Remove(c);
    s.openState, s.opening := Idle, None;
  }

  /** The channel carries what the confirmation says: the other side's id, its window and its packet
      size; and the confirmation is for it. All that was granted before is not in the window. */
  ghost predicate Confirmed(c: Channel, reply: seq<byte>)
    reads c`remoteId, c`localWindow, c`moves, c`grants, c`localPacketSize
  {
    && |reply| >= 17 && IsReply(reply, OPEN_CONFIRMATION, c.id)
    && c.remoteId == U32At(reply, 5) && c.localPacketSize == U32At(reply, 13)
    && c.localWindow == U32At(reply, 9) && c.moves != [] && c.moves[|c.moves| - 1] == Reset(U32At(reply, 9))
    && Early(c.moves) == c.grants
  }

  /** The other side has told its id, its window and its packet size. */
  method Confirm(s: Session, remoteId: u32, window: u32, packetSize: u32)
    requires s.Valid() && s.Room() && s.opening.Some? && s.opening.value in s.channels
    requires Unused(s.opening.value) && s.opening.value.Sound()
    modifies s`openState, s`opening, s.opening.value`remoteId, s.opening.value`localWindow,
             s.opening.value`localPacketSize, s.opening.value`marks, s.opening.value`moves
    ensures s.Valid() && s.Room() && s.openState.Idle? && s.opening.None? && s.Live() == old(s.Live())
    ensures var c := old(s.opening.value);
            && c.Sound()
            && c.remoteId == remoteId && c.localWindow == window && c.localPacketSize == packetSize
            && c.moves == old(s.opening.value.moves) + [Reset(window)]
            && c.marks == old(s.opening.value.marks) + [Mark(Reset(window), |c.grants|)]
            && Base(c.moves) == window && Late(c.moves) == 0 && Early(c.moves) == c.grants
  {
    hide Session.Valid, Session.Room, Channel.Sound, Base, Late, Early;
    EarlyAreAll(s.opening.value, window);
    TakeOver(s.opening.value, remoteId, window, packetSize);
    assert s.Live() == old(s.Live());
    s.openState, s.opening := Idle, None;
  }

  method TakeOver(c: Channel, remoteId: u32, window: u32, packetSize: u32)
    requires c.Sound() && Unused(c)
    modifies c`remoteId, c`localWindow, c`localPacketSize, c`marks, c`moves
    ensures c.Sound() && c.remoteId == remoteId && c.localWindow == window && c.localPacketSize == packetSize
    ensures c.moves == old(c.moves) + [Reset(window)] && c.marks == old(c.marks) + [Mark(Reset(window), |c.grants|)]
  {
    hide Channel.SendLedger, Channel.SizesKept, Channel.ReceiveLedger, Channel.Once, Channel.AdjustLaw, Channel.FlushLaw;
    c.Opened(remoteId, window, packetSize);
  }

  /** What was granted before it counts as early: it is not in the window. */
  lemma EarlyAreAll(c: Channel, window: u32)
    requires c.Sound()
    ensures var moves := c.moves + [Reset(window)];
            Base(moves) == window && Late(moves) == 0 && Early(moves) == c.grants
  {
    hide Raises, Marks, WindowAfter, Books, Channel.SizesKept, Channel.ReceiveLedger, Channel.Once, Channel.AdjustLaw,
         Channel.FlushLaw;
    assert (c.moves + [Reset(window)])[..|c.moves|] == c.moves;
  }

  /** A full confirmation is taken over; anything else is the end of the opening. */
  method Decide(s: Session, reply: Option<seq<byte>>)
    returns (r: Option<Channel>, ghost i: nat, ghost dropped: seq<Chunk>)
    requires s.Valid() && s.Room() && s.opening.Some? && s.opening.value in s.channels
    requires Unused(s.opening.value) && s.opening.value.Sound()
    requires reply.Some? ==> IsReply(reply.value, OPEN_CONFIRMATION, s.opening.value.id)
                             || IsReply(reply.value, OPEN_FAILURE, s.opening.value.id)
    modifies s`packets, s`taken, s`channels, s`openState, s`opening, s.opening.value`readAvail, s.opening.value`remoteId,
             s.opening.value`localWindow, s.opening.value`localPacketSize, s.opening.value`marks, s.opening.value`moves
    ensures s.Valid() && s.Room() && s.openState.Idle? && s.opening.None? && s.Live() <= old(s.Live())
    ensures s.taken == old(s.taken) + dropped && OnlyAsked(dropped, old(s.opening).value.id, ForFlush(FLUSH_ALL))
    ensures r.Some? <==> reply.Some? && |reply.value| >= 17 && reply.value[0] == OPEN_CONFIRMATION
    ensures r.Some? ==> r == old(s.opening) && s.channels == old(s.channels) && s.packets == old(s.packets)
                        && r.value.Sound() && reply.Some? && Confirmed(r.value, reply.value) && dropped == []
                        && r.value.grants == old(s.opening.value.grants)
    ensures r.None? ==> && s.Live() == old(s.Live()) - {old(s.opening).value}
                        && (forall d :: d in s.Live() ==> d.id != old(s.opening).value.id)
                        && GoneAt(old(s.channels), old(s.opening).value, s.channels, i)
                        && old(s.opening).value.Sound()
                        && forall p :: p in s.packets ==> !p.For(old(s.opening).value.id)
  {
    hide Session.Valid, Session.Room, Channel.Sound, U32At, OnlyAsked, Base, Late, Early;
    i, dropped := 0, [];
    NothingAsked(s.opening.value.id, ForFlush(FLUSH_ALL));
    if reply.Some? && reply.value[0] == OPEN_CONFIRMATION && |reply.value| >= 17 {
      r := s.opening;
      Confirm(s, U32At(reply.value, 5), U32At(reply.value, 9), U32At(reply.value, 13));
      assert s.Live() == old(s.Live());
    } else {
      i, dropped := AbandonOpen(s);
      r := None;
    }
  }

  /** The reply is in the queue already. */
  ghost predicate Answered(s: Session)
    reads s`packets, s`openState, s`opening
  {
    s.openState.Sent? && s.opening.Some? && HasReply(s.packets, OPEN_CONFIRMATION, OPEN_FAILURE, s.opening.value.id)
  }

  /** The last state of `_libssh2_channel_open`: the reply decides. */
  method FinishOpen(s: Session)
    returns (r: Option<Channel>, ghost i: nat, ghost reply: seq<byte>, ghost dropped: seq<Chunk>)
    requires s.Valid() && s.Room() && OpenOk(s) && s.openState.Sent? && s.opening.value.Sound()
    modifies s`packets, s`arrived, s`taken, s`connected, s`inbound, s`history,
             s`nextChannel, s`listeners, s`acceptState, s`accepting,
             s.Live()`readAvail, s.Live()`remoteEof, s.Live()`remoteClose, s.Live()`localWindow, s.Live()`grants,
             s.Live()`moves,
             s`channels, s`openState, s`opening,
             s.opening.value`remoteId, s.opening.value`localPacketSize, s.opening.value`marks
    ensures s.Valid() && s.Room() && OpenOk(s) && fresh(s.Live() - old(s.Live()))
    ensures s.KeepsSound()
    ensures r.Some? ==> r == old(s.opening) && s.openState.Idle? && s.channels == old(s.channels)
                        && r.value.Sound()
    ensures r.Some? ==> Confirmed(r.value, reply)
                        && ReplyTaken(old(s.packets), s.packets, reply, OPEN_CONFIRMATION, OPEN_FAILURE, r.value.id)
    ensures r.None? && s.openState.Sent? ==> s.opening == old(s.opening) && s.channels == old(s.channels)
    ensures r.None? && !s.openState.Sent? ==>
              && s.openState.Idle? && GoneAt(old(s.channels), old(s.opening).value, s.channels, i)
              && (forall d :: d in s.Live() ==> d.id != old(s.opening).value.id)
              && forall p :: p in s.packets ==> !p.For(old(s.opening).value.id)
    ensures OnlyAsked(dropped, old(s.opening).value.id, ForFlush(FLUSH_ALL))
    ensures s.taken == old(s.taken) + dropped && (dropped != [] ==> r.None? && s.openState.Idle?)
    ensures old(Answered(s)) ==>
              && s.history == old(s.history) && s.openState.Idle?
              && ReplyIs(old(s.packets), reply, OPEN_CONFIRMATION, OPEN_FAILURE, old(s.opening).value.id)
              && (r.Some? <==> |reply| >= 17 && reply[0] == OPEN_CONFIRMATION)
  {
    hide Session.Valid, Channel.Sound, Session.Room, U32At, ReplyTaken, IsReply, HasReply, Confirmed, OnlyAsked;
    i, dropped := 0, [];
    NothingAsked(s.opening.value.id, ForFlush(FLUSH_ALL));
    var rc, data := s.AwaitReply(OPEN_CONFIRMATION, OPEN_FAILURE, s.opening.value.id);
    reply := data;
    if rc == ERROR_EAGAIN {
      r := None;
    } else {
      label Replied:
      r, i, dropped := Decide(s, if rc == 0 then Some(data) else None);
      assert s.Live() <= old@Replied(s.Live());
    }
  }

  lemma AddedThenGone(before: seq<Channel>, c: Channel, after: seq<Channel>)
    requires Gone(before + [c], c, after) && c !in before
    ensures after == before
  {
    var i: nat :| GoneAt(before + [c], c, after, i);
    assert (before + [c])[..|before|] == before && (before + [c])[|before| + 1..] == [];
  }

  /** The states after the first. */
  method ContinueOpen(s: Session) returns (r: Option<Channel>, ghost reply: seq<byte>, ghost dropped: seq<Chunk>)
    requires s.Valid() && s.Room() && OpenOk(s) && !s.openState.Idle? && s.opening.value.Sound()
    modifies s`packets, s`arrived, s`taken, s`connected, s`inbound, s`history,
             s`nextChannel, s`listeners, s`acceptState, s`accepting,
             s.Live()`readAvail, s.Live()`remoteEof, s.Live()`remoteClose, s.Live()`localWindow, s.Live()`grants,
             s.Live()`moves,
             s`channels, s`openState, s`opening, Opening(s)`remoteId, Opening(s)`localPacketSize, Opening(s)`marks
    ensures s.Valid() && s.Room() && OpenOk(s) && fresh(s.Live() - old(s.Live()))
    ensures s.KeepsSound()
    ensures r.Some? ==> r == old(s.opening) && s.openState.Idle? && s.channels == old(s.channels)
                        && r.value.Sound()
    ensures r.Some? ==> Confirmed(r.value, reply)
                        && ReplyTaken(old(s.packets), s.packets, reply, OPEN_CONFIRMATION, OPEN_FAILURE, r.value.id)
    ensures r.None? && s.openState.Idle? ==>
              && Gone(old(s.channels), old(s.opening).value, s.channels)
              && (forall d :: d in s.Live() ==> d.id != old(s.opening).value.id)
              && forall p :: p in s.packets ==> !p.For(old(s.opening).value.id)
    ensures r.None? && !s.openState.Idle? ==> s.opening == old(s.opening) && s.channels == old(s.channels)
    ensures OnlyAsked(dropped, old(s.opening).value.id, ForFlush(FLUSH_ALL))
    ensures s.taken == old(s.taken) + dropped && (dropped != [] ==> r.None? && s.openState.Idle?)
    ensures old(Answered(s)) ==>
              && s.history == old(s.history) && s.openState.Idle?
              && ReplyIs(old(s.packets), reply, OPEN_CONFIRMATION, OPEN_FAILURE, old(s.opening).value.id)
              && (r.Some? <==> |reply| >= 17 && reply[0] == OPEN_CONFIRMATION)
  {
    hide Session.Valid, Session.Room, Channel.Sound, GoneAt, ReplyTaken, ReplyIs, HasReply, Confirmed, OnlyAsked, U32At;
    reply, dropped := [], [];
    NothingAsked(s.opening.value.id, ForFlush(FLUSH_ALL));
    ghost var i;
    if s.openState.Created? {
      var rc, _ := s.Reply();
      assert s.Live() == old(s.Live());
      if rc == ERROR_EAGAIN {
        return None, reply, dropped;
      } else if rc != 0 {
        i, dropped := AbandonOpen(s);
        return None, reply, dropped;
      }
      s.openState := Sent;
    }
    assert s.Live() == old(s.Live());
    r, i, reply, dropped := FinishOpen(s);
  }

  /** The first call for a channel. */
  method OpenAfresh(s: Session, window: u32, packetSize: u32)
    returns (r: Option<Channel>, ghost reply: seq<byte>, ghost dropped: seq<Chunk>)
    requires s.Valid() && s.Room() && s.openState.Idle? && s.reserve > 0
    modifies s`packets, s`arrived, s`taken, s`connected, s`inbound, s`history,
             s`nextChannel, s`listeners, s`acceptState, s`accepting,
             s.Live()`readAvail, s.Live()`remoteEof, s.Live()`remoteClose, s.Live()`localWindow, s.Live()`grants,
             s.Live()`moves, s`channels, s`openState, s`opening, s`reserve
    ensures s.Valid() && s.Room() && OpenOk(s) && fresh(s.Live() - old(s.Live()))
    ensures s.KeepsSound()
    ensures s.reserve == old(s.reserve) - 1 && s.nextChannel > old(s.nextChannel)
    ensures r.Some? ==> s.openState.Idle? && fresh(r.value) && s.channels == old(s.channels) + [r.value]
                        && r.value.Sound() && r.value.windowInitial == window && r.value.packetSize == packetSize
    ensures r.Some? ==> Confirmed(r.value, reply)
                        && ReplyTaken(old(s.packets), s.packets, reply, OPEN_CONFIRMATION, OPEN_FAILURE, r.value.id)
    ensures r.None? && s.openState.Idle? ==>
              && s.channels == old(s.channels) && (forall d :: d in s.Live() ==> d.id != old(s.nextChannel))
              && forall p :: p in s.packets ==> !p.For(old(s.nextChannel))
    ensures !s.openState.Idle? ==>
              && r.None? && s.opening.Some? && s.channels == old(s.channels) + [s.opening.value]
              && s.opening.value.windowInitial == window && s.opening.value.packetSize == packetSize
    ensures OnlyAsked(dropped, old(s.nextChannel), ForFlush(FLUSH_ALL))
    ensures s.taken == old(s.taken) + dropped && (dropped != [] ==> r.None? && s.openState.Idle?)
  {
    hide Session.Valid, Session.Room, Channel.Sound, Gone, ReplyTaken, ReplyIs, HasReply, Confirmed, OnlyAsked, U32At;
    StartOpen(s, window, packetSize);
    ghost var c := s.opening.value;
    r, reply, dropped := ContinueOpen(s);
    if r.None? && s.openState.Idle? {
      AddedThenGone(old(s.channels), c, s.channels);
    }
  }

  /** `_libssh2_channel_open`, over as many calls as it takes: success adds one channel, final failure
      leaves the session's channels as they were. */
  method Open(s: Session, window: u32, packetSize: u32)
    returns (r: Option<Channel>, ghost reply: seq<byte>, ghost dropped: seq<Chunk>)
    requires s.Valid() && s.Room() && OpenOk(s) && if s.openState.Idle? then s.reserve > 0 else s.opening.value.Sound()
    modifies s`packets, s`arrived, s`taken, s`connected, s`inbound, s`history,
             s`nextChannel, s`listeners, s`acceptState, s`accepting,
             s.Live()`readAvail, s.Live()`remoteEof, s.Live()`remoteClose, s.Live()`localWindow, s.Live()`grants,
             s.Live()`moves,
             s`channels, s`openState, s`opening, s`reserve, Opening(s)`remoteId, Opening(s)`localPacketSize, Opening(s)`marks
    ensures s.Valid() && s.Room() && OpenOk(s) && fresh(s.Live() - old(s.Live()))
    ensures s.KeepsSound()
    ensures s.reserve == old(s.reserve) - (if old(s.openState.Idle?) then 1 else 0)
    ensures old(s.openState.Idle?) ==> s.nextChannel > old(s.nextChannel)
    ensures r.Some? ==> s.openState.Idle? && r.value in s.channels && r.value.Sound()
    ensures r.Some? ==> Confirmed(r.value, reply)
                        && ReplyTaken(old(s.packets), s.packets, reply, OPEN_CONFIRMATION, OPEN_FAILURE, r.value.id)
    ensures r.Some? ==> if old(s.openState.Idle?) then
                          && fresh(r.value) && s.channels == old(s.channels) + [r.value] && r.value.Sound()
                          && r.value.windowInitial == window && r.value.packetSize == packetSize
                        else r == old(s.opening) && s.channels == old(s.channels)
    ensures r.None? && s.openState.Idle? ==> if old(s.openState.Idle?) then s.channels == old(s.channels)
                                             else Gone(old(s.channels), old(s.opening).value, s.channels)
    ensures var id := if old(s.openState.Idle?) then old(s.nextChannel) else old(s.opening.value.id);
            && OnlyAsked(dropped, id, ForFlush(FLUSH_ALL))
            && (r.None? && s.openState.Idle? ==>
                  (forall d :: d in s.Live() ==> d.id != id) && forall p :: p in s.packets ==> !p.For(id))
    ensures s.taken == old(s.taken) + dropped && (dropped != [] ==> r.None? && s.openState.Idle?)
    ensures old(Answered(s)) ==>
              && s.history == old(s.history) && s.openState.Idle?
              && ReplyIs(old(s.packets), reply, OPEN_CONFIRMATION, OPEN_FAILURE, old(s.opening).value.id)
              && (r.Some? <==> |reply| >= 17 && reply[0] == OPEN_CONFIRMATION)
    ensures !s.openState.Idle? ==>
              && r.None? && s.opening.Some?
              && s.channels == old(s.channels) + (if old(s.openState.Idle?) then [s.opening.value] else [])
              && (old(s.openState.Idle?) ==> s.opening.value.windowInitial == window && s.opening.value.packetSize == packetSize)
  {
    hide Session.Valid, Session.Room, Channel.Sound, Gone, ReplyTaken, ReplyIs, HasReply, Confirmed, OnlyAsked, U32At;
    if s.openState.Idle? {
      r, reply, dropped := OpenAfresh(s, window, packetSize);
    } else {
      r, reply, dropped := ContinueOpen(s);
    }
  }

  /** A packet that confirms channel `id`, with a window of 100 bytes; and one that grants it 50 more. */
  predicate Confirms(data: seq<byte>, id: u32) {
    |data| >= 17 && IsReply(data, OPEN_CONFIRMATION, id) && U32At(data, 9) == 100
  }

  predicate GrantsFifty(data: seq<byte>, id: u32) {
    |data| >= 9 && data[0] == CHANNEL_WINDOW_ADJUST && U32At(data, 1) == id && U32At(data, 5) == 50
  }

  /** An opening waits for its reply. The reply and a grant come in while something else is read, and the
      grant finds the channel already; then the opening is resumed, and sets the window to 100 bytes, although
      150 were granted. */
  method LoseGrant(s: Session, confirmation: seq<byte>, grant: seq<byte>) returns (r: Option<Channel>)
    requires s.Valid() && s.Room() && OpenOk(s) && s.openState.Sent? && s.opening.value.Sound()
    requires s.connected && s.inbound == [Payload(confirmation), Payload(grant)]
    requires Confirms(confirmation, s.opening.value.id) && GrantsFifty(grant, s.opening.value.id)
    requires s.opening.value.grants == []
    requires forall p :: p in s.packets ==> !IsReply(p.data, OPEN_CONFIRMATION, s.opening.value.id)
    modifies s, s.Live()
    ensures r.Some? && r == old(s.opening) && r.value.localWindow == 100 && r.value.grants == [50] && r.value.sent == []
    ensures Base(r.value.moves) == 100 && Sum(Early(r.value.moves)) == 50
  {
    hide Session.Valid, Session.Room, Channel.Sound, Confirms, GrantsFifty, Base, Early, Sum, IsReply;
    ghost var before := s.packets;
    ReadBoth(s, confirmation, grant);
    r := Resume(s, confirmation, before);
    EarlyFifty(r.value.moves);
  }

  lemma EarlyFifty(moves: seq<Move>)
    requires moves != [] && moves[|moves| - 1] == Reset(100) && Early(moves) == [50]
    ensures Base(moves) == 100 && Sum(Early(moves)) == 50
  {
    SumStep([], 50);
    assert [] + [50] == [50];
  }

  /** The opening is resumed. */
  method Resume(s: Session, confirmation: seq<byte>, ghost before: seq<Packet>) returns (r: Option<Channel>)
    requires s.Valid() && s.Room() && OpenOk(s) && s.openState.Sent? && s.opening.value.Sound()
    requires Confirms(confirmation, s.opening.value.id) && s.packets == before + [Packet(confirmation, 0)]
    requires forall p :: p in before ==> !IsReply(p.data, OPEN_CONFIRMATION, s.opening.value.id)
    modifies s`packets, s`arrived, s`taken, s`connected, s`inbound, s`history,
             s`nextChannel, s`listeners, s`acceptState, s`accepting,
             s.Live()`readAvail, s.Live()`remoteEof, s.Live()`remoteClose, s.Live()`localWindow, s.Live()`grants,
             s.Live()`moves,
             s`channels, s`openState, s`opening, s`reserve, Opening(s)`remoteId, Opening(s)`localPacketSize, Opening(s)`marks
    ensures r.Some? && r == old(s.opening) && r.value.localWindow == 100 && r.value.grants == old(s.opening.value.grants)
    ensures r.value.moves != [] && r.value.moves[|r.value.moves| - 1] == Reset(100) && Early(r.value.moves) == r.value.grants
  {
    hide Session.Valid, Session.Room, Channel.Sound, Gone, ReplyTaken, ReplyIs, OnlyAsked, GrantsTo, EndedIn, ClosedIn,
         Early, U32At, IsReply;
    ghost var c, queue := s.opening.value, s.packets;
    GrantsOf(s, c);
    assert queue[|before|] == Packet(confirmation, 0) && queue[|before|] in queue;
    assert Answered(s);
    ghost var reply, dropped;
    r, reply, dropped := Open(s, 0, 0);
    TheReply(queue, |before|, reply, OPEN_CONFIRMATION, OPEN_FAILURE, c.id);
    StartsWith(confirmation, c.id);
    GrantsOf(s, c);
  }

  lemma StartsWith(reply: seq<byte>, id: u32)
    requires IsReply(reply, OPEN_CONFIRMATION, id)
    ensures reply[0] == OPEN_CONFIRMATION
  {
  }

  /** Both come in. */
  method ReadBoth(s: Session, confirmation: seq<byte>, grant: seq<byte>)
    requires s.Valid() && s.Room() && OpenOk(s) && s.openState.Sent? && s.opening.value.Sound()
    requires s.connected && s.inbound == [Payload(confirmation), Payload(grant)]
    requires Confirms(confirmation, s.opening.value.id) && GrantsFifty(grant, s.opening.value.id)
    requires s.opening.value.grants == []
    modifies s`packets, s`arrived, s`connected, s`inbound, s`history,
             s`nextChannel, s`listeners, s`acceptState, s`accepting,
             s.Live()`readAvail, s.Live()`remoteEof, s.Live()`remoteClose, s.Live()`localWindow, s.Live()`grants,
             s.Live()`moves
    ensures s.Valid() && s.Room() && s.opening.value.Sound() && s.opening.value.grants == [50]
    ensures fresh(s.Live() - old(s.Live()))
    ensures s.packets == old(s.packets) + [Packet(confirmation, 0)]
  {
    hide Session.Valid, Session.Room, Session.Keeps, Session.Stops, Channel.Sound, Confirms, GrantsFifty, GrantsTo, EndedIn,
         ClosedIn, Seen.Queue, Seen.Grant, Event.Result;
    var c := s.opening.value;
    ghost var h := s.history;
    GrantsOf(s, c);
    Brings(confirmation, grant, c.id);
    var _, k := s.TransportRead();
    var _, l := s.TransportRead();
    ghost var x, y := Seen(Payload(confirmation), k), Seen(Payload(grant), l);
    SaidShift(h, c.born, x, c.id);
    SaidShift(h + [x], c.born, y, c.id);
    GrantsOf(s, c);
    assert [] + [] + [50] == [50];
  }

  lemma Brings(confirmation: seq<byte>, grant: seq<byte>, id: u32)
    requires Confirms(confirmation, id) && GrantsFifty(grant, id)
    ensures Payload(confirmation).Result() > 0 && Payload(grant).Result() > 0
    ensures forall k :: Seen(Payload(confirmation), k).Grant(id) == [] && Seen(Payload(grant), k).Grant(id) == [50]
    ensures forall k :: Seen(Payload(confirmation), k).Queue() == [Packet(confirmation, 0)] && Seen(Payload(grant), k).Queue() == []
  {
  }

  lemma GrantsOf(s: Session, c: Channel)
    requires s.Room() && c in s.Live()
    ensures c.born <= |s.history| && c.grants == GrantsTo(s.history[c.born..], c.id)
  {
    s.SaidNow(c);
  }

  /** `channel_forward_accept`: the first channel in the queue, as it stands when all that has come
      in is queued, moves to the session's list. */
  method ForwardAccept(s: Session, k: nat) returns (r: Option<Channel>, ghost queue: seq<Channel>)
    requires s.Valid() && s.Room() && k < |s.listeners|
    modifies s`packets, s`arrived, s`connected, s`inbound, s`history,
             s`nextChannel, s`listeners, s`acceptState, s`accepting,
             s.Live()`readAvail, s.Live()`remoteEof, s.Live()`remoteClose, s.Live()`localWindow, s.Live()`grants,
             s.Live()`moves, s`channels
    ensures s.Valid() && s.Room() && |s.listeners| == |old(s.listeners)| && fresh(s.Live() - old(s.Live()))
    ensures s.KeepsSound() && s.ReadOut(|old(s.history)|)
    ensures r.Some? ==> s.channels == old(s.channels) + [r.value] && queue == [r.value] + s.listeners[k].queue
    ensures r.Some? ==> r.value !in old(s.channels) && forall j :: 0 <= j < |s.listeners| ==> r.value !in s.listeners[j].queue
    ensures r.None? ==> s.channels == old(s.channels) && queue == s.listeners[k].queue == []
  {
    hide Session.Valid, Session.Room, Session.Stops, Session.ReadOut, Channel.Sound, Queues;
    var _ := s.ReadAll();
    queue := s.listeners[k].queue;
    r := None;
    if s.listeners[k].queue != [] {
      var c := MoveFirst(s, k);
      r := Some(c);
    }
  }

  method MoveFirst(s: Session, k: nat) returns (c: Channel)
    requires s.Valid() && s.Room() && k < |s.listeners| && s.listeners[k].queue != []
    modifies s`channels, s`listeners
    ensures s.Valid() && s.Room() && s.KeepsSound() && s.Live() == old(s.Live()) && c == old(s.listeners[k].queue[0])
    ensures s.channels == old(s.channels) + [c]
    ensures s.listeners == old(s.listeners)[k := old(s.listeners[k]).(queue := old(s.listeners[k].queue[1..]))]
    ensures c !in old(s.channels) && forall j :: 0 <= j < |s.listeners| ==> c !in s.listeners[j].queue
  {
    hide Session.Valid, Session.Recorded, Channel.Sound;
    c := s.TakeFromQueue(k);
  }
}
