/** Reading from a channel, flushing it, and asking what there is to read. */
module ChannelRead {
  import opened Bytes
  import opened Errors
  import opened PacketQueue
  import opened Channels
  import opened Sessions
  import opened Modular

  /** `_libssh2_channel_read`. With a positive result the buffer holds the bytes taken out of the
      queue; nothing else has been taken. */
  method Read(s: Session, c: Channel, streamId: int, buf: array<byte>) 
    returns (rc: int, ghost log: seq<Chunk>, ghost fetched: int)
    requires s.Valid() && s.Room() && c in s.channels && c.Sound() && buf.Length < TWO32
    modifies s`packets, s`arrived, s`taken, s`connected, s`inbound, s`history,
             s`nextChannel, s`listeners, s`acceptState, s`accepting,
             s.Live()`readAvail, s.Live()`remoteEof, s.Live()`remoteClose, s.Live()`localWindow, s.Live()`grants,
             s.Live()`moves,
             c`adjustQueue, c`adjustState, c`adjustPending, c`remoteWindow, c`sent, c`requested, c`exact, c`adjusts,
             c`readState, c`consumed, buf
    ensures s.Valid() && s.Room() && c.Sound()
    ensures s.taken == old(s.taken) + log && OnlyAsked(log, c.id, ForRead(streamId, c.merge))
    ensures fresh(s.Live() - old(s.Live()))
    ensures s.KeepsSound()
    ensures rc <= buf.Length && |BytesOf(log)| == (if rc > 0 then rc else 0)
    ensures rc > 0 ==> buf[..rc] == BytesOf(log)
    ensures 0 <= rc < buf.Length ==> forall p :: p in s.packets ==> !Selected(p, c.id, ForRead(streamId, c.merge))
    ensures rc >= 0 ==> c.readState.Idle?
    ensures c.readState.Idle? ==> s.ReadOut(|old(s.history)|) && s.Stops(fetched, |old(s.history)|)
    ensures c.readState.Idle? ==> rc == ReadAnswer(c, fetched, |BytesOf(log)|)
    ensures rc == 0 ==> c.remoteEof || c.remoteClose || s.CameToNothing(|old(s.history)|)
    ensures c.readState.Jump1? ==> c.adjustState.Created? && (rc == ERROR_EAGAIN || rc == ERROR_SOCKET_SEND)
    ensures Smooth(c.adjusts) <==> old(Smooth(c.adjusts)) && !c.adjustState.Created?
    ensures c.Adjusted(buf.Length, if c.readState.Idle? then Done else AnswerOf(rc))
    ensures c.consumed == old(c.consumed) + |BytesOf(log)|
    ensures c.readState.Idle? ==> c.remoteWindow == Wrap32(old(c.AfterExpand(buf.Length)) - |BytesOf(log)|)
    ensures c.readState.Idle? && old(c.KeepsWide(buf.Length)) ==>
              && c.remoteWindow >= c.windowInitial / 4 * 3
              && c.remoteWindow == old(c.AfterExpand(buf.Length)) - |BytesOf(log)|
  {
    hide Session.Valid, Session.Room, Asked, Selected, OnlyAsked, Channel.Sound, Channel.AfterExpand, Channel.KeepsWide, Wrap32,
         Channel.Adjusted, Smooth, Session.ReadOut, Session.Stops, Session.CameToNothing, BytesOf;
    SoundStates(c);
    log, fetched := [], 0;
    NothingAsked(c.id, ForRead(streamId, c.merge));
    BytesOfNothing();
    rc := ExpandFor(s, c, buf.Length);
    if rc != 0 {
      return;
    }
    rc, log, fetched := ReadQueued(s, c, streamId, buf);
  }

  /** The window is widened, which changes nothing in the session. */
  method ExpandFor(s: Session, c: Channel, bufLen: nat) returns (rc: int)
    requires s.Valid() && s.Room() && c in s.channels && c.Sound() && bufLen < TWO32
    modifies c`adjustQueue, c`adjustState, c`adjustPending, c`remoteWindow, c`sent, c`requested, c`exact, c`adjusts,
             c`readState
    ensures s.Valid() && s.Room() && s.Live() == old(s.Live()) && s.KeepsSound() && c.Sound()
    ensures rc == 0 || rc == ERROR_EAGAIN || rc == ERROR_SOCKET_SEND
    ensures if rc == 0 then c.readState.Idle? && c.remoteWindow == old(c.AfterExpand(bufLen))
            else c.readState.Jump1? && c.adjustState.Created?
    ensures rc == 0 && old(c.KeepsWide(bufLen)) ==> c.remoteWindow >= c.windowInitial / 4 * 3 + bufLen
    ensures Smooth(c.adjusts) <==> old(Smooth(c.adjusts)) && !c.adjustState.Created?
    ensures c.Adjusted(bufLen, AnswerOf(rc))
  {
    hide Session.Valid, Session.Room, Channel.Sound, Channel.AfterExpand, Channel.KeepsWide, Wrap32, Channel.Adjusted, Smooth;
    rc := c.ExpandWindow(bufLen);
    assert s.Live() == old(s.Live());
  }

  /** What a read returns once reading has come to `fetched`, with so many bytes taken: a failure, the bytes, or
      without any the end of the data if that has come, and else that there is nothing yet. */
  function ReadAnswer(c: Channel, fetched: int, n: nat): int
    reads c`remoteEof, c`remoteClose
  {
    if fetched < 0 && fetched != ERROR_EAGAIN then fetched
    else if n > 0 then n
    else if fetched == ERROR_EAGAIN && !c.remoteEof && !c.remoteClose then ERROR_EAGAIN
    else 0
  }

  /** The rest of it, once the window is wide enough. */
  method ReadQueued(s: Session, c: Channel, streamId: int, buf: array<byte>)
    returns (rc: int, ghost log: seq<Chunk>, ghost fetched: int)
    requires s.Valid() && s.Room() && c in s.channels && c.Sound()
    modifies s`packets, s`arrived, s`taken, s`connected, s`inbound, s`history,
             s`nextChannel, s`listeners, s`acceptState, s`accepting,
             s.Live()`readAvail, s.Live()`remoteEof, s.Live()`remoteClose, s.Live()`localWindow, s.Live()`grants,
             s.Live()`moves, c`remoteWindow, c`consumed, buf
    ensures s.Valid() && s.Room() && c.Sound() && fresh(s.Live() - old(s.Live()))
    ensures s.KeepsSound()
    ensures s.taken == old(s.taken) + log && OnlyAsked(log, c.id, ForRead(streamId, c.merge))
    ensures rc <= buf.Length && |BytesOf(log)| == (if rc > 0 then rc else 0)
    ensures rc > 0 ==> buf[..rc] == BytesOf(log)
    ensures 0 <= rc < buf.Length ==> forall p :: p in s.packets ==> !Selected(p, c.id, ForRead(streamId, c.merge))
    ensures c.remoteWindow == Wrap32(old(c.remoteWindow) - |BytesOf(log)|) && c.consumed == old(c.consumed) + |BytesOf(log)|
    ensures s.ReadOut(|old(s.history)|) && s.Stops(fetched, |old(s.history)|) && rc == ReadAnswer(c, fetched, |BytesOf(log)|)
    ensures rc == 0 ==> c.remoteEof || c.remoteClose || s.CameToNothing(|old(s.history)|)
    ensures old(c.remoteWindow) >= |BytesOf(log)| ==> c.remoteWindow == old(c.remoteWindow) - |BytesOf(log)|
  {
    hide Session.Valid, Session.Room, Asked, Selected, Channel.Sound, Wrap32, Take, Queues, Session.Stops,
         Session.ReadOut, Session.CameToNothing, BytesOf;
    var n;
    ghost var came;
    rc, n, log, came := s.Fetch(c, ForRead(streamId, c.merge), buf);
    fetched := rc;
    s.StopsAtNothing(rc, |old(s.history)|);
    WrapSmall(c.remoteWindow);
    BytesOfNothing();
    if n > 0 {
      ConsumeFor(s, c, n);
      rc := n;
    } else if rc == ERROR_EAGAIN && (c.remoteEof || c.remoteClose) {
      rc := 0;
    }
  }

  /** The bytes leave the window, which changes nothing in the session. */
  method ConsumeFor(s: Session, c: Channel, n: nat)
    requires s.Valid() && s.Room() && c in s.channels && c.Sound()
    modifies c`remoteWindow, c`consumed
    ensures s.Valid() && s.Room() && s.Live() == old(s.Live()) && s.KeepsSound() && c.Sound()
    ensures c.remoteWindow == Wrap32(old(c.remoteWindow) - n) && c.consumed == old(c.consumed) + n
    ensures n <= old(c.remoteWindow) ==> c.remoteWindow == old(c.remoteWindow) - n
  {
    hide Session.Valid, Session.Room, Channel.Sound, Wrap32;
    c.Consume(n);
    assert s.Live() == old(s.Live());
  }

  /** `_libssh2_channel_flush`. A retry takes the flushed bytes off both counters once more, which
      keeps the cached counter right exactly when there were none. */
  method Flush(s: Session, c: Channel, streamId: int) returns (rc: int, ghost log: seq<Chunk>)
    requires s.Valid() && c in s.channels && c.Sound()
    modifies s`packets, s`taken, c`readAvail, c`skewed, c`flushState, c`flushRefund, c`flushBytes, c`remoteWindow, c`consumed,
             c`adjustQueue, c`adjustState, c`adjustPending, c`sent, c`requested, c`exact, c`adjusts, c`flushesHeld
    ensures s.Valid() && c.Sound()
    ensures s.taken == old(s.taken) + log && OnlyAsked(log, c.id, ForFlush(streamId))
    ensures c.readAvail == Wrap32(old(c.readAvail) - c.flushBytes)
    ensures old(c.flushState.Created?) ==>
              && log == [] && c.flushBytes == old(c.flushBytes) && c.flushRefund == old(c.flushRefund)
              && s.packets == old(s.packets) && c.skewed == (old(c.skewed) || c.flushBytes != 0)
    ensures old(c.flushState.Idle?) ==>
              && c.skewed == old(c.skewed) && c.flushBytes == Wrap32(|BytesOf(log)|)
              && c.flushRefund == Wrap32(Refund(old(s.packets), c.id, ForFlush(streamId)))
              && forall p :: p in s.packets ==> !Selected(p, c.id, ForFlush(streamId))
    ensures old(!c.skewed) ==>
              (c.readAvail == Wrap32(Waiting(s.packets, c.id)) <==> old(c.flushState.Idle? || c.flushBytes == 0))
    ensures if c.flushState.Created? then rc == ERROR_EAGAIN else c.flushState.Idle? && rc == AsInt(c.flushBytes)
    ensures c.consumed == old(c.consumed) + |BytesOf(log)|
    ensures c.flushesHeld == old(c.flushesHeld) + (if c.flushState.Created? then 1 else 0)
    ensures Smooth(c.adjusts) <==> old(Smooth(c.adjusts)) && !c.adjustState.Created?
    ensures c.Refunded(old(c.adjusts), old(c.adjustState), old(c.adjustPending), old(c.requested),
                       old(c.exact) && (old(c.flushState.Created?) ==> c.flushBytes == 0))
  {
    hide Session.Valid, Selected, Asked, Waiting, Wrap32, BytesOf, Refund, Channel.Sound, Channel.Refunded, Smooth;
    SoundStates(c);
    BytesOfNothing();
    if c.flushState.Idle? {
      rc, log := FlushStart(s, c, ForFlush(streamId));
    } else {
      log := [];
      rc := FlushAgain(s, c);
    }
  }

  method FlushStart(s: Session, c: Channel, pick: Pick) returns (rc: int, ghost log: seq<Chunk>)
    requires s.Valid() && c in s.channels && c.Sound() && c.flushState.Idle? && pick.ForFlush?
    modifies s`packets, s`taken, c`readAvail, c`flushState, c`flushRefund, c`flushBytes, c`remoteWindow, c`consumed,
             c`adjustQueue, c`adjustState, c`adjustPending, c`sent, c`requested, c`exact, c`adjusts, c`flushesHeld
    ensures s.Valid() && c.Sound()
    ensures s.taken == old(s.taken) + log && OnlyAsked(log, c.id, pick) && c.flushBytes == Wrap32(|BytesOf(log)|)
    ensures c.readAvail == Wrap32(old(c.readAvail) - c.flushBytes)
    ensures !c.skewed ==> c.readAvail == Wrap32(Waiting(s.packets, c.id))
    ensures c.flushRefund == Wrap32(Refund(old(s.packets), c.id, pick))
    ensures forall p :: p in s.packets ==> !Selected(p, c.id, pick)
    ensures if c.flushState.Created? then rc == ERROR_EAGAIN else c.flushState.Idle? && rc == AsInt(c.flushBytes)
    ensures c.consumed == old(c.consumed) + |BytesOf(log)|
    ensures c.flushesHeld == old(c.flushesHeld) + (if c.flushState.Created? then 1 else 0)
    ensures Smooth(c.adjusts) <==> old(Smooth(c.adjusts)) && !c.adjustState.Created?
    ensures c.Refunded(old(c.adjusts), old(c.adjustState), old(c.adjustPending), old(c.requested), old(c.exact))
  {
    hide Session.Valid, Selected, Asked, Wrap32, BytesOf, Refund, Channel.Sound, Channel.Refunded, Smooth;
    var flushed, refund;
    flushed, refund, log := s.FlushQueue(c, pick);
    WrapDifference(old(c.readAvail), flushed);
    label Flushed:
    rc := c.Flushed(flushed, refund);
    assert s.Live() == old@Flushed(s.Live());
  }

  method FlushAgain(s: Session, c: Channel) returns (rc: int)
    requires s.Valid() && c in s.channels && c.Sound() && c.flushState.Created?
    modifies c`readAvail, c`skewed, c`flushState, c`remoteWindow, c`consumed,
             c`adjustQueue, c`adjustState, c`adjustPending, c`sent, c`requested, c`exact, c`adjusts, c`flushesHeld
    ensures c.readAvail == Wrap32(old(c.readAvail) - c.flushBytes)
    ensures s.Valid() && c.Sound() && c.skewed == (old(c.skewed) || c.flushBytes != 0)
    ensures old(!c.skewed) ==> (c.readAvail == Wrap32(Waiting(s.packets, c.id)) <==> c.flushBytes == 0)
    ensures if c.flushState.Created? then rc == ERROR_EAGAIN else c.flushState.Idle? && rc == AsInt(c.flushBytes)
    ensures c.consumed == old(c.consumed)
    ensures c.flushesHeld == old(c.flushesHeld) + (if c.flushState.Created? then 1 else 0)
    ensures Smooth(c.adjusts) <==> old(Smooth(c.adjusts)) && !c.adjustState.Created?
    ensures c.Refunded(old(c.adjusts), old(c.adjustState), old(c.adjustPending), old(c.requested),
                       old(c.exact) && c.flushBytes == 0)
  {
    hide Session.Valid, Waiting, Wrap32, Channel.Sound, Channel.Refunded, Smooth;
    CountAgain(s, c);
    label Counted:
    rc := c.FlushedAgain();
    assert s.Live() == old@Counted(s.Live());
  }

  /** The counter goes down once more. */
  method CountAgain(s: Session, c: Channel)
    requires s.Valid() && c in s.channels && c.Sound() && c.flushState.Created?
    modifies c`readAvail, c`skewed
    ensures c.readAvail == Wrap32(old(c.readAvail) - c.flushBytes)
    ensures s.Valid() && c.Sound() && c.skewed == (old(c.skewed) || c.flushBytes != 0)
    ensures old(!c.skewed) ==> (c.readAvail == Wrap32(Waiting(s.packets, c.id)) <==> c.flushBytes == 0)
  {
    hide Selected, Waiting, Wrap32, Balanced, Apart, U32At, Channel.Adjustable;
    WrapDifference(Waiting(s.packets, c.id), c.flushBytes);
    WrapSum(Waiting(s.packets, c.id), 0 - c.flushBytes);
    WrapMoves(Waiting(s.packets, c.id), c.flushBytes);
    WrapSmall(c.readAvail);
    WrapSmall(c.flushBytes);
    c.readAvail := Wrap32(c.readAvail - c.flushBytes);
    c.skewed := c.skewed || c.flushBytes != 0;
  }

  /** One byte waits, and is flushed; the adjustment that follows is put off. When the flush is called
      again nothing waits, but the counter is 2^32 - 1. */
  method RetriedFlush(s: Session, c: Channel) returns (first: int, second: int, ghost retried: bool)
    requires s.Valid() && c in s.channels && c.Sound() && !c.skewed
    requires c.adjustState.Idle? && c.flushState.Idle? && Waiting(s.packets, c.id) == 1
    modifies s`packets, s`taken, c`readAvail, c`skewed, c`flushState, c`flushRefund, c`flushBytes, c`remoteWindow, c`consumed,
             c`adjustQueue, c`adjustState, c`adjustPending, c`sent, c`requested, c`exact, c`adjusts, c`flushesHeld
    ensures s.Valid()
    ensures !retried ==> c.flushState.Idle?
    ensures retried ==> first == ERROR_EAGAIN && Waiting(s.packets, c.id) == 0 && c.readAvail == 0xffff_ffff
  {
    hide Session.Valid, Selected, Asked, Waiting, Wrap32, BytesOf, Refund, Channel.Sound, OnlyAsked, AllValid;
    CounterIs(s, c);
    ghost var log;
    first, log := Flush(s, c, FLUSH_ALL);
    second, retried := first, c.flushState.Created?;
    if c.flushState.Idle? {
      return;
    }
    CounterIs(s, c);
    AllFlushed(s, c);
    OneTakenOff(c.flushBytes);
    second, log := Flush(s, c, FLUSH_ALL);
  }

  lemma CounterIs(s: Session, c: Channel)
    requires s.Valid() && c in s.channels && !c.skewed
    ensures AllValid(s.packets) && c.readAvail == Wrap32(Waiting(s.packets, c.id))
  {
  }

  lemma AllFlushed(s: Session, c: Channel)
    requires AllValid(s.packets) && forall p :: p in s.packets ==> !Selected(p, c.id, ForFlush(FLUSH_ALL))
    ensures Waiting(s.packets, c.id) == 0
  {
    hide U32At, Waiting;
    NothingWaiting(s.packets, c.id);
  }

  lemma OneTakenOff(n: u32)
    ensures Wrap32(1) == 1 && Wrap32(0) == 0 && Wrap32(0 - 1) == 0xffff_ffff && (Wrap32(1 - n) == 0 ==> n == 1)
  {
  }

  /** `libssh2_channel_eof`: the end is not reported while anything of the channel is queued. */
  method IsEof(s: Session, c: Channel) returns (eof: bool)
    requires s.Valid() && c in s.channels
    ensures eof <==> c.remoteEof && forall p :: p in s.packets ==> !p.For(c.id)
    ensures eof ==> Waiting(s.packets, c.id) == 0 && forall stream :: Pending(s.packets, c.id, stream) == []
    ensures eof && !c.skewed ==> c.readAvail == 0
  {
    hide U32At, Waiting, Pending, Balanced;
    for i := 0 to |s.packets|
      invariant forall p :: p in s.packets[..i] ==> !p.For(c.id)
    {
      if s.packets[i].For(c.id) {
        return false;
      }
    }
    assert s.packets[..|s.packets|] == s.packets;
    NothingWaiting(s.packets, c.id);
    WrapSmall(0);
    return c.remoteEof;
  }

  /** `libssh2_channel_window_read_ex`: the window, and the bytes to be read counted afresh. */
  method WindowRead(s: Session, c: Channel) returns (window: u32, avail: nat)
    requires s.Valid() && c in s.channels
    ensures window == c.remoteWindow && avail == Waiting(s.packets, c.id)
    ensures !c.skewed ==> c.readAvail == Wrap32(avail)
  {
    hide U32At, Balanced, WaitingPart;
    avail := 0;
    var i := 0;
    assert s.packets[0..] == s.packets;
    while i < |s.packets|
      invariant i <= |s.packets| && avail + Waiting(s.packets[i..], c.id) == Waiting(s.packets, c.id)
    {
      var p := s.packets[i];
      assert s.packets[i..][1..] == s.packets[i + 1..];
      WaitingPartOf(p, c.id);
      if p.For(c.id) {
        avail := avail + (|p.data| - p.head);
      }
      i := i + 1;
    }
    window := c.remoteWindow;
  }

  lemma WaitingPartOf(p: Packet, id: u32)
    requires p.Valid()
    ensures WaitingPart(p, id) == if p.For(id) then |p.data| - p.head else 0
  {
  }
}
