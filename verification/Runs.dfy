/** Whole runs: any sequence of calls on any channels of a session, from its beginning, whatever the
    other side sends in between and whatever the transport layer answers. */
module Runs {
  import opened Bytes
  import opened Errors
  import opened PacketQueue
  import opened Channels
  import opened Sessions
  import ChannelOpen
  import ChannelRead
  import ChannelWrite
  import Requests

  datatype Op =
    | Read(streamId: int, size: u32)
    | Flush(streamId: int)
    | Adjust(amount: u32, force: bool)
    | Write(streamId: int, buf: seq<byte>)
    | SetEnv(name: seq<byte>, value: seq<byte>)
    | AskPty(term: seq<byte>, modes: seq<byte>, width: u32, height: u32, widthPx: u32, heightPx: u32)
    | Start(request: seq<byte>, message: Option<seq<byte>>)
    | EndOfData
    | CloseIt
    | Merge(on: bool)

  /** A call: a channel is opened, a listener set up, a forwarded connection accepted from a listener, or
      something is done on a channel, which is given by its place in the session's list. */
  datatype Call =
    | OpenOne(window: u32, packetSize: u32)
    | Listen(host: seq<byte>, port: int, maxSize: int)
    | AcceptFrom(listener: nat)
    | On(channel: nat, op: Op)

  /** How many channels a run may open itself. */
  function Opens(calls: seq<Call>): nat {
    if calls == [] then 0 else (if calls[0].OpenOne? then 1 else 0) + Opens(calls[1..])
  }

  /** What can be seen of a channel when a call on it returns: its code, and whether an adjustment of its window, or a
      flush, has to be taken up again. */
  datatype Report = Report(id: u32, code: int, adjusting: bool, flushing: bool)

  function ReportOf(c: Channel, code: int): Report
    reads c`adjustState, c`flushState
  {
    Report(c.id, code, c.adjustState.Created?, c.flushState.Created?)
  }

  predicate NeverAdjusting(reports: seq<Report>, id: u32) {
    forall r :: r in reports && r.id == id ==> !r.adjusting
  }

  predicate NeverFlushing(reports: seq<Report>, id: u32) {
    forall r :: r in reports && r.id == id ==> !r.flushing
  }

  lemma ReportedNext(reports: seq<Report>, r: Report)
    ensures forall id :: NeverAdjusting(reports + [r], id) <==> NeverAdjusting(reports, id) && (r.id == id ==> !r.adjusting)
    ensures forall id :: NeverFlushing(reports + [r], id) <==> NeverFlushing(reports, id) && (r.id == id ==> !r.flushing)
  {
    forall id ensures NeverAdjusting(reports + [r], id) <==> NeverAdjusting(reports, id) && (r.id == id ==> !r.adjusting) {
      if NeverAdjusting(reports + [r], id) {
        assert r in reports + [r];
      }
    }
    forall id ensures NeverFlushing(reports + [r], id) <==> NeverFlushing(reports, id) && (r.id == id ==> !r.flushing) {
      if NeverFlushing(reports + [r], id) {
        assert r in reports + [r];
      }
    }
  }

  /** What was consumed of a channel is what was taken out of the queue for it. */
  ghost predicate Tallied(s: Session)
    reads s`taken, s`nextChannel, s`channels, s`listeners, s`accepting, s.Live()`consumed
  {
    TakenBelow(s.taken, s.nextChannel) && forall c :: c in s.Live() ==> c.consumed == TakenFor(s.taken, c.id)
  }

  /** What holds between any two calls, for every channel of the session, of its listeners and for the
      one that is being accepted. */
  ghost predicate Good(s: Session)
    reads s, s.Live(), ChannelOpen.Opening(s)
  {
    && s.Valid() && s.Room() && ChannelOpen.OpenOk(s) && Tallied(s)
    && forall c :: c in s.Live() ==> c.Sound()
  }

  /** The call was one on this channel, if on any: an answer other than success was given to one of its
      adjustments just if it is left adjusting, and its flush was put off just if it is left flushing. */
  twostate predicate Answered(s: Session, on: Option<Channel>)
    reads s`channels, s`listeners, s`accepting, s`nextChannel, s.Live()
  {
    && old(s.nextChannel) <= s.nextChannel
    && forall c :: c in s.Live() ==>
         if c !in old(s.Live()) then c.Pristine() && old(s.nextChannel) <= c.id
         else if on == Some(c) then
           && (Smooth(c.adjusts) <==> old(Smooth(c.adjusts)) && !c.adjustState.Created?)
           && (c.flushesHeld == 0 <==> old(c.flushesHeld) == 0 && !c.flushState.Created?)
         else c.adjusts == old(c.adjusts) && c.flushesHeld == old(c.flushesHeld)
  }

  /** What a call that returned `rc` has done, on its channel. */
  twostate predicate Did(s: Session, c: Channel, op: Op, rc: int)
    reads s, c
  {
    match op
    case Read(_, size) =>
      && rc <= size as int && c.consumed == old(c.consumed) + (if rc > 0 then rc else 0)
      && (c.readState.Idle? ==> s.ReadOut(|old(s.history)|)) && (c.readState.Jump1? ==> c.adjustState.Created?)
    case Flush(streamId) =>
      old(c.flushState.Idle?) ==> forall p :: p in s.packets ==> !Selected(p, c.id, ForFlush(streamId))
    case Adjust(amount, _) => c.requested == old(c.requested) + (if old(c.adjustState.Idle?) then amount else 0)
    case Write(streamId, buf) =>
      && (old(c.writeState.Idle? && !c.localClose && !c.localEof) ==> s.ReadOut(|old(s.history)|))
      && (rc > 0 ==> rc <= |buf| && c.sent == old(c.sent) + [Data(streamId, buf[..rc])])
      && (rc < 0 ==> c.sent == old(c.sent))
    case SetEnv(name, value) =>
      && (old(c.envState.Idle?) ==> c.envRequest == Env(name, value)) && (rc == 0 ==> Total(Envs, c.sent) == c.envBase + 1)
    case AskPty(term, modes, width, height, widthPx, heightPx) =>
      && (old(c.ptyState.Idle?) && |term| + |modes| <= Requests.MAX_PTY ==>
            c.ptyRequest == Pty(term, modes, width, height, widthPx, heightPx))
      && (rc == 0 ==> Total(Ptys, c.sent) == c.ptyBase + 1)
    case Start(request, message) =>
      && (old(c.processState.Idle?) ==> c.processRequest == Startup(request, message))
      && (if rc == ERROR_EAGAIN then c.processState.Created? || c.processState.Sent? else c.processState.End?)
    case EndOfData => c.sent == (if rc == 0 then old(c.sent) + [Eof] else old(c.sent)) && (rc == 0 ==> c.localEof)
    case CloseIt => (rc != ERROR_EAGAIN ==> c.localClose) && (rc == 0 && !old(c.localClose) ==> Total(Closes, c.sent) == 1)
    case Merge(on) => c.merge == on
  }

  /** A channel is not used before its opening has succeeded. */
  predicate Usable(s: Session, c: Channel)
    reads s`channels, s`opening
  {
    c in s.channels && s.opening != Some(c)
  }

  lemma UsableIsSound(s: Session, c: Channel)
    requires Good(s) && Usable(s, c)
    ensures c in s.Live() && c.Sound() && c !in ChannelOpen.Opening(s) && c.id < s.nextChannel
    ensures Lawful(c)
  {
  }

  /** The two laws that tie the flags of a channel to what was answered. */
  ghost predicate Lawful(c: Channel)
    reads c`adjusts, c`adjustState, c`exact, c`flushesHeld, c`flushState, c`skewed
  {
    c.AdjustLaw() && c.FlushLaw()
  }

  /** Nothing was taken for an id that is still to be given. */
  lemma NoneTaken(s: Session)
    requires Tallied(s)
    ensures forall id: u32 :: id >= s.nextChannel ==> TakenFor(s.taken, id) == 0
  {
    hide TakenFor;
    forall id: u32 | id >= s.nextChannel ensures TakenFor(s.taken, id) == 0 {
      TallyBelow(s.taken, s.nextChannel, id);
    }
  }

  lemma SoundLaws(c: Channel)
    requires c.Sound()
    ensures Lawful(c)
  {
  }

  /** A call that takes nothing out of the queue. */
  twostate lemma TallyKept(s: Session)
    requires old(Tallied(s)) && s.KeepsSound() && s.taken == old(s.taken)
    requires forall c :: c in s.Live() && c in old(s.Live()) ==> c.consumed == old(c.consumed)
    ensures Tallied(s)
  {
    hide Channel.Sound, TakenFor;
    forall c | c in s.Live() ensures c.consumed == TakenFor(s.taken, c.id) {
      if c !in old(s.Live()) {
        TallyBelow(s.taken, old(s.nextChannel), c.id);
      }
    }
  }

  method StepRead(s: Session, c: Channel, streamId: int, size: u32) returns (rc: int)
    requires Good(s) && Usable(s, c)
    modifies s, s.Live()
    ensures Good(s) && fresh(s.Live() - old(s.Live())) && s.reserve == old(s.reserve) && Answered(s, Some(c))
    ensures Did(s, c, Read(streamId, size), rc)
  {
    hide Session.Valid, Session.Room, Channel.Sound, ChannelOpen.OpenOk, Smooth, TakenFor, Session.ReadOut;
    var buf := new byte[size];
    rc := ReadInto(s, c, streamId, buf);
  }

  method ReadInto(s: Session, c: Channel, streamId: int, buf: array<byte>) returns (rc: int)
    requires Good(s) && Usable(s, c) && buf.Length < TWO32
    modifies s, s.Live(), buf
    ensures Good(s) && fresh(s.Live() - old(s.Live())) && s.reserve == old(s.reserve) && Answered(s, Some(c))
    ensures rc <= buf.Length && c.consumed == old(c.consumed) + (if rc > 0 then rc else 0)
    ensures (c.readState.Idle? ==> s.ReadOut(|old(s.history)|)) && (c.readState.Jump1? ==> c.adjustState.Created?)
  {
    hide Session.Valid, Session.Room, Channel.Sound, ChannelOpen.OpenOk, Smooth, Tallied, Session.ReadOut;
    UsableIsSound(s, c);
    rc := ReadTallied(s, c, streamId, buf);
  }

  /** What is read is counted. */
  method ReadTallied(s: Session, c: Channel, streamId: int, buf: array<byte>) returns (rc: int)
    requires s.Valid() && s.Room() && c in s.channels && c.Sound() && buf.Length < TWO32 && Tallied(s)
    modifies s`packets, s`arrived, s`taken, s`connected, s`inbound, s`history,
             s`nextChannel, s`listeners, s`acceptState, s`accepting,
             s.Live()`readAvail, s.Live()`remoteEof, s.Live()`remoteClose, s.Live()`localWindow, s.Live()`grants,
             s.Live()`moves,
             c`adjustQueue, c`adjustState, c`adjustPending, c`remoteWindow, c`sent, c`requested, c`exact, c`adjusts,
             c`readState, c`consumed, buf
    ensures s.Valid() && s.Room() && c.Sound() && s.KeepsSound() && fresh(s.Live() - old(s.Live())) && Tallied(s)
    ensures rc <= buf.Length && c.consumed == old(c.consumed) + (if rc > 0 then rc else 0)
    ensures (c.readState.Idle? ==> s.ReadOut(|old(s.history)|)) && (c.readState.Jump1? ==> c.adjustState.Created?)
    ensures Smooth(c.adjusts) <==> old(Smooth(c.adjusts)) && !c.adjustState.Created?
  {
    hide Session.Valid, Session.Room, Channel.Sound, Smooth, TakenFor, OnlyAsked, BytesOf, Wrap32, Selected,
         Channel.KeepsWide, Channel.AfterExpand, Channel.Adjusted, Session.ReadOut, Session.Stops, Session.CameToNothing;
    s.IdsDiffer();
    BelowNext(s, c);
    ghost var log, fetched;
    rc, log, fetched := ChannelRead.Read(s, c, streamId, buf);
    TallyStep(old(s.taken), log, c.id, ForRead(streamId, c.merge), old(s.nextChannel));
  }

  lemma BelowNext(s: Session, c: Channel)
    requires s.Valid() && c in s.Live()
    ensures c.id < s.nextChannel
  {
  }

  method StepFlush(s: Session, c: Channel, streamId: int) returns (rc: int)
    requires Good(s) && Usable(s, c)
    modifies s, s.Live()
    ensures Good(s) && fresh(s.Live() - old(s.Live())) && s.reserve == old(s.reserve) && Answered(s, Some(c))
    ensures Did(s, c, Flush(streamId), rc)
  {
    hide Session.Valid, Session.Room, Channel.Sound, ChannelOpen.OpenOk, Smooth, Tallied, Selected;
    UsableIsSound(s, c);
    rc := FlushTallied(s, c, streamId);
  }

  /** What is flushed is counted. */
  method FlushTallied(s: Session, c: Channel, streamId: int) returns (rc: int)
    requires s.Valid() && s.Room() && c in s.channels && c.Sound() && Tallied(s)
    modifies s`packets, s`taken, c`readAvail, c`skewed, c`flushState, c`flushRefund, c`flushBytes, c`remoteWindow, c`consumed,
             c`adjustQueue, c`adjustState, c`adjustPending, c`sent, c`requested, c`exact, c`adjusts, c`flushesHeld
    ensures s.Valid() && s.Room() && c.Sound() && s.Live() == old(s.Live()) && Tallied(s)
    ensures old(c.flushState.Idle?) ==> forall p :: p in s.packets ==> !Selected(p, c.id, ForFlush(streamId))
    ensures Smooth(c.adjusts) <==> old(Smooth(c.adjusts)) && !c.adjustState.Created?
    ensures c.flushesHeld == old(c.flushesHeld) + (if c.flushState.Created? then 1 else 0)
  {
    hide Session.Valid, Session.Room, Channel.Sound, Smooth, TakenFor,
         OnlyAsked, BytesOf, Wrap32, Selected, Waiting, Refund, Channel.Refunded;
    s.IdsDiffer();
    BelowNext(s, c);
    ghost var log;
    rc, log := ChannelRead.Flush(s, c, streamId);
    assert s.Live() == old(s.Live());
    TallyStep(old(s.taken), log, c.id, ForFlush(streamId), old(s.nextChannel));
  }

  method StepAdjust(s: Session, c: Channel, amount: u32, force: bool) returns (rc: int)
    requires Good(s) && Usable(s, c)
    modifies s, s.Live()
    ensures Good(s) && fresh(s.Live() - old(s.Live())) && s.reserve == old(s.reserve) && Answered(s, Some(c))
    ensures Did(s, c, Adjust(amount, force), rc)
  {
    hide Session.Valid, Session.Room, Channel.Sound, ChannelOpen.OpenOk, Smooth, TakenFor, Wrap32, Channel.Deferred;
    UsableIsSound(s, c);
    rc := c.AdjustAndStay(amount, force);
    assert s.Live() == old(s.Live());
  }

  /** A write that has to be resumed is only called with the same arguments. */
  method StepWrite(s: Session, c: Channel, streamId: int, buf: seq<byte>) returns (rc: int)
    requires Good(s) && Usable(s, c) && ChannelWrite.Writable(c, streamId, buf)
    modifies s, s.Live()
    ensures Good(s) && fresh(s.Live() - old(s.Live())) && s.reserve == old(s.reserve) && Answered(s, Some(c))
    ensures Did(s, c, Write(streamId, buf), rc)
  {
    hide Session.Valid, Session.Room, Channel.Sound, ChannelOpen.OpenOk, Smooth, Tallied, Session.ReadOut;
    UsableIsSound(s, c);
    rc := WriteTallied(s, c, streamId, buf);
    SoundLaws(c);
  }

  /** Writing counts as nothing. */
  method WriteTallied(s: Session, c: Channel, streamId: int, buf: seq<byte>) returns (rc: int)
    requires s.Valid() && s.Room() && c in s.channels && ChannelWrite.Writable(c, streamId, buf) && c.Sound() && Tallied(s)
    modifies s`packets, s`arrived, s`connected, s`inbound, s`history,
             s`nextChannel, s`listeners, s`acceptState, s`accepting,
             s.Live()`readAvail, s.Live()`remoteEof, s.Live()`remoteClose, s.Live()`localWindow, s.Live()`grants,
             s.Live()`moves,
             c`sent, c`marks, c`writeState, c`writeBufwrite, c`writeStream, c`writeBuf, c`frozenWindow, c`frozenLate
    ensures s.Valid() && s.Room() && c.Sound() && s.KeepsSound() && fresh(s.Live() - old(s.Live())) && Tallied(s)
    ensures old(c.writeState.Idle? && !c.localClose && !c.localEof) ==> s.ReadOut(|old(s.history)|)
    ensures rc <= |buf| && (rc > 0 ==> c.sent == old(c.sent) + [Data(streamId, buf[..rc])]) && (rc < 0 ==> c.sent == old(c.sent))
  {
    hide Session.Valid, Session.Room, Channel.Sound, Tallied, Session.ReadOut, Session.Stops;
    ghost var fetched, room;
    rc, fetched, room := ChannelWrite.Write(s, c, streamId, buf);
    TallyKept(s);
  }

  method StepEnv(s: Session, c: Channel, name: seq<byte>, value: seq<byte>) returns (rc: int)
    requires Good(s) && Usable(s, c)
    modifies s, s.Live()
    ensures Good(s) && fresh(s.Live() - old(s.Live())) && s.reserve == old(s.reserve) && Answered(s, Some(c))
    ensures Did(s, c, SetEnv(name, value), rc)
  {
    hide Session.Valid, Session.Room, Channel.Sound, ChannelOpen.OpenOk, Smooth, Tallied, Total;
    UsableIsSound(s, c);
    rc := EnvTallied(s, c, name, value);
    SoundLaws(c);
  }

  method EnvTallied(s: Session, c: Channel, name: seq<byte>, value: seq<byte>) returns (rc: int)
    requires s.Valid() && s.Room() && c in s.channels && c.Sound() && Tallied(s)
    modifies s`packets, s`arrived, s`connected, s`inbound, s`history,
             s`nextChannel, s`listeners, s`acceptState, s`accepting,
             s.Live()`readAvail, s.Live()`remoteEof, s.Live()`remoteClose, s.Live()`localWindow, s.Live()`grants,
             s.Live()`moves,
             c`sent, c`envState, c`envRequest, c`envBase
    ensures s.Valid() && s.Room() && c.Sound() && s.KeepsSound() && fresh(s.Live() - old(s.Live())) && Tallied(s)
    ensures old(c.envState.Idle?) ==> c.envRequest == Env(name, value)
    ensures rc == 0 ==> Total(Envs, c.sent) == c.envBase + 1
  {
    hide Session.Valid, Session.Room, Channel.Sound, Tallied, Total, Requests.TookReply, HasReply, Session.LastCame;
    ghost var reply;
    rc, reply := Requests.SetEnv(s, c, name, value);
    TallyKept(s);
  }

  method StepPty(s: Session, c: Channel, request: Request) returns (rc: int)
    requires Good(s) && Usable(s, c) && request.Pty?
    modifies s, s.Live()
    ensures Good(s) && fresh(s.Live() - old(s.Live())) && s.reserve == old(s.reserve) && Answered(s, Some(c))
    ensures Did(s, c, AskPty(request.term, request.modes, request.width, request.height, request.widthPx, request.heightPx), rc)
  {
    hide Session.Valid, Session.Room, Channel.Sound, ChannelOpen.OpenOk, Smooth, Tallied, Total;
    UsableIsSound(s, c);
    rc := PtyTallied(s, c, request);
    SoundLaws(c);
  }

  method PtyTallied(s: Session, c: Channel, request: Request) returns (rc: int)
    requires s.Valid() && s.Room() && c in s.channels && c.Sound() && Tallied(s) && request.Pty?
    modifies s`packets, s`arrived, s`connected, s`inbound, s`history,
             s`nextChannel, s`listeners, s`acceptState, s`accepting,
             s.Live()`readAvail, s.Live()`remoteEof, s.Live()`remoteClose, s.Live()`localWindow, s.Live()`grants,
             s.Live()`moves,
             c`sent, c`ptyState, c`ptyRequest, c`ptyBase
    ensures s.Valid() && s.Room() && c.Sound() && s.KeepsSound() && fresh(s.Live() - old(s.Live())) && Tallied(s)
    ensures old(c.ptyState.Idle?) && |request.term| + |request.modes| <= Requests.MAX_PTY ==> c.ptyRequest == request
    ensures rc == 0 ==> Total(Ptys, c.sent) == c.ptyBase + 1
  {
    hide Session.Valid, Session.Room, Channel.Sound, Tallied, Total, Requests.TookReply, HasReply, Session.LastCame;
    ghost var reply;
    rc, reply := Requests.RequestPty(s, c, request);
    TallyKept(s);
  }

  method StepStartup(s: Session, c: Channel, request: Request) returns (rc: int)
    requires Good(s) && Usable(s, c) && request.Startup?
    modifies s, s.Live()
    ensures Good(s) && fresh(s.Live() - old(s.Live())) && s.reserve == old(s.reserve) && Answered(s, Some(c))
    ensures Did(s, c, Start(request.request, request.message), rc)
  {
    hide Session.Valid, Session.Room, Channel.Sound, ChannelOpen.OpenOk, Smooth, Tallied, Total;
    UsableIsSound(s, c);
    rc := StartupTallied(s, c, request);
    SoundLaws(c);
  }

  method StartupTallied(s: Session, c: Channel, request: Request) returns (rc: int)
    requires s.Valid() && s.Room() && c in s.channels && c.Sound() && Tallied(s) && request.Startup?
    modifies s`packets, s`arrived, s`connected, s`inbound, s`history,
             s`nextChannel, s`listeners, s`acceptState, s`accepting,
             s.Live()`readAvail, s.Live()`remoteEof, s.Live()`remoteClose, s.Live()`localWindow, s.Live()`grants,
             s.Live()`moves,
             c`sent, c`processState, c`processRequest
    ensures s.Valid() && s.Room() && c.Sound() && s.KeepsSound() && fresh(s.Live() - old(s.Live())) && Tallied(s)
    ensures old(c.processState.Idle?) ==> c.processRequest == request
    ensures if rc == ERROR_EAGAIN then c.processState.Created? || c.processState.Sent? else c.processState.End?
  {
    hide Session.Valid, Session.Room, Channel.Sound, Tallied, Total, Requests.TookReply, HasReply, Session.LastCame;
    ghost var reply;
    rc, reply := Requests.ProcessStartup(s, c, request);
    TallyKept(s);
  }

  method StepEof(s: Session, c: Channel) returns (rc: int)
    requires Good(s) && Usable(s, c)
    modifies s, s.Live()
    ensures Good(s) && fresh(s.Live() - old(s.Live())) && s.reserve == old(s.reserve) && Answered(s, Some(c))
    ensures Did(s, c, EndOfData, rc)
  {
    hide Session.Valid, Session.Room, Channel.Sound, ChannelOpen.OpenOk, Smooth, Tallied;
    UsableIsSound(s, c);
    ghost var answer;
    rc, answer := Requests.SendEof(c);
    assert s.Live() == old(s.Live());
    SoundLaws(c);
    TallyKept(s);
  }

  method StepClose(s: Session, c: Channel) returns (rc: int)
    requires Good(s) && Usable(s, c)
    modifies s, s.Live()
    ensures Good(s) && fresh(s.Live() - old(s.Live())) && s.reserve == old(s.reserve) && Answered(s, Some(c))
    ensures Did(s, c, CloseIt, rc)
  {
    hide Session.Valid, Session.Room, Channel.Sound, ChannelOpen.OpenOk, Smooth, Tallied, Total;
    UsableIsSound(s, c);
    rc := CloseTallied(s, c);
    SoundLaws(c);
  }

  method CloseTallied(s: Session, c: Channel) returns (rc: int)
    requires s.Valid() && s.Room() && c in s.channels && c.Sound() && Tallied(s)
    modifies s`packets, s`arrived, s`connected, s`inbound, s`history,
             s`nextChannel, s`listeners, s`acceptState, s`accepting,
             s.Live()`readAvail, s.Live()`remoteEof, s.Live()`remoteClose, s.Live()`localWindow, s.Live()`grants,
             s.Live()`moves,
             c`sent, c`localEof, c`localClose, c`closeState
    ensures s.Valid() && s.Room() && c.Sound() && s.KeepsSound() && fresh(s.Live() - old(s.Live())) && Tallied(s)
    ensures (rc != ERROR_EAGAIN ==> c.localClose) && (rc == 0 && !old(c.localClose) ==> Total(Closes, c.sent) == 1)
  {
    hide Session.Valid, Session.Room, Channel.Sound, Tallied, Total, Requests.LastWords, Requests.Over, OfAccount;
    ghost var eof, close;
    rc, eof, close := Requests.CloseChannel(s, c);
    TallyKept(s);
  }

  method StepMerge(s: Session, c: Channel, on: bool) returns (rc: int)
    requires Good(s) && Usable(s, c)
    modifies s, s.Live()
    ensures Good(s) && fresh(s.Live() - old(s.Live())) && s.reserve == old(s.reserve) && Answered(s, Some(c))
    ensures Did(s, c, Merge(on), rc)
  {
    hide Session.Valid, Session.Room, Channel.Sound, ChannelOpen.OpenOk, Smooth, Tallied, Total, Selected, Session.ReadOut;
    UsableIsSound(s, c);
    c.HandleExtendedData(on);
    assert s.Live() == old(s.Live());
    SoundLaws(c);
    rc := 0;
    TallyKept(s);
  }

  /** Something is done on one channel. */
  method Do(s: Session, c: Channel, op: Op) returns (rc: int)
    requires Good(s) && Usable(s, c) && (op.Write? ==> ChannelWrite.Writable(c, op.streamId, op.buf))
    modifies s, s.Live()
    ensures Good(s) && fresh(s.Live() - old(s.Live())) && s.reserve == old(s.reserve) && Answered(s, Some(c))
    ensures Did(s, c, op, rc)
  {
    hide Good, Usable, Answered, Selected, Total, Session.ReadOut;
    match op {
      case Read(streamId, size) => rc := StepRead(s, c, streamId, size);
      case Flush(streamId) => rc := StepFlush(s, c, streamId);
      case Adjust(amount, force) => rc := StepAdjust(s, c, amount, force);
      case Write(streamId, buf) => rc := StepWrite(s, c, streamId, buf);
      case SetEnv(name, value) => rc := StepEnv(s, c, name, value);
      case AskPty(term, modes, width, height, widthPx, heightPx) =>
        rc := StepPty(s, c, Pty(term, modes, width, height, widthPx, heightPx));
      case Start(request, message) => rc := StepStartup(s, c, Startup(request, message));
      case EndOfData => rc := StepEof(s, c);
      case CloseIt => rc := StepClose(s, c);
      case Merge(on) => rc := StepMerge(s, c, on);
    }
  }

  /** An opening was begun or went on, of a channel with these numbers if it was begun. */
  twostate predicate DidOpen(s: Session, window: u32, packetSize: u32)
    reads s
  {
    old(s.openState.Idle?) ==>
      && s.nextChannel > old(s.nextChannel)
      && (s.channels != old(s.channels) ==>
            && |s.channels| == |old(s.channels)| + 1 && s.channels[..|old(s.channels)|] == old(s.channels)
            && s.channels[|old(s.channels)|].windowInitial == window && s.channels[|old(s.channels)|].packetSize == packetSize)
  }

  /** All that has come was taken in, and the first channel of the queue was accepted, if there was one. */
  twostate predicate DidAccept(s: Session, k: nat)
    reads s
  {
    && s.ReadOut(|old(s.history)|) && k < |s.listeners|
    && (s.channels == old(s.channels) ==> s.listeners[k].queue == [])
    && (s.channels != old(s.channels) ==>
          |s.channels| == |old(s.channels)| + 1 && s.channels[..|old(s.channels)|] == old(s.channels))
  }

  method StepOpen(s: Session, window: u32, packetSize: u32)
    requires Good(s) && (s.openState.Idle? ==> s.reserve > 0)
    modifies s, s.Live()
    ensures Good(s) && fresh(s.Live() - old(s.Live())) && s.reserve + 1 >= old(s.reserve) && Answered(s, None)
    ensures DidOpen(s, window, packetSize)
  {
    hide Session.Valid, Session.Room, Channel.Sound, ReplyTaken, ReplyIs, ChannelOpen.Confirmed, ChannelOpen.Gone, U32At, TakenFor,
         OnlyAsked, Smooth, Session.ReadOut;
    OpeningIsLive(s);
    NoneTaken(s);
    ghost var id := if s.openState.Idle? then s.nextChannel else s.opening.value.id;
    var _, _, dropped := ChannelOpen.Open(s, window, packetSize);
    TallyStep(old(s.taken), dropped, id, ForFlush(FLUSH_ALL), s.nextChannel);
  }

  lemma OpeningIsLive(s: Session)
    requires Good(s)
    ensures ChannelOpen.Opening(s) <= s.Live()
    ensures !s.openState.Idle? ==> s.opening.Some? && s.opening.value.Sound() && s.opening.value.id < s.nextChannel
  {
  }

  lemma IsGood(s: Session)
    requires s.Valid() && s.Room() && ChannelOpen.OpenOk(s) && Tallied(s)
    requires forall c :: c in s.Live() ==> c.Sound()
    ensures Good(s)
  {
  }

  method StepListen(s: Session, host: seq<byte>, port: int, maxSize: int)
    requires Good(s)
    modifies s, s.Live()
    ensures Good(s) && fresh(s.Live() - old(s.Live())) && s.reserve == old(s.reserve) && Answered(s, None)
    ensures s.listeners == old(s.listeners) + [Listener(host, port, [], maxSize)]
  {
    hide Session.Valid, Session.Recorded, Channel.Sound, TakenFor;
    s.AddListener(host, port, maxSize);
    assert forall c :: c in s.Live() ==> c in old(s.Live());
    IsGood(s);
  }

  method StepAccept(s: Session, k: nat)
    requires Good(s) && k < |s.listeners|
    modifies s, s.Live()
    ensures Good(s) && fresh(s.Live() - old(s.Live())) && s.reserve == old(s.reserve) && Answered(s, None)
    ensures DidAccept(s, k)
  {
    hide Session.Valid, Session.Room, Channel.Sound, Tallied, Session.ReadOut;
    OpeningIsLive(s);
    var _, _ := ChannelOpen.ForwardAccept(s, k);
    TallyKept(s);
    IsGood(s);
  }

  /** What a caller can do: use a channel that has been opened, accept from a listener that is there, and
      resume a write with the arguments it was begun with. */
  predicate Callable(s: Session, call: Call)
    reads s, s.channels
  {
    match call
    case OpenOne(_, _) => true
    case Listen(_, _, _) => true
    case AcceptFrom(k) => k < |s.listeners|
    case On(i, op) =>
      && i < |s.channels| && Usable(s, s.channels[i])
      && (op.Write? ==> ChannelWrite.Writable(s.channels[i], op.streamId, op.buf))
  }

  /** A channel can always be opened, and a listener set up; a channel that is not being opened can be used in any
      way but for a write that is not the one to be resumed. */
  lemma CallableExactly(s: Session, call: Call)
    ensures call.OpenOne? || call.Listen? ==> Callable(s, call)
    ensures call.AcceptFrom? ==> (Callable(s, call) <==> call.listener < |s.listeners|)
    ensures call.On? && call.channel < |s.channels| ==>
              var c := s.channels[call.channel];
              (Callable(s, call) <==>
                 && s.opening != Some(c)
                 && (call.op.Write? ==> ChannelWrite.Writable(c, call.op.streamId, call.op.buf)))
  {
  }

  /** Any call keeps it, whatever comes in and whatever the transport layer answers. */
  method Step(s: Session, call: Call) returns (report: Option<Report>)
    requires Good(s) && Callable(s, call) && (call.OpenOne? && s.openState.Idle? ==> s.reserve > 0)
    modifies s, s.Live()
    ensures Good(s) && fresh(s.Live() - old(s.Live()))
    ensures s.reserve + (if call.OpenOne? then 1 else 0) >= old(s.reserve)
    ensures var on := if call.On? then Some(old(s.channels[call.channel])) else None;
            && Answered(s, on) && (on.Some? <==> report.Some?)
            && match call
               case OpenOne(window, packetSize) => DidOpen(s, window, packetSize)
               case Listen(host, port, maxSize) => s.listeners == old(s.listeners) + [Listener(host, port, [], maxSize)]
               case AcceptFrom(k) => DidAccept(s, k)
               case On(_, op) => report.value == ReportOf(on.value, report.value.code) && Did(s, on.value, op, report.value.code)
  {
    hide Good, Usable, Answered, Did, DidOpen, DidAccept;
    report := None;
    match call {
      case OpenOne(window, packetSize) => StepOpen(s, window, packetSize);
      case Listen(host, port, maxSize) => StepListen(s, host, port, maxSize);
      case AcceptFrom(k) => StepAccept(s, k);
      case On(i, op) =>
        var c := s.channels[i];
        var rc := Do(s, c, op);
        report := Some(ReportOf(c, rc));
    }
  }

  /** The reports tell of every channel whether all its adjustments went well, and whether no flush of it
      was put off. */
  ghost predicate Told(s: Session, reports: seq<Report>)
    reads s`channels, s`listeners, s`accepting, s`nextChannel, s.Live()`adjusts, s.Live()`flushesHeld
  {
    && (forall r :: r in reports ==> r.id < s.nextChannel)
    && forall c :: c in s.Live() ==>
         && (Smooth(c.adjusts) <==> NeverAdjusting(reports, c.id))
         && (c.flushesHeld == 0 <==> NeverFlushing(reports, c.id))
  }

  lemma Distinct(s: Session)
    requires Good(s)
    ensures forall c :: c in s.Live() ==> c.id < s.nextChannel
    ensures forall c, d :: c in s.Live() && d in s.Live() && c.id == d.id ==> c == d
  {
  }

  lemma UsedIsLive(s: Session, call: Call)
    requires Callable(s, call) && call.On?
    ensures s.channels[call.channel] in s.Live()
  {
  }

  lemma NewIdsUntold(reports: seq<Report>, n: u32)
    requires forall r :: r in reports ==> r.id < n
    ensures forall id: u32 :: id >= n ==> NeverAdjusting(reports, id) && NeverFlushing(reports, id)
  {
  }

  lemma NothingIsSmooth()
    ensures Smooth([])
  {
  }

  method StepAndTell(s: Session, call: Call, reports: seq<Report>) returns (more: seq<Report>)
    requires Good(s) && Callable(s, call) && (call.OpenOne? && s.openState.Idle? ==> s.reserve > 0)
    requires Told(s, reports)
    modifies s, s.Live()
    ensures Good(s) && fresh(s.Live() - old(s.Live()))
    ensures s.reserve + (if call.OpenOne? then 1 else 0) >= old(s.reserve)
    ensures Told(s, more) && reports <= more && |more| == |reports| + if call.On? then 1 else 0
  {
    hide Good, Callable, Smooth, NeverAdjusting, NeverFlushing, Did, DidOpen, DidAccept;
    Distinct(s);
    NewIdsUntold(reports, s.nextChannel);
    NothingIsSmooth();
    if call.On? {
      UsedIsLive(s, call);
    }
    var report := Step(s, call);
    Distinct(s);
    more := reports;
    if report.Some? {
      ReportedNext(reports, report.value);
      more := reports + [report.value];
    }
  }

  /** What a run means for what a channel receives. Nothing that was queued for it is lost, and what was
      consumed is what was taken. Its counter is right if no flush of it was left waiting, and its receive
      window adds up if no adjustment was. */
  ghost predicate Receives(s: Session, c: Channel, reports: seq<Report>)
    reads s`packets, s`arrived, s`taken, c`consumed, c`readAvail, c`remoteWindow, c`adjustQueue, c`requested, c`sent
  {
    && AllValid(s.packets)
    && (forall stream ::
          Portion(s.arrived, c.id, stream) == Portion(s.taken, c.id, stream) + Pending(s.packets, c.id, stream))
    && c.consumed == TakenFor(s.taken, c.id)
    && (NeverFlushing(reports, c.id) ==> c.readAvail == Wrap32(Waiting(s.packets, c.id)))
    && (NeverAdjusting(reports, c.id) ==>
          && Wrap32(c.remoteWindow + c.adjustQueue + c.consumed) == Wrap32(c.windowInitial + c.requested)
          && Wrap32(c.remoteWindow + c.consumed) == Wrap32(c.windowInitial + Total(Credit, c.sent)))
  }

  /** And for what it sends. It is at its end, or closed, exactly if the events since it was made say so, and was granted
      what they grant. The moves of its send window are the grants that came in and the messages that
      went out; it never sends more than was granted. While the other side conforms it never sends more than
      the window holds, and nothing that was granted is lost but what came before the confirmation. No message
      is too long, one process is started at most, and one close is sent at most. */
  ghost predicate Sends(s: Session, c: Channel)
    reads s`history, c`grants, c`remoteEof, c`remoteClose, c`marks, c`moves, c`sent, c`localWindow, c`localPacketSize
  {
    && SaidOf(c, s.history)
    && Raises(c.moves) == c.grants && Marks(c.moves) == c.marks && Lowers(c.moves) == Sizes(c.sent)
    && c.localWindow == WindowAfter(c.moves)
    && Total(DataBytes, c.sent) + c.localWindow <= Base(c.moves) + Late(c.moves) <= Base(c.moves) + Sum(c.grants)
    && (Conforms(c.moves) ==>
          && NeverUnder(c.moves) && Total(DataBytes, c.sent) + c.localWindow == Base(c.moves) + Late(c.moves)
          && (Total(DataBytes, c.sent) + c.localWindow == Base(c.moves) + Sum(c.grants) <==> Sum(Early(c.moves)) == 0))
    && (forall m :: m in c.sent && m.Data? ==> |m.bytes| <= c.localPacketSize && |m.bytes| <= 32700)
    && Total(Startups, c.sent) <= 1 && Total(Closes, c.sent) <= 1
  }

  /** All this, and no other channel has its id. */
  ghost predicate Promised(s: Session, c: Channel, reports: seq<Report>)
    reads s, s.Live(), c
  {
    && Receives(s, c, reports) && Sends(s, c)
    && c.id < s.nextChannel && (forall d :: d in s.Live() && d.id == c.id ==> d == c)
  }

  /** For the session: what was taken in and what is still to come are what the network delivers, all that
      arrived for a channel is what those events brought, no channel stands in two places, and no listener has
      more channels waiting than it has room for. */
  ghost predicate Accounted(s: Session)
    reads s`history, s`inbound, s`arrived, s`channels, s`listeners, s`accepting
  {
    && Events(s.history) + s.inbound == s.stream && s.arrived == Arrivals(s.history)
    && Apart(s.channels, s.listeners) && Within(s.listeners) && (s.accepting.Some? ==> s.accepting.value !in s.Owned())
  }

  lemma AlwaysHolds(s: Session, reports: seq<Report>)
    requires Good(s) && Told(s, reports)
    ensures Accounted(s) && forall c :: c in s.Live() ==> Promised(s, c, reports)
  {
    hide Receives, Sends, Apart, Events, Arrivals, Balanced;
    forall c | c in s.Live() ensures Promised(s, c, reports) {
      ReceivesWell(s, c, reports);
      SendsWell(s, c);
    }
  }

  lemma ReceivesWell(s: Session, c: Channel, reports: seq<Report>)
    requires Good(s) && Told(s, reports) && c in s.Live()
    ensures Receives(s, c, reports)
  {
    hide U32At, Total, TakenFor, Waiting, Pending, Portion, Wrap32, Smooth, NeverAdjusting, NeverFlushing, Channel.Outgoing;
    if NeverAdjusting(reports, c.id) {
      WindowConserved(c);
    }
  }

  lemma SendsWell(s: Session, c: Channel)
    requires Good(s) && c in s.Live()
    ensures Sends(s, c)
  {
    hide Session.Valid, Total, Raises, Marks, Lowers, Sizes, GrantsTo, Sum, Late, Base, Early, WindowAfter, Conforms, NeverUnder,
         Channel.ReceiveLedger;
    Requests.OneProcess(c);
    s.SaidNow(c);
    GrantsAdd(c.moves);
    NothingLostExactly(c.moves, Total(DataBytes, c.sent), c.WriteWaiting());
  }

  /** How many of the calls that were made are calls on a channel. */
  function Used(calls: seq<Call>, made: seq<bool>): nat
    requires |calls| == |made|
  {
    if calls == [] then 0
    else Used(calls[..|calls| - 1], made[..|made| - 1]) + if made[|made| - 1] && calls[|calls| - 1].On? then 1 else 0
  }

  lemma NoneUsed()
    ensures Used([], []) == 0
  {
  }

  lemma UsedStep(calls: seq<Call>, i: nat, made: seq<bool>, now: bool)
    requires i < |calls| && |made| == i
    ensures Used(calls[..i + 1], made + [now]) == Used(calls[..i], made) + if now && calls[i].On? then 1 else 0
  {
    assert calls[..i + 1][..i] == calls[..i] && (made + [now])[..i] == made;
  }

  /** Any run, from the beginning of the session: calls that nobody can make are passed over, but openings and
      listeners are not, and each call on a channel is reported. Fewer than 2^32 channels are opened by either
      side. */
  method Run(inbound: seq<Event>, calls: seq<Call>) returns (s: Session, reports: seq<Report>, made: seq<bool>)
    requires Forwards(inbound) + Opens(calls) < TWO32
    ensures fresh(s) && s.stream == inbound && Good(s) && Told(s, reports)
    ensures Accounted(s) && forall c :: c in s.Live() ==> Promised(s, c, reports)
    ensures |made| == |calls| && |reports| == Used(calls, made)
    ensures forall i :: 0 <= i < |calls| && (calls[i].OpenOne? || calls[i].Listen?) ==> made[i]
  {
    hide Good, Promised, Accounted, Callable, Told, Used;
    s, reports := Begin(inbound, Opens(calls));
    made := [];
    NoneUsed();
    assert calls[0..] == calls;
    for i := 0 to |calls|
      invariant fresh(s) && fresh(s.Live()) && s.stream == inbound
      invariant Good(s) && Told(s, reports) && s.reserve >= Opens(calls[i..])
      invariant |made| == i && |reports| == Used(calls[..i], made)
      invariant forall j :: 0 <= j < i && (calls[j].OpenOne? || calls[j].Listen?) ==> made[j]
    {
      assert calls[i..][0] == calls[i] && calls[i..][1..] == calls[i + 1..];
      CallableExactly(s, calls[i]);
      var can := Callable(s, calls[i]);
      UsedStep(calls, i, made, can);
      if can {
        reports := StepAndTell(s, calls[i], reports);
      }
      made := made + [can];
    }
    assert calls[..|calls|] == calls;
    AlwaysHolds(s, reports);
  }

  method Begin(inbound: seq<Event>, ghost reserve: nat) returns (s: Session, reports: seq<Report>)
    requires Forwards(inbound) + reserve < TWO32
    ensures fresh(s) && s.Live() == {} && s.stream == inbound && Good(s) && Told(s, reports) && s.reserve == reserve
    ensures reports == []
  {
    hide Session.Valid, Session.Room;
    s := new Session(inbound, reserve);
    reports := [];
    assert ChannelOpen.OpenOk(s);
    IsGood(s);
  }
}
