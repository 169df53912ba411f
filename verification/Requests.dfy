/** The requests a channel makes, its end of data and its close: each picks up where it was left. */
module Requests {
  import opened Bytes
  import opened Errors
  import opened PacketQueue
  import opened Channels
  import opened Sessions

  const MAX_PTY := 256

  /** The code that belongs to a reply. */
  function ReplyCode(reply: seq<byte>): int
    requires reply != []
  {
    if reply[0] == CHANNEL_SUCCESS then 0 else ERROR_CHANNEL_REQUEST_DENIED
  }

  /** A reply for the channel was taken out of the queue, and is a success or a failure. */
  ghost predicate TookReply(before: seq<Packet>, after: seq<Packet>, reply: seq<byte>, id: u32) {
    && ReplyTaken(before, after, reply, CHANNEL_SUCCESS, CHANNEL_FAILURE, id)
    && (IsReply(reply, CHANNEL_SUCCESS, id) || IsReply(reply, CHANNEL_FAILURE, id))
  }

  lemma NoteReply(s: Session, rc: int, data: seq<byte>, id: u32, before: nat)
    requires rc == 0 ==> IsReply(data, CHANNEL_SUCCESS, id) || IsReply(data, CHANNEL_FAILURE, id)
    requires rc != 0 ==> s.NoReply(rc, before, CHANNEL_SUCCESS, CHANNEL_FAILURE)
    ensures rc == 0 ==> data != [] && (data[0] == CHANNEL_SUCCESS || data[0] == CHANNEL_FAILURE)
    ensures rc != 0 ==> rc < 0 && (rc == ERROR_CHANNEL_REQUEST_DENIED ==> s.LastCame(rc, before))
  {
    if rc != 0 {
      s.NoReplyIsNoDenial(rc, before, CHANNEL_SUCCESS, CHANNEL_FAILURE);
    }
  }

  /** `channel_setenv`: the request is fixed. */
  method BeginEnv(c: Channel, request: Request)
    requires c.Sound() && c.envState.Idle? && request.Env?
    modifies c`envState, c`envRequest, c`envBase
    ensures c.Sound() && c.envState.Created? && c.envRequest == request
    ensures c.envBase == Total(Envs, c.sent)
  {
    hide Total, Orderly, Channel.SendLedger, Channel.SizesKept, Channel.ReceiveLedger,
         Channel.AdjustLaw, Channel.FlushLaw;
    OrderlyMoves(c.sent, c.processState, ClosingOf(c.localClose, c.closeState), c.envState, c.envBase, c.ptyState, c.ptyBase);
    c.envBase, c.envRequest, c.envState := Total(Envs, c.sent), request, Created;
  }

  /** It is sent. */
  method SendEnv(c: Channel) returns (rc: int)
    requires c.Sound() && c.envState.Created?
    modifies c`sent, c`envState
    ensures c.Sound() && (rc == 0 || rc == ERROR_EAGAIN || rc == ERROR_SOCKET_SEND)
    ensures if rc == 0 then c.envState.Sent? && c.sent == old(c.sent) + [ChannelRequest(c.envRequest)]
            else c.sent == old(c.sent) && (if rc == ERROR_EAGAIN then c.envState.Created? else c.envState.Idle?)
  {
    hide Total, Orderly, Channel.SendLedger, Channel.SizesKept, Channel.ReceiveLedger,
         Channel.AdjustLaw, Channel.FlushLaw;
    var m := ChannelRequest(c.envRequest);
    OrderlyStep(c.sent, m, c.processState, ClosingOf(c.localClose, c.closeState), c.envState, c.envBase, c.ptyState, c.ptyBase);
    rc := c.SendControl(m);
    if rc == 0 {
      c.envState := Sent;
    } else if rc != ERROR_EAGAIN {
      EndEnv(c);
      rc := ERROR_SOCKET_SEND;
    }
  }

  /** The reply has come, or will not come: the request is over. */
  method EndEnv(c: Channel)
    requires c.Sound()
    modifies c`envState
    ensures c.Sound() && c.envState.Idle?
  {
    hide Total, Orderly, Channel.SendLedger, Channel.SizesKept, Channel.ReceiveLedger,
         Channel.AdjustLaw, Channel.FlushLaw;
    OrderlyMoves(c.sent, c.processState, ClosingOf(c.localClose, c.closeState), c.envState, c.envBase, c.ptyState, c.ptyBase);
    c.envState := Idle;
  }

  /** `channel_request_pty`: the request is fixed. */
  method BeginPty(c: Channel, request: Request)
    requires c.Sound() && c.ptyState.Idle? && request.Pty?
    modifies c`ptyState, c`ptyRequest, c`ptyBase
    ensures c.Sound() && c.ptyState.Created? && c.ptyRequest == request
    ensures c.ptyBase == Total(Ptys, c.sent)
  {
    hide Total, Orderly, Channel.SendLedger, Channel.SizesKept, Channel.ReceiveLedger,
         Channel.AdjustLaw, Channel.FlushLaw;
    OrderlyMoves(c.sent, c.processState, ClosingOf(c.localClose, c.closeState), c.envState, c.envBase, c.ptyState, c.ptyBase);
    c.ptyBase, c.ptyRequest, c.ptyState := Total(Ptys, c.sent), request, Created;
  }

  /** It is sent. */
  method SendPty(c: Channel) returns (rc: int)
    requires c.Sound() && c.ptyState.Created?
    modifies c`sent, c`ptyState
    ensures c.Sound() && (rc == 0 || rc == ERROR_EAGAIN || rc == ERROR_SOCKET_SEND)
    ensures if rc == 0 then c.ptyState.Sent? && c.sent == old(c.sent) + [ChannelRequest(c.ptyRequest)]
            else c.sent == old(c.sent) && (if rc == ERROR_EAGAIN then c.ptyState.Created? else c.ptyState.Idle?)
  {
    hide Total, Orderly, Channel.SendLedger, Channel.SizesKept, Channel.ReceiveLedger,
         Channel.AdjustLaw, Channel.FlushLaw;
    var m := ChannelRequest(c.ptyRequest);
    OrderlyStep(c.sent, m, c.processState, ClosingOf(c.localClose, c.closeState), c.envState, c.envBase, c.ptyState, c.ptyBase);
    rc := c.SendControl(m);
    if rc == 0 {
      c.ptyState := Sent;
    } else if rc != ERROR_EAGAIN {
      EndPty(c);
    }
  }

  /** The reply has come, or will not come: the request is over. */
  method EndPty(c: Channel)
    requires c.Sound()
    modifies c`ptyState
    ensures c.Sound() && c.ptyState.Idle?
  {
    hide Total, Orderly, Channel.SendLedger, Channel.SizesKept, Channel.ReceiveLedger,
         Channel.AdjustLaw, Channel.FlushLaw;
    OrderlyMoves(c.sent, c.processState, ClosingOf(c.localClose, c.closeState), c.envState, c.envBase, c.ptyState, c.ptyBase);
    c.ptyState := Idle;
  }

  lemma EnvStates(c: Channel)
    requires c.Sound()
    ensures c.envState.Idle? || c.envState.Created? || c.envState.Sent?
  {
  }

  /** `channel_setenv`. Whatever number of calls it takes, a sequence of calls that ends with success
      has sent one request: the one its first call asked for. */
  method SetEnv(s: Session, c: Channel, name: seq<byte>, value: seq<byte>) returns (rc: int, ghost reply: Option<seq<byte>>)
    requires s.Valid() && s.Room() && c in s.channels && c.Sound()
    modifies s`packets, s`arrived, s`connected, s`inbound, s`history,
             s`nextChannel, s`listeners, s`acceptState, s`accepting,
             s.Live()`readAvail, s.Live()`remoteEof, s.Live()`remoteClose, s.Live()`localWindow, s.Live()`grants,
             s.Live()`moves,
             c`sent, c`envState, c`envRequest, c`envBase
    ensures s.Valid() && s.Room() && c.Sound() && fresh(s.Live() - old(s.Live())) && rc <= 0
    ensures s.KeepsSound()
    ensures if old(c.envState.Idle?) then c.envBase == Total(Envs, old(c.sent)) && c.envRequest == Env(name, value)
            else c.envBase == old(c.envBase) && c.envRequest == old(c.envRequest)
    ensures c.sent == old(c.sent) || c.sent == old(c.sent) + [ChannelRequest(c.envRequest)]
    ensures rc == 0 ==> Total(Envs, c.sent) == c.envBase + 1
    ensures if rc == ERROR_EAGAIN then c.envState.Created? || c.envState.Sent? else c.envState.Idle?
    ensures match reply
            case Some(r) => TookReply(old(s.packets), s.packets, r, c.id) && rc == ReplyCode(r)
            case None => rc < 0 && (c.envState.Sent? ==> !HasReply(s.packets, CHANNEL_SUCCESS, CHANNEL_FAILURE, c.id))
    ensures rc == ERROR_CHANNEL_REQUEST_DENIED && reply.None? ==> s.LastCame(rc, |old(s.history)|)
  {
    hide Session.Valid, Session.Room, Channel.Sound, Total, TookReply, HasReply, Session.LastCame;
    rc := AskEnv(s, c, name, value);
    reply := None;
    if rc == 0 {
      rc, reply := AwaitEnv(s, c);
    }
  }

  /** Up to the reply; nothing changes in the session. */
  method AskEnv(s: Session, c: Channel, name: seq<byte>, value: seq<byte>) returns (rc: int)
    requires s.Valid() && s.Room() && c in s.channels && c.Sound()
    modifies c`sent, c`envState, c`envRequest, c`envBase
    ensures s.Valid() && s.Room() && s.Live() == old(s.Live()) && s.KeepsSound() && c.Sound()
    ensures rc == 0 || rc == ERROR_EAGAIN || rc == ERROR_SOCKET_SEND
    ensures if old(c.envState.Idle?) then c.envBase == Total(Envs, old(c.sent)) && c.envRequest == Env(name, value)
            else c.envBase == old(c.envBase) && c.envRequest == old(c.envRequest)
    ensures c.sent == old(c.sent) || c.sent == old(c.sent) + [ChannelRequest(c.envRequest)]
    ensures if rc == 0 then c.envState.Sent? else if rc == ERROR_EAGAIN then c.envState.Created? else c.envState.Idle?
  {
    hide Session.Valid, Session.Room, Channel.Sound, Total;
    EnvStates(c);
    rc := 0;
    if c.envState.Idle? {
      BeginEnv(c, Env(name, value));
    }
    if c.envState.Created? {
      rc := SendEnv(c);
    }
    assert s.Live() == old(s.Live());
  }

  lemma EnvSentOnce(c: Channel)
    requires c.Sound() && c.envState.Sent?
    ensures Total(Envs, c.sent) == c.envBase + 1
  {
  }

  method AwaitEnv(s: Session, c: Channel) returns (rc: int, ghost reply: Option<seq<byte>>)
    requires s.Valid() && s.Room() && c in s.channels && c.Sound() && c.envState.Sent?
    modifies s`packets, s`arrived, s`connected, s`inbound, s`history,
             s`nextChannel, s`listeners, s`acceptState, s`accepting,
             s.Live()`readAvail, s.Live()`remoteEof, s.Live()`remoteClose, s.Live()`localWindow, s.Live()`grants,
             s.Live()`moves,
             c`envState
    ensures s.Valid() && s.Room() && c.Sound() && fresh(s.Live() - old(s.Live())) && rc <= 0
    ensures s.KeepsSound()
    ensures Total(Envs, c.sent) == c.envBase + 1
    ensures if rc == ERROR_EAGAIN then c.envState.Sent? else c.envState.Idle?
    ensures match reply
            case Some(r) => TookReply(old(s.packets), s.packets, r, c.id) && rc == ReplyCode(r)
            case None => rc < 0 && !HasReply(s.packets, CHANNEL_SUCCESS, CHANNEL_FAILURE, c.id)
    ensures rc == ERROR_CHANNEL_REQUEST_DENIED && reply.None? ==> s.LastCame(rc, |old(s.history)|)
  {
    hide Session.Valid, Session.Room, Channel.Sound, Total, ReplyTaken, IsReply, HasReply, Session.NoReply, Session.LastCame;
    EnvSentOnce(c);
    var data;
    rc, data := s.AwaitReply(CHANNEL_SUCCESS, CHANNEL_FAILURE, c.id);
    NoteReply(s, rc, data, c.id, |old(s.history)|);
    reply := if rc == 0 then Some(data) else None;
    if rc == ERROR_EAGAIN {
      return;
    }
    EndEnvFor(s, c);
    if rc != 0 {
      return;
    }
    rc := if data[0] == CHANNEL_SUCCESS then 0 else ERROR_CHANNEL_REQUEST_DENIED;
  }

  /** It changes nothing in the session. */
  method EndEnvFor(s: Session, c: Channel)
    requires s.Valid() && s.Room() && c in s.channels && c.Sound()
    modifies c`envState
    ensures s.Valid() && s.Room() && s.Live() == old(s.Live()) && s.KeepsSound() && c.Sound() && c.envState.Idle?
  {
    hide Session.Valid, Session.Room, Channel.Sound;
    EndEnv(c);
    assert s.Live() == old(s.Live());
  }

  lemma PtyStates(c: Channel)
    requires c.Sound()
    ensures c.ptyState.Idle? || c.ptyState.Created? || c.ptyState.Sent?
  {
  }

  /** `channel_request_pty`. The terminal's name and modes must fit the fixed buffer. */
  method RequestPty(s: Session, c: Channel, request: Request) returns (rc: int, ghost reply: Option<seq<byte>>)
    requires request.Pty?
    requires s.Valid() && s.Room() && c in s.channels && c.Sound()
    modifies s`packets, s`arrived, s`connected, s`inbound, s`history,
             s`nextChannel, s`listeners, s`acceptState, s`accepting,
             s.Live()`readAvail, s.Live()`remoteEof, s.Live()`remoteClose, s.Live()`localWindow, s.Live()`grants,
             s.Live()`moves,
             c`sent, c`ptyState, c`ptyRequest, c`ptyBase
    ensures s.Valid() && s.Room() && c.Sound() && fresh(s.Live() - old(s.Live())) && rc <= 0
    ensures s.KeepsSound()
    ensures if !old(c.ptyState.Idle?) then c.ptyBase == old(c.ptyBase) && c.ptyRequest == old(c.ptyRequest)
            else if |request.term| + |request.modes| > MAX_PTY then rc == ERROR_INVAL && c.sent == old(c.sent)
            else c.ptyBase == Total(Ptys, old(c.sent)) && c.ptyRequest == request
    ensures c.sent == old(c.sent) || c.sent == old(c.sent) + [ChannelRequest(c.ptyRequest)]
    ensures rc == 0 ==> Total(Ptys, c.sent) == c.ptyBase + 1
    ensures if rc == ERROR_EAGAIN then c.ptyState.Created? || c.ptyState.Sent? else c.ptyState.Idle?
    ensures match reply
            case Some(r) => TookReply(old(s.packets), s.packets, r, c.id) && rc == ReplyCode(r)
            case None => rc < 0 && (c.ptyState.Sent? ==> !HasReply(s.packets, CHANNEL_SUCCESS, CHANNEL_FAILURE, c.id))
    ensures rc == ERROR_CHANNEL_REQUEST_DENIED ==> reply.Some?
  {
    hide Session.Valid, Session.Room, Channel.Sound, Total, TookReply, HasReply, Session.LastCame;
    rc := AskPty(s, c, request);
    reply := None;
    if rc == 0 {
      rc, reply := AwaitPty(s, c);
    }
  }

  /** Up to the reply; nothing changes in the session. */
  method AskPty(s: Session, c: Channel, request: Request) returns (rc: int)
    requires request.Pty?
    requires s.Valid() && s.Room() && c in s.channels && c.Sound()
    modifies c`sent, c`ptyState, c`ptyRequest, c`ptyBase
    ensures s.Valid() && s.Room() && s.Live() == old(s.Live()) && s.KeepsSound() && c.Sound()
    ensures rc == 0 || rc == ERROR_EAGAIN || rc == ERROR_SOCKET_SEND || rc == ERROR_INVAL
    ensures if !old(c.ptyState.Idle?) then c.ptyBase == old(c.ptyBase) && c.ptyRequest == old(c.ptyRequest)
            else if |request.term| + |request.modes| > MAX_PTY then rc == ERROR_INVAL && c.sent == old(c.sent)
            else c.ptyBase == Total(Ptys, old(c.sent)) && c.ptyRequest == request
    ensures c.sent == old(c.sent) || c.sent == old(c.sent) + [ChannelRequest(c.ptyRequest)]
    ensures if rc == 0 then c.ptyState.Sent? else if rc == ERROR_EAGAIN then c.ptyState.Created? else c.ptyState.Idle?
  {
    hide Session.Valid, Session.Room, Channel.Sound, Total;
    PtyStates(c);
    rc := 0;
    if c.ptyState.Idle? {
      if |request.term| + |request.modes| > MAX_PTY {
        return ERROR_INVAL;
      }
      BeginPty(c, request);
    }
    if c.ptyState.Created? {
      rc := SendPty(c);
    }
    assert s.Live() == old(s.Live());
  }

  lemma PtySentOnce(c: Channel)
    requires c.Sound() && c.ptyState.Sent?
    ensures Total(Ptys, c.sent) == c.ptyBase + 1
  {
  }

  method AwaitPty(s: Session, c: Channel) returns (rc: int, ghost reply: Option<seq<byte>>)
    requires s.Valid() && s.Room() && c in s.channels && c.Sound() && c.ptyState.Sent?
    modifies s`packets, s`arrived, s`connected, s`inbound, s`history,
             s`nextChannel, s`listeners, s`acceptState, s`accepting,
             s.Live()`readAvail, s.Live()`remoteEof, s.Live()`remoteClose, s.Live()`localWindow, s.Live()`grants,
             s.Live()`moves,
             c`ptyState
    ensures s.Valid() && s.Room() && c.Sound() && fresh(s.Live() - old(s.Live())) && rc <= 0
    ensures s.KeepsSound()
    ensures Total(Ptys, c.sent) == c.ptyBase + 1
    ensures if rc == ERROR_EAGAIN then c.ptyState.Sent? else c.ptyState.Idle?
    ensures match reply
            case Some(r) => TookReply(old(s.packets), s.packets, r, c.id) && rc == ReplyCode(r)
            case None => rc < 0 && !HasReply(s.packets, CHANNEL_SUCCESS, CHANNEL_FAILURE, c.id)
    ensures rc == ERROR_CHANNEL_REQUEST_DENIED ==> reply.Some?
  {
    hide Session.Valid, Session.Room, Channel.Sound, Total, ReplyTaken, IsReply, HasReply, Session.NoReply, Session.LastCame;
    PtySentOnce(c);
    var data;
    rc, data := s.AwaitReply(CHANNEL_SUCCESS, CHANNEL_FAILURE, c.id);
    NoteReply(s, rc, data, c.id, |old(s.history)|);
    reply := if rc == 0 then Some(data) else None;
    if rc == ERROR_EAGAIN {
      return;
    }
    EndPtyFor(s, c);
    if rc != 0 {
      rc := ERROR_PROTO;
      return;
    }
    rc := if data[0] == CHANNEL_SUCCESS then 0 else ERROR_CHANNEL_REQUEST_DENIED;
  }

  /** It changes nothing in the session. */
  method EndPtyFor(s: Session, c: Channel)
    requires s.Valid() && s.Room() && c in s.channels && c.Sound()
    modifies c`ptyState
    ensures s.Valid() && s.Room() && s.Live() == old(s.Live()) && s.KeepsSound() && c.Sound() && c.ptyState.Idle?
  {
    hide Session.Valid, Session.Room, Channel.Sound;
    EndPty(c);
    assert s.Live() == old(s.Live());
  }

  method BeginStartup(c: Channel, request: Request)
    requires c.Sound() && c.processState.Idle? && request.Startup?
    modifies c`processState, c`processRequest
    ensures c.Sound() && c.processState.Created? && c.processRequest == request
  {
    hide Total, Orderly, Channel.SendLedger, Channel.SizesKept, Channel.ReceiveLedger,
         Channel.AdjustLaw, Channel.FlushLaw;
    OrderlyMoves(c.sent, c.processState, ClosingOf(c.localClose, c.closeState), c.envState, c.envBase, c.ptyState, c.ptyBase);
    c.processRequest, c.processState := request, Created;
  }

  method SendStartup(c: Channel) returns (rc: int)
    requires c.Sound() && c.processState.Created?
    modifies c`sent, c`processState
    ensures c.Sound() && (rc == 0 || rc == ERROR_EAGAIN || rc == ERROR_SOCKET_SEND)
    ensures if rc == 0 then c.processState.Sent? && c.sent == old(c.sent) + [ChannelRequest(c.processRequest)]
            else c.sent == old(c.sent) && (if rc == ERROR_EAGAIN then c.processState.Created? else c.processState.End?)
  {
    hide Total, Orderly, Channel.SendLedger, Channel.SizesKept, Channel.ReceiveLedger,
         Channel.AdjustLaw, Channel.FlushLaw;
    var m := ChannelRequest(c.processRequest);
    OrderlyStep(c.sent, m, c.processState, ClosingOf(c.localClose, c.closeState), c.envState, c.envBase, c.ptyState, c.ptyBase);
    rc := c.SendControl(m);
    if rc == 0 {
      c.processState := Sent;
    } else if rc != ERROR_EAGAIN {
      EndStartup(c);
    }
  }

  method EndStartup(c: Channel)
    requires c.Sound()
    modifies c`processState
    ensures c.Sound() && c.processState.End?
  {
    hide Total, Orderly, Channel.SendLedger, Channel.SizesKept, Channel.ReceiveLedger,
         Channel.AdjustLaw, Channel.FlushLaw;
    OrderlyMoves(c.sent, c.processState, ClosingOf(c.localClose, c.closeState), c.envState, c.envBase, c.ptyState, c.ptyBase);
    c.processState := End;
  }

  method AwaitStartup(s: Session, c: Channel) returns (rc: int, ghost reply: Option<seq<byte>>)
    requires s.Valid() && s.Room() && c in s.channels && c.Sound() && c.processState.Sent?
    modifies s`packets, s`arrived, s`connected, s`inbound, s`history,
             s`nextChannel, s`listeners, s`acceptState, s`accepting,
             s.Live()`readAvail, s.Live()`remoteEof, s.Live()`remoteClose, s.Live()`localWindow, s.Live()`grants,
             s.Live()`moves,
             c`processState
    ensures s.Valid() && s.Room() && c.Sound() && fresh(s.Live() - old(s.Live())) && rc <= 0
    ensures s.KeepsSound()
    ensures if rc == ERROR_EAGAIN then c.processState.Sent? else c.processState.End?
    ensures match reply
            case Some(r) => TookReply(old(s.packets), s.packets, r, c.id) && rc == ReplyCode(r)
            case None => rc < 0 && !HasReply(s.packets, CHANNEL_SUCCESS, CHANNEL_FAILURE, c.id)
    ensures rc == ERROR_CHANNEL_REQUEST_DENIED && reply.None? ==> s.LastCame(rc, |old(s.history)|)
  {
    hide Session.Valid, Session.Room, Channel.Sound, Total, ReplyTaken, IsReply, HasReply, Session.NoReply, Session.LastCame;
    var data;
    rc, data := s.AwaitReply(CHANNEL_SUCCESS, CHANNEL_FAILURE, c.id);
    NoteReply(s, rc, data, c.id, |old(s.history)|);
    reply := if rc == 0 then Some(data) else None;
    if rc == ERROR_EAGAIN {
      return;
    }
    EndStartupFor(s, c);
    if rc == 0 && data[0] != CHANNEL_SUCCESS {
      rc := ERROR_CHANNEL_REQUEST_DENIED;
    }
  }

  /** It changes nothing in the session. */
  method EndStartupFor(s: Session, c: Channel)
    requires s.Valid() && s.Room() && c in s.channels && c.Sound()
    modifies c`processState
    ensures s.Valid() && s.Room() && s.Live() == old(s.Live()) && s.KeepsSound() && c.Sound() && c.processState.End?
  {
    hide Session.Valid, Session.Room, Channel.Sound;
    EndStartup(c);
    assert s.Live() == old(s.Live());
  }

  lemma StartupStates(c: Channel)
    requires c.Sound()
    ensures c.processState.Idle? || c.processState.Created? || c.processState.Sent? || c.processState.End?
  {
  }

  /** `_libssh2_channel_process_startup`. A channel is used for one process only. */
  method ProcessStartup(s: Session, c: Channel, request: Request) returns (rc: int, ghost reply: Option<seq<byte>>)
    requires s.Valid() && s.Room() && c in s.channels && c.Sound() && request.Startup?
    modifies s`packets, s`arrived, s`connected, s`inbound, s`history,
             s`nextChannel, s`listeners, s`acceptState, s`accepting,
             s.Live()`readAvail, s.Live()`remoteEof, s.Live()`remoteClose, s.Live()`localWindow, s.Live()`grants,
             s.Live()`moves,
             c`sent, c`processState, c`processRequest
    ensures s.Valid() && s.Room() && c.Sound() && fresh(s.Live() - old(s.Live())) && rc <= 0
    ensures s.KeepsSound()
    ensures c.sent == old(c.sent) || c.sent == old(c.sent) + [ChannelRequest(c.processRequest)]
    ensures old(c.processState.Idle?) ==> c.processRequest == request
    ensures old(c.processState.End?) ==> rc == ERROR_BAD_USE && c.sent == old(c.sent)
    ensures if rc == ERROR_EAGAIN then c.processState.Created? || c.processState.Sent? else c.processState.End?
    ensures Total(Startups, c.sent) <= 1
    ensures match reply
            case Some(r) => TookReply(old(s.packets), s.packets, r, c.id) && rc == ReplyCode(r)
            case None => rc < 0 && (c.processState.Sent? ==> !HasReply(s.packets, CHANNEL_SUCCESS, CHANNEL_FAILURE, c.id))
    ensures rc == ERROR_CHANNEL_REQUEST_DENIED && reply.None? ==> s.LastCame(rc, |old(s.history)|)
  {
    hide Session.Valid, Session.Room, Channel.Sound, Total, TookReply, HasReply, Session.LastCame;
    rc := AskStartup(s, c, request);
    reply := None;
    if rc == 0 {
      rc, reply := AwaitStartup(s, c);
    }
    OneProcess(c);
  }

  /** Up to the reply; nothing changes in the session. */
  method AskStartup(s: Session, c: Channel, request: Request) returns (rc: int)
    requires s.Valid() && s.Room() && c in s.channels && c.Sound() && request.Startup?
    modifies c`sent, c`processState, c`processRequest
    ensures s.Valid() && s.Room() && s.Live() == old(s.Live()) && s.KeepsSound() && c.Sound()
    ensures rc == 0 || rc == ERROR_EAGAIN || rc == ERROR_SOCKET_SEND || rc == ERROR_BAD_USE
    ensures c.sent == old(c.sent) || c.sent == old(c.sent) + [ChannelRequest(c.processRequest)]
    ensures old(c.processState.Idle?) ==> c.processRequest == request
    ensures old(c.processState.End?) ==> rc == ERROR_BAD_USE && c.sent == old(c.sent)
    ensures if rc == 0 then c.processState.Sent? else if rc == ERROR_EAGAIN then c.processState.Created? else c.processState.End?
  {
    hide Session.Valid, Session.Room, Channel.Sound, Total;
    StartupStates(c);
    if c.processState.End? {
      return ERROR_BAD_USE;
    }
    if c.processState.Idle? {
      BeginStartup(c, request);
    }
    rc := 0;
    if c.processState.Created? {
      rc := SendStartup(c);
    }
    assert s.Live() == old(s.Live());
  }

  lemma OneProcess(c: Channel)
    requires c.Sound()
    ensures Total(Startups, c.sent) <= 1 && Total(Closes, c.sent) <= 1
  {
  }

  /** `channel_send_eof` */
  method SendEof(c: Channel) returns (rc: int, ghost answer: Answer)
    requires c.Sound()
    modifies c`sent, c`localEof
    ensures c.Sound()
    ensures c.sent == if rc == 0 then old(c.sent) + [Eof] else old(c.sent)
    ensures rc == 0 || rc == ERROR_EAGAIN || rc == ERROR_SOCKET_SEND
    ensures rc == answer.Code()
    ensures c.localEof == (old(c.localEof) || rc == 0)
  {
    hide Total, Orderly, Channel.SendLedger, Channel.SizesKept, Channel.ReceiveLedger,
         Channel.AdjustLaw, Channel.FlushLaw;
    OrderlyStep(c.sent, Eof, c.processState, ClosingOf(c.localClose, c.closeState), c.envState, c.envBase, c.ptyState, c.ptyBase);
    rc := c.SendControl(Eof);
    answer := AnswerOf(rc);
    if rc == 0 {
      c.localEof := true;
    } else if rc != ERROR_EAGAIN {
      rc := ERROR_SOCKET_SEND;
    }
  }

  /** The close message goes out, once. */
  method SendClose(c: Channel) returns (rc: int)
    requires c.Sound() && !c.localClose && c.closeState.Created?
    modifies c`sent, c`closeState
    ensures c.Sound() && (rc == 0 || rc == ERROR_EAGAIN || rc == ERROR_SOCKET_SEND)
    ensures c.sent == if rc == 0 then old(c.sent) + [Close] else old(c.sent)
    ensures if rc == 0 then c.closeState.Sent? else c.closeState.Created?
  {
    hide Total, Orderly, Channel.SendLedger, Channel.SizesKept, Channel.ReceiveLedger,
         Channel.AdjustLaw, Channel.FlushLaw;
    OrderlyStep(c.sent, Close, c.processState, ClosingOf(c.localClose, c.closeState), c.envState, c.envBase, c.ptyState, c.ptyBase);
    rc := c.SendControl(Close);
    if rc == 0 {
      c.closeState := Sent;
    }
  }

  /** One read while the close is waited for: the channel is closed by the other side if and only if the next
      event closes it. */
  method ReadForClose(s: Session, c: Channel) returns (rc: int)
    requires s.Valid() && s.Room() && c in s.channels && c.Sound() && s.connected
    modifies s`packets, s`arrived, s`connected, s`inbound, s`history,
             s`nextChannel, s`listeners, s`acceptState, s`accepting,
             s.Live()`readAvail, s.Live()`remoteEof, s.Live()`remoteClose, s.Live()`localWindow, s.Live()`grants,
             s.Live()`moves
    ensures s.Valid() && s.Room() && c.Sound() && fresh(s.Live() - old(s.Live())) && s.KeepsSound()
    ensures rc >= 0 ==> s.connected && old(s.inbound) != [] && s.inbound == old(s.inbound)[1..]
    ensures Waited(old(s.inbound), rc) && |s.inbound| <= |old(s.inbound)|
    ensures rc >= 0 ==> c.remoteClose == (old(c.remoteClose) || Seen(old(s.inbound)[0], 0).Closes(c.id))
    ensures rc == 0 ==> c.remoteClose == old(c.remoteClose)
  {
    hide Session.Valid, Session.Room, Channel.Sound, GrantsTo, EndedIn, ClosedIn, Seen.Queue, Seen.Ends, Seen.Grant,
         Session.Keeps;
    s.SaidNow(c);
    ghost var before, kept := s.history, 0;
    ghost var next := if s.inbound == [] then Nothing else s.inbound[0];
    rc, kept := s.TransportRead();
    SaidShift(before, c.born, Seen(next, kept), c.id);
    s.SaidNow(c);
  }

  /** What the first event brings, if it is of account; a connection for a listener may take longer, or fail. */
  predicate Waited(rest: seq<Event>, rc: int) {
    if rest == [] then rc == ERROR_EAGAIN
    else if rest[0].ForwardedOpen? then rc == CHANNEL_OPEN as int || rc == ERROR_EAGAIN || rc == ERROR_SOCKET_SEND
    else rc == rest[0].Result()
  }

  /** After the close was sent the remote one is waited for; any packet, and any failure, ends the
      waiting. */
  method AwaitClose(s: Session, c: Channel, before: int) returns (rc: int)
    requires s.Valid() && s.Room() && c in s.channels && c.Sound()
    modifies s`packets, s`arrived, s`connected, s`inbound, s`history,
             s`nextChannel, s`listeners, s`acceptState, s`accepting,
             s.Live()`readAvail, s.Live()`remoteEof, s.Live()`remoteClose, s.Live()`localWindow, s.Live()`grants,
             s.Live()`moves
    ensures s.Valid() && s.Room() && c.Sound() && fresh(s.Live() - old(s.Live()))
    ensures s.KeepsSound()
    ensures before != 0 || old(c.remoteClose || !s.connected) ==> rc == before && s.history == old(s.history)
    ensures before == 0 && !old(c.remoteClose || !s.connected) ==>
              var rest := OfAccount(old(s.inbound));
              && rc != 0 && Waited(rest, rc)
              && (rc > 0 ==> s.connected && rest != [] && (c.remoteClose <==> Seen(rest[0], 0).Closes(c.id)))
  {
    hide Session.Valid, Session.Room, Channel.Sound, Seen.Closes;
    rc := before;
    if before != 0 || c.remoteClose || !s.connected {
      return;
    }
    while !c.remoteClose && rc == 0 && s.connected
      invariant s.Valid() && s.Room() && c.Sound() && fresh(s.Live() - old(s.Live()))
      invariant s.KeepsSound()
      invariant rc == 0 ==> s.connected && !c.remoteClose && OfAccount(s.inbound) == OfAccount(old(s.inbound))
      invariant rc != 0 ==>
                  var rest := OfAccount(old(s.inbound));
                  && Waited(rest, rc)
                  && (rc > 0 ==> s.connected && rest != [] && (c.remoteClose <==> Seen(rest[0], 0).Closes(c.id)))
      decreases |s.inbound| + (if rc == 0 then 1 else 0)
    {
      rc := ReadForClose(s, c);
    }
  }

  /** `_libssh2_channel_close`. It may be called any number of times; failures to send are passed
      over. When it returns 0 for a channel that was open, one close has been sent, behind the end of data
      unless that was sent before or its sending failed, and the waiting is over: because the other side had
      closed before or the connection is gone, or because some packet came, which need not be its close. */
  method CloseChannel(s: Session, c: Channel) returns (rc: int, ghost eof: Option<Answer>, ghost close: Option<Answer>)
    requires s.Valid() && s.Room() && c in s.channels && c.Sound()
    modifies s`packets, s`arrived, s`connected, s`inbound, s`history,
             s`nextChannel, s`listeners, s`acceptState, s`accepting,
             s.Live()`readAvail, s.Live()`remoteEof, s.Live()`remoteClose, s.Live()`localWindow, s.Live()`grants,
             s.Live()`moves,
             c`sent, c`localEof, c`localClose, c`closeState
    ensures s.Valid() && s.Room() && c.Sound() && fresh(s.Live() - old(s.Live())) && rc <= 0
    ensures s.KeepsSound()
    ensures rc == ERROR_EAGAIN ==> c.localClose == old(c.localClose)
    ensures rc != ERROR_EAGAIN ==> c.localClose && c.closeState.Idle?
    ensures old(c.localClose) ==> rc == 0 && c.sent == old(c.sent) && c.localEof == old(c.localEof)
    ensures !old(c.localClose) ==> LastWords(old(c.sent), old(c.localEof), old(c.closeState), c.sent, c.localEof, eof, close)
    ensures !old(c.localClose) && (close == Some(Done) || (old(c.closeState.Sent?) && (eof.None? || eof == Some(Done)))) ==>
              if old(c.remoteClose || !s.connected) then rc == 0 else Over(OfAccount(old(s.inbound)), rc)
    ensures eof == Some(PutOff) || close == Some(PutOff) ==> rc == ERROR_EAGAIN
    ensures eof == Some(Broken) && close.None? && !old(c.localClose) ==> rc == ERROR_SOCKET_SEND
    ensures close == Some(Broken) ==> rc == ERROR_SOCKET_SEND
    ensures rc == 0 && !old(c.localClose) ==> Total(Closes, c.sent) == 1
    ensures rc == 0 && !old(c.localClose) ==>
              if old(c.remoteClose || !s.connected) then s.history == old(s.history)
              else
                var rest := OfAccount(old(s.inbound));
                s.connected && rest != [] && rest[0].Result() > 0 && (c.remoteClose <==> Seen(rest[0], 0).Closes(c.id))
    ensures Total(Closes, c.sent) <= 1
  {
    hide Session.Valid, Session.Room, Channel.Sound, Total, Seen.Closes, LastWords, OfAccount, Over;
    eof, close := None, None;
    if c.localClose {
      c.Idled();
      OneProcess(c);
      return 0, eof, close;
    }
    rc, eof, close := SendLast(c);
    if rc != ERROR_EAGAIN {
      rc := FinishClose(s, c, rc);
    }
    OneProcess(c);
  }

  /** How the wait ends: a packet counts as success. */
  ghost predicate Over(rest: seq<Event>, rc: int) {
    exists code :: Waited(rest, code) && rc == if code > 0 then 0 else code
  }

  /** What one call sends: the end of data unless it was sent, and the close unless it was sent or the end was
      put off. */
  predicate LastWords(before: seq<Msg>, hadEof: bool, state: State, sent: seq<Msg>, hasEof: bool,
                      eof: Option<Answer>, close: Option<Answer>) {
    && (eof.Some? <==> !hadEof) && (close.Some? <==> !state.Sent? && eof != Some(PutOff))
    && hasEof == (hadEof || eof == Some(Done))
    && sent == before + (if eof == Some(Done) then [Eof] else []) + (if close == Some(Done) then [Close] else [])
  }

  /** The end of data, unless it was sent before, and the close. */
  method SendLast(c: Channel) returns (rc: int, ghost eof: Option<Answer>, ghost close: Option<Answer>)
    requires c.Sound() && !c.localClose
    modifies c`sent, c`localEof, c`closeState
    ensures c.Sound() && (rc == 0 || rc == ERROR_EAGAIN || rc == ERROR_SOCKET_SEND)
    ensures rc != ERROR_EAGAIN ==> c.closeState.Created? || c.closeState.Sent?
    ensures rc == 0 ==> c.closeState.Sent?
    ensures LastWords(old(c.sent), old(c.localEof), old(c.closeState), c.sent, c.localEof, eof, close)
    ensures eof == Some(PutOff) || close == Some(PutOff) <==> rc == ERROR_EAGAIN
    ensures close == Some(Broken) ==> rc == ERROR_SOCKET_SEND && c.closeState.Created?
    ensures rc == 0 <==> close == Some(Done) || (close.None? && (eof.None? || eof == Some(Done)))
    ensures old(c.closeState.Sent?) ==> close.None?
  {
    hide Channel.Sound, Total;
    SoundStates(c);
    rc, eof, close := 0, None, None;
    if !c.localEof {
      ghost var answer;
      rc, answer := SendEof(c);
      eof := Some(answer);
      if rc == ERROR_EAGAIN {
        return;
      }
    }
    if c.closeState.Idle? {
      c.Closing();
    }
    if c.closeState.Created? {
      rc := SendClose(c);
      close := Some(AnswerOf(rc));
    }
  }

  lemma SentOnce(c: Channel)
    requires c.Sound() && c.closeState.Sent?
    ensures Total(Closes, c.sent) == 1
  {
  }

  method FinishClose(s: Session, c: Channel, before: int) returns (rc: int)
    requires s.Valid() && s.Room() && c in s.channels && c.Sound() && !c.localClose
    requires before == 0 || before == ERROR_SOCKET_SEND
    requires (c.closeState.Created? || c.closeState.Sent?) && (before == 0 ==> c.closeState.Sent?)
    modifies s`packets, s`arrived, s`connected, s`inbound, s`history,
             s`nextChannel, s`listeners, s`acceptState, s`accepting,
             s.Live()`readAvail, s.Live()`remoteEof, s.Live()`remoteClose, s.Live()`localWindow, s.Live()`grants,
             s.Live()`moves,
             c`localClose, c`closeState
    ensures s.Valid() && s.Room() && c.Sound() && fresh(s.Live() - old(s.Live())) && rc <= 0
    ensures s.KeepsSound()
    ensures if rc == ERROR_EAGAIN then !c.localClose && c.closeState == old(c.closeState) else c.localClose && c.closeState.Idle?
    ensures if before != 0 then rc == before
            else if old(c.remoteClose || !s.connected) then rc == 0 else Over(OfAccount(old(s.inbound)), rc)
    ensures rc == 0 ==> Total(Closes, c.sent) == 1
    ensures rc == 0 ==>
              if old(c.remoteClose || !s.connected) then s.history == old(s.history)
              else
                var rest := OfAccount(old(s.inbound));
                s.connected && rest != [] && rest[0].Result() > 0 && (c.remoteClose <==> Seen(rest[0], 0).Closes(c.id))
  {
    hide Session.Valid, Session.Room, Channel.Sound, Total, Seen.Closes, OfAccount;
    rc := before;
    if c.closeState.Sent? {
      SentOnce(c);
      rc := AwaitClose(s, c, before);
    }
    if rc != ERROR_EAGAIN {
      ClosedFor(s, c);
    }
    rc := if rc >= 0 then 0 else rc;
  }

  /** Closing changes nothing in the session. */
  method ClosedFor(s: Session, c: Channel)
    requires s.Valid() && s.Room() && c in s.channels && c.Sound()
    modifies c`closeState, c`localClose
    ensures s.Valid() && s.Room() && s.Live() == old(s.Live()) && s.KeepsSound() && c.Sound()
    ensures c.closeState.Idle? && c.localClose
  {
    hide Session.Valid, Session.Room, Channel.Sound;
    c.Closed();
    assert s.Live() == old(s.Live());
  }

  /** A close has been sent, and is waited for. Any other packet ends the waiting: the channel counts as closed,
      but the other side has not closed it. */
  method CloseTooEarly(s: Session, c: Channel, packet: seq<byte>) returns (rc: int)
    requires s.Valid() && s.Room() && c in s.channels && c.Sound()
    requires c.closeState.Sent? && c.localEof && !c.localClose && !c.remoteClose && s.connected
    requires packet != [] && packet[0] == IGNORE && s.inbound == [Payload(packet)]
    modifies s, s.Live()
    ensures rc == 0 && c.localClose && !c.remoteClose && s.connected
  {
    hide Session.Valid, Session.Room, Channel.Sound, Total;
    ghost var eof, close;
    rc, eof, close := CloseChannel(s, c);
  }
}
