/** Writing to a channel, and the loop of the terminal that feeds it. */
module ChannelWrite {
  import opened Bytes
  import opened Errors
  import opened Channels
  import opened Sessions
  import opened Modular

  /** A write can be called: afresh, or again with the arguments it was called with before. */
  predicate Writable(c: Channel, streamId: int, buf: seq<byte>)
    reads c`writeState, c`writeBuf, c`writeStream, c`writeBufwrite
  {
    c.writeState.Idle? || (c.writeState.Created? && c.writeBuf == buf && c.writeStream == streamId && c.writeBufwrite <= |buf|)
  }

  /** The second part of `_libssh2_channel_write`: the frozen part of the buffer goes out. The window
      falls by it, and underflows exactly if the other side has granted too much since it was frozen. */
  method SendData(c: Channel, buf: seq<byte>) returns (rc: int)
    requires c.Sound() && c.writeState.Created? && c.writeBufwrite <= |buf|
    modifies c`sent, c`localWindow, c`marks, c`moves, c`writeState
    ensures c.Sound()
    ensures rc >= 0 ==> c.writeState.Idle? && rc == c.writeBufwrite && rc <= MAX_WRITE && rc <= c.localPacketSize
    ensures rc >= 0 ==> c.sent == old(c.sent) + [Data(c.writeStream, buf[..rc])] && c.moves == old(c.moves) + [Lower(rc)]
    ensures c.marks == old(c.marks) + (if rc < 0 then [] else [Mark(Lower(rc), |c.grants|)])
    ensures rc >= 0 ==>
              && c.frozenLate <= Late(old(c.moves))
              && c.localWindow == old(c.localWindow) - rc + (if c.Overgranted(Late(old(c.moves))) then TWO32 else 0)
              && (Conforms(old(c.moves)) ==> !c.Overgranted(Late(old(c.moves))))
    ensures rc < 0 ==> c.sent == old(c.sent) && c.localWindow == old(c.localWindow) && c.moves == old(c.moves)
    ensures rc < 0 ==> if rc == ERROR_EAGAIN then c.writeState.Created? else rc == ERROR_SOCKET_SEND && c.writeState.Idle?
  {
    hide Channel.SendLedger, ReceiveBooks, Channel.Overgranted, Orderly, SmallData, Wrap32, Total, Late, Conforms;
    DataUnderflows(c);
    rc := SendFrozen(c, buf);
  }

  method SendFrozen(c: Channel, buf: seq<byte>) returns (rc: int)
    requires c.Outgoing() && c.writeState.Created? && c.writeBufwrite <= |buf|
    modifies c`sent, c`localWindow, c`marks, c`moves, c`writeState
    ensures c.Outgoing() && Total(Credit, c.sent) == Total(Credit, old(c.sent))
    ensures rc >= 0 ==> c.writeState.Idle? && rc == c.writeBufwrite && rc <= MAX_WRITE && rc <= c.localPacketSize
    ensures rc >= 0 ==> c.sent == old(c.sent) + [Data(c.writeStream, buf[..rc])] && c.moves == old(c.moves) + [Lower(rc)]
    ensures c.marks == old(c.marks) + (if rc < 0 then [] else [Mark(Lower(rc), |c.grants|)])
    ensures rc >= 0 ==> c.localWindow == Wrap32(old(c.localWindow) - rc)
    ensures rc < 0 ==> c.sent == old(c.sent) && c.localWindow == old(c.localWindow) && c.moves == old(c.moves)
    ensures rc < 0 ==> if rc == ERROR_EAGAIN then c.writeState.Created? else rc == ERROR_SOCKET_SEND && c.writeState.Idle?
  {
    hide Total, Wrap32, SmallData, Orderly, Books, Frozen, WindowAfter, Raises, Lowers, Marks, Late, Sizes, Conforms, Base,
         NeverUnder;
    var m := Data(c.writeStream, buf[..c.writeBufwrite]);
    DataCounts(c, m);
    DataBooks(c, m);
    rc := c.TransportSend(m);
    if rc == 0 {
      rc := c.writeBufwrite;
      c.localWindow := Wrap32(c.localWindow - c.writeBufwrite);
      c.marks, c.moves := c.marks + [Mark(Lower(c.writeBufwrite), |c.grants|)], c.moves + [Lower(c.writeBufwrite)];
      c.writeState := Idle;
    } else if rc != ERROR_EAGAIN {
      GiveUp(c);
    }
  }

  /** The waiting data is given up. */
  method GiveUp(c: Channel)
    requires c.Outgoing() && c.writeState.Created? && c.writeBufwrite <= MAX_WRITE
    modifies c`writeState
    ensures c.Outgoing() && c.writeState.Idle?
  {
    hide Channel.Once, Books, Frozen, Total, SmallData, WindowAfter, Raises, Lowers, Marks, Late, Sizes;
    LowerKeeps(c.moves, Total(DataBytes, c.sent), c.writeBufwrite);
    c.writeState := Idle;
  }

  /** What the waiting data adds to the counts of messages once it is sent. */
  lemma DataCounts(c: Channel, m: Msg)
    requires c.Once() && c.SizesKept() && c.writeState.Created? && m.Data? && |m.bytes| == c.writeBufwrite
    ensures SmallData(c.sent + [m], c.localPacketSize) && c.writeBufwrite <= MAX_WRITE && c.writeBufwrite <= c.localPacketSize
    ensures Orderly(c.sent + [m], c.processState, ClosingOf(c.localClose, c.closeState), c.envState, c.envBase, c.ptyState, c.ptyBase)
    ensures Total(Credit, c.sent + [m]) == Total(Credit, c.sent)
  {
    hide SmallData, Orderly, Total;
    TotalStep(Credit, c.sent, m);
    SmallDataStep(c.sent, m, c.localPacketSize);
    OrderlyStep(c.sent, m, c.processState, ClosingOf(c.localClose, c.closeState), c.envState, c.envBase, c.ptyState, c.ptyBase);
  }

  /** The books once it is sent, or given up. */
  lemma DataBooks(c: Channel, m: Msg)
    requires c.SendLedger() && c.writeState.Created? && m.Data? && |m.bytes| == c.writeBufwrite && c.writeBufwrite <= MAX_WRITE
    ensures var moves := c.moves + [Lower(c.writeBufwrite)];
            && Books(c.moves, Total(DataBytes, c.sent), 0) && Books(moves, Total(DataBytes, c.sent + [m]), 0)
            && WindowAfter(moves) == Wrap32(c.localWindow - c.writeBufwrite)
            && Raises(moves) == c.grants && Lowers(moves) == Sizes(c.sent + [m])
            && Marks(moves) == c.marks + [Mark(Lower(c.writeBufwrite), |c.grants|)]
  {
    hide Wrap32, Books, Total, WindowAfter, Raises, Lowers, Marks, Late, Sizes, Frozen, Base, Conforms, NeverUnder;
    TotalStep(DataBytes, c.sent, m);
    SizesStep(c.sent, m);
    MoveStep(c.moves, Lower(c.writeBufwrite));
    LowerKeeps(c.moves, Total(DataBytes, c.sent), c.writeBufwrite);
  }

  /** Whether the window underflows. */
  lemma DataUnderflows(c: Channel)
    requires c.SendLedger() && c.writeState.Created? && c.writeBufwrite <= MAX_WRITE
    ensures c.frozenLate <= Late(c.moves)
    ensures Wrap32(c.localWindow - c.writeBufwrite)
         == c.localWindow - c.writeBufwrite + if c.Overgranted(Late(c.moves)) then TWO32 else 0
    ensures Conforms(c.moves) ==> !c.Overgranted(Late(c.moves))
  {
    hide Wrap32, Total, WindowAfter, Raises, Lowers, Marks, Late, Sizes, Frozen, Base, Conforms, NeverUnder;
    SendingKeepsBooks(c.localWindow, Total(DataBytes, c.sent), Base(c.moves) + Late(c.moves), c.writeBufwrite);
    UnderflowExactly(c.localWindow, c.frozenWindow, Late(c.moves) - c.frozenLate, c.writeBufwrite);
  }

  /** How much of a buffer goes out at once. */
  function WriteSize(len: nat, window: u32, packetSize: u32): (n: nat)
    ensures n <= len && n <= MAX_WRITE && n <= window && n <= packetSize
    ensures n == len || n == MAX_WRITE || n == window || n == packetSize
  {
    var capped := if len > MAX_WRITE then MAX_WRITE else len;
    var fits := if capped > window then window else capped;
    if fits > packetSize then packetSize else fits
  }

  /** What a write answers that is called afresh, once reading has come to `fetched` and the window is `room`:
      a failure or a closed window is passed on, else a message of that size is. */
  predicate Begun(rc: int, fetched: int, room: u32, size: nat, c: Channel, quiet: bool)
    reads c`writeState, c`writeBufwrite, c`localWindow
  {
    if (fetched < 0 && fetched != ERROR_EAGAIN) || room == 0 then rc == fetched && quiet && c.writeState.Idle?
    else Passed(rc, room, size, c, quiet)
  }

  /** As much as was fixed goes out and leaves the window, or waits for the socket, or is given up. */
  predicate Passed(rc: int, room: u32, size: nat, c: Channel, quiet: bool)
    reads c`writeState, c`writeBufwrite, c`localWindow
  {
    if rc >= 0 then rc == size && !quiet && c.writeState.Idle? && c.localWindow == room - rc
    else
      && quiet && c.localWindow == room && c.writeBufwrite == size
      && if rc == ERROR_EAGAIN then c.writeState.Created? else rc == ERROR_SOCKET_SEND && c.writeState.Idle?
  }

  /** What a write that answers `rc` has done to its channel: that much of the buffer has gone out in one
      message, or nothing has, and it is resumed only if the socket was not ready. */
  twostate predicate Wrote(c: Channel, streamId: int, buf: seq<byte>, rc: int)
    reads c`sent, c`marks, c`grants, c`localPacketSize, c`writeState, c`writeBuf, c`writeStream, c`writeBufwrite
  {
    && rc <= |buf| && rc <= MAX_WRITE && rc <= c.localPacketSize
    && (rc > 0 ==> c.sent == old(c.sent) + [Data(streamId, buf[..rc])] && c.writeState.Idle?)
    && (rc == 0 ==> (c.sent == old(c.sent) || c.sent == old(c.sent) + [Data(streamId, [])]) && c.writeState.Idle?)
    && (rc < 0 ==> c.sent == old(c.sent))
    && c.marks == old(c.marks) + (if c.sent == old(c.sent) then [] else [Mark(Lower(rc), |c.grants|)])
    && (c.writeState.Created? ==> rc == ERROR_EAGAIN && Writable(c, streamId, buf))
    && (c.writeState.Created? || c.writeState.Idle?)
  }

  /** A write that has been begun goes out whole, or waits for the socket, or is given up. */
  predicate Resumed(rc: int, c: Channel)
    reads c`writeState, c`writeBufwrite
  {
    if rc >= 0 then rc == c.writeBufwrite
    else if rc == ERROR_EAGAIN then c.writeState.Created?
    else rc == ERROR_SOCKET_SEND && c.writeState.Idle?
  }

  /** `_libssh2_channel_write` */
  method Write(s: Session, c: Channel, streamId: int, buf: seq<byte>) returns (rc: int, ghost fetched: int, ghost room: u32)
    requires s.Valid() && s.Room() && c in s.channels && Writable(c, streamId, buf)
    requires c.Sound()
    modifies s`packets, s`arrived, s`connected, s`inbound, s`history,
             s`nextChannel, s`listeners, s`acceptState, s`accepting,
             s.Live()`readAvail, s.Live()`remoteEof, s.Live()`remoteClose, s.Live()`localWindow, s.Live()`grants,
             s.Live()`moves,
             c`sent, c`marks, c`writeState, c`writeBufwrite, c`writeStream, c`writeBuf, c`frozenWindow, c`frozenLate
    ensures s.Valid() && s.Room() && c.Sound()
    ensures fresh(s.Live() - old(s.Live()))
    ensures s.KeepsSound()
    ensures old(c.writeState.Idle? && !c.localClose && !c.localEof) ==> s.ReadOut(|old(s.history)|)
    ensures Wrote(c, streamId, buf, rc)
    ensures rc == 0 && old(c.writeState.Idle?) && buf != [] ==> c.localWindow == 0 || c.localPacketSize == 0
    ensures old(c.writeState.Idle? && (c.localClose || c.localEof)) ==>
              && rc == (if old(c.localClose) then ERROR_CHANNEL_CLOSED else ERROR_CHANNEL_EOF_SENT)
              && c.sent == old(c.sent) && c.writeState.Idle?
    ensures old(c.writeState.Idle? && !c.localClose && !c.localEof) ==>
              && s.Stops(fetched, |old(s.history)|)
              && Begun(rc, fetched, room, WriteSize(|buf|, room, c.localPacketSize), c, c.sent == old(c.sent))
    ensures old(c.writeState.Created?) ==> c.writeBufwrite == old(c.writeBufwrite) && Resumed(rc, c)
  {
    hide Session.Valid, Session.Room, Session.ReadOut, Session.Stops, Channel.Sound, Channel.Pristine, Late, Conforms, Passed, Wrote;
    SoundStates(c);
    fetched, room := 0, 0;
    if c.writeState.Created? {
      rc := SendFor(s, c, streamId, buf);
    } else {
      rc, fetched, room := WriteAnew(s, c, streamId, buf);
    }
  }

  /** A write that is not resumed. */
  method WriteAnew(s: Session, c: Channel, streamId: int, buf: seq<byte>) returns (rc: int, ghost fetched: int, ghost room: u32)
    requires s.Valid() && s.Room() && c in s.channels && c.writeState.Idle? && c.Sound()
    modifies s`packets, s`arrived, s`connected, s`inbound, s`history,
             s`nextChannel, s`listeners, s`acceptState, s`accepting,
             s.Live()`readAvail, s.Live()`remoteEof, s.Live()`remoteClose, s.Live()`localWindow, s.Live()`grants,
             s.Live()`moves,
             c`sent, c`marks, c`writeState, c`writeBufwrite, c`writeStream, c`writeBuf, c`frozenWindow, c`frozenLate
    ensures s.Valid() && s.Room() && c.Sound() && s.KeepsSound() && fresh(s.Live() - old(s.Live()))
    ensures Wrote(c, streamId, buf, rc)
    ensures rc == 0 && buf != [] ==> c.localWindow == 0 || c.localPacketSize == 0
    ensures if c.localClose || c.localEof then
              && rc == (if c.localClose then ERROR_CHANNEL_CLOSED else ERROR_CHANNEL_EOF_SENT)
              && c.sent == old(c.sent) && c.writeState.Idle?
            else
              && s.ReadOut(|old(s.history)|) && s.Stops(fetched, |old(s.history)|)
              && Begun(rc, fetched, room, WriteSize(|buf|, room, c.localPacketSize), c, c.sent == old(c.sent))
  {
    hide Session.Valid, Session.Room, Session.ReadOut, Session.Stops, Channel.Sound, Channel.Pristine, Late, Conforms, Passed;
    var ready;
    rc, ready, fetched := PrepareWrite(s, c, streamId, buf);
    room := c.localWindow;
    if ready {
      rc := SendFor(s, c, streamId, buf);
    }
  }

  /** The second part of it changes nothing in the session. */
  method SendFor(s: Session, c: Channel, streamId: int, buf: seq<byte>) returns (rc: int)
    requires s.Valid() && s.Room() && c in s.channels && c.Sound() && c.writeState.Created? && Writable(c, streamId, buf)
    modifies c`sent, c`localWindow, c`marks, c`moves, c`writeState
    ensures s.Valid() && s.Room() && s.Live() == old(s.Live()) && s.KeepsSound() && c.Sound()
    ensures Wrote(c, streamId, buf, rc) && Resumed(rc, c)
    ensures old(c.writeBufwrite <= c.localWindow) ==>
              Passed(rc, old(c.localWindow), old(c.writeBufwrite), c, c.sent == old(c.sent))
    ensures rc == 0 ==> c.localWindow == old(c.localWindow)
  {
    hide Session.Valid, Session.Room, Channel.Sound, Channel.Overgranted, Late, Conforms;
    rc := SendData(c, buf);
    assert s.Live() == old(s.Live());
  }

  /** Everything before the sending: all that has come in is taken note of, and if there is room the
      message is fixed. */
  method PrepareWrite(s: Session, c: Channel, streamId: int, buf: seq<byte>)
    returns (rc: int, ready: bool, ghost fetched: int)
    requires s.Valid() && s.Room() && c in s.channels && c.writeState.Idle? && c.Sound()
    modifies s`packets, s`arrived, s`connected, s`inbound, s`history,
             s`nextChannel, s`listeners, s`acceptState, s`accepting,
             s.Live()`readAvail, s.Live()`remoteEof, s.Live()`remoteClose, s.Live()`localWindow, s.Live()`grants,
             s.Live()`moves,
             c`writeState, c`writeBufwrite, c`writeStream, c`writeBuf, c`frozenWindow, c`frozenLate
    ensures s.Valid() && s.Room() && c.Sound() && rc <= 0
    ensures fresh(s.Live() - old(s.Live()))
    ensures s.KeepsSound()
    ensures if ready then c.writeState.Created? && Writable(c, streamId, buf) && !c.localClose && !c.localEof
                          && c.writeBufwrite == WriteSize(|buf|, c.localWindow, c.localPacketSize)
            else c.writeState.Idle?
    ensures !ready && rc == 0 ==> c.localWindow == 0
    ensures !c.localClose && !c.localEof ==> s.ReadOut(|old(s.history)|) && s.Stops(fetched, |old(s.history)|)
    ensures if c.localClose then rc == ERROR_CHANNEL_CLOSED else if c.localEof then rc == ERROR_CHANNEL_EOF_SENT
            else rc == fetched && (ready <==> (fetched >= 0 || fetched == ERROR_EAGAIN) && c.localWindow > 0)
  {
    hide Session.Valid, Session.Room, Session.Stops, Session.ReadOut, WriteSize, Queues, Late, Channel.Sound;
    ready, fetched := false, 0;
    if c.localClose {
      return ERROR_CHANNEL_CLOSED, false, 0;
    } else if c.localEof {
      return ERROR_CHANNEL_EOF_SENT, false, 0;
    }
    rc := s.ReadAll();
    fetched := rc;
    if rc < 0 && rc != ERROR_EAGAIN {
      return;
    }
    if c.localWindow <= 0 {
      return if rc == ERROR_EAGAIN then rc else 0, false, rc;
    }
    StartFor(s, c, streamId, buf);
    ready := true;
  }

  /** The message is fixed, which changes nothing in the session. */
  method StartFor(s: Session, c: Channel, streamId: int, buf: seq<byte>)
    requires s.Valid() && s.Room() && c in s.channels && c.Sound() && c.writeState.Idle?
    modifies c`writeState, c`writeBufwrite, c`writeStream, c`writeBuf, c`frozenWindow, c`frozenLate
    ensures s.Valid() && s.Room() && s.Live() == old(s.Live()) && s.KeepsSound() && c.Sound()
    ensures c.writeState.Created? && Writable(c, streamId, buf)
    ensures c.writeBufwrite == WriteSize(|buf|, c.localWindow, c.localPacketSize)
  {
    hide Session.Valid, Session.Room, WriteSize, Late, Channel.Sound;
    StartWrite(c, streamId, buf);
    assert s.Live() == old(s.Live());
  }

  /** The first part: the size and the header of the message are fixed. */
  method StartWrite(c: Channel, streamId: int, buf: seq<byte>)
    requires c.Sound() && c.writeState.Idle?
    modifies c`writeState, c`writeBufwrite, c`writeStream, c`writeBuf, c`frozenWindow, c`frozenLate
    ensures c.Sound() && c.writeState.Created? && Writable(c, streamId, buf)
    ensures c.writeBufwrite == WriteSize(|buf|, c.localWindow, c.localPacketSize)
    ensures c.frozenWindow == c.localWindow && c.frozenLate == Late(c.moves)
  {
    hide WriteSize, Late, Channel.SendLedger, Channel.SizesKept, Channel.Once, Channel.ReceiveLedger;
    c.writeStream, c.writeBuf := streamId, buf;
    Freeze(c, WriteSize(|buf|, c.localWindow, c.localPacketSize));
  }

  method Freeze(c: Channel, n: nat)
    requires c.SendLedger() && c.SizesKept() && c.writeState.Idle?
    requires n <= c.localWindow && n <= c.localPacketSize && n <= MAX_WRITE
    modifies c`writeState, c`writeBufwrite, c`frozenWindow, c`frozenLate
    ensures c.SendLedger() && c.SizesKept() && c.writeState.Created? && c.writeBufwrite == n
    ensures c.frozenWindow == c.localWindow && c.frozenLate == Late(c.moves)
  {
    hide Total, SmallData, SendBooks, Frozen, WindowAfter, Raises, Lowers, Marks, Late, Base, Sizes, Conforms, NeverUnder;
    FreezingKeepsBooks(c.localWindow, Total(DataBytes, c.sent), Base(c.moves) + Late(c.moves), n);
    c.frozenWindow, c.frozenLate := c.localWindow, Late(c.moves);
    c.writeBufwrite, c.writeState := n, Created;
  }

  const IOBUF := 0x8000

  /** What `termwin_read` puts into the buffer. */
  function NextInput(input: seq<byte>): (r: seq<byte>)
    ensures r <= input && |r| <= IOBUF && (r == [] <==> input == [])
  {
    input[..if |input| > IOBUF then IOBUF else |input|]
  }

  /** How many bytes these calls of the write have taken. */
  function Progress(codes: seq<int>): nat {
    if codes == [] then 0
    else Progress(codes[..|codes| - 1]) + if codes[|codes| - 1] > 0 then codes[|codes| - 1] else 0
  }

  lemma ProgressStep(codes: seq<int>, code: int)
    ensures Progress(codes + [code]) == Progress(codes) + if code > 0 then code else 0
  {
    assert (codes + [code])[..|codes|] == codes;
  }

  predicate AllHelp(codes: seq<int>) {
    forall i :: 0 <= i < |codes| ==> codes[i] > 0
  }

  lemma NoProgress()
    ensures Progress([]) == 0
  {
  }

  lemma {:induction false} EveryCallHelps(codes: seq<int>)
    requires AllHelp(codes)
    ensures Progress(codes) >= |codes|
  {
    if codes != [] {
      EveryCallHelps(codes[..|codes| - 1]);
    }
  }

  /** The loop that drains the terminal into the channel. A step is one call of the write; with too
      few of them, or an error, some of the input is `left`. What went out is the rest, in order: as much
      as the calls have taken, and all of it once enough calls have taken something. */
  method Pump(s: Session, c: Channel, input: seq<byte>, steps: nat) returns (rc: int, left: seq<byte>, codes: seq<int>)
    requires s.Valid() && s.Room() && c in s.channels && c.writeState.Idle?
    requires c.Sound()
    modifies s`packets, s`arrived, s`connected, s`inbound, s`history,
             s`nextChannel, s`listeners, s`acceptState, s`accepting,
             s.Live()`readAvail, s.Live()`remoteEof, s.Live()`remoteClose, s.Live()`localWindow, s.Live()`grants,
             s.Live()`moves,
             c`sent, c`marks, c`writeState, c`writeBufwrite, c`writeStream, c`writeBuf, c`frozenWindow, c`frozenLate
    ensures s.Valid() && s.Room() && c.Sound() && s.KeepsSound() && fresh(s.Live() - old(s.Live()))
    ensures DataOf(c.sent) + left == DataOf(old(c.sent)) + input
    ensures Progress(codes) + |left| == |input| && |codes| <= steps
    ensures left == [] ==> rc == 0
    ensures left != [] ==> if rc == ERROR_EAGAIN then |codes| == steps else rc < 0 && codes != [] && codes[|codes| - 1] == rc
    ensures AllHelp(codes) && steps >= |input| ==> rc == 0 && left == []
  {
    hide Session.Valid, Session.Room, Session.Stops, Session.ReadOut, WriteSize, DataOf, Progress, Channel.Sound,
         Channel.Pristine, Begun, Resumed;
    codes, left := [], input;
    var buffer := NextInput(left);
    NoProgress();
    assert DataOf(c.sent) + left == DataOf(old(c.sent)) + input;
    rc := ERROR_EAGAIN;
    while left != [] && (rc >= 0 || rc == ERROR_EAGAIN) && steps - |codes| > 0
      invariant s.Valid() && s.Room() && c.Sound() && s.KeepsSound() && fresh(s.Live() - old(s.Live()))
      invariant rc >= 0 || rc == ERROR_EAGAIN ==> Writable(c, 0, buffer)
      invariant buffer <= left && (buffer == [] ==> left == [])
      invariant DataOf(c.sent) + left == DataOf(old(c.sent)) + input
      invariant Progress(codes) + |left| == |input| && |codes| <= steps
      invariant rc < 0 && rc != ERROR_EAGAIN ==> codes != [] && codes[|codes| - 1] == rc
    {
      label Before:
      ghost var fetched, room;
      rc, fetched, room := Write(s, c, 0, buffer);
      DataGoesOut(old@Before(c.sent), c.sent, left, buffer, rc);
      ProgressStep(codes, rc);
      codes := codes + [rc];
      if rc > 0 {
        buffer := buffer[rc..];
        left := left[rc..];
        if buffer == [] {
          buffer := NextInput(left);
        }
      }
    }
    if AllHelp(codes) {
      EveryCallHelps(codes);
    }
    if left == [] {
      rc := 0;
    } else if rc >= 0 {
      rc := ERROR_EAGAIN;
    }
  }

  lemma DataGoesOut(before: seq<Msg>, after: seq<Msg>, left: seq<byte>, buffer: seq<byte>, rc: int)
    requires buffer <= left && rc <= |buffer|
    requires rc > 0 ==> after == before + [Data(0, buffer[..rc])]
    requires rc == 0 ==> after == before || after == before + [Data(0, [])]
    requires rc < 0 ==> after == before
    ensures var n := if rc > 0 then rc else 0; DataOf(before) + left == DataOf(after) + left[n..]
  {
    hide DataOf;
    var n := if rc > 0 then rc else 0;
    DataOfStep(before, 0, left[..n]);
    assert left == left[..n] + left[n..] && left[..n] == buffer[..n];
    if rc == 0 {
      assert left[..0] == [] && DataOf(before) + [] == DataOf(before);
    }
  }
}
