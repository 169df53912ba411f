/** The queue of received packets that all channels of a session share, and what reading and
    flushing take out of it. */
module PacketQueue {
  import opened Bytes
  import opened Modular

  const CHANNEL_DATA: byte := 94
  const CHANNEL_EXTENDED_DATA: byte := 95

  /** A stream of a channel: standard data, or extended data of one type (section 5.2 of RFC 4254). */
  datatype Stream = Std | Ext(code: u32)

  /** Some bytes of a stream of a channel. */
  datatype Chunk = Chunk(id: u32, stream: Stream, bytes: seq<byte>)

  /** `LIBSSH2_PACKET`: everything before `head` is consumed. */
  datatype Packet = Packet(data: seq<byte>, head: nat)
  {
    predicate IsData() {
      data != [] && (data[0] == CHANNEL_DATA || data[0] == CHANNEL_EXTENDED_DATA)
    }

    /** `packet_add` queues channel data only behind its full header. */
    predicate Valid() {
      && data != []
      && (IsData() ==> (if data[0] == CHANNEL_DATA then 9 else 13) <= head <= |data|)
    }

    /** It is our channel at least. */
    predicate For(id: u32) {
      IsData() && |data| >= 5 && U32At(data, 1) == id
    }

    function Id(): u32
      requires Valid() && IsData()
    {
      U32At(data, 1)
    }

    function StreamOf(): Stream
      requires Valid() && IsData()
    {
      if data[0] == CHANNEL_DATA then Std else Ext(U32At(data, 5))
    }

    function Unread(): (r: seq<byte>)
      requires Valid() && IsData()
      ensures |r| == |data| - head
    {
      data[head..]
    }
  }

  predicate AllValid(q: seq<Packet>) {
    forall p :: p in q ==> p.Valid()
  }

  const FLUSH_EXTENDED_DATA := -1
  const FLUSH_ALL := -2

  /** Which packets of a channel are meant: those a read of a stream takes, with extended data
      merged into the standard stream or not, or those a flush of a stream drops. */
  datatype Pick = ForRead(streamId: int, merge: bool) | ForFlush(streamId: int)

  /** The tests of `_libssh2_channel_read` and `_libssh2_channel_flush`. */
  predicate Selected(p: Packet, id: u32, pick: Pick) {
    && |p.data| >= 5
    && match pick
       case ForRead(streamId, merge) =>
         || (streamId != 0 && p.data[0] == CHANNEL_EXTENDED_DATA && U32At(p.data, 1) == id
             && |p.data| >= 9 && streamId == AsInt(U32At(p.data, 5)))
         || (streamId == 0 && p.data[0] == CHANNEL_DATA && U32At(p.data, 1) == id)
         || (streamId == 0 && p.data[0] == CHANNEL_EXTENDED_DATA && U32At(p.data, 1) == id && merge)
       case ForFlush(streamId) =>
         && p.For(id)
         && (|| streamId == FLUSH_ALL
             || (p.data[0] == CHANNEL_EXTENDED_DATA && |p.data| >= 9
                 && (streamId == FLUSH_EXTENDED_DATA || streamId == AsInt(U32At(p.data, 5))))
             || (p.data[0] == CHANNEL_DATA && streamId == 0))
  }

  /** The streams that are meant. */
  predicate Asked(stream: Stream, pick: Pick) {
    match pick
    case ForRead(streamId, merge) =>
      if streamId == 0 then stream.Std? || merge else stream.Ext? && AsInt(stream.code) == streamId
    case ForFlush(streamId) =>
      || streamId == FLUSH_ALL
      || (if stream.Std? then streamId == 0 else streamId == FLUSH_EXTENDED_DATA || streamId == AsInt(stream.code))
  }

  /** The tests pick whole streams. */
  lemma SelectedByStream(p: Packet, id: u32, pick: Pick)
    requires p.Valid()
    ensures Selected(p, id, pick) <==> p.For(id) && Asked(p.StreamOf(), pick)
  {
    hide U32At;
  }

  function IfStream(c: Chunk, id: u32, stream: Stream): seq<byte> {
    if c.id == id && c.stream == stream then c.bytes else []
  }

  /** All bytes of one stream, in order. */
  function Portion(log: seq<Chunk>, id: u32, stream: Stream): seq<byte> {
    if log == [] then [] else IfStream(log[0], id, stream) + Portion(log[1..], id, stream)
  }

  function PacketPart(p: Packet, id: u32, stream: Stream): seq<byte>
    requires p.Valid()
  {
    if p.IsData() && p.Id() == id && p.StreamOf() == stream then p.Unread() else []
  }

  /** The unread bytes of one stream of a channel, in order. */
  function Pending(q: seq<Packet>, id: u32, stream: Stream): seq<byte>
    requires AllValid(q)
  {
    if q == [] then [] else PacketPart(q[0], id, stream) + Pending(q[1..], id, stream)
  }

  function WaitingPart(p: Packet, id: u32): nat
    requires p.Valid()
  {
    if p.For(id) then |p.Unread()| else 0
  }

  /** How many bytes of a channel wait to be read, over all its streams. */
  function Waiting(q: seq<Packet>, id: u32): nat
    requires AllValid(q)
  {
    if q == [] then 0 else WaitingPart(q[0], id) + Waiting(q[1..], id)
  }

  function BytesOf(log: seq<Chunk>): seq<byte> {
    if log == [] then [] else log[0].bytes + BytesOf(log[1..])
  }

  lemma {:induction false} PortionAppend(a: seq<Chunk>, b: seq<Chunk>, id: u32, stream: Stream)
    ensures Portion(a + b, id, stream) == Portion(a, id, stream) + Portion(b, id, stream)
  {
    hide IfStream;
    if a == [] {
      assert a + b == b;
    } else {
      PortionAppend(a[1..], b, id, stream);
      HeadOfConcat(a, b);
      Assoc(IfStream(a[0], id, stream), Portion(a[1..], id, stream), Portion(b, id, stream));
    }
  }

  lemma {:induction false} PendingAppend(q: seq<Packet>, r: seq<Packet>, id: u32, stream: Stream)
    requires AllValid(q) && AllValid(r)
    ensures AllValid(q + r) && Pending(q + r, id, stream) == Pending(q, id, stream) + Pending(r, id, stream)
  {
    hide PacketPart;
    if q == [] {
      assert q + r == r;
    } else {
      PendingAppend(q[1..], r, id, stream);
      HeadOfConcat(q, r);
      Assoc(PacketPart(q[0], id, stream), Pending(q[1..], id, stream), Pending(r, id, stream));
    }
  }

  lemma {:induction false} WaitingAppend(q: seq<Packet>, r: seq<Packet>, id: u32)
    requires AllValid(q) && AllValid(r)
    ensures AllValid(q + r) && Waiting(q + r, id) == Waiting(q, id) + Waiting(r, id)
  {
    hide U32At;
    if q == [] {
      assert q + r == r;
    } else {
      WaitingAppend(q[1..], r, id);
      assert (q + r)[1..] == q[1..] + r;
    }
  }

  /** The outcome of a walk over the queue: what stays in it, and the chunks taken out. */
  datatype Taken = Taken(rest: seq<Packet>, log: seq<Chunk>)
  {
    /** The same behind packets that stay and chunks taken before. */
    function After(kept: seq<Packet>, before: seq<Chunk>): Taken {
      Taken(kept + rest, before + log)
    }
  }

  /** A read of up to `want` bytes: packets that fit are removed, the last one may be cut. */
  function Take(q: seq<Packet>, want: nat, id: u32, pick: Pick): (r: Taken)
    requires AllValid(q)
    ensures AllValid(r.rest)
  {
    if q == [] || want == 0 then Taken(q, [])
    else
      var p := q[0];
      if !Selected(p, id, pick) then
        var more := Take(q[1..], want, id, pick);
        Taken([p] + more.rest, more.log)
      else if want >= |p.Unread()| then
        var more := Take(q[1..], want - |p.Unread()|, id, pick);
        Taken(more.rest, [Chunk(id, p.StreamOf(), p.Unread())] + more.log)
      else
        Taken([Packet(p.data, p.head + want)] + q[1..], [Chunk(id, p.StreamOf(), p.Unread()[..want])])
  }

  lemma PortionCons(c: Chunk, log: seq<Chunk>, id: u32, stream: Stream)
    ensures Portion([c] + log, id, stream) == IfStream(c, id, stream) + Portion(log, id, stream)
  {
    assert ([c] + log)[1..] == log;
  }

  lemma PendingCons(p: Packet, q: seq<Packet>, id: u32, stream: Stream)
    requires p.Valid() && AllValid(q)
    ensures AllValid([p] + q) && Pending([p] + q, id, stream) == PacketPart(p, id, stream) + Pending(q, id, stream)
  {
    assert ([p] + q)[1..] == q;
  }

  /** Nothing is taken from the streams that are not asked for. */
  lemma {:induction false} TakeOnlyAsked(q: seq<Packet>, want: nat, id: u32, pick: Pick, anyId: u32, stream: Stream)
    requires AllValid(q) && !(anyId == id && Asked(stream, pick))
    ensures Portion(Take(q, want, id, pick).log, anyId, stream) == []
  {
    hide Selected, Asked;
    if q != [] && want > 0 {
      var p := q[0];
      SelectedByStream(p, id, pick);
      if !Selected(p, id, pick) {
        TakeOnlyAsked(q[1..], want, id, pick, anyId, stream);
      } else if want >= |p.Unread()| {
        TakeOnlyAsked(q[1..], want - |p.Unread()|, id, pick, anyId, stream);
        PortionCons(Chunk(id, p.StreamOf(), p.Unread()), Take(q[1..], want - |p.Unread()|, id, pick).log, anyId, stream);
      }
    }
  }

  lemma Swap(a: seq<byte>, b: seq<byte>, c: seq<byte>)
    requires a == [] || b == []
    ensures a + (b + c) == b + (a + c)
  {
    assert [] + c == c && [] + (b + c) == b + c && [] + (a + c) == a + c;
  }

  lemma CutPart(p: Packet, want: nat, id: u32, stream: Stream)
    requires p.Valid() && p.IsData() && want < |p.Unread()|
    ensures var cut := Packet(p.data, p.head + want);
            && cut.Valid()
            && PacketPart(p, id, stream)
               == IfStream(Chunk(p.Id(), p.StreamOf(), p.Unread()[..want]), id, stream) + PacketPart(cut, id, stream)
  {
    hide U32At;
    assert p.Unread() == p.Unread()[..want] + Packet(p.data, p.head + want).Unread();
  }

  lemma SelectedPart(p: Packet, id: u32, pick: Pick, anyId: u32, stream: Stream)
    requires p.Valid()
    ensures Selected(p, id, pick) ==>
              && p.IsData() && p.Id() == id
              && PacketPart(p, anyId, stream) == IfStream(Chunk(id, p.StreamOf(), p.Unread()), anyId, stream)
    ensures !Selected(p, id, pick) && anyId == id && Asked(stream, pick) ==>
              PacketPart(p, anyId, stream) == []
  {
    hide U32At, Selected, Asked;
    SelectedByStream(p, id, pick);
  }

  /** Every stream of every channel: what was taken, followed by what stays, is what was there. */
  lemma {:induction false} TakeConserves(q: seq<Packet>, want: nat, id: u32, pick: Pick, anyId: u32, stream: Stream)
    requires AllValid(q)
    ensures var t := Take(q, want, id, pick);
            Pending(q, anyId, stream) == Portion(t.log, anyId, stream) + Pending(t.rest, anyId, stream)
    decreases |q|, 1
  {
    hide Selected, Asked, U32At, PacketPart, IfStream, Portion, Pending;
    if q == [] || want == 0 {
      PortionOfNothing(anyId, stream);
    } else {
      var p := q[0];
      assert q == [p] + q[1..];
      PendingCons(p, q[1..], anyId, stream);
      SelectedPart(p, id, pick, anyId, stream);
      if !Selected(p, id, pick) {
        var more := Take(q[1..], want, id, pick);
        TakeConserves(q[1..], want, id, pick, anyId, stream);
        PendingCons(p, more.rest, anyId, stream);
        if !(anyId == id && Asked(stream, pick)) {
          TakeOnlyAsked(q[1..], want, id, pick, anyId, stream);
        }
        Swap(PacketPart(p, anyId, stream), Portion(more.log, anyId, stream), Pending(more.rest, anyId, stream));
      } else {
        TakeConservesSelected(q, want, id, pick, anyId, stream);
      }
    }
  }

  lemma {:induction false} TakeConservesSelected(q: seq<Packet>, want: nat, id: u32, pick: Pick, anyId: u32, stream: Stream)
    requires AllValid(q) && q != [] && want > 0 && Selected(q[0], id, pick)
    ensures var t := Take(q, want, id, pick);
            Pending(q, anyId, stream) == Portion(t.log, anyId, stream) + Pending(t.rest, anyId, stream)
    decreases |q|, 0
  {
    hide Selected, Asked, U32At, PacketPart, IfStream, Portion, Pending;
    var p := q[0];
    assert q == [p] + q[1..];
    PendingCons(p, q[1..], anyId, stream);
    SelectedPart(p, id, pick, anyId, stream);
    var n := |p.Unread()|;
    if want >= n {
      var more := Take(q[1..], want - n, id, pick);
      TakeConserves(q[1..], want - n, id, pick, anyId, stream);
      var c := Chunk(id, p.StreamOf(), p.Unread());
      PortionCons(c, more.log, anyId, stream);
      Assoc(IfStream(c, anyId, stream), Portion(more.log, anyId, stream), Pending(more.rest, anyId, stream));
    } else {
      var c := Chunk(id, p.StreamOf(), p.Unread()[..want]);
      var cut := Packet(p.data, p.head + want);
      CutPart(p, want, anyId, stream);
      PendingCons(cut, q[1..], anyId, stream);
      PortionCons(c, [], anyId, stream);
      PortionOfNothing(anyId, stream);
      assert [c] + [] == [c];
      Assoc(IfStream(c, anyId, stream), PacketPart(cut, anyId, stream), Pending(q[1..], anyId, stream));
      assert IfStream(c, anyId, stream) + [] == IfStream(c, anyId, stream);
    }
  }

  /** Reading and flushing leave all other channels, and all streams that are not meant, as they are. */
  lemma OthersKept(q: seq<Packet>, want: nat, id: u32, pick: Pick, anyId: u32, stream: Stream)
    requires AllValid(q) && !(anyId == id && Asked(stream, pick))
    ensures Pending(Take(q, want, id, pick).rest, anyId, stream) == Pending(q, anyId, stream)
  {
    hide Asked, Pending, Portion, Take;
    TakeOnlyAsked(q, want, id, pick, anyId, stream);
    TakeConserves(q, want, id, pick, anyId, stream);
    assert [] + Pending(Take(q, want, id, pick).rest, anyId, stream) == Pending(Take(q, want, id, pick).rest, anyId, stream);
  }

  lemma PortionOfNothing(id: u32, stream: Stream)
    ensures Portion([], id, stream) == []
  {
  }

  /** As many bytes are taken as the channel has fewer waiting, and other channels keep theirs. */
  lemma {:induction false} TakeCounts(q: seq<Packet>, want: nat, id: u32, pick: Pick, anyId: u32)
    requires AllValid(q)
    ensures var t := Take(q, want, id, pick);
            && |BytesOf(t.log)| <= want
            && Waiting(q, anyId) == (if anyId == id then |BytesOf(t.log)| else 0) + Waiting(t.rest, anyId)
  {
    hide Selected, Asked, U32At, Waiting, WaitingPart;
    if q != [] && want > 0 {
      var p := q[0];
      assert q == [p] + q[1..];
      WaitingCons(p, q[1..], anyId);
      SelectedCount(p, id, pick, anyId);
      if !Selected(p, id, pick) {
        TakeCounts(q[1..], want, id, pick, anyId);
        WaitingCons(p, Take(q[1..], want, id, pick).rest, anyId);
      } else if want >= |p.Unread()| {
        TakeCounts(q[1..], want - |p.Unread()|, id, pick, anyId);
      } else {
        var cut := Packet(p.data, p.head + want);
        CutCount(p, want, anyId);
        SelectedByStream(p, id, pick);
        WaitingCons(cut, q[1..], anyId);
        assert BytesOf([Chunk(id, p.StreamOf(), p.Unread()[..want])]) == p.Unread()[..want];
      }
    }
  }

  lemma SelectedCount(p: Packet, id: u32, pick: Pick, anyId: u32)
    requires p.Valid()
    ensures Selected(p, id, pick) ==>
              p.IsData() && WaitingPart(p, anyId) == (if anyId == id then |p.Unread()| else 0)
  {
    hide U32At;
  }

  lemma CutCount(p: Packet, want: nat, id: u32)
    requires p.Valid() && p.IsData() && want < |p.Unread()|
    ensures var cut := Packet(p.data, p.head + want);
            cut.Valid() && WaitingPart(p, id) == WaitingPart(cut, id) + (if p.For(id) then want else 0)
  {
    hide U32At;
  }

  lemma WaitingCons(p: Packet, q: seq<Packet>, id: u32)
    requires p.Valid() && AllValid(q)
    ensures AllValid([p] + q) && Waiting([p] + q, id) == WaitingPart(p, id) + Waiting(q, id)
  {
    assert ([p] + q)[1..] == q;
  }

  /** A read stops short only when nothing that is meant is left. */
  lemma {:induction false} TakeDrains(q: seq<Packet>, want: nat, id: u32, pick: Pick)
    requires AllValid(q) && |BytesOf(Take(q, want, id, pick).log)| < want
    ensures forall p :: p in Take(q, want, id, pick).rest ==> !Selected(p, id, pick)
  {
    hide Selected, U32At;
    if q != [] && want > 0 {
      var p := q[0];
      SelectedByStream(p, id, pick);
      if !Selected(p, id, pick) {
        TakeDrains(q[1..], want, id, pick);
      } else if want >= |p.Unread()| {
        TakeDrains(q[1..], want - |p.Unread()|, id, pick);
      }
    }
  }

  lemma {:induction false} NothingWaiting(q: seq<Packet>, id: u32)
    requires AllValid(q) && forall p :: p in q ==> !p.For(id)
    ensures Waiting(q, id) == 0
    ensures forall stream :: Pending(q, id, stream) == []
  {
    hide U32At;
    if q != [] {
      NothingWaiting(q[1..], id);
    }
  }

  /** On every stream of every channel, what was taken followed by what is queued is what arrived. */
  ghost predicate Balanced(arrived: seq<Chunk>, taken: seq<Chunk>, q: seq<Packet>)
    requires AllValid(q)
  {
    forall id, stream :: Portion(arrived, id, stream) == Portion(taken, id, stream) + Pending(q, id, stream)
  }

  lemma QueuedOne(q: seq<Packet>, p: Packet)
    requires AllValid(q) && p.Valid()
    ensures AllValid(q + [p])
    ensures forall id :: Waiting(q + [p], id) == Waiting(q, id) + WaitingPart(p, id)
    ensures forall id, stream :: Pending(q + [p], id, stream) == Pending(q, id, stream) + PacketPart(p, id, stream)
  {
    hide WaitingPart, PacketPart, Waiting, Pending;
    forall id ensures AllValid(q + [p]) && Waiting(q + [p], id) == Waiting(q, id) + WaitingPart(p, id) {
      WaitingAppend(q, [p], id);
      WaitingOfOne(p, id);
    }
    forall id, stream ensures Pending(q + [p], id, stream) == Pending(q, id, stream) + PacketPart(p, id, stream) {
      PendingAppend(q, [p], id, stream);
      PendingOfOne(p, id, stream);
    }
  }

  lemma WaitingOfOne(p: Packet, id: u32)
    requires p.Valid()
    ensures Waiting([p], id) == WaitingPart(p, id)
  {
    assert [p][1..] == [];
  }

  lemma PendingOfOne(p: Packet, id: u32, stream: Stream)
    requires p.Valid()
    ensures Pending([p], id, stream) == PacketPart(p, id, stream)
  {
    assert [p][1..] == [] && PacketPart(p, id, stream) + [] == PacketPart(p, id, stream);
  }

  lemma PortionOfOne(c: Chunk, id: u32, stream: Stream)
    ensures Portion([c], id, stream) == IfStream(c, id, stream)
  {
    assert [c][1..] == [] && IfStream(c, id, stream) + [] == IfStream(c, id, stream);
  }

  /** A packet that arrives keeps the balance. */
  lemma ArrivalKeepsBalance(arrived: seq<Chunk>, taken: seq<Chunk>, q: seq<Packet>, p: Packet)
    requires AllValid(q) && Balanced(arrived, taken, q) && p.Valid() && p.IsData()
    ensures AllValid(q + [p]) && Balanced(arrived + [Chunk(p.Id(), p.StreamOf(), p.Unread())], taken, q + [p])
  {
    hide Portion, Pending, PacketPart, IfStream, U32At, Waiting, WaitingPart;
    QueuedOne(q, p);
    var c := Chunk(p.Id(), p.StreamOf(), p.Unread());
    forall id, stream
      ensures Portion(arrived + [c], id, stream) == Portion(taken, id, stream) + Pending(q + [p], id, stream)
    {
      PortionAppend(arrived, [c], id, stream);
      PortionOfOne(c, id, stream);
      ChunkIsPart(p, id, stream);
      Assoc(Portion(taken, id, stream), Pending(q, id, stream), PacketPart(p, id, stream));
    }
  }

  lemma ChunkIsPart(p: Packet, id: u32, stream: Stream)
    requires p.Valid() && p.IsData()
    ensures IfStream(Chunk(p.Id(), p.StreamOf(), p.Unread()), id, stream) == PacketPart(p, id, stream)
  {
    hide U32At;
  }

  /** Reading or flushing keeps the balance. */
  lemma TakingKeepsBalance(arrived: seq<Chunk>, taken: seq<Chunk>, q: seq<Packet>, want: nat, id: u32, pick: Pick)
    requires AllValid(q) && Balanced(arrived, taken, q)
    ensures var t := Take(q, want, id, pick); Balanced(arrived, taken + t.log, t.rest)
  {
    hide Portion, Pending, Take;
    var t := Take(q, want, id, pick);
    forall anyId, stream
      ensures Portion(arrived, anyId, stream) == Portion(taken + t.log, anyId, stream) + Pending(t.rest, anyId, stream)
    {
      TakeConserves(q, want, id, pick, anyId, stream);
      PortionAppend(taken, t.log, anyId, stream);
      Assoc(Portion(taken, anyId, stream), Portion(t.log, anyId, stream), Pending(t.rest, anyId, stream));
    }
  }

  /** Packets of other kinds do not matter to the balance. */
  lemma OthersKeepBalance(arrived: seq<Chunk>, taken: seq<Chunk>, q: seq<Packet>, p: Packet)
    requires AllValid(q) && Balanced(arrived, taken, q) && p.Valid() && !p.IsData()
    ensures AllValid(q + [p]) && Balanced(arrived, taken, q + [p])
    ensures forall id :: Waiting(q + [p], id) == Waiting(q, id)
  {
    hide Portion, Pending, U32At, Waiting;
    QueuedOne(q, p);
    forall id, stream ensures Pending(q + [p], id, stream) == Pending(q, id, stream) {
      assert Pending(q, id, stream) + [] == Pending(q, id, stream);
    }
  }

  /** One step of a walk that has kept some packets and taken some chunks already. */
  lemma TakeStep(kept: seq<Packet>, before: seq<Chunk>, q: seq<Packet>, want: nat, id: u32, pick: Pick)
    requires AllValid(q) && q != [] && want > 0
    ensures var p := q[0];
            Take(q, want, id, pick).After(kept, before) ==
              if !Selected(p, id, pick) then Take(q[1..], want, id, pick).After(kept + [p], before)
              else if want >= |p.Unread()| then
                Take(q[1..], want - |p.Unread()|, id, pick).After(kept, before + [Chunk(id, p.StreamOf(), p.Unread())])
              else
                Taken(kept + [Packet(p.data, p.head + want)] + q[1..],
                      before + [Chunk(id, p.StreamOf(), p.Unread()[..want])])
  {
    hide Selected, U32At;
    SelectedByStream(q[0], id, pick);
    var p := q[0];
    if !Selected(p, id, pick) {
      Assoc(kept, [p], Take(q[1..], want, id, pick).rest);
    } else if want >= |p.Unread()| {
      Assoc(before, [Chunk(id, p.StreamOf(), p.Unread())], Take(q[1..], want - |p.Unread()|, id, pick).log);
    } else {
      Assoc(kept, [Packet(p.data, p.head + want)], q[1..]);
    }
  }

  /** A walk over the queue `q0` stands at place `i` of what has become of it, and has taken `log`. */
  ghost predicate Walking(q: seq<Packet>, i: nat, log: seq<Chunk>, q0: seq<Packet>, want: nat, id: u32, pick: Pick)
    requires AllValid(q0)
  {
    && AllValid(q) && i <= |q| && |BytesOf(log)| <= want
    && Take(q[i..], want - |BytesOf(log)|, id, pick).After(q[..i], log) == Take(q0, want, id, pick)
  }

  lemma WalkStarts(q: seq<Packet>, want: nat, id: u32, pick: Pick)
    requires AllValid(q)
    ensures Walking(q, 0, [], q, want, id, pick)
  {
    hide Take;
    TakeStarts(q, want, id, pick);
  }

  /** It passes a packet that is not meant. */
  lemma WalkSkips(q: seq<Packet>, i: nat, log: seq<Chunk>, q0: seq<Packet>, want: nat, id: u32, pick: Pick)
    requires AllValid(q0) && Walking(q, i, log, q0, want, id, pick)
    requires i < |q| && |BytesOf(log)| < want && !Selected(q[i], id, pick)
    ensures Walking(q, i + 1, log, q0, want, id, pick)
  {
    hide Selected, Take;
    TakeSkips(q, i, log, want - |BytesOf(log)|, id, pick);
  }

  /** It takes one that is: as a whole, or cut if the rest of the room is too small for it. */
  lemma WalkTakes(q: seq<Packet>, i: nat, log: seq<Chunk>, q0: seq<Packet>, want: nat, id: u32, pick: Pick)
    requires AllValid(q0) && Walking(q, i, log, q0, want, id, pick)
    requires i < |q| && |BytesOf(log)| < want && Selected(q[i], id, pick)
    ensures var p, room := q[i], want - |BytesOf(log)|;
            && p.Valid() && p.IsData() && p.Id() == id
            && if room >= |p.Unread()| then
                 Walking(q[..i] + q[i + 1..], i, log + [Chunk(id, p.StreamOf(), p.Unread())], q0, want, id, pick)
               else
                 Walking(q[..i] + [Packet(p.data, p.head + room)] + q[i + 1..], i + 1,
                         log + [Chunk(id, p.StreamOf(), p.Unread()[..room])], q0, want, id, pick)
  {
    hide Selected, Take, U32At, BytesOf;
    var p, room, rest := q[i], want - |BytesOf(log)|, q[i + 1..];
    SelectedByStream(p, id, pick);
    assert q[i..][1..] == rest;
    TakeStep(q[..i], log, q[i..], room, id, pick);
    if room >= |p.Unread()| {
      BytesAppend(log, Chunk(id, p.StreamOf(), p.Unread()));
      var r := q[..i] + rest;
      assert r[..i] == q[..i] && r[i..] == rest;
    } else {
      var c, cut := Chunk(id, p.StreamOf(), p.Unread()[..room]), Packet(p.data, p.head + room);
      BytesAppend(log, c);
      var r := q[..i] + [cut] + rest;
      assert r[..i + 1] == q[..i] + [cut] && r[i + 1..] == rest;
      TakeEnds(r[..i + 1], log + [c], rest, 0, id, pick);
    }
  }

  lemma WalkEnds(q: seq<Packet>, i: nat, log: seq<Chunk>, q0: seq<Packet>, want: nat, id: u32, pick: Pick)
    requires AllValid(q0) && Walking(q, i, log, q0, want, id, pick)
    requires i == |q| || |BytesOf(log)| == want
    ensures Take(q0, want, id, pick) == Taken(q, log)
  {
    hide Take;
    TakeWhole(q, i, log, want - |BytesOf(log)|, id, pick);
  }

  lemma TakeSkips(q: seq<Packet>, i: nat, before: seq<Chunk>, want: nat, id: u32, pick: Pick)
    requires AllValid(q) && i < |q| && want > 0 && !Selected(q[i], id, pick)
    ensures Take(q[i..], want, id, pick).After(q[..i], before) == Take(q[i + 1..], want, id, pick).After(q[..i + 1], before)
  {
    hide Selected, Take;
    TakeStep(q[..i], before, q[i..], want, id, pick);
    assert q[..i + 1] == q[..i] + [q[i]] && q[i..][1..] == q[i + 1..];
  }

  lemma TakeEnds(kept: seq<Packet>, before: seq<Chunk>, q: seq<Packet>, want: nat, id: u32, pick: Pick)
    requires AllValid(q) && (q == [] || want == 0)
    ensures Take(q, want, id, pick).After(kept, before) == Taken(kept + q, before)
  {
    assert before + [] == before;
  }

  lemma TakeStarts(q: seq<Packet>, want: nat, id: u32, pick: Pick)
    requires AllValid(q)
    ensures Take(q[0..], want, id, pick).After(q[..0], []) == Take(q, want, id, pick)
  {
    hide Take;
    var t := Take(q, want, id, pick);
    assert q[0..] == q && q[..0] == [] && [] + t.rest == t.rest && [] + t.log == t.log;
  }

  lemma TakeWhole(q: seq<Packet>, i: nat, before: seq<Chunk>, want: nat, id: u32, pick: Pick)
    requires AllValid(q) && i <= |q| && (i == |q| || want == 0)
    ensures Take(q[i..], want, id, pick).After(q[..i], before) == Taken(q, before)
  {
    TakeEnds(q[..i], before, q[i..], want, id, pick);
    assert q[..i] + q[i..] == q;
  }

  lemma BytesOfNothing()
    ensures BytesOf([]) == []
  {
  }

  lemma {:induction false} BytesAppend(log: seq<Chunk>, c: Chunk)
    ensures BytesOf(log + [c]) == BytesOf(log) + c.bytes
  {
    if log == [] {
      assert [c][1..] == [] && [] + [c] == [c] && c.bytes + [] == c.bytes;
    } else {
      BytesAppend(log[1..], c);
      HeadOfConcat(log, [c]);
      Assoc(log[0].bytes, BytesOf(log[1..]), c.bytes);
    }
  }

  /** All chunks belong to a channel and to streams that are meant. */
  predicate OnlyAsked(log: seq<Chunk>, id: u32, pick: Pick) {
    forall c :: c in log ==> c.id == id && Asked(c.stream, pick)
  }

  lemma NothingAsked(id: u32, pick: Pick)
    ensures OnlyAsked([], id, pick)
  {
  }

  /** How many bytes of a channel there are among these. */
  function TakenFor(log: seq<Chunk>, id: u32): nat {
    if log == [] then 0 else (if log[0].id == id then |log[0].bytes| else 0) + TakenFor(log[1..], id)
  }

  predicate TakenBelow(log: seq<Chunk>, n: u32) {
    forall c :: c in log ==> c.id < n
  }

  lemma {:induction false} TallyAppend(a: seq<Chunk>, b: seq<Chunk>, id: u32)
    ensures TakenFor(a + b, id) == TakenFor(a, id) + TakenFor(b, id)
  {
    if a == [] {
      assert a + b == b;
    } else {
      assert (a + b)[0] == a[0] && (a + b)[1..] == a[1..] + b;
      TallyAppend(a[1..], b, id);
    }
  }

  lemma {:induction false} TallyOf(log: seq<Chunk>, one: u32, pick: Pick, id: u32)
    requires OnlyAsked(log, one, pick)
    ensures TakenFor(log, id) == if id == one then |BytesOf(log)| else 0
  {
    if log != [] {
      TallyOf(log[1..], one, pick, id);
    }
  }

  lemma {:induction false} TallyBelow(log: seq<Chunk>, n: u32, id: u32)
    requires TakenBelow(log, n) && id >= n
    ensures TakenFor(log, id) == 0
  {
    if log != [] {
      TallyBelow(log[1..], n, id);
    }
  }

  /** What is taken from one channel counts for it alone. */
  lemma TallyStep(taken: seq<Chunk>, log: seq<Chunk>, one: u32, pick: Pick, n: u32)
    requires OnlyAsked(log, one, pick) && TakenBelow(taken, n) && one < n
    ensures TakenBelow(taken + log, n)
    ensures forall id :: TakenFor(taken + log, id) == TakenFor(taken, id) + if id == one then |BytesOf(log)| else 0
    ensures forall id: u32 :: id >= n ==> TakenFor(taken, id) == 0
  {
    hide TakenFor, BytesOf, Asked;
    forall id ensures TakenFor(taken + log, id) == TakenFor(taken, id) + if id == one then |BytesOf(log)| else 0 {
      TallyAppend(taken, log, id);
      TallyOf(log, one, pick, id);
    }
    forall id: u32 | id >= n ensures TakenFor(taken, id) == 0 {
      TallyBelow(taken, n, id);
    }
  }

  lemma {:induction false} TakeIsAsked(q: seq<Packet>, want: nat, id: u32, pick: Pick)
    requires AllValid(q)
    ensures OnlyAsked(Take(q, want, id, pick).log, id, pick)
  {
    hide Selected, Asked, U32At;
    if q != [] && want > 0 {
      var p := q[0];
      SelectedByStream(p, id, pick);
      if !Selected(p, id, pick) {
        TakeIsAsked(q[1..], want, id, pick);
      } else if want >= |p.Unread()| {
        TakeIsAsked(q[1..], want - |p.Unread()|, id, pick);
      }
    }
  }

  predicate IdsBelow(q: seq<Packet>, bound: u32)
    requires AllValid(q)
  {
    forall p :: p in q && p.IsData() ==> p.Id() < bound
  }

  lemma {:induction false} TakeKeepsIds(q: seq<Packet>, want: nat, id: u32, pick: Pick, bound: u32)
    requires AllValid(q) && IdsBelow(q, bound)
    ensures IdsBelow(Take(q, want, id, pick).rest, bound)
  {
    hide Selected, U32At;
    if q != [] && want > 0 {
      var p := q[0];
      SelectedByStream(p, id, pick);
      if !Selected(p, id, pick) {
        TakeKeepsIds(q[1..], want, id, pick, bound);
      } else if want >= |p.Unread()| {
        TakeKeepsIds(q[1..], want - |p.Unread()|, id, pick, bound);
      } else {
        assert Packet(p.data, p.head + want).Id() == p.Id();
      }
    }
  }

  /** What a read or a flush leaves behind for every channel. */
  lemma TakingCounts(q: seq<Packet>, want: nat, id: u32, pick: Pick)
    requires AllValid(q)
    ensures var t := Take(q, want, id, pick);
            forall anyId :: Waiting(q, anyId) == (if anyId == id then |BytesOf(t.log)| else 0) + Waiting(t.rest, anyId)
  {
    hide Take, Waiting, BytesOf;
    forall anyId
      ensures var t := Take(q, want, id, pick);
              Waiting(q, anyId) == (if anyId == id then |BytesOf(t.log)| else 0) + Waiting(t.rest, anyId)
    {
      TakeCounts(q, want, id, pick, anyId);
    }
  }

  /** What a flush gives back to the window: every packet counts as if it had the header of
      extended data. */
  function Refund(q: seq<Packet>, id: u32, pick: Pick): int {
    if q == [] then 0 else (if Selected(q[0], id, pick) then |q[0].data| - 13 else 0) + Refund(q[1..], id, pick)
  }

  /** A flush is a read without an end: there is always room for another whole packet. */
  lemma FlushStep(q: seq<Packet>, i: nat, before: seq<Chunk>, want: nat, id: u32, pick: Pick)
    requires AllValid(q) && i < |q| && want > Waiting(q[i..], id) && Selected(q[i], id, pick)
    ensures var p := q[i];
            && p.IsData() && want - |p.Unread()| > Waiting(q[i + 1..], id)
            && Take(q[i..], want, id, pick).After(q[..i], before)
               == Take(q[i + 1..], want - |p.Unread()|, id, pick).After(q[..i], before + [Chunk(id, p.StreamOf(), p.Unread())])
  {
    hide Selected, Take, WaitingPart;
    SelectedByStream(q[i], id, pick);
    SelectedCount(q[i], id, pick, id);
    assert q[i..][1..] == q[i + 1..];
    TakeStep(q[..i], before, q[i..], want, id, pick);
  }

  lemma FlushSkips(q: seq<Packet>, i: nat, want: nat, id: u32)
    requires AllValid(q) && i < |q| && want > Waiting(q[i..], id)
    ensures want > Waiting(q[i + 1..], id)
  {
    hide WaitingPart;
    assert q[i..][1..] == q[i + 1..];
  }

  /** Taking out a packet that holds no channel data. */
  lemma RemovalKeepsBalance(arrived: seq<Chunk>, taken: seq<Chunk>, q: seq<Packet>, i: nat, bound: u32)
    requires AllValid(q) && Balanced(arrived, taken, q) && i < |q| && !q[i].IsData() && IdsBelow(q, bound)
    ensures var r := q[..i] + q[i + 1..];
            && AllValid(r) && Balanced(arrived, taken, r) && IdsBelow(r, bound)
            && forall id :: Waiting(r, id) == Waiting(q, id)
  {
    hide Portion, Pending, Waiting, U32At;
    var a, p, b := q[..i], q[i], q[i + 1..];
    assert q == a + ([p] + b);
    forall id ensures Waiting(a + b, id) == Waiting(q, id) {
      WaitingAppend(a, b, id);
      WaitingAppend(a, [p] + b, id);
      WaitingCons(p, b, id);
    }
    forall id, stream ensures Pending(a + b, id, stream) == Pending(q, id, stream) {
      PendingAppend(a, b, id, stream);
      PendingAppend(a, [p] + b, id, stream);
      PendingCons(p, b, id, stream);
      assert [] + Pending(b, id, stream) == Pending(b, id, stream);
    }
  }
}
