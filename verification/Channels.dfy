/** A channel: its two windows, its re-entrant states, and a record of what it has put on the wire. */
module Channels {
  import opened Bytes
  import opened Errors
  import opened Modular

  const MINADJUST := 1024

  /** `libssh2_nonblocking_states`, as far as channels use them */
  datatype State = Idle | Created | Sent | Jump1 | End

  datatype Request =
    | Env(name: seq<byte>, value: seq<byte>)
    | Pty(term: seq<byte>, modes: seq<byte>, width: u32, height: u32, widthPx: u32, heightPx: u32)
    | Startup(request: seq<byte>, message: Option<seq<byte>>)

  /** What `_libssh2_transport_send` answers. */
  datatype Answer = Done | PutOff | Broken
  {
    function Code(): int {
      if Done? then 0 else if PutOff? then ERROR_EAGAIN else ERROR_SOCKET_SEND
    }
  }

  function AnswerOf(rc: int): (a: Answer)
    ensures a.Done? <==> rc == 0
  {
    if rc == 0 then Done else if rc == ERROR_EAGAIN then PutOff else Broken
  }

  /** Nothing was put off, and nothing failed. */
  predicate Smooth(answers: seq<Answer>) {
    forall a :: a in answers ==> a.Done?
  }

  lemma SmoothStep(answers: seq<Answer>, a: Answer)
    ensures Smooth(answers + [a]) <==> Smooth(answers) && a.Done?
  {
  }

  /** What happens to a send window: the other side widens it, a data message takes from it, or the
      confirmation of the channel sets it. */
  datatype Move = Raise(n: u32) | Lower(size: nat) | Reset(n: u32)

  /** A move from our side, and how many grants came before it. */
  datatype Mark = Mark(move: Move, grants: nat)

  /** A message of a channel as the transport layer is given it. */
  datatype Msg =
    | Data(streamId: int, bytes: seq<byte>)
    | WindowAdjust(amount: u32)
    | Eof
    | Close
    | ChannelRequest(request: Request)

  /** What one message adds to the bytes sent, to the window granted, and so on. */
  datatype Measure = DataBytes | Credit | Closes | Startups | Envs | Ptys
  {
    function Of(m: Msg): nat {
      match this
      case DataBytes => if m.Data? then |m.bytes| else 0
      case Credit => if m.WindowAdjust? then m.amount else 0
      case Closes => if m.Close? then 1 else 0
      case Startups => if m.ChannelRequest? && m.request.Startup? then 1 else 0
      case Envs => if m.ChannelRequest? && m.request.Env? then 1 else 0
      case Ptys => if m.ChannelRequest? && m.request.Pty? then 1 else 0
    }
  }

  function Total(measure: Measure, log: seq<Msg>): nat {
    if log == [] then 0 else Total(measure, log[..|log| - 1]) + measure.Of(log[|log| - 1])
  }

  lemma TotalStep(measure: Measure, log: seq<Msg>, m: Msg)
    ensures Total(measure, log + [m]) == Total(measure, log) + measure.Of(m)
  {
    assert (log + [m])[..|log|] == log;
  }

  /** What was granted at first and since is what is still open plus what was consumed. */
  predicate WindowOk(initial: u32, window: u32, consumed: nat, credit: nat) {
    Congruent(window + consumed, initial + credit)
  }

  /** What was asked for was granted, is queued or is pending. */
  predicate QueueOk(requested: nat, credit: nat, queue: u32, pending: u32) {
    Congruent(requested, credit + queue + pending)
  }

  /** Growing the window by `a` while `p` is granted on the wire keeps the books exactly when the
      two are the same. */
  lemma GrowthIsCredit(initial: u32, window: u32, consumed: nat, credit: nat, a: u32, p: u32)
    ensures WindowOk(initial, window, consumed, credit) ==>
              (WindowOk(initial, Wrap32(window + a), consumed, credit + p) <==> a == p)
  {
    hide Wrap32;
    if !WindowOk(initial, window, consumed, credit) {
      return;
    }
    WrapCongruent(window + a);
    CongruentAdd(Wrap32(window + a), window + a, consumed, consumed);
    CongruentAdd(window + consumed, initial + credit, a, a);
    CongruentAdd(initial + credit, initial + credit, 0, 0);
    CongruentChain(Wrap32(window + a) + consumed, window + a + consumed, initial + credit + a);
    if a != p && WindowOk(initial, Wrap32(window + a), consumed, credit + p) {
      CongruentChain(initial + credit + a, Wrap32(window + a) + consumed, initial + credit + p);
      CongruentAdd(initial + credit + a, initial + credit + p, -(initial + credit), -(initial + credit));
      CongruentSmall(a, p);
    }
  }

  /** Consuming takes out of the window. */
  lemma ConsumptionKeeps(initial: u32, window: u32, consumed: nat, credit: nat, n: nat)
    ensures WindowOk(initial, window, consumed, credit) ==> WindowOk(initial, Wrap32(window - n), consumed + n, credit)
  {
    hide Wrap32;
    if !WindowOk(initial, window, consumed, credit) {
      return;
    }
    WrapCongruent(window - n);
    CongruentAdd(Wrap32(window - n), window - n, consumed + n, consumed + n);
    CongruentChain(Wrap32(window - n) + (consumed + n), window + consumed, initial + credit);
  }

  lemma QueueingKeeps(requested: nat, credit: nat, queue: u32, pending: u32, a: u32)
    ensures QueueOk(requested, credit, queue, pending) ==> QueueOk(requested + a, credit, Wrap32(queue + a), pending)
  {
    hide Wrap32;
    if !QueueOk(requested, credit, queue, pending) {
      return;
    }
    WrapCongruent(queue + a);
    CongruentAdd(queue + a, Wrap32(queue + a), credit + pending, credit + pending);
    CongruentAdd(requested, credit + queue + pending, a, a);
    CongruentChain(requested + a, credit + queue + pending + a, credit + Wrap32(queue + a) + pending);
  }

  predicate ReceiveBooks(initial: u32, window: u32, consumed: nat, credit: nat, requested: nat, queue: u32, pending: u32) {
    WindowOk(initial, window, consumed, credit) && QueueOk(requested, credit, queue, pending)
  }

  /** What is open and what was sent are within what was granted; so is a write that waits for the
      socket, unless the window has wrapped around under it. */
  predicate SendBooks(window: u32, sentBytes: nat, granted: nat, waiting: nat) {
    window + sentBytes <= granted && (waiting <= window || window + sentBytes + TWO32 <= granted)
  }

  /** `waiting` bytes were fixed when the window was `frozen`, and it was widened by `since` since. */
  predicate Frozen(window: u32, frozen: u32, since: nat, waiting: nat) {
    waiting <= frozen && window == Wrap32(frozen + since)
  }

  /** A grant keeps the books even where the window wraps around. */
  lemma GrantKeepsBooks(window: u32, sentBytes: nat, granted: nat, waiting: nat, n: u32)
    requires SendBooks(window, sentBytes, granted, waiting)
    ensures SendBooks(Wrap32(window + n), sentBytes, granted + n, waiting)
    ensures window + n < TWO32 ==> Wrap32(window + n) == window + n
  {
  }

  function Sum(ns: seq<u32>): nat {
    if ns == [] then 0 else Sum(ns[..|ns| - 1]) + ns[|ns| - 1]
  }

  /** The send window after all that has happened to it, in `uint32_t` sums. */
  function WindowAfter(moves: seq<Move>): u32 {
    if moves == [] then 0
    else
      var before := WindowAfter(moves[..|moves| - 1]);
      match moves[|moves| - 1]
      case Raise(n) => Wrap32(before + n)
      case Lower(size) => Wrap32(before - size)
      case Reset(n) => n
  }

  /** What the last confirmation set it to. */
  function Base(moves: seq<Move>): nat {
    if moves == [] then 0
    else if moves[|moves| - 1].Reset? then moves[|moves| - 1].n
    else Base(moves[..|moves| - 1])
  }

  /** How much it was widened since, and by which grants before. */
  function Late(moves: seq<Move>): nat {
    if moves == [] || moves[|moves| - 1].Reset? then 0
    else Late(moves[..|moves| - 1]) + if moves[|moves| - 1].Raise? then moves[|moves| - 1].n else 0
  }

  function Early(moves: seq<Move>): seq<u32> {
    if moves == [] then []
    else if moves[|moves| - 1].Reset? then Raises(moves[..|moves| - 1])
    else Early(moves[..|moves| - 1])
  }

  function Raises(moves: seq<Move>): seq<u32> {
    if moves == [] then []
    else Raises(moves[..|moves| - 1]) + if moves[|moves| - 1].Raise? then [moves[|moves| - 1].n] else []
  }

  function Lowers(moves: seq<Move>): seq<nat> {
    if moves == [] then []
    else Lowers(moves[..|moves| - 1]) + if moves[|moves| - 1].Lower? then [moves[|moves| - 1].size] else []
  }

  /** What came from our side. */
  function Marks(moves: seq<Move>): seq<Mark> {
    if moves == [] then []
    else
      Marks(moves[..|moves| - 1])
      + if moves[|moves| - 1].Raise? then [] else [Mark(moves[|moves| - 1], |Raises(moves[..|moves| - 1])|)]
  }

  lemma {:induction false} MarksAre(moves: seq<Move>)
    ensures |moves| == |Raises(moves)| + |Marks(moves)|
    ensures forall i :: 0 <= i < |Marks(moves)| ==> Marks(moves)[i].grants <= |Raises(moves)|
  {
    if moves != [] {
      MarksAre(moves[..|moves| - 1]);
    }
  }

  /** The grants, and what came from our side between them, are all there is to know. */
  lemma {:induction false} MovesDetermined(a: seq<Move>, b: seq<Move>)
    requires Raises(a) == Raises(b) && Marks(a) == Marks(b)
    ensures a == b
  {
    hide Raises, Marks;
    MarksAre(a);
    MarksAre(b);
    if a != [] {
      var s, m, t, n := a[..|a| - 1], a[|a| - 1], b[..|b| - 1], b[|b| - 1];
      assert a == s + [m] && b == t + [n];
      SameLast(s, m, t, n);
      MovesDetermined(s, t);
    }
  }

  lemma LastRaise(moves: seq<Move>, n: u32)
    ensures Raises(moves + [Raise(n)]) == Raises(moves) + [n] && Marks(moves + [Raise(n)]) == Marks(moves)
  {
    assert (moves + [Raise(n)])[..|moves|] == moves;
  }

  lemma LastOther(moves: seq<Move>, m: Move)
    requires !m.Raise?
    ensures Raises(moves + [m]) == Raises(moves) && Marks(moves + [m]) == Marks(moves) + [Mark(m, |Raises(moves)|)]
  {
    assert (moves + [m])[..|moves|] == moves;
  }

  lemma SameLast(s: seq<Move>, m: Move, t: seq<Move>, n: Move)
    requires Raises(s + [m]) == Raises(t + [n]) && Marks(s + [m]) == Marks(t + [n])
    ensures Raises(s) == Raises(t) && Marks(s) == Marks(t) && m == n
  {
    hide Raises, Marks;
    if m.Raise? {
      LastRaise(s, m.n);
      if n.Raise? {
        LastRaise(t, n.n);
        SameSnoc(Raises(s), m.n, Raises(t), n.n);
      } else {
        LastOther(t, n);
        MarkedBefore(s, t, n);
      }
    } else {
      LastOther(s, m);
      if n.Raise? {
        LastRaise(t, n.n);
        MarkedBefore(t, s, m);
      } else {
        LastOther(t, n);
        SameSnoc(Marks(s), Mark(m, |Raises(s)|), Marks(t), Mark(n, |Raises(t)|));
      }
    }
  }

  lemma SameSnoc<T>(s: seq<T>, x: T, t: seq<T>, y: T)
    requires s + [x] == t + [y]
    ensures s == t && x == y
  {
    assert (s + [x])[..|s|] == s && (t + [y])[..|t|] == t && (s + [x])[|s|] == x;
  }

  /** A mark never counts a grant that comes after it. */
  lemma MarkedBefore(s: seq<Move>, t: seq<Move>, n: Move)
    requires !n.Raise? && Marks(s) == Marks(t) + [Mark(n, |Raises(t)|)]
    ensures |Raises(s)| >= |Raises(t)|
  {
    hide Raises, Marks;
    MarksAre(s);
    assert Marks(s)[|Marks(t)|] == Mark(n, |Raises(t)|);
  }

  /** The sizes of the data messages. */
  function Sizes(log: seq<Msg>): seq<nat> {
    if log == [] then []
    else Sizes(log[..|log| - 1]) + if log[|log| - 1].Data? then [|log[|log| - 1].bytes|] else []
  }

  lemma SizesStep(log: seq<Msg>, m: Msg)
    ensures Sizes(log + [m]) == Sizes(log) + if m.Data? then [|m.bytes|] else []
  {
    assert (log + [m])[..|log|] == log;
  }

  /** The other side never lets the window grow beyond 2^32 - 1 (section 5.2 of RFC 4254). */
  predicate Conforms(moves: seq<Move>) {
    moves != [] ==>
      && Conforms(moves[..|moves| - 1])
      && (moves[|moves| - 1].Raise? ==> WindowAfter(moves[..|moves| - 1]) + moves[|moves| - 1].n < TWO32)
  }

  /** No message took more from the window than it held. */
  predicate NeverUnder(moves: seq<Move>) {
    moves != [] ==>
      && NeverUnder(moves[..|moves| - 1])
      && (moves[|moves| - 1].Lower? ==> moves[|moves| - 1].size <= WindowAfter(moves[..|moves| - 1]))
  }

  /** What one more of them does to these. */
  lemma MoveStep(moves: seq<Move>, m: Move)
    ensures var after := moves + [m];
            && WindowAfter(after) == (match m
                                      case Raise(n) => Wrap32(WindowAfter(moves) + n)
                                      case Lower(size) => Wrap32(WindowAfter(moves) - size)
                                      case Reset(n) => n)
            && Base(after) == (if m.Reset? then m.n else Base(moves))
            && Late(after) == (if m.Reset? then 0 else Late(moves) + if m.Raise? then m.n else 0)
    ensures Raises(moves + [m]) == Raises(moves) + if m.Raise? then [m.n] else []
    ensures Lowers(moves + [m]) == Lowers(moves) + if m.Lower? then [m.size] else []
    ensures Marks(moves + [m]) == Marks(moves) + if m.Raise? then [] else [Mark(m, |Raises(moves)|)]
    ensures Conforms(moves + [m]) <==> Conforms(moves) && (m.Raise? ==> WindowAfter(moves) + m.n < TWO32)
    ensures NeverUnder(moves + [m]) <==> NeverUnder(moves) && (m.Lower? ==> m.size <= WindowAfter(moves))
  {
    hide Wrap32, Raises, Lowers, Marks;
    assert (moves + [m])[..|moves|] == moves;
    ListsStep(moves, m);
  }

  lemma ListsStep(moves: seq<Move>, m: Move)
    ensures Raises(moves + [m]) == Raises(moves) + if m.Raise? then [m.n] else []
    ensures Lowers(moves + [m]) == Lowers(moves) + if m.Lower? then [m.size] else []
    ensures Marks(moves + [m]) == Marks(moves) + if m.Raise? then [] else [Mark(m, |Raises(moves)|)]
  {
    assert (moves + [m])[..|moves|] == moves;
  }

  /** All grants are those from before the confirmation and those since. */
  lemma {:induction false} GrantsAdd(moves: seq<Move>)
    ensures Sum(Raises(moves)) == Sum(Early(moves)) + Late(moves)
  {
    if moves != [] {
      GrantsAdd(moves[..|moves| - 1]);
      SumStep(Raises(moves[..|moves| - 1]), if moves[|moves| - 1].Raise? then moves[|moves| - 1].n else 0);
      assert Raises(moves[..|moves| - 1]) + [] == Raises(moves[..|moves| - 1]);
    }
  }

  lemma SumStep(ns: seq<u32>, n: u32)
    ensures Sum(ns + [n]) == Sum(ns) + n
  {
    assert (ns + [n])[..|ns|] == ns;
  }

  /** The books of a send window: what was sent and what is open are within what was granted, and while
      the other side conforms nothing is lost and the window never underflows. */
  predicate Books(moves: seq<Move>, sentBytes: nat, waiting: nat) {
    && SendBooks(WindowAfter(moves), sentBytes, Base(moves) + Late(moves), waiting)
    && (Conforms(moves) ==> NeverUnder(moves) && WindowAfter(moves) + sentBytes == Base(moves) + Late(moves))
  }

  lemma RaiseKeeps(moves: seq<Move>, sentBytes: nat, waiting: nat, n: u32)
    requires Books(moves, sentBytes, waiting)
    ensures Books(moves + [Raise(n)], sentBytes, waiting)
  {
    hide WindowAfter, Base, Late, Conforms, NeverUnder, Wrap32;
    MoveStep(moves, Raise(n));
    GrantKeepsBooks(WindowAfter(moves), sentBytes, Base(moves) + Late(moves), waiting, n);
  }

  lemma LowerKeeps(moves: seq<Move>, sentBytes: nat, waiting: nat)
    requires Books(moves, sentBytes, waiting) && waiting < TWO32
    ensures Books(moves, sentBytes, 0) && Books(moves + [Lower(waiting)], sentBytes + waiting, 0)
  {
    hide WindowAfter, Base, Late, Conforms, NeverUnder, Wrap32;
    MoveStep(moves, Lower(waiting));
    SendingKeepsBooks(WindowAfter(moves), sentBytes, Base(moves) + Late(moves), waiting);
  }

  /** The confirmation sets the window: grants that came before it are lost. */
  lemma ResetKeeps(moves: seq<Move>, n: u32)
    requires Books(moves, 0, 0)
    ensures Books(moves + [Reset(n)], 0, 0)
  {
    hide WindowAfter, Base, Late, Conforms, NeverUnder;
    MoveStep(moves, Reset(n));
  }

  /** With a conforming other side, what is open and was sent is all that was granted, at first and
      since, if and only if nothing was granted before the confirmation. */
  lemma NothingLostExactly(moves: seq<Move>, sentBytes: nat, waiting: nat)
    requires Books(moves, sentBytes, waiting)
    ensures WindowAfter(moves) + sentBytes <= Base(moves) + Sum(Raises(moves))
    ensures Conforms(moves) ==>
              (WindowAfter(moves) + sentBytes == Base(moves) + Sum(Raises(moves)) <==> Sum(Early(moves)) == 0)
  {
    hide WindowAfter, Base, Late, Conforms, NeverUnder, Sum, Raises, Early;
    GrantsAdd(moves);
  }

  /** 50 bytes are granted before the confirmation, which says 100: they are lost. */
  lemma EarlyGrantIsLost()
    ensures var moves := [Raise(50), Reset(100)];
            && Conforms(moves) && WindowAfter(moves) == 100 && Base(moves) + Sum(Raises(moves)) == 150
            && Sum(Early(moves)) == 50
  {
    MoveStep([], Raise(50));
    assert [] + [Raise(50)] == [Raise(50)];
    MoveStep([Raise(50)], Reset(100));
    assert [Raise(50)] + [Reset(100)] == [Raise(50), Reset(100)];
    SumStep([], 50);
    assert [] + [50] == [50];
    GrantsAdd([Raise(50), Reset(100)]);
  }

  /** What fits the window can be fixed for sending. */
  lemma FreezingKeepsBooks(window: u32, sentBytes: nat, granted: nat, waiting: nat)
    requires SendBooks(window, sentBytes, granted, 0) && waiting <= window
    ensures SendBooks(window, sentBytes, granted, waiting) && Frozen(window, window, 0, waiting)
  {
  }

  lemma FrozenWidens(window: u32, frozen: u32, since: nat, waiting: nat, n: u32)
    requires Frozen(window, frozen, since, waiting)
    ensures Frozen(Wrap32(window + n), frozen, since + n, waiting)
  {
    WrapSum(frozen + since, n);
  }

  /** The window is too small for the waiting bytes exactly when it has wrapped around to less than
      them since they were fixed. */
  lemma UnderflowExactly(window: u32, frozen: u32, since: nat, waiting: nat)
    requires Frozen(window, frozen, since, waiting)
    ensures waiting > window <==> frozen + since >= TWO32 && Wrap32(frozen + since) < waiting
  {
    if frozen + since < TWO32 {
      WrapSmall(frozen + since);
    }
  }

  /** 100 bytes wait for the socket, and the other side grants 2^32 - 50 more: 50 are left of the
      window, and sending the bytes takes it to 2^32 - 50. */
  lemma OvergrantUnderflows()
    ensures var grant: u32 := 0xffff_ffce;
            && SendBooks(100, 0, 100, 100) && Wrap32(100 + grant) == 50 && Wrap32(50 - 100) == grant
            && SendBooks(grant, 100, 100 + grant, 0)
  {
  }

  predicate Sending(state: State, total: nat, base: nat) {
    && (state.Created? ==> total == base)
    && (state.Sent? ==> total == base + 1)
  }

  /** How far our side is with closing: no close was sent, one was, or the channel counts as closed. */
  datatype Closing = Unclosed | CloseSent | ClosedDown

  function ClosingOf(localClose: bool, closeState: State): Closing {
    if closeState.Sent? then CloseSent else if localClose then ClosedDown else Unclosed
  }

  /** At most one process was started and at most one close was sent; a request that is under way
      has been sent once if its state says so, and not yet otherwise. */
  predicate Orderly(log: seq<Msg>, process: State, closing: Closing, env: State, envBase: nat, pty: State, ptyBase: nat) {
    && Total(Startups, log) <= (if process.Idle? || process.Created? then 0 else 1)
    && Total(Closes, log) <= (if closing.Unclosed? then 0 else 1) && (closing.CloseSent? ==> Total(Closes, log) == 1)
    && Sending(env, Total(Envs, log), envBase) && Sending(pty, Total(Ptys, log), ptyBase)
  }

  /** What one more message does to these counts. */
  lemma OrderlyStep(log: seq<Msg>, m: Msg, process: State, closing: Closing, env: State, envBase: nat, pty: State, ptyBase: nat)
    requires Orderly(log, process, closing, env, envBase, pty, ptyBase)
    ensures m.Data? || m.WindowAdjust? || m.Eof? ==> Orderly(log + [m], process, closing, env, envBase, pty, ptyBase)
    ensures m.Close? && closing.Unclosed? ==> Orderly(log + [m], process, CloseSent, env, envBase, pty, ptyBase)
    ensures m.ChannelRequest? && m.request.Startup? && process.Created? ==>
              Orderly(log + [m], Sent, closing, env, envBase, pty, ptyBase)
    ensures m.ChannelRequest? && m.request.Env? && env.Created? ==>
              Orderly(log + [m], process, closing, Sent, envBase, pty, ptyBase) && Total(Envs, log + [m]) == envBase + 1
    ensures m.ChannelRequest? && m.request.Pty? && pty.Created? ==>
              Orderly(log + [m], process, closing, env, envBase, Sent, ptyBase) && Total(Ptys, log + [m]) == ptyBase + 1
  {
    hide Total;
    TotalStep(Closes, log, m);
    TotalStep(Startups, log, m);
    TotalStep(Envs, log, m);
    TotalStep(Ptys, log, m);
  }

  /** What a change of state without a message does to them. */
  lemma OrderlyMoves(log: seq<Msg>, process: State, closing: Closing, env: State, envBase: nat, pty: State, ptyBase: nat)
    requires Orderly(log, process, closing, env, envBase, pty, ptyBase)
    ensures Orderly(log, process, closing, Created, Total(Envs, log), pty, ptyBase)
    ensures Orderly(log, process, closing, Idle, envBase, pty, ptyBase)
    ensures Orderly(log, process, closing, env, envBase, Created, Total(Ptys, log))
    ensures Orderly(log, process, closing, env, envBase, Idle, ptyBase)
    ensures process.Idle? ==> Orderly(log, Created, closing, env, envBase, pty, ptyBase)
    ensures Orderly(log, End, closing, env, envBase, pty, ptyBase)
    ensures Orderly(log, process, ClosedDown, env, envBase, pty, ptyBase)
  {
  }

  /** What a read asks to have added to its window. */
  function Lacking(initial: u32, bufLen: nat, window: u32): u32 {
    var adjustment := Wrap32(initial + bufLen - window);
    if adjustment < MINADJUST then MINADJUST else adjustment
  }

  /** The same without a modulus. */
  function Least(full: nat, window: u32): nat {
    var lack := full - window + if window <= full then 0 else TWO32;
    if lack < MINADJUST then MINADJUST else lack
  }

  lemma LackingIs(initial: u32, bufLen: nat, window: u32)
    requires initial + bufLen < TWO32
    ensures Lacking(initial, bufLen, window) == Least(initial + bufLen, window)
  {
    hide Wrap32;
    WrapBy(initial + bufLen - window);
  }

  /** The window once that, and what is queued, is added; or it as it was when the sum wraps around to
      one that is too small to be sent. With a retry nothing that is queued is added. */
  function Widened(window: u32, adjustment: u32, queued: u32, retry: bool): u32 {
    if retry then Wrap32(window + adjustment)
    else if Wrap32(adjustment + queued) < MINADJUST then window
    else Wrap32(window + Wrap32(adjustment + queued))
  }

  /** The window, what is asked for and what is queued come to no more than 32 bits hold, or to so much more
      that what is left is wide enough once more; or else to an adjustment that is too small to be sent, and
      the window was wide enough before. */
  predicate RoomToWiden(full: nat, target: nat, window: u32, queued: u32) {
    var added := Least(full, window) + queued;
    if TWO32 <= added < TWO32 + MINADJUST then window >= target
    else window + added < TWO32 || TWO32 + target <= window + added < 2 * TWO32 || 2 * TWO32 + target <= window + added
  }

  /** That is exactly what it takes to make the window wide enough, whatever is queued. */
  lemma WideEnoughExactly(initial: u32, bufLen: nat, window: u32, queued: u32, retry: bool)
    requires initial + bufLen < TWO32 && (retry ==> queued == 0)
    ensures Widened(window, Lacking(initial, bufLen, window), queued, retry) >= initial / 4 * 3 + bufLen
       <==> RoomToWiden(initial + bufLen, initial / 4 * 3 + bufLen, window, queued)
  {
    hide Wrap32, Lacking;
    LackingIs(initial, bufLen, window);
    var least := Least(initial + bufLen, window);
    WrapBy(least + queued);
    WrapBy(window + Wrap32(least + queued));
  }

  /** With less than the smallest adjustment in the queue it is simple: the sum fits 32 bits, or the window is
      wider than need be already. */
  lemma RoomWithShortQueue(initial: u32, bufLen: nat, window: u32, queued: u32)
    requires initial + bufLen < TWO32 && queued < MINADJUST
    ensures RoomToWiden(initial + bufLen, initial / 4 * 3 + bufLen, window, queued)
       <==> || window > initial + bufLen
            || (if initial + bufLen - window > MINADJUST then initial + bufLen else window + MINADJUST) + queued < TWO32
  {
  }

  /** An initial window and a buffer that fit 32 bits are not enough: here the queue makes the sum wrap
      around, and 744 bytes are left of the window. */
  lemma QueueMakesWindowWrap()
    ensures var initial, bufLen: nat, window, queued: u32 := 0xf000_0000, 0x0fff_ff00, 0xb800_0000, 1000;
            && initial + bufLen < TWO32 && window < initial / 4 * 3 + bufLen
            && Widened(window, Lacking(initial, bufLen, window), queued, false) == 744
  {
  }

  const MAX_WRITE := 32700

  predicate SmallData(log: seq<Msg>, packetSize: u32) {
    forall m :: m in log && m.Data? ==> |m.bytes| <= packetSize && |m.bytes| <= MAX_WRITE
  }

  lemma SmallDataStep(log: seq<Msg>, m: Msg, packetSize: u32)
    requires SmallData(log, packetSize) && (m.Data? ==> |m.bytes| <= packetSize && |m.bytes| <= MAX_WRITE)
    ensures SmallData(log + [m], packetSize)
  {
  }

  /** The bytes of all data messages, one after another. */
  function DataOf(log: seq<Msg>): seq<byte> {
    if log == [] then []
    else DataOf(log[..|log| - 1]) + (if log[|log| - 1].Data? then log[|log| - 1].bytes else [])
  }

  lemma DataOfStep(log: seq<Msg>, streamId: int, bytes: seq<byte>)
    ensures DataOf(log + [Data(streamId, bytes)]) == DataOf(log) + bytes
  {
    assert (log + [Data(streamId, bytes)])[..|log|] == log;
  }

  /** The waiting bytes are given up, or sent, and the window shrinks by them. */
  lemma SendingKeepsBooks(window: u32, sentBytes: nat, granted: nat, waiting: nat)
    requires SendBooks(window, sentBytes, granted, waiting) && waiting < TWO32
    ensures SendBooks(window, sentBytes, granted, 0)
    ensures SendBooks(Wrap32(window - waiting), sentBytes + waiting, granted, 0)
    ensures Wrap32(window - waiting) == window - waiting + if waiting <= window then 0 else TWO32
  {
  }

  class Channel {
    const id: u32
    const windowInitial: u32
    const packetSize: u32

    /** Whether extended data is merged into the standard stream. */
    var merge: bool
    var remoteId: u32
    /** Where we are the source of the data. */
    var localWindow: u32
    var localPacketSize: u32
    var localEof: bool
    var localClose: bool
    /** Where the remote side is. */
    var remoteWindow: u32
    var remoteEof: bool
    var remoteClose: bool
    var adjustQueue: u32
    var readAvail: u32

    var writeState: State
    var writeBufwrite: nat
    var writeStream: int
    /** The buffer a write that has to be resumed was called with: the caller keeps it. */
    var writeBuf: seq<byte>
    var adjustState: State
    /** The amount in `adjust_adjust`. */
    var adjustPending: u32

    var readState: State
    var flushState: State
    var flushRefund: u32
    var flushBytes: u32

    var envState: State
    var envRequest: Request
    var ptyState: State
    var ptyRequest: Request
    var processState: State
    var processRequest: Request
    var closeState: State
    /** How many environment and terminal requests had been sent when the last one was begun. */
    ghost var envBase: nat
    ghost var ptyBase: nat

    /** Every message the transport layer has taken. */
    ghost var sent: seq<Msg>
    /** All adjustments asked for, and all bytes taken out of the receive window. */
    ghost var requested: nat
    ghost var consumed: nat
    /** No adjustment failed or was retried with another amount than the one pending, and no flush
        was retried. */
    ghost var exact: bool
    /** The answers of the transport layer to its window adjustments. */
    ghost var adjusts: seq<Answer>
    /** How many calls of a flush ended with its adjustment put off. */
    ghost var flushesHeld: nat
    /** How many events the session had taken in when the channel was made, and every grant since. */
    ghost const born: nat
    ghost var grants: seq<u32>
    /** The data messages and the confirmation between them, and all that has happened to the send window. */
    ghost var marks: seq<Mark>
    ghost var moves: seq<Move>
    /** The send window, and what had been granted, when the size of the write that waits for the socket
        was fixed. */
    ghost var frozenWindow: u32
    ghost var frozenLate: nat
    /** A flush was retried, and took its bytes off the counter of available bytes once more. */
    ghost var skewed: bool

    /** A channel on which nothing has happened yet. */
    ghost predicate Untouched()
      reads this
    {
      && remoteWindow == windowInitial && localWindow == 0 && localPacketSize == 0 && readAvail == 0 && adjustQueue == 0
      && !localEof && !localClose && !remoteEof && !remoteClose
      && writeState.Idle? && adjustState.Idle? && readState.Idle? && flushState.Idle?
      && processState.Idle? && closeState.Idle? && envState.Idle? && ptyState.Idle?
      && sent == [] && moves == [] && marks == [] && grants == [] && adjusts == [] && flushesHeld == 0 && consumed == 0
      && !skewed && exact && Sound()
    }

    /** No adjustment was sent for it, and no byte of it was read. */
    ghost predicate Pristine()
      reads this`adjusts, this`flushesHeld, this`consumed
    {
      adjusts == [] && flushesHeld == 0 && consumed == 0
    }

    /** Nothing was said of it since it was made, so many events after the beginning. */
    ghost predicate MadeAt(events: nat)
      reads this`adjusts, this`flushesHeld, this`consumed, this`grants, this`remoteEof, this`remoteClose
    {
      Pristine() && grants == [] && !remoteEof && !remoteClose && born == events
    }

    constructor (id: u32, window: u32, packetSize: u32, ghost born: nat)
      ensures this.id == id && windowInitial == window && this.packetSize == packetSize && !merge
      ensures this.born == born
      ensures Untouched()
    {
      this.id, this.windowInitial, this.packetSize := id, window, packetSize;
      merge := false;
      remoteId, localWindow, localPacketSize, localEof, localClose := 0, 0, 0, false, false;
      remoteWindow, remoteEof, remoteClose, adjustQueue, readAvail := window, false, false, 0, 0;
      writeStream, writeBuf := 0, [];
      writeState, writeBufwrite, adjustState, adjustPending, readState := Idle, 0, Idle, 0, Idle;
      flushState, flushRefund, flushBytes := Idle, 0, 0;
      envState, ptyState, processState, closeState := Idle, Idle, Idle, Idle;
      envRequest, ptyRequest, processRequest := Env([], []), Env([], []), Env([], []);
      envBase, ptyBase := 0, 0;
      sent, requested, consumed, exact, skewed := [], 0, 0, true, false;
      adjusts, flushesHeld, this.born, grants, marks, moves, frozenWindow, frozenLate := [], 0, born, [], [], [], 0, 0;
    }

    function WriteWaiting(): nat
      reads this`writeState, this`writeBufwrite
    {
      if writeState.Created? then writeBufwrite else 0
    }

    /** The books of the send window. Its history holds every grant and every data message. */
    ghost predicate SendLedger()
      reads this`localWindow, this`grants, this`marks, this`moves, this`sent, this`writeState, this`writeBufwrite,
            this`frozenWindow, this`frozenLate
    {
      && localWindow == WindowAfter(moves) && Raises(moves) == grants && Marks(moves) == marks
      && Lowers(moves) == Sizes(sent)
      && Books(moves, Total(DataBytes, sent), WriteWaiting())
      && (writeState.Created? ==>
            frozenLate <= Late(moves) && Frozen(localWindow, frozenWindow, Late(moves) - frozenLate, writeBufwrite))
    }

    /** Since the size of the waiting write was fixed the other side has widened the window so far
        that it wrapped around to less than that size. */
    ghost predicate Overgranted(late: nat)
      requires frozenLate <= late
      reads this`frozenWindow, this`frozenLate, this`writeBufwrite
    {
      var widened := frozenWindow + (late - frozenLate);
      widened >= TWO32 && Wrap32(widened) < writeBufwrite
    }

    ghost predicate Once()
      reads this`sent, this`processState, this`processRequest, this`closeState, this`localClose,
            this`envState, this`envRequest, this`envBase, this`ptyState, this`ptyRequest, this`ptyBase
    {
      && Orderly(sent, processState, ClosingOf(localClose, closeState), envState, envBase, ptyState, ptyBase)
      && (processState.Created? ==> processRequest.Startup?)
      && (envState.Created? ==> envRequest.Env?) && (ptyState.Created? ==> ptyRequest.Pty?)
    }

    /** No data message was longer than the other side takes, or than 32700 bytes; nor is the one
        that waits for the socket. */
    ghost predicate SizesKept()
      reads this`sent, this`localPacketSize, this`writeState, this`writeBufwrite
    {
      && SmallData(sent, localPacketSize)
      && (writeState.Created? ==> writeBufwrite <= localPacketSize && writeBufwrite <= MAX_WRITE)
    }

    /** All that holds for what the channel sends. */
    ghost predicate Outgoing()
      reads this`localWindow, this`grants, this`marks, this`moves, this`sent, this`writeState, this`writeBufwrite,
            this`frozenWindow, this`frozenLate, this`localPacketSize, this`processState, this`processRequest,
            this`closeState, this`localClose, this`envState, this`envRequest, this`envBase, this`ptyState, this`ptyRequest, this`ptyBase
    {
      SendLedger() && SizesKept() && Once()
    }

    /** The receive window is what the other side was granted less what was consumed, and every
        adjustment asked for was granted, is queued or is pending. */
    ghost predicate ReceiveLedger()
      reads this`remoteWindow, this`adjustQueue, this`adjustState, this`adjustPending,
            this`sent, this`requested, this`consumed, this`exact
    {
      exact ==>
        ReceiveBooks(windowInitial, remoteWindow, consumed, Total(Credit, sent), requested, adjustQueue,
                     if adjustState.Created? then adjustPending else 0)
    }

    /** The states a channel can be in between two calls. */
    ghost predicate States()
      reads this`readState, this`flushState, this`adjustState, this`writeState, this`envState, this`ptyState,
            this`processState, this`closeState
    {
      && (readState.Idle? || readState.Jump1?)
      && (flushState.Idle? || flushState.Created?)
      && (adjustState.Idle? || adjustState.Created?)
      && (writeState.Idle? || writeState.Created?)
      && (envState.Idle? || envState.Created? || envState.Sent?)
      && (ptyState.Idle? || ptyState.Created? || ptyState.Sent?)
      && (processState.Idle? || processState.Created? || processState.Sent? || processState.End?)
      && (closeState.Idle? || closeState.Created? || closeState.Sent?)
    }

    /** While no adjustment was put off or failed, the books of the receive window are exact. */
    ghost predicate AdjustLaw()
      reads this`adjusts, this`exact, this`adjustState
    {
      Smooth(adjusts) ==> exact && adjustState.Idle?
    }

    /** While no flush was put off, the counter was not taken down twice. */
    ghost predicate FlushLaw()
      reads this`adjusts, this`flushesHeld, this`flushState, this`skewed
    {
      && (Smooth(adjusts) ==> flushesHeld == 0)
      && (flushesHeld == 0 ==> flushState.Idle? && !skewed)
    }

    /** The window can be adjusted, also in the middle of a flush. */
    ghost predicate Adjustable()
      reads this`localWindow, this`grants, this`marks, this`moves, this`sent, this`writeState, this`writeBufwrite,
            this`frozenWindow, this`frozenLate, this`localPacketSize, this`processState, this`processRequest,
            this`closeState, this`localClose, this`envState, this`envRequest, this`envBase,
            this`ptyState, this`ptyRequest, this`ptyBase,
            this`remoteWindow, this`adjustQueue, this`adjustState, this`adjustPending, this`requested, this`consumed,
            this`exact, this`readState, this`flushState, this`adjusts
    {
      Outgoing() && ReceiveLedger() && States() && AdjustLaw()
    }

    /** All that holds for a channel between two calls. */
    ghost predicate Sound()
      reads this`localWindow, this`grants, this`marks, this`moves, this`sent, this`writeState, this`writeBufwrite,
            this`frozenWindow, this`frozenLate, this`localPacketSize, this`processState, this`processRequest,
            this`closeState, this`localClose, this`envState, this`envRequest, this`envBase,
            this`ptyState, this`ptyRequest, this`ptyBase,
            this`remoteWindow, this`adjustQueue, this`adjustState, this`adjustPending, this`requested, this`consumed,
            this`exact, this`readState, this`flushState, this`adjusts, this`flushesHeld, this`skewed
    {
      Adjustable() && FlushLaw()
    }

    /** The other side confirms the channel, or we confirm it to the other side: the window is set. */
    method Opened(remoteId: u32, window: u32, packetSize: u32)
      requires SendLedger() && Once() && sent == [] && writeState.Idle?
      modifies this`remoteId, this`localWindow, this`localPacketSize, this`marks, this`moves
      ensures this.remoteId == remoteId && localWindow == window && localPacketSize == packetSize
      ensures moves == old(moves) + [Reset(window)] && marks == old(marks) + [Mark(Reset(window), |grants|)]
      ensures Outgoing()
    {
      hide Once, WindowAfter, Raises, Lowers, Marks, Late, Books, Frozen;
      MoveStep(moves, Reset(window));
      ResetKeeps(moves, window);
      this.remoteId, localWindow, localPacketSize := remoteId, window, packetSize;
      marks := marks + [Mark(Reset(window), |grants|)];
      moves := moves + [Reset(window)];
    }

    /** A channel is made and confirmed at once. */
    method OpenedAtOnce(remoteId: u32, window: u32, packetSize: u32)
      requires Untouched()
      modifies this`remoteId, this`localWindow, this`localPacketSize, this`marks, this`moves
      ensures this.remoteId == remoteId && localWindow == window && localPacketSize == packetSize && Sound()
      ensures moves == [Reset(window)] && marks == [Mark(Reset(window), 0)]
    {
      hide Once, SizesKept, ReceiveLedger, States, AdjustLaw, FlushLaw, WindowAfter, Raises, Lowers, Marks, Books;
      Opened(remoteId, window, packetSize);
    }

    /** `_libssh2_channel_extended_data`, without the mode that ignores it */
    method HandleExtendedData(merge: bool)
      modifies this`merge
      ensures this.merge == merge
    {
      this.merge := merge;
    }

    /** Opened for the other side, with the numbers it has sent. */
    ghost predicate OpenedFor(remoteId: u32, window: u32, packetSize: u32)
      reads this`remoteId, this`localWindow, this`localPacketSize, this`marks, this`merge
    {
      && this.remoteId == remoteId && localWindow == window && localPacketSize == packetSize && !merge
      && marks == [Mark(Reset(window), 0)]
    }

    /** The other side widens the send window. */
    method Grant(n: u32)
      modifies this`localWindow, this`grants, this`moves
      ensures localWindow == Wrap32(old(localWindow) + n)
      ensures grants == old(grants) + [n] && moves == old(moves) + [Raise(n)]
      ensures old(Sound()) ==> Sound()
    {
      hide Outgoing, ReceiveLedger, States, AdjustLaw, FlushLaw, Wrap32;
      Widen(n);
    }

    method Widen(n: u32)
      modifies this`localWindow, this`grants, this`moves
      ensures localWindow == Wrap32(old(localWindow) + n)
      ensures grants == old(grants) + [n] && moves == old(moves) + [Raise(n)]
      ensures old(Outgoing()) ==> Outgoing()
    {
      hide Once, SizesKept, Total, Books, Wrap32, WindowAfter, Raises, Lowers, Marks, Late, Conforms, NeverUnder, Frozen, Sizes, Base;
      if Outgoing() {
        MoveStep(moves, Raise(n));
        RaiseKeeps(moves, Total(DataBytes, sent), WriteWaiting(), n);
        if writeState.Created? {
          FrozenWidens(localWindow, frozenWindow, Late(moves) - frozenLate, writeBufwrite, n);
        }
      }
      grants, moves := grants + [n], moves + [Raise(n)];
      localWindow := Wrap32(localWindow + n);
    }

    /** `_libssh2_transport_send`: taken in full, or not yet, or failed. */
    method TransportSend(m: Msg) returns (rc: int)
      modifies this`sent
      ensures rc == 0 || rc == ERROR_EAGAIN || rc == ERROR_SOCKET_SEND
      ensures sent == if rc == 0 then old(sent) + [m] else old(sent)
    {
      var done, again := *, *;
      if done {
        sent := sent + [m];
        return 0;
      }
      return if again then ERROR_EAGAIN else ERROR_SOCKET_SEND;
    }

    /** The same for messages that carry no data and grant nothing. What they do to the counts of
        requests is `OrderlyStep`'s. */
    method SendControl(m: Msg) returns (rc: int)
      requires m.Eof? || m.Close? || m.ChannelRequest?
      requires SendLedger() && SizesKept() && ReceiveLedger()
      modifies this`sent
      ensures rc == 0 || rc == ERROR_EAGAIN || rc == ERROR_SOCKET_SEND
      ensures sent == if rc == 0 then old(sent) + [m] else old(sent)
      ensures SendLedger() && SizesKept() && ReceiveLedger()
    {
      hide WindowOk, QueueOk, Total, SmallData, Books, Frozen, Sizes;
      SizesStep(sent, m);
      TotalStep(DataBytes, sent, m);
      TotalStep(Credit, sent, m);
      SmallDataStep(sent, m, localPacketSize);
      rc := TransportSend(m);
    }

    /** The same for a window adjustment. */
    method SendAdjust(amount: u32) returns (rc: int)
      requires Outgoing()
      modifies this`sent, this`adjusts
      ensures rc <= 0 && sent == if rc == 0 then old(sent) + [WindowAdjust(amount)] else old(sent)
      ensures adjusts == old(adjusts) + [AnswerOf(rc)]
      ensures Total(Credit, sent) == Total(Credit, old(sent)) + (if rc == 0 then amount else 0)
      ensures Outgoing()
    {
      hide Total, SmallData, Books, Orderly, Frozen, Sizes;
      var m := WindowAdjust(amount);
      SizesStep(sent, m);
      TotalStep(DataBytes, sent, m);
      TotalStep(Credit, sent, m);
      SmallDataStep(sent, m, localPacketSize);
      OrderlyStep(sent, m, processState, ClosingOf(localClose, closeState), envState, envBase, ptyState, ptyBase);
      rc := TransportSend(m);
      adjusts := adjusts + [AnswerOf(rc)];
    }

    /** Nothing is sent: the adjustment is queued, or there is nothing to adjust. */
    predicate Deferred(adjustment: u32, force: bool)
      reads this`adjustQueue, this`adjustState
    {
      adjustState.Idle? && ((!force && Wrap32(adjustment + adjustQueue) < MINADJUST) || (adjustment == 0 && adjustQueue == 0))
    }

    /** The amount that a call sends. */
    function Amount(adjustment: u32): u32
      reads this`adjustQueue, this`adjustState, this`adjustPending
    {
      if adjustState.Idle? then Wrap32(adjustment + adjustQueue) else adjustPending
    }

    /** The amount by which a call lets the window grow: after a retry not the one it sends. */
    function Growth(adjustment: u32): u32
      reads this`adjustQueue, this`adjustState
    {
      if adjustState.Idle? then Wrap32(adjustment + adjustQueue) else adjustment
    }

    /** `_libssh2_channel_receive_window_adjust` */
    method ReceiveWindowAdjust(adjustment: u32, force: bool) returns (rc: int)
      requires Adjustable()
      modifies this`adjustQueue, this`adjustState, this`adjustPending, this`remoteWindow, this`sent, this`requested,
               this`exact, this`adjusts
      ensures Adjustable() && (rc == 0 || rc == ERROR_EAGAIN || rc == ERROR_SOCKET_SEND)
      ensures requested == old(requested) + (if old(adjustState.Idle?) then adjustment else 0)
      ensures adjusts == old(adjusts) + (if old(Deferred(adjustment, force)) then [] else [AnswerOf(rc)])
      ensures old(Deferred(adjustment, force)) ==>
                && rc == 0 && sent == old(sent) && remoteWindow == old(remoteWindow) && adjustState.Idle?
                && adjustQueue == Wrap32(old(adjustQueue) + adjustment) && exact == old(exact)
      ensures !old(Deferred(adjustment, force)) && rc == 0 ==>
                && sent == old(sent) + [WindowAdjust(old(Amount(adjustment)))]
                && remoteWindow == Wrap32(old(remoteWindow) + old(Growth(adjustment)))
                && adjustState.Idle? && adjustQueue == (if old(adjustState.Idle?) then 0 else old(adjustQueue))
                && exact == (old(exact) && old(Growth(adjustment)) == old(Amount(adjustment)))
      ensures rc != 0 ==>
                && sent == old(sent) && remoteWindow == old(remoteWindow)
                && adjustState.Created? && adjustPending == old(Amount(adjustment))
                && (rc == ERROR_SOCKET_SEND ==> adjustQueue == old(Growth(adjustment)) && !exact)
                && (rc == ERROR_EAGAIN ==> adjustQueue == (if old(adjustState.Idle?) then 0 else old(adjustQueue))
                                           && exact == old(exact))
    {
      hide ReceiveLedger, Outgoing, Wrap32;
      SmoothStep(adjusts, PutOff);
      SmoothStep(adjusts, Broken);
      SmoothStep(adjusts, Done);
      var amount := adjustment;
      if adjustState.Idle? {
        var deferred;
        deferred, amount := StartAdjust(adjustment, force);
        if deferred {
          return 0;
        }
      }
      rc := SendPending(amount);
    }

    /** The adjustment is queued, or becomes the pending one together with what was queued. */
    method StartAdjust(adjustment: u32, force: bool) returns (deferred: bool, amount: u32)
      requires ReceiveLedger() && adjustState.Idle?
      modifies this`adjustQueue, this`adjustState, this`adjustPending, this`requested
      ensures ReceiveLedger() && deferred == old(Deferred(adjustment, force)) && requested == old(requested) + adjustment
      ensures deferred ==> adjustState.Idle? && adjustQueue == Wrap32(old(adjustQueue) + adjustment)
      ensures !deferred ==> adjustState.Created? && adjustQueue == 0
                            && amount == adjustPending == Wrap32(adjustment + old(adjustQueue))
    {
      hide WindowOk, Congruent, Wrap32, Total;
      WrapSmall(0);
      QueueingKeeps(requested, Total(Credit, sent), adjustQueue, 0, adjustment);
      requested := requested + adjustment;
      if !force && Wrap32(adjustment + adjustQueue) < MINADJUST {
        adjustQueue := Wrap32(adjustQueue + adjustment);
        return true, 0;
      }
      if adjustment == 0 && adjustQueue == 0 {
        return true, 0;
      }
      amount := Wrap32(adjustment + adjustQueue);
      adjustQueue, adjustPending, adjustState := 0, amount, Created;
      deferred := false;
    }

    /** The pending adjustment is sent, and the window grows by `amount`. */
    method SendPending(amount: u32) returns (rc: int)
      requires ReceiveLedger() && Outgoing() && adjustState.Created?
      modifies this`adjustQueue, this`adjustState, this`remoteWindow, this`sent, this`exact, this`adjusts
      ensures ReceiveLedger() && Outgoing() && adjusts == old(adjusts) + [AnswerOf(rc)]
      ensures rc == 0 || rc == ERROR_EAGAIN || rc == ERROR_SOCKET_SEND
      ensures rc == 0 ==> && sent == old(sent) + [WindowAdjust(adjustPending)] && adjustState.Idle?
                          && remoteWindow == Wrap32(old(remoteWindow) + amount) && adjustQueue == old(adjustQueue)
                          && exact == (old(exact) && amount == adjustPending)
      ensures rc != 0 ==> sent == old(sent) && remoteWindow == old(remoteWindow) && adjustState.Created?
      ensures rc == ERROR_EAGAIN ==> adjustQueue == old(adjustQueue) && exact == old(exact)
      ensures rc == ERROR_SOCKET_SEND ==> adjustQueue == amount && !exact
    {
      hide WindowOk, Congruent, Wrap32, Total, Outgoing;
      GrowthIsCredit(windowInitial, remoteWindow, consumed, Total(Credit, sent), amount, adjustPending);
      rc := SendAdjust(adjustPending);
      if rc == ERROR_EAGAIN {
        return;
      } else if rc != 0 {
        adjustQueue := amount;
        exact := false;
        return ERROR_SOCKET_SEND;
      }
      remoteWindow := Wrap32(remoteWindow + amount);
      exact := exact && amount == adjustPending;
      adjustState := Idle;
    }

    /** The queued bytes that the next adjustment takes along: none if it is a retry. */
    function TakenAlong(): u32
      reads this`adjustState, this`adjustQueue
    {
      if adjustState.Idle? then adjustQueue else 0
    }

    /** A read of this size can go on without an adjustment, or has room in 32 bits for it. */
    predicate Spacious(bufLen: nat)
      reads this`adjustState, this`readState, this`remoteWindow, this`adjustQueue
    {
      || (readState.Idle? && remoteWindow >= windowInitial / 4 * 3 + bufLen)
      || RoomToWiden(windowInitial + bufLen, windowInitial / 4 * 3 + bufLen, remoteWindow, TakenAlong())
    }

    /** Whether a read adjusts the window first. */
    predicate Narrow(bufLen: nat)
      reads this`readState, this`remoteWindow
    {
      readState.Jump1? || remoteWindow < Wrap32(windowInitial / 4 * 3 + bufLen)
    }

    /** What a read asks to have added to the window. */
    function Lack(bufLen: nat): u32
      reads this`remoteWindow
    {
      Lacking(windowInitial, bufLen, remoteWindow)
    }

    /** Whether a read has an adjustment sent: not if it can be queued. */
    predicate Adjusts(bufLen: nat)
      reads this`readState, this`remoteWindow, this`adjustQueue, this`adjustState
    {
      Narrow(bufLen) && !Deferred(Lack(bufLen), false)
    }

    /** The receive window once a read has adjusted it. */
    function AfterExpand(bufLen: nat): u32
      reads this`readState, this`remoteWindow, this`adjustState, this`adjustQueue
    {
      if Narrow(bufLen) then
        Widened(remoteWindow, Lack(bufLen), TakenAlong(), adjustState.Created?)
      else remoteWindow
    }

    /** The initial window and the buffer fit 32 bits, and there is room for what is added to the window. */
    predicate KeepsWide(bufLen: nat)
      reads this`adjustState, this`readState, this`remoteWindow, this`adjustQueue
    {
      windowInitial + bufLen < TWO32 && Spacious(bufLen)
    }

    /** The books after that. They stay exact unless the adjustment fails, or is retried with another
        amount than the one pending. */
    twostate predicate Adjusted(bufLen: nat, answer: Answer)
      reads this`adjusts, this`requested, this`exact
    {
      && adjusts == old(adjusts) + (if old(Adjusts(bufLen)) then [answer] else [])
      && requested == old(requested) + (if old(Narrow(bufLen) && adjustState.Idle?) then old(Lack(bufLen)) else 0)
      && match answer
         case Done => exact == (old(exact) && (old(Narrow(bufLen) && adjustState.Created?) ==> old(Lack(bufLen) == adjustPending)))
         case PutOff => exact == old(exact)
         case Broken => !exact
    }

    /** The first part of `_libssh2_channel_read`: the window is widened when it has become too
        narrow for the buffer. The sums are those of `uint32_t`. */
    method ExpandWindow(bufLen: nat) returns (rc: int)
      requires Sound() && bufLen < TWO32
      modifies this`adjustQueue, this`adjustState, this`adjustPending, this`remoteWindow, this`sent, this`requested,
               this`exact, this`readState, this`adjusts
      ensures Sound() && (rc == 0 || rc == ERROR_EAGAIN || rc == ERROR_SOCKET_SEND)
      ensures rc == 0 ==> readState.Idle?
      ensures rc == 0 ==> remoteWindow == old(AfterExpand(bufLen))
      ensures rc == 0 && old(KeepsWide(bufLen)) ==> remoteWindow >= windowInitial / 4 * 3 + bufLen
      ensures rc != 0 ==> readState.Jump1? && remoteWindow == old(remoteWindow) && adjustState.Created?
      ensures Adjusted(bufLen, AnswerOf(rc))
      ensures Smooth(adjusts) <==> old(Smooth(adjusts)) && !adjustState.Created?
    {
      hide Sound, Wrap32, RoomToWiden, Deferred, Lacking, Smooth;
      SoundStates(this);
      if KeepsWide(bufLen) {
        WideAfterExpand(this, bufLen);
      }
      rc := 0;
      if readState.Jump1? || remoteWindow < Wrap32(windowInitial / 4 * 3 + bufLen) {
        rc := Expand(bufLen);
      }
    }

    /** It is: what it lacks, or the smallest adjustment, is asked for. */
    method Expand(bufLen: nat) returns (rc: int)
      requires Sound() && Narrow(bufLen)
      modifies this`adjustQueue, this`adjustState, this`adjustPending, this`remoteWindow, this`sent, this`requested,
               this`exact, this`readState, this`adjusts
      ensures Sound() && (rc == 0 || rc == ERROR_EAGAIN || rc == ERROR_SOCKET_SEND)
      ensures if rc == 0 then readState.Idle? && remoteWindow == old(AfterExpand(bufLen))
              else readState.Jump1? && remoteWindow == old(remoteWindow) && adjustState.Created?
      ensures Adjusted(bufLen, AnswerOf(rc))
      ensures Smooth(adjusts) <==> old(Smooth(adjusts)) && !adjustState.Created?
    {
      hide Sound, Wrap32, Smooth;
      SoundStates(this);
      var adjustment := Wrap32(windowInitial + bufLen - remoteWindow);
      if adjustment < MINADJUST {
        adjustment := MINADJUST;
      }
      SetRead(Jump1);
      rc := AdjustAndStay(adjustment, false);
      if rc == 0 {
        SetRead(Idle);
      }
    }

    /** An adjustment that no flush asks for: the flush law is kept as well. */
    method AdjustAndStay(adjustment: u32, force: bool) returns (rc: int)
      requires Sound()
      modifies this`adjustQueue, this`adjustState, this`adjustPending, this`remoteWindow, this`sent, this`requested,
               this`exact, this`adjusts
      ensures Sound() && (rc == 0 || rc == ERROR_EAGAIN || rc == ERROR_SOCKET_SEND)
      ensures requested == old(requested) + (if old(adjustState.Idle?) then adjustment else 0)
      ensures adjusts == old(adjusts) + (if old(Deferred(adjustment, force)) then [] else [AnswerOf(rc)])
      ensures if rc == 0 then adjustState.Idle? else adjustState.Created? && remoteWindow == old(remoteWindow)
      ensures rc == 0 ==> remoteWindow == if old(Deferred(adjustment, force)) then old(remoteWindow)
                                          else Wrap32(old(remoteWindow) + old(Growth(adjustment)))
      ensures rc == 0 ==> exact == (old(exact) && old(Deferred(adjustment, force) || Growth(adjustment) == Amount(adjustment)))
      ensures rc == ERROR_EAGAIN ==> exact == old(exact)
      ensures rc == ERROR_SOCKET_SEND ==> !exact
      ensures Smooth(adjusts) <==> old(Smooth(adjusts)) && !adjustState.Created?
    {
      hide Adjustable, Wrap32, Deferred;
      SmoothStep(adjusts, PutOff);
      SmoothStep(adjusts, Broken);
      SmoothStep(adjusts, Done);
      rc := ReceiveWindowAdjust(adjustment, force);
    }

    method SetRead(state: State)
      requires Sound() && (state.Idle? || state.Jump1?)
      modifies this`readState
      ensures Sound() && readState == state
    {
      hide Outgoing, ReceiveLedger;
      readState := state;
    }

    /** Bytes that were read leave the receive window. */
    method Consume(n: nat)
      requires Sound()
      modifies this`remoteWindow, this`consumed
      ensures Sound() && remoteWindow == Wrap32(old(remoteWindow) - n) && consumed == old(consumed) + n
      ensures n <= old(remoteWindow) ==> remoteWindow == old(remoteWindow) - n
    {
      hide WindowOk, QueueOk, Total, Wrap32, Outgoing;
      if n <= remoteWindow {
        WrapSmall(remoteWindow - n);
      }
      ConsumptionKeeps(windowInitial, remoteWindow, consumed, Total(Credit, sent), n);
      remoteWindow := Wrap32(remoteWindow - n);
      consumed := consumed + n;
    }

    /** `remote.window_size -= flush_flush_bytes`, the first time and again on a retry. */
    method TakeFlushedOff(flushed: nat, retry: bool)
      requires Adjustable() && flushBytes == Wrap32(flushed) && (retry ==> !Smooth(adjusts))
      modifies this`remoteWindow, this`consumed, this`exact
      ensures Adjustable() && remoteWindow == Wrap32(old(remoteWindow) - flushBytes)
      ensures consumed == old(consumed) + (if retry then 0 else flushed)
      ensures exact == (old(exact) && (retry ==> flushBytes == 0))
    {
      hide WindowOk, QueueOk, Total, Wrap32, Outgoing, Smooth;
      WrapDifference(remoteWindow, flushed);
      ConsumptionKeeps(windowInitial, remoteWindow, consumed, Total(Credit, sent), flushed);
      WrapSmall(remoteWindow);
      remoteWindow := Wrap32(remoteWindow - flushBytes);
      if retry {
        exact := exact && flushBytes == 0;
      } else {
        consumed := consumed + flushed;
      }
    }

    /** The end of a flush: nothing was to be refunded, or the transport layer has answered, and a retry
        may have let the window grow by another amount than it sent. `wasExact` tells whether the books
        were exact before. */
    ghost predicate Refunded(was: seq<Answer>, state: State, pending: u32, asked: nat, wasExact: bool)
      reads this`flushState, this`flushRefund, this`adjustState, this`adjusts, this`requested, this`exact
    {
      if flushRefund == 0 then adjusts == was && requested == asked && exact == wasExact && adjustState == state && flushState.Idle?
      else
        && requested == asked + (if state.Idle? then flushRefund else 0)
        && if adjustState.Idle? then
             adjusts == was + [Done] && exact == (wasExact && (state.Idle? || flushRefund == pending)) && flushState.Idle?
           else if flushState.Created? then adjusts == was + [PutOff] && exact == wasExact
           else adjusts == was + [Broken] && !exact
    }

    /** Bytes were flushed: they are taken off the window, and what they need back is asked for. */
    method Flushed(flushed: nat, refund: int) returns (rc: int)
      requires Sound() && flushState.Idle?
      modifies this`flushState, this`flushRefund, this`flushBytes, this`remoteWindow, this`consumed,
               this`adjustQueue, this`adjustState, this`adjustPending, this`sent, this`requested, this`exact, this`adjusts,
               this`flushesHeld
      ensures Sound() && flushBytes == Wrap32(flushed) && flushRefund == Wrap32(refund)
      ensures consumed == old(consumed) + flushed
      ensures flushesHeld == old(flushesHeld) + (if flushState.Created? then 1 else 0)
      ensures if flushState.Created? then rc == ERROR_EAGAIN else flushState.Idle? && rc == AsInt(flushBytes)
      ensures Refunded(old(adjusts), old(adjustState), old(adjustPending), old(requested), old(exact))
      ensures Smooth(adjusts) <==> old(Smooth(adjusts)) && !adjustState.Created?
    {
      hide Wrap32, Adjustable, Smooth, Refunded;
      NoteFlush(flushed, refund);
      TakeFlushedOff(flushed, false);
      rc := Refund();
    }

    method NoteFlush(flushed: nat, refund: int)
      requires Adjustable()
      modifies this`flushState, this`flushRefund, this`flushBytes
      ensures Adjustable() && flushState.Created? && flushBytes == Wrap32(flushed) && flushRefund == Wrap32(refund)
    {
      hide Wrap32, Outgoing, ReceiveLedger, AdjustLaw;
      flushRefund, flushBytes, flushState := Wrap32(refund), Wrap32(flushed), Created;
    }

    /** The same when the flush is called again: the bytes are taken off once more. */
    method FlushedAgain() returns (rc: int)
      requires Sound() && flushState.Created?
      modifies this`flushState, this`remoteWindow, this`consumed,
               this`adjustQueue, this`adjustState, this`adjustPending, this`sent, this`requested, this`exact, this`adjusts,
               this`flushesHeld
      ensures Sound() && consumed == old(consumed)
      ensures flushesHeld == old(flushesHeld) + (if flushState.Created? then 1 else 0)
      ensures if flushState.Created? then rc == ERROR_EAGAIN else flushState.Idle? && rc == AsInt(flushBytes)
      ensures Refunded(old(adjusts), old(adjustState), old(adjustPending), old(requested), old(exact) && flushBytes == 0)
      ensures Smooth(adjusts) <==> old(Smooth(adjusts)) && !adjustState.Created?
    {
      hide Wrap32, Adjustable, Smooth, Refunded;
      WrapSmall(flushBytes);
      TakeFlushedOff(flushBytes, true);
      rc := Refund();
    }

    method Refund() returns (rc: int)
      requires Adjustable() && flushState.Created? && (Smooth(adjusts) ==> flushesHeld == 0) && (flushesHeld == 0 ==> !skewed)
      modifies this`flushState, this`adjustQueue, this`adjustState, this`adjustPending, this`remoteWindow, this`sent,
               this`requested, this`exact, this`adjusts, this`flushesHeld
      ensures Sound()
      ensures flushesHeld == old(flushesHeld) + (if flushState.Created? then 1 else 0)
      ensures if flushState.Created? then rc == ERROR_EAGAIN else flushState.Idle? && rc == AsInt(flushBytes)
      ensures Refunded(old(adjusts), old(adjustState), old(adjustPending), old(requested), old(exact))
      ensures Smooth(adjusts) <==> old(Smooth(adjusts)) && !adjustState.Created?
    {
      hide Adjustable, Smooth;
      AdjustStates();
      if flushRefund != 0 {
        rc := AskBack();
        if rc == ERROR_EAGAIN {
          flushesHeld := flushesHeld + 1;
          return;
        }
      }
      FlushOver();
      rc := AsInt(flushBytes);
    }

    method AskBack() returns (rc: int)
      requires Adjustable() && flushRefund != 0
      modifies this`adjustQueue, this`adjustState, this`adjustPending, this`remoteWindow, this`sent,
               this`requested, this`exact, this`adjusts
      ensures Adjustable() && requested == old(requested) + (if old(adjustState.Idle?) then flushRefund else 0)
      ensures rc == 0 || rc == ERROR_EAGAIN || rc == ERROR_SOCKET_SEND
      ensures adjusts == old(adjusts) + [AnswerOf(rc)] && (Smooth(adjusts) <==> old(Smooth(adjusts)) && rc == 0)
      ensures if rc == 0 then adjustState.Idle? && exact == (old(exact) && old(adjustState.Idle? || flushRefund == adjustPending))
              else adjustState.Created? && exact == (old(exact) && rc == ERROR_EAGAIN)
    {
      hide Wrap32, Adjustable;
      SmoothStep(adjusts, PutOff);
      SmoothStep(adjusts, Broken);
      SmoothStep(adjusts, Done);
      AdjustStates();
      rc := ReceiveWindowAdjust(flushRefund, true);
    }

    lemma AdjustStates()
      requires Adjustable()
      ensures (adjustState.Idle? || adjustState.Created?) && AdjustLaw()
    {
    }

    method FlushOver()
      requires Adjustable()
      modifies this`flushState
      ensures Adjustable() && flushState.Idle?
    {
      hide Outgoing, ReceiveLedger, AdjustLaw;
      flushState := Idle;
    }

    /** The steps of a close that send nothing. */
    method Closing()
      requires Sound() && closeState.Idle?
      modifies this`closeState
      ensures Sound() && closeState.Created?
    {
      hide Orderly, SendLedger, SizesKept, ReceiveLedger, Total;
      closeState := Created;
    }

    method Closed()
      requires Sound()
      modifies this`closeState, this`localClose
      ensures Sound() && closeState.Idle? && localClose
    {
      hide Orderly, SendLedger, SizesKept, ReceiveLedger, Total;
      OrderlyMoves(sent, processState, ClosingOf(localClose, closeState), envState, envBase, ptyState, ptyBase);
      closeState, localClose := Idle, true;
    }

    method Idled()
      requires Sound() && localClose
      modifies this`closeState
      ensures Sound() && closeState.Idle?
    {
      hide Orderly, SendLedger, SizesKept, ReceiveLedger, Total;
      OrderlyMoves(sent, processState, ClosingOf(localClose, closeState), envState, envBase, ptyState, ptyBase);
      closeState := Idle;
    }
  }

  /** What a read finds of the window is at least three quarters of the initial one and the buffer if there
      is room for it, and only then. */
  lemma WideAfterExpand(c: Channel, bufLen: nat)
    requires c.windowInitial + bufLen < TWO32 && c.States()
    ensures c.AfterExpand(bufLen) >= c.windowInitial / 4 * 3 + bufLen <==> c.Spacious(bufLen)
  {
    hide Wrap32, RoomToWiden, Widened, Lacking;
    WrapSmall(c.windowInitial / 4 * 3 + bufLen);
    WideEnoughExactly(c.windowInitial, bufLen, c.remoteWindow, c.TakenAlong(), c.adjustState.Created?);
  }

  /** An adjustment of 2000 bytes takes 500 along that are queued, and is put off. When it is asked for
      again, 2500 bytes are granted on the wire, but the window grows by 2000: the books are out. */
  method RetriedAdjust(c: Channel) returns (first: int, second: int)
    requires c.Adjustable() && c.exact && c.adjustState.Idle? && c.adjustQueue == 500
    modifies c`adjustQueue, c`adjustState, c`adjustPending, c`remoteWindow, c`sent, c`requested, c`exact, c`adjusts
    ensures first == ERROR_EAGAIN && second == 0 ==>
              && c.sent == old(c.sent) + [WindowAdjust(2500)] && c.remoteWindow == Wrap32(old(c.remoteWindow) + 2000)
              && c.adjustQueue == 0 && !WindowOk(c.windowInitial, c.remoteWindow, c.consumed, Total(Credit, c.sent))
  {
    hide Channel.Adjustable, Wrap32, Total, WindowOk;
    assert Wrap32(2500) == 2500 by {
      WrapSmall(2500);
    }
    TotalStep(Credit, c.sent, WindowAdjust(2500));
    assert WindowOk(c.windowInitial, c.remoteWindow, c.consumed, Total(Credit, c.sent)) by {
      BooksHold(c);
    }
    GrowthIsCredit(c.windowInitial, c.remoteWindow, c.consumed, Total(Credit, c.sent), 2000, 2500);
    first := c.ReceiveWindowAdjust(2000, false);
    second := c.ReceiveWindowAdjust(2000, false);
  }

  lemma BooksHold(c: Channel)
    requires c.Adjustable() && c.exact
    ensures WindowOk(c.windowInitial, c.remoteWindow, c.consumed, Total(Credit, c.sent))
  {
  }

  lemma SoundStates(c: Channel)
    requires c.Sound()
    ensures c.States() && c.AdjustLaw() && c.FlushLaw()
  {
  }

  /** While nothing went wrong with an adjustment, what is open, queued and consumed is what was
      granted at first and asked for since. */
  lemma WindowConserved(c: Channel)
    requires c.ReceiveLedger() && c.exact && !c.adjustState.Created?
    ensures Wrap32(c.remoteWindow + c.adjustQueue + c.consumed) == Wrap32(c.windowInitial + c.requested)
    ensures Wrap32(c.remoteWindow + c.consumed) == Wrap32(c.windowInitial + Total(Credit, c.sent))
  {
    hide Wrap32, Total;
    var credit := Total(Credit, c.sent);
    CongruentAdd(c.remoteWindow + c.consumed, c.windowInitial + credit, c.adjustQueue, c.adjustQueue);
    CongruentAdd(credit + c.adjustQueue, c.requested, c.windowInitial, c.windowInitial);
  }
}
