/** The KEXINIT packet: its canonical form, its parser and the parts of its writer
    (section 7.1 of RFC 4253). */
module KexInit {
  import opened Bytes
  import opened NameLists
  import opened MethodPref

  const SSH_MSG_KEXINIT: byte := 20

  /** What `_libssh2_transport_send` does with a packet. */
  datatype SendResult = Sent | WouldBlock | SendFailed(rc: int)

  /** The fields of a KEXINIT packet, in packet order. */
  const FIELDS: seq<MethodType> :=
    [Kex, HostKey, CryptCS, CryptSC, MacCS, MacSC, CompCS, CompSC, LangCS, LangSC]

  /** The fields that methods are agreed from. */
  const AGREED_FIELDS: seq<MethodType> :=
    [Kex, HostKey, CryptCS, CryptSC, MacCS, MacSC, CompCS, CompSC]

  /** The canonical packet of section 7.1: type, cookie, ten name-lists,
      `first_kex_packet_follows`, reserved zero. */
  function KexInitPacket(cookie: seq<byte>, lists: seq<seq<byte>>, follows: byte): seq<byte> {
    [SSH_MSG_KEXINIT] + cookie + Strs(lists) + [follows] + U32(0)
  }

  /** `n` strings read one after another from position `at`, and the position behind them. */
  function GetStrings(data: seq<byte>, at: nat, n: nat): (r: Option<(seq<seq<byte>>, nat)>)
    requires at <= |data|
    ensures r.Some? ==> |r.value.0| == n && r.value.1 <= |data|
    decreases n
  {
    if n == 0 then Some(([], at))
    else match GetString(data, at)
      case None => None
      case Some((s, next)) =>
        match GetStrings(data, next, n - 1)
        case None => None
        case Some((rest, end)) => Some(([s] + rest, end))
  }

  /** What `kex_agree_methods` takes from a KEXINIT packet: eight name-lists, and the byte
      behind them as the flag that a guessed packet follows. */
  function ParseKexInit(data: seq<byte>): Option<(seq<seq<byte>>, byte)> {
    if |data| < 17 then None
    else match GetStrings(data, 17, |AGREED_FIELDS|)
      case None => None
      case Some((lists, at)) => if at + 1 <= |data| then Some((lists, data[at])) else None
  }

  /** Where a string of the packet lies. */
  datatype Span = Span(at: nat, len: nat)

  ghost predicate Covers(span: Span, data: seq<byte>, text: seq<byte>, end: nat) {
    span.at + span.len <= end <= |data| && text == data[span.at..span.at + span.len]
  }

  ghost predicate AllCovered(spans: seq<Span>, data: seq<byte>, texts: seq<seq<byte>>, end: nat) {
    |spans| == |texts| && forall i :: 0 <= i < |spans| ==> Covers(spans[i], data, texts[i], end)
  }

  lemma AllCoveredSnoc(spans: seq<Span>, data: seq<byte>, texts: seq<seq<byte>>, end: nat,
                       text: seq<byte>, next: nat)
    requires AllCovered(spans, data, texts, end) && end + 4 <= next <= |data| && text == data[end + 4..next]
    ensures AllCovered(spans + [Span(end + 4, |text|)], data, texts + [text], next)
  {
  }

  /** The eight `_libssh2_get_string` calls of `kex_agree_methods`, and the check that a byte
      is left behind them. */
  method LocateStrings(data: seq<byte>) returns (spans: seq<Span>, at: nat, ok: bool)
    requires 17 <= |data|
    ensures ok <==> ParseKexInit(data).Some?
    ensures ok ==> at < |data| && ParseKexInit(data).value.1 == data[at]
                   && AllCovered(spans, data, ParseKexInit(data).value.0, at)
  {
    spans, at := [], 17;
    ghost var got: seq<seq<byte>> := [];
    ghost var whole := GetStrings(data, 17, |AGREED_FIELDS|);
    assert whole.Some? ==> [] + whole.value.0 == whole.value.0;
    assert Resumed(whole, got, whole);
    for i := 0 to |AGREED_FIELDS|
      invariant |got| == i && at <= |data| && AllCovered(spans, data, got, at)
      invariant Resumed(whole, got, GetStrings(data, at, |AGREED_FIELDS| - i))
    {
      var next := GetString(data, at);
      ResumedStep(data, at, |AGREED_FIELDS| - i, whole, got);
      hide GetStrings, AllCovered, U32At;
      if next.None? {
        return spans, at, false;
      }
      AllCoveredSnoc(spans, data, got, at, next.value.0, next.value.1);
      got := got + [next.value.0];
      spans := spans + [Span(at + 4, |next.value.0|)];
      at := next.value.1;
    }
    assert got + [] == got;
    return spans, at, at + 1 <= |data|;
  }

  lemma ResumedStep(data: seq<byte>, at: nat, n: nat, whole: Option<(seq<seq<byte>>, nat)>, got: seq<seq<byte>>)
    requires at <= |data| && n > 0 && Resumed(whole, got, GetStrings(data, at, n))
    ensures match GetString(data, at)
            case Some((s, next)) => Resumed(whole, got + [s], GetStrings(data, next, n - 1))
            case None => whole == None
  {
    hide U32At;
    match GetString(data, at)
    case Some((s, next)) =>
      if GetStrings(data, next, n - 1).Some? {
        Assoc(got, [s], GetStrings(data, next, n - 1).value.0);
      }
    case None =>
  }

  /** Reading everything is having read `got` and reading the rest. */
  ghost predicate Resumed(whole: Option<(seq<seq<byte>>, nat)>, got: seq<seq<byte>>,
                          rest: Option<(seq<seq<byte>>, nat)>) {
    match rest
    case Some((strings, end)) => whole == Some((got + strings, end))
    case None => whole == None
  }

  lemma {:induction false} GetStringsHeld(data: seq<byte>, at: nat, xs: seq<seq<byte>>)
    requires Representable(xs) && Holds(data, at, Strs(xs))
    ensures GetStrings(data, at, |xs|) == Some((xs, at + |Strs(xs)|))
    decreases |xs|
  {
    if xs == [] {
      return;
    }
    var x, rest := xs[0], xs[1..];
    var next, end := at + |Str(x)|, at + |Strs(xs)|;
    HoldsBoth(data, at, Str(x), Strs(rest));
    GetStringHeld(data, at, x);
    assert next + |Strs(rest)| == end;
    hide Strs, Str, GetStrings, GetString;
    GetStringsHeld(data, next, rest);
    GetStringsStep(data, at, x, next, rest, end);
    assert xs == [x] + rest;
  }

  lemma GetStringsStep(data: seq<byte>, at: nat, x: seq<byte>, next: nat, rest: seq<seq<byte>>, end: nat)
    requires at <= |data| && next <= |data| && GetString(data, at) == Some((x, next))
    requires GetStrings(data, next, |rest|) == Some((rest, end))
    ensures GetStrings(data, at, |rest| + 1) == Some(([x] + rest, end))
  {
    hide GetString;
  }

  /** Reading a packet gives the first eight of the lists it was built from. What is taken for
      the `first_kex_packet_follows` flag is not that flag: it is the top length byte of the
      ninth list, which is nonzero only for a language list of 16 MiB or more. */
  lemma ParseOfPacket(cookie: seq<byte>, lists: seq<seq<byte>>, follows: byte)
    requires |cookie| == 16 && |lists| == |FIELDS| && Representable(lists)
    ensures ParseKexInit(KexInitPacket(cookie, lists, follows)) == Some((lists[..8], |lists[8]| / 0x100_0000))
  {
    var data := KexInitPacket(cookie, lists, follows);
    var front, ninth, tenth := lists[..8], lists[8], lists[9];
    var end := 17 + |Strs(front)|;
    PacketHoldsLists(cookie, lists, follows);
    StrsOfTen(lists);
    HoldsBoth(data, 17, Strs(front), Str(ninth) + Str(tenth));
    HoldsBoth(data, end, Str(ninth), Str(tenth));
    GetStringsHeld(data, 17, front);
    TopLengthByte(data, end, ninth);
    hide Strs, Str, U32, KexInitPacket, GetStrings, Holds;
  }

  lemma TopLengthByte(data: seq<byte>, at: nat, s: seq<byte>)
    requires |s| < TWO32 && Holds(data, at, Str(s))
    ensures data[at] == |s| / 0x100_0000
  {
    assert data[at] == data[at..at + |Str(s)|][0] == |s| / 0x100 / 0x100 / 0x100;
  }

  lemma StrsOfTen(lists: seq<seq<byte>>)
    requires |lists| == 10
    ensures Strs(lists) == Strs(lists[..8]) + (Str(lists[8]) + Str(lists[9]))
  {
    StrsAppend(lists[..8], lists[8..]);
    assert lists == lists[..8] + lists[8..] && lists[8..] == [lists[8], lists[9]];
    assert Strs([lists[9]]) == Str(lists[9]) + Strs([]);
    hide Str;
  }

  lemma PacketHoldsLists(cookie: seq<byte>, lists: seq<seq<byte>>, follows: byte)
    requires |cookie| == 16
    ensures Holds(KexInitPacket(cookie, lists, follows), 17, Strs(lists))
  {
    hide Strs, U32;
  }

  /** The flag is read as set exactly when the ninth list has 16 MiB or more, so it is read right exactly
      when its being set and that coincide. */
  lemma FollowsFlagExactly(cookie: seq<byte>, lists: seq<seq<byte>>, follows: byte)
    requires |cookie| == 16 && |lists| == |FIELDS| && Representable(lists)
    ensures var r := ParseKexInit(KexInitPacket(cookie, lists, follows));
            && r.Some? && (r.value.1 != 0 <==> |lists[8]| >= 0x100_0000)
            && ((r.value.1 != 0 <==> follows != 0) <==> (follows != 0 <==> |lists[8]| >= 0x100_0000))
  {
    hide ParseKexInit, KexInitPacket;
    ParseOfPacket(cookie, lists, follows);
  }

  /** A server that announces a guessed packet is read as not announcing one. */
  lemma FollowsFlagIsMissed(cookie: seq<byte>, lists: seq<seq<byte>>)
    requires |cookie| == 16 && |lists| == |FIELDS| && Representable(lists) && lists[8] == []
    ensures ParseKexInit(KexInitPacket(cookie, lists, 1)) == Some((lists[..8], 0))
  {
    ParseOfPacket(cookie, lists, 1);
  }

  /** `kex_method_strlen` */
  method MethodStrLen(table: seq<Method>) returns (len: nat)
    ensures len == |Join(Names(table))|
  {
    if table == [] {
      return 0;
    }
    ghost var names := Names(table);
    var k, sum := 0, 0;
    while k < |table|
      invariant k <= |table|
      invariant sum == |Terminated(names[..k])|
    {
      sum := sum + |table[k].name| + 1;
      TerminatedAppend(names[..k], names[k]);
      assert names[..k + 1] == names[..k] + [names[k]];
      k := k + 1;
    }
    assert names[..k] == names;
    TerminatedIsJoin(names);
    return sum - 1;
  }

  method StoreName(buf: array<byte>, b: nat, name: Name) returns (b': nat)
    requires b + |name| < buf.Length
    modifies buf
    ensures b' == b + |name| + 1 && buf[..b'] == old(buf[..b]) + name + [COMMA]
  {
    Copy(buf, b, name);
    Copy(buf, b + |name|, [COMMA]);
    return b + |name| + 1;
  }

  /** `kex_method_list`: writes the length and the names. A comma is written behind every name,
      so one byte more than the field is touched; what the caller writes next covers it. */
  method MethodList(buf: array<byte>, s: nat, listLen: nat, table: seq<Method>) returns (n: nat)
    requires listLen == |Join(Names(table))| && s + 4 + listLen < buf.Length
    modifies buf
    ensures n == 4 + listLen && buf[..s + n] == old(buf[..s]) + Str(Join(Names(table)))
  {
    hide U32;
    Copy(buf, s, U32(Wrap32(listLen)));
    ghost var head := buf[..s + 4];
    if table == [] {
      return 4;
    }
    ghost var names := Names(table);
    assert names[..|table|] == names;
    TerminatedIsJoin(names);
    assert names[..0] == [] && head + [] == head;
    hide Join;
    var b, k := s + 4, 0;
    while k < |table|
      invariant k <= |table| && b == s + 4 + |Terminated(names[..k])| <= buf.Length
      invariant buf[..b] == head + Terminated(names[..k])
    {
      TerminatedAppend(names[..k], names[k]);
      assert names[..k + 1] == names[..k] + [names[k]];
      TerminatedPrefix(names, k + 1);
      b := StoreName(buf, b, table[k].name);
      Assoc(head, Terminated(names[..k]), names[k]);
      Assoc(head, Terminated(names[..k]) + names[k], [COMMA]);
      k := k + 1;
    }
    assert buf[..s + 4 + listLen] == buf[..b][..s + 4 + listLen];
    return 4 + listLen;
  }

  lemma {:induction false} TerminatedPrefix(ts: seq<Name>, k: nat)
    requires k <= |ts|
    ensures |Terminated(ts[..k])| <= |Terminated(ts)|
    decreases k
  {
    if k > 0 {
      assert ts[..k][1..] == ts[1..][..k - 1];
      TerminatedPrefix(ts[1..], k - 1);
    }
  }
}
