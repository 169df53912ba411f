/** Bytes, 32-bit words and the length-prefixed strings of section 5 of RFC 4251. */
module Bytes {

  const TWO32 := 0x1_0000_0000

  type byte = x: int | 0 <= x < 0x100
  type u32 = x: int | 0 <= x < TWO32

  datatype Option<+T> = None | Some(value: T)

  /** The value a C `uint32_t` holds after an arithmetic result is stored in it. */
  function Wrap32(x: int): u32 {
    x % TWO32
  }

  /** `memcpy` to a place in a buffer. */
  method Copy<T>(buf: array<T>, at: nat, items: seq<T>)
    requires at + |items| <= buf.Length
    modifies buf
    ensures buf[..] == old(buf[..at]) + items + old(buf[at + |items|..])
    ensures buf[..at + |items|] == old(buf[..at]) + items
  {
    for k := 0 to |items|
      invariant forall j :: at <= j < at + k ==> buf[j] == items[j - at]
      invariant forall j :: 0 <= j < buf.Length && !(at <= j < at + k) ==> buf[j] == old(buf[j])
    {
      buf[at + k] := items[k];
    }
  }

  /** Big-endian four bytes, as `_libssh2_htonu32` stores them. */
  function U32(x: u32): (s: seq<byte>)
    ensures |s| == 4
  {
    var x1: int := x / 0x100;
    var x2 := x1 / 0x100;
    [x2 / 0x100, x2 % 0x100, x1 % 0x100, x % 0x100]
  }

  /** `_libssh2_ntohu32` applied at offset `at`. */
  function U32At(s: seq<byte>, at: nat): u32
    requires at + 4 <= |s|
  {
    var b0: int, b1: int, b2: int, b3: int := s[at], s[at + 1], s[at + 2], s[at + 3];
    ((b0 * 0x100 + b1) * 0x100 + b2) * 0x100 + b3
  }

  /** `part` stands in `data` from position `at` on. */
  ghost predicate Holds(data: seq<byte>, at: nat, part: seq<byte>) {
    at + |part| <= |data| && data[at..at + |part|] == part
  }

  /** Holding a concatenation is holding its parts one behind the other. */
  lemma HoldsBoth(data: seq<byte>, at: nat, a: seq<byte>, b: seq<byte>)
    ensures Holds(data, at, a + b) <==> Holds(data, at, a) && Holds(data, at + |a|, b)
  {
    if Holds(data, at, a + b) {
      assert data[at..at + |a|] == data[at..at + |a + b|][..|a|];
      assert data[at + |a|..at + |a| + |b|] == data[at..at + |a + b|][|a|..];
    }
    if Holds(data, at, a) && Holds(data, at + |a|, b) {
      assert data[at..at + |a + b|] == data[at..at + |a|] + data[at + |a|..at + |a| + |b|];
    }
  }

  lemma U32Held(data: seq<byte>, at: nat, x: u32)
    requires Holds(data, at, U32(x))
    ensures U32At(data, at) == x
  {
    var s := data[at..at + 4];
    assert s[0] == data[at] && s[1] == data[at + 1] && s[2] == data[at + 2] && s[3] == data[at + 3];
  }

  /** An SSH string: its length, then its bytes, as `_libssh2_store_str` writes it. */
  function Str(s: seq<byte>): (r: seq<byte>)
    ensures |r| == 4 + |s|
  {
    U32(Wrap32(|s|)) + s
  }

  lemma Assoc<T>(a: seq<T>, b: seq<T>, c: seq<T>)
    ensures a + (b + c) == a + b + c
  {
  }

  lemma HeadOfConcat<T>(xs: seq<T>, ys: seq<T>)
    requires xs != []
    ensures (xs + ys)[0] == xs[0] && (xs + ys)[1..] == xs[1..] + ys
  {
  }

  /** The strings of a packet, one after another. */
  function Strs(xs: seq<seq<byte>>): seq<byte> {
    if xs == [] then [] else Str(xs[0]) + Strs(xs[1..])
  }

  lemma {:induction false} StrsAppend(xs: seq<seq<byte>>, ys: seq<seq<byte>>)
    ensures Strs(xs + ys) == Strs(xs) + Strs(ys)
  {
    if xs == [] {
      assert xs + ys == ys;
    } else {
      StrsAppend(xs[1..], ys);
      HeadOfConcat(xs, ys);
      Assoc(Str(xs[0]), Strs(xs[1..]), Strs(ys));
    }
  }

  ghost predicate Representable(xs: seq<seq<byte>>) {
    forall i :: 0 <= i < |xs| ==> |xs[i]| < TWO32
  }

  /** `_libssh2_get_string` at `at`: the string and the position after it, or a failure
      when fewer bytes are left than the length field announces. */
  function GetString(data: seq<byte>, at: nat): (r: Option<(seq<byte>, nat)>)
    ensures r.Some? ==> at + 4 <= r.value.1 <= |data|
                        && r.value.0 == data[at + 4 .. r.value.1]
                        && U32At(data, at) == |r.value.0|
  {
    if at + 4 > |data| then None
    else
      var n := U32At(data, at);
      if at + 4 + n > |data| then None else Some((data[at + 4 .. at + 4 + n], at + 4 + n))
  }

  lemma GetStringHeld(data: seq<byte>, at: nat, s: seq<byte>)
    requires |s| < TWO32 && Holds(data, at, Str(s))
    ensures GetString(data, at) == Some((s, at + 4 + |s|))
  {
    hide U32, U32At;
    HoldsBoth(data, at, U32(|s|), s);
    U32Held(data, at, |s|);
  }

  lemma FirstStrInjective(x: seq<byte>, xs: seq<byte>, y: seq<byte>, ys: seq<byte>)
    requires |x| < TWO32 && |y| < TWO32
    requires Str(x) + xs == Str(y) + ys
    ensures x == y && xs == ys
  {
    var data := Str(x) + xs;
    assert data[0..|Str(x)|] == Str(x) && data[0..|Str(y)|] == Str(y);
    GetStringHeld(data, 0, x);
    GetStringHeld(data, 0, y);
    assert xs == (Str(x) + xs)[|Str(x)|..] && ys == (Str(y) + ys)[|Str(y)|..];
  }

  /** Two lists of strings with the same encoding are the same list: the encoding is
      uniquely decodable even when the number of strings is not known. */
  lemma {:induction false} StrsInjective(xs: seq<seq<byte>>, ys: seq<seq<byte>>)
    requires Representable(xs) && Representable(ys)
    requires Strs(xs) == Strs(ys)
    ensures xs == ys
  {
    if xs != [] && ys != [] {
      FirstStrInjective(xs[0], Strs(xs[1..]), ys[0], Strs(ys[1..]));
      StrsInjective(xs[1..], ys[1..]);
      assert xs == [xs[0]] + xs[1..] && ys == [ys[0]] + ys[1..];
    }
  }
}
