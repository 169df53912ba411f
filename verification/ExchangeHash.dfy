/** What is hashed for the exchange hash (section 8 of RFC 4253). */
module ExchangeHash {
  import opened Bytes
  import opened Mpint

  /** A running digest: the bytes it has been fed so far. */
  class HashCtx {
    var fed: seq<byte>

    constructor ()
      ensures fed == []
    {
      fed := [];
    }

    method Update(bytes: seq<byte>)
      modifies this
      ensures fed == old(fed) + bytes
    {
      fed := fed + bytes;
    }

    /** The length goes through the scratch buffer first, then the bytes follow. */
    method UpdateString(bytes: seq<byte>)
      modifies this
      ensures fed == old(fed) + Str(bytes)
    {
      Update(U32(Wrap32(|bytes|)));
      Update(bytes);
    }
  }

  /** The fields of one key exchange: identification strings, KEXINIT payloads, host key, both
      public values and the shared secret. */
  datatype Exchange<Public> = Exchange(vc: seq<byte>, vs: seq<byte>, ic: seq<byte>, is': seq<byte>,
                                       ks: seq<byte>, clientPublic: Public, serverPublic: seq<byte>, k: nat)

  /** Section 8 of RFC 4253: the client's value is sent as an mpint, the server's value is hashed
      as it was received. */
  function DhStrings(x: Exchange<nat>): (r: seq<seq<byte>>)
    ensures |r| == 8
  {
    [x.vc, x.vs, x.ic, x.is', x.ks, MpintBytes(x.clientPublic), x.serverPublic, MpintBytes(x.k)]
  }

  /** Section 4 of RFC 5656: both public keys are octet strings. */
  function EcStrings(x: Exchange<seq<byte>>): (r: seq<seq<byte>>)
    ensures |r| == 8
  {
    [x.vc, x.vs, x.ic, x.is', x.ks, x.clientPublic, x.serverPublic, MpintBytes(x.k)]
  }

  /** The local banner as stored carries a line ending of two bytes; without one the default
      identification string counts. */
  function Banner(stored: Option<seq<byte>>, default: seq<byte>): seq<byte>
    requires stored.Some? ==> |stored.value| >= 2
  {
    match stored
    case Some(b) => b[..|b| - 2]
    case None => default
  }

  /** Writes a big number the way `e_packet` and `k_value` are filled: the length field, then a
      zero byte unless `bits % 8` is nonzero, then the number. */
  method WriteMpint(n: nat) returns (buf: array<byte>)
    ensures fresh(buf) && buf[..] == Str(MpintBytes(n))
  {
    hide U32, ToBin, Bits;
    var bin := ToBin(n);
    BinLength(n);
    var len := (Bits(n) + 7) / 8 + 5;
    if Bits(n) % 8 != 0 {
      len := len - 1;
    }
    buf := new byte[len];
    var front := U32(Wrap32(len - 4));
    Copy(buf, 0, front);
    if Bits(n) % 8 != 0 {
      Copy(buf, 4, bin);
    } else {
      Copy(buf, 4, [0]);
      Copy(buf, 5, bin);
      Assoc(front, [0], bin);
    }
    assert buf[..] == buf[..len];
  }

  lemma BinLength(n: nat)
    ensures |ToBin(n)| == (Bits(n) + 7) / 8
  {
    if n > 0 {
      ToBinShape(n);
    }
  }

  /** The hashing part of `diffie_hellman_sha_algo` for a fixed group. */
  method FeedDh(x: Exchange<nat>, banner: Option<seq<byte>>, default: seq<byte>) returns (ctx: HashCtx)
    requires banner.Some? ==> |banner.value| >= 2
    requires x.vc == Banner(banner, default)
    ensures ctx.fed == Strs(DhStrings(x))
  {
    hide Strs, Str, U32, MpintBytes;
    var e := WriteMpint(x.clientPublic);
    var k := WriteMpint(x.k);
    ctx := new HashCtx();
    FeedFront(ctx, banner, default, [x.vs, x.ic, x.is', x.ks]);
    ctx.Update(e[..]);
    ctx.UpdateString(x.serverPublic);
    ctx.Update(k[..]);
    assert DhStrings(x) == [Banner(banner, default)] + [x.vs, x.ic, x.is', x.ks]
                           + [MpintBytes(x.clientPublic), x.serverPublic, MpintBytes(x.k)];
    StrsAppend([Banner(banner, default)] + [x.vs, x.ic, x.is', x.ks],
               [MpintBytes(x.clientPublic), x.serverPublic, MpintBytes(x.k)]);
    StrsOfThree(MpintBytes(x.clientPublic), x.serverPublic, MpintBytes(x.k));
  }

  /** `LIBSSH2_KEX_METHOD_EC_SHA_HASH_CREATE_VERIFY` up to the digest. */
  method FeedEc(x: Exchange<seq<byte>>, banner: Option<seq<byte>>, default: seq<byte>) returns (ctx: HashCtx)
    requires banner.Some? ==> |banner.value| >= 2
    requires x.vc == Banner(banner, default)
    ensures ctx.fed == Strs(EcStrings(x))
  {
    hide Strs, Str, U32, MpintBytes;
    var k := WriteMpint(x.k);
    ctx := new HashCtx();
    FeedFront(ctx, banner, default, [x.vs, x.ic, x.is', x.ks]);
    ctx.UpdateString(x.clientPublic);
    ctx.UpdateString(x.serverPublic);
    ctx.Update(k[..]);
    assert EcStrings(x) == [Banner(banner, default)] + [x.vs, x.ic, x.is', x.ks]
                           + [x.clientPublic, x.serverPublic, MpintBytes(x.k)];
    StrsAppend([Banner(banner, default)] + [x.vs, x.ic, x.is', x.ks],
               [x.clientPublic, x.serverPublic, MpintBytes(x.k)]);
    StrsOfThree(x.clientPublic, x.serverPublic, MpintBytes(x.k));
  }

  /** The five strings both forms begin with. */
  method FeedFront(ctx: HashCtx, banner: Option<seq<byte>>, default: seq<byte>, others: seq<seq<byte>>)
    requires banner.Some? ==> |banner.value| >= 2
    requires |others| == 4
    modifies ctx
    ensures ctx.fed == old(ctx.fed) + Strs([Banner(banner, default)] + others)
  {
    if banner.Some? {
      ctx.Update(U32(Wrap32(|banner.value| - 2)));
      ctx.Update(banner.value[..|banner.value| - 2]);
    } else {
      ctx.UpdateString(default);
    }
    ghost var first := ctx.fed;
    ghost var all := [Banner(banner, default)] + others;
    assert Strs(all[..1]) == Str(all[0]) + Strs([]);
    hide Str, U32;
    for i := 0 to 4
      invariant ctx.fed == old(ctx.fed) + Strs(all[..i + 1])
    {
      ctx.UpdateString(others[i]);
      StrsAppend(all[..i + 1], [others[i]]);
      assert all[..i + 2] == all[..i + 1] + [others[i]];
      assert Strs([others[i]]) == Str(others[i]) + Strs([]);
    }
    assert all[..5] == all;
  }

  lemma StrsOfThree(a: seq<byte>, b: seq<byte>, c: seq<byte>)
    ensures Strs([a, b, c]) == Str(a) + Str(b) + Str(c)
  {
    assert [a, b, c][1..] == [b, c] && [b, c][1..] == [c];
    assert Strs([c]) == Str(c) + Strs([]);
  }

  /** Two different fixed-group exchanges never hash the same bytes. */
  lemma DhPreimageInjective(x: Exchange<nat>, y: Exchange<nat>)
    requires Representable(DhStrings(x)) && Representable(DhStrings(y))
    requires Strs(DhStrings(x)) == Strs(DhStrings(y))
    ensures x == y
  {
    StrsInjective(DhStrings(x), DhStrings(y));
    var a, b := DhStrings(x), DhStrings(y);
    assert a[0] == b[0] && a[1] == b[1] && a[2] == b[2] && a[3] == b[3] && a[4] == b[4];
    assert a[5] == b[5] && a[6] == b[6] && a[7] == b[7];
    MpintInjective(x.clientPublic, y.clientPublic);
    MpintInjective(x.k, y.k);
  }

  /** Two different elliptic-curve exchanges never hash the same bytes. */
  lemma EcPreimageInjective(x: Exchange<seq<byte>>, y: Exchange<seq<byte>>)
    requires Representable(EcStrings(x)) && Representable(EcStrings(y))
    requires Strs(EcStrings(x)) == Strs(EcStrings(y))
    ensures x == y
  {
    StrsInjective(EcStrings(x), EcStrings(y));
    var a, b := EcStrings(x), EcStrings(y);
    assert a[0] == b[0] && a[1] == b[1] && a[2] == b[2] && a[3] == b[3] && a[4] == b[4];
    assert a[5] == b[5] && a[6] == b[6] && a[7] == b[7];
    MpintInjective(x.k, y.k);
  }
}
