/** The big-number encoding of the key exchange: the `bits % 8` rule of `kex.c` against the
    canonical `mpint` of section 5 of RFC 4251. */
module Mpint {
  import opened Arith
  import opened Bytes

  /** `_libssh2_bn_bits` */
  function Bits(n: nat): nat {
    if n == 0 then 0 else 1 + Bits(n / 2)
  }

  /** `_libssh2_bn_to_bin`: the big-endian bytes without leading zeros. */
  function ToBin(n: nat): seq<byte> {
    if n == 0 then [] else ToBin(n / 0x100) + [n % 0x100]
  }

  /** `_libssh2_bn_from_bin` */
  function FromBin(s: seq<byte>): nat {
    if s == [] then 0 else FromBin(s[..|s| - 1]) * 0x100 + s[|s| - 1]
  }

  function Pow256(k: nat): (p: nat)
    ensures p >= 1
  {
    if k == 0 then 1 else 0x100 * Pow256(k - 1)
  }

  /** The payload the code sends for `n`: a zero byte goes first unless `bits % 8` is nonzero. */
  function MpintBytes(n: nat): seq<byte> {
    if Bits(n) % 8 != 0 then ToBin(n) else [0] + ToBin(n)
  }

  /** The value of a string read as a two's complement big-endian number. */
  function TwosComplement(s: seq<byte>): int {
    if s != [] && s[0] >= 0x80 then FromBin(s) - Pow256(|s|) else FromBin(s)
  }

  /** The canonical representation is the shortest string with that value. */
  ghost predicate Canonical(s: seq<byte>, n: int) {
    TwosComplement(s) == n && forall t :: TwosComplement(t) == n ==> |s| <= |t|
  }

  lemma BitsOfByteAbove(n: nat)
    requires n >= 0x100
    ensures Bits(n) == 8 + Bits(n / 0x100)
  {
    var a, b := n / 2, n / 4;
    var c, d := n / 8, n / 16;
    var e, f, g := n / 32, n / 64, n / 128;
    assert a / 2 == b && b / 2 == c && c / 2 == d && d / 2 == e && e / 2 == f && f / 2 == g && g / 2 == n / 0x100;
    assert Bits(n) == 1 + Bits(a) && Bits(a) == 1 + Bits(b) && Bits(b) == 1 + Bits(c) && Bits(c) == 1 + Bits(d);
    assert Bits(d) == 1 + Bits(e) && Bits(e) == 1 + Bits(f) && Bits(f) == 1 + Bits(g);
  }

  lemma {:induction false} BitsMonotonic(m: nat, n: nat)
    requires m <= n
    ensures Bits(m) <= Bits(n)
  {
    if m > 0 {
      BitsMonotonic(m / 2, n / 2);
    }
  }

  lemma BitsOfByte(n: nat)
    requires 0 < n < 0x100
    ensures 1 <= Bits(n) <= 8 && (Bits(n) == 8 <==> n >= 0x80)
  {
    assert Bits(0x7f) == 7 && Bits(0x80) == 8 && Bits(0xff) == 8;
    BitsMonotonic(n, 0xff);
    if n >= 0x80 {
      BitsMonotonic(0x80, n);
    } else {
      BitsMonotonic(n, 0x7f);
    }
  }

  /** The byte string has `(bits + 7) / 8` bytes, and its top bit is set exactly when the bit
      count is a multiple of 8. */
  lemma {:induction false} ToBinShape(n: nat)
    requires n > 0
    ensures ToBin(n) != [] && ToBin(n)[0] != 0
    ensures |ToBin(n)| == (Bits(n) + 7) / 8
    ensures Bits(n) % 8 == 0 <==> ToBin(n)[0] >= 0x80
  {
    hide Bits;
    if n >= 0x100 {
      ToBinShape(n / 0x100);
      BitsOfByteAbove(n);
    } else {
      BitsOfByte(n);
      assert ToBin(n) == ToBin(0) + [n];
    }
  }

  lemma {:induction false} FromToBin(n: nat)
    ensures FromBin(ToBin(n)) == n
    ensures FromBin([0] + ToBin(n)) == n
  {
    if n > 0 {
      var rest := ToBin(n / 0x100);
      FromToBin(n / 0x100);
      assert ToBin(n)[..|ToBin(n)| - 1] == rest;
      assert ([0] + ToBin(n))[..|ToBin(n)|] == [0] + rest;
    } else {
      assert FromBin([0]) == FromBin([]) * 0x100 + 0 by { assert [0][..0] == []; }
    }
  }

  /** A string of `k + 1` bytes lies between its first byte's share and the next. */
  lemma {:induction false} FromBinBounds(s: seq<byte>)
    requires s != []
    ensures var share: int := s[0] * Pow256(|s| - 1); share <= FromBin(s) < share + Pow256(|s| - 1)
  {
    var front := s[..|s| - 1];
    if front == [] {
      assert FromBin(front) == 0;
    } else {
      FromBinBounds(front);
      var b: int, p := s[0], Pow256(|s| - 2);
      assert Pow256(|s| - 1) == 0x100 * p;
      assert b * (0x100 * p) == 0x100 * (b * p);
    }
  }

  lemma {:induction false} Pow256Monotonic(j: nat, k: nat)
    requires j <= k
    ensures Pow256(j) <= Pow256(k)
    decreases k
  {
    if j < k {
      Pow256Monotonic(j, k - 1);
    }
  }

  /** Any string with a positive value has its sign bit clear, which bounds the value. */
  lemma PositiveBound(t: seq<byte>)
    requires TwosComplement(t) > 0
    ensures t != [] && t[0] < 0x80 && TwosComplement(t) < 0x80 * Pow256(|t| - 1)
  {
    FromBinBounds(t);
    var p, b: int := Pow256(|t| - 1), t[0];
    assert Pow256(|t|) == 0x100 * p;
    hide Pow256, FromBin;
    if b < 0x80 {
      MulLe(b, 0x7f, p);
    } else {
      MulLe(b, 0xff, p);
    }
  }

  /** The code's payload is the canonical one for every number except zero, for which it sends
      one zero byte where the canonical payload is empty. A zero byte leads exactly when the
      number's own top bit is set. */
  lemma MpintIsCanonical(n: nat)
    ensures Canonical(MpintBytes(n), n) <==> n > 0
    ensures n > 0 ==> (MpintBytes(n)[0] == 0 <==> ToBin(n)[0] >= 0x80)
  {
    var s := MpintBytes(n);
    FromToBin(n);
    if n == 0 {
      assert TwosComplement([]) == 0;
    } else {
      ToBinShape(n);
      assert s[0] < 0x80;
      FromBinBounds(ToBin(n));
      forall t | TwosComplement(t) == n ensures |s| <= |t| {
        PositiveBound(t);
        ShorterIsSmaller(n, t);
      }
    }
  }

  lemma ShorterIsSmaller(n: nat, t: seq<byte>)
    requires n > 0 && t != [] && n < 0x80 * Pow256(|t| - 1)
    ensures |MpintBytes(n)| <= |t|
  {
    var b := ToBin(n);
    ToBinShape(n);
    FromToBin(n);
    FromBinBounds(b);
    var p, top: int := Pow256(|b| - 1), b[0];
    if Bits(n) % 8 == 0 {
      MulLe(0x80, top, p);
      if |t| <= |b| {
        Pow256Monotonic(|t| - 1, |b| - 1);
      }
    } else {
      MulLe(1, top, p);
      if |t| < |b| {
        Pow256Monotonic(|t|, |b| - 1);
      }
    }
    hide Pow256, FromBin, Bits, ToBin;
  }

  lemma MpintInjective(m: nat, n: nat)
    requires MpintBytes(m) == MpintBytes(n)
    ensures m == n
  {
    FromToBin(m);
    FromToBin(n);
  }
}
