/** Deriving keys of any length from the shared secret (section 7.2 of RFC 4253). */
module KeyStretch {
  import opened Arith
  import opened Bytes

  type Digest = seq<byte> -> seq<byte>

  ghost predicate HasLength(h: Digest, len: nat) {
    forall s :: |h(s)| == len
  }

  /** K1 || ... || Kn, where `kh` is the shared secret (with its length field) followed by the
      exchange hash, K1 = H(kh || X || session_id) and each further block hashes everything
      before it. */
  function Material(h: Digest, kh: seq<byte>, x: byte, sessionId: seq<byte>, n: nat): seq<byte> {
    if n == 0 then []
    else
      var before := Material(h, kh, x, sessionId, n - 1);
      before + h(kh + if n == 1 then [x] + sessionId else before)
  }

  /** The number of blocks that `reqlen` bytes take. */
  function Blocks(reqlen: nat, len: nat): nat
    requires len > 0
  {
    (reqlen + len - 1) / len
  }

  function DerivedKey(h: Digest, len: nat, kh: seq<byte>, x: byte, sessionId: seq<byte>, reqlen: nat): (key: seq<byte>)
    requires len > 0 && HasLength(h, len)
    ensures |key| == reqlen
  {
    MaterialLength(h, len, kh, x, sessionId, Blocks(reqlen, len));
    BlocksCover(reqlen, len);
    Material(h, kh, x, sessionId, Blocks(reqlen, len))[..reqlen]
  }

  lemma {:induction false} MaterialLength(h: Digest, len: nat, kh: seq<byte>, x: byte, sessionId: seq<byte>, n: nat)
    requires HasLength(h, len)
    ensures |Material(h, kh, x, sessionId, n)| == n * len
    decreases n
  {
    if n > 0 {
      MaterialLength(h, len, kh, x, sessionId, n - 1);
    }
  }

  lemma BlocksCover(reqlen: nat, len: nat)
    requires len > 0
    ensures reqlen <= Blocks(reqlen, len) * len < reqlen + len
  {
  }

  /** The first `reqlen` bytes do not depend on how many bytes are asked for. */
  lemma {:induction false} MaterialPrefix(h: Digest, kh: seq<byte>, x: byte, sessionId: seq<byte>, m: nat, n: nat)
    requires m <= n
    ensures Material(h, kh, x, sessionId, m) <= Material(h, kh, x, sessionId, n)
    decreases n
  {
    if m < n {
      MaterialPrefix(h, kh, x, sessionId, m, n - 1);
    }
  }

  lemma BlocksMonotonic(a: nat, b: nat, len: nat)
    requires len > 0 && a <= b
    ensures Blocks(a, len) <= Blocks(b, len)
  {
    var p, q := Blocks(a, len), Blocks(b, len);
    BlocksCover(a, len);
    BlocksCover(b, len);
    if q < p {
      MulGap(q, p, len);
    }
  }

  /** A shorter key is a prefix of a longer one. */
  lemma ShorterKeyIsPrefix(h: Digest, len: nat, kh: seq<byte>, x: byte, sessionId: seq<byte>, a: nat, b: nat)
    requires len > 0 && HasLength(h, len) && a <= b
    ensures DerivedKey(h, len, kh, x, sessionId, a) == DerivedKey(h, len, kh, x, sessionId, b)[..a]
  {
    BlocksMonotonic(a, b, len);
    MaterialPrefix(h, kh, x, sessionId, Blocks(a, len), Blocks(b, len));
    MaterialLength(h, len, kh, x, sessionId, Blocks(a, len));
    MaterialLength(h, len, kh, x, sessionId, Blocks(b, len));
    BlocksCover(a, len);
    BlocksCover(b, len);
  }

  /** The blocks satisfy the equations of section 7.2: K1 = H(K || H || X || session_id) and
      Kn = H(K || H || K1 || ... || K(n-1)). */
  lemma {:induction false} BlockEquations(h: Digest, len: nat, kh: seq<byte>, x: byte, sessionId: seq<byte>, reqlen: nat, n: nat)
    requires len > 0 && HasLength(h, len) && 1 <= n && n * len <= reqlen
    ensures (n - 1) * len + len == n * len
    ensures var key := DerivedKey(h, len, kh, x, sessionId, reqlen);
            key[(n - 1) * len..n * len] == h(kh + if n == 1 then [x] + sessionId else key[..(n - 1) * len])
  {
    var total := Blocks(reqlen, len);
    FirstBlock(n - 1, len);
    BlocksCover(reqlen, len);
    if total < n {
      MulGap(total, n, len);
    }
    MaterialPrefix(h, kh, x, sessionId, n - 1, n);
    MaterialPrefix(h, kh, x, sessionId, n, total);
    MaterialLength(h, len, kh, x, sessionId, total);
    MaterialLength(h, len, kh, x, sessionId, n);
    MaterialLength(h, len, kh, x, sessionId, n - 1);
    var whole, upto, before := Material(h, kh, x, sessionId, total), Material(h, kh, x, sessionId, n),
                               Material(h, kh, x, sessionId, n - 1);
    NestedPrefixes(whole, reqlen, upto, before);
  }

  lemma NestedPrefixes(whole: seq<byte>, reqlen: nat, upto: seq<byte>, before: seq<byte>)
    requires before <= upto <= whole && |upto| <= reqlen <= |whole|
    ensures whole[..reqlen][..|before|] == before && whole[..reqlen][|before|..|upto|] == upto[|before|..]
  {
    assert whole[..|upto|] == upto;
  }

  /** `LIBSSH2_KEX_METHOD_SHA_VALUE_HASH`: whole blocks are written into a buffer of `reqlen`
      plus one digest length; no write reaches its end. */
  method StretchKey(h: Digest, len: nat, kh: seq<byte>, x: byte, sessionId: seq<byte>, reqlen: nat)
    returns (value: array<byte>)
    requires len > 0 && HasLength(h, len)
    ensures fresh(value) && value.Length == reqlen + len
    ensures value[..reqlen] == DerivedKey(h, len, kh, x, sessionId, reqlen)
  {
    value := new byte[reqlen + len];
    var done := 0;
    ghost var n := 0;
    while done < reqlen
      invariant done == n * len < reqlen + len
      invariant value[..done] == Material(h, kh, x, sessionId, n)
      decreases reqlen - done
    {
      FirstBlock(n, len);
      var digest := h(kh + if done > 0 then value[..done] else [x] + sessionId);
      Copy(value, done, digest);
      done := done + len;
      n := n + 1;
    }
    RoundedUp(reqlen, len, n);
    assert value[..reqlen] == value[..done][..reqlen];
  }

  lemma FirstBlock(n: nat, len: nat)
    requires len > 0
    ensures n * len > 0 <==> n > 0
    ensures (n + 1) * len == n * len + len
  {
  }

  lemma RoundedUp(reqlen: nat, len: nat, n: nat)
    requires len > 0 && reqlen <= n * len < reqlen + len
    ensures n == Blocks(reqlen, len)
  {
    var b := Blocks(reqlen, len);
    BlocksCover(reqlen, len);
    if n < b {
      MulGap(n, b, len);
    } else if b < n {
      MulGap(b, n, len);
    }
  }
}
