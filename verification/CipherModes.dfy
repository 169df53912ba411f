/** Enciphering arrays in place: word pairs (`blf_enc`, `blf_dec`), and bytes in the ECB and CBC
    modes. */
module CipherModes {
  import opened Bytes
  import opened Blowfish
  import opened BlowfishCipher

  datatype Direction = Enc | Dec
  {
    function Reverse(): Direction {
      if Enc? then Dec else Enc
    }
  }

  function Crypt(t: Tables, d: Direction, b: Block): Block {
    if d.Enc? then Encipher(t, b) else Decipher(t, b)
  }

  lemma CryptUndone(t: Tables, d: Direction, b: Block)
    ensures Crypt(t, d.Reverse(), Crypt(t, d, b)) == b
  {
    DecipherEncipher(t, b);
    hide Encipher, Decipher;
  }

  /** The words with the pair at `at` enciphered or deciphered. */
  function CryptPair(t: Tables, d: Direction, w: seq<bv32>, at: nat): (r: seq<bv32>)
    requires at + 2 <= |w|
    ensures |r| == |w|
  {
    var b := Crypt(t, d, Block(w[at], w[at + 1]));
    w[at := b.l][at + 1 := b.r]
  }

  /** `n` pairs from `at` on, one after the other. */
  function CryptPairs(t: Tables, d: Direction, w: seq<bv32>, at: nat, n: nat): (r: seq<bv32>)
    requires at + 2 * n <= |w|
    ensures |r| == |w|
    decreases n
  {
    if n == 0 then w else CryptPairs(t, d, CryptPair(t, d, w, at), at + 2, n - 1)
  }

  lemma {:induction false} PairsAreLocal(t: Tables, d: Direction, w: seq<bv32>, at: nat, n: nat)
    requires at + 2 * n <= |w|
    ensures forall j :: 0 <= j < |w| && !(at <= j < at + 2 * n) ==> CryptPairs(t, d, w, at, n)[j] == w[j]
    decreases n
  {
    hide Crypt;
    if n > 0 {
      PairsAreLocal(t, d, CryptPair(t, d, w, at), at + 2, n - 1);
    }
  }

  /** Each pair of the result depends on the same pair of the input only. */
  lemma {:induction false} PairAt(t: Tables, d: Direction, w: seq<bv32>, at: nat, n: nat, k: nat)
    requires at + 2 * n <= |w| && k < n
    ensures var r := CryptPairs(t, d, w, at, n);
            Block(r[at + 2 * k], r[at + 2 * k + 1]) == Crypt(t, d, Block(w[at + 2 * k], w[at + 2 * k + 1]))
    decreases n
  {
    hide Crypt;
    var w' := CryptPair(t, d, w, at);
    if k == 0 {
      PairsAreLocal(t, d, w', at + 2, n - 1);
    } else {
      PairAt(t, d, w', at + 2, n - 1, k - 1);
    }
  }

  /** Working in two pieces is working in one. */
  lemma {:induction false} InPieces(t: Tables, d: Direction, w: seq<bv32>, at: nat, m: nat, n: nat)
    requires at + 2 * (m + n) <= |w|
    ensures CryptPairs(t, d, CryptPairs(t, d, w, at, m), at + 2 * m, n) == CryptPairs(t, d, w, at, m + n)
    decreases m
  {
    hide CryptPair;
    if m > 0 {
      InPieces(t, d, CryptPair(t, d, w, at), at + 2, m - 1, n);
    }
  }

  /** Deciphering undoes enciphering of the same pairs, and the other way round. */
  lemma PairsUndone(t: Tables, d: Direction, w: seq<bv32>, at: nat, n: nat)
    requires at + 2 * n <= |w|
    ensures CryptPairs(t, d.Reverse(), CryptPairs(t, d, w, at, n), at, n) == w
  {
    hide Crypt, CryptPairs;
    var c := CryptPairs(t, d, w, at, n);
    var r := CryptPairs(t, d.Reverse(), c, at, n);
    PairsAreLocal(t, d, w, at, n);
    PairsAreLocal(t, d.Reverse(), c, at, n);
    forall j | 0 <= j < |w| ensures r[j] == w[j] {
      if at <= j < at + 2 * n {
        var k := (j - at) / 2;
        PairAt(t, d, w, at, n, k);
        PairAt(t, d.Reverse(), c, at, n, k);
        CryptUndone(t, d, Block(w[at + 2 * k], w[at + 2 * k + 1]));
      }
    }
  }

  /** What was enciphered in one go can be deciphered in two pieces. */
  lemma UndoneInPieces(t: Tables, w: seq<bv32>, at: nat, m: nat, n: nat)
    requires at + 2 * (m + n) <= |w|
    ensures CryptPairs(t, Dec, CryptPairs(t, Dec, CryptPairs(t, Enc, w, at, m + n), at, m), at + 2 * m, n) == w
  {
    hide CryptPairs;
    InPieces(t, Dec, CryptPairs(t, Enc, w, at, m + n), at, m, n);
    PairsUndone(t, Enc, w, at, m + n);
  }

  /** `blf_enc` and `blf_dec` */
  method BlfCrypt(c: Context, d: Direction, data: array<bv32>, at: nat, blocks: nat)
    requires c.Valid() && data != c.S && data != c.P && at + 2 * blocks <= data.Length
    modifies data
    ensures data[..] == CryptPairs(c.T(), d, old(data[..]), at, blocks)
  {
    hide CryptPair;
    ghost var t := c.T();
    for i := 0 to blocks
      invariant CryptPairs(t, d, data[..], at + 2 * i, blocks - i) == CryptPairs(t, d, old(data[..]), at, blocks)
    {
      CryptPairInPlace(c, d, data, at + 2 * i);
    }
  }

  method CryptPairInPlace(c: Context, d: Direction, data: array<bv32>, k: nat)
    requires c.Valid() && data != c.S && data != c.P && k + 2 <= data.Length
    modifies data
    ensures data[..] == CryptPair(c.T(), d, old(data[..]), k)
  {
    hide Encipher, Decipher;
    var b;
    if d.Enc? {
      b := c.BlowfishEncipher(data[k], data[k + 1]);
    } else {
      b := c.BlowfishDecipher(data[k], data[k + 1]);
    }
    data[k] := b.l;
    data[k + 1] := b.r;
  }

  /** `data[0] << 24 | data[1] << 16 | data[2] << 8 | data[3]` */
  function ToWord(b: seq<bv8>): bv32
    requires |b| == 4
  {
    Packed(b[0], b[1], b[2], b[3])
  }

  function Packed(a: bv8, b: bv8, c: bv8, d: bv8): bv32 {
    (a as bv32 << 24) | (b as bv32 << 16) | (c as bv32 << 8) | d as bv32
  }

  /** The four bytes stored back. */
  function FromWord(w: bv32): (b: seq<bv8>)
    ensures |b| == 4
  {
    [((w >> 24) & 0xff) as bv8, ((w >> 16) & 0xff) as bv8, ((w >> 8) & 0xff) as bv8, (w & 0xff) as bv8]
  }

  lemma WordRoundTrip(w: bv32, b: seq<bv8>)
    requires |b| == 4
    ensures ToWord(FromWord(w)) == w && FromWord(ToWord(b)) == b
  {
  }

  /** The words that keys and salts are mixed in as are made of their bytes in the same order. */
  lemma PackedAlike(a: bv8, b: bv8, c: bv8, d: bv8)
    ensures Pack(a, b, c, d) == Packed(a, b, c, d)
  {
  }

  /** Four bytes substituted, each by its own box, and mixed. */
  function Substituted(s: SBoxes, i: nat, j: nat, k: nat, l: nat): bv32
    requires i < 0x100 && j < 0x100 && k < 0x100 && l < 0x100
  {
    ((s[i] + s[0x100 + j]) ^ s[0x200 + k]) + s[0x300 + l]
  }

  function Octets(x: bv32): (r: (nat, nat, nat, nat))
    ensures r.0 < 0x100 && r.1 < 0x100 && r.2 < 0x100 && r.3 < 0x100
  {
    (Octet(x >> 24), Octet(x >> 16), Octet(x >> 8), Octet(x))
  }

  /** The substitution of a word is that of its four bytes, first byte first. */
  lemma SubstitutionOfBytes(s: SBoxes, b: seq<bv8>)
    requires |b| == 4
    ensures F(s, ToWord(b)) == Substituted(s, b[0] as nat, b[1] as nat, b[2] as nat, b[3] as nat)
  {
    hide F, Substituted, Octets, Packed;
    OctetsOfWord(b[0], b[1], b[2], b[3]);
    SubstitutionOf(s, ToWord(b));
  }

  lemma SubstitutionOf(s: SBoxes, x: bv32)
    ensures F(s, x) == Substituted(s, Octets(x).0, Octets(x).1, Octets(x).2, Octets(x).3)
  {
    hide F, Substituted, Octet;
    SubstitutionAt(s, x);
  }

  lemma SubstitutionAt(s: SBoxes, x: bv32)
    ensures F(s, x) == Substituted(s, Octet(x >> 24), Octet(x >> 16), Octet(x >> 8), Octet(x))
  {
    hide Octet;
  }

  lemma OctetsOfWord(a: bv8, b: bv8, c: bv8, d: bv8)
    ensures Octets(Packed(a, b, c, d)) == (a as nat, b as nat, c as nat, d as nat)
  {
  }

  predicate Aligned(n: nat) {
    n % 8 == 0
  }

  lemma AlignedSteps(n: nat, len: nat)
    requires Aligned(n) && Aligned(len)
    ensures Aligned(0) && Aligned(n + 8) && (n < len ==> n + 8 <= len) && (n >= 8 ==> Aligned(n - 8)) && (n < 8 ==> n == 0)
  {
  }

  lemma BlockSteps(i: nat, len: nat)
    requires Aligned(i) && Aligned(len) && i + 8 <= len
    ensures Aligned(len - 8) && (i > 0 ==> i >= 8 && Aligned(i - 8)) && (i > 8 ==> i >= 16)
  {
  }

  /** Eight bytes enciphered or deciphered. */
  function CryptBytes(t: Tables, d: Direction, b: seq<bv8>): (r: seq<bv8>)
    requires |b| == 8
    ensures |r| == 8
  {
    var c := Crypt(t, d, Block(ToWord(b[..4]), ToWord(b[4..])));
    FromWord(c.l) + FromWord(c.r)
  }

  lemma BytesUndone(t: Tables, d: Direction, b: seq<bv8>)
    requires |b| == 8
    ensures CryptBytes(t, d.Reverse(), CryptBytes(t, d, b)) == b
  {
    hide Crypt, ToWord, FromWord;
    var x := Block(ToWord(b[..4]), ToWord(b[4..]));
    var c := Crypt(t, d, x);
    var e := CryptBytes(t, d, b);
    assert e[..4] == FromWord(c.l) && e[4..] == FromWord(c.r);
    WordRoundTrip(c.l, b[..4]);
    WordRoundTrip(c.r, b[4..]);
    CryptUndone(t, d, x);
    assert b == b[..4] + b[4..];
  }

  function XorBytes(a: seq<bv8>, b: seq<bv8>): (r: seq<bv8>)
    requires |a| == |b|
    ensures |r| == |a|
  {
    seq(|a|, i requires 0 <= i < |a| => a[i] ^ b[i])
  }

  lemma XorBytesUndone(a: seq<bv8>, b: seq<bv8>)
    requires |a| == |b|
    ensures XorBytes(XorBytes(a, b), b) == a
  {
    forall i | 0 <= i < |a| ensures XorBytes(XorBytes(a, b), b)[i] == a[i] {
      ByteXorUndone(a[i], b[i]);
    }
  }

  lemma ByteXorUndone(a: bv8, b: bv8)
    ensures (a ^ b) ^ b == a
  {
  }

  /** Electronic codebook mode: every block by itself. */
  function Ecb(t: Tables, d: Direction, data: seq<bv8>): (r: seq<bv8>)
    requires Aligned(|data|)
    ensures |r| == |data|
  {
    if data == [] then [] else CryptBytes(t, d, data[..8]) + Ecb(t, d, data[8..])
  }

  lemma {:induction false} EcbUndone(t: Tables, d: Direction, data: seq<bv8>)
    requires Aligned(|data|)
    ensures Ecb(t, d.Reverse(), Ecb(t, d, data)) == data
    decreases |data|
  {
    hide CryptBytes;
    if data != [] {
      var c, rest := CryptBytes(t, d, data[..8]), Ecb(t, d, data[8..]);
      assert (c + rest)[..8] == c && (c + rest)[8..] == rest;
      BytesUndone(t, d, data[..8]);
      EcbUndone(t, d, data[8..]);
      assert data == data[..8] + data[8..];
    }
  }

  /** Cipher block chaining: every plain block is mixed with the cipher block before it. */
  function CbcEncrypt(t: Tables, iv: seq<bv8>, data: seq<bv8>): (r: seq<bv8>)
    requires |iv| == 8 && Aligned(|data|)
    ensures |r| == |data|
    decreases |data|
  {
    if data == [] then []
    else
      var c := CryptBytes(t, Enc, XorBytes(data[..8], iv));
      c + CbcEncrypt(t, c, data[8..])
  }

  function CbcDecrypt(t: Tables, iv: seq<bv8>, data: seq<bv8>): (r: seq<bv8>)
    requires |iv| == 8 && Aligned(|data|)
    ensures |r| == |data|
    decreases |data|
  {
    if data == [] then []
    else XorBytes(CryptBytes(t, Dec, data[..8]), iv) + CbcDecrypt(t, data[..8], data[8..])
  }

  lemma {:induction false} CbcUndone(t: Tables, iv: seq<bv8>, data: seq<bv8>)
    requires |iv| == 8 && Aligned(|data|)
    ensures CbcDecrypt(t, iv, CbcEncrypt(t, iv, data)) == data
    decreases |data|
  {
    hide CryptBytes, XorBytes;
    if data != [] {
      var x := XorBytes(data[..8], iv);
      var c := CryptBytes(t, Enc, x);
      var rest := CbcEncrypt(t, c, data[8..]);
      BytesUndone(t, Enc, x);
      XorBytesUndone(data[..8], iv);
      CbcUndone(t, c, data[8..]);
      EndsOf(c, rest);
      EndsOf(data[..8], data[8..]);
      assert data == data[..8] + data[8..];
    }
  }

  lemma EndsOf(a: seq<bv8>, b: seq<bv8>)
    requires |a| == 8
    ensures (a + b)[..8] == a && (a + b)[8..] == b
  {
    assert (a + b)[..|a|] == a && (a + b)[|a|..] == b;
  }

  lemma TailSlice(a: seq<bv8>, i: nat)
    requires 8 <= i && i + 8 <= |a|
    ensures a[8..][i - 8..i] == a[i..i + 8]
  {
    var s, t := a[8..][i - 8..i], a[i..i + 8];
    assert |s| == 8 == |t| && forall k :: 0 <= k < 8 ==> s[k] == t[k];
  }

  lemma FrontSlice(a: seq<bv8>)
    requires 8 <= |a|
    ensures a[0..8] == a[..8]
  {
  }

  lemma DecryptStep(t: Tables, iv: seq<bv8>, data: seq<bv8>)
    requires |iv| == 8 && Aligned(|data|) && data != []
    ensures CbcDecrypt(t, iv, data) == XorBytes(CryptBytes(t, Dec, data[..8]), iv) + CbcDecrypt(t, data[..8], data[8..])
  {
    hide CryptBytes, XorBytes;
  }

  lemma EncryptStep(t: Tables, iv: seq<bv8>, data: seq<bv8>)
    requires |iv| == 8 && Aligned(|data|) && data != []
    ensures var c := CryptBytes(t, Enc, XorBytes(data[..8], iv));
            CbcEncrypt(t, iv, data) == c + CbcEncrypt(t, c, data[8..])
  {
    hide CryptBytes, XorBytes;
  }

  function BlockAt(a: seq<bv8>, i: nat): (r: seq<bv8>)
    requires i + 8 <= |a|
    ensures |r| == 8
  {
    a[i..i + 8]
  }

  /** The block before the one at `i`: before the first it is the vector. */
  function Before(iv: seq<bv8>, c: seq<bv8>, i: nat): (r: seq<bv8>)
    requires |iv| == 8 && Aligned(i) && i <= |c|
    ensures |r| == 8
  {
    if i == 0 then iv else c[i - 8..i]
  }

  lemma BeforeInTail(iv: seq<bv8>, head: seq<bv8>, rest: seq<bv8>, i: nat)
    requires |iv| == |head| == 8 && Aligned(i) && 8 <= i <= |rest| + 8 && Aligned(i - 8)
    ensures Before(iv, head + rest, i) == Before(head, rest, i - 8)
  {
    if i == 8 {
      AtFront(head, rest);
    } else {
      InTail(head, rest, i - 8);
    }
  }

  lemma AtFront(head: seq<bv8>, rest: seq<bv8>)
    requires |head| == 8
    ensures BlockAt(head + rest, 0) == head
  {
    EndsOf(head, rest);
    FrontSlice(head + rest);
  }

  lemma InTail(head: seq<bv8>, rest: seq<bv8>, i: nat)
    requires |head| == 8 <= i <= |rest|
    ensures BlockAt(head + rest, i) == BlockAt(rest, i - 8)
  {
    EndsOf(head, rest);
    TailSlice(head + rest, i);
  }

  /** Block `i` of the decryption, by position. */
  lemma {:induction false} CbcDecryptBlock(t: Tables, iv: seq<bv8>, data: seq<bv8>, i: nat)
    requires |iv| == 8 && Aligned(|data|) && Aligned(i) && i + 8 <= |data|
    ensures BlockAt(CbcDecrypt(t, iv, data), i) == XorBytes(CryptBytes(t, Dec, BlockAt(data, i)), Before(iv, data, i))
    decreases |data|
  {
    hide CryptBytes, XorBytes, CbcDecrypt, Aligned, Before, BlockAt;
    BlockSteps(i, |data|);
    var head, rest := XorBytes(CryptBytes(t, Dec, data[..8]), iv), CbcDecrypt(t, data[..8], data[8..]);
    DecryptStep(t, iv, data);
    Halves(data);
    if i == 0 {
      AtFront(head, rest);
      AtFront(data[..8], data[8..]);
      BeforeFirst(iv, data);
    } else {
      CbcDecryptBlock(t, data[..8], data[8..], i - 8);
      InTail(head, rest, i);
      InTail(data[..8], data[8..], i);
      BeforeInTail(iv, data[..8], data[8..], i);
    }
  }

  lemma BeforeFirst(iv: seq<bv8>, c: seq<bv8>)
    requires |iv| == 8 && Aligned(0)
    ensures Before(iv, c, 0) == iv
  {
  }

  lemma Halves(data: seq<bv8>)
    requires 8 <= |data|
    ensures data[..8] + data[8..] == data
  {
  }

  /** The repeated middle of the byte modes: eight bytes become two words, go through the cipher
      and are stored back. */
  method CryptInPlace(c: Context, d: Direction, data: array<bv8>, at: nat)
    requires c.Valid() && at + 8 <= data.Length
    modifies data
    ensures data[..] == old(data[..at] + CryptBytes(c.T(), d, data[at..at + 8]) + data[at + 8..])
  {
    hide Encipher, Decipher, ToWord;
    var l, r := ToWord(data[at..at + 4]), ToWord(data[at + 4..at + 8]);
    assert data[at..at + 8][..4] == data[at..at + 4] && data[at..at + 8][4..] == data[at + 4..at + 8];
    var b;
    if d.Enc? {
      b := c.BlowfishEncipher(l, r);
    } else {
      b := c.BlowfishDecipher(l, r);
    }
    Copy(data, at, FromWord(b.l) + FromWord(b.r));
  }

  lemma Parts(a: seq<bv8>, b: seq<bv8>, i: nat)
    requires i <= |a|
    ensures (a + b)[..i] == a[..i] && (a + b)[i..|a|] == a[i..] && (a + b)[|a|..] == b
    ensures a[..|a|] == a
  {
  }

  /** A buffer that is `p` up to `i`, then `q`, then `rest`: the block at `i`, what lies around it,
      and the buffer once that block has become `p`'s. */
  lemma Window(p: seq<bv8>, q: seq<bv8>, rest: seq<bv8>, i: nat)
    requires |p| == |q| && i + 8 <= |p|
    ensures var now := Joined(p, q, rest, i);
            && |now| == |p| + |rest|
            && now[..i] == p[..i] && now[i..i + 8] == q[i..i + 8]
            && (i >= 8 ==> now[i - 8..i] == p[i - 8..i])
            && now[..i] + p[i..i + 8] + now[i + 8..] == Joined(p, q, rest, i + 8)
  {
    var now := Joined(p, q, rest, i);
    assert now[i + 8..] == q[i + 8..] + rest;
    assert p[..i] + p[i..i + 8] == p[..i + 8];
  }

  function Joined(p: seq<bv8>, q: seq<bv8>, rest: seq<bv8>, i: nat): (r: seq<bv8>)
    requires |p| == |q| && i <= |p|
    ensures |r| == |p| + |rest|
  {
    p[..i] + (q[i..] + rest)
  }

  lemma JoinedEnds(p: seq<bv8>, q: seq<bv8>, rest: seq<bv8>)
    requires |p| == |q|
    ensures Joined(p, q, rest, 0) == q + rest && Joined(p, q, rest, |p|) == p + rest
  {
    assert p[..|p|] == p && q[0..] == q && q[|q|..] == [];
  }

  lemma {:induction false} EcbBlock(t: Tables, d: Direction, data: seq<bv8>, i: nat)
    requires Aligned(|data|) && Aligned(i) && i + 8 <= |data|
    ensures Ecb(t, d, data)[i..i + 8] == CryptBytes(t, d, data[i..i + 8])
    decreases |data|
  {
    hide CryptBytes;
    var head, rest := CryptBytes(t, d, data[..8]), Ecb(t, d, data[8..]);
    if i == 0 {
      assert (head + rest)[0..8] == head && data[0..8] == data[..8];
    } else {
      EcbBlock(t, d, data[8..], i - 8);
      TailSlice(head + rest, i);
      TailSlice(data, i);
      hide Ecb;
      assert (head + rest)[8..] == rest;
    }
  }

  /** One block more. */
  method EcbNext(c: Context, d: Direction, data: array<bv8>, ghost w: seq<bv8>, ghost rest: seq<bv8>, at: nat)
    requires c.Valid() && Aligned(|w|) && Aligned(at) && at + 8 <= |w|
    requires data[..] == Joined(Ecb(c.T(), d, w), w, rest, at)
    modifies data
    ensures data[..] == Joined(Ecb(c.T(), d, w), w, rest, at + 8)
  {
    hide CryptBytes, Ecb, Joined, Aligned;
    Window(Ecb(c.T(), d, w), w, rest, at);
    EcbBlock(c.T(), d, w, at);
    CryptInPlace(c, d, data, at);
  }

  /** `blf_ecb_encrypt` and `blf_ecb_decrypt` */
  method EcbInPlace(c: Context, d: Direction, data: array<bv8>, len: nat)
    requires c.Valid() && Aligned(len) && len <= data.Length
    modifies data
    ensures data[..] == Ecb(c.T(), d, old(data[..len])) + old(data[len..])
  {
    hide CryptBytes, Ecb, Joined, Aligned;
    AlignedSteps(len, len);
    ghost var w, rest := data[..len], data[len..];
    JoinedEnds(Ecb(c.T(), d, w), w, rest);
    assert data[..] == w + rest;
    var i := 0;
    while i < len
      invariant Aligned(i) && i <= len
      invariant data[..] == Joined(Ecb(c.T(), d, w), w, rest, i)
    {
      AlignedSteps(i, len);
      EcbNext(c, d, data, w, rest, i);
      i := i + 8;
    }
  }

  /** `data[j] ^= iv[j]` for eight bytes; `src` may be an earlier part of `data` itself. */
  method XorInPlace(data: array<bv8>, at: nat, src: array<bv8>, from: nat)
    requires at + 8 <= data.Length && from + 8 <= src.Length
    requires data != src || from + 8 <= at
    modifies data
    ensures data[..] == old(data[..at] + XorBytes(data[at..at + 8], src[from..from + 8]) + data[at + 8..])
  {
    for j := 0 to 8
      invariant forall k :: at <= k < at + j ==> data[k] == old(data[k]) ^ old(src[from + (k - at)])
      invariant forall k :: 0 <= k < data.Length && !(at <= k < at + j) ==> data[k] == old(data[k])
    {
      data[at + j] := data[at + j] ^ src[from + j];
    }
    ghost var now, was, x := data[..], old(data[..]), old(XorBytes(data[at..at + 8], src[from..from + 8]));
    assert now[at..at + 8] == x && now[..at] == was[..at] && now[at + 8..] == was[at + 8..];
    assert now == now[..at] + now[at..at + 8] + now[at + 8..];
  }

  /** One block of the forward walk: the vector is mixed in, then the cipher runs. */
  method ChainBlock(c: Context, data: array<bv8>, src: array<bv8>, at: nat, from: nat)
    requires c.Valid() && at + 8 <= data.Length && from + 8 <= src.Length
    requires data != src || from + 8 <= at
    modifies data
    ensures data[..] == old(data[..at])
                        + CryptBytes(c.T(), Enc, XorBytes(old(data[at..at + 8]), old(src[from..from + 8])))
                        + old(data[at + 8..])
  {
    hide CryptBytes, XorBytes;
    ghost var a, x, b := data[..at], XorBytes(data[at..at + 8], src[from..from + 8]), data[at + 8..];
    XorInPlace(data, at, src, from);
    Parts(a + x, b, at);
    Parts(a, x, at);
    CryptInPlace(c, Enc, data, at);
  }

  lemma WithinFirst(a: seq<bv8>, b: seq<bv8>, i: nat)
    requires i + 8 <= |a|
    ensures (a + b)[i..i + 8] == a[i..i + 8]
  {
  }

  /** One block of the backward walk: the cipher runs, then the vector is mixed in. */
  method UnchainBlock(c: Context, data: array<bv8>, src: array<bv8>, at: nat, from: nat)
    requires c.Valid() && at + 8 <= data.Length && from + 8 <= src.Length
    requires data != src || from + 8 <= at
    modifies data
    ensures data[..] == old(data[..at])
                        + XorBytes(CryptBytes(c.T(), Dec, old(data[at..at + 8])), old(src[from..from + 8]))
                        + old(data[at + 8..])
  {
    hide CryptBytes, XorBytes;
    ghost var a, x, b := data[..at], CryptBytes(c.T(), Dec, data[at..at + 8]), data[at + 8..];
    if src == data {
      assert data[..] == a + data[at..];
      WithinFirst(a, data[at..], from);
    }
    CryptInPlace(c, Dec, data, at);
    Parts(a + x, b, at);
    Parts(a, x, at);
    if src == data {
      Assoc(a, x, b);
      WithinFirst(a, x + b, from);
    }
    XorInPlace(data, at, src, from);
  }

  /** Block `i` of the encryption, by position. */
  lemma {:induction false} CbcEncryptBlock(t: Tables, iv: seq<bv8>, data: seq<bv8>, i: nat)
    requires |iv| == 8 && Aligned(|data|) && Aligned(i) && i + 8 <= |data|
    ensures var c := CbcEncrypt(t, iv, data);
            BlockAt(c, i) == CryptBytes(t, Enc, XorBytes(BlockAt(data, i), Before(iv, c, i)))
    decreases |data|
  {
    hide CryptBytes, XorBytes, CbcEncrypt, Aligned, Before, BlockAt;
    BlockSteps(i, |data|);
    var head := CryptBytes(t, Enc, XorBytes(data[..8], iv));
    var rest := CbcEncrypt(t, head, data[8..]);
    EncryptStep(t, iv, data);
    Halves(data);
    if i == 0 {
      AtFront(head, rest);
      AtFront(data[..8], data[8..]);
      BeforeFirst(iv, head + rest);
    } else {
      CbcEncryptBlock(t, head, data[8..], i - 8);
      InTail(head, rest, i);
      InTail(data[..8], data[8..], i);
      BeforeInTail(iv, head, rest, i);
    }
  }

  /** One block more: the vector is the given one for the first block, and after that the block
      just enciphered. */
  method ChainNext(c: Context, iva: array<bv8>, data: array<bv8>, ghost w: seq<bv8>, ghost rest: seq<bv8>, at: nat)
    requires c.Valid() && iva.Length >= 8 && iva != data
    requires Aligned(|w|) && Aligned(at) && at + 8 <= |w|
    requires data[..] == Joined(CbcEncrypt(c.T(), iva[..8], w), w, rest, at)
    modifies data
    ensures data[..] == Joined(CbcEncrypt(c.T(), iva[..8], w), w, rest, at + 8)
  {
    hide CryptBytes, XorBytes, CbcEncrypt, Joined;
    ghost var t, v := c.T(), iva[..8];
    Window(CbcEncrypt(t, v, w), w, rest, at);
    CbcEncryptBlock(t, v, w, at);
    if at == 0 {
      assert iva[0..8] == v;
      ChainBlock(c, data, iva, at, 0);
    } else {
      ChainBlock(c, data, data, at, at - 8);
    }
  }

  /** `blf_cbc_encrypt`: front to back, each cipher block is the next block's vector. */
  method CbcEncryptInPlace(c: Context, iva: array<bv8>, data: array<bv8>, len: nat)
    requires c.Valid() && iva.Length >= 8 && iva != data && Aligned(len) && len <= data.Length
    modifies data
    ensures data[..] == CbcEncrypt(c.T(), iva[..8], old(data[..len])) + old(data[len..])
  {
    hide CryptBytes, XorBytes, CbcEncrypt, Joined, Aligned;
    AlignedSteps(len, len);
    ghost var w, v, rest := data[..len], iva[..8], data[len..];
    JoinedEnds(CbcEncrypt(c.T(), v, w), w, rest);
    assert data[..] == w + rest;
    var i := 0;
    while i < len
      invariant Aligned(i) && i <= len && iva[..8] == v
      invariant data[..] == Joined(CbcEncrypt(c.T(), v, w), w, rest, i)
    {
      AlignedSteps(i, len);
      ChainNext(c, iva, data, w, rest, i);
      i := i + 8;
    }
  }

  /** One block less: its vector is the cipher block before it, still untouched, or for the first
      block the given one. */
  method UnchainNext(c: Context, iva: array<bv8>, data: array<bv8>, ghost w: seq<bv8>, ghost rest: seq<bv8>, at: nat)
    requires c.Valid() && iva.Length >= 8 && iva != data
    requires Aligned(|w|) && Aligned(at) && at + 8 <= |w|
    requires data[..] == Joined(w, CbcDecrypt(c.T(), iva[..8], w), rest, at + 8)
    modifies data
    ensures data[..] == Joined(w, CbcDecrypt(c.T(), iva[..8], w), rest, at)
  {
    hide CryptBytes, XorBytes, CbcDecrypt, Joined;
    ghost var t, v := c.T(), iva[..8];
    BackTo(w, CbcDecrypt(t, v, w), rest, at);
    CbcDecryptBlock(t, v, w, at);
    if at == 0 {
      assert iva[0..8] == v;
      UnchainBlock(c, data, iva, at, 0);
    } else {
      UnchainBlock(c, data, data, at, at - 8);
    }
  }

  /** `blf_cbc_decrypt`: back to front, because each block still needs the cipher block before it. */
  method CbcDecryptInPlace(c: Context, iva: array<bv8>, data: array<bv8>, len: nat)
    requires c.Valid() && iva.Length >= 8 && iva != data && Aligned(len) && 0 < len <= data.Length
    modifies data
    ensures data[..] == CbcDecrypt(c.T(), iva[..8], old(data[..len])) + old(data[len..])
  {
    hide CryptBytes, XorBytes, CbcDecrypt, Joined, Aligned;
    AlignedSteps(len, len);
    ghost var w, v, rest := data[..len], iva[..8], data[len..];
    JoinedEnds(w, CbcDecrypt(c.T(), v, w), rest);
    assert data[..] == w + rest;
    var i := len - 8;
    while i >= 8
      invariant 0 <= i <= len - 8 && Aligned(i) && iva[..8] == v
      invariant data[..] == Joined(w, CbcDecrypt(c.T(), v, w), rest, i + 8)
    {
      AlignedSteps(i, len);
      UnchainNext(c, iva, data, w, rest, i);
      i := i - 8;
    }
    AlignedSteps(i, len);
    UnchainNext(c, iva, data, w, rest, 0);
  }

  /** The buffer is `q` up to the block's end, then `p`, then `rest`: what the block at `i` still
      sees, and the buffer once that block has become `p`'s. */
  lemma BackTo(q: seq<bv8>, p: seq<bv8>, rest: seq<bv8>, i: nat)
    requires |p| == |q| && i + 8 <= |p|
    ensures var now := Joined(q, p, rest, i + 8);
            && |now| == |p| + |rest|
            && now[i..i + 8] == q[i..i + 8]
            && (i >= 8 ==> now[i - 8..i] == q[i - 8..i])
            && now[..i] + p[i..i + 8] + now[i + 8..] == Joined(q, p, rest, i)
  {
    var now := Joined(q, p, rest, i + 8);
    assert now[..i] == q[..i] && now[i + 8..] == p[i + 8..] + rest;
    assert p[i..] == p[i..i + 8] + p[i + 8..];
  }
}
