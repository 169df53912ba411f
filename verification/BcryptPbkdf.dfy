/** The bcrypt-based key derivation: rounds are chained and mixed, and the output bytes are
    scattered over the key instead of being laid out block after block. */
module BcryptPbkdf {
  import opened Arith
  import opened Blowfish
  import opened BlowfishCipher
  import opened CipherModes

  const HASH_SIZE := 32
  const SHA512_SIZE := 64
  const MAX_SALT := 0x10_0000

  const MAGIC: seq<bv8> := [
    0x4f, 0x78, 0x79, 0x63, 0x68, 0x72, 0x6f, 0x6d, 0x61, 0x74, 0x69, 0x63, 0x42, 0x6c, 0x6f, 0x77,
    0x66, 0x69, 0x73, 0x68, 0x53, 0x77, 0x61, 0x74, 0x44, 0x79, 0x6e, 0x61, 0x6d, 0x69, 0x74, 0x65]

  /** How many rows of column `c` fall inside a key of `len` bytes laid out in `stride` columns. */
  function Rows(len: nat, stride: nat, c: nat): nat
    requires c < stride <= len
  {
    (len - c + stride - 1) / stride
  }

  lemma RowsExactly(len: nat, stride: nat, c: nat)
    requires c < stride <= len
    ensures var n := Rows(len, stride, c); n >= 1 && (n - 1) * stride + c < len <= n * stride + c
  {
    var n, r := Divide(len - c + stride - 1, stride);
    assert n == 0 ==> n * stride == 0;
    assert (n - 1) * stride == n * stride - stride;
  }

  lemma RowsUnique(len: nat, stride: nat, c: nat, n: nat)
    requires c < stride <= len
    requires n * stride + c >= len && (n > 0 ==> (n - 1) * stride + c < len)
    ensures n == Rows(len, stride, c)
  {
    var m := Rows(len, stride, c);
    RowsExactly(len, stride, c);
    if m < n {
      MulLe(m, n - 1, stride);
    } else if n < m {
      MulLe(n, m - 1, stride);
    }
  }

  lemma RowsDecrease(len: nat, stride: nat, c: nat)
    requires c + 1 < stride <= len
    ensures Rows(len, stride, c + 1) <= Rows(len, stride, c)
  {
    RowsExactly(len, stride, c);
    RowsExactly(len, stride, c + 1);
    var m, n := Rows(len, stride, c), Rows(len, stride, c + 1);
    if m < n {
      MulLe(m, n - 1, stride);
    }
  }

  /** The bytes in column `c` and behind it. */
  function Remaining(len: nat, stride: nat, c: nat): nat
    requires c <= stride <= len
    decreases stride - c
  {
    if c == stride then 0 else Rows(len, stride, c) + Remaining(len, stride, c + 1)
  }

  lemma {:induction false} RemainingIs(len: nat, stride: nat, c: nat, a: nat, q: nat)
    requires c <= stride <= len && len == a * stride + q && 1 <= q <= stride
    ensures Remaining(len, stride, c) == (stride - c) * a + if c < q then q - c else 0
    decreases stride - c
  {
    hide Rows;
    if c < stride {
      RemainingIs(len, stride, c + 1, a, q);
      RowsAre(len, stride, c, a, q);
      OneMore(stride - (c + 1), a);
    } else {
      assert (stride - c) * a == 0;
    }
  }

  lemma OneMore(k: nat, a: nat)
    ensures (k + 1) * a == k * a + a
  {
  }

  lemma RowsAre(len: nat, stride: nat, c: nat, a: nat, q: nat)
    requires c < stride <= len && len == a * stride + q && 1 <= q <= stride
    ensures Rows(len, stride, c) == if c < q then a + 1 else a
  {
    hide Rows;
    assert (a + 1) * stride == a * stride + stride;
    assert a > 0 ==> (a - 1) * stride == a * stride - stride;
    RowsUnique(len, stride, c, if c < q then a + 1 else a);
  }

  /** The columns hold all bytes. */
  lemma ColumnsHoldAll(len: nat, stride: nat)
    requires 0 < stride <= len
    ensures Remaining(len, stride, 0) == len
  {
    var a, r := Divide(len - 1, stride);
    RemainingIs(len, stride, 0, a, r + 1);
  }

  /** The number of blocks, and of columns. */
  function Stride(len: nat): nat {
    (len + HASH_SIZE - 1) / HASH_SIZE
  }

  /** No column is longer than one hash. */
  lemma ColumnsFitHash(len: nat)
    requires len > 0
    ensures 0 < Stride(len) <= len
    ensures Rows(len, Stride(len), 0) <= HASH_SIZE
  {
    var n, stride := Rows(len, Stride(len), 0), Stride(len);
    RowsExactly(len, stride, 0);
    if n > HASH_SIZE {
      MulLe(HASH_SIZE, n - 1, stride);
    }
  }

  /** The text that bcrypt enciphers. */
  function MagicText(): (words: seq<bv32>)
    ensures |words| == 8
  {
    seq(8, i requires 0 <= i < 8 => WordAt(MAGIC, 4 * i))
  }

  /** The hash functions underneath: SHA-512 and the Blowfish tables bcrypt starts from. */
  datatype Kdf = Kdf(sha512: seq<bv8> -> seq<bv8>, initial: Tables)
  {
    ghost predicate Valid() {
      forall s :: |sha512(s)| == SHA512_SIZE
    }

    /** Keys and salts alternate for 64 more rounds of expansion. */
    function Expanded(t: Tables, pass: seq<bv8>, salt: seq<bv8>, n: nat): Tables
      requires pass != [] && salt != []
    {
      if n == 0 then t else Expand0(Expand0(Expanded(t, pass, salt, n - 1), salt), pass)
    }

    function Enciphered(t: Tables, words: seq<bv32>, n: nat): (r: seq<bv32>)
      requires |words| == 8
      ensures |r| == 8
    {
      if n == 0 then words else CryptPairs(t, Enc, Enciphered(t, words, n - 1), 0, |words| / 2)
    }

    /** `bcrypt_hash` */
    function BcryptHash(pass: seq<bv8>, salt: seq<bv8>): (out: seq<bv8>)
      requires |pass| == SHA512_SIZE && |salt| == SHA512_SIZE
      ensures |out| == HASH_SIZE
    {
      var t := Expanded(Expand(initial, salt, pass), pass, salt, |pass|);
      LittleEndian(Enciphered(t, MagicText(), |pass|))
    }

    /** Hash number `n` of block `count`: the first is salted with the counted salt, each further
        one with the hash before it. */
    function Hash(pass: seq<bv8>, salt: seq<bv8>, count: nat, n: nat): (r: seq<bv8>)
      requires Valid() && n > 0
      ensures |r| == HASH_SIZE
    {
      BcryptHash(sha512(pass), sha512(if n == 1 then salt + Be32(count) else Hash(pass, salt, count, n - 1)))
    }

    /** Block `count`: its `rounds` hashes mixed together. */
    function KeyBlock(pass: seq<bv8>, salt: seq<bv8>, count: nat, rounds: nat): (r: seq<bv8>)
      requires Valid() && rounds > 0
      ensures |r| == HASH_SIZE
    {
      if rounds == 1 then Hash(pass, salt, count, 1)
      else XorBytes(KeyBlock(pass, salt, count, rounds - 1), Hash(pass, salt, count, rounds))
    }

    /** Byte `d` of the key lies in column `d % stride`, row `d / stride`; row `i` of column `c`
        is byte `i` of block `c + 1`. */
    function DerivedKey(pass: seq<bv8>, salt: seq<bv8>, len: nat, rounds: nat): (key: seq<bv8>)
      requires Valid() && len > 0 && rounds > 0
      ensures |key| == len
    {
      var stride := Stride(len);
      seq(len, d requires 0 <= d < len =>
        RowFitsHash(len, d);
        KeyBlock(pass, salt, Column(d, stride) + 1, rounds)[Row(d, stride)])
    }
  }

  function Column(d: nat, stride: nat): (c: nat)
    requires stride > 0
    ensures c < stride
  {
    d % stride
  }

  function Row(d: nat, stride: nat): (i: nat)
    requires stride > 0
    ensures d == i * stride + Column(d, stride)
  {
    d / stride
  }

  /** Where row `i` of column `c` lies. */
  function Place(i: nat, c: nat, stride: nat): nat {
    i * stride + c
  }

  lemma RowFitsHash(len: nat, d: nat)
    requires d < len
    ensures Stride(len) > 0 && Row(d, Stride(len)) < HASH_SIZE
  {
    var i := Row(d, Stride(len));
    if i >= HASH_SIZE {
      MulLe(HASH_SIZE, i, Stride(len));
    }
  }

  /** The counter appended to the salt. */
  function Be32(count: nat): (b: seq<bv8>)
    ensures |b| == 4
  {
    FromWord((count % 0x1_0000_0000) as bv32)
  }

  function LittleEndian(words: seq<bv32>): (b: seq<bv8>)
    requires |words| == 8
    ensures |b| == HASH_SIZE
  {
    seq(HASH_SIZE, i requires 0 <= i < HASH_SIZE => FromWord(words[i / 4])[3 - i % 4])
  }

  /** The blocks one after another, as section 5.2 of RFC 8018 lays them out. */
  function Linear(kdf: Kdf, pass: seq<bv8>, salt: seq<bv8>, rounds: nat, n: nat): (r: seq<bv8>)
    requires kdf.Valid() && rounds > 0
    ensures |r| == HASH_SIZE * n
  {
    if n == 0 then [] else Linear(kdf, pass, salt, rounds, n - 1) + kdf.KeyBlock(pass, salt, n, rounds)
  }

  lemma {:induction false} LinearAt(kdf: Kdf, pass: seq<bv8>, salt: seq<bv8>, rounds: nat, n: nat, c: nat, i: nat)
    requires kdf.Valid() && rounds > 0 && c < n && i < HASH_SIZE
    ensures Linear(kdf, pass, salt, rounds, n)[HASH_SIZE * c + i] == kdf.KeyBlock(pass, salt, c + 1, rounds)[i]
    decreases n
  {
    hide Kdf.KeyBlock;
    if c < n - 1 {
      LinearAt(kdf, pass, salt, rounds, n - 1, c, i);
    }
  }

  /** The place of key byte `d` in the linear output: rows and columns are exchanged. */
  function Source(len: nat, d: nat): (p: nat)
    requires d < len
    ensures p < HASH_SIZE * Stride(len)
  {
    RowFitsHash(len, d);
    HASH_SIZE * Column(d, Stride(len)) + Row(d, Stride(len))
  }

  /** Every key byte is a byte of the linear output. */
  lemma KeyIsTransposed(kdf: Kdf, pass: seq<bv8>, salt: seq<bv8>, len: nat, rounds: nat, d: nat)
    requires kdf.Valid() && rounds > 0 && d < len
    ensures kdf.DerivedKey(pass, salt, len, rounds)[d] == Linear(kdf, pass, salt, rounds, Stride(len))[Source(len, d)]
  {
    hide Kdf.KeyBlock, Linear, Stride, Row, Column;
    RowFitsHash(len, d);
    LinearAt(kdf, pass, salt, rounds, Stride(len), Column(d, Stride(len)), Row(d, Stride(len)));
  }

  /** No byte of the linear output is used twice. */
  lemma SourceInjective(len: nat, d: nat, d': nat)
    requires d < len && d' < len && Source(len, d) == Source(len, d')
    ensures d == d'
  {
    hide Stride, Row, Column;
    RowFitsHash(len, d);
    RowFitsHash(len, d');
  }

  /** `bcrypt_hash` */
  method ComputeHash(kdf: Kdf, pass: seq<bv8>, salt: seq<bv8>) returns (out: array<bv8>)
    requires |pass| == SHA512_SIZE && |salt| == SHA512_SIZE
    ensures fresh(out) && out[..] == kdf.BcryptHash(pass, salt)
  {
    hide Expand, Expand0, CryptPairs, WordAt, FromWord;
    var state := new Context(kdf.initial);
    state.ExpandState(salt, pass);
    ghost var t := state.T();
    assert t == Expand(kdf.initial, salt, pass);
    for i := 0 to SHA512_SIZE
      invariant state.T() == kdf.Expanded(t, pass, salt, i)
    {
      state.Expand0State(salt);
      state.Expand0State(pass);
    }
    var cdata := MagicWords();
    ghost var words, e := cdata[..], kdf.Expanded(t, pass, salt, |pass|);
    for i := 0 to SHA512_SIZE
      invariant state.T() == e && cdata[..] == kdf.Enciphered(e, words, i)
    {
      BlfCrypt(state, Enc, cdata, 0, 4);
    }
    out := CopyOut(cdata);
  }

  method MagicWords() returns (cdata: array<bv32>)
    ensures fresh(cdata) && cdata[..] == MagicText()
  {
    hide WordAt;
    cdata := new bv32[8];
    var j := 0;
    for i := 0 to 8
      invariant Context.StandsAt(j, 4 * i, |MAGIC|)
      invariant forall k :: 0 <= k < i ==> cdata[k] == WordAt(MAGIC, 4 * k)
    {
      cdata[i], j := Context.Stream2Word(MAGIC, j, 4 * i);
    }
  }

  method CopyOut(cdata: array<bv32>) returns (out: array<bv8>)
    requires cdata.Length == 8
    ensures fresh(out) && out[..] == LittleEndian(cdata[..])
  {
    hide FromWord;
    out := new bv8[HASH_SIZE];
    for i := 0 to 8
      invariant out[..4 * i] == LittleEndian(cdata[..])[..4 * i]
    {
      var w := FromWord(cdata[i]);
      out[4 * i + 3] := w[0];
      out[4 * i + 2] := w[1];
      out[4 * i + 1] := w[2];
      out[4 * i + 0] := w[3];
      FourBytes(cdata[..], i);
      assert out[..4 * (i + 1)] == out[..4 * i] + [w[3], w[2], w[1], w[0]];
    }
    assert out[..] == out[..HASH_SIZE];
  }

  lemma FourBytes(words: seq<bv32>, i: nat)
    requires |words| == 8 && i < 8
    ensures var w := FromWord(words[i]); var b := LittleEndian(words);
            b[..4 * (i + 1)] == b[..4 * i] + [w[3], w[2], w[1], w[0]]
  {
    hide FromWord, LittleEndian;
    ByteOrder(words, i);
    FourMore(LittleEndian(words), 4 * i);
  }

  lemma ByteOrder(words: seq<bv32>, i: nat)
    requires |words| == 8 && i < 8
    ensures var w := FromWord(words[i]); var b := LittleEndian(words);
            && |b| == 32
            && b[4 * i] == w[3] && b[4 * i + 1] == w[2] && b[4 * i + 2] == w[1] && b[4 * i + 3] == w[0]
  {
    hide FromWord;
  }

  lemma FourMore(b: seq<bv8>, at: nat)
    requires at + 4 <= |b|
    ensures b[..at + 4] == b[..at] + [b[at], b[at + 1], b[at + 2], b[at + 3]]
  {
  }

  /** The rounds of one block. */
  method ComputeBlock(kdf: Kdf, pass: seq<bv8>, salt: seq<bv8>, count: nat, rounds: nat) returns (out: array<bv8>)
    requires kdf.Valid() && rounds > 0
    ensures fresh(out) && out.Length == HASH_SIZE && out[..] == kdf.KeyBlock(pass, salt, count, rounds)
  {
    hide Kdf.BcryptHash, Be32;
    var sha2pass := kdf.sha512(pass);
    var tmpout := ComputeHash(kdf, sha2pass, kdf.sha512(salt + Be32(count)));
    out := new bv8[HASH_SIZE](j requires 0 <= j < HASH_SIZE && j < tmpout.Length reads tmpout => tmpout[j]);
    assert out[..] == tmpout[..];
    for i := 1 to rounds
      invariant tmpout.Length == HASH_SIZE && tmpout[..] == kdf.Hash(pass, salt, count, i)
      invariant out[..] == kdf.KeyBlock(pass, salt, count, i)
    {
      tmpout := ComputeHash(kdf, sha2pass, kdf.sha512(tmpout[..]));
      XorInto(out, tmpout);
    }
  }

  method XorInto(out: array<bv8>, tmpout: array<bv8>)
    requires out != tmpout && out.Length == tmpout.Length
    modifies out
    ensures out[..] == XorBytes(old(out[..]), tmpout[..])
  {
    for j := 0 to out.Length
      invariant forall k :: 0 <= k < j ==> out[k] == old(out[k]) ^ tmpout[k]
      invariant forall k :: j <= k < out.Length ==> out[k] == old(out[k])
    {
      out[j] := out[j] ^ tmpout[j];
    }
  }

  /** The key bytes of the first `c` columns and of the first `i` rows of column `c`. */
  ghost predicate Covered(d: nat, stride: nat, c: nat, i: nat)
    requires stride > 0
  {
    Column(d, stride) < c || (Column(d, stride) == c && Row(d, stride) < i)
  }

  /** The bytes written so far are right, and each index was written once. */
  ghost predicate Scattered(key: seq<bv8>, want: seq<bv8>, writes: seq<nat>, stride: nat, c: nat, i: nat)
    requires stride > 0 && |want| <= |key|
  {
    && (forall d: nat :: d < |want| && Covered(d, stride, c, i) ==> key[d] == want[d] && d in writes)
    && (forall k :: 0 <= k < |writes| ==> writes[k] < |want| && Covered(writes[k], stride, c, i))
    && (forall j, k :: 0 <= j < k < |writes| ==> writes[j] != writes[k])
  }

  lemma CoversNext(d: nat, stride: nat, c: nat, i: nat)
    requires c < stride
    ensures Column(i * stride + c, stride) == c && Row(i * stride + c, stride) == i
    ensures Covered(d, stride, c, i + 1) <==> Covered(d, stride, c, i) || d == i * stride + c
  {
    DivModUnique(i * stride + c, stride, i, c);
  }

  /** `key[dest] = out[i]` */
  method Scatter(key: array<bv8>, ghost want: seq<bv8>, ghost writes0: seq<nat>, dest: nat, b: bv8,
                 ghost stride: nat, ghost c: nat, ghost i: nat) returns (ghost writes: seq<nat>)
    requires c < stride && dest == i * stride + c < |want| <= key.Length && b == want[dest]
    requires Scattered(key[..], want, writes0, stride, c, i)
    modifies key
    ensures Scattered(key[..], want, writes, stride, c, i + 1)
    ensures key[|want|..] == old(key[|want|..]) && |writes| == |writes0| + 1
  {
    forall d: nat ensures Covered(d, stride, c, i + 1) <==> Covered(d, stride, c, i) || d == dest {
      CoversNext(d, stride, c, i);
    }
    assert !Covered(dest, stride, c, i) by { CoversNext(dest, stride, c, i); }
    hide Covered;
    key[dest] := b;
    writes := writes0 + [dest];
  }

  /** One column: the first `amt` bytes of the block, as far as the key reaches. */
  method ScatterColumn(key: array<bv8>, ghost want: seq<bv8>, ghost writes0: seq<nat>, out: array<bv8>,
                       stride: nat, c: nat, amt: nat, origkeylen: nat)
    returns (i: nat, ghost writes: seq<nat>)
    requires key != out && |want| == origkeylen <= key.Length && c < stride <= origkeylen
    requires Rows(origkeylen, stride, c) <= amt <= out.Length
    requires forall k: nat :: k < out.Length && Place(k, c, stride) < origkeylen ==> out[k] == want[Place(k, c, stride)]
    requires Scattered(key[..], want, writes0, stride, c, 0)
    modifies key
    ensures i == Rows(origkeylen, stride, c) && |writes| == |writes0| + i
    ensures Scattered(key[..], want, writes, stride, c, i) && key[origkeylen..] == old(key[origkeylen..])
  {
    hide Scattered, Rows;
    i := 0;
    writes := writes0;
    RowsExactly(origkeylen, stride, c);
    while i < amt
      invariant i <= amt && |writes| == |writes0| + i
      invariant i > 0 ==> (i - 1) * stride + c < origkeylen
      invariant Scattered(key[..], want, writes, stride, c, i)
      invariant key[origkeylen..] == old(key[origkeylen..])
    {
      var dest := Place(i, c, stride);
      if dest >= origkeylen {
        break;
      }
      writes := Scatter(key, want, writes, dest, out[i], stride, c, i);
      i := i + 1;
    }
    ColumnDone(origkeylen, stride, c, i, amt);
  }

  lemma ColumnDone(len: nat, stride: nat, c: nat, i: nat, amt: nat)
    requires c < stride <= len && i <= amt && Rows(len, stride, c) <= amt
    requires i > 0 ==> (i - 1) * stride + c < len
    requires i == amt || i * stride + c >= len
    ensures i == Rows(len, stride, c)
  {
    if i * stride + c >= len {
      RowsUnique(len, stride, c, i);
    } else {
      RowsExactly(len, stride, c);
      MulLe(Rows(len, stride, c), i, stride);
    }
  }

  /** A finished column is the start of the next one. */
  lemma NextColumn(key: seq<bv8>, want: seq<bv8>, writes: seq<nat>, stride: nat, c: nat)
    requires c < stride <= |want| <= |key|
    requires Scattered(key, want, writes, stride, c, Rows(|want|, stride, c))
    ensures Scattered(key, want, writes, stride, c + 1, 0)
  {
    var n := Rows(|want|, stride, c);
    RowsExactly(|want|, stride, c);
    forall d: nat | d < |want|
      ensures Covered(d, stride, c + 1, 0) ==> Covered(d, stride, c, n)
    {
      if Column(d, stride) == c && n <= Row(d, stride) {
        MulLe(n, Row(d, stride), stride);
      }
    }
    forall d: nat ensures Covered(d, stride, c, n) ==> Covered(d, stride, c + 1, 0) {
    }
    hide Covered;
  }

  /** The loop of `bcrypt_pbkdf`. It makes `stride` blocks, reads no block beyond its 32 bytes and
      writes every index of the key once. */
  method GenerateKey(kdf: Kdf, pass: seq<bv8>, salt: seq<bv8>, key: array<bv8>, origkeylen: nat, rounds: nat)
    returns (ghost blocks: nat, ghost writes: seq<nat>)
    requires kdf.Valid() && 0 < origkeylen <= key.Length && rounds > 0
    modifies key
    ensures key[..origkeylen] == kdf.DerivedKey(pass, salt, origkeylen, rounds)
    ensures key[origkeylen..] == old(key[origkeylen..])
    ensures blocks == Stride(origkeylen) && |writes| == origkeylen
    ensures forall d: nat :: d < origkeylen ==> d in writes
    ensures forall j, k :: 0 <= j < k < |writes| ==> writes[j] != writes[k]
  {
    hide Scattered, Rows, Kdf.KeyBlock, Remaining;
    var stride := (origkeylen + HASH_SIZE - 1) / HASH_SIZE;
    var amt := (origkeylen + stride - 1) / stride;
    ghost var want := kdf.DerivedKey(pass, salt, origkeylen, rounds);
    var keylen := origkeylen;
    var count := 1;
    writes := [];
    ColumnsFitHash(origkeylen);
    ColumnsHoldAll(origkeylen, stride);
    FirstColumn(origkeylen, stride);
    NothingScattered(key[..], want, stride);
    while keylen > 0
      invariant 1 <= count <= stride + 1 && amt <= HASH_SIZE
      invariant count <= stride ==> Rows(origkeylen, stride, count - 1) <= amt
      invariant keylen == Remaining(origkeylen, stride, count - 1) == origkeylen - |writes|
      invariant Scattered(key[..], want, writes, stride, count - 1, 0)
      invariant key[origkeylen..] == old(key[origkeylen..])
      decreases keylen
    {
      RemainingStep(origkeylen, stride, count - 1);
      var out := ComputeBlock(kdf, pass, salt, count, rounds);
      WantedColumn(kdf, pass, salt, origkeylen, rounds, stride, count - 1);
      amt := if amt < keylen then amt else keylen;
      var i;
      i, writes := ScatterColumn(key, want, writes, out, stride, count - 1, amt, origkeylen);
      NextColumn(key[..], want, writes, stride, count - 1);
      keylen := keylen - i;
      count := count + 1;
    }
    RemainingNone(origkeylen, stride, count - 1);
    blocks := count - 1;
    AllScattered(key[..], want, writes, stride);
  }

  lemma NothingScattered(key: seq<bv8>, want: seq<bv8>, stride: nat)
    requires stride > 0 && |want| <= |key|
    ensures Scattered(key, want, [], stride, 0, 0)
  {
  }

  lemma AllScattered(key: seq<bv8>, want: seq<bv8>, writes: seq<nat>, stride: nat)
    requires stride > 0 && |want| <= |key| && Scattered(key, want, writes, stride, stride, 0)
    ensures key[..|want|] == want && (forall d: nat :: d < |want| ==> d in writes)
    ensures forall j, k :: 0 <= j < k < |writes| ==> writes[j] != writes[k]
  {
    forall d: nat ensures Covered(d, stride, stride, 0) {
    }
  }

  lemma RemainingStep(len: nat, stride: nat, c: nat)
    requires c <= stride <= len && Remaining(len, stride, c) > 0
    ensures c < stride && Remaining(len, stride, c) == Rows(len, stride, c) + Remaining(len, stride, c + 1)
    ensures Rows(len, stride, c) > 0 && (c + 1 < stride ==> Rows(len, stride, c + 1) <= Rows(len, stride, c))
  {
    RowsExactly(len, stride, c);
    if c + 1 < stride {
      RowsDecrease(len, stride, c);
    }
  }

  lemma RemainingNone(len: nat, stride: nat, c: nat)
    requires c <= stride <= len && Remaining(len, stride, c) == 0
    ensures c == stride
  {
    if c < stride {
      RowsExactly(len, stride, c);
    }
  }

  /** Row `i` of a column is byte `i` of its block. */
  lemma WantedColumn(kdf: Kdf, pass: seq<bv8>, salt: seq<bv8>, len: nat, rounds: nat, stride: nat, c: nat)
    requires kdf.Valid() && len > 0 && rounds > 0 && c < stride == Stride(len)
    ensures forall i: nat :: i < HASH_SIZE && Place(i, c, stride) < len ==>
              kdf.KeyBlock(pass, salt, c + 1, rounds)[i] == kdf.DerivedKey(pass, salt, len, rounds)[Place(i, c, stride)]
  {
    hide Kdf.KeyBlock;
    forall i: nat | i < HASH_SIZE && Place(i, c, stride) < len
      ensures kdf.KeyBlock(pass, salt, c + 1, rounds)[i] == kdf.DerivedKey(pass, salt, len, rounds)[Place(i, c, stride)]
    {
      CoversNext(0, stride, c, i);
    }
  }

  lemma FirstColumn(len: nat, stride: nat)
    requires 0 < stride <= len
    ensures Rows(len, stride, 0) == (len + stride - 1) / stride
  {
  }

  /** `bcrypt_pbkdf` */
  method BcryptPbkdf(kdf: Kdf, pass: seq<bv8>, salt: seq<bv8>, key: array<bv8>, keylen: nat, rounds: nat)
    returns (rc: int, ghost writes: seq<nat>)
    requires kdf.Valid() && keylen <= key.Length
    modifies key
    ensures rc == 0 || rc == -1
    ensures rc == -1 <==> rounds < 1 || pass == [] || salt == [] || keylen == 0
                          || keylen > HASH_SIZE * HASH_SIZE || |salt| > MAX_SALT
    ensures rc == -1 ==> key[..] == old(key[..])
    ensures rc == 0 ==> key[..keylen] == kdf.DerivedKey(pass, salt, keylen, rounds) && key[keylen..] == old(key[keylen..])
    ensures rc == 0 ==> |writes| == keylen && forall d: nat :: d < keylen ==> d in writes
  {
    writes := [];
    if rounds < 1 {
      return -1, writes;
    }
    if pass == [] || salt == [] || keylen == 0 || keylen > HASH_SIZE * HASH_SIZE || |salt| > MAX_SALT {
      return -1, writes;
    }
    ghost var blocks;
    blocks, writes := GenerateKey(kdf, pass, salt, key, keylen, rounds);
    return 0, writes;
  }
}
