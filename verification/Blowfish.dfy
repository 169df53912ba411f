/** The Blowfish block cipher: its Feistel network and its two key schedules. */
module Blowfish {
  import opened Arith

  const N := 16
  const SUBKEYS := N + 2
  const SBOX_WORDS := 4 * 0x100

  type SBoxes = s: seq<bv32> | |s| == SBOX_WORDS witness seq(SBOX_WORDS, _ => 0)
  type Subkeys = p: seq<bv32> | |p| == SUBKEYS witness seq(SUBKEYS, _ => 0)

  /** The four S-boxes, laid out one behind the other as the cipher reads them, and the subkeys. */
  datatype Tables = Tables(S: SBoxes, P: Subkeys)

  function Octet(x: bv32): (i: nat)
    ensures i < 0x100
  {
    (x & 0xFF) as nat
  }

  function F(s: SBoxes, x: bv32): bv32 {
    ((s[Octet(x >> 24)] + s[0x100 + Octet(x >> 16)]) ^ s[0x200 + Octet(x >> 8)]) + s[0x300 + Octet(x)]
  }

  function Xor(a: bv32, b: bv32): bv32 {
    a ^ b
  }

  /** The two halves of a block. */
  datatype Block = Block(l: bv32, r: bv32)

  /** One round: the subkey goes into the left half, its image into the right half, and the
      halves are swapped. */
  function Round(s: SBoxes, k: bv32, b: Block): Block {
    Block(Xor(b.r, F(s, Xor(b.l, k))), Xor(b.l, k))
  }

  /** The last swap undone, with the last two subkeys mixed in. */
  function Finish(k16: bv32, k17: bv32, b: Block): Block {
    Block(Xor(b.r, k17), Xor(b.l, k16))
  }

  /** The first `n` rounds of the cipher as Schneier defines it. */
  function Rounds(s: SBoxes, p: Subkeys, n: nat, b: Block): Block
    requires n <= N
  {
    if n == 0 then b else Round(s, p[n - 1], Rounds(s, p, n - 1, b))
  }

  function Encipher(t: Tables, b: Block): Block {
    Finish(t.P[16], t.P[17], Rounds(t.S, t.P, |t.P| - 2, b))
  }

  function Reverse(p: Subkeys): Subkeys {
    seq(SUBKEYS, i requires 0 <= i < SUBKEYS => p[SUBKEYS - 1 - i])
  }

  /** Deciphering is enciphering with the subkeys in reverse order. */
  function Decipher(t: Tables, b: Block): Block {
    Encipher(Tables(t.S, Reverse(t.P)), b)
  }

  /** One round on the finished block undoes the last round before it was finished. */
  lemma UndoRound(s: SBoxes, k: bv32, k16: bv32, k17: bv32, b: Block)
    ensures Round(s, k17, Finish(k16, k17, Round(s, k, b))) == Finish(k, k16, b)
  {
    var q := Xor(b.l, k);
    UndoXor(q, k17);
    UndoXors(b.r, F(s, q), k16);
    hide F, Xor;
  }

  lemma UndoXor(a: bv32, k: bv32)
    ensures Xor(Xor(a, k), k) == a
  {
  }

  lemma UndoXors(r: bv32, f: bv32, k: bv32)
    ensures Xor(Xor(Xor(r, f), k), f) == Xor(r, k)
  {
    XorCommutes(Xor(r, f), k, f);
    UndoXor(r, f);
    hide Xor;
  }

  lemma XorCommutes(a: bv32, b: bv32, c: bv32)
    ensures Xor(Xor(a, b), c) == Xor(Xor(a, c), b)
  {
    XorTwice(a, b, c);
    XorTwice(a, c, b);
    BitsCommute(a, b, c);
    hide Xor;
  }

  lemma XorTwice(a: bv32, b: bv32, c: bv32)
    ensures Xor(Xor(a, b), c) == (a ^ b) ^ c
  {
  }

  lemma BitsCommute(a: bv32, b: bv32, c: bv32)
    ensures (a ^ b) ^ c == (a ^ c) ^ b
  {
  }

  /** Running the rounds backwards from the output meets the rounds run forwards. */
  lemma {:induction false} RoundsMeet(t: Tables, n: nat, b: Block)
    requires n <= N
    ensures Rounds(t.S, Reverse(t.P), n, Encipher(t, b))
         == Finish(t.P[16 - n], t.P[17 - n], Rounds(t.S, t.P, N - n, b))
  {
    hide Round, Finish;
    if n > 0 {
      RoundsMeet(t, n - 1, b);
      UndoRound(t.S, t.P[N - n], t.P[17 - n], t.P[18 - n], Rounds(t.S, t.P, N - n, b));
    }
  }

  lemma Undo(t: Tables, b: Block)
    ensures Encipher(Tables(t.S, Reverse(t.P)), Encipher(t, b)) == b
  {
    RoundsMeet(t, N, b);
    FinishTwice(t.P[0], t.P[1], b);
    hide Round, Finish;
  }

  lemma FinishTwice(k0: bv32, k1: bv32, b: Block)
    ensures Finish(k1, k0, Finish(k0, k1, b)) == b
  {
    UndoXor(b.l, k0);
    UndoXor(b.r, k1);
    hide Xor;
  }

  /** Deciphering undoes enciphering, and the other way round, for any tables. */
  lemma DecipherEncipher(t: Tables, b: Block)
    ensures Decipher(t, Encipher(t, b)) == b
    ensures Encipher(t, Decipher(t, b)) == b
  {
    Undo(t, b);
    Undo(Tables(t.S, Reverse(t.P)), b);
    assert Reverse(Reverse(t.P)) == t.P;
    hide Round, Finish;
  }

  /** The word at position `pos` of the endlessly repeated data. */
  function WordAt(data: seq<bv8>, pos: nat): bv32
    requires data != []
  {
    Pack(Cyclic(data, pos), Cyclic(data, pos + 1), Cyclic(data, pos + 2), Cyclic(data, pos + 3))
  }

  function Cyclic(data: seq<bv8>, pos: nat): bv8
    requires data != []
  {
    data[pos % |data|]
  }

  function Pack(a: bv8, b: bv8, c: bv8, d: bv8): bv32 {
    Shift(Shift(Shift(a as bv32, b), c), d)
  }

  /** `temp = (temp << 8) | data[j]` */
  function Shift(temp: bv32, b: bv8): bv32 {
    (temp << 8) | b as bv32
  }

  /** The subkeys with the repeated key mixed in, four bytes each. */
  function MixKey(p: Subkeys, key: seq<bv8>): Subkeys
    requires key != []
  {
    seq(SUBKEYS, i requires 0 <= i < SUBKEYS => Xor(p[i], WordAt(key, 4 * i)))
  }

  /** The state of a key schedule: the tables so far and the last block produced. */
  datatype Schedule = Schedule(t: Tables, last: Block)

  const STEPS := (SUBKEYS + SBOX_WORDS) / 2

  /** Writes the `k`-th pair of words: the subkeys come first, then the S-boxes. */
  function SetPair(t: Tables, k: nat, b: Block): Tables
    requires k < STEPS
  {
    if 2 * k < SUBKEYS then t.(P := t.P[2 * k := b.l][2 * k + 1 := b.r])
    else t.(S := t.S[2 * k - SUBKEYS := b.l][2 * k - SUBKEYS + 1 := b.r])
  }

  /** The current block enciphered with the current tables replaces the next pair of words. */
  function Advance(s: Schedule, k: nat): Schedule
    requires k < STEPS
  {
    var b := Encipher(s.t, s.last);
    Schedule(SetPair(s.t, k, b), b)
  }

  function Expand0From(s: Schedule, n: nat): Schedule
    requires n <= STEPS
  {
    if n == 0 then s else Advance(Expand0From(s, n - 1), n - 1)
  }

  /** With salt, eight more salt bytes go into the block before every step. */
  function Salted(s: Schedule, salt: seq<bv8>, k: nat): Schedule
    requires salt != []
  {
    s.(last := Block(Xor(s.last.l, WordAt(salt, 8 * k)), Xor(s.last.r, WordAt(salt, 8 * k + 4))))
  }

  function ExpandFrom(s: Schedule, salt: seq<bv8>, n: nat): Schedule
    requires n <= STEPS && salt != []
  {
    if n == 0 then s else Advance(Salted(ExpandFrom(s, salt, n - 1), salt, n - 1), n - 1)
  }

  function Start(t: Tables, key: seq<bv8>): Schedule
    requires key != []
  {
    Schedule(Tables(t.S, MixKey(t.P, key)), Block(0, 0))
  }

  /** `Blowfish_expand0state` */
  function Expand0(t: Tables, key: seq<bv8>): Tables
    requires key != []
  {
    Expand0From(Start(t, key), (|t.P| + |t.S|) / 2).t
  }

  /** `Blowfish_expandstate` */
  function Expand(t: Tables, salt: seq<bv8>, key: seq<bv8>): Tables
    requires salt != [] && key != []
  {
    ExpandFrom(Start(t, key), salt, (|t.P| + |t.S|) / 2).t
  }

  /** An all-zero salt, however long, is no salt. */
  lemma ZeroSaltIsNoSalt(t: Tables, salt: seq<bv8>, key: seq<bv8>)
    requires salt != [] && key != [] && forall i :: 0 <= i < |salt| ==> salt[i] == 0
    ensures Expand(t, salt, key) == Expand0(t, key)
  {
    ZeroSaltSteps(Start(t, key), salt, (|t.P| + |t.S|) / 2);
  }

  lemma {:induction false} ZeroSaltSteps(s: Schedule, salt: seq<bv8>, n: nat)
    requires n <= STEPS && salt != [] && forall i :: 0 <= i < |salt| ==> salt[i] == 0
    ensures ExpandFrom(s, salt, n) == Expand0From(s, n)
    decreases n
  {
    hide Advance, Salted;
    if n > 0 {
      ZeroSaltSteps(s, salt, n - 1);
      ZeroSalted(Expand0From(s, n - 1), salt, n - 1);
    }
  }

  lemma ZeroSalted(s: Schedule, salt: seq<bv8>, k: nat)
    requires salt != [] && forall i :: 0 <= i < |salt| ==> salt[i] == 0
    ensures Salted(s, salt, k) == s
  {
    XorZero(s.last.l);
    XorZero(s.last.r);
    assert Cyclic(salt, 8 * k) == Cyclic(salt, 8 * k + 1) == Cyclic(salt, 8 * k + 2) == Cyclic(salt, 8 * k + 3) == 0;
    assert Cyclic(salt, 8 * k + 4) == Cyclic(salt, 8 * k + 5) == Cyclic(salt, 8 * k + 6) == Cyclic(salt, 8 * k + 7) == 0;
    hide Xor, Pack, Cyclic;
  }

  lemma XorZero(a: bv32)
    ensures Xor(a, Pack(0, 0, 0, 0)) == a
  {
  }

  /** The schedule depends on the first 72 bytes of the repeated key only. */
  lemma OnlySeventyTwoBytesCount(t: Tables, salt: seq<bv8>, key: seq<bv8>, key': seq<bv8>)
    requires salt != [] && key != [] && key' != []
    requires forall i :: 0 <= i < 72 ==> Cyclic(key, i) == Cyclic(key', i)
    ensures Expand0(t, key) == Expand0(t, key')
    ensures Expand(t, salt, key) == Expand(t, salt, key')
  {
    forall i | 0 <= i < SUBKEYS ensures WordAt(key, 4 * i) == WordAt(key', 4 * i) {
    }
    assert MixKey(t.P, key) == MixKey(t.P, key');
    hide Expand0From, ExpandFrom;
  }

  /** A key and the key doubled give the same tables. */
  lemma DoubledKey(t: Tables, salt: seq<bv8>, key: seq<bv8>)
    requires salt != [] && key != []
    ensures Expand0(t, key + key) == Expand0(t, key)
    ensures Expand(t, salt, key + key) == Expand(t, salt, key)
  {
    forall i | 0 <= i < 72 ensures Cyclic(key + key, i) == Cyclic(key, i) {
      DoubledCycle(key, i);
    }
    OnlySeventyTwoBytesCount(t, salt, key + key, key);
    hide Expand0, Expand;
  }

  lemma DoubledCycle(key: seq<bv8>, i: nat)
    requires key != []
    ensures Cyclic(key + key, i) == Cyclic(key, i)
  {
    ModDouble(i, |key|);
    var m := i % (2 * |key|);
    assert |key + key| == 2 * |key|;
    if m < |key| {
      DivModUnique(m, |key|, 0, m);
    } else {
      DivModUnique(m, |key|, 1, m - |key|);
    }
  }
}
