/** The cipher's context and its operations on words and bytes, in place. */
module BlowfishCipher {
  import opened Arith
  import opened Blowfish

  /** One line of the unrolled cipher: two rounds without swapping, each half in turn. */
  function Line(s: SBoxes, p: Subkeys, i: nat, j: nat, x: Block): Block
    requires i < SUBKEYS && j < SUBKEYS
  {
    var r := Xor(x.r, Xor(F(s, x.l), p[i]));
    Block(Xor(x.l, Xor(F(s, r), p[j])), r)
  }

  /** Where the unrolled code stands after `n` rounds: the next subkey is mixed in already. */
  function Unrolled(t: Tables, n: nat, b: Block): Block
    requires n <= N
  {
    var c := Rounds(t.S, t.P, n, b);
    Block(Xor(c.l, t.P[n]), c.r)
  }

  lemma XorAssociates(a: bv32, b: bv32, c: bv32)
    ensures Xor(a, Xor(b, c)) == Xor(Xor(a, b), c)
  {
    BitsAssociate(a, b, c);
  }

  lemma BitsAssociate(a: bv32, b: bv32, c: bv32)
    ensures a ^ (b ^ c) == (a ^ b) ^ c
  {
  }

  lemma {:induction false} UnrolledStep(t: Tables, n: nat, b: Block)
    requires n + 2 <= N
    ensures Line(t.S, t.P, n + 1, n + 2, Unrolled(t, n, b)) == Unrolled(t, n + 2, b)
  {
    var c := Rounds(t.S, t.P, n, b);
    var d := Rounds(t.S, t.P, n + 1, b);
    assert d == Round(t.S, t.P[n], c);
    assert Rounds(t.S, t.P, n + 2, b) == Round(t.S, t.P[n + 1], d);
    XorAssociates(c.r, F(t.S, Xor(c.l, t.P[n])), t.P[n + 1]);
    XorAssociates(d.r, F(t.S, Xor(d.l, t.P[n + 1])), t.P[n + 2]);
    hide Xor, F, Rounds;
  }

  lemma UnrolledStepDown(t: Tables, n: nat, b: Block)
    requires n + 2 <= N
    ensures var t' := Tables(t.S, Reverse(t.P));
            Line(t.S, t.P, 16 - n, 15 - n, Unrolled(t', n, b)) == Unrolled(t', n + 2, b)
  {
    UnrolledStep(Tables(t.S, Reverse(t.P)), n, b);
    hide Unrolled, Xor, F;
  }

  class Context {
    const S: array<bv32>
    const P: array<bv32>

    constructor (t: Tables)
      ensures Valid() && fresh(S) && fresh(P) && T() == t
    {
      S := new bv32[SBOX_WORDS](i requires 0 <= i < SBOX_WORDS => t.S[i]);
      P := new bv32[SUBKEYS](i requires 0 <= i < SUBKEYS => t.P[i]);
      new;
      assert S[..] == t.S && P[..] == t.P;
    }

    ghost predicate Valid() {
      S.Length == SBOX_WORDS && P.Length == SUBKEYS && S != P
    }

    ghost function T(): Tables
      requires Valid()
      reads S, P
    {
      Tables(S[..], P[..])
    }

    /** `Blowfish_encipher` */
    method BlowfishEncipher(xl: bv32, xr: bv32) returns (b: Block)
      requires Valid()
      ensures b == Encipher(T(), Block(xl, xr))
    {
      var s: SBoxes, p: Subkeys := S[..], P[..];
      ghost var t, b0 := Tables(s, p), Block(xl, xr);
      RoundsStart(t, b0);
      RoundsEnd(t, b0);
      hide Unrolled, Xor, Encipher;
      b := Block(Xor(xl, p[0]), xr);
      b := EncipherFront(s, p, b, b0);
      b := EncipherBack(s, p, b, b0);
      b := Block(Xor(b.r, p[17]), b.l);
    }

    static method EncipherFront(s: SBoxes, p: Subkeys, x0: Block, ghost b: Block) returns (x: Block)
      requires x0 == Unrolled(Tables(s, p), 0, b)
      ensures x == Unrolled(Tables(s, p), 8, b)
    {
      ghost var t := Tables(s, p);
      hide Unrolled, Line, Reverse;
      x := x0;
      x := Line(s, p, 1, 2, x);
      UnrolledStep(t, 0, b);
      x := Line(s, p, 3, 4, x);
      UnrolledStep(t, 2, b);
      x := Line(s, p, 5, 6, x);
      UnrolledStep(t, 4, b);
      x := Line(s, p, 7, 8, x);
      UnrolledStep(t, 6, b);
    }

    static method EncipherBack(s: SBoxes, p: Subkeys, x0: Block, ghost b: Block) returns (x: Block)
      requires x0 == Unrolled(Tables(s, p), 8, b)
      ensures x == Unrolled(Tables(s, p), 16, b)
    {
      ghost var t := Tables(s, p);
      hide Unrolled, Line, Reverse;
      x := x0;
      x := Line(s, p, 9, 10, x);
      UnrolledStep(t, 8, b);
      x := Line(s, p, 11, 12, x);
      UnrolledStep(t, 10, b);
      x := Line(s, p, 13, 14, x);
      UnrolledStep(t, 12, b);
      x := Line(s, p, 15, 16, x);
      UnrolledStep(t, 14, b);
    }

    /** `Blowfish_decipher` */
    method BlowfishDecipher(xl: bv32, xr: bv32) returns (b: Block)
      requires Valid()
      ensures b == Decipher(T(), Block(xl, xr))
    {
      var s: SBoxes, p: Subkeys := S[..], P[..];
      ghost var t, b0 := Tables(s, Reverse(p)), Block(xl, xr);
      RoundsStart(t, b0);
      RoundsEnd(t, b0);
      assert t.P[0] == p[17] && t.P[17] == p[0];
      hide Unrolled, Xor, Encipher, Reverse;
      b := Block(Xor(xl, p[17]), xr);
      b := DecipherFront(s, p, b, b0);
      b := DecipherBack(s, p, b, b0);
      b := Block(Xor(b.r, p[0]), b.l);
    }

    static method DecipherFront(s: SBoxes, p: Subkeys, x0: Block, ghost b: Block) returns (x: Block)
      requires x0 == Unrolled(Tables(s, Reverse(p)), 0, b)
      ensures x == Unrolled(Tables(s, Reverse(p)), 8, b)
    {
      ghost var t := Tables(s, p);
      hide Unrolled, Line, Reverse;
      x := x0;
      x := Line(s, p, 16, 15, x);
      UnrolledStepDown(t, 0, b);
      x := Line(s, p, 14, 13, x);
      UnrolledStepDown(t, 2, b);
      x := Line(s, p, 12, 11, x);
      UnrolledStepDown(t, 4, b);
      x := Line(s, p, 10, 9, x);
      UnrolledStepDown(t, 6, b);
    }

    static method DecipherBack(s: SBoxes, p: Subkeys, x0: Block, ghost b: Block) returns (x: Block)
      requires x0 == Unrolled(Tables(s, Reverse(p)), 8, b)
      ensures x == Unrolled(Tables(s, Reverse(p)), 16, b)
    {
      ghost var t := Tables(s, p);
      hide Unrolled, Line, Reverse;
      x := x0;
      x := Line(s, p, 8, 7, x);
      UnrolledStepDown(t, 8, b);
      x := Line(s, p, 6, 5, x);
      UnrolledStepDown(t, 10, b);
      x := Line(s, p, 4, 3, x);
      UnrolledStepDown(t, 12, b);
      x := Line(s, p, 2, 1, x);
      UnrolledStepDown(t, 14, b);
    }

    lemma {:induction false} RoundsStart(t: Tables, b: Block)
      ensures Unrolled(t, 0, b) == Block(Xor(b.l, t.P[0]), b.r)
    {
    }

    lemma {:induction false} RoundsEnd(t: Tables, b: Block)
      ensures var c := Unrolled(t, N, b); Encipher(t, b) == Block(Xor(c.r, t.P[17]), c.l)
    {
      hide Round;
    }

    /** `Blowfish_stream2word`: `current` stands at position `pos` of the repeated data; it is
        moved back to the start only when the next byte is taken. */
    static method Stream2Word(data: seq<bv8>, current: nat, ghost pos: nat) returns (word: bv32, j: nat)
      requires data != [] && StandsAt(current, pos, |data|)
      ensures word == WordAt(data, pos) && StandsAt(j, pos + 4, |data|)
    {
      var a, b, c, d: bv8;
      a, j := NextByte(data, current, pos);
      b, j := NextByte(data, j, pos + 1);
      c, j := NextByte(data, j, pos + 2);
      d, j := NextByte(data, j, pos + 3);
      word := Shift(Shift(Shift(Shift(0, a), b), c), d);
      FirstShift(a);
    }

    static lemma FirstShift(a: bv8)
      ensures Shift(0, a) == a as bv32
    {
    }

    static method NextByte(data: seq<bv8>, j0: nat, ghost pos: nat) returns (b: bv8, j: nat)
      requires data != [] && StandsAt(j0, pos, |data|)
      ensures b == Cyclic(data, pos) && StandsAt(j, pos + 1, |data|)
    {
      j := j0;
      if j >= |data| {
        j := 0;
      }
      b := data[j];
      j := j + 1;
      NextPosition(pos, |data|);
    }

    static ghost predicate StandsAt(j: nat, pos: nat, n: nat)
      requires n > 0
    {
      j == pos % n || (j == n && pos % n == 0)
    }

    static lemma NextPosition(pos: nat, n: nat)
      requires n > 0
      ensures pos % n < n
      ensures (pos + 1) % n == if pos % n + 1 == n then 0 else pos % n + 1
    {
      var q, m := Divide(pos, n);
      if m + 1 == n {
        assert (q + 1) * n == q * n + n;
        DivModUnique(pos + 1, n, q + 1, 0);
      } else {
        DivModUnique(pos + 1, n, q, m + 1);
      }
    }

    /** The first loop of both schedules. */
    method MixKeyIn(key: seq<bv8>)
      requires Valid() && key != []
      modifies P
      ensures T() == Tables(old(T().S), MixKey(old(T().P), key))
    {
      var j, temp := 0, 0;
      for i := 0 to SUBKEYS
        invariant StandsAt(j, 4 * i, |key|)
        invariant forall k :: 0 <= k < i ==> P[k] == Xor(old(P[k]), WordAt(key, 4 * k))
        invariant forall k :: i <= k < SUBKEYS ==> P[k] == old(P[k])
      {
        temp, j := Stream2Word(key, j, 4 * i);
        P[i] := Xor(P[i], temp);
      }
      assert P[..] == MixKey(old(P[..]), key);
    }

    /** Enciphers the current block and writes it over subkeys `i` and `i + 1`. */
    method FillP(b0: Block, i: nat) returns (b: Block)
      requires Valid() && i % 2 == 0 && i + 1 < SUBKEYS
      modifies P
      ensures Schedule(T(), b) == Advance(Schedule(old(T()), b0), i / 2)
    {
      b := BlowfishEncipher(b0.l, b0.r);
      hide Encipher;
      P[i] := b.l;
      P[i + 1] := b.r;
    }

    /** Enciphers the current block and writes it over S-box words `i` and `i + 1`. */
    method FillS(b0: Block, i: nat) returns (b: Block)
      requires Valid() && i % 2 == 0 && i + 1 < SBOX_WORDS
      modifies S
      ensures Schedule(T(), b) == Advance(Schedule(old(T()), b0), (SUBKEYS + i) / 2)
    {
      b := BlowfishEncipher(b0.l, b0.r);
      hide Encipher;
      S[i] := b.l;
      S[i + 1] := b.r;
    }

    static lemma {:induction false} NothingExpanded(s: Schedule, salt: seq<bv8>)
      requires salt != []
      ensures Expand0From(s, 0) == s == ExpandFrom(s, salt, 0)
    {
    }

    static lemma {:induction false} Expand0Step(s: Schedule, n: nat)
      requires n < STEPS
      ensures Expand0From(s, n + 1) == Advance(Expand0From(s, n), n)
    {
      hide Advance;
    }

    static lemma {:induction false} ExpandStep(s: Schedule, salt: seq<bv8>, n: nat)
      requires n < STEPS && salt != []
      ensures ExpandFrom(s, salt, n + 1) == Advance(Salted(ExpandFrom(s, salt, n), salt, n), n)
    {
      hide Advance, Salted;
    }

    /** `Blowfish_expand0state` */
    method Expand0State(key: seq<bv8>)
      requires Valid() && key != []
      modifies S, P
      ensures T() == Expand0(old(T()), key)
    {
      ghost var start := Start(T(), key);
      MixKeyIn(key);
      hide MixKey, Advance, Expand0From;
      var data := Expand0Subkeys(start);
      Expand0Boxes(start, data);
    }

    method Expand0Subkeys(ghost start: Schedule) returns (data: Block)
      requires Valid() && start == Schedule(T(), Block(0, 0))
      modifies P
      ensures Schedule(T(), data) == Expand0From(start, |start.t.P| / 2)
    {
      hide Advance, Expand0From;
      NothingExpanded(start, [0]);
      data := Block(0, 0);
      var i := 0;
      while i < SUBKEYS
        invariant i % 2 == 0 && i <= SUBKEYS
        invariant Schedule(T(), data) == Expand0From(start, i / 2)
      {
        Expand0Step(start, i / 2);
        data := FillP(data, i);
        i := i + 2;
      }
    }

    method Expand0Boxes(ghost start: Schedule, b0: Block)
      requires Valid() && Schedule(T(), b0) == Expand0From(start, |start.t.P| / 2)
      modifies S
      ensures T() == Expand0From(start, (|start.t.P| + |start.t.S|) / 2).t
    {
      hide Expand0From;
      var data := b0;
      for i := 0 to 4
        invariant Schedule(T(), data) == Expand0From(start, 9 + 128 * i)
      {
        data := Expand0Box(start, data, i);
      }
    }

    method Expand0Box(ghost start: Schedule, b0: Block, i: nat) returns (data: Block)
      requires Valid() && i < 4 && Schedule(T(), b0) == Expand0From(start, 9 + 128 * i)
      modifies S
      ensures Schedule(T(), data) == Expand0From(start, 9 + 128 * (i + 1))
    {
      hide Advance, Expand0From;
      data := b0;
      var k := 0;
      while k < 256
        invariant k % 2 == 0 && k <= 256
        invariant Schedule(T(), data) == Expand0From(start, 9 + 128 * i + k / 2)
      {
        Expand0Step(start, 9 + 128 * i + k / 2);
        data := FillS(data, 256 * i + k);
        k := k + 2;
      }
    }

    /** `Blowfish_expandstate` */
    method ExpandState(salt: seq<bv8>, key: seq<bv8>)
      requires Valid() && salt != [] && key != []
      modifies S, P
      ensures T() == Expand(old(T()), salt, key)
    {
      ghost var start := Start(T(), key);
      MixKeyIn(key);
      hide MixKey, Advance, ExpandFrom;
      var data, j := ExpandSubkeys(start, salt);
      ExpandBoxes(start, salt, data, j);
    }

    method ExpandSubkeys(ghost start: Schedule, salt: seq<bv8>) returns (data: Block, j: nat)
      requires Valid() && salt != [] && start == Schedule(T(), Block(0, 0))
      modifies P
      ensures StandsAt(j, 8 * 9, |salt|)
      ensures Schedule(T(), data) == ExpandFrom(start, salt, |start.t.P| / 2)
    {
      hide Advance, Salted, ExpandFrom;
      NothingExpanded(start, salt);
      j, data := 0, Block(0, 0);
      var i := 0;
      while i < SUBKEYS
        invariant i % 2 == 0 && i <= SUBKEYS && StandsAt(j, 4 * i, |salt|)
        invariant Schedule(T(), data) == ExpandFrom(start, salt, i / 2)
      {
        ExpandStep(start, salt, i / 2);
        data, j := AddSalt(data, salt, j, i / 2);
        data := FillP(data, i);
        i := i + 2;
      }
    }

    method ExpandBoxes(ghost start: Schedule, salt: seq<bv8>, b0: Block, j0: nat)
      requires Valid() && salt != [] && StandsAt(j0, 8 * 9, |salt|)
      requires Schedule(T(), b0) == ExpandFrom(start, salt, |start.t.P| / 2)
      modifies S
      ensures T() == ExpandFrom(start, salt, (|start.t.P| + |start.t.S|) / 2).t
    {
      hide ExpandFrom;
      var data, j := b0, j0;
      for i := 0 to 4
        invariant StandsAt(j, 8 * (9 + 128 * i), |salt|)
        invariant Schedule(T(), data) == ExpandFrom(start, salt, 9 + 128 * i)
      {
        data, j := ExpandBox(start, salt, data, j, i);
      }
    }

    method ExpandBox(ghost start: Schedule, salt: seq<bv8>, b0: Block, j0: nat, i: nat) returns (data: Block, j: nat)
      requires Valid() && salt != [] && i < 4 && StandsAt(j0, 8 * (9 + 128 * i), |salt|)
      requires Schedule(T(), b0) == ExpandFrom(start, salt, 9 + 128 * i)
      modifies S
      ensures StandsAt(j, 8 * (9 + 128 * (i + 1)), |salt|)
      ensures Schedule(T(), data) == ExpandFrom(start, salt, 9 + 128 * (i + 1))
    {
      hide Advance, Salted, ExpandFrom;
      data, j := b0, j0;
      ghost var n := 9 + 128 * i;
      var k := 0;
      while k < 256
        invariant k <= 256 && 2 * n == 18 + 256 * i + k && StandsAt(j, 8 * n, |salt|)
        invariant Schedule(T(), data) == ExpandFrom(start, salt, n)
      {
        ExpandStep(start, salt, n);
        data, j := AddSalt(data, salt, j, n);
        data := FillS(data, 256 * i + k);
        k, n := k + 2, n + 1;
      }
    }

    /** Two words of the repeated salt go into the block. */
    method AddSalt(b0: Block, salt: seq<bv8>, j0: nat, ghost k: nat) returns (b: Block, j: nat)
      requires Valid() && salt != [] && StandsAt(j0, 8 * k, |salt|)
      ensures Schedule(T(), b) == Salted(Schedule(T(), b0), salt, k)
      ensures StandsAt(j, 8 * (k + 1), |salt|)
    {
      var l, r;
      l, j := Stream2Word(salt, j0, 8 * k);
      r, j := Stream2Word(salt, j, 8 * k + 4);
      b := Block(Xor(b0.l, l), Xor(b0.r, r));
    }
  }
}
