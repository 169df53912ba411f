/** `_libssh2_base64_encode` and `libssh2_base64_decode`, with their tables written as ranges. */
module Base64 {
  import opened Bytes

  /** No character that means something in a known_hosts line. */
  predicate Inert(c: char) {
    c != ' ' && c != '\t' && c != '\n' && c != '|' && c != ','
  }

  /** `table64[n]` */
  function TableChar(n: nat): (c: char)
    requires n < 64
    ensures Inert(c)
  {
    if n < 26 then (65 + n) as char
    else if n < 52 then (97 + n - 26) as char
    else if n < 62 then (48 + n - 52) as char
    else if n == 62 then '+'
    else '/'
  }

  /** `base64_reverse_table`, `None` for its -1 */
  function Reverse(c: char): (n: Option<nat>)
    ensures n.Some? ==> n.value < 64
  {
    if 'A' <= c <= 'Z' then Some(c as int - 65)
    else if 'a' <= c <= 'z' then Some(c as int - 97 + 26)
    else if '0' <= c <= '9' then Some(c as int - 48 + 52)
    else if c == '+' then Some(62)
    else if c == '/' then Some(63)
    else None
  }

  lemma ReverseOfTable(n: nat)
    requires n < 64
    ensures Reverse(TableChar(n)) == Some(n)
  {
  }

  /** The table is that of section 4 of RFC 4648: A to Z, a to z, 0 to 9, + and /; and the reverse table is its
      inverse, with nothing else in it. */
  lemma TablesAreRight(n: nat, c: char)
    requires n < 64
    ensures TableChar(0) == 'A' && TableChar(25) == 'Z' && TableChar(26) == 'a' && TableChar(51) == 'z'
    ensures TableChar(52) == '0' && TableChar(61) == '9' && TableChar(62) == '+' && TableChar(63) == '/'
    ensures n < 63 && n != 25 && n != 51 && n != 61 && n != 62 ==> TableChar(n + 1) as int == TableChar(n) as int + 1
    ensures Reverse(c) == Some(n) <==> c == TableChar(n)
  {
  }

  function Digit(v: bv8): (c: char)
    requires v < 64
    ensures Inert(c)
  {
    TableChar(v as int)
  }

  function Value(c: char): Option<bv8> {
    if Reverse(c).Some? then Some(Reverse(c).value as bv8) else None
  }

  lemma ValueOfDigit(v: bv8)
    requires v < 64
    ensures Value(Digit(v)) == Some(v)
  {
    hide TableChar, Reverse;
    ReverseOfTable(v as int);
  }

  /** The values written out as characters. */
  function Digits(v: seq<bv8>): (r: string)
    requires forall i :: 0 <= i < |v| ==> v[i] < 64
    ensures |r| == |v| && forall i :: 0 <= i < |r| ==> Inert(r[i])
  {
    seq(|v|, i requires 0 <= i < |v| => Digit(v[i]))
  }

  function First(b0: bv8): (v: bv8)
    ensures v < 64
  {
    (b0 & 0xFC) >> 2
  }

  function Second(b0: bv8, b1: bv8): (v: bv8)
    ensures v < 64
  {
    ((b0 & 0x03) << 4) | ((b1 & 0xF0) >> 4)
  }

  function Third(b1: bv8, b2: bv8): (v: bv8)
    ensures v < 64
  {
    ((b1 & 0x0F) << 2) | ((b2 & 0xC0) >> 6)
  }

  function Fourth(b2: bv8): (v: bv8)
    ensures v < 64
  {
    b2 & 0x3F
  }

  function Encode(b: seq<bv8>): (r: string)
    ensures |r| == (|b| + 2) / 3 * 4 && forall i :: 0 <= i < |r| ==> Inert(r[i])
  {
    if |b| == 0 then ""
    else if |b| == 1 then Digits([First(b[0]), Second(b[0], 0)]) + "=="
    else if |b| == 2 then Digits([First(b[0]), Second(b[0], b[1]), Third(b[1], 0)]) + "="
    else Digits([First(b[0]), Second(b[0], b[1]), Third(b[1], b[2]), Fourth(b[2])]) + Encode(b[3..])
  }

  /** The table values of the characters that have one; all others are skipped. */
  function Values(text: string): (r: seq<bv8>)
    ensures |r| <= |text|
  {
    if text == "" then []
    else (if Value(text[0]).Some? then [Value(text[0]).value] else []) + Values(text[1..])
  }

  function Join1(v0: bv8, v1: bv8): bv8 {
    (v0 << 2) | (v1 >> 4)
  }

  function Join2(v1: bv8, v2: bv8): bv8 {
    (v1 << 4) | (v2 >> 2)
  }

  function Join3(v2: bv8, v3: bv8): bv8 {
    (v2 << 6) | v3
  }

  /** Four values make three bytes; one value left over is an error. */
  function Assemble(v: seq<bv8>): Option<seq<bv8>> {
    if |v| == 0 then Some([])
    else if |v| == 1 then None
    else if |v| == 2 then Some([Join1(v[0], v[1])])
    else if |v| == 3 then Some([Join1(v[0], v[1]), Join2(v[1], v[2])])
    else
      match Assemble(v[4..])
      case None => None
      case Some(rest) => Some([Join1(v[0], v[1]), Join2(v[1], v[2]), Join3(v[2], v[3])] + rest)
  }

  function Decode(text: string): Option<seq<bv8>> {
    Assemble(Values(text))
  }

  lemma BitsRejoined(b0: bv8, b1: bv8, b2: bv8)
    ensures Join1(First(b0), Second(b0, b1)) == b0
    ensures Join2(Second(b0, b1), Third(b1, b2)) == b1
    ensures Join3(Third(b1, b2), Fourth(b2)) == b2
  {
  }

  /** Four values are the same number as the three bytes they are made of. */
  lemma DigitsAreBytes(b0: bv8, b1: bv8, b2: bv8)
    ensures (First(b0) as bv24 << 18) | (Second(b0, b1) as bv24 << 12) | (Third(b1, b2) as bv24 << 6) | Fourth(b2) as bv24
         == (b0 as bv24 << 16) | (b1 as bv24 << 8) | b2 as bv24
  {
  }

  /** The values of an encoding, group by group. */
  function Groups(b: seq<bv8>): seq<bv8> {
    if |b| == 0 then []
    else if |b| == 1 then [First(b[0]), Second(b[0], 0)]
    else if |b| == 2 then [First(b[0]), Second(b[0], b[1]), Third(b[1], 0)]
    else [First(b[0]), Second(b[0], b[1]), Third(b[1], b[2]), Fourth(b[2])] + Groups(b[3..])
  }

  lemma ValuesPrepend(v: bv8, rest: string)
    requires v < 64
    ensures Values([Digit(v)] + rest) == [v] + Values(rest)
  {
    ValueOfDigit(v);
    hide Value, Digit;
    assert ([Digit(v)] + rest)[1..] == rest;
  }

  lemma ValuesOfPadding()
    ensures Values("") == [] && Values("=") == [] && Values("==") == []
  {
    assert "="[1..] == "" && "=="[1..] == "=";
  }

  lemma {:induction false} ValuesOfDigits(v: seq<bv8>, rest: string)
    requires forall i :: 0 <= i < |v| ==> v[i] < 64
    ensures Values(Digits(v) + rest) == v + Values(rest)
  {
    hide Values;
    if v == [] {
      assert [] + rest == rest;
    } else {
      ValuesOfDigits(v[1..], rest);
      ValuesPrepend(v[0], Digits(v[1..]) + rest);
      assert Digits(v) + rest == [Digit(v[0])] + (Digits(v[1..]) + rest);
      assert v + Values(rest) == [v[0]] + (v[1..] + Values(rest));
    }
  }

  lemma {:induction false} ValuesOfEncode(b: seq<bv8>)
    ensures Values(Encode(b)) == Groups(b)
  {
    hide Digits, Values, First, Second, Third, Fourth;
    ValuesOfPadding();
    if |b| == 0 {
    } else if |b| == 1 {
      ValuesOfDigits([First(b[0]), Second(b[0], 0)], "==");
    } else if |b| == 2 {
      ValuesOfDigits([First(b[0]), Second(b[0], b[1]), Third(b[1], 0)], "=");
    } else {
      ValuesOfEncode(b[3..]);
      ValuesOfDigits([First(b[0]), Second(b[0], b[1]), Third(b[1], b[2]), Fourth(b[2])], Encode(b[3..]));
    }
  }

  lemma {:induction false} AssembleGroups(b: seq<bv8>)
    ensures Assemble(Groups(b)) == Some(b)
  {
    hide First, Second, Third, Fourth, Join1, Join2, Join3;
    if |b| == 1 {
      BitsRejoined(b[0], 0, 0);
      assert b == [b[0]];
    } else if |b| == 2 {
      BitsRejoined(b[0], b[1], 0);
      assert b == [b[0], b[1]];
    } else if |b| >= 3 {
      BitsRejoined(b[0], b[1], b[2]);
      AssembleGroups(b[3..]);
      assert Groups(b)[4..] == Groups(b[3..]);
      assert b == [b[0], b[1], b[2]] + b[3..];
    }
  }

  lemma DecodeEncode(b: seq<bv8>)
    ensures Decode(Encode(b)) == Some(b)
  {
    ValuesOfEncode(b);
    AssembleGroups(b);
  }
}
