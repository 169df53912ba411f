/** Searching the server's name-lists and agreeing on methods (section 7.1 of RFC 4253). */
module KexAgree {
  import opened Bytes
  import opened NameLists

  const REQ_ENC_HOSTKEY: bv8 := 1
  const REQ_SIGN_HOSTKEY: bv8 := 2

  /** `needle` stands at index `i` of the list, delimited by commas or the ends of the list. */
  ghost predicate TokenAt(hay: seq<byte>, i: int, needle: Name) {
    && 0 <= i && i + |needle| <= |hay| && hay[i..i + |needle|] == needle
    && (i == 0 || hay[i - 1] == COMMA)
    && (i + |needle| == |hay| || hay[i + |needle|] == COMMA)
  }

  /** `r` is the index of the first such place, or nothing if there is none. An empty needle
      is never found. */
  ghost predicate FirstToken(hay: seq<byte>, r: Option<nat>, needle: Name) {
    match r
    case Some(i) => needle != [] && TokenAt(hay, i, needle)
                    && forall j :: 0 <= j < i ==> !TokenAt(hay, j, needle)
    case None => needle == [] || forall j :: !TokenAt(hay, j, needle)
  }

  lemma SubSlice(data: seq<byte>, h: nat, len: nat, s: nat, n: nat)
    requires h + len <= |data| && s + n <= len
    ensures data[h..h + len][s..s + n] == data[h + s..h + s + n]
  {
    var a, b := data[h..h + len][s..s + n], data[h + s..h + s + n];
    assert forall k :: 0 <= k < n ==> a[k] == b[k];
  }

  /** The `strncmp` and delimiter test of `kex_agree_instr` at the start `s` of a name. */
  method NeedleAt(data: seq<byte>, h: nat, len: nat, s: nat, needle: Name) returns (found: bool)
    requires h + len < |data| && s + |needle| <= len
    requires s == 0 || data[h + s - 1] == COMMA
    ensures found <==> TokenAt(data[h..h + len], s, needle)
  {
    var n := |needle|;
    SubSlice(data, h, len, s, n);
    return data[h + s..h + s + n] == needle && (s + n == len || data[h + s + n] == COMMA);
  }

  /** No name starts right behind bytes that are not commas. */
  lemma NoTokenIn(hay: seq<byte>, s: nat, e: nat, needle: Name)
    requires forall k :: s <= k < e && k < |hay| ==> hay[k] != COMMA
    ensures forall j :: s < j <= e ==> !TokenAt(hay, j, needle)
  {
  }

  /** `memchr(&data[from], ',', left)`: the offset of the first comma in the window. */
  method FindComma(data: seq<byte>, from: nat, left: nat) returns (n: nat)
    requires from + left <= |data|
    ensures n <= left && (n < left ==> data[from + n] == COMMA)
    ensures forall k :: from <= k < from + n ==> data[k] != COMMA
  {
    n := 0;
    while n < left && data[from + n] != COMMA
      invariant n <= left
      invariant forall k :: from <= k < from + n ==> data[k] != COMMA
    {
      n := n + 1;
    }
  }

  /** `kex_agree_instr` on the list that occupies `len` bytes of the packet from `h` on. The
      search window is computed before the pointer moves past the comma, so it covers one byte
      behind the list; whatever that byte is, the answer depends on the list alone. */
  method AgreeInstr(data: seq<byte>, h: nat, len: nat, needle: Name) returns (r: Option<nat>)
    requires h + len < |data|
    ensures FirstToken(data[h..h + len], r, needle)
  {
    ghost var hay := data[h..h + len];
    var n := |needle|;
    if len < n || n == 0 {
      return None;
    }
    var found := NeedleAt(data, h, len, 0, needle);
    if found {
      return Some(0);
    }
    var s, left := 0, len;
    while true
      invariant 0 <= s <= len && len <= s + left <= len + 1
      invariant forall j :: 0 <= j <= s ==> !TokenAt(hay, j, needle)
      decreases len - s
    {
      var skip := FindComma(data, h + s, left);
      assert forall k :: s <= k < s + skip && k < len ==> hay[k] == data[h + k];
      NoTokenIn(hay, s, s + skip, needle);
      if skip == left {
        return None;
      }
      s := s + skip;
      left := len - s;
      if left >= 1 && left <= len && left > n {
        s := s + 1;
      } else {
        return None;
      }
      found := NeedleAt(data, h, len, s, needle);
      if found {
        return Some(s);
      }
    }
  }

  /** Tokens of a list behind its first comma are the tokens of the rest. */
  lemma TokenBehindComma(hay: seq<byte>, c: nat, i: int, needle: Name)
    requires c < |hay| && hay[c] == COMMA && c < i
    ensures TokenAt(hay, i, needle) <==> TokenAt(hay[c + 1..], i - c - 1, needle)
  {
    var rest := hay[c + 1..];
    if i + |needle| <= |hay| {
      assert rest[i - c - 1..i - c - 1 + |needle|] == hay[i..i + |needle|];
    }
  }

  lemma TokenAtFront(hay: seq<byte>, needle: Name)
    requires COMMA !in needle
    ensures TokenAt(hay, 0, needle) <==> needle == hay[..FirstComma(hay)]
  {
    if TokenAt(hay, 0, needle) {
      assert forall k :: 0 <= k < |needle| ==> hay[k] == hay[0..|needle|][k];
      FirstCommaUnique(hay, |needle|);
    }
    assert hay[0..FirstComma(hay)] == hay[..FirstComma(hay)];
  }

  lemma StartsBehindComma(hay: seq<byte>, c: nat, i: int, needle: Name)
    requires c == FirstComma(hay) && TokenAt(hay, i, needle) && i != 0
    ensures c < i && c < |hay|
  {
    BeforeFirstComma(hay);
  }

  lemma {:induction false} TokenIsListed(hay: seq<byte>, i: int, needle: Name)
    requires TokenAt(hay, i, needle) && COMMA !in needle
    ensures needle in Split(hay)
    decreases |hay|
  {
    hide Split, FirstComma, TokenAt;
    var c := FirstComma(hay);
    TokenAtFront(hay, needle);
    SplitHead(hay, c);
    if i == 0 {
      assert Split(hay)[0] == needle;
    } else {
      StartsBehindComma(hay, c, i, needle);
      TokenBehindComma(hay, c, i, needle);
      TokenIsListed(hay[c + 1..], i - c - 1, needle);
      assert needle in Split(hay)[1..];
    }
  }

  lemma {:induction false} ListedHasToken(hay: seq<byte>, needle: Name) returns (i: nat)
    requires needle in Split(hay) && COMMA !in needle
    ensures TokenAt(hay, i, needle)
    decreases |hay|
  {
    hide Split, FirstComma, TokenAt;
    var c := FirstComma(hay);
    TokenAtFront(hay, needle);
    SplitHead(hay, c);
    if needle == Split(hay)[0] {
      i := 0;
    } else {
      assert needle in Split(hay)[1..];
      i := ListedHasToken(hay[c + 1..], needle);
      i := i + c + 1;
      TokenBehindComma(hay, c, i, needle);
    }
  }

  /** A name stands somewhere in the list exactly when it is one of the names between the
      commas, and at the front exactly when it is the first of them. */
  lemma TokenIffListed(hay: seq<byte>, needle: Name)
    requires COMMA !in needle
    ensures (exists i :: TokenAt(hay, i, needle)) <==> needle in Split(hay)
    ensures TokenAt(hay, 0, needle) <==> needle == Split(hay)[0]
  {
    TokenAtFront(hay, needle);
    SplitHead(hay, FirstComma(hay));
    hide Split, FirstComma;
    if i :| TokenAt(hay, i, needle) {
      TokenIsListed(hay, i, needle);
    }
    if needle in Split(hay) {
      var i := ListedHasToken(hay, needle);
    }
  }
}
