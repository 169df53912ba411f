/** Choosing methods from the client's preferences and the server's lists
    (section 7.1 of RFC 4253). */
module Negotiation {
  import opened Bytes
  import opened NameLists
  import opened KexAgree

  /** The compiled-in tables name every method once, without commas. */
  ghost predicate WellNamed(table: seq<Method>) {
    && (forall i :: 0 <= i < |table| ==> table[i].name != [] && COMMA !in table[i].name)
    && (forall i, j :: 0 <= i < j < |table| ==> table[i].name != table[j].name)
  }

  /** The names the client offers: its preference string if there is one, else the table. */
  function Candidates(prefs: Option<seq<byte>>, table: seq<Method>): seq<Name> {
    match prefs
    case Some(p) => Split(p)
    case None => Names(table)
  }

  predicate Listed(name: Name, server: seq<Name>) {
    name != [] && name in server
  }

  /** The first of the client's names that the server lists too. */
  function FirstListed(cands: seq<Name>, server: seq<Name>): Option<Name> {
    if cands == [] then None
    else if Listed(cands[0], server) then Some(cands[0])
    else FirstListed(cands[1..], server)
  }

  function Agreed(prefs: Option<seq<byte>>, table: seq<Method>, server: seq<Name>): Option<Method> {
    match FirstListed(Candidates(prefs, table), server)
    case Some(name) => Lookup(name, table)
    case None => None
  }

  ghost predicate Supported(cands: seq<Name>, table: seq<Method>) {
    forall t :: t in cands ==> t == [] || t in Names(table)
  }

  lemma {:induction false} FirstListedIsFirst(cands: seq<Name>, server: seq<Name>)
    ensures match FirstListed(cands, server)
            case Some(n) => (exists i :: 0 <= i < |cands| && cands[i] == n && Listed(n, server)
                                         && forall j :: 0 <= j < i ==> !Listed(cands[j], server))
            case None => forall j :: 0 <= j < |cands| ==> !Listed(cands[j], server)
  {
    if cands != [] && !Listed(cands[0], server) {
      var rest := cands[1..];
      FirstListedIsFirst(rest, server);
      match FirstListed(rest, server)
      case Some(n) =>
        var i :| 0 <= i < |rest| && rest[i] == n && Listed(n, server)
                 && forall j :: 0 <= j < i ==> !Listed(rest[j], server);
        assert forall j :: 0 < j < i + 1 ==> cands[j] == rest[j - 1];
        assert cands[i + 1] == n;
      case None =>
        assert forall j :: 0 < j < |cands| ==> cands[j] == rest[j - 1];
    }
  }

  /** Given preferences that hold only supported names, the agreed method is the first client
      preference that the server also lists, and there is one unless nothing is common. */
  lemma AgreedIsFirstPreference(prefs: Option<seq<byte>>, table: seq<Method>, server: seq<Name>)
    requires Supported(Candidates(prefs, table), table)
    ensures var cands := Candidates(prefs, table);
            match Agreed(prefs, table, server)
            case Some(m) => m in table
                            && (exists i :: 0 <= i < |cands| && cands[i] == m.name && Listed(m.name, server)
                                            && forall j :: 0 <= j < i ==> !Listed(cands[j], server))
            case None => forall j :: 0 <= j < |cands| ==> !Listed(cands[j], server)
  {
    FirstListedIsFirst(Candidates(prefs, table), server);
  }

  /** Whether the host key method can do what the key exchange method asks for. */
  predicate Suits(kexFlags: bv8, hostkey: Method) {
    && (kexFlags & REQ_ENC_HOSTKEY == 0 || hostkey.encrypt)
    && (kexFlags & REQ_SIGN_HOSTKEY == 0 || hostkey.sigVerify)
  }

  /** A key exchange that needs nothing takes any host key; one that needs encryption, signatures or both takes
      those that can do that. */
  lemma SuitsExactly(hostkey: Method)
    ensures Suits(0, hostkey) && (Suits(REQ_ENC_HOSTKEY, hostkey) <==> hostkey.encrypt)
    ensures Suits(REQ_SIGN_HOSTKEY, hostkey) <==> hostkey.sigVerify
    ensures Suits(REQ_ENC_HOSTKEY | REQ_SIGN_HOSTKEY, hostkey) <==> hostkey.encrypt && hostkey.sigVerify
    ensures REQ_ENC_HOSTKEY != 0 && REQ_SIGN_HOSTKEY != 0 && REQ_ENC_HOSTKEY & REQ_SIGN_HOSTKEY == 0
  {
  }

  /** `kex_agree_hostkey`: a listed name that the table lacks ends the search. */
  function AgreedHostkey(cands: seq<Name>, table: seq<Method>, server: seq<Name>, kexFlags: bv8): Option<Method> {
    if cands == [] then None
    else if !Listed(cands[0], server) then AgreedHostkey(cands[1..], table, server, kexFlags)
    else match Lookup(cands[0], table)
      case None => None
      case Some(m) =>
        if Suits(kexFlags, m) then Some(m) else AgreedHostkey(cands[1..], table, server, kexFlags)
  }

  ghost predicate UsableHostkey(cands: seq<Name>, table: seq<Method>, server: seq<Name>, kexFlags: bv8, j: int) {
    && 0 <= j < |cands| && Listed(cands[j], server)
    && Lookup(cands[j], table).Some? && Suits(kexFlags, Lookup(cands[j], table).value)
  }

  ghost predicate IsFirstHostkey(cands: seq<Name>, table: seq<Method>, server: seq<Name>, kexFlags: bv8, j: int) {
    && UsableHostkey(cands, table, server, kexFlags, j)
    && forall j' :: UsableHostkey(cands, table, server, kexFlags, j') ==> j <= j'
  }

  lemma {:induction false} HostkeyIsFirst(cands: seq<Name>, table: seq<Method>, server: seq<Name>, kexFlags: bv8)
    returns (j: int)
    requires Supported(cands, table)
    ensures match AgreedHostkey(cands, table, server, kexFlags)
            case Some(h) => IsFirstHostkey(cands, table, server, kexFlags, j) && Lookup(cands[j], table) == Some(h)
            case None => forall j' :: !UsableHostkey(cands, table, server, kexFlags, j')
  {
    j := 0;
    if cands != [] {
      assert cands[0] in cands;
      if !UsableHostkey(cands, table, server, kexFlags, 0) {
        var rest := cands[1..];
        j := HostkeyIsFirst(rest, table, server, kexFlags);
        assert forall j' :: 0 < j' ==> (UsableHostkey(cands, table, server, kexFlags, j')
                                        <==> UsableHostkey(rest, table, server, kexFlags, j' - 1));
        j := j + 1;
      }
    }
  }

  /** The client's and the server's side of the key exchange and host key choice. */
  datatype Offer = Offer(kexCands: seq<Name>, kexTable: seq<Method>, kexServer: seq<Name>,
                         hkCands: seq<Name>, hkTable: seq<Method>, hkServer: seq<Name>)
  {
    /** `kex_agree_kex_hostkey` from candidate `from` on. */
    function AgreedPair(from: nat): Option<(Method, Method)>
      requires from <= |kexCands|
      decreases |kexCands| - from
    {
      if from == |kexCands| then None
      else if !Listed(kexCands[from], kexServer) then AgreedPair(from + 1)
      else match Lookup(kexCands[from], kexTable)
        case None => None
        case Some(k) =>
          match AgreedHostkey(hkCands, hkTable, hkServer, k.flags)
          case Some(h) => Some((k, h))
          case None => AgreedPair(from + 1)
    }

    /** Candidate `i` for the exchange and candidate `j` for the host key can be used together. */
    ghost predicate Acceptable(i: int, j: int) {
      && 0 <= i < |kexCands| && Listed(kexCands[i], kexServer) && Lookup(kexCands[i], kexTable).Some?
      && UsableHostkey(hkCands, hkTable, hkServer, Lookup(kexCands[i], kexTable).value.flags, j)
    }

    ghost predicate IsFirstPair(from: nat, i: int, j: int) {
      && from <= i && Acceptable(i, j)
      && forall i', j' :: from <= i' && Acceptable(i', j') ==> i < i' || (i == i' && j <= j')
    }

    lemma PairOrNext(from: nat) returns (j: int)
      requires from < |kexCands|
      requires Supported(kexCands, kexTable) && Supported(hkCands, hkTable)
      ensures if Acceptable(from, j)
              then AgreedPair(from) == Some((Lookup(kexCands[from], kexTable).value, Lookup(hkCands[j], hkTable).value))
                   && forall j' :: Acceptable(from, j') ==> j <= j'
              else AgreedPair(from) == AgreedPair(from + 1) && forall j' :: !Acceptable(from, j')
    {
      j := 0;
      assert kexCands[from] in kexCands;
      if Listed(kexCands[from], kexServer) {
        j := HostkeyIsFirst(hkCands, hkTable, hkServer, Lookup(kexCands[from], kexTable).value.flags);
      }
    }

    /** With preferences that hold only supported names, the pair is the first acceptable one
        in lexicographic order, and there is one unless no pair is acceptable. */
    lemma {:induction false} FirstPair(from: nat) returns (i: int, j: int)
      requires from <= |kexCands|
      requires Supported(kexCands, kexTable) && Supported(hkCands, hkTable)
      ensures match AgreedPair(from)
              case Some((k, h)) => IsFirstPair(from, i, j)
                && Lookup(kexCands[i], kexTable) == Some(k) && Lookup(hkCands[j], hkTable) == Some(h)
              case None => forall i', j' :: from <= i' ==> !Acceptable(i', j')
      decreases |kexCands| - from
    {
      i, j := from, 0;
      if from < |kexCands| {
        j := PairOrNext(from);
        if !Acceptable(from, j) {
          i, j := FirstPair(from + 1);
        }
      }
    }
  }

  lemma LookupOwnName(table: seq<Method>, i: nat)
    requires WellNamed(table) && i < |table|
    ensures Lookup(table[i].name, table) == Some(table[i])
  {
    assert Names(table)[i] == table[i].name;
    var m := Lookup(table[i].name, table).value;
    var k :| 0 <= k < |table| && table[k] == m;
  }

  /** `kex_agree_instr`, read as membership in the server's list. */
  method SearchList(data: seq<byte>, h: nat, len: nat, needle: Name) returns (r: Option<nat>)
    requires h + len < |data| && COMMA !in needle
    ensures r.Some? <==> Listed(needle, Split(data[h..h + len]))
    ensures r == Some(0) <==> needle != [] && needle == Split(data[h..h + len])[0]
  {
    r := AgreeInstr(data, h, len, needle);
    ghost var hay := data[h..h + len];
    TokenIffListed(hay, needle);
    assert r.None? && needle != [] ==> !TokenAt(hay, 0, needle);
  }

  /** `strchr(s, ',')` in a preference string: the length of the name at `s`, and whether a
      comma follows it. */
  method NextName(p: seq<byte>, s: nat) returns (n: nat, comma: bool)
    requires s <= |p|
    ensures s + n <= |p| && COMMA !in p[s..s + n] && (comma <==> s + n < |p|)
    ensures Split(p[s..])[0] == p[s..s + n]
    ensures Split(p[s..])[1..] == if comma then Split(p[s + n + 1..]) else []
  {
    hide Split, FirstComma;
    n := FindComma(p, s, |p| - s);
    comma := s + n < |p|;
    ghost var rest := p[s..];
    assert forall k :: 0 <= k < n ==> rest[k] == p[s + k];
    FirstCommaUnique(rest, n);
    SplitHead(rest, n);
    SubSlice(p, s, |p| - s, 0, n);
    assert rest[..n] == p[s..s + n] && (comma ==> rest[n + 1..] == p[s + n + 1..]);
  }

  /** `kex_agree_crypt`, `kex_agree_mac` and `kex_agree_comp`, which differ in the table only. */
  method AgreeMethod(data: seq<byte>, h: nat, len: nat, prefs: Option<seq<byte>>, table: seq<Method>)
    returns (r: Option<Method>)
    requires h + len < |data| && WellNamed(table)
    ensures r == Agreed(prefs, table, Split(data[h..h + len]))
  {
    if prefs.Some? {
      r := AgreeByPrefs(data, h, len, prefs.value, table);
    } else {
      r := AgreeByTable(data, h, len, table);
    }
  }

  method AgreeByPrefs(data: seq<byte>, h: nat, len: nat, p: seq<byte>, table: seq<Method>)
    returns (r: Option<Method>)
    requires h + len < |data|
    ensures r == Agreed(Some(p), table, Split(data[h..h + len]))
  {
    ghost var server := Split(data[h..h + len]);
    ghost var left := Split(p);
    assert p[0..] == p && Split([]) == [[]];
    hide Split, FirstComma;
    var s, more := 0, true;
    while more && s < |p|
      invariant 0 <= s <= |p| && left == if more then Split(p[s..]) else []
      invariant FirstListed(Split(p), server) == FirstListed(left, server)
      decreases more, |p| - s
    {
      var methodLen, comma := NextName(p, s);
      var q := SearchList(data, h, len, p[s..s + methodLen]);
      if q.Some? {
        r := GetMethodByName(p[s..s + methodLen], table);
        return;
      }
      left := left[1..];
      more := comma;
      s := if comma then s + methodLen + 1 else s;
    }
    return None;
  }

  method AgreeByTable(data: seq<byte>, h: nat, len: nat, table: seq<Method>) returns (r: Option<Method>)
    requires h + len < |data| && WellNamed(table)
    ensures r == Agreed(None, table, Split(data[h..h + len]))
  {
    ghost var server := Split(data[h..h + len]);
    ghost var cands := Names(table);
    hide Split;
    var k := 0;
    while k < |table|
      invariant 0 <= k <= |table|
      invariant FirstListed(cands, server) == FirstListed(cands[k..], server)
    {
      var q := SearchList(data, h, len, table[k].name);
      if q.Some? {
        LookupOwnName(table, k);
        return Some(table[k]);
      }
      assert cands[k..][1..] == cands[k + 1..];
      k := k + 1;
    }
    return None;
  }

  ghost predicate CommaFree(names: seq<Name>) {
    forall t :: t in names ==> COMMA !in t
  }

  lemma CandidatesAreCommaFree(prefs: Option<seq<byte>>, table: seq<Method>)
    requires WellNamed(table)
    ensures CommaFree(Candidates(prefs, table))
  {
    if prefs.Some? {
      SplitIsCommaFree(prefs.value);
    }
  }

  /** `kex_agree_hostkey`, walking the client's names from either source. */
  method AgreeHostkey(kexFlags: bv8, data: seq<byte>, h: nat, len: nat, cands: seq<Name>, table: seq<Method>)
    returns (r: Option<Method>)
    requires h + len < |data| && CommaFree(cands)
    ensures r == AgreedHostkey(cands, table, Split(data[h..h + len]), kexFlags)
  {
    ghost var server := Split(data[h..h + len]);
    hide Split;
    for k := 0 to |cands|
      invariant AgreedHostkey(cands, table, server, kexFlags) == AgreedHostkey(cands[k..], table, server, kexFlags)
    {
      var q := SearchList(data, h, len, cands[k]);
      assert cands[k..][0] == cands[k] && cands[k..][1..] == cands[k + 1..];
      if q.Some? {
        r := GetMethodByName(cands[k], table);
        if r.None? || Suits(kexFlags, r.value) {
          return;
        }
      }
    }
    return None;
  }
}
