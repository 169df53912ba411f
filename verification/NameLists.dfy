/** Comma-separated name-lists (section 5 of RFC 4251) and the method tables they name. */
module NameLists {
  import opened Bytes

  const COMMA: byte := 44

  type Name = seq<byte>

  /** An entry of a method table. `flags` is meant for key exchange methods, `encrypt` and
      `sigVerify` say which function pointers a host key method has. */
  datatype Method = Method(name: Name, flags: bv8, encrypt: bool, sigVerify: bool)

  /** Where `strchr(s, ',')` stops: the first comma, or the end. */
  function FirstComma(s: seq<byte>): (i: nat)
    ensures i <= |s| && COMMA !in s[..i] && (i < |s| ==> s[i] == COMMA)
  {
    if s == [] || s[0] == COMMA then 0
    else
      assert s[..1 + FirstComma(s[1..])] == [s[0]] + s[1..][..FirstComma(s[1..])];
      1 + FirstComma(s[1..])
  }

  function Split(s: seq<byte>): (ts: seq<Name>)
    ensures ts != []
    decreases |s|
  {
    var i := FirstComma(s);
    if i == |s| then [s] else [s[..i]] + Split(s[i + 1..])
  }

  function Join(ts: seq<Name>): seq<byte> {
    if ts == [] then [] else if |ts| == 1 then ts[0] else ts[0] + [COMMA] + Join(ts[1..])
  }

  /** Every name followed by a comma. */
  function Terminated(ts: seq<Name>): seq<byte> {
    if ts == [] then [] else ts[0] + [COMMA] + Terminated(ts[1..])
  }

  function Names(table: seq<Method>): (r: seq<Name>)
    ensures |r| == |table| && forall i :: 0 <= i < |r| ==> r[i] == table[i].name
  {
    seq(|table|, i requires 0 <= i < |table| => table[i].name)
  }

  function Filter(ts: seq<Name>, known: seq<Name>): seq<Name> {
    if ts == [] then []
    else (if ts[0] in known then [ts[0]] else []) + Filter(ts[1..], known)
  }

  lemma {:induction false} FirstCommaUnique(s: seq<byte>, n: nat)
    requires n <= |s| && (forall k :: 0 <= k < n ==> s[k] != COMMA) && (n < |s| ==> s[n] == COMMA)
    ensures n == FirstComma(s)
  {
    if n > 0 {
      FirstCommaUnique(s[1..], n - 1);
    }
  }

  lemma BeforeFirstComma(s: seq<byte>)
    ensures forall k :: 0 <= k < FirstComma(s) ==> s[k] != COMMA
  {
    forall k | 0 <= k < FirstComma(s) ensures s[k] != COMMA {
      assert s[k] == s[..FirstComma(s)][k];
    }
  }

  lemma SplitOnce(s: seq<byte>, n: nat)
    requires n == FirstComma(s)
    ensures n == |s| ==> Split(s) == [s]
    ensures n < |s| ==> Split(s) == [s[..n]] + Split(s[n + 1..])
  {
    hide FirstComma;
  }

  lemma SplitHead(s: seq<byte>, n: nat)
    requires n == FirstComma(s)
    ensures Split(s)[0] == s[..n]
    ensures Split(s)[1..] == if n < |s| then Split(s[n + 1..]) else []
  {
    hide Split, FirstComma;
    SplitOnce(s, n);
    if n < |s| {
      HeadOfConcat([s[..n]], Split(s[n + 1..]));
    } else {
      assert s[..n] == s;
    }
  }

  lemma {:induction false} SplitCons(a: Name, rest: seq<byte>)
    requires COMMA !in a
    ensures Split(a) == [a]
    ensures Split(a + [COMMA] + rest) == [a] + Split(rest)
  {
    var s := a + [COMMA] + rest;
    FirstCommaUnique(a, |a|);
    FirstCommaUnique(s, |a|);
    assert s[..|a|] == a && s[|a| + 1..] == rest;
  }

  lemma {:induction false} TerminatedAppend(ts: seq<Name>, t: Name)
    ensures Terminated(ts + [t]) == Terminated(ts) + t + [COMMA]
  {
    if ts == [] {
    } else {
      TerminatedAppend(ts[1..], t);
      HeadOfConcat(ts, [t]);
    }
  }

  /** A joined list is the terminated list without its last comma. */
  lemma {:induction false} TerminatedIsJoin(ts: seq<Name>)
    requires ts != []
    ensures Terminated(ts) == Join(ts) + [COMMA]
  {
    if |ts| == 1 {
      assert Terminated(ts) == ts[0] + [COMMA] + [];
    } else {
      TerminatedIsJoin(ts[1..]);
    }
  }

  lemma {:induction false} JoinAppend(ts: seq<Name>, t: Name)
    ensures Join(ts + [t]) == Terminated(ts) + t
  {
    if ts == [] {
    } else {
      JoinAppend(ts[1..], t);
      HeadOfConcat(ts, [t]);
      Assoc(ts[0] + [COMMA], Terminated(ts[1..]), t);
    }
  }

  lemma {:induction false} JoinSplit(s: seq<byte>)
    ensures Join(Split(s)) == s
    decreases |s|
  {
    hide Split, FirstComma, Join;
    var i := FirstComma(s);
    SplitOnce(s, i);
    JoinOne(s);
    if i < |s| {
      JoinSplit(s[i + 1..]);
      JoinCons(s[..i], Split(s[i + 1..]));
      assert s == s[..i] + [COMMA] + s[i + 1..];
    }
  }

  lemma JoinOne(t: Name)
    ensures Join([t]) == t
  {
  }

  lemma JoinCons(t: Name, ts: seq<Name>)
    requires ts != []
    ensures Join([t] + ts) == t + [COMMA] + Join(ts)
  {
    HeadOfConcat([t], ts);
    assert [] + ts == ts;
  }

  lemma {:induction false} SplitJoin(ts: seq<Name>)
    requires ts != [] && forall t :: t in ts ==> COMMA !in t
    ensures Split(Join(ts)) == ts
  {
    if |ts| == 1 {
      SplitCons(ts[0], []);
    } else {
      SplitCons(ts[0], Join(ts[1..]));
      SplitJoin(ts[1..]);
    }
  }

  lemma {:induction false} SplitIsCommaFree(s: seq<byte>)
    ensures forall t :: t in Split(s) ==> COMMA !in t
    decreases |s|
  {
    var i := FirstComma(s);
    assert s[..i] == s || i < |s|;
    if i < |s| {
      SplitIsCommaFree(s[i + 1..]);
    }
  }

  lemma SplitTrailingComma(s: seq<byte>)
    ensures Split(s + [COMMA]) == Split(s) + [[]]
  {
    var ts := Split(s);
    JoinSplit(s);
    TerminatedIsJoin(ts);
    JoinAppend(ts, []);
    assert s + [COMMA] + [] == s + [COMMA];
    SplitIsCommaFree(s);
    SplitJoin(ts + [[]]);
  }

  lemma {:induction false} FilterAppend(xs: seq<Name>, ys: seq<Name>, known: seq<Name>)
    ensures Filter(xs + ys, known) == Filter(xs, known) + Filter(ys, known)
  {
    if xs == [] {
      assert xs + ys == ys;
    } else {
      FilterAppend(xs[1..], ys, known);
      HeadOfConcat(xs, ys);
      Assoc(if xs[0] in known then [xs[0]] else [], Filter(xs[1..], known), Filter(ys, known));
    }
  }

  lemma FilterOne(t: Name, known: seq<Name>)
    ensures Filter([t], known) == if t in known then [t] else []
  {
    assert [t][1..] == [];
  }

  /** The first entry of the table with this name, as `kex_get_method_by_name` finds it. */
  function Lookup(name: Name, table: seq<Method>): (r: Option<Method>)
    ensures r.Some? ==> r.value in table && r.value.name == name
    ensures r.Some? <==> name in Names(table)
  {
    if table == [] then None
    else if table[0].name == name then
      assert Names(table)[0] == name;
      Some(table[0])
    else
      assert Names(table) == [table[0].name] + Names(table[1..]);
      Lookup(name, table[1..])
  }

  method GetMethodByName(name: Name, table: seq<Method>) returns (r: Option<Method>)
    ensures r == Lookup(name, table)
  {
    var k := 0;
    while k < |table|
      invariant k <= |table|
      invariant Lookup(name, table) == Lookup(name, table[k..])
    {
      if |table[k].name| == |name| && table[k].name == name {
        return Some(table[k]);
      }
      assert table[k..][1..] == table[k + 1..];
      k := k + 1;
    }
    return None;
  }
}
