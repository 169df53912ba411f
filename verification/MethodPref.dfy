/** `libssh2_session_method_pref`: the caller's preference string is copied and the names
    that no method table entry supports are cut out of the copy in place. */
module MethodPref {
  import opened Bytes
  import opened NameLists

  datatype MethodType =
    | Kex | HostKey | CryptCS | CryptSC | MacCS | MacSC | CompCS | CompSC | LangCS | LangSC
    | OtherType(code: int)

  /** The compiled-in tables. */
  datatype Tables = Tables(kex: seq<Method>, hostkey: seq<Method>, crypt: seq<Method>,
                           mac: seq<Method>, comp: seq<Method>)
  {
    /** The `mlist` of a method type; language preferences have none and are not filtered. */
    function MethodList(t: MethodType): Option<seq<Method>> {
      match t
      case Kex => Some(kex)
      case HostKey => Some(hostkey)
      case CryptCS => Some(crypt)
      case CryptSC => Some(crypt)
      case MacCS => Some(mac)
      case MacSC => Some(mac)
      case CompCS => Some(comp)
      case CompSC => Some(comp)
      case _ => None
    }

    /** The name-list sent for a field: the preference string, else the table's names joined. */
    function FieldText(prefs: map<MethodType, seq<byte>>, t: MethodType): seq<byte> {
      if t in prefs then prefs[t]
      else match MethodList(t)
        case Some(mlist) => Join(Names(mlist))
        case None => []
    }
  }

  predicate EndsWithComma(s: seq<byte>) {
    s != [] && s[|s| - 1] == COMMA
  }

  /** What the filtering leaves: the supported names joined again. A comma that ends the
      string stays, because the loop stops before the empty name behind it. */
  function FilteredPrefs(prefs: seq<byte>, known: seq<Name>): seq<byte> {
    if EndsWithComma(prefs) then Terminated(Filter(Split(prefs[..|prefs| - 1]), known))
    else Join(Filter(Split(prefs), known))
  }

  /** The buffer holds exactly the supported names, joined in their original order, if and
      only if the string does not end in a comma, or nothing in it is supported (or the
      table has an entry with an empty name). */
  lemma {:induction false} FilteredExactly(prefs: seq<byte>, known: seq<Name>)
    ensures FilteredPrefs(prefs, known) == Join(Filter(Split(prefs), known))
      <==> !EndsWithComma(prefs) || [] in known || Filter(Split(prefs), known) == []
  {
    if EndsWithComma(prefs) {
      var front := prefs[..|prefs| - 1];
      var kept := Filter(Split(front), known);
      assert prefs == front + [COMMA];
      SplitTrailingComma(front);
      FilterAppend(Split(front), [[]], known);
      FilterOne([], known);
      if [] in known {
        JoinAppend(kept, []);
      } else {
        assert Filter(Split(prefs), known) == kept;
        if kept != [] {
          TerminatedIsJoin(kept);
        }
      }
    }
  }

  /** A supported name and a comma behind it are left as they are: a list with an empty name at its end. */
  lemma TrailingCommaStays(name: Name, known: seq<Name>)
    requires COMMA !in name && name in known && [] !in known
    ensures FilteredPrefs(name + [COMMA], known) == name + [COMMA]
    ensures Join(Filter(Split(name + [COMMA]), known)) == name
  {
    var prefs := name + [COMMA];
    assert prefs[..|prefs| - 1] == name;
    FirstCommaUnique(name, |name|);
    assert name[..|name|] == name;
    FilterOne(name, known);
    FilterOne([], known);
    SplitTrailingComma(name);
    FilterAppend([name], [[]], known);
    assert [name] + [] == [name];
    assert Terminated([name]) == name + [COMMA] by {
      TerminatedIsJoin([name]);
    }
  }

  /** `rest` is what is left of `prefs` after whole names have been taken off the front. */
  ghost predicate IsTail(rest: seq<byte>, prefs: seq<byte>) {
    && |rest| <= |prefs| && prefs[|prefs| - |rest|..] == rest
    && (|rest| < |prefs| ==> prefs[|prefs| - |rest| - 1] == COMMA)
  }

  /** The state of the filtering loop: these names are kept, `rest` is still to be read. */
  ghost predicate Progress(prefs: seq<byte>, kept: seq<Name>, rest: seq<byte>, known: seq<Name>) {
    && IsTail(rest, prefs)
    && Filter(Split(prefs), known) == kept + Filter(Split(rest), known)
  }

  lemma LastName(prefs: seq<byte>, kept: seq<Name>, rest: seq<byte>, known: seq<Name>)
    requires Progress(prefs, kept, rest, known) && rest != [] && FirstComma(rest) == |rest|
    ensures rest[..|rest|] in known ==> FilteredPrefs(prefs, known) == Terminated(kept) + rest
    ensures rest[..|rest|] !in known ==>
              if Terminated(kept) == [] then FilteredPrefs(prefs, known) == []
              else FilteredPrefs(prefs, known) + [COMMA] == Terminated(kept)
  {
    assert rest[..|rest|] == rest && rest[|rest| - 1] == prefs[|prefs| - 1];
    assert !EndsWithComma(prefs);
    FilterOne(rest, known);
    if rest in known {
      JoinAppend(kept, rest);
    } else {
      assert Filter(Split(prefs), known) == kept;
      if kept != [] {
        TerminatedIsJoin(kept);
      }
    }
  }

  lemma TailOfTail(prefs: seq<byte>, rest: seq<byte>, n: nat)
    requires IsTail(rest, prefs) && n < |rest| && rest[n] == COMMA
    ensures IsTail(rest[n + 1..], prefs)
  {
    var after := rest[n + 1..];
    assert prefs[|prefs| - |after|..] == prefs[|prefs| - |rest|..][n + 1..];
    assert prefs[|prefs| - |after| - 1] == prefs[|prefs| - |rest|..][n];
  }

  lemma FilterStep(s: seq<byte>, known: seq<Name>)
    requires FirstComma(s) < |s|
    ensures var n := FirstComma(s);
            Filter(Split(s), known)
            == (if s[..n] in known then [s[..n]] else []) + Filter(Split(s[n + 1..]), known)
  {
    var n := FirstComma(s);
    var tail := Split(s[n + 1..]);
    assert Split(s) == [s[..n]] + tail;
    assert ([s[..n]] + tail)[1..] == tail;
  }

  lemma NextName(total: seq<Name>, kept: seq<Name>, rest: seq<byte>, known: seq<Name>, n: nat)
    requires FirstComma(rest) == n < |rest| && total == kept + Filter(Split(rest), known)
    ensures rest[..n] in known ==> total == kept + [rest[..n]] + Filter(Split(rest[n + 1..]), known)
    ensures rest[..n] !in known ==> total == kept + Filter(Split(rest[n + 1..]), known)
  {
    FilterStep(rest, known);
    var name, f, g := rest[..n], Filter(Split(rest[n + 1..]), known), Filter(Split(rest), known);
    hide *;
    if name in known {
      assert kept + ([name] + f) == kept + [name] + f;
    } else {
      assert [] + f == f;
    }
  }

  lemma NextProgress(prefs: seq<byte>, kept: seq<Name>, rest: seq<byte>, known: seq<Name>, n: nat)
    requires Progress(prefs, kept, rest, known) && FirstComma(rest) == n < |rest|
    ensures rest[..n] in known ==> Progress(prefs, kept + [rest[..n]], rest[n + 1..], known)
    ensures rest[..n] !in known ==> Progress(prefs, kept, rest[n + 1..], known)
  {
    TailOfTail(prefs, rest, n);
    NextName(Filter(Split(prefs), known), kept, rest, known, n);
    hide IsTail, Split, Filter, FirstComma;
  }

  lemma NothingLeft(prefs: seq<byte>, kept: seq<Name>, known: seq<Name>)
    requires Progress(prefs, kept, [], known)
    ensures FilteredPrefs(prefs, known) == Terminated(kept)
  {
    if prefs == [] {
      FilterOne([], known);
    } else {
      var front := prefs[..|prefs| - 1];
      assert prefs == front + [COMMA];
      SplitTrailingComma(front);
      FilterAppend(Split(front), [[]], known);
      assert Split([]) == [[]];
      var xs, t := Filter(Split(front), known), Filter([[]], known);
      assert xs + t == kept + t;
      assert xs == (xs + t)[..|xs|] && kept == (kept + t)[..|kept|];
    }
  }

  /** The bytes of `a` from `s` to the terminating zero are `text`. */
  ghost predicate HoldsText(a: seq<byte>, s: int, text: seq<byte>) {
    && 0 <= s && s + |text| < |a| && a[s + |text|] == 0
    && (forall j :: s <= j < s + |text| ==> a[j] == text[j - s] && a[j] != 0)
  }

  lemma RestAt(a: seq<byte>, front: seq<byte>, rest: seq<byte>)
    requires HoldsText(a, 0, front + rest)
    ensures HoldsText(a, |front|, rest) && |front| < |a| && (a[|front|] == 0 <==> rest == [])
  {
    assert forall j :: |front| <= j < |front| + |rest| ==> (front + rest)[j] == rest[j - |front|];
  }

  /** `strchr(s, ',')`, or the length when there is no comma. */
  method CommaSpan(a: array<byte>, s: nat, ghost text: seq<byte>) returns (n: nat, p: bool)
    requires HoldsText(a[..], s, text)
    ensures n == FirstComma(text) && (p <==> n < |text|) && s + n < a.Length
    ensures a[s..s + n] == text[..n]
  {
    n := 0;
    while a[s + n] != 0 && a[s + n] != COMMA
      invariant n <= |text|
      invariant forall k :: 0 <= k < n ==> text[k] != COMMA
      decreases |text| - n
    {
      n := n + 1;
    }
    FirstCommaUnique(text, n);
    p := a[s + n] == COMMA;
  }

  method StrLen(a: array<byte>, s: nat, ghost text: seq<byte>) returns (n: nat)
    requires HoldsText(a[..], s, text)
    ensures n == |text|
  {
    n := 0;
    while a[s + n] != 0
      invariant n <= |text|
      decreases |text| - n
    {
      n := n + 1;
    }
  }

  /** Copies towards the front, so the regions may overlap. */
  method CopyDown(a: array<byte>, dest: nat, src: nat, n: nat)
    requires dest < src && src + n <= a.Length
    modifies a
    ensures forall j :: dest <= j < dest + n ==> a[j] == old(a[j - dest + src])
    ensures forall j :: 0 <= j < a.Length && !(dest <= j < dest + n) ==> a[j] == old(a[j])
  {
    var k := 0;
    while k < n
      invariant k <= n
      invariant forall j :: dest <= j < dest + k ==> a[j] == old(a[j - dest + src])
      invariant forall j :: 0 <= j < a.Length && !(dest <= j < dest + k) ==> a[j] == old(a[j])
    {
      a[dest + k] := a[src + k];
      k := k + 1;
    }
  }

  method CutName(a: array<byte>, ghost front: seq<byte>, ghost rest: seq<byte>, s: nat, n: nat)
    requires HoldsText(a[..], 0, front + rest) && s == |front| && n < |rest|
    modifies a
    ensures HoldsText(a[..], 0, front + rest[n + 1..])
  {
    ghost var text, text' := front + rest, front + rest[n + 1..];
    RestAt(a[..], front, rest);
    var len := StrLen(a, s, rest);
    CopyDown(a, s, s + n + 1, len - n);
    assert forall j :: 0 <= j < |text'| ==> text'[j] == text[if j < s then j else j + n + 1];
  }

  method CutLast(a: array<byte>, ghost front: seq<byte>, ghost rest: seq<byte>,
                 ghost target: seq<byte>, s: nat) returns (s': nat)
    requires HoldsText(a[..], 0, front + rest) && s == |front|
    requires if front == [] then target == [] else target + [COMMA] == front
    modifies a
    ensures HoldsText(a[..], 0, target) && s' < a.Length && a[s'] == 0
  {
    s' := s;
    if s' > 0 {
      s' := s' - 1;
      assert forall j :: 0 <= j < |target| ==> target[j] == front[j] == (front + rest)[j];
    }
    a[s'] := 0;
  }

  lemma TerminatedGrows(kept: seq<Name>, rest: seq<byte>, n: nat)
    requires n < |rest| && rest[n] == COMMA
    ensures Terminated(kept + [rest[..n]]) + rest[n + 1..] == Terminated(kept) + rest
    ensures |Terminated(kept + [rest[..n]])| == |Terminated(kept)| + n + 1
  {
    TerminatedAppend(kept, rest[..n]);
  }

  /** The loop of `libssh2_session_method_pref` over the copied preference string. */
  method FilterInPlace(newprefs: array<byte>, prefs: seq<byte>, mlist: seq<Method>)
    requires HoldsText(newprefs[..], 0, prefs)
    modifies newprefs
    ensures HoldsText(newprefs[..], 0, FilteredPrefs(prefs, Names(mlist)))
  {
    hide Split, Filter, FirstComma, Join, Terminated, FilteredPrefs, Lookup, HoldsText, Progress;
    ghost var known := Names(mlist);
    ghost var kept: seq<Name>, rest := [], prefs;
    ghost var done := false;
    var s, more := 0, true;
    Begins(newprefs[..], prefs, known);
    while more && newprefs[s] != 0
      invariant 0 <= s < newprefs.Length
      invariant !done ==> more && s == |Terminated(kept)| && Progress(prefs, kept, rest, known)
                          && HoldsText(newprefs[..], 0, Terminated(kept) + rest) && (newprefs[s] == 0 <==> rest == [])
      invariant done ==> HoldsText(newprefs[..], 0, FilteredPrefs(prefs, known)) && (more ==> newprefs[s] == 0)
      decreases more, !done, |rest|
    {
      s, more, kept, rest, done := OneName(newprefs, prefs, mlist, s, kept, rest);
    }
    if !done {
      NothingLeft(prefs, kept, known);
      assert Terminated(kept) + [] == Terminated(kept);
    }
  }

  lemma Begins(a: seq<byte>, prefs: seq<byte>, known: seq<Name>)
    requires HoldsText(a, 0, prefs)
    ensures |Terminated([])| == 0 < |a| && HoldsText(a, 0, Terminated([]) + prefs) && Progress(prefs, [], prefs, known)
    ensures a[0] == 0 <==> prefs == []
  {
    hide Split, Filter;
    assert Terminated([]) == [] && [] + prefs == prefs && prefs[0..] == prefs;
    assert [] + Filter(Split(prefs), known) == Filter(Split(prefs), known);
  }

  /** One name of it: it stays, or what follows is moved over it. */
  method OneName(newprefs: array<byte>, prefs: seq<byte>, mlist: seq<Method>, at: nat, ghost had: seq<Name>, ghost text: seq<byte>)
    returns (s: nat, more: bool, ghost kept: seq<Name>, ghost rest: seq<byte>, ghost done: bool)
    requires text != [] && at == |Terminated(had)| && Progress(prefs, had, text, Names(mlist))
    requires HoldsText(newprefs[..], 0, Terminated(had) + text)
    modifies newprefs
    ensures s < newprefs.Length
    ensures !done ==> && more && s == |Terminated(kept)| && Progress(prefs, kept, rest, Names(mlist)) && |rest| < |text|
                      && HoldsText(newprefs[..], 0, Terminated(kept) + rest) && (newprefs[s] == 0 <==> rest == [])
    ensures done ==> HoldsText(newprefs[..], 0, FilteredPrefs(prefs, Names(mlist))) && (more ==> newprefs[s] == 0)
  {
    hide Split, Filter, FirstComma, Join, Terminated, FilteredPrefs, Lookup, HoldsText, Progress;
    ghost var known := Names(mlist);
    s, more, kept, rest, done := at, true, had, text, false;
    RestAt(newprefs[..], Terminated(kept), rest);
    var methodLen, p := CommaSpan(newprefs, s, rest);
    var m := GetMethodByName(newprefs[s..s + methodLen], mlist);
    if !p {
      done := true;
      LastName(prefs, kept, rest, known);
      if m == None {
        s := CutLast(newprefs, Terminated(kept), rest, FilteredPrefs(prefs, known), s);
      } else {
        more := false;
      }
      return;
    }
    NextProgress(prefs, kept, rest, known, methodLen);
    if m == None {
      CutName(newprefs, Terminated(kept), rest, s, methodLen);
      rest := rest[methodLen + 1..];
    } else {
      TerminatedGrows(kept, rest, methodLen);
      kept, rest := kept + [rest[..methodLen]], rest[methodLen + 1..];
      s := s + methodLen + 1;
    }
    RestAt(newprefs[..], Terminated(kept), rest);
  }

  lemma {:induction false} FilterIsSupported(ts: seq<Name>, known: seq<Name>)
    ensures forall t :: t in Filter(ts, known) ==> t in ts && t in known
  {
    if ts != [] {
      FilterIsSupported(ts[1..], known);
    }
  }

  /** Every name the filtered string still holds is supported. */
  lemma {:induction false} FilteredIsSupported(prefs: seq<byte>, known: seq<Name>)
    ensures forall t :: t in Split(FilteredPrefs(prefs, known)) ==> t == [] || t in known
  {
    var text := if EndsWithComma(prefs) then prefs[..|prefs| - 1] else prefs;
    var kept := Filter(Split(text), known);
    SplitIsCommaFree(text);
    FilterIsSupported(Split(text), known);
    if kept == [] {
      assert Split([]) == [[]];
    } else {
      SplitJoin(kept);
      TerminatedIsJoin(kept);
      SplitTrailingComma(Join(kept));
    }
  }

  /** Unless nothing is left, the filtered string starts with a supported name. */
  lemma FilteredStartsSupported(prefs: seq<byte>, known: seq<Name>)
    requires FilteredPrefs(prefs, known) != []
    ensures [] !in known ==> Split(FilteredPrefs(prefs, known))[0] in known
  {
    hide Filter, FilteredPrefs;
    var text := if EndsWithComma(prefs) then prefs[..|prefs| - 1] else prefs;
    var kept := Filter(Split(text), known);
    FilteredForms(prefs, known);
    SplitIsCommaFree(text);
    FilterIsSupported(Split(text), known);
    if kept != [] {
      SplitJoin(kept);
      TerminatedIsJoin(kept);
      SplitTrailingComma(Join(kept));
    }
  }

  lemma FilteredForms(prefs: seq<byte>, known: seq<Name>)
    ensures var text := if EndsWithComma(prefs) then prefs[..|prefs| - 1] else prefs;
            var kept := Filter(Split(text), known);
            FilteredPrefs(prefs, known) == if EndsWithComma(prefs) then Terminated(kept) else Join(kept)
  {
  }
}
