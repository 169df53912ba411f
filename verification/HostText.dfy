/** The scanning that the known_hosts reader does: blanks, tokens, and the names in a host field. */
module HostText {

  predicate Blank(c: char) {
    c == ' ' || c == '\t'
  }

  predicate NoBlanks(s: string) {
    ' ' !in s && '\t' !in s
  }

  /** The text from its first non-blank character on. */
  function SkipBlanks(s: string): (r: string)
    ensures |r| <= |s| && s[|s| - |r|..] == r && (r != "" ==> !Blank(r[0]))
  {
    if s != "" && Blank(s[0]) then SkipBlanks(s[1..]) else s
  }

  /** How many characters stand before the first blank. */
  function TokenLen(s: string): (n: nat)
    ensures n <= |s| && NoBlanks(s[..n]) && (n < |s| ==> Blank(s[n]))
  {
    if s == "" || Blank(s[0]) then 0
    else
      assert s[..1 + TokenLen(s[1..])] == [s[0]] + s[1..][..TokenLen(s[1..])];
      1 + TokenLen(s[1..])
  }

  lemma {:induction false} TokenLenUnique(s: string, n: nat)
    requires n <= |s| && NoBlanks(s[..n]) && (n < |s| ==> Blank(s[n]))
    ensures TokenLen(s) == n
  {
    if n > 0 {
      assert s[0] in s[..n];
      assert s[1..][..n - 1] == s[..n][1..];
      TokenLenUnique(s[1..], n - 1);
    }
  }

  /** A token, a blank and the rest come apart again. */
  lemma TokenThenRest(token: string, rest: string)
    requires NoBlanks(token)
    ensures var s := token + " " + rest;
            && TokenLen(s) == |token| && s[..|token|] == token
            && SkipBlanks(s[|token|..]) == SkipBlanks(rest)
  {
    var s := token + " " + rest;
    assert s[..|token|] == token;
    TokenLenUnique(s, |token|);
    assert s[|token|..] == " " + rest && (" " + rest)[1..] == rest;
  }

  /** Moving a pointer and its length over blanks. */
  method PassBlanks(s: string) returns (cp: string)
    ensures cp == SkipBlanks(s)
  {
    cp := s;
    while cp != "" && Blank(cp[0])
      invariant SkipBlanks(cp) == SkipBlanks(s)
      decreases |cp|
    {
      cp := cp[1..];
    }
  }

  /** Moving over a token; the length is the distance. */
  method PassToken(s: string) returns (n: nat)
    ensures n == TokenLen(s)
  {
    n := 0;
    while n < |s| && !Blank(s[n])
      invariant n <= |s| && n + TokenLen(s[n..]) == TokenLen(s)
    {
      assert s[n..][1..] == s[n + 1..];
      n := n + 1;
    }
  }

  /** `for(p = salt; *p && (*p != '|'); p++)` */
  function BarLen(s: string): (n: nat)
    ensures n <= |s| && '|' !in s[..n] && (n < |s| ==> s[n] == '|')
  {
    if s == "" || s[0] == '|' then 0
    else
      assert s[..1 + BarLen(s[1..])] == [s[0]] + s[1..][..BarLen(s[1..])];
      1 + BarLen(s[1..])
  }

  lemma {:induction false} BarLenUnique(s: string, n: nat)
    requires n < |s| && '|' !in s[..n] && s[n] == '|'
    ensures BarLen(s) == n
  {
    if n > 0 {
      assert s[0] in s[..n];
      assert s[1..][..n - 1] == s[..n][1..];
      BarLenUnique(s[1..], n - 1);
    }
  }

  method PassSalt(s: string) returns (p: nat)
    ensures p == BarLen(s)
  {
    p := 0;
    while p < |s| && s[p] != '|'
      invariant p <= |s| && p + BarLen(s[p..]) == BarLen(s)
    {
      assert s[p..][1..] == s[p + 1..];
      p := p + 1;
    }
  }

  /** Where the backward walk over a host field stops first: at the start, or behind a comma. The
      last character itself is not looked at. */
  function NameStart(host: string): (s: nat)
    requires host != ""
    ensures s < |host| && (s == 0 || host[s - 1] == ',') && ',' !in host[s..|host| - 1]
  {
    StepBack(host, |host| - 1)
  }

  function StepBack(host: string, at: nat): (s: nat)
    requires at < |host|
    ensures s <= at && (s == 0 || host[s - 1] == ',') && ',' !in host[s..at]
  {
    if at == 0 || host[at - 1] == ',' then at
    else
      var s := StepBack(host, at - 1);
      assert host[s..at] == host[s..at - 1] + [host[at - 1]];
      s
  }

  /** The names of a host field in the order the reader adds them: from the back. */
  function NamesBack(host: string): seq<string>
    decreases |host|
  {
    if host == "" then []
    else
      var s := NameStart(host);
      [host[s..]] + (if s == 0 then [] else NamesBack(host[..s - 1]))
  }

  function JoinNames(names: seq<string>): string {
    if names == [] then "" else if |names| == 1 then names[0] else JoinNames(names[..|names| - 1]) + "," + names[|names| - 1]
  }

  function Reverse(names: seq<string>): (r: seq<string>)
    ensures |r| == |names| && forall i :: 0 <= i < |r| ==> r[i] == names[|names| - 1 - i]
  {
    seq(|names|, i requires 0 <= i < |names| => names[|names| - 1 - i])
  }

  /** A name the backward walk stops at the start of: a comma at its very end is not seen. */
  predicate Separable(name: string) {
    name != "" && ',' !in name[..|name| - 1]
  }

  lemma {:induction false} StepsBackTo(host: string, at: nat, s: nat)
    requires s <= at < |host| && (s == 0 || host[s - 1] == ',') && ',' !in host[s..at]
    ensures StepBack(host, at) == s
    decreases at
  {
    if s < at {
      assert host[at - 1] in host[s..at];
      assert host[s..at - 1] == host[s..at][..at - 1 - s];
      StepsBackTo(host, at - 1, s);
    }
  }

  /** Names joined by commas are read as exactly those names, last one first, if and only if none is empty
      or has a comma before its last character. */
  lemma NamesOfJoin(names: seq<string>)
    requires names != []
    ensures NamesBack(JoinNames(names)) == Reverse(names) <==> forall i :: 0 <= i < |names| ==> Separable(names[i])
  {
    if forall i :: 0 <= i < |names| ==> Separable(names[i]) {
      SeparableNamesReadBack(names);
    }
    if NamesBack(JoinNames(names)) == Reverse(names) {
      NamesReadAreSeparable(JoinNames(names));
      forall i | 0 <= i < |names| ensures Separable(names[i]) {
        assert Reverse(names)[|names| - 1 - i] == names[i];
      }
    }
  }

  lemma {:induction false} NamesReadAreSeparable(host: string)
    ensures forall i :: 0 <= i < |NamesBack(host)| ==> Separable(NamesBack(host)[i])
    decreases |host|
  {
    hide NameStart, NamesBack;
    NothingRead();
    if host != "" {
      var s := NameStart(host);
      NamesBackStep(host);
      assert host[s..][..|host[s..]| - 1] == host[s..|host| - 1];
      if s > 0 {
        NamesReadAreSeparable(host[..s - 1]);
      }
    }
  }

  lemma {:induction false} SeparableNamesReadBack(names: seq<string>)
    requires names != [] && forall i :: 0 <= i < |names| ==> Separable(names[i])
    ensures NamesBack(JoinNames(names)) == Reverse(names)
    decreases |names|
  {
    hide NamesBack, Reverse, Separable;
    var last, rest := names[|names| - 1], names[..|names| - 1];
    LastRead("", last);
    if |names| > 1 {
      SeparableNamesReadBack(rest);
      LastRead(JoinNames(rest), last);
    } else {
      NothingReversed();
    }
    ReverseStep(names);
  }

  lemma NothingReversed()
    ensures Reverse([]) == []
  {
  }

  /** The last name comes first, then those before the comma. */
  lemma LastRead(front: string, last: string)
    requires Separable(last)
    ensures NamesBack(last) == [last] && NamesBack(front + "," + last) == [last] + NamesBack(front)
  {
    hide NameStart, NamesBack;
    LastName("", last);
    assert "" + last == last && last[0..] == last;
    NamesBackStep(last);
    LastName(front + ",", last);
    FrontOf(front, ",", last);
    NamesBackStep(front + "," + last);
  }

  lemma NamesBackStep(host: string)
    requires host != ""
    ensures var s := NameStart(host);
            NamesBack(host) == [host[s..]] + (if s == 0 then [] else NamesBack(host[..s - 1]))
  {
  }

  lemma NothingRead()
    ensures NamesBack("") == []
  {
  }

  lemma FrontOf(a: string, b: string, c: string)
    ensures (a + b + c)[..|a|] == a
  {
  }

  lemma ReverseStep(names: seq<string>)
    requires names != []
    ensures Reverse(names) == [names[|names| - 1]] + Reverse(names[..|names| - 1])
  {
  }

  lemma LastName(front: string, last: string)
    requires Separable(last) && (front == "" || front[|front| - 1] == ',')
    ensures last != "" && NameStart(front + last) == |front| && (front + last)[|front|..] == last
  {
    var host := front + last;
    assert host[|front|..|host| - 1] == last[..|last| - 1];
    StepsBackTo(host, |host| - 1, |front|);
  }

  /** An empty name is not left out but drags the comma before it into the name before that. */
  lemma EmptyNameIsMisread()
    ensures JoinNames(["a", "", "b"]) == "a,,b" && NamesBack("a,,b") == ["b", "a,"]
  {
    hide NamesBack, NameStart, JoinNames;
    assert "a,"[..1] == "a";
    LastRead("a,", "b");
    LastRead("", "a,");
    assert "a," + "," + "b" == "a,,b" && ["b"] + ["a,"] == ["b", "a,"];
    JoinSnoc(["a", ""], "b");
    JoinSnoc(["a"], "");
    JoinOne("a");
    assert ["a"] + [""] == ["a", ""] && ["a", ""] + ["b"] == ["a", "", "b"] && "a" + "," + "" + "," + "b" == "a,,b";
  }

  lemma JoinOne(name: string)
    ensures JoinNames([name]) == name
  {
  }

  lemma JoinSnoc(names: seq<string>, last: string)
    requires names != []
    ensures JoinNames(names + [last]) == JoinNames(names) + "," + last
  {
    assert (names + [last])[..|names|] == names;
  }
}
