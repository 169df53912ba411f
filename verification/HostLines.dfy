/** Reading a line, writing the entries it gave, and reading those lines again. */
module HostLines {
  import opened HostText
  import opened HostEntries
  import opened HostRoundTrip
  import Base64

  /** What an entry that a line gave must be for its own line to give it again: its name is long enough to be
      taken for one, and is not taken for a comment or a hash; a hash and its salt fit their buffers; and the
      key part, with the one blank that is written between its words, is long enough. */
  predicate Lasting(e: KnownHost) {
    && (match e.name
        case PlainName(text) => |text| >= 3 && text[0] != '#' && text[0] != '\n' && text[..3] != "|1|"
        case CustomName(_) => false
        case HashedName(hash, salt) => hash != [] && salt != [] && |hash| <= 189 && |salt| <= 21)
    && TypeName(e).Ok? && |KeyText(TypeName(e).value, e.key, e.comment)| >= 20
  }

  /** The fields of an entry, as far as the key part makes them. */
  predicate KeyedBy(e: KnownHost, k: KeyField)
    requires k.Fits()
  {
    MadeFrom(e, k) && e.base64 && e.comment == k.comment
  }

  /** What a host field in clear can give as a name. */
  predicate ListedName(name: HostName) {
    name.PlainName? && Word(name.text) && |name.text| <= 254 && Separable(name.text)
  }

  lemma KeyedEntry(text: string, k: KeyField)
    requires k.Fits() && EntryFor(PlainHost(text), k).Ok?
    ensures KeyedBy(EntryFor(PlainHost(text), k).value, k) && EntryFor(PlainHost(text), k).value.name == PlainName(text)
  {
  }

  lemma {:induction false} AddedFromNames(names: seq<string>, k: KeyField)
    requires k.Fits() && forall i :: 0 <= i < |names| ==> Word(names[i]) && Separable(names[i])
    ensures forall e :: e in AddNames(names, k).added ==> ListedName(e.name) && KeyedBy(e, k)
  {
    hide EntryFor, Separable, Word, KeyedBy;
    if names != [] && |names[0]| < 255 && EntryFor(PlainHost(names[0]), k).Ok? {
      KeyedEntry(names[0], k);
      AddedFromNames(names[1..], k);
    }
  }

  lemma AddedFromHash(s: string, n: nat, k: KeyField)
    requires 3 <= |s| && n <= |s| && k.Fits()
    ensures forall e :: e in ParseHashed(s, n, k).added ==> e.name.HashedName? && KeyedBy(e, k)
  {
    hide Base64.Decode, BarLen;
  }

  /** What the reader makes of a key part is what it makes again of the same words. */
  predicate Settled(k: KeyField)
    requires k.Fits()
  {
    && !k.keyType.KeyUnset? && !k.keyType.KeyReserved?
    && (k.comment.Some? ==> k.comment.value == "" || !Blank(k.comment.value[0]))
    && if k.keyType.Rsa1? then k.len > 0 && Digit(k.text[0]) && k.comment.None?
       else
         && k.typeName.Some? && Word(k.typeName.value) && !Digit(k.typeName.value[0])
         && k.keyType == KeyTypeOf(k.typeName.value) && Word(EncodedKey(k.text, k.len).Stored())
  }

  lemma KeyIsSettled(rest: string, len: nat)
    requires 0 < len < |rest| && !Blank(rest[0]) && rest[len..] == "\n"
    ensures Settled(ParseKey(rest, len))
  {
    hide SkipBlanks, TokenLen, Blank, NoBlanks, KeyTypeOf, Word, KeyArg.Stored;
    KeyFieldShape(rest, len);
    if !Digit(rest[0]) {
      assert rest[..len][0] == rest[0];
    }
  }

  /** Then an entry is well formed and faithful exactly when it is lasting. */
  lemma LastingExactly(e: KnownHost, k: KeyField)
    requires k.Fits() && Settled(k) && KeyedBy(e, k) && (ListedName(e.name) || e.name.HashedName?)
    ensures WellFormed(e) && Faithful(e) <==> Lasting(e)
  {
    hide KeyText, NoBlanks, KeyTypeOf, KnownTypeName;
  }

  /** A line from which an entry came, with a newline at its end. */
  ghost predicate CameFrom(e: KnownHost, line: string) {
    line != "" && line[|line| - 1] == '\n' && e in ParseLine(line).added
  }

  lemma Shape(line: string, e: KnownHost) returns (k: KeyField)
    requires CameFrom(e, line)
    ensures k.Fits() && Settled(k) && KeyedBy(e, k) && (ListedName(e.name) || e.name.HashedName?)
  {
    hide ParseLine, ParseKey, AddNames, NamesBack, ParseHashed, Settled, KeyedBy, Blank, NoBlanks;
    var s, n, at := LineParts(line);
    var len := |s| - 1 - at;
    TooShort(s, n, at, len);
    k := ParseKey(s[at..], len);
    KeyIsSettled(s[at..], len);
    if n > 2 && s[..3] != "|1|" {
      NamesAreWords(s[..n]);
      NamesReadAreSeparable(s[..n]);
      AddedFromNames(NamesBack(s[..n]), k);
    } else {
      AddedFromHash(s, n, k);
    }
  }

  /** Of the entries that a line gives exactly those come back from their own lines that are lasting. */
  lemma ComesBackExactly(line: string, e: KnownHost)
    requires CameFrom(e, line)
    ensures Print(e).Ok? && ParseLine(Print(e).value) == Parsed([e], 0) <==> Lasting(e)
  {
    hide ParseLine, ParseKey, AddNames, NamesBack, ParseHashed, Lasting, WellFormed, Faithful, Print, Settled,
         KeyedBy, Blank, NoBlanks, CameFrom;
    var k := Shape(line, e);
    LastingExactly(e, k);
    StaysPlain(e, k);
    RoundTrip(e);
  }

  lemma StaysPlain(e: KnownHost, k: KeyField)
    requires k.Fits() && KeyedBy(e, k) && (ListedName(e.name) || e.name.HashedName?)
    ensures Canonical(e) == e
  {
  }

  lemma PrintedIsWellFormed(e: KnownHost, k: KeyField)
    requires k.Fits() && Settled(k) && KeyedBy(e, k) && (ListedName(e.name) || e.name.HashedName?) && Print(e).Ok?
    ensures WellFormed(e)
  {
    hide KeyText, NoBlanks, KeyTypeOf, KnownTypeName, Base64.Encode;
  }

  /** The line of such an entry gives one entry at most. */
  lemma AtMostOne(line: string, e: KnownHost)
    requires CameFrom(e, line) && Print(e).Ok?
    ensures |ParseLine(Print(e).value).added| <= 1
  {
    hide CameFrom, ParseLine, ParseKey, KeyText, TypeName, Settled, KeyedBy, NoBlanks, Blank, Base64.Encode, AddNames, NamesBack,
         ParseHashed;
    var k := Shape(line, e);
    PrintedIsWellFormed(e, k);
    PartIsProper(e);
    var part := KeyText(TypeName(e).value, e.key, e.comment);
    if e.name.HashedName? {
      HashedHostIsWord(e.name.hash, e.name.salt);
      var host := "|1|" + Base64.Encode(e.name.salt) + "|" + Base64.Encode(e.name.hash);
      LineRead(host, part);
      OneFromHash(host + " " + part + "\n", |host|, ParseKey(part + "\n", |part|));
    } else if e.name.text[0] == '#' || e.name.text[0] == '\n' {
      CommentLine(e.name.text + " " + part + "\n");
    } else {
      LineRead(e.name.text, part);
      OneFromName(e.name.text, ParseKey(part + "\n", |part|));
      OneFromHash(e.name.text + " " + part + "\n", |e.name.text|, ParseKey(part + "\n", |part|));
    }
  }

  lemma OneFromName(text: string, k: KeyField)
    requires Separable(text) && k.Fits()
    ensures |AddNames(NamesBack(text), k).added| <= 1
  {
    hide EntryFor;
    OneName(text);
    assert [text][1..] == [];
  }

  lemma OneFromHash(s: string, n: nat, k: KeyField)
    requires 3 <= |s| && n <= |s| && k.Fits()
    ensures |ParseHashed(s, n, k).added| <= 1
  {
  }

  /** Two names in one field are too short for lines of their own: neither entry comes back. */
  lemma ShortNamesAreLost(part: string)
    requires |part| >= 20 && !Blank(part[0])
    ensures var r := ParseLine("ab,cd" + " " + part + "\n");
            && r.rc == 0 && |r.added| == 2
            && forall e :: e in r.added ==> !(Print(e).Ok? && ParseLine(Print(e).value) == Parsed([e], 0))
  {
    hide ParseLine, ParseKey, AddNames, NamesBack, ParseHashed, EntryFor, Print;
    var k := ParseKey(part + "\n", |part|);
    var line := "ab,cd" + " " + part + "\n";
    AfterFront("", part, "\n");
    assert (part + "\n")[0] == part[0] && (part + "\n")[|part|..] == "\n";
    KeyIsSettled(part + "\n", |part|);
    LineRead("ab,cd", part);
    LastRead("ab", "cd");
    LastRead("", "ab");
    assert "ab" + "," + "cd" == "ab,cd" && ["cd"] + ["ab"] == ["cd", "ab"];
    TwoAdded("cd", "ab", k);
    forall e | e in ParseLine(line).added ensures !(Print(e).Ok? && ParseLine(Print(e).value) == Parsed([e], 0)) {
      ComesBackExactly(line, e);
    }
  }

  lemma TwoAdded(a: string, b: string, k: KeyField)
    requires k.Fits() && !k.keyType.KeyUnset? && |a| < 255 && |b| < 255
    ensures var r := AddNames([a, b], k);
            r.rc == 0 && |r.added| == 2 && forall e :: e in r.added ==> e.name == PlainName(a) || e.name == PlainName(b)
  {
    KeyedEntry(a, k);
    KeyedEntry(b, k);
    OneAdded(b, k);
    assert [a, b][0] == a && [a, b][1..] == [b];
  }
}
