/** Printing an entry and reading the line back. */
module HostRoundTrip {
  import opened Bytes
  import opened HostText
  import opened HostEntries
  import Base64

  /** A non-empty word. */
  predicate Word(s: string) {
    s != "" && NoBlanks(s)
  }

  /** Every field is text of the kind its place in a line is for. */
  predicate WellFormed(e: KnownHost) {
    && (match e.name
        case PlainName(text) => Word(text)
        case CustomName(text) => Word(text)
        case HashedName(hash, salt) => hash != [] && salt != [])
    && !e.keyType.KeyUnset? && !e.keyType.KeyReserved?
    && (if e.keyType.KeyUnknown? then e.keyTypeName.Some? && Word(e.keyTypeName.value) else e.keyTypeName.None?)
    && (if e.keyType.Rsa1? then e.key != "" && !Blank(e.key[0]) else Word(e.key))
  }

  /** What reading gives back: the key counts as base64, a custom name as a plain one. */
  function Canonical(e: KnownHost): KnownHost {
    e.(base64 := true, name := if e.name.CustomName? then PlainName(e.name.text) else e.name)
  }

  /** A plain name the reader takes as one name. A comma at its very end is not seen. */
  predicate ReadableName(text: string) {
    3 <= |text| <= 254 && text[0] != '#' && text[0] != '\n' && text[..3] != "|1|" && ',' !in text[..|text| - 1]
  }

  predicate ReadableHost(name: HostName) {
    match name
    case PlainName(text) => ReadableName(text)
    case CustomName(text) => ReadableName(text)
    case HashedName(hash, salt) => |hash| <= 189 && |salt| <= 21
  }

  /** No prefix of a known key type's name. */
  predicate NewTypeName(name: string) {
    KeyTypeOf(name).KeyUnknown?
  }

  /** The key part is long enough and its type is the one that is read back; a comment does not
      start with a blank, and there is none for RSA1. */
  predicate ReadableKey(e: KnownHost) {
    && TypeName(e).Ok? && |KeyText(TypeName(e).value, e.key, e.comment)| >= 20
    && (e.keyType.Rsa1? ==> e.key != "" && Digit(e.key[0]) && e.comment.None?)
    && (e.keyType.KeyUnknown? && e.keyTypeName.Some? && e.keyTypeName.value != "" ==>
          !Digit(e.keyTypeName.value[0]) && NewTypeName(e.keyTypeName.value))
    && (e.comment.Some? ==> e.comment.value == "" || !Blank(e.comment.value[0]))
  }

  predicate Faithful(e: KnownHost) {
    ReadableHost(e.name) && ReadableKey(e)
  }

  lemma SkipNothing(s: string)
    requires s == "" || !Blank(s[0])
    ensures SkipBlanks(s) == s
  {
  }

  /** A printed line comes apart into its host field and its key part. */
  lemma LineSplits(host: string, part: string)
    requires Word(host) && host[0] != '#' && host[0] != '\n' && part != "" && !Blank(part[0])
    ensures var line := host + " " + part + "\n";
            ParseLine(line) == ParseHost(line, |host|, |host| + 1, |part|)
  {
    hide ParseHost;
    var line, rest := host + " " + part + "\n", part + "\n";
    assert line == host + " " + rest && line[0] == host[0];
    assert host[0] in host;
    SkipNothing(line);
    TokenThenRest(host, rest);
    SkipNothing(rest);
    assert rest[|rest| - 1] == '\n';
  }

  /** A line whose host field starts with '#' or a newline is skipped. */
  lemma CommentLine(line: string)
    requires line != "" && (line[0] == '#' || line[0] == '\n')
    ensures ParseLine(line) == Parsed([], 0)
  {
    hide TokenLen, ParseHost, LineLen, SkipBlanks;
    SkipNothing(line);
  }

  lemma WordStart(s: string, rest: string)
    requires Word(s)
    ensures !Blank((s + rest)[0]) && SkipBlanks(s + rest) == s + rest
  {
    assert s[0] in s && (s + rest)[0] == s[0];
  }

  /** The comment as it is read. */
  function CommentRead(comment: Option<string>): Option<string> {
    if comment.None? then None else Some(SkipBlanks(comment.value))
  }

  /** A key and its comment, parsed from behind the type name. */
  lemma KeyThenComment(key: string, comment: Option<string>)
    requires Word(key)
    ensures var s := key + CommentText(comment);
            && TokenLen(s) == |key|
            && (if |key| == |s| then None else Some(SkipBlanks(s[|key|..]))) == CommentRead(comment)
  {
    hide SkipBlanks, TokenLen, NoBlanks, Blank;
    if comment.None? {
      assert key[..|key|] == key && key + "" == key;
      TokenLenUnique(key, |key|);
    } else {
      TokenThenRest(key, comment.value);
      assert key + (" " + comment.value) == key + " " + comment.value;
    }
  }

  /** The pieces of a key part that starts with a type name. */
  lemma TypedKey(typeName: string, key: string, comment: Option<string>)
    requires Word(typeName) && !Digit(typeName[0]) && Word(key)
    ensures var part := KeyText(typeName, key, comment);
            ParseKey(part + "\n", |part|)
            == KeyField(KeyTypeOf(typeName), Some(typeName), key + CommentText(comment) + "\n", |key|, CommentRead(comment))
  {
    hide KeyTypeOf, SkipBlanks, TokenLen, NoBlanks, Blank, CommentText, CommentRead, Digit;
    var after := key + CommentText(comment);
    var part := KeyText(typeName, key, comment);
    var rest := part + "\n";
    assert part == typeName + " " + after;
    assert rest[..|part|] == part && rest[0] == typeName[0];
    TokenThenRest(typeName, after);
    WordStart(key, CommentText(comment));
    KeyThenComment(key, comment);
    AfterFront(typeName + " ", after, "\n");
  }

  lemma AfterFront(front: string, after: string, end: string)
    ensures ((front + after) + end)[|front|..] == after + end
  {
  }

  lemma DifferAt(a: string, b: string, i: nat)
    requires i < |a| && i < |b| && a[i] != b[i]
    ensures !(a <= b)
  {
  }

  lemma KnownNamesAreWords(t: KeyType)
    requires KnownTypeName(t).Some?
    ensures var name := KnownTypeName(t).value; Word(name) && !Digit(name[0])
    ensures !t.KeyUnknown? && !t.Rsa1?
  {
  }

  lemma OtherNames(e: KnownHost)
    requires e.keyType.KeyUnknown? && e.keyTypeName.Some?
    ensures TypeName(e) == Ok(e.keyTypeName.value)
  {
  }

  /** No known name is a prefix of one that is looked at before it. */
  lemma KnownNamesAreRead(t: KeyType)
    requires KnownTypeName(t).Some?
    ensures KeyTypeOf(KnownTypeName(t).value) == t
  {
    var name := KnownTypeName(t).value;
    if t.SshRsa? || t.Ed25519? {
      DifferAt(name, "ssh-dss", 4);
    }
    if t.Ed25519? {
      DifferAt(name, "ssh-rsa", 4);
      DifferAt(name, "ecdsa-sha2-nistp256", 0);
      DifferAt(name, "ecdsa-sha2-nistp384", 0);
      DifferAt(name, "ecdsa-sha2-nistp521", 0);
    }
    if t.Ecdsa256? || t.Ecdsa384? || t.Ecdsa521? {
      DifferAt(name, "ssh-dss", 0);
      DifferAt(name, "ssh-rsa", 0);
    }
    if t.Ecdsa384? || t.Ecdsa521? {
      DifferAt(name, "ecdsa-sha2-nistp256", 16);
    }
    if t.Ecdsa521? {
      DifferAt(name, "ecdsa-sha2-nistp384", 16);
    }
  }

  lemma CommentReadBack(comment: Option<string>)
    ensures CommentRead(comment) == comment <==>
            (comment.Some? ==> comment.value == "" || !Blank(comment.value[0]))
  {
  }

  /** The entry made from a printed key part, whatever the host. */
  function EntryRead(host: HostArg, part: string): Outcome<KnownHost>
    requires part != ""
  {
    EntryFor(host, ParseKey(part + "\n", |part|))
  }

  /** The entry read is the printed one, but for its host name, exactly when the key is readable. */
  ghost predicate ReadBack(e: KnownHost, name: HostName, r: Outcome<KnownHost>) {
    && r.Ok? && r.value.name == name
    && (r.value.(name := e.name) == e.(base64 := true) <==> ReadableKey(e))
  }

  /** A key part that starts with a digit is an RSA1 key as a whole. */
  lemma DigitRead(host: HostArg, part: string)
    requires part != "" && Digit(part[0]) && NewName(host).Ok?
    ensures EntryRead(host, part) == Ok(KnownHost(NewName(host).value, true, Rsa1, part, None, None))
  {
    hide NewName, KeyTypeOf, SkipBlanks, TokenLen;
    assert (part + "\n")[0] == part[0] && (part + "\n")[..|part|] == part;
  }

  lemma NoDigitRead(host: HostArg, part: string)
    requires part != "" && !Digit(part[0]) && NewName(host).Ok?
    ensures var r := EntryRead(host, part);
            r.Ok? && r.value.name == NewName(host).value && r.value.keyType != Rsa1
  {
    hide NewName, KeyTypeOf, SkipBlanks, TokenLen;
    assert (part + "\n")[0] == part[0];
  }

  /** An RSA1 key is read back exactly when it starts with a digit and has no comment. */
  lemma Rsa1Read(e: KnownHost, host: HostArg)
    requires WellFormed(e) && e.keyType.Rsa1? && NewName(host).Ok?
    requires |KeyText("", e.key, e.comment)| >= 20
    ensures ReadBack(e, NewName(host).value, EntryRead(host, KeyText("", e.key, e.comment)))
  {
    hide NewName, EntryRead, Digit, Blank, NoBlanks;
    var part := KeyText("", e.key, e.comment);
    assert part == e.key + CommentText(e.comment) && part[0] == e.key[0];
    if Digit(e.key[0]) {
      DigitRead(host, part);
      if e.comment.None? {
        assert part == e.key;
      } else {
        assert |part| > |e.key|;
      }
    } else {
      NoDigitRead(host, part);
    }
  }

  /** What an entry becomes whose key part starts with a type name. */
  lemma TypedRead(e: KnownHost, host: HostArg)
    requires WellFormed(e) && !e.keyType.Rsa1? && NewName(host).Ok?
    requires TypeName(e).Ok? && Word(TypeName(e).value) && !Digit(TypeName(e).value[0])
    ensures var typeName := TypeName(e).value;
            var t := KeyTypeOf(typeName);
            EntryRead(host, KeyText(typeName, e.key, e.comment))
            == Ok(KnownHost(NewName(host).value, true, t, e.key, if t.KeyUnknown? then Some(typeName) else None,
                            CommentRead(e.comment)))
  {
    hide NewName, KeyTypeOf, KeyText, ParseKey, CommentRead;
    TypedKey(TypeName(e).value, e.key, e.comment);
    AfterFront("", e.key, CommentText(e.comment) + "\n");
    assert (e.key + CommentText(e.comment) + "\n")[..|e.key|] == e.key;
  }

  lemma KnownRead(e: KnownHost, host: HostArg)
    requires WellFormed(e) && KnownTypeName(e.keyType).Some? && NewName(host).Ok?
    requires |KeyText(TypeName(e).value, e.key, e.comment)| >= 20
    ensures ReadBack(e, NewName(host).value, EntryRead(host, KeyText(TypeName(e).value, e.key, e.comment)))
  {
    hide KnownTypeName, KeyTypeOf, KeyText, CommentRead, EntryRead, NewName, Digit, Blank, NoBlanks;
    KnownNamesAreWords(e.keyType);
    KnownNamesAreRead(e.keyType);
    CommentReadBack(e.comment);
    TypedRead(e, host);
  }

  lemma KeyTextStart(typeName: string, key: string, comment: Option<string>)
    requires typeName != ""
    ensures KeyText(typeName, key, comment) != "" && KeyText(typeName, key, comment)[0] == typeName[0]
  {
  }

  lemma UnknownRead(e: KnownHost, host: HostArg)
    requires WellFormed(e) && e.keyType.KeyUnknown? && NewName(host).Ok?
    requires |KeyText(TypeName(e).value, e.key, e.comment)| >= 20
    ensures ReadBack(e, NewName(host).value, EntryRead(host, KeyText(TypeName(e).value, e.key, e.comment)))
  {
    hide KnownTypeName, KeyTypeOf, KeyText, CommentRead, EntryRead, NewName, Digit, Blank, NoBlanks;
    var name := e.keyTypeName.value;
    OtherNames(e);
    if Digit(name[0]) {
      KeyTextStart(name, e.key, e.comment);
      DigitRead(host, KeyText(name, e.key, e.comment));
    } else {
      CommentReadBack(e.comment);
      TypedRead(e, host);
    }
  }

  lemma KeyRead(e: KnownHost, host: HostArg)
    requires WellFormed(e) && NewName(host).Ok?
    ensures TypeName(e).Ok? && KeyText(TypeName(e).value, e.key, e.comment) != ""
    ensures var part := KeyText(TypeName(e).value, e.key, e.comment);
            |part| >= 20 ==> ReadBack(e, NewName(host).value, EntryRead(host, part))
  {
    hide ReadBack, EntryRead, NewName;
    if |KeyText(TypeName(e).value, e.key, e.comment)| >= 20 {
      if e.keyType.Rsa1? {
        Rsa1Read(e, host);
      } else if e.keyType.KeyUnknown? {
        UnknownRead(e, host);
      } else {
        KnownRead(e, host);
      }
    }
  }

  lemma PlainEntryName(text: string, k: KeyField)
    requires k.Fits()
    ensures var r := EntryFor(PlainHost(text), k); r.Ok? ==> r.value.name == PlainName(text)
  {
  }

  lemma OneName(text: string)
    requires text != ""
    ensures var names := NamesBack(text);
            && names != []
            && (if ',' in text[..|text| - 1] then names[0] != text else names == [text])
  {
    var s := NameStart(text);
    if s > 0 {
      assert text[..|text| - 1][s - 1] == ',';
    } else {
      assert text[0..] == text && text[0..|text| - 1] == text[..|text| - 1];
    }
  }

  /** A plain host field gives back an entry with that very name exactly when it is one name of
      fitting length. */
  lemma PlainHostRead(text: string, k: KeyField, c: KnownHost)
    requires text != "" && k.Fits() && c.name == PlainName(text) && EntryFor(PlainHost(text), k).Ok?
    ensures AddNames(NamesBack(text), k) == Parsed([c], 0)
       <==> |text| <= 254 && ',' !in text[..|text| - 1] && EntryFor(PlainHost(text), k) == Ok(c)
  {
    hide EntryFor, NamesBack, AddNames;
    OneName(text);
    if ',' in text[..|text| - 1] {
      FirstAdded(NamesBack(text), k);
    } else {
      OneAdded(text, k);
    }
  }

  lemma FirstAdded(names: seq<string>, k: KeyField)
    requires names != [] && k.Fits()
    ensures var added := AddNames(names, k).added; added != [] ==> added[0].name == PlainName(names[0])
  {
    hide EntryFor;
    PlainEntryName(names[0], k);
  }

  lemma OneAdded(text: string, k: KeyField)
    requires k.Fits() && EntryFor(PlainHost(text), k).Ok?
    ensures var r := EntryFor(PlainHost(text), k).value;
            AddNames([text], k) == if |text| >= 255 then UNPARSABLE else Parsed([r], 0)
  {
    hide EntryFor;
    var r := EntryFor(PlainHost(text), k).value;
    assert [text][1..] == [] && [r] + [] == [r];
  }

  lemma HashedStaysHashed(s: string, n: nat, k: KeyField)
    requires 3 <= |s| && n <= |s| && k.Fits()
    ensures forall e :: e in ParseHashed(s, n, k).added ==> e.name.HashedName?
  {
    hide BarLen;
  }

  /** A hashed host field gives back an entry with that hash and salt exactly when both fit their
      buffers. */
  lemma HashedHostRead(hash: seq<bv8>, salt: seq<bv8>, rest: string, k: KeyField, c: KnownHost)
    requires k.Fits()
    ensures NewName(Sha1Host(Base64.Encode(hash), Base64.Encode(salt))) == Ok(HashedName(hash, salt))
    ensures var h, s := Base64.Encode(hash), Base64.Encode(salt);
            var host := "|1|" + s + "|" + h;
            var r := EntryFor(Sha1Host(h, s), k);
            var ok := |hash| <= 189 && |salt| <= 21 && r == Ok(c);
            r.Ok? ==> (ParseHashed(host + rest, |host|, k) == Parsed([c], 0) <==> ok)
  {
    Base64.DecodeEncode(hash);
    Base64.DecodeEncode(salt);
    hide EntryFor, Base64.Encode, Base64.Decode;
    var h, s := Base64.Encode(hash), Base64.Encode(salt);
    var host := "|1|" + s + "|" + h;
    var line := host + rest;
    assert line[3..] == s + "|" + (h + rest);
    assert line[3..][..|s|] == s && line[3..][|s|] == '|';
    BarLenUnique(line[3..], |s|);
    assert line[3..3 + |s|] == s && line[|host| - |h|..|host|] == h;
  }

  lemma PartIsProper(e: KnownHost)
    requires WellFormed(e)
    ensures TypeName(e).Ok?
    ensures var part := KeyText(TypeName(e).value, e.key, e.comment);
            part != "" && !Blank(part[0])
  {
    hide KnownTypeName, EntryRead;
    KeyRead(e, PlainHost(""));
    if KnownTypeName(e.keyType).Some? {
      KnownNamesAreWords(e.keyType);
    }
    var typeName := TypeName(e).value;
    var part := KeyText(typeName, e.key, e.comment);
    if typeName != "" {
      KeyTextStart(typeName, e.key, e.comment);
      assert typeName[0] in typeName;
    } else {
      assert part == e.key + CommentText(e.comment) && e.key[0] in e.key;
    }
  }

  /** How a printed line is parsed. */
  lemma LineRead(host: string, part: string)
    requires Word(host) && host[0] != '#' && host[0] != '\n' && part != "" && !Blank(part[0])
    ensures var line := host + " " + part + "\n";
            var k := ParseKey(part + "\n", |part|);
            ParseLine(line) == if |part| < 20 then UNPARSABLE
                               else if |host| > 2 && host[..3] != "|1|" then AddNames(NamesBack(host), k)
                               else ParseHashed(line, |host|, k)
  {
    hide ParseLine, ParseKey, AddNames, NamesBack, ParseHashed;
    LineSplits(host, part);
    var line := host + " " + part + "\n";
    AfterFront(host + " ", part, "\n");
    assert line == host + (" " + part + "\n");
    assert line[..|host|] == host && (|host| > 2 ==> line[..3] == host[..3]);
  }

  /** The three outcomes for a name in clear. */
  lemma PlainParsed(e: KnownHost, text: string, part: string)
    requires WellFormed(e) && (e.name == PlainName(text) || e.name == CustomName(text))
    requires text != "" && text[0] != '#' && text[0] != '\n'
    requires TypeName(e).Ok? && part == KeyText(TypeName(e).value, e.key, e.comment) && part != ""
    ensures var line := text + " " + part + "\n";
            var k := ParseKey(part + "\n", |part|);
            var p := if |part| < 20 then UNPARSABLE
                     else if |text| > 2 && text[..3] != "|1|" then AddNames(NamesBack(text), k)
                     else ParseHashed(line, |text|, k);
            p == Parsed([Canonical(e)], 0) <==> ReadableName(text) && ReadableKey(e)
  {
    hide WellFormed, ParseKey, AddNames, NamesBack, ParseHashed, KeyText, TypeName, EntryFor, Digit, Blank, NewTypeName;
    var host := PlainHost(text);
    KeyRead(e, host);
    if |part| >= 20 {
      var k := ParseKey(part + "\n", |part|);
      if |text| > 2 && text[..3] != "|1|" {
        PlainHostRead(text, k, Canonical(e));
      } else {
        HashedStaysHashed(text + " " + part + "\n", |text|, k);
        assert ParseHashed(text + " " + part + "\n", |text|, k).added != [Canonical(e)] by {
          assert Canonical(e) in [Canonical(e)];
        }
      }
    }
  }

  /** The round trip for an entry with a name in clear. */
  lemma PlainRoundTrip(e: KnownHost, text: string)
    requires WellFormed(e) && (e.name == PlainName(text) || e.name == CustomName(text))
    ensures Print(e).Ok? && (ParseLine(Print(e).value) == Parsed([Canonical(e)], 0) <==> Faithful(e))
  {
    hide ParseLine, ParseKey, AddNames, NamesBack, ParseHashed, KeyText, TypeName, EntryFor, ReadableKey, NoBlanks,
         Blank;
    var host := PlainHost(text);
    KeyRead(e, host);
    PartIsProper(e);
    var part := KeyText(TypeName(e).value, e.key, e.comment);
    var line := text + " " + part + "\n";
    if text[0] == '#' || text[0] == '\n' {
      CommentLine(line);
    } else {
      LineRead(text, part);
      PlainParsed(e, text, part);
    }
  }

  lemma HashedHostIsWord(hash: seq<bv8>, salt: seq<bv8>)
    ensures var host := "|1|" + Base64.Encode(salt) + "|" + Base64.Encode(hash);
            Word(host) && host[..3] == "|1|" && |host| > 3
  {
    var s, h := Base64.Encode(salt), Base64.Encode(hash);
    var host := "|1|" + s + "|" + h;
    assert host == "|1|" + (s + ("|" + h));
    forall i | 0 <= i < |host| ensures host[i] != ' ' && host[i] != '\t' && host[i] != '\n' {
      assert i >= 4 + |s| ==> host[i] == h[i - 4 - |s|];
      assert 3 <= i < 3 + |s| ==> host[i] == s[i - 3];
    }
  }

  lemma HashedRoundTrip(e: KnownHost)
    requires WellFormed(e) && e.name.HashedName?
    ensures Print(e).Ok? && (ParseLine(Print(e).value) == Parsed([Canonical(e)], 0) <==> Faithful(e))
  {
    hide ParseLine, ParseKey, AddNames, NamesBack, ParseHashed, KeyText, TypeName, EntryFor, ReadableKey, NoBlanks,
         Blank, Base64.Encode, NewName;
    var hash, salt := e.name.hash, e.name.salt;
    var h, s := Base64.Encode(hash), Base64.Encode(salt);
    var host := "|1|" + s + "|" + h;
    var arg := Sha1Host(h, s);
    PartIsProper(e);
    var part := KeyText(TypeName(e).value, e.key, e.comment);
    HashedHostIsWord(hash, salt);
    LineRead(host, part);
    HashedParsed(e, part);
  }

  /** The outcomes for a hashed name. */
  lemma HashedParsed(e: KnownHost, part: string)
    requires WellFormed(e) && e.name.HashedName?
    requires TypeName(e).Ok? && part == KeyText(TypeName(e).value, e.key, e.comment) && part != ""
    ensures var host := "|1|" + Base64.Encode(e.name.salt) + "|" + Base64.Encode(e.name.hash);
            var k := ParseKey(part + "\n", |part|);
            var p := if |part| < 20 then UNPARSABLE else ParseHashed(host + " " + part + "\n", |host|, k);
            p == Parsed([Canonical(e)], 0) <==> ReadableHost(e.name) && ReadableKey(e)
  {
    hide WellFormed, ParseKey, ParseHashed, KeyText, TypeName, EntryFor, Digit, Blank, NewTypeName, Base64.Encode, NewName;
    var hash, salt := e.name.hash, e.name.salt;
    var h, s := Base64.Encode(hash), Base64.Encode(salt);
    var host := "|1|" + s + "|" + h;
    if |part| >= 20 {
      var k := ParseKey(part + "\n", |part|);
      HashedHostRead(hash, salt, " " + part + "\n", k, Canonical(e));
      KeyRead(e, Sha1Host(h, s));
      assert host + (" " + part + "\n") == host + " " + part + "\n";
    }
  }

  /** A well-formed entry is printed, and reading the line gives it back if and only if it is faithful. */
  lemma WellFormedRoundTrip(e: KnownHost)
    requires WellFormed(e)
    ensures Print(e).Ok? && (ParseLine(Print(e).value) == Parsed([Canonical(e)], 0) <==> Faithful(e))
  {
    match e.name
    case PlainName(text) => PlainRoundTrip(e, text);
    case CustomName(text) => PlainRoundTrip(e, text);
    case HashedName(hash, salt) => HashedRoundTrip(e);
  }

  lemma {:induction false} NamesAreWords(host: string)
    requires NoBlanks(host)
    ensures forall i :: 0 <= i < |NamesBack(host)| ==> Word(NamesBack(host)[i])
    decreases |host|
  {
    if host != "" {
      var s := NameStart(host);
      if s > 0 {
        NamesAreWords(host[..s - 1]);
      }
    }
  }

  lemma TokenIsWord(s: string)
    requires s != "" && !Blank(s[0])
    ensures TokenLen(s) > 0 && Word(s[..TokenLen(s)])
  {
  }

  lemma NewlineIsWord()
    ensures Word("\n")
  {
  }

  /** The key is a word even if nothing is left for it: then its length 0 counts for all of the text. */
  lemma StoredIsWord(rest: string, len: nat, key: string)
    requires |key| <= len < |rest| && key == rest[len - |key|..len] && (key != "" ==> !Blank(key[0])) && rest[len..] == "\n"
    ensures Word(EncodedKey(rest[len - |key|..], TokenLen(key)).Stored())
  {
    hide TokenLen, Word, Blank;
    if key == "" {
      NoTokenInEmpty(key);
      NewlineIsWord();
    } else {
      StartIsWord(rest[len - |key|..], key, rest[len - |key|..len]);
    }
  }

  lemma NoTokenInEmpty(s: string)
    requires s == ""
    ensures TokenLen(s) == 0
  {
  }

  lemma StartIsWord(text: string, key: string, start: string)
    requires start <= text && key == start != "" && !Blank(key[0])
    ensures TokenLen(key) <= |text| && Word(EncodedKey(text, TokenLen(key)).Stored())
  {
    hide Word, Blank;
    TokenIsWord(key);
    assert text[..TokenLen(key)] == key[..TokenLen(key)];
  }

  lemma KeyAtEnd(rest: string, len: nat, from: nat, key: string)
    requires from <= len <= |rest| && |key| <= len - from && rest[..len][from..][len - from - |key|..] == key
    ensures key == rest[len - |key|..len]
  {
  }

  lemma TypedKeyField(rest: string, len: nat, part: string, key: string)
    requires 0 < len <= |rest| && !Digit(rest[0]) && part == rest[..len] && key == SkipBlanks(part[TokenLen(part)..])
    ensures var k := ParseKey(rest, len);
            && !k.keyType.Rsa1? && k.typeName == Some(part[..TokenLen(part)])
            && |key| <= len && k.text == rest[len - |key|..] && k.len == TokenLen(key)
  {
    hide KeyTypeOf, SkipBlanks, TokenLen, Blank, NoBlanks, Digit;
    assert |part[..TokenLen(part)]| == TokenLen(part);
  }

  /** What the reader takes for the type name and the key of a line that ends in a newline are words;
      of an RSA1 key it takes everything. */
  lemma KeyFieldShape(rest: string, len: nat)
    requires 0 < len < |rest| && !Blank(rest[0]) && rest[len..] == "\n"
    ensures var k := ParseKey(rest, len);
            if k.keyType.Rsa1? then k.len > 0 && k.text != "" && !Blank(k.text[0])
            else k.typeName.Some? && Word(k.typeName.value) && Word(EncodedKey(k.text, k.len).Stored())
  {
    hide KeyTypeOf, SkipBlanks, TokenLen, Blank, NoBlanks, Word, Digit, KeyArg.Stored;
    if !Digit(rest[0]) {
      var part := rest[..len];
      assert part != "" && part[0] == rest[0];
      TokenIsWord(part);
      var key := SkipBlanks(part[TokenLen(part)..]);
      TypedKeyField(rest, len, part, key);
      KeyAtEnd(rest, len, TokenLen(part), key);
      StoredIsWord(rest, len, key);
    }
  }

  /** The fields of the one entry a line gives, as far as its key part makes them. */
  predicate MadeFrom(c: KnownHost, k: KeyField)
    requires k.Fits()
  {
    && c.keyType == k.keyType && c.key == EncodedKey(k.text, k.len).Stored()
    && c.keyTypeName == if k.keyType.KeyUnknown? then k.typeName else None
  }

  lemma OneOfNames(host: string, k: KeyField, c: KnownHost)
    requires NoBlanks(host) && host != "" && k.Fits() && AddNames(NamesBack(host), k) == Parsed([c], 0)
    ensures MadeFrom(c, k) && c.name.PlainName? && Word(c.name.text)
  {
    NamesAreWords(host);
    var names := NamesBack(host);
    assert [c][0] == c;
    assert AddNames(names, k).added[0] == EntryFor(PlainHost(names[0]), k).value;
  }

  lemma OneHashed(s: string, n: nat, k: KeyField, c: KnownHost)
    requires 3 <= |s| && n <= |s| && k.Fits() && ParseHashed(s, n, k) == Parsed([c], 0)
    ensures MadeFrom(c, k) && c.name.HashedName?
  {
    hide Base64.Decode, BarLen;
    assert [c][0] == c;
  }

  /** Where the text from the first non-blank character on starts, and where it ends. */
  lemma SkipBlanksAt(x: string)
    ensures var r := SkipBlanks(x);
            r != "" ==> |r| <= |x| && x[|x| - |r|] == r[0] && !Blank(r[0]) && x[|x| - 1] == r[|r| - 1]
  {
    var r := SkipBlanks(x);
    if r != "" {
      assert x[|x| - |r|..][0] == r[0] && x[|x| - |r|..][|r| - 1] == r[|r| - 1];
    }
  }

  lemma ScanFacts(line: string, s: string, n: nat, rest: string)
    requires line != "" && line[|line| - 1] == '\n' && s == SkipBlanks(line) && s != "" && n == TokenLen(s)
    requires rest == SkipBlanks(s[n..]) && rest != ""
    ensures n > 0 && Word(s[..n]) && s[|s| - 1] == '\n'
    ensures |rest| <= |s| - n && s[|s| - |rest|] == rest[0] && !Blank(rest[0]) && '\n' in rest
  {
    SkipBlanksAt(line);
    SkipBlanksAt(s[n..]);
    TokenIsWord(s);
    hide SkipBlanks, TokenLen, Blank, NoBlanks;
    assert s[n..][|s| - n - |rest|] == s[|s| - |rest|] && s[n..][|s| - n - 1] == s[|s| - 1];
  }

  lemma TooShort(s: string, n: nat, at: nat, len: nat)
    requires 0 < n < at && at + len <= |s|
    ensures ParseHost(s, n, at, len).added != [] ==> len >= 20
  {
    hide ParseKey, AddNames, NamesBack, ParseHashed;
  }

  /** A line that ends in a newline and has both parts: its host field is a word, and its key part stands
      at the end, before the newline. */
  lemma ScanParts(line: string) returns (s: string, n: nat, rest: string)
    requires line != "" && line[|line| - 1] == '\n' && ScanOf(line).HostAndKey?
    ensures var r := ScanOf(line); r.s == s && r.n == n && r.at == |s| - |rest| && r.len == LineLen(rest)
    ensures n > 0 && Word(s[..n]) && s[|s| - 1] == '\n'
    ensures 0 < |rest| <= |s| - n && s[|s| - |rest|] == rest[0] && !Blank(rest[0]) && '\n' in rest
  {
    hide SkipBlanks, TokenLen, Blank, NoBlanks, Word, LineLen, ScanOf;
    s := SkipBlanks(line);
    n := TokenLen(s);
    rest := SkipBlanks(s[n..]);
    ScanSteps(line, s, n, rest);
    ScanFacts(line, s, n, rest);
  }

  lemma ScanSteps(line: string, s: string, n: nat, rest: string)
    requires s == SkipBlanks(line) && n == TokenLen(s) && rest == SkipBlanks(s[n..]) && ScanOf(line).HostAndKey?
    ensures var r := ScanOf(line);
            s != "" && rest != "" && r.s == s && r.n == n && r.at == |s| - |rest| && r.len == LineLen(rest)
  {
    hide SkipBlanks, TokenLen, Blank, NoBlanks, LineLen;
  }

  lemma NewlineCosts(rest: string)
    ensures '\n' in rest ==> LineLen(rest) == |rest| - 1
  {
  }

  lemma LineParts(line: string) returns (s: string, n: nat, at: nat)
    requires line != "" && line[|line| - 1] == '\n' && ParseLine(line).added != []
    ensures 0 < n < at && at + 1 < |s| && Word(s[..n])
    ensures !Blank(s[at..][0]) && s[at..][|s| - 1 - at..] == "\n"
    ensures ParseLine(line) == ParseHost(s, n, at, |s| - 1 - at)
  {
    hide ScanOf, ParseHost, Blank, Word, LineLen;
    var rest;
    s, n, rest := ScanParts(line);
    at := |s| - |rest|;
    NewlineCosts(rest);
    TooShort(s, n, at, |s| - 1 - at);
  }

  /** An entry that comes back from its own line is well formed. */
  lemma ReadBackIsWellFormed(e: KnownHost)
    requires Print(e).Ok? && ParseLine(Print(e).value) == Parsed([Canonical(e)], 0)
    ensures WellFormed(e)
  {
    hide ParseLine, ParseKey, AddNames, NamesBack, ParseHashed, KeyText, TypeName, Blank, NoBlanks, MadeFrom, Base64.Encode,
         WellFormed;
    var line, c := Print(e).value, Canonical(e);
    assert line[|line| - 1] == '\n';
    assert [c][0] == c;
    var s, n, at := LineParts(line);
    var len := |s| - 1 - at;
    TooShort(s, n, at, len);
    var k := ParseKey(s[at..], len);
    KeyFieldShape(s[at..], len);
    if n > 2 && s[..3] != "|1|" {
      OneOfNames(s[..n], k, c);
    } else {
      OneHashed(s, n, k, c);
    }
    FieldsWellFormed(e, k);
  }

  lemma FieldsWellFormed(e: KnownHost, k: KeyField)
    requires k.Fits() && MadeFrom(Canonical(e), k) && Print(e).Ok?
    requires Canonical(e).name.PlainName? ==> Word(Canonical(e).name.text)
    requires if k.keyType.Rsa1? then k.len > 0 && k.text != "" && !Blank(k.text[0])
             else k.typeName.Some? && Word(k.typeName.value) && Word(EncodedKey(k.text, k.len).Stored())
    ensures WellFormed(e)
  {
    hide KeyText, Base64.Encode, NoBlanks, Blank;
  }

  /** An entry is printed, and reading its line gives back exactly that entry, with the key counted as
      base64 and a custom name as a plain one, if and only if it is well formed and faithful. */
  lemma RoundTrip(e: KnownHost)
    ensures Print(e).Ok? && ParseLine(Print(e).value) == Parsed([Canonical(e)], 0) <==> WellFormed(e) && Faithful(e)
  {
    hide WellFormed, Faithful, Print, ParseLine, Canonical;
    if WellFormed(e) {
      WellFormedRoundTrip(e);
    }
    if Print(e).Ok? && ParseLine(Print(e).value) == Parsed([Canonical(e)], 0) {
      ReadBackIsWellFormed(e);
    }
  }

  /** A line with one readable host name and a key part that is long enough gives the one entry its key
      part makes. */
  lemma OneEntryRead(text: string, part: string)
    requires Word(text) && ReadableName(text) && |part| >= 20 && !Blank(part[0])
    requires EntryRead(PlainHost(text), part).Ok?
    ensures ParseLine(text + " " + part + "\n") == Parsed([EntryRead(PlainHost(text), part).value], 0)
  {
    hide ParseLine, ParseKey, AddNames, NamesBack, ParseHashed, EntryFor, Blank, NoBlanks;
    LineRead(text, part);
    OneName(text);
    OneAdded(text, ParseKey(part + "\n", |part|));
  }

  /** A line whose key type name only starts a known one is read as if it had that one, and written with it:
      it stays the same line exactly when its type name is the whole name, and no blank leads its comment. */
  lemma ShortTypeNameIsMisread(host: string, typeName: string, key: string, comment: Option<string>)
    requires Word(host) && ReadableName(host) && Word(key)
    requires Word(typeName) && !Digit(typeName[0]) && !KeyTypeOf(typeName).KeyUnknown?
    requires |KeyText(typeName, key, comment)| >= 20
    ensures var t := KeyTypeOf(typeName);
            var e := KnownHost(PlainName(host), true, t, key, None, CommentRead(comment));
            var line := host + " " + KeyText(typeName, key, comment) + "\n";
            && ParseLine(line) == Parsed([e], 0) && KnownTypeName(t).Some? && typeName <= KnownTypeName(t).value
            && Print(e) == Ok(host + " " + KeyText(KnownTypeName(t).value, key, CommentRead(comment)) + "\n")
            && (Print(e).value == line <==> typeName == KnownTypeName(t).value && CommentRead(comment) == comment)
  {
    hide NoBlanks, Blank, Digit, ParseLine, EntryRead, KeyText, CommentRead, KnownTypeName, KeyTypeOf;
    var t := KeyTypeOf(typeName);
    var typed := KnownHost(PlainName(host), true, KeyUnknown, key, Some(typeName), comment);
    OtherNames(typed);
    PartIsProper(typed);
    TypedRead(typed, PlainHost(host));
    OneEntryRead(host, KeyText(typeName, key, comment));
    KnownStart(typeName);
    KnownNamesAreWords(t);
    SameLine(host, KeyText(typeName, key, comment), KeyText(KnownTypeName(t).value, key, CommentRead(comment)));
    SameParts(typeName, KnownTypeName(t).value, key, comment, CommentRead(comment));
  }

  lemma KnownStart(typeName: string)
    requires !KeyTypeOf(typeName).KeyUnknown?
    ensures var name := KnownTypeName(KeyTypeOf(typeName)); name.Some? && typeName <= name.value
  {
  }

  lemma SameLine(host: string, a: string, b: string)
    ensures host + " " + a + "\n" == host + " " + b + "\n" <==> a == b
  {
    var s, t := host + " " + a + "\n", host + " " + b + "\n";
    assert s[|host| + 1..|s| - 1] == a && t[|host| + 1..|t| - 1] == b;
  }

  lemma SameParts(short: string, name: string, key: string, a: Option<string>, b: Option<string>)
    requires Word(short) && Word(name) && short <= name
    ensures KeyText(short, key, a) == KeyText(name, key, b) <==> short == name && a == b
  {
    hide Word, NoBlanks, CommentText, KeyText;
    TextOf(short, key, a);
    TextOf(name, key, b);
    if short == name {
      SameBehind(short + " ", key + CommentText(a), key + CommentText(b));
      SameBehind(key, CommentText(a), CommentText(b));
      SameComment(a, b);
    } else {
      EndsEarlier(short, name, key + CommentText(a), key + CommentText(b));
    }
  }

  lemma TextOf(typeName: string, key: string, comment: Option<string>)
    requires Word(typeName)
    ensures KeyText(typeName, key, comment) == typeName + " " + (key + CommentText(comment))
  {
  }

  lemma SameBehind(front: string, a: string, b: string)
    ensures front + a == front + b <==> a == b
  {
    assert (front + a)[|front|..] == a && (front + b)[|front|..] == b;
  }

  lemma SameComment(a: Option<string>, b: Option<string>)
    ensures CommentText(a) == CommentText(b) <==> a == b
  {
    if a.Some? && b.Some? {
      SameBehind(" ", a.value, b.value);
    }
  }

  lemma EndsEarlier(short: string, name: string, a: string, b: string)
    requires short <= name && short != name && Word(name)
    ensures short + " " + a != name + " " + b
  {
    assert (short + " " + a)[|short|] == ' ';
    assert (name + " " + b)[|short|] == name[|short|] && name[|short|] in name;
  }

  /** For one: `ssh-` becomes `ssh-dss`. */
  lemma SshBecomesDss(host: string, key: string)
    requires Word(host) && ReadableName(host) && Word(key) && |key| >= 15
    ensures var r := ParseLine(host + " ssh- " + key + "\n");
            && r.rc == 0 && |r.added| == 1
            && Print(r.added[0]) == Ok(host + " ssh-dss " + key + "\n")
  {
    hide NoBlanks, Blank, Digit, ParseLine, KeyText, Print;
    DssStart();
    NoComment("ssh-", key);
    NoComment("ssh-dss", key);
    ShortTypeNameIsMisread(host, "ssh-", key, None);
    assert host + " ssh- " + key + "\n" == host + " " + ("ssh-" + " " + key) + "\n";
    assert host + " ssh-dss " + key + "\n" == host + " " + ("ssh-dss" + " " + key) + "\n";
  }

  lemma DssStart()
    ensures Word("ssh-") && !Digit("ssh-"[0]) && KeyTypeOf("ssh-") == SshDss
  {
    assert "ssh-" <= "ssh-dss";
  }

  lemma NoComment(typeName: string, key: string)
    requires typeName != ""
    ensures KeyText(typeName, key, None) == typeName + " " + key
  {
    assert key + "" == key;
  }

  lemma Rsa1Text(key: string, comment: string)
    requires key != "" && Digit(key[0])
    ensures KeyText("", key, Some(comment)) == key + " " + comment
    ensures KeyText("", key, Some(comment))[0] == key[0] && !Blank(key[0])
  {
  }

  /** The comment of an RSA1 entry is read back as the end of its key. */
  lemma Rsa1CommentIsLost(host: string, key: string, comment: string)
    requires Word(host) && ReadableName(host) && key != "" && Digit(key[0])
    requires |key + " " + comment| >= 20
    ensures var e := KnownHost(PlainName(host), true, Rsa1, key, None, Some(comment));
            && WellFormed(e) && Print(e).Ok?
            && ParseLine(Print(e).value)
               == Parsed([KnownHost(PlainName(host), true, Rsa1, key + " " + comment, None, None)], 0)
  {
    var e := KnownHost(PlainName(host), true, Rsa1, key, None, Some(comment));
    var part := KeyText("", key, Some(comment));
    hide NoBlanks, Blank, Digit, ParseLine, EntryRead, KeyText;
    Rsa1Text(key, comment);
    PartIsProper(e);
    DigitRead(PlainHost(host), part);
    OneEntryRead(host, part);
  }
}
