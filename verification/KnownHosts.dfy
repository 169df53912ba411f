/** A collection of known hosts, as `knownhost.c` keeps it. */
module KnownHosts {
  import opened Bytes
  import opened Errors
  import opened HostText
  import opened HostEntries
  import opened HostCheck
  import opened HostFiles
  import Base64

  const FILE_OPENSSH := 1

  class KnownHosts {
    const hmac: Hmac
    var hosts: seq<KnownHost>

    constructor (hmac: Hmac)
      ensures hosts == [] && this.hmac == hmac
    {
      this.hmac := hmac;
      hosts := [];
    }

    /** `knownhost_add` */
    method Add(host: HostArg, typeName: Option<string>, key: KeyArg, comment: Option<string>, keyType: KeyType)
      returns (rc: int)
      requires key.Fits()
      modifies this
      ensures match NewEntry(host, typeName, key, comment, keyType)
              case Ok(e) => rc == 0 && hosts == old(hosts) + [e]
              case Err(code) => rc == code && hosts == old(hosts)
    {
      if keyType.KeyUnset? {
        return ERROR_INVAL;
      }
      var name;
      match host {
        case PlainHost(text) => name := PlainName(text);
        case CustomHost(text) => name := CustomName(text);
        case Sha1Host(text, salt) =>
          var h := Base64.Decode(text);
          if h.None? {
            return ERROR_INVAL;
          }
          var s := Base64.Decode(salt);
          if s.None? {
            return ERROR_INVAL;
          }
          name := HashedName(h.value, s.value);
        case OtherHost => return ERROR_METHOD_NOT_SUPPORTED;
      }
      var stored;
      match key {
        case EncodedKey(text, len) =>
          stored := if len == 0 then text else text[..len];
        case RawKey(bytes) =>
          stored := Base64.Encode(bytes);
          if |stored| == 0 {
            return ERROR_ALLOC;
          }
      }
      var kept := if typeName.Some? && keyType.KeyUnknown? then typeName else None;
      hosts := hosts + [KnownHost(name, key.EncodedKey?, keyType, stored, kept, comment)];
      return 0;
    }

    /** `oldstyle_hostline`: the walk from the end of the host field to its start. */
    method OldstyleHostline(host: string, k: KeyField) returns (rc: int)
      requires host != "" && k.Fits()
      modifies this
      ensures Parsed(hosts, rc) == AddNames(NamesBack(host), k).After(old(hosts))
    {
      hide StepBack, NewEntry, AddNames, NamesBack;
      rc := 0;
      var name, nameLen := |host|, 0;
      ghost var todo := NamesBack(host);
      assert host[..|host|] == host;
      while name > 0
        invariant rc == 0 && 0 <= name && name + nameLen <= |host|
        invariant name > 0 ==> todo == NamesBack(host[..name + nameLen]) && Walked(host, name, nameLen)
        invariant name == 0 ==> todo == []
        invariant AddNames(todo, k).After(hosts) == AddNames(NamesBack(host), k).After(old(hosts))
        decreases name
      {
        WalkOn(host, name, nameLen);
        name := name - 1;
        nameLen := nameLen + 1;
        if name == 0 || host[name - 1] == ',' {
          AddNamesStep(todo, k, hosts);
          if nameLen >= 255 {
            return ERROR_METHOD_NOT_SUPPORTED;
          }
          rc := Add(PlainHost(host[name..name + nameLen]), k.typeName, EncodedKey(k.text, k.len), k.comment, k.keyType);
          if rc != 0 {
            return;
          }
          todo := todo[1..];
          if name > 0 {
            nameLen := 0;
            name := name - 1;
          }
        }
      }
      AddNothing(k, hosts);
    }

    /** `hashed_hostline` on a line from its host field, of length `n`, on. */
    method HashedHostline(s: string, n: nat, k: KeyField) returns (rc: int)
      requires 3 <= |s| && n <= |s| && k.Fits()
      modifies this
      ensures Parsed(hosts, rc) == ParseHashed(s, n, k).After(old(hosts))
    {
      hide NewEntry;
      var m := PassSalt(s[3..]);
      if 3 + m < |s| {
        if m >= 31 {
          return ERROR_METHOD_NOT_SUPPORTED;
        }
        // As a size_t a negative length is huge.
        var hostLen := n - 3 - (m + 1);
        if hostLen < 0 || hostLen >= 255 {
          return ERROR_METHOD_NOT_SUPPORTED;
        }
        rc := Add(Sha1Host(s[n - hostLen..n], s[3..3 + m]), k.typeName, EncodedKey(k.text, k.len), k.comment, k.keyType);
      } else {
        return 0;
      }
    }

    /** `hostline`: the key part of length `len` starts `at`. */
    method Hostline(s: string, n: nat, at: nat, len: nat) returns (rc: int)
      requires 0 < n < at && at + len <= |s|
      modifies this
      ensures Parsed(hosts, rc) == ParseHost(s, n, at, len).After(old(hosts))
    {
      hide ParseKey, AddNames, ParseHashed, NamesBack;
      if len < 20 {
        return ERROR_METHOD_NOT_SUPPORTED;
      }
      var k := ScanKey(s[at..], len);
      if n > 2 && s[..3] != "|1|" {
        rc := OldstyleHostline(s[..n], k);
      } else {
        rc := HashedHostline(s, n, k);
      }
    }

    /** `libssh2_knownhost_readline` */
    method ReadLine(line: string, fileType: int) returns (rc: int)
      modifies this
      ensures Parsed(hosts, rc) == (if fileType != FILE_OPENSSH then UNPARSABLE else ParseLine(line)).After(old(hosts))
    {
      hide ParseHost, ScanOf;
      if fileType != FILE_OPENSSH {
        return ERROR_METHOD_NOT_SUPPORTED;
      }
      var found := ScanLine(line);
      match found {
        case Nothing => return 0;
        case NoKey => return ERROR_METHOD_NOT_SUPPORTED;
        case HostAndKey(s, n, at, len) => rc := Hostline(s, n, at, len);
      }
    }

    /** `libssh2_knownhost_readfile` on the file's content, `None` when it cannot be opened. */
    method ReadFile(file: Option<string>, fileType: int) returns (num: int)
      modifies this
      ensures fileType != FILE_OPENSSH ==> num == ERROR_METHOD_NOT_SUPPORTED && hosts == old(hosts)
      ensures fileType == FILE_OPENSSH && file.None? ==> num == ERROR_FILE && hosts == old(hosts)
      ensures fileType == FILE_OPENSSH && file.Some? ==> Parsed(hosts, num) == ReadAll(file.value).After(old(hosts))
    {
      hide ParseLine, ChunkLen, LineText, ReadAll;
      if fileType != FILE_OPENSSH {
        return ERROR_METHOD_NOT_SUPPORTED;
      }
      if file.None? {
        return ERROR_FILE;
      }
      num := 0;
      var left := file.value;
      while left != ""
        invariant num >= 0
        invariant Counted(ReadAll(left), hosts, num) == ReadAll(file.value).After(old(hosts))
        decreases |left|
      {
        ReadAllStep(left, hosts, num);
        var n := ChunkLen(left, BUFFER - 1);
        var rc := ReadLine(left[..n], fileType);
        if rc != 0 {
          num := ERROR_KNOWN_HOSTS;
          return;
        }
        num := num + 1;
        left := left[n..];
      }
      ReadNothing(hosts, num);
    }

    /** `knownhost_writeline`: the length reported is that of the whole line even when the buffer is
        too small, and then nothing is written. */
    method WriteLine(e: KnownHost, buf: array<char>, fileType: int) returns (rc: int, outLen: Option<nat>)
      modifies buf
      ensures fileType != FILE_OPENSSH ==>
                rc == ERROR_METHOD_NOT_SUPPORTED && outLen == None && buf[..] == old(buf[..])
      ensures fileType == FILE_OPENSSH ==>
                match Print(e)
                case Err(code) => rc == code && outLen == None && buf[..] == old(buf[..])
                case Ok(line) =>
                  && outLen == Some(|line|)
                  && rc == (if |line| < buf.Length then 0 else ERROR_BUFFER_TOO_SMALL)
                  && buf[..] == if |line| < buf.Length then line + "\0" + old(buf[|line| + 1..]) else old(buf[..])
    {
      hide KnownTypeName, Base64.Encode, KeyText;
      if fileType != FILE_OPENSSH {
        return ERROR_METHOD_NOT_SUPPORTED, None;
      }
      var typeName := TypeName(e);
      if typeName.Err? {
        return typeName.code, None;
      }
      var required := KeySize(typeName.value, e.key, e.comment);
      var host;
      if e.name.HashedName? {
        var name := Base64.Encode(e.name.hash);
        if |name| == 0 {
          return ERROR_ALLOC, None;
        }
        var salt := Base64.Encode(e.name.salt);
        if |salt| == 0 {
          return ERROR_ALLOC, None;
        }
        required := required + |salt| + |name| + 7;
        host := "|1|" + salt + "|" + name;
      } else {
        required := required + |e.name.text| + 3;
        host := e.name.text;
      }
      if required <= buf.Length {
        var line := Formatted(host, typeName.value, e.key, e.comment);
        PutLine(buf, line);
      }
      outLen := Some(required - 1);
      rc := if required <= buf.Length then 0 else ERROR_BUFFER_TOO_SMALL;
    }

    /** `libssh2_knownhost_writefile`: what ends up in the file, `None` if it cannot be opened. The file
        takes `room` characters: a short write ends the loop. */
    method WriteFile(canOpen: bool, room: nat, fileType: int) returns (rc: int, file: Option<string>)
      ensures fileType != FILE_OPENSSH ==> rc == ERROR_METHOD_NOT_SUPPORTED && file == None
      ensures fileType == FILE_OPENSSH && !canOpen ==> rc == ERROR_FILE && file == None
      ensures fileType == FILE_OPENSSH && canOpen ==>
                var w := WriteAll(hosts);
                if |w.text| <= room then rc == w.rc && file == Some(w.text)
                else rc == ERROR_FILE && file == Some(w.text[..room])
    {
      hide Print, WriteAll;
      if fileType != FILE_OPENSSH {
        return ERROR_METHOD_NOT_SUPPORTED, None;
      }
      if !canOpen {
        return ERROR_FILE, None;
      }
      var buffer := new char[BUFFER];
      var text := "";
      rc := 0;
      var i := 0;
      assert hosts[0..] == hosts;
      while i < |hosts|
        invariant i <= |hosts| && rc == 0 && buffer.Length == BUFFER && |text| <= room
        invariant WriteAll(hosts[i..]).Behind(text) == WriteAll(hosts).Behind("")
      {
        WriteAllStep(hosts, i, text);
        var wrote;
        rc, wrote := WriteLine(hosts[i], buffer, fileType);
        if rc != 0 {
          break;
        }
        var line := buffer[..wrote.value];
        assert line == Print(hosts[i]).value;
        var nwrote := if |line| <= room - |text| then |line| else room - |text|;
        WriteNothing(hosts, text);
        if nwrote != |line| {
          CutOff(text, line, WriteAll(hosts[i + 1..]).text, room);
          return ERROR_FILE, Some(text + line[..nwrote]);
        }
        assert line[..nwrote] == line;
        text := text + line[..nwrote];
        i := i + 1;
      }
      WriteNothing(hosts, text);
      file := Some(text);
    }

    /** `knownhost_check` */
    method Check(kind: HostKind, hostp: string, port: int, key: KeyArg, keyType: KeyType) returns (v: Verdict)
      requires key.Fits()
      ensures v == if kind.Sha1Kind? then Verdict(CHECK_MISMATCH, None)
                   else if Tried(hostp, port).None? || (key.RawKey? && Compared(key) == "") then Verdict(CHECK_FAILURE, None)
                   else Rule(hmac, Query(kind, Tried(hostp, port).value, Compared(key), keyType), hosts)
    {
      hide First, Decimal, Base64.Encode;
      if kind.Sha1Kind? {
        return Verdict(CHECK_MISMATCH, None);
      }
      var host, numCheck := hostp, 1;
      if port >= 0 {
        var bracketed := "[" + hostp + "]:" + Decimal(port);
        if |bracketed| >= HOST_BUFFER {
          return Verdict(CHECK_FAILURE, None);
        }
        host, numCheck := bracketed, 2;
      }
      if key.RawKey? && |Compared(key)| == 0 {
        return Verdict(CHECK_FAILURE, None);
      }
      v := Search(Query(kind, if numCheck == 2 then [host, hostp] else [host], Compared(key), keyType));
    }

    /** The search: one pass over the list for every name. */
    method Search(q: Query) returns (v: Verdict)
      ensures v == Rule(hmac, q, hosts)
    {
      hide First;
      var badKey := None;
      var p := 0;
      while p < |q.names|
        invariant p <= |q.names|
        invariant FirstOver(hmac, q, true, hosts, 0) == FirstOver(hmac, q, true, hosts, p)
        invariant FirstOver(hmac, q, false, hosts, 0) ==
                  if badKey.Some? then badKey else FirstOver(hmac, q, false, hosts, p)
      {
        var hit;
        hit, badKey := Pass(q, q.names[p], badKey);
        if hit.Some? {
          return Verdict(CHECK_MATCH, hit);
        }
        p := p + 1;
      }
      return if badKey.Some? then Verdict(CHECK_MISMATCH, badKey) else Verdict(CHECK_NOTFOUND, None);
    }

    /** One pass: the first entry that matches in full ends it; before that the very first entry
        with the right host and type but another key is remembered. */
    method Pass(q: Query, name: string, bad: Option<nat>) returns (hit: Option<nat>, badKey: Option<nat>)
      ensures hit == First(hmac, q, name, true, hosts, 0)
      ensures hit.None? ==> badKey == if bad.Some? then bad else First(hmac, q, name, false, hosts, 0)
    {
      hide SameHost;
      hit, badKey := None, bad;
      var i := 0;
      while i < |hosts|
        invariant i <= |hosts| && hit.None?
        invariant First(hmac, q, name, true, hosts, 0) == First(hmac, q, name, true, hosts, i)
        invariant badKey.Some? ==> badKey == if bad.Some? then bad else First(hmac, q, name, false, hosts, 0)
        invariant badKey.None? ==> bad.None? && First(hmac, q, name, false, hosts, 0) == First(hmac, q, name, false, hosts, i)
      {
        var e := hosts[i];
        var matched := SameHost(hmac, q, name, e);
        if matched {
          if q.keyType != KeyUnknown && (q.keyType == KeyUnset || q.keyType == e.keyType) {
            if q.key == e.key {
              hit, badKey := Some(i), None;
              return;
            }
            if badKey.None? {
              badKey := Some(i);
            }
          }
        }
        i := i + 1;
      }
    }
  }

  /** Between two names, or inside one whose start is still ahead. */
  ghost predicate Walked(host: string, name: nat, nameLen: nat)
    requires 0 < name && name + nameLen <= |host|
  {
    nameLen == 0 || (host[name - 1] != ',' && NameStart(host[..name + nameLen]) == StepBack(host[..name + nameLen], name))
  }

  /** One step of the walk: either a name is complete, the first of those still to come, or the
      walk goes on inside it. */
  lemma WalkOn(host: string, name: nat, nameLen: nat)
    requires 0 < name && name + nameLen <= |host| && Walked(host, name, nameLen)
    ensures var names, start := NamesBack(host[..name + nameLen]), name - 1;
            if start == 0 || host[start - 1] == ',' then
              && names != [] && names[0] == host[start..name + nameLen]
              && names[1..] == (if start <= 1 then [] else NamesBack(host[..start - 1]))
            else Walked(host, start, nameLen + 1)
  {
    hide NamesBack, StepBack;
    var h := host[..name + nameLen];
    WalkStep(h, name);
    if name == 1 || host[name - 2] == ',' {
      FirstName(h, name - 1);
      assert h[name - 1..] == host[name - 1..name + nameLen];
      if name > 1 {
        assert h[..name - 2] == host[..name - 2];
      }
    }
  }

  lemma WalkStep(h: string, name: nat)
    requires 0 < name <= |h|
    ensures name == |h| ==> NameStart(h) == StepBack(h, name - 1)
    ensures name < |h| && h[name - 1] != ',' ==> StepBack(h, name) == StepBack(h, name - 1)
    ensures name == 1 || h[name - 2] == ',' ==> StepBack(h, name - 1) == name - 1
  {
  }

  lemma FirstName(h: string, start: nat)
    requires h != "" && NameStart(h) == start
    ensures var names := NamesBack(h);
            names != [] && names[0] == h[start..] && names[1..] == (if start <= 1 then [] else NamesBack(h[..start - 1]))
  {
    hide NameStart, NamesBack;
    NamesBackStep(h);
    if start == 1 {
      NoNames(h[..0]);
    }
  }

  lemma NoNames(h: string)
    requires |h| == 0
    ensures NamesBack(h) == []
  {
  }

  lemma AddNamesStep(names: seq<string>, k: KeyField, hosts: seq<KnownHost>)
    requires names != [] && k.Fits()
    ensures AddNames(names, k).After(hosts) ==
            if |names[0]| >= 255 then Parsed(hosts, ERROR_METHOD_NOT_SUPPORTED)
            else match EntryFor(PlainHost(names[0]), k)
                 case Err(code) => Parsed(hosts, code)
                 case Ok(e) => AddNames(names[1..], k).After(hosts + [e])
  {
    hide EntryFor;
    var r := EntryFor(PlainHost(names[0]), k);
    assert hosts + [] == hosts;
    if r.Ok? {
      var more := AddNames(names[1..], k).added;
      assert hosts + ([r.value] + more) == hosts + [r.value] + more;
    }
  }

  lemma AddNothing(k: KeyField, hosts: seq<KnownHost>)
    requires k.Fits()
    ensures AddNames([], k).After(hosts) == Parsed(hosts, 0)
  {
    assert hosts + [] == hosts;
  }

  /** The pieces of a key part, found by moving over it. */
  method ScanKey(rest: string, len: nat) returns (k: KeyField)
    requires 0 < len <= |rest|
    ensures k == ParseKey(rest, len)
  {
    hide SkipBlanks, TokenLen, KeyTypeOf;
    if Digit(rest[0]) {
      return KeyField(Rsa1, None, rest, len, None);
    }
    var part := rest[..len];
    var t := PassToken(part);
    var key := PassBlanks(part[t..]);
    var m := PassToken(key);
    var comment := None;
    if m < |key| {
      var text := PassBlanks(key[m..]);
      comment := Some(text);
    }
    k := KeyField(KeyTypeOf(part[..t]), Some(part[..t]), rest[len - |key|..], m, comment);
  }

  method ScanLine(line: string) returns (found: Scan)
    ensures found == ScanOf(line)
  {
    hide SkipBlanks, TokenLen, Blank, NoBlanks, LineLen;
    var s := PassBlanks(line);
    if s == "" || s[0] == '#' || s[0] == '\n' {
      return Nothing;
    }
    var n := PassToken(s);
    var rest := PassBlanks(s[n..]);
    if rest == "" {
      return NoKey;
    }
    var len := PassLine(rest);
    found := HostAndKey(s, n, |s| - |rest|, len);
  }

  /** To the newline or the end of the line; with a newline one character is not counted. */
  method PassLine(line: string) returns (len: nat)
    ensures len == LineLen(line)
  {
    len := |line|;
    var cp := 0;
    while cp < |line| && line[cp] != '\n'
      invariant cp <= |line| && '\n' !in line[..cp]
    {
      assert line[..cp + 1] == line[..cp] + [line[cp]];
      cp := cp + 1;
    }
    assert line[..|line|] == line;
    if cp < |line| {
      len := len - 1;
    }
  }

  /** What the rest of a file leads to after `num` lines. */
  function Counted(p: Parsed, hosts: seq<KnownHost>, num: nat): Parsed {
    Parsed(hosts + p.added, if p.rc < 0 then p.rc else num + p.rc)
  }

  lemma ReadAllStep(text: string, hosts: seq<KnownHost>, num: nat)
    requires text != ""
    ensures var n := ChunkLen(text, BUFFER - 1);
            var p := ParseLine(text[..n]);
            Counted(ReadAll(text), hosts, num) ==
              if p.rc != 0 then Parsed(hosts + p.added, ERROR_KNOWN_HOSTS)
              else Counted(ReadAll(text[n..]), hosts + p.added, num + 1)
  {
    hide ParseLine, ChunkLen;
    var n := ChunkLen(text, BUFFER - 1);
    var p, more := ParseLine(text[..n]), ReadAll(text[n..]);
    assert hosts + (p.added + more.added) == hosts + p.added + more.added;
  }

  lemma ReadNothing(hosts: seq<KnownHost>, num: nat)
    ensures Counted(ReadAll(""), hosts, num) == Parsed(hosts, num)
  {
    assert hosts + [] == hosts;
  }

  /** The part of a line's size that the key part takes. */
  method KeySize(typeName: string, key: string, comment: Option<string>) returns (size: nat)
    ensures size == |KeyText(typeName, key, comment)|
  {
    size := |key|;
    if |typeName| > 0 {
      size := size + |typeName| + 1;
    }
    if comment.Some? {
      size := size + |comment.value| + 1;
    }
  }

  /** The four formats of a line: with and without a type name, with and without a comment. */
  method Formatted(host: string, typeName: string, key: string, comment: Option<string>) returns (line: string)
    ensures line == host + " " + KeyText(typeName, key, comment) + "\n"
  {
    if comment.Some? && |typeName| > 0 {
      line := host + " " + typeName + " " + key + " " + comment.value + "\n";
    } else if comment.Some? {
      line := host + " " + key + " " + comment.value + "\n";
    } else if |typeName| > 0 {
      line := host + " " + typeName + " " + key + "\n";
    } else {
      line := host + " " + key + "\n";
    }
  }

  /** A zero follows the line. */
  method PutLine(buf: array<char>, line: string)
    requires |line| < buf.Length
    modifies buf
    ensures buf[..] == line + "\0" + old(buf[|line| + 1..])
  {
    Copy(buf, 0, line + "\0");
  }

  lemma CutOff(text: string, line: string, more: string, room: nat)
    requires |text| <= room < |text| + |line|
    ensures (text + line + more)[..room] == text + line[..room - |text|]
  {
  }

  lemma WriteAllStep(hosts: seq<KnownHost>, i: nat, text: string)
    requires i < |hosts|
    ensures WriteAll(hosts[i..]).Behind(text) ==
            match Print(hosts[i])
            case Err(code) => Written(text, code)
            case Ok(line) =>
              if |line| + 1 > BUFFER then Written(text, ERROR_BUFFER_TOO_SMALL)
              else WriteAll(hosts[i + 1..]).Behind(text + line)
  {
    hide Print;
    assert text + "" == text && hosts[i..][1..] == hosts[i + 1..];
    if Print(hosts[i]).Ok? {
      var line, more := Print(hosts[i]).value, WriteAll(hosts[i + 1..]).text;
      assert text + (line + more) == text + line + more;
    }
  }

  lemma WriteNothing(hosts: seq<KnownHost>, text: string)
    ensures WriteAll(hosts[|hosts|..]).Behind(text) == Written(text, 0)
    ensures WriteAll(hosts).Behind("") == WriteAll(hosts)
  {
    assert text + "" == text && "" + WriteAll(hosts).text == WriteAll(hosts).text;
  }
}
