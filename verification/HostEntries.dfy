/** Entries of a known_hosts list: how they are made, printed as lines and parsed from lines. */
module HostEntries {
  import opened Bytes
  import opened Errors
  import opened HostText
  import Base64

  datatype Outcome<+T> = Ok(value: T) | Err(code: int)

  /** The key bits of a typemask. `KeyReserved` stands for the values without a name. */
  datatype KeyType =
    | KeyUnset | Rsa1 | SshRsa | SshDss | Ecdsa256 | Ecdsa384 | Ecdsa521 | Ed25519 | KeyReserved | KeyUnknown

  datatype HostName =
    | PlainName(text: string)
    | CustomName(text: string)
    | HashedName(hash: seq<bv8>, salt: seq<bv8>)

  /** `struct known_host`; `base64` is the encoding bit of its typemask. */
  datatype KnownHost = KnownHost(
    name: HostName, base64: bool, keyType: KeyType, key: string,
    keyTypeName: Option<string>, comment: Option<string>)

  /** The host argument of `knownhost_add`, by the type bits of the typemask. */
  datatype HostArg =
    | PlainHost(text: string)
    | CustomHost(text: string)
    | Sha1Host(text: string, salt: string)
    | OtherHost

  /** The key argument: text that is base64 already with a length that may be 0 for all of it, or
      raw bytes. */
  datatype KeyArg = EncodedKey(text: string, len: nat) | RawKey(bytes: seq<bv8>)
  {
    predicate Fits() {
      EncodedKey? ==> len <= |text|
    }

    /** The text that is stored. */
    function Stored(): string
      requires Fits()
    {
      if RawKey? then Base64.Encode(bytes) else if len == 0 then text else text[..len]
    }
  }

  function NewName(host: HostArg): (r: Outcome<HostName>)
    ensures r.Err? ==> r.code < 0
  {
    match host
    case PlainHost(text) => Ok(PlainName(text))
    case CustomHost(text) => Ok(CustomName(text))
    case Sha1Host(text, salt) =>
      var h, s := Base64.Decode(text), Base64.Decode(salt);
      if h.None? || s.None? then Err(ERROR_INVAL) else Ok(HashedName(h.value, s.value))
    case OtherHost => Err(ERROR_METHOD_NOT_SUPPORTED)
  }

  /** The entry `knownhost_add` appends, or the error it returns. */
  function NewEntry(host: HostArg, typeName: Option<string>, key: KeyArg, comment: Option<string>, keyType: KeyType)
    : (r: Outcome<KnownHost>)
    requires key.Fits()
    ensures r.Err? ==> r.code < 0
  {
    if keyType.KeyUnset? then Err(ERROR_INVAL)
    else
      match NewName(host)
      case Err(code) => Err(code)
      case Ok(name) =>
        if key.RawKey? && key.Stored() == "" then Err(ERROR_ALLOC)
        else
          Ok(KnownHost(name, key.EncodedKey?, keyType, key.Stored(),
                       if keyType.KeyUnknown? then typeName else None, comment))
  }

  /** The names of the key types that have one. */
  function KnownTypeName(t: KeyType): Option<string> {
    match t
    case SshRsa => Some("ssh-rsa")
    case SshDss => Some("ssh-dss")
    case Ecdsa256 => Some("ecdsa-sha2-nistp256")
    case Ecdsa384 => Some("ecdsa-sha2-nistp384")
    case Ecdsa521 => Some("ecdsa-sha2-nistp521")
    case Ed25519 => Some("ssh-ed25519")
    case _ => None
  }

  /** The key type name that is printed, "" for none. */
  function TypeName(e: KnownHost): (r: Outcome<string>)
    ensures r.Err? ==> r.code < 0
  {
    if e.keyType.Rsa1? then Ok("")
    else if KnownTypeName(e.keyType).Some? then Ok(KnownTypeName(e.keyType).value)
    else if e.keyType.KeyUnknown? && e.keyTypeName.Some? then Ok(e.keyTypeName.value)
    else Err(ERROR_METHOD_NOT_SUPPORTED)
  }

  function HostField(name: HostName): (r: Outcome<string>)
    ensures r.Err? ==> r.code < 0
  {
    match name
    case PlainName(text) => Ok(text)
    case CustomName(text) => Ok(text)
    case HashedName(hash, salt) =>
      if hash == [] || salt == [] then Err(ERROR_ALLOC)
      else Ok("|1|" + Base64.Encode(salt) + "|" + Base64.Encode(hash))
  }

  function CommentText(comment: Option<string>): string {
    if comment.None? then "" else " " + comment.value
  }

  function KeyText(typeName: string, key: string, comment: Option<string>): string {
    (if typeName == "" then "" else typeName + " ") + (key + CommentText(comment))
  }

  /** The line of an entry. */
  function Print(e: KnownHost): (r: Outcome<string>)
    ensures r.Err? ==> r.code < 0
  {
    match TypeName(e)
    case Err(code) => Err(code)
    case Ok(typeName) =>
      match HostField(e.name)
      case Err(code) => Err(code)
      case Ok(host) => Ok(host + " " + KeyText(typeName, e.key, e.comment) + "\n")
  }

  /** What reading a line adds to the list, and its return code. */
  datatype Parsed = Parsed(added: seq<KnownHost>, rc: int)
  {
    /** The list, and the code, when this happens to a list. */
    function After(hosts: seq<KnownHost>): Parsed {
      Parsed(hosts + added, rc)
    }
  }

  const UNPARSABLE := Parsed([], ERROR_METHOD_NOT_SUPPORTED)

  /** The pieces of a key part: `text` is everything from the key on, `len` the key's length. */
  datatype KeyField = KeyField(
    keyType: KeyType, typeName: Option<string>, text: string, len: nat, comment: Option<string>)
  {
    predicate Fits() {
      len <= |text|
    }
  }

  /** `strncmp(name, known, strlen(name))` is 0 for every prefix of a known name. */
  function KeyTypeOf(name: string): (t: KeyType)
    ensures !t.KeyUnset? && !t.KeyReserved? && !t.Rsa1?
  {
    if name <= "ssh-dss" then SshDss
    else if name <= "ssh-rsa" then SshRsa
    else if name <= "ecdsa-sha2-nistp256" then Ecdsa256
    else if name <= "ecdsa-sha2-nistp384" then Ecdsa384
    else if name <= "ecdsa-sha2-nistp521" then Ecdsa521
    else if name <= "ssh-ed25519" then Ed25519
    else KeyUnknown
  }

  predicate Digit(c: char) {
    '0' <= c <= '9'
  }

  lemma DigitsAreTen(c: char)
    ensures Digit(c) <==> c in "0123456789"
  {
  }

  /** The key part, whose first `len` characters count; a newline may stand behind them. */
  function ParseKey(rest: string, len: nat): (k: KeyField)
    requires 0 < len <= |rest|
    ensures k.Fits()
  {
    if Digit(rest[0]) then KeyField(Rsa1, None, rest, len, None)
    else
      var part := rest[..len];
      var typeName := part[..TokenLen(part)];
      var key := SkipBlanks(part[|typeName|..]);
      var m := TokenLen(key);
      KeyField(KeyTypeOf(typeName), Some(typeName), rest[len - |key|..], m,
               if m == |key| then None else Some(SkipBlanks(key[m..])))
  }

  function EntryFor(host: HostArg, k: KeyField): Outcome<KnownHost>
    requires k.Fits()
  {
    NewEntry(host, k.typeName, EncodedKey(k.text, k.len), k.comment, k.keyType)
  }

  /** One entry a name, until a name is too long. */
  function AddNames(names: seq<string>, k: KeyField): Parsed
    requires k.Fits()
  {
    if names == [] then Parsed([], 0)
    else if |names[0]| >= 255 then UNPARSABLE
    else
      match EntryFor(PlainHost(names[0]), k)
      case Err(code) => Parsed([], code)
      case Ok(e) =>
        var more := AddNames(names[1..], k);
        Parsed([e] + more.added, more.rc)
  }

  /** `|1|salt|hash`: the search for the bar runs on behind the host field, whose length is `n`.
      Lengths below zero wrap around to huge ones. */
  function ParseHashed(s: string, n: nat, k: KeyField): Parsed
    requires 3 <= |s| && n <= |s| && k.Fits()
  {
    var m := BarLen(s[3..]);
    var hashLen := n - 3 - (m + 1);
    if 3 + m == |s| then Parsed([], 0)
    else if m >= 31 then UNPARSABLE
    else if hashLen < 0 || hashLen >= 255 then UNPARSABLE
    else
      match EntryFor(Sha1Host(s[n - hashLen..n], s[3..3 + m]), k)
      case Err(code) => Parsed([], code)
      case Ok(e) => Parsed([e], 0)
  }

  /** A line from its host field of length `n` on; the key part starts `at` and has length `len`. */
  function ParseHost(s: string, n: nat, at: nat, len: nat): Parsed
    requires 0 < n < at && at + len <= |s|
  {
    if len < 20 then UNPARSABLE
    else
      var k := ParseKey(s[at..], len);
      if n > 2 && s[..3] != "|1|" then AddNames(NamesBack(s[..n]), k) else ParseHashed(s, n, k)
  }

  /** The length without the newline at the end. A newline that stands before the end costs the last
      character just the same. */
  function LineLen(line: string): (n: nat)
    ensures n <= |line|
  {
    if '\n' in line then |line| - 1 else |line|
  }

  /** The two parts of a line: the text from the host field on, the length of that field, and the
      place and length of the key part. */
  datatype Scan = Nothing | NoKey | HostAndKey(s: string, n: nat, at: nat, len: nat)
  {
    predicate Fits() {
      HostAndKey? ==> 0 < n < at && at + len <= |s|
    }
  }

  function ScanOf(line: string): (r: Scan)
    ensures r.Fits()
  {
    var s := SkipBlanks(line);
    if s == "" || s[0] == '#' || s[0] == '\n' then Nothing
    else
      var n := TokenLen(s);
      var rest := SkipBlanks(s[n..]);
      if rest == "" then NoKey else HostAndKey(s, n, |s| - |rest|, LineLen(rest))
  }

  /** `libssh2_knownhost_readline` */
  function ParseLine(line: string): Parsed {
    match ScanOf(line)
    case Nothing => Parsed([], 0)
    case NoKey => UNPARSABLE
    case HostAndKey(s, n, at, len) => ParseHost(s, n, at, len)
  }
}
