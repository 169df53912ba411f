/** The rule a host and its key are checked by. */
module HostCheck {
  import opened Bytes
  import opened HostEntries
  import Base64

  const CHECK_MATCH := 0
  const CHECK_MISMATCH := 1
  const CHECK_NOTFOUND := 2
  const CHECK_FAILURE := 3

  const HOST_BUFFER := 270
  const SHA_DIGEST_LENGTH := 20

  type Hmac = (seq<bv8>, string) -> seq<bv8>

  datatype HostKind = PlainKind | CustomKind | Sha1Kind | OtherKind

  /** What is looked for: names in the order they are tried, a key in base64 and a key type. */
  datatype Query = Query(kind: HostKind, names: seq<string>, key: string, keyType: KeyType)

  /** The code returned, and the entry reported if there is one. */
  datatype Verdict = Verdict(code: int, ext: Option<nat>)

  function Decimal(n: nat): string {
    if n < 10 then [(48 + n) as char] else Decimal(n / 10) + [(48 + n % 10) as char]
  }

  /** The number a string of digits stands for. */
  function Number(s: string): int {
    if s == "" then 0 else Number(s[..|s| - 1]) * 10 + (s[|s| - 1] as int - 48)
  }

  /** The digits read back as the number, and it has no leading zero. */
  lemma {:induction false} DecimalReadsBack(n: nat)
    ensures Number(Decimal(n)) == n && Decimal(n) != ""
    ensures forall c :: c in Decimal(n) ==> '0' <= c <= '9'
    ensures Decimal(n)[0] == '0' ==> n == 0
  {
    if n >= 10 {
      DecimalReadsBack(n / 10);
      var last := [(48 + n % 10) as char];
      assert (Decimal(n / 10) + last)[..|Decimal(n / 10)|] == Decimal(n / 10);
    } else {
      assert [(48 + n) as char][..0] == "";
    }
  }

  /** With a port `[host]:port` is tried before `host`; it has to fit its buffer. */
  function Tried(host: string, port: int): Option<seq<string>> {
    if port < 0 then Some([host])
    else
      var bracketed := "[" + host + "]:" + Decimal(port);
      if |bracketed| >= HOST_BUFFER then None else Some([bracketed, host])
  }

  /** The key that is compared; of text in base64 all counts, whatever its length argument says. */
  function Compared(key: KeyArg): string {
    if key.RawKey? then Base64.Encode(key.bytes) else key.text
  }

  predicate SameHost(hmac: Hmac, q: Query, name: string, e: KnownHost) {
    match e.name
    case PlainName(text) => q.kind.PlainKind? && text == name
    case CustomName(text) => q.kind.CustomKind? && text == name
    case HashedName(hash, salt) => q.kind.PlainKind? && |hash| == SHA_DIGEST_LENGTH && hmac(salt, name) == hash
  }

  /** Same host, and a key type that is comparable: none asked for, or the same known one. */
  predicate Candidate(hmac: Hmac, q: Query, name: string, e: KnownHost) {
    SameHost(hmac, q, name, e) && !q.keyType.KeyUnknown? && (q.keyType.KeyUnset? || q.keyType == e.keyType)
  }

  predicate Hit(hmac: Hmac, q: Query, name: string, e: KnownHost) {
    Candidate(hmac, q, name, e) && q.key == e.key
  }

  predicate Found(hmac: Hmac, q: Query, name: string, exact: bool, e: KnownHost) {
    if exact then Hit(hmac, q, name, e) else Candidate(hmac, q, name, e)
  }

  /** The first candidate for a name, or the first hit, from entry `i` on. */
  function First(hmac: Hmac, q: Query, name: string, exact: bool, hosts: seq<KnownHost>, i: nat): (r: Option<nat>)
    requires i <= |hosts|
    ensures r.Some? ==> i <= r.value < |hosts| && Found(hmac, q, name, exact, hosts[r.value])
    ensures forall k :: i <= k < (if r.Some? then r.value else |hosts|) ==> !Found(hmac, q, name, exact, hosts[k])
    decreases |hosts| - i
  {
    if i == |hosts| then None
    else if Found(hmac, q, name, exact, hosts[i]) then Some(i)
    else First(hmac, q, name, exact, hosts, i + 1)
  }

  /** The same over all names from `p` on, name by name. */
  function FirstOver(hmac: Hmac, q: Query, exact: bool, hosts: seq<KnownHost>, p: nat): (r: Option<nat>)
    requires p <= |q.names|
    ensures r.Some? ==> r.value < |hosts|
    decreases |q.names| - p
  {
    if p == |q.names| then None
    else
      var r := First(hmac, q, q.names[p], exact, hosts, 0);
      if r.Some? then r else FirstOver(hmac, q, exact, hosts, p + 1)
  }

  /** A hit anywhere wins; failing that, the first candidate is a mismatch. */
  function Rule(hmac: Hmac, q: Query, hosts: seq<KnownHost>): Verdict {
    var hit := FirstOver(hmac, q, true, hosts, 0);
    var candidate := FirstOver(hmac, q, false, hosts, 0);
    if hit.Some? then Verdict(CHECK_MATCH, hit)
    else if candidate.Some? then Verdict(CHECK_MISMATCH, candidate)
    else Verdict(CHECK_NOTFOUND, None)
  }

  ghost predicate AnyHit(hmac: Hmac, q: Query, hosts: seq<KnownHost>) {
    exists n, e :: n in q.names && e in hosts && Hit(hmac, q, n, e)
  }

  ghost predicate AnyCandidate(hmac: Hmac, q: Query, hosts: seq<KnownHost>) {
    exists n, e :: n in q.names && e in hosts && Candidate(hmac, q, n, e)
  }

  lemma {:induction false} FirstOverFound(hmac: Hmac, q: Query, exact: bool, hosts: seq<KnownHost>, p: nat)
    requires p <= |q.names|
    ensures FirstOver(hmac, q, exact, hosts, p).None? <==>
            forall m, k :: p <= m < |q.names| && 0 <= k < |hosts| ==> !Found(hmac, q, q.names[m], exact, hosts[k])
    decreases |q.names| - p
  {
    hide Found, First;
    if p < |q.names| {
      FirstOverFound(hmac, q, exact, hosts, p + 1);
    }
  }

  /** The code in terms of which entries there are: their order does not matter. */
  lemma RuleByMembers(hmac: Hmac, q: Query, hosts: seq<KnownHost>)
    ensures var code := Rule(hmac, q, hosts).code;
            && (code == CHECK_MATCH <==> AnyHit(hmac, q, hosts))
            && (code == CHECK_MISMATCH <==> !AnyHit(hmac, q, hosts) && AnyCandidate(hmac, q, hosts))
            && (code == CHECK_NOTFOUND <==> !AnyCandidate(hmac, q, hosts))
  {
    hide FirstOver, SameHost;
    FirstOverFound(hmac, q, true, hosts, 0);
    FirstOverFound(hmac, q, false, hosts, 0);
  }

  /** Permuting the list does not change the result code. */
  lemma OrderDoesNotMatter(hmac: Hmac, q: Query, hosts: seq<KnownHost>, shuffled: seq<KnownHost>)
    requires multiset(hosts) == multiset(shuffled)
    ensures Rule(hmac, q, hosts).code == Rule(hmac, q, shuffled).code
  {
    hide Rule, Hit, Candidate;
    RuleByMembers(hmac, q, hosts);
    RuleByMembers(hmac, q, shuffled);
    assert forall e :: e in hosts <==> e in multiset(hosts);
    assert forall e :: e in shuffled <==> e in multiset(shuffled);
  }

  /** A host argument that stands for `host`, asked for as `kind`: its name in clear, or the HMAC of it. */
  predicate Means(hmac: Hmac, arg: HostArg, host: string, kind: HostKind) {
    match arg
    case PlainHost(text) => kind.PlainKind? && text == host
    case CustomHost(text) => kind.CustomKind? && text == host
    case Sha1Host(text, salt) =>
      && kind.PlainKind? && Base64.Decode(salt).Some? && Base64.Decode(text).Some?
      && Base64.Decode(text).value == hmac(Base64.Decode(salt).value, host) && |Base64.Decode(text).value| == SHA_DIGEST_LENGTH
    case OtherHost => false
  }

  /** A host just added under a known key type, in clear or hashed, is found again, with or without a port, by the
      same arguments: exactly unless its key was cut off by a length argument, or it was known before. */
  lemma AddedIsFound(hmac: Hmac, hosts: seq<KnownHost>, arg: HostArg, host: string, kind: HostKind, port: int,
                     typeName: Option<string>, key: KeyArg, comment: Option<string>, keyType: KeyType)
    requires key.Fits() && NewEntry(arg, typeName, key, comment, keyType).Ok? && Means(hmac, arg, host, kind)
    requires !keyType.KeyUnknown? && Tried(host, port).Some?
    ensures var e := NewEntry(arg, typeName, key, comment, keyType).value;
            var q := Query(kind, Tried(host, port).value, Compared(key), keyType);
            var before := Rule(hmac, q, hosts).code == CHECK_MATCH;
            Rule(hmac, q, hosts + [e]).code == CHECK_MATCH <==> before || Compared(key) == key.Stored()
  {
    hide Base64.Decode, Base64.Encode, Decimal;
    var e := NewEntry(arg, typeName, key, comment, keyType).value;
    var names := Tried(host, port).value;
    var q := Query(kind, names, Compared(key), keyType);
    RuleByMembers(hmac, q, hosts + [e]);
    RuleByMembers(hmac, q, hosts);
    assert names[|names| - 1] == host;
    assert host in names;
    assert Hit(hmac, q, host, e) <==> Compared(key) == key.Stored();
    assert e in hosts + [e];
    if Compared(key) != key.Stored() {
      assert forall n :: !Hit(hmac, q, n, e);
    }
  }

  /** The hash of a host, in base64, stands for that host. */
  lemma HashMeansHost(hmac: Hmac, salt: seq<bv8>, host: string)
    requires |hmac(salt, host)| == SHA_DIGEST_LENGTH
    ensures Means(hmac, Sha1Host(Base64.Encode(hmac(salt, host)), Base64.Encode(salt)), host, PlainKind)
  {
    Base64.DecodeEncode(hmac(salt, host));
    Base64.DecodeEncode(salt);
  }

  /** An entry that stands for none of the names that are tried is no match, nor a mismatch. */
  lemma StrangerIsNotFound(hmac: Hmac, arg: HostArg, kind: HostKind, names: seq<string>, typeName: Option<string>,
                           key: KeyArg, comment: Option<string>, keyType: KeyType, asked: string, askedType: KeyType)
    requires key.Fits() && NewEntry(arg, typeName, key, comment, keyType).Ok?
    requires forall n :: n in names ==> !Means(hmac, arg, n, kind)
    ensures var e := NewEntry(arg, typeName, key, comment, keyType).value;
            Rule(hmac, Query(kind, names, asked, askedType), [e]) == Verdict(CHECK_NOTFOUND, None)
  {
    hide Base64.Decode, Base64.Encode;
    var e := NewEntry(arg, typeName, key, comment, keyType).value;
    var q := Query(kind, names, asked, askedType);
    forall n | n in names ensures !SameHost(hmac, q, n, e) {
      assert !Means(hmac, arg, n, kind);
    }
    RuleByMembers(hmac, q, [e]);
    assert !AnyCandidate(hmac, q, [e]);
  }

  /** Of an entry for the host that is asked for the key type decides whether the keys are compared: not if the
      type asked for has no name, else if it is any or the same; then the keys themselves decide. */
  lemma TypesAreCompared(hmac: Hmac, q: Query, host: string, e: KnownHost)
    requires host in q.names && SameHost(hmac, q, host, e)
    ensures Rule(hmac, q, [e]).code ==
            if q.keyType.KeyUnknown? || (q.keyType != KeyUnset && q.keyType != e.keyType) then CHECK_NOTFOUND
            else if q.key == e.key then CHECK_MATCH else CHECK_MISMATCH
  {
    hide SameHost;
    RuleByMembers(hmac, q, [e]);
    assert e in [e];
    if Candidate(hmac, q, host, e) {
      assert AnyCandidate(hmac, q, [e]);
      if Hit(hmac, q, host, e) {
        assert AnyHit(hmac, q, [e]);
      }
    }
  }

  /** An entry added with a key length short of the key's text differs from the key that is checked: the
      host just added is reported as one with another key. */
  lemma CutKeyIsNotFound(hmac: Hmac, host: string, text: string, len: nat)
    requires 0 < len < |text|
    ensures var r := NewEntry(PlainHost(host), None, EncodedKey(text, len), None, SshRsa);
            var q := Query(PlainKind, [host], Compared(EncodedKey(text, len)), SshRsa);
            r.Ok? && Tried(host, -1) == Some([host]) && Rule(hmac, q, [r.value]) == Verdict(CHECK_MISMATCH, Some(0))
  {
    var e := NewEntry(PlainHost(host), None, EncodedKey(text, len), None, SshRsa).value;
    var q := Query(PlainKind, [host], text, SshRsa);
    assert |text[..len]| == len;
    assert !Found(hmac, q, host, true, e) && Found(hmac, q, host, false, e);
    hide Found;
    FirstOverFound(hmac, q, true, [e], 0);
    FirstOverFound(hmac, q, false, [e], 0);
    assert q.names[0] == host && [e][0] == e;
  }
}
