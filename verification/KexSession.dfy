/** The session state that key exchange negotiation works on. */
module KexSession {
  import opened Bytes
  import opened Errors
  import opened NameLists
  import opened MethodPref
  import opened KexAgree
  import opened Negotiation
  import opened KexInit

  datatype NbState = Idle | Created

  class Session {
    const tables: Tables
    var prefs: map<MethodType, seq<byte>>
    var kex: Option<Method>
    var hostkey: Option<Method>
    var localCrypt: Option<Method>
    var remoteCrypt: Option<Method>
    var localMac: Option<Method>
    var remoteMac: Option<Method>
    var localComp: Option<Method>
    var remoteComp: Option<Method>
    var burnOptimistic: bool
    var kexinitState: NbState
    var kexinitData: Option<seq<byte>>
    var localKexinit: Option<seq<byte>>

    constructor (tables: Tables)
      requires WellFormed(tables)
      ensures Valid() && this.tables == tables && prefs == map[] && kexinitState == Idle && localKexinit.None?
      ensures kex.None? && hostkey.None? && localCrypt.None? && remoteCrypt.None? && localMac.None? && remoteMac.None?
      ensures localComp.None? && remoteComp.None? && !burnOptimistic
    {
      this.tables := tables;
      prefs := map[];
      kex, hostkey, localCrypt, remoteCrypt := None, None, None, None;
      localMac, remoteMac, localComp, remoteComp := None, None, None, None;
      burnOptimistic := false;
      kexinitState, kexinitData, localKexinit := Idle, None, None;
    }

    static ghost predicate WellFormed(t: Tables) {
      WellNamed(t.kex) && WellNamed(t.hostkey) && WellNamed(t.crypt) && WellNamed(t.mac) && WellNamed(t.comp)
    }

    /** Preferences set through the interface hold only supported names. */
    ghost predicate Valid()
      reads this`prefs, this`kexinitState, this`kexinitData
    {
      && WellFormed(tables)
      && (forall t :: t in prefs && tables.MethodList(t).Some? ==>
            && Supported(Split(prefs[t]), tables.MethodList(t).value)
            && Split(prefs[t])[0] in Names(tables.MethodList(t).value))
      && (kexinitState == Created <==> kexinitData.Some?)
    }

    function Pref(t: MethodType): Option<seq<byte>>
      reads this`prefs
    {
      if t in prefs then Some(prefs[t]) else None
    }

    /** `libssh2_session_method_pref` */
    method SetMethodPref(t: MethodType, pref: seq<byte>) returns (rc: int)
      requires Valid() && 0 !in pref
      modifies this`prefs
      ensures Valid()
      ensures t.OtherType? ==> rc == ERROR_INVAL
      ensures !t.OtherType? ==>
        var mlist := tables.MethodList(t);
        var left := if mlist.Some? then FilteredPrefs(pref, Names(mlist.value)) else pref;
        && (rc == 0 <==> left != []) && (left == [] ==> rc == ERROR_METHOD_NOT_SUPPORTED)
        && (left != [] ==> prefs == old(prefs)[t := left])
      ensures rc != 0 ==> prefs == old(prefs)
    {
      if t.OtherType? {
        return ERROR_INVAL;
      }
      var mlist := tables.MethodList(t);
      var newprefs := new byte[|pref| + 1](k requires 0 <= k <= |pref| => if k < |pref| then pref[k] else 0);
      ghost var left := pref;
      if mlist.Some? {
        FilterInPlace(newprefs, pref, mlist.value);
        left := FilteredPrefs(pref, Names(mlist.value));
        FilteredIsSupported(pref, Names(mlist.value));
        if left != [] {
          FilteredStartsSupported(pref, Names(mlist.value));
        }
      }
      if newprefs[0] == 0 {
        return ERROR_METHOD_NOT_SUPPORTED;
      }
      var len := StrLen(newprefs, 0, left);
      assert newprefs[..len] == left;
      prefs := prefs[t := newprefs[..len]];
      return 0;
    }

    /** `LIBSSH2_METHOD_PREFS_LEN` */
    method PrefsLen(t: MethodType) returns (len: nat)
      ensures len == |tables.FieldText(prefs, t)|
    {
      if t in prefs {
        len := |prefs[t]|;
      } else {
        var mlist := tables.MethodList(t);
        len := MethodStrLen(if mlist.Some? then mlist.value else []);
      }
    }

    /** `LIBSSH2_METHOD_PREFS_STR` */
    method PutPrefs(buf: array<byte>, s: nat, t: MethodType, len: nat) returns (s': nat)
      requires len == |tables.FieldText(prefs, t)| && s + 4 + len < buf.Length
      modifies buf
      ensures s' == s + 4 + len && buf[..s'] == old(buf[..s]) + Str(tables.FieldText(prefs, t))
    {
      if t in prefs {
        Copy(buf, s, U32(Wrap32(len)));
        Copy(buf, s + 4, prefs[t]);
        s' := s + 4 + len;
      } else {
        var mlist := tables.MethodList(t);
        var n := MethodList(buf, s, len, if mlist.Some? then mlist.value else []);
        s' := s + n;
      }
    }

    /** The ten name-lists of the KEXINIT packet. */
    function Lists(): (r: seq<seq<byte>>)
      reads this`prefs
      ensures |r| == |FIELDS| && forall i :: 0 <= i < |r| ==> r[i] == tables.FieldText(prefs, FIELDS[i])
    {
      var p := prefs;
      seq(|FIELDS|, i requires 0 <= i < |FIELDS| => tables.FieldText(p, FIELDS[i]))
    }

    method PacketLen() returns (dataLen: nat, lens: seq<nat>)
      ensures dataLen == 22 + |Strs(Lists())|
      ensures |lens| == |FIELDS| && forall k :: 0 <= k < |lens| ==> lens[k] == |Lists()[k]|
    {
      ghost var lists := Lists();
      hide Strs;
      lens := [];
      dataLen := 62;
      StrsNone(lists);
      for i := 0 to |FIELDS|
        invariant |lens| == i && forall k :: 0 <= k < i ==> lens[k] == |lists[k]|
        invariant dataLen + 4 * i == 62 + |Strs(lists[..i])|
      {
        var len := PrefsLen(FIELDS[i]);
        lens := lens + [len];
        dataLen := dataLen + len;
        StrsSnoc(lists, i);
      }
      assert lists[..|FIELDS|] == lists;
    }

    /** The packet-building half of `kexinit`. The buffer is as long as the fields add up to,
        and the cursor ends at its end. */
    method BuildKexInit(cookie: seq<byte>) returns (data: array<byte>)
      requires |cookie| == 16
      ensures fresh(data) && data[..] == KexInitPacket(cookie, Lists(), 0)
    {
      ghost var lists := Lists();
      var dataLen, lens := PacketLen();
      data := new byte[dataLen];
      Copy(data, 0, [SSH_MSG_KEXINIT]);
      Copy(data, 1, cookie);
      ghost var head := [SSH_MSG_KEXINIT] + cookie;
      hide Strs, Str, U32;
      StrsNone(lists);
      assert data[..17] == head + Strs(lists[..0]);
      var s := 17;
      for i := 0 to |FIELDS|
        invariant s == 17 + |Strs(lists[..i])| <= data.Length
        invariant data[..s] == head + Strs(lists[..i])
      {
        StrsSnoc(lists, i);
        StrsPrefix(lists, i + 1);
        s := PutPrefs(data, s, FIELDS[i], lens[i]);
        Assoc(head, Strs(lists[..i]), Str(lists[i]));
      }
      assert lists[..|FIELDS|] == lists;
      Copy(data, s, [0]);
      Copy(data, s + 1, U32(0));
      assert data[..] == data[..s + 5];
    }

    lemma StrsNone(xs: seq<seq<byte>>)
      ensures Strs(xs[..0]) == []
    {
    }

    lemma StrsSnoc(xs: seq<seq<byte>>, i: nat)
      requires i < |xs|
      ensures Strs(xs[..i + 1]) == Strs(xs[..i]) + Str(xs[i])
      ensures |Strs(xs[..i + 1])| == |Strs(xs[..i])| + 4 + |xs[i]|
    {
      StrsAppend(xs[..i], [xs[i]]);
      assert xs[..i + 1] == xs[..i] + [xs[i]];
      assert Strs([xs[i]]) == Str(xs[i]) + Strs([]);
      hide Str;
    }

    lemma StrsPrefix(xs: seq<seq<byte>>, i: nat)
      requires i <= |xs|
      ensures |Strs(xs[..i])| <= |Strs(xs)|
    {
      StrsAppend(xs[..i], xs[i..]);
      assert xs == xs[..i] + xs[i..];
    }

    /** `kexinit`: builds the packet once and hands the same bytes to the transport until they
        are sent, whatever happens to the preferences in between. What is kept for the exchange
        hash is what was sent. */
    method SendKexInit(cookie: Option<seq<byte>>, send: SendResult) returns (rc: int, ghost packet: seq<byte>)
      requires Valid() && (cookie.Some? ==> |cookie.value| == 16)
      requires send.SendFailed? ==> send.rc != 0 && send.rc != ERROR_EAGAIN
      modifies this`kexinitState, this`kexinitData, this`localKexinit
      ensures Valid()
      ensures old(kexinitState) == Created ==> Some(packet) == old(kexinitData)
      ensures old(kexinitState) == Idle && cookie.Some? ==> packet == KexInitPacket(cookie.value, Lists(), 0)
      ensures old(kexinitState) == Idle && cookie.None? ==>
                rc == ERROR_RANDGEN && kexinitState == Idle && localKexinit == old(localKexinit)
      ensures old(kexinitState) == Created || cookie.Some? ==>
                match send
                case Sent => rc == 0 && localKexinit == Some(packet) && kexinitState == Idle
                case WouldBlock => rc == ERROR_EAGAIN && kexinitState == Created
                                   && kexinitData == Some(packet) && localKexinit == old(localKexinit)
                case SendFailed(code) => rc == code && kexinitState == Idle && localKexinit == old(localKexinit)
    {
      hide KexInitPacket, Lists, Supported;
      var data: seq<byte>;
      packet := [];
      if kexinitState == Idle {
        if cookie.None? {
          return ERROR_RANDGEN, packet;
        }
        var buf := BuildKexInit(cookie.value);
        data := buf[..];
        kexinitState := Created;
      } else {
        data := kexinitData.value;
        kexinitData := None;
      }
      packet := data;
      match send
      case WouldBlock =>
        kexinitData := Some(data);
        rc := ERROR_EAGAIN;
      case SendFailed(code) =>
        kexinitState := Idle;
        rc := code;
      case Sent =>
        localKexinit := Some(data);
        kexinitState := Idle;
        rc := 0;
    }

    function TheOffer(kexServer: seq<byte>, hkServer: seq<byte>): Offer
      reads this`prefs
    {
      Offer(Candidates(Pref(Kex), tables.kex), tables.kex, Split(kexServer),
            Candidates(Pref(HostKey), tables.hostkey), tables.hostkey, Split(hkServer))
    }

    /** Whatever preferences have been set, the agreed pair is the lexicographically first one
        that both sides name and that fits together, and a host key that cannot verify
        signatures is never paired with an exchange that needs them. */
    lemma AgreedPairIsFirst(kexServer: seq<byte>, hkServer: seq<byte>) returns (i: int, j: int)
      requires Valid()
      ensures var offer := TheOffer(kexServer, hkServer);
              match offer.AgreedPair(0)
              case Some((k, h)) =>
                && offer.IsFirstPair(0, i, j)
                && Lookup(offer.kexCands[i], tables.kex) == Some(k) && Lookup(offer.hkCands[j], tables.hostkey) == Some(h)
                && (k.flags & REQ_SIGN_HOSTKEY != 0 ==> h.sigVerify)
              case None => forall i', j' :: 0 <= i' ==> !offer.Acceptable(i', j')
    {
      i, j := TheOffer(kexServer, hkServer).FirstPair(0);
    }

    /** Whatever preferences have been set, a cipher, MAC or compression method is agreed on by
        the client's first preference that the server lists. */
    lemma AgreedIsFirst(t: MethodType, server: seq<byte>)
      requires Valid() && tables.MethodList(t).Some?
      ensures var table := tables.MethodList(t).value;
              var cands := Candidates(Pref(t), table);
              match Agreed(Pref(t), table, Split(server))
              case Some(m) =>
                m in table && (exists i :: 0 <= i < |cands| && cands[i] == m.name && Listed(m.name, Split(server))
                                           && forall j :: 0 <= j < i ==> !Listed(cands[j], Split(server)))
              case None => forall j :: 0 <= j < |cands| ==> !Listed(cands[j], Split(server))
    {
      AgreedIsFirstPreference(Pref(t), tables.MethodList(t).value, Split(server));
    }

    /** The search itself; `guess` says that the agreed kex is the server's first name. */
    method SearchPair(data: seq<byte>, kexAt: nat, kexLen: nat, hkAt: nat, hkLen: nat)
      returns (r: Option<(Method, Method)>, guess: bool)
      requires Valid() && kexAt + kexLen < |data| && hkAt + hkLen < |data|
      ensures r == TheOffer(data[kexAt..kexAt + kexLen], data[hkAt..hkAt + hkLen]).AgreedPair(0)
      ensures r.Some? ==> (guess <==> r.value.0.name == Split(data[kexAt..kexAt + kexLen])[0])
    {
      ghost var offer := TheOffer(data[kexAt..kexAt + kexLen], data[hkAt..hkAt + hkLen]);
      hide Split, AgreedHostkey, Lookup, Candidates, Pref, WellNamed, Supported;
      var kexCands := Candidates(Pref(Kex), tables.kex);
      var hkCands := Candidates(Pref(HostKey), tables.hostkey);
      CandidatesAreCommaFree(Pref(Kex), tables.kex);
      CandidatesAreCommaFree(Pref(HostKey), tables.hostkey);
      for i := 0 to |kexCands|
        invariant offer.AgreedPair(0) == offer.AgreedPair(i)
      {
        var q := SearchList(data, kexAt, kexLen, kexCands[i]);
        if q.Some? {
          var m := GetMethodByName(kexCands[i], tables.kex);
          if m.None? {
            return None, false;
          }
          var h := AgreeHostkey(m.value.flags, data, hkAt, hkLen, hkCands, tables.hostkey);
          if h.Some? {
            return Some((m.value, h.value)), q == Some(0);
          }
        }
      }
      return None, false;
    }

    /** `kex_agree_kex_hostkey`. A guessed packet is kept (the flag that it is to be ignored is
        cleared) exactly when the agreed method is the first name on the server's list. */
    method AgreeKexHostkey(data: seq<byte>, kexAt: nat, kexLen: nat, hkAt: nat, hkLen: nat) returns (rc: int)
      requires Valid() && kexAt + kexLen < |data| && hkAt + hkLen < |data|
      modifies this`kex, this`hostkey, this`burnOptimistic
      ensures Valid()
      ensures var server := data[kexAt..kexAt + kexLen];
              match TheOffer(server, data[hkAt..hkAt + hkLen]).AgreedPair(0)
              case Some((k, h)) =>
                && rc == 0 && kex == Some(k) && hostkey == Some(h)
                && burnOptimistic == (old(burnOptimistic) && k.name != Split(server)[0])
              case None =>
                rc == -1 && kex == old(kex) && hostkey == old(hostkey) && burnOptimistic == old(burnOptimistic)
    {
      hide Split, TheOffer;
      var r, guess := SearchPair(data, kexAt, kexLen, hkAt, hkLen);
      if r.None? {
        return -1;
      }
      kex, hostkey := Some(r.value.0), Some(r.value.1);
      if burnOptimistic && guess {
        burnOptimistic := false;
      }
      return 0;
    }

    /** Every pair of lists has a usable common name. */
    ghost predicate Agreement(l: seq<seq<byte>>)
      requires |l| == 8
      reads this`prefs
    {
      TheOffer(l[0], l[1]).AgreedPair(0).Some? && CryptAgreed(l[2], l[3]) && MacAgreed(l[4], l[5]) && CompAgreed(l[6], l[7])
    }

    /** The key exchange method agreed on is the first on the other side's list. */
    ghost predicate Guessed(l: seq<seq<byte>>)
      requires |l| == 8
      reads this`prefs
    {
      var pair := TheOffer(l[0], l[1]).AgreedPair(0);
      pair.Some? && pair.value.0.name == Split(l[0])[0]
    }

    /** The session holds the methods these lists lead to. */
    ghost predicate Chosen(l: seq<seq<byte>>)
      requires |l| == 8
      reads this
    {
      && kex.Some? && hostkey.Some? && TheOffer(l[0], l[1]).AgreedPair(0) == Some((kex.value, hostkey.value))
      && CryptChosen(l[2], l[3]) && MacChosen(l[4], l[5]) && CompChosen(l[6], l[7])
    }

    /** `kex_agree_methods`: everything is agreed exactly when the packet parses and every pair
        of lists has a usable common name. */
    method AgreeMethods(data: seq<byte>) returns (rc: int)
      requires Valid()
      modifies this`kex, this`hostkey, this`burnOptimistic, this`localCrypt, this`remoteCrypt,
               this`localMac, this`remoteMac, this`localComp, this`remoteComp
      ensures Valid()
      ensures rc == 0 <==> ParseKexInit(data).Some? && Agreement(ParseKexInit(data).value.0)
      ensures rc == 0 ==>
        var (lists, follows) := ParseKexInit(data).value;
        && Chosen(lists) && burnOptimistic == (follows != 0 && kex.value.name != Split(lists[0])[0])
      ensures rc == 0 || rc == -1
      ensures ParseKexInit(data).None? ==> burnOptimistic == old(burnOptimistic)
      ensures ParseKexInit(data).Some? ==>
        var (lists, follows) := ParseKexInit(data).value;
        burnOptimistic == (follows != 0 && !Guessed(lists))
    {
      if |data| < 17 {
        return -1;
      }
      var l, at, ok := LocateStrings(data);
      if !ok {
        return -1;
      }
      burnOptimistic := data[at] != 0;
      ghost var lists := ParseKexInit(data).value.0;
      assert Texts(data, l) == lists;
      hide Agreement, Chosen, Guessed;
      rc := AgreeLists(data, l);
    }

    static ghost function Texts(data: seq<byte>, l: seq<Span>): (r: seq<seq<byte>>)
      requires forall i :: 0 <= i < |l| ==> l[i].at + l[i].len <= |data|
      ensures |r| == |l|
    {
      seq(|l|, i requires 0 <= i < |l| => data[l[i].at..l[i].at + l[i].len])
    }

    method AgreeLists(data: seq<byte>, l: seq<Span>) returns (rc: int)
      requires Valid() && |l| == 8 && forall i :: 0 <= i < 8 ==> l[i].at + l[i].len < |data|
      modifies this`kex, this`hostkey, this`burnOptimistic, this`localCrypt, this`remoteCrypt,
               this`localMac, this`remoteMac, this`localComp, this`remoteComp
      ensures Valid()
      ensures rc == 0 || rc == -1
      ensures burnOptimistic == (old(burnOptimistic) && !Guessed(Texts(data, l)))
      ensures rc == 0 <==> Agreement(Texts(data, l))
      ensures rc == 0 ==>
        && Chosen(Texts(data, l))
        && burnOptimistic == (old(burnOptimistic) && kex.value.name != Split(Texts(data, l)[0])[0])
    {
      hide Split, TheOffer, Offer.AgreedPair, Valid, CryptAgreed, CryptChosen, MacAgreed, MacChosen, CompAgreed, CompChosen;
      rc := AgreeKexHostkey(data, l[0].at, l[0].len, l[1].at, l[1].len);
      if rc != 0 {
        return -1;
      }
      var ok := AgreeCrypt(data, l[2], l[3]);
      if !ok {
        return -1;
      }
      ok := AgreeMac(data, l[4], l[5]);
      if !ok {
        return -1;
      }
      ok := AgreeComp(data, l[6], l[7]);
      return if ok then 0 else -1;
    }

    ghost predicate CryptAgreed(cs: seq<byte>, sc: seq<byte>)
      reads this`prefs
    {
      Agreed(Pref(CryptCS), tables.crypt, Split(cs)).Some? && Agreed(Pref(CryptSC), tables.crypt, Split(sc)).Some?
    }

    ghost predicate CryptChosen(cs: seq<byte>, sc: seq<byte>)
      reads this`prefs, this`localCrypt, this`remoteCrypt
    {
      && localCrypt == Agreed(Pref(CryptCS), tables.crypt, Split(cs))
      && remoteCrypt == Agreed(Pref(CryptSC), tables.crypt, Split(sc))
    }

    method AgreeCrypt(data: seq<byte>, cs: Span, sc: Span) returns (ok: bool)
      requires Valid() && cs.at + cs.len < |data| && sc.at + sc.len < |data|
      modifies this`localCrypt, this`remoteCrypt
      ensures Valid()
      ensures ok <==> CryptAgreed(data[cs.at..cs.at + cs.len], data[sc.at..sc.at + sc.len])
      ensures ok ==> CryptChosen(data[cs.at..cs.at + cs.len], data[sc.at..sc.at + sc.len])
    {
      hide Split, FirstListed, Lookup;
      var m := AgreeMethod(data, cs.at, cs.len, Pref(CryptCS), tables.crypt);
      if m.None? {
        return false;
      }
      localCrypt := m;
      m := AgreeMethod(data, sc.at, sc.len, Pref(CryptSC), tables.crypt);
      if m.None? {
        return false;
      }
      remoteCrypt := m;
      return true;
    }

    ghost predicate MacAgreed(cs: seq<byte>, sc: seq<byte>)
      reads this`prefs
    {
      Agreed(Pref(MacCS), tables.mac, Split(cs)).Some? && Agreed(Pref(MacSC), tables.mac, Split(sc)).Some?
    }

    ghost predicate MacChosen(cs: seq<byte>, sc: seq<byte>)
      reads this`prefs, this`localMac, this`remoteMac
    {
      && localMac == Agreed(Pref(MacCS), tables.mac, Split(cs))
      && remoteMac == Agreed(Pref(MacSC), tables.mac, Split(sc))
    }

    method AgreeMac(data: seq<byte>, cs: Span, sc: Span) returns (ok: bool)
      requires Valid() && cs.at + cs.len < |data| && sc.at + sc.len < |data|
      modifies this`localMac, this`remoteMac
      ensures Valid()
      ensures ok <==> MacAgreed(data[cs.at..cs.at + cs.len], data[sc.at..sc.at + sc.len])
      ensures ok ==> MacChosen(data[cs.at..cs.at + cs.len], data[sc.at..sc.at + sc.len])
    {
      hide Split, FirstListed, Lookup;
      var m := AgreeMethod(data, cs.at, cs.len, Pref(MacCS), tables.mac);
      if m.None? {
        return false;
      }
      localMac := m;
      m := AgreeMethod(data, sc.at, sc.len, Pref(MacSC), tables.mac);
      if m.None? {
        return false;
      }
      remoteMac := m;
      return true;
    }

    ghost predicate CompAgreed(cs: seq<byte>, sc: seq<byte>)
      reads this`prefs
    {
      Agreed(Pref(CompCS), tables.comp, Split(cs)).Some? && Agreed(Pref(CompSC), tables.comp, Split(sc)).Some?
    }

    ghost predicate CompChosen(cs: seq<byte>, sc: seq<byte>)
      reads this`prefs, this`localComp, this`remoteComp
    {
      && localComp == Agreed(Pref(CompCS), tables.comp, Split(cs))
      && remoteComp == Agreed(Pref(CompSC), tables.comp, Split(sc))
    }

    method AgreeComp(data: seq<byte>, cs: Span, sc: Span) returns (ok: bool)
      requires Valid() && cs.at + cs.len < |data| && sc.at + sc.len < |data|
      modifies this`localComp, this`remoteComp
      ensures Valid()
      ensures ok <==> CompAgreed(data[cs.at..cs.at + cs.len], data[sc.at..sc.at + sc.len])
      ensures ok ==> CompChosen(data[cs.at..cs.at + cs.len], data[sc.at..sc.at + sc.len])
    {
      hide Split, FirstListed, Lookup;
      var m := AgreeMethod(data, cs.at, cs.len, Pref(CompCS), tables.comp);
      if m.None? {
        return false;
      }
      localComp := m;
      m := AgreeMethod(data, sc.at, sc.len, Pref(CompSC), tables.comp);
      if m.None? {
        return false;
      }
      remoteComp := m;
      return true;
    }
  }

  /** The lists of a packet as the names a session offers, in the order of section 7.1 of RFC 4253: key exchange,
      host key, and each of cipher, MAC and compression first to and then from the server. */
  ghost predicate Offers(s: Session, l: seq<seq<byte>>)
    reads s`prefs
  {
    && |l| == 8
    && Split(l[0]) == Candidates(s.Pref(Kex), s.tables.kex)
    && Split(l[1]) == Candidates(s.Pref(HostKey), s.tables.hostkey)
    && Split(l[2]) == Candidates(s.Pref(CryptCS), s.tables.crypt)
    && Split(l[3]) == Candidates(s.Pref(CryptSC), s.tables.crypt)
    && Split(l[4]) == Candidates(s.Pref(MacCS), s.tables.mac)
    && Split(l[5]) == Candidates(s.Pref(MacSC), s.tables.mac)
    && Split(l[6]) == Candidates(s.Pref(CompCS), s.tables.comp)
    && Split(l[7]) == Candidates(s.Pref(CompSC), s.tables.comp)
  }

  /** No table is empty, and the lists fit their length fields. */
  ghost predicate Sendable(s: Session)
    reads s`prefs
  {
    && s.tables.kex != [] && s.tables.hostkey != [] && s.tables.crypt != [] && s.tables.mac != [] && s.tables.comp != []
    && Representable(s.Lists())
  }

  lemma FieldIsOffer(tables: Tables, prefs: map<MethodType, seq<byte>>, t: MethodType, table: seq<Method>)
    requires tables.MethodList(t) == Some(table) && WellNamed(table) && table != []
    ensures Split(tables.FieldText(prefs, t)) == Candidates(if t in prefs then Some(prefs[t]) else None, table)
  {
    if t !in prefs {
      assert Names(table) != [];
      assert forall i :: 0 <= i < |Names(table)| ==> COMMA !in Names(table)[i];
      SplitJoin(Names(table));
    }
  }

  /** What is read out of the packet a session builds is what the session offers. */
  lemma PacketOffers(s: Session, cookie: seq<byte>)
    requires s.Valid() && Sendable(s) && |cookie| == 16
    ensures var r := ParseKexInit(KexInitPacket(cookie, s.Lists(), 0));
            r.Some? && Offers(s, r.value.0)
  {
    hide ParseKexInit, KexInitPacket, Split, Join, Candidates, WellNamed, Supported;
    var l := s.Lists();
    ParseOfPacket(cookie, l, 0);
    FieldIsOffer(s.tables, s.prefs, Kex, s.tables.kex);
    FieldIsOffer(s.tables, s.prefs, HostKey, s.tables.hostkey);
    FieldIsOffer(s.tables, s.prefs, CryptCS, s.tables.crypt);
    FieldIsOffer(s.tables, s.prefs, CryptSC, s.tables.crypt);
    FieldIsOffer(s.tables, s.prefs, MacCS, s.tables.mac);
    FieldIsOffer(s.tables, s.prefs, MacSC, s.tables.mac);
    FieldIsOffer(s.tables, s.prefs, CompCS, s.tables.comp);
    FieldIsOffer(s.tables, s.prefs, CompSC, s.tables.comp);
  }

  /** What both sides offer if the other side offers the same. */
  ghost function SameOffer(s: Session): Offer
    reads s`prefs
  {
    var kex, hostkey := Candidates(s.Pref(Kex), s.tables.kex), Candidates(s.Pref(HostKey), s.tables.hostkey);
    Offer(kex, s.tables.kex, kex, hostkey, s.tables.hostkey, hostkey)
  }

  /** Some key exchange and host key method on offer fit together. */
  ghost predicate HasPair(s: Session)
    reads s`prefs
  {
    exists i, j :: SameOffer(s).Acceptable(i, j)
  }

  lemma OfferSupported(s: Session, t: MethodType)
    requires s.Valid() && s.tables.MethodList(t).Some? && s.tables.MethodList(t).value != []
    ensures var table := s.tables.MethodList(t).value;
            var cands := Candidates(s.Pref(t), table);
            && Supported(cands, table) && cands != [] && cands[0] in Names(table) && cands[0] != []
            && Agreed(s.Pref(t), table, cands) == Lookup(cands[0], table) && Lookup(cands[0], table).Some?
  {
    var table := s.tables.MethodList(t).value;
    var cands := Candidates(s.Pref(t), table);
    assert cands[0] in cands;
    assert Names(table)[0] in Names(table);
    LookupOf(cands[0], table);
  }

  lemma LookupOf(name: Name, table: seq<Method>)
    requires name in Names(table) && WellNamed(table)
    ensures name != [] && Lookup(name, table).Some?
  {
    var i :| 0 <= i < |Names(table)| && Names(table)[i] == name;
    LookupOwnName(table, i);
  }

  /** Two sessions with the same tables and preferences: what one makes of the other's packet is success if and
      only if some pair of methods they offer fits together; then every other method is the first preference. */
  method AgreeWithPeer(s: Session, peer: Session, cookie: seq<byte>) returns (rc: int)
    requires s.Valid() && peer.Valid() && s.tables == peer.tables && s.prefs == peer.prefs && Sendable(peer) && |cookie| == 16
    modifies s`kex, s`hostkey, s`burnOptimistic, s`localCrypt, s`remoteCrypt,
             s`localMac, s`remoteMac, s`localComp, s`remoteComp
    ensures rc == 0 <==> HasPair(s)
    ensures rc == 0 ==>
              && s.localCrypt == Lookup(Candidates(s.Pref(CryptCS), s.tables.crypt)[0], s.tables.crypt)
              && s.remoteCrypt == Lookup(Candidates(s.Pref(CryptSC), s.tables.crypt)[0], s.tables.crypt)
              && s.localMac == Lookup(Candidates(s.Pref(MacCS), s.tables.mac)[0], s.tables.mac)
              && s.remoteMac == Lookup(Candidates(s.Pref(MacSC), s.tables.mac)[0], s.tables.mac)
              && s.localComp == Lookup(Candidates(s.Pref(CompCS), s.tables.comp)[0], s.tables.comp)
              && s.remoteComp == Lookup(Candidates(s.Pref(CompSC), s.tables.comp)[0], s.tables.comp)
  {
    hide ParseKexInit, KexInitPacket, Split, Candidates, WellNamed, Supported, Session.Valid, Lookup, Agreed,
         Offer.AgreedPair, HasPair;
    PacketOffers(peer, cookie);
    var packet := peer.BuildKexInit(cookie);
    ghost var l := ParseKexInit(packet[..]).value.0;
    PairExactly(s, l);
    OfferSupported(s, CryptCS);
    OfferSupported(s, CryptSC);
    OfferSupported(s, MacCS);
    OfferSupported(s, MacSC);
    OfferSupported(s, CompCS);
    OfferSupported(s, CompSC);
    rc := s.AgreeMethods(packet[..]);
  }

  lemma PairExactly(s: Session, l: seq<seq<byte>>)
    requires s.Valid() && Offers(s, l) && s.tables.kex != [] && s.tables.hostkey != []
    ensures s.TheOffer(l[0], l[1]).AgreedPair(0).Some? <==> HasPair(s)
  {
    hide Split, Candidates, WellNamed, Lookup, Agreed, Offer.AgreedPair, Offer.Acceptable;
    OfferSupported(s, Kex);
    OfferSupported(s, HostKey);
    var i, j := SameOffer(s).FirstPair(0);
    if SameOffer(s).AgreedPair(0).None? {
      forall i', j' ensures !SameOffer(s).Acceptable(i', j') {
        if i' < 0 {
          NotBelow(SameOffer(s), i', j');
        }
      }
    }
  }

  lemma NotBelow(offer: Offer, i: int, j: int)
    ensures offer.Acceptable(i, j) ==> i >= 0
  {
  }
}
