/** What the associations of plugins/ims_esp/packet-ims-esp.c say: field by field, of a frame
    and the keys and SPIs known by it (3GPP TS 33.203, Annexes H and I). */
module EspAssociations {
  import opened Basics
  import opened Options
  import opened EspHeader
  import opened EspRecords
  import opened EspRuns

  // ----------------------------------------------------------- reading a line --

  /** The fields of a line of the table: in quotes, with commas between. */
  function Fields(line: string): seq<string>
    decreases |line|
  {
    if line == "" || line[0] != '\"' then []
    else
      var end := Find(line, '\"', 1);
      if end == |line| then []
      else [line[1..end]] + (if end + 1 < |line| && line[end + 1] == ',' then Fields(line[end + 2..]) else [])
  }

  lemma {:induction false} LineCons(field: string, fields: seq<string>)
    ensures Line([field] + fields) == "\"" + field + "\"" + (if fields == [] then "" else "," + Line(fields))
    decreases |fields|
  {
    var all := [field] + fields;
    if fields == [] {
      assert all[..0] == [];
      assert Line(all) == "" + "" + "\"" + field + "\"";
    } else {
      var n := |fields| - 1;
      assert all[..|all| - 1] == [field] + fields[..n];
      LineCons(field, fields[..n]);
      LineGrows("\"" + field + "\"", fields[..n], fields[n], fields);
    }
  }

  lemma LineGrows(first: string, init: seq<string>, last: string, fields: seq<string>)
    requires fields == init + [last]
    ensures first + (if init == [] then "" else "," + Line(init)) + "," + "\"" + last + "\"" == first + ("," + Line(fields))
  {
    assert fields[..|fields| - 1] == init;
    if init == [] {
      assert Line(fields) == "" + "" + "\"" + last + "\"";
    }
  }

  ghost predicate Unquotable(fields: seq<string>) {
    forall i :: 0 <= i < |fields| ==> '\"' !in fields[i]
  }

  lemma FindQuote(field: string, rest: string)
    requires '\"' !in field
    ensures Find("\"" + field + "\"" + rest, '\"', 1) == |field| + 1
  {
    var s := "\"" + field + "\"" + rest;
    assert s[|field| + 1] == '\"' && forall i :: 0 <= i < |field| ==> s[i + 1] == field[i];
  }

  /** Fields without quotes in them come back from their line. */
  lemma {:induction false} FieldsOfLine(fields: seq<string>)
    requires Unquotable(fields)
    ensures Fields(Line(fields)) == fields
    decreases |fields|
  {
    if fields != [] {
      var field, rest := fields[0], fields[1..];
      assert fields == [field] + rest;
      FieldsOfLine(rest);
      LineCons(field, rest);
      var more := if rest == [] then "" else "," + Line(rest);
      FindQuote(field, more);
      var line := "\"" + field + "\"" + more;
      assert line[1..|field| + 1] == field;
      if rest != [] {
        assert line[|field| + 2] == ',' && line[|field| + 3..] == Line(rest);
      }
    }
  }

  // -------------------------------------------------------------- what is agreed --

  /** The encryption of an association and its key: none, or the cipher key itself, or that
      with its first half once more. */
  predicate Encrypted(m: Mech, ck: Option<string>, enc: string, key: string) {
    || (m.ealg == Some("null") && enc == "NULL" && key == "")
    || (m.ealg == Some("aes-cbc") && ck.Some? && enc == "AES-CBC [RFC3602]" && key == "0x" + ck.value)
    || (m.ealg == Some("des-ede3-cbc") && ck.Some? && |ck.value| == 32 && enc == "TripleDES-CBC [RFC2451]"
        && key == "0x" + ck.value + ck.value[..16])
  }

  /** Its authentication and the key of that: the integrity key itself, or that and zeros; and
      where the algorithm is not one of the two, whatever has 96 bits. */
  predicate Authentic(m: Mech, ik: string, auth: string, key: string) {
    if m.alg == Some("hmac-md5-96") then auth == "HMAC-MD5-96 [RFC2403]" && key == "0x" + ik
    else if m.alg == Some("hmac-sha-1-96") then auth == "HMAC-SHA-1-96 [RFC2404]" && key == "0x" + ik + "00000000"
    else auth == "ANY 96 bit authentication [no checking]" && key == "0x" + ik
  }

  /** An SPI as a party spelled it, and as the table has it. */
  ghost predicate SpelledSpi(raw: Option<string>, spi: string) {
    raw.Some? && IsU32(raw.value) && |spi| == 10 && spi[..2] == "0x" && Unhex(spi[2..]) == Decimal(raw.value)
    && forall i :: 2 <= i < 10 ==> '0' <= spi[i] <= '9' || 'a' <= spi[i] <= 'f'
  }

  lemma SpiSpelled(raw: Option<string>)
    ensures Spi(raw).Some? ==> SpelledSpi(raw, Spi(raw).value)
  {
    if Spi(raw).Some? {
      SpiReads(raw.value);
      HexIsHex(Decimal(raw.value), 8);
    }
  }

  lemma {:induction false} HexIsHex(n: nat, digits: nat)
    ensures forall i :: 0 <= i < digits ==> '0' <= Hex(n, digits)[i] <= '9' || 'a' <= Hex(n, digits)[i] <= 'f'
  {
    if digits > 0 {
      HexIsHex(n / 16, digits - 1);
    }
  }

  /** Two hex numbers of the same length that read alike are alike. */
  lemma {:induction false} SameHex(a: string, b: string)
    requires |a| == |b| && Unhex(a) == Unhex(b)
    requires forall i :: 0 <= i < |a| ==> '0' <= a[i] <= '9' || 'a' <= a[i] <= 'f'
    requires forall i :: 0 <= i < |b| ==> '0' <= b[i] <= '9' || 'a' <= b[i] <= 'f'
    ensures a == b
  {
    if a != "" {
      var n := |a| - 1;
      SameHex(a[..n], b[..n]);
      assert a == a[..n] + [a[n]] && b == b[..n] + [b[n]];
    }
  }

  /** Everything there has to be for an association. */
  ghost predicate AllThere(f: Frame, keys: Option<Keys>) {
    && OfferIn(f.server).Some? && keys.Some? && !f.src.family.OtherFamily? && f.src.family == f.dst.family
    && var m := OfferIn(f.server).value;
    && m.prot != Some("ah")
    && (m.ealg == Some("null") || ((m.ealg == Some("aes-cbc") || m.ealg == Some("des-ede3-cbc")) && keys.value.ck.Some?))
  }

  lemma AgreedWhen(f: Frame, keys: Option<Keys>)
    ensures Agreement(f, keys).Some? <==> AllThere(f, keys)
  {
    Ciphers();
  }

  lemma Ciphers()
    ensures "NULL" != "AES-CBC [RFC3602]" && "NULL" != "TripleDES-CBC [RFC2451]"
  {
    assert |"NULL"| == 4 && |"AES-CBC [RFC3602]"| == 17 && |"TripleDES-CBC [RFC2451]"| == 23;
  }

  lemma AgreedSays(f: Frame, keys: Option<Keys>)
    requires Agreement(f, keys).Some? && (keys.Some? && keys.value.ck.Some? ==> |keys.value.ck.value| == 32)
    ensures var a, m := Agreement(f, keys).value, OfferIn(f.server).value;
      && a.proto == (if f.src.family.V4? then "IPv4" else "IPv6")
      && Encrypted(m, keys.value.ck, a.enc, a.encKey) && Authentic(m, keys.value.ik, a.auth, a.authKey)
  {
    Ciphers();
  }

  // --------------------------------------------------------------- associations --

  /** An association from one party to another under an SPI, with all that is agreed. */
  ghost predicate Says(f: Frame, keys: Keys, fields: seq<string>, from: string, to: string, spi: string) {
    && |fields| == 8 && OfferIn(f.server).Some?
    && fields[0] == (if f.src.family.V4? then "IPv4" else "IPv6")
    && fields[1] == from && fields[2] == to && fields[3] == spi
    && Encrypted(OfferIn(f.server).value, keys.ck, fields[4], fields[5])
    && Authentic(OfferIn(f.server).value, keys.ik, fields[6], fields[7])
  }

  /** Keys as they are told: 32 hex digits, in small letters. */
  predicate Told(key: string) {
    |key| == 32 && forall i :: 0 <= i < 32 ==> '0' <= key[i] <= '9' || 'a' <= key[i] <= 'f'
  }

  predicate KeysTold(keys: Keys) {
    Told(keys.ik) && (keys.ck.Some? ==> Told(keys.ck.value))
  }

  lemma RecordSays(f: Frame, keys: Keys, from: string, to: string, spi: string)
    requires Agreement(f, Some(keys)).Some? && KeysTold(keys)
    requires '\"' !in from && '\"' !in to && '\"' !in spi
    ensures Says(f, keys, Fields(Record(Agreement(f, Some(keys)).value, from, to, spi)), from, to, spi)
  {
    var a := Agreement(f, Some(keys)).value;
    AgreedSays(f, Some(keys));
    NoQuotes(f, keys, a);
    EightFields(a, from, to, spi);
  }

  lemma EightFields(a: Agreed, from: string, to: string, spi: string)
    requires '\"' !in from && '\"' !in to && '\"' !in spi
    requires '\"' !in a.proto && '\"' !in a.enc && '\"' !in a.encKey && '\"' !in a.auth && '\"' !in a.authKey
    ensures Fields(Record(a, from, to, spi)) == [a.proto, from, to, spi, a.enc, a.encKey, a.auth, a.authKey]
  {
    FieldsOfLine([a.proto, from, to, spi, a.enc, a.encKey, a.auth, a.authKey]);
  }

  lemma NoQuotes(f: Frame, keys: Keys, a: Agreed)
    requires Agreement(f, Some(keys)) == Some(a) && KeysTold(keys)
    ensures '\"' !in a.proto && '\"' !in a.enc && '\"' !in a.encKey && '\"' !in a.auth && '\"' !in a.authKey
  {
    NoQuotesEncrypted(f, keys, a);
    NoQuotesAuthentic(f, keys, a);
  }

  lemma NoQuotesEncrypted(f: Frame, keys: Keys, a: Agreed)
    requires Agreement(f, Some(keys)) == Some(a) && KeysTold(keys)
    ensures '\"' !in a.proto && '\"' !in a.enc && '\"' !in a.encKey
  {
    if keys.ck.Some? {
      NoQuotesKey(keys.ck.value);
    }
    CipherNames();
  }

  lemma NoQuotesAuthentic(f: Frame, keys: Keys, a: Agreed)
    requires Agreement(f, Some(keys)) == Some(a) && KeysTold(keys)
    ensures '\"' !in a.auth && '\"' !in a.authKey
  {
    NoQuotesKey(keys.ik);
    AuthNames();
  }

  lemma CipherNames()
    ensures '\"' !in "NULL" && '\"' !in "AES-CBC [RFC3602]" && '\"' !in "TripleDES-CBC [RFC2451]"
    ensures '\"' !in "IPv4" && '\"' !in "IPv6"
  {
  }

  lemma AuthNames()
    ensures '\"' !in "HMAC-MD5-96 [RFC2403]" && '\"' !in "HMAC-SHA-1-96 [RFC2404]"
    ensures '\"' !in "ANY 96 bit authentication [no checking]"
  {
  }

  lemma NoQuotesKey(key: string)
    requires Told(key)
    ensures '\"' !in "0x" + key && '\"' !in "0x" + key + key[..16] && '\"' !in "0x" + key + "00000000"
  {
    assert forall c :: c in key ==> '0' <= c <= '9' || 'a' <= c <= 'f';
    assert forall c :: c in key[..16] ==> c in key;
  }

  /** The SPIs a party offered. */
  ghost predicate ServerSpi(f: Frame, spi: string) {
    OfferIn(f.server).Some?
    && (SpelledSpi(OfferIn(f.server).value.spiC, spi) || SpelledSpi(OfferIn(f.server).value.spiS, spi))
  }

  predicate ClientSpi(client: Option<Spis>, spi: string) {
    client.Some? && (client.value.c == Some(spi) || client.value.s == Some(spi))
  }

  lemma ServerSpis(f: Frame, spi: string)
    requires OfferIn(f.server).Some?
    ensures spi in SpiList(SpisOf(OfferIn(f.server).value)) <==> ServerSpi(f, spi)
  {
    var m := OfferIn(f.server).value;
    SpiSpelled(m.spiC);
    SpiSpelled(m.spiS);
    if SpelledSpi(m.spiC, spi) {
      SameSpi(m.spiC, spi, Spi(m.spiC).value);
    }
    if SpelledSpi(m.spiS, spi) {
      SameSpi(m.spiS, spi, Spi(m.spiS).value);
    }
  }

  lemma SameSpi(raw: Option<string>, a: string, b: string)
    requires SpelledSpi(raw, a) && SpelledSpi(raw, b)
    ensures a == b
  {
    SameHex(a[2..], b[2..]);
    assert a == a[..2] + a[2..] && b == b[..2] + b[2..];
  }

  // ------------------------------------------------------------- over all runs --

  /** A value that is 32 hex digits, in quotes or not, and those digits in small letters. */
  ghost predicate KeyIn(value: Option<string>, key: string) {
    value.Some? && exists x: string :: Quotes(value.value, x) && |x| == 32 && Lowers(x, key)
  }

  predicate Lowers(x: string, key: string) {
    |key| == |x| && forall i :: 0 <= i < |x| ==>
      if 'A' <= x[i] <= 'F' then key[i] as int == x[i] as int + 32
      else key[i] == x[i] && ('0' <= x[i] <= '9' || 'a' <= x[i] <= 'f')
  }

  lemma KeyOfIs(value: Option<string>, key: string)
    ensures KeyOf(value) == Some(key) <==> KeyIn(value, key)
    ensures KeyIn(value, key) ==> Told(key)
  {
    if value.Some? {
      KeyIsHex(value.value, key);
      forall x: string | |x| == 32 ensures IsKey(x) && key == Lowered(x) <==> Lowers(x, key) {
        LowersIs(x, key);
      }
    }
  }

  lemma LowersIs(x: string, key: string)
    requires |x| == 32
    ensures IsKey(x) && key == Lowered(x) <==> Lowers(x, key)
  {
    if IsKey(x) && key == Lowered(x) {
      forall i | 0 <= i < 32 ensures if 'A' <= x[i] <= 'F' then key[i] as int == x[i] as int + 32
                                     else key[i] == x[i] && ('0' <= x[i] <= '9' || 'a' <= x[i] <= 'f') {
        assert IsXDigit(x[i]) && key[i] == Lower(x[i]);
      }
    }
    if Lowers(x, key) {
      assert forall i :: 0 <= i < 32 ==> IsXDigit(x[i]) && key[i] == Lower(x[i]);
      assert key == Lowered(x);
    }
  }

  /** A frame brings keys exactly if its IK is one: that, and its CK if that is one. */
  lemma KeysBrought(f: Frame, keys: Keys)
    ensures KeysIn(f) == Some(keys) <==>
      KeyIn(f.ik, keys.ik) && if keys.ck.Some? then KeyIn(f.ck, keys.ck.value) else forall k :: !KeyIn(f.ck, k)
  {
    KeyOfIs(f.ik, keys.ik);
    if keys.ck.Some? {
      KeyOfIs(f.ck, keys.ck.value);
    } else {
      forall k ensures KeyOf(f.ck) == Some(k) <==> KeyIn(f.ck, k) {
        KeyOfIs(f.ck, k);
      }
    }
  }

  /** It brings SPIs exactly if its Security-Client offers some, each as it is spelled. */
  lemma SpisBrought(f: Frame, spis: Spis)
    ensures ClientIn(f) == Some(spis) ==> OfferIn(f.client).Some?
    ensures OfferIn(f.client).Some? ==> ClientIn(f).Some?
    ensures ClientIn(f) == Some(spis) ==>
      var m := OfferIn(f.client).value;
      && (spis.c.Some? ==> SpelledSpi(m.spiC, spis.c.value)) && (spis.s.Some? ==> SpelledSpi(m.spiS, spis.s.value))
      && (spis.c.None? ==> m.spiC.None? || !IsU32(m.spiC.value)) && (spis.s.None? ==> m.spiS.None? || !IsU32(m.spiS.value))
  {
    if OfferIn(f.client).Some? {
      SpiSpelled(OfferIn(f.client).value.spiC);
      SpiSpelled(OfferIn(f.client).value.spiS);
    }
  }

  /** Everything known is told as it should be. */
  ghost predicate AllTold(s: State) {
    && (forall c :: c in s.keys ==> KeysTold(s.keys[c]))
    && (forall c, spi :: c in s.clients && ClientSpi(Some(s.clients[c]), spi) ==> '\"' !in spi)
  }

  lemma LearnTold(s: State, f: Frame)
    requires AllTold(s)
    ensures AllTold(Learn(s, f))
  {
    if KeysIn(f).Some? {
      BroughtTold(f);
    }
    if ClientIn(f).Some? {
      BroughtClean(f);
    }
  }

  lemma BroughtTold(f: Frame)
    requires KeysIn(f).Some?
    ensures KeysTold(KeysIn(f).value)
  {
    var keys := KeysIn(f).value;
    KeyOfIs(f.ik, keys.ik);
    if keys.ck.Some? {
      KeyOfIs(f.ck, keys.ck.value);
    }
  }

  lemma BroughtClean(f: Frame)
    requires ClientIn(f).Some?
    ensures forall spi :: ClientSpi(ClientIn(f), spi) ==> '\"' !in spi
  {
    SpisBrought(f, ClientIn(f).value);
    forall spi | ClientSpi(ClientIn(f), spi) ensures '\"' !in spi {
      SpelledClean(OfferIn(f.client).value, spi);
    }
  }

  lemma SpelledClean(m: Mech, spi: string)
    requires SpelledSpi(m.spiC, spi) || SpelledSpi(m.spiS, spi)
    ensures '\"' !in spi
  {
    assert spi[0] == spi[..2][0] && spi[1] == spi[..2][1];
    assert forall c :: c in spi ==> c == '0' || c == 'x' || '0' <= c <= '9' || 'a' <= c <= 'f';
  }

  lemma {:induction false} RunTold(events: seq<Event>)
    ensures AllTold(After(events))
    decreases |events|
  {
    if events != [] {
      var n := |events| - 1;
      var s := After(events[..n]);
      RunTold(events[..n]);
      if events[n].Dissection? {
        LearnTold(s, events[n].frame);
        InstallAllOnly(Learn(s, events[n].frame), events[n].frame, Derived(Learn(s, events[n].frame), events[n].frame));
      }
    }
  }

  /** It is an association on the way to the P-CSCF, that the frame comes from, under an SPI the
      P-CSCF offered; or one on the way to the UE under an SPI of the UE. */
  ghost predicate IsAssociation(f: Frame, keys: Option<Keys>, client: Option<Spis>, record: string) {
    keys.Some?
    && ((exists spi :: ServerSpi(f, spi) && Says(f, keys.value, Fields(record), f.dst.text, f.src.text, spi))
        || (exists spi :: ClientSpi(client, spi) && Says(f, keys.value, Fields(record), f.src.text, f.dst.text, spi)))
  }

  lemma RecordIsAssociation(f: Frame, keys: Option<Keys>, client: Option<Spis>, record: string)
    requires record in RecordsOf(f, keys, client) && keys.Some? && KeysTold(keys.value)
    requires '\"' !in f.src.text && '\"' !in f.dst.text && forall spi :: ClientSpi(client, spi) ==> '\"' !in spi
    ensures IsAssociation(f, keys, client, record)
  {
    var m, a := OfferIn(f.server).value, Agreement(f, keys).value;
    RecordsAre(f, keys, client, record);
    var offered := SpiList(SpisOf(m));
    if i :| 0 <= i < |offered| && record == Record(a, f.dst.text, f.src.text, offered[i]) {
      ServerSpis(f, offered[i]);
      SpelledClean(m, offered[i]);
      RecordSays(f, keys.value, f.dst.text, f.src.text, offered[i]);
    } else {
      var spis := SpiList(client.value);
      var i :| 0 <= i < |spis| && record == Record(a, f.src.text, f.dst.text, spis[i]);
      assert ClientSpi(client, spis[i]);
      RecordSays(f, keys.value, f.src.text, f.dst.text, spis[i]);
    }
  }

  /** Some record among these is such an association. */
  ghost predicate Shows(f: Frame, keys: Keys, records: seq<string>, from: string, to: string, spi: string) {
    exists r :: r in records && Says(f, keys, Fields(r), from, to, spi)
  }

  lemma EachSpi(f: Frame, keys: Option<Keys>, client: Option<Spis>, spi: string)
    requires Agreement(f, keys).Some? && keys.Some? && KeysTold(keys.value)
    requires '\"' !in f.src.text && '\"' !in f.dst.text
    ensures ServerSpi(f, spi) ==> Shows(f, keys.value, RecordsOf(f, keys, client), f.dst.text, f.src.text, spi)
    ensures ClientSpi(client, spi) && '\"' !in spi ==>
      Shows(f, keys.value, RecordsOf(f, keys, client), f.src.text, f.dst.text, spi)
  {
    if ServerSpi(f, spi) {
      EachServerSpi(f, keys, client, spi);
    }
    if ClientSpi(client, spi) && '\"' !in spi {
      EachClientSpi(f, keys, client, spi);
    }
  }

  lemma EachServerSpi(f: Frame, keys: Option<Keys>, client: Option<Spis>, spi: string)
    requires Agreement(f, keys).Some? && keys.Some? && KeysTold(keys.value)
    requires '\"' !in f.src.text && '\"' !in f.dst.text && ServerSpi(f, spi)
    ensures Shows(f, keys.value, RecordsOf(f, keys, client), f.dst.text, f.src.text, spi)
  {
    var m := OfferIn(f.server).value;
    var r := Record(Agreement(f, keys).value, f.dst.text, f.src.text, spi);
    ServerSpis(f, spi);
    SpelledClean(m, spi);
    RecordsAre(f, keys, client, r);
    RecordSays(f, keys.value, f.dst.text, f.src.text, spi);
  }

  lemma EachClientSpi(f: Frame, keys: Option<Keys>, client: Option<Spis>, spi: string)
    requires Agreement(f, keys).Some? && keys.Some? && KeysTold(keys.value)
    requires '\"' !in f.src.text && '\"' !in f.dst.text && ClientSpi(client, spi) && '\"' !in spi
    ensures Shows(f, keys.value, RecordsOf(f, keys, client), f.src.text, f.dst.text, spi)
  {
    var r := Record(Agreement(f, keys).value, f.src.text, f.dst.text, spi);
    assert spi in SpiList(client.value);
    RecordsAre(f, keys, client, r);
    RecordSays(f, keys.value, f.src.text, f.dst.text, spi);
  }

  /** What a frame shows when it is read, by the keys and the SPIs of the UE known by then:
      something exactly if all there has to be is there; nothing but associations; and one for
      each SPI of either party. */
  lemma FrameShows(events: seq<Event>, n: nat, f: Frame, call: string)
    requires n !in After(events).visited && Calls(f, call) && '\"' !in f.src.text && '\"' !in f.dst.text
    ensures var s := After(events + [Dissection(n, f)]);
      var keys, client := Lookup(s.keys, call), Lookup(s.clients, call);
      && (Shown(s, n) != [] <==> AllThere(f, keys))
      && (forall r :: r in Shown(s, n) ==> IsAssociation(f, keys, client, r))
      && (AllThere(f, keys) ==>
            && (forall spi :: ServerSpi(f, spi) ==> Shows(f, keys.value, Shown(s, n), f.dst.text, f.src.text, spi))
            && forall spi :: ClientSpi(client, spi) ==>
                 Shows(f, keys.value, Shown(s, n), f.src.text, f.dst.text, spi))
  {
    var s := After(events + [Dissection(n, f)]);
    var keys, client := Lookup(s.keys, call), Lookup(s.clients, call);
    FirstReading(events, n, f, call);
    RunTold(events + [Dissection(n, f)]);
    RecordsCount(f, keys, client);
    AgreedWhen(f, keys);
    forall r | r in Shown(s, n) ensures IsAssociation(f, keys, client, r) {
      RecordIsAssociation(f, keys, client, r);
    }
    if AllThere(f, keys) {
      forall spi
        ensures ServerSpi(f, spi) ==> Shows(f, keys.value, Shown(s, n), f.dst.text, f.src.text, spi)
        ensures ClientSpi(client, spi) ==> Shows(f, keys.value, Shown(s, n), f.src.text, f.dst.text, spi)
      {
        EachSpi(f, keys, client, spi);
      }
    }
  }

  /** And all of it is in the table from then on, but for what the table refuses or if there
      is none; nothing else comes into it, and nothing ever goes. */
  lemma FrameLoads(events: seq<Event>, n: nat, f: Frame)
    requires n !in After(events).visited
    ensures var s, t := After(events), After(events + [Dissection(n, f)]);
      && s.loaded <= t.loaded
      && (forall r :: r in Shown(t, n) && f.table && r !in f.refused ==> r in t.loaded)
      && (forall r :: r in t.loaded && r !in s.loaded ==> r in Shown(t, n) && f.table && r !in f.refused)
  {
    var s := After(events);
    assert (events + [Dissection(n, f)])[..|events|] == events;
    NeverLoadedTwice(events);
    KeptIsVisited(events);
    var t := Learn(s, f);
    InstallAllOnly(t, f, Derived(t, f));
    InstallAllOnce(t, f, Derived(t, f));
    InstallsOnly(t, f, Derived(t, f));
  }

  lemma {:induction false} InstallsOnly(s: State, f: Frame, records: seq<string>)
    ensures forall r :: r in InstallAll(s, f, records).loaded && r !in s.loaded ==>
      r in records && f.table && r !in f.refused
    decreases |records|
  {
    if records != [] {
      InstallsOnly(s, f, records[..|records| - 1]);
    }
  }

  /** Another file begins with nothing known and no frame read; what is in the table stays. */
  lemma NewFileForgets(events: seq<Event>)
    ensures var s, t := After(events), After(events + [NewFile]);
      && t.keys == map[] && t.clients == map[] && t.kept == map[] && t.visited == {}
      && t.loaded == s.loaded && t.installed == s.installed
  {
    assert (events + [NewFile])[..|events|] == events;
  }

  /** A frame has been read exactly if it was dissected since its file was opened. */
  ghost predicate Dissected(events: seq<Event>, n: nat) {
    exists i :: 0 <= i < |events| && events[i].Dissection? && events[i].n == n
      && forall j :: i < j < |events| ==> events[j].Dissection?
  }

  lemma {:induction false} VisitedIs(events: seq<Event>, n: nat)
    ensures n in After(events).visited <==> Dissected(events, n)
    decreases |events|
  {
    if events != [] {
      var m := |events| - 1;
      VisitedIs(events[..m], n);
      StepVisits(After(events[..m]), events[m], n);
      DissectedStep(events, m, n);
    }
  }

  lemma StepVisits(s: State, e: Event, n: nat)
    ensures n in Step(s, e).visited <==> e.Dissection? && (e.n == n || n in s.visited)
  {
    if e.Dissection? {
      var t := Learn(s, e.frame);
      InstallAllOnly(t, e.frame, Derived(t, e.frame));
    }
  }

  lemma DissectedStep(events: seq<Event>, m: nat, n: nat)
    requires m == |events| - 1
    ensures Dissected(events, n) <==> events[m].Dissection? && (events[m].n == n || Dissected(events[..m], n))
  {
    var init := events[..m];
    assert forall i :: 0 <= i < m ==> init[i] == events[i];
    if events[m].Dissection? && Dissected(init, n) {
      var i :| 0 <= i < m && init[i].Dissection? && init[i].n == n && forall j :: i < j < m ==> init[j].Dissection?;
      assert events[i].Dissection? && events[i].n == n;
    }
    if Dissected(events, n) {
      var i :| 0 <= i <= m && events[i].Dissection? && events[i].n == n && forall j :: i < j <= m ==> events[j].Dissection?;
      assert i < m ==> init[i].Dissection? && init[i].n == n && events[m].Dissection?;
    }
  }
}
