/** The dissector that recovers security associations, as an object: maps that belong to
    the file, and a table that outlives it (plugins/ims_esp/packet-ims-esp.c). */
module EspPlugin {
  import opened Options
  import opened EspHeader
  import opened EspRecords
  import opened EspRuns

  class Plugin {
    var keys: map<string, Keys>
    var clients: map<string, Spis>
    var kept: map<nat, seq<string>>
    var visited: set<nat>
    var installed: set<string>
    var loaded: seq<string>

    constructor ()
      ensures Abstract() == Fresh
    {
      keys, clients, kept, visited, installed, loaded := map[], map[], map[], {}, {}, [];
    }

    function Abstract(): State
      reads this
    {
      State(keys, clients, kept, visited, installed, loaded)
    }

    method OpenFile()
      modifies this
      ensures Abstract() == Step(old(Abstract()), NewFile)
    {
      keys, clients, kept, visited := map[], map[], map[], {};
    }

    method InstallRecord(f: Frame, record: string)
      modifies `installed, `loaded
      ensures Abstract() == Install(old(Abstract()), f, record)
    {
      if record in installed {
        return;
      }
      if !f.table {
        return;
      }
      if record in f.refused {
        return;
      }
      loaded := loaded + [record];
      installed := installed + {record};
    }

    /** Notes the keys of a challenge and the SPIs of a client. */
    method Note(f: Frame, call: string)
      requires Calls(f, call)
      modifies `keys, `clients
      ensures Abstract() == Learn(old(Abstract()), f)
    {
      var ik := ReadKey(f.ik);
      if ik.Some? {
        var ck := ReadKey(f.ck);
        keys := keys[call := Keys(ck, ik.value)];
      }
      if f.client.Some? {
        var ok, _, offered := ReadHeader(f.client.value);
        if ok {
          clients := clients[call := offered];
        }
      }
    }

    /** What the associations of a frame have in common, if there are any. */
    method Agree(f: Frame, call: string) returns (a: Option<Agreed>, offered: Spis)
      ensures a == Agreement(f, Lookup(keys, call))
      ensures a.Some? ==> OfferIn(f.server).Some? && offered == SpisOf(OfferIn(f.server).value)
    {
      offered := Spis(None, None);
      if f.server.None? {
        return None, offered;
      }
      var ok, mech;
      ok, mech, offered := ReadHeader(f.server.value);
      if !ok {
        return None, offered;
      }
      var proto := "";
      if f.src.family.V4? && f.dst.family.V4? {
        proto := "IPv4";
      } else if f.src.family.V6? && f.dst.family.V6? {
        proto := "IPv6";
      } else {
        return None, offered;
      }
      var enc := FindEncr(mech.ealg);
      var auth := FindAuth(mech.alg);
      if call !in keys || enc.None? || mech.prot == Some("ah") {
        return None, offered;
      }
      var k := keys[call];
      if enc != Some("NULL") && k.ck.None? {
        return None, offered;
      }
      a := Some(Agreed(proto, enc.value, EncrKey(mech.ealg, CkText(k)), auth, AuthKey(mech.alg, k.ik)));
    }

    /** The records towards one party, each loaded as it is made. */
    method Direction(f: Frame, a: Agreed, from: string, to: string, spis: Spis, before: seq<string>,
                     ghost start: State) returns (records: seq<string>)
      requires Abstract() == InstallAll(start, f, before)
      modifies `installed, `loaded
      ensures records == before + Towards(a, from, to, SpiList(spis))
      ensures Abstract() == InstallAll(start, f, records)
    {
      records := before;
      var both := [spis.c, spis.s];
      ghost var got: seq<string> := [];
      assert records == before + Towards(a, from, to, got);
      for i := 0 to 2
        invariant got == SpisUpTo(both, i) && records == before + Towards(a, from, to, got)
        invariant Abstract() == InstallAll(start, f, records)
      {
        if both[i].None? {
          continue;
        }
        TowardsMore(a, from, to, got, both[i].value, before);
        records := AddRecord(f, Record(a, from, to, both[i].value), records, start);
        got := got + [both[i].value];
      }
      BothSpis(spis);
    }

    method AddRecord(f: Frame, record: string, before: seq<string>, ghost start: State) returns (records: seq<string>)
      requires Abstract() == InstallAll(start, f, before)
      modifies `installed, `loaded
      ensures records == before + [record] && Abstract() == InstallAll(start, f, records)
    {
      InstallRecord(f, record);
      records := before + [record];
      assert records[..|before|] == before;
    }

    method DeriveFrame(n: nat, f: Frame)
      modifies `keys, `clients, `installed, `loaded, `kept
      ensures Abstract() == Derive(old(Abstract()), n, f)
    {
      if f.call.None? || f.call.value == "" {
        return;
      }
      Note(f, f.call.value);
      YieldRecords(n, f, f.call.value);
    }

    method YieldRecords(n: nat, f: Frame, call: string)
      requires Calls(f, call)
      modifies `installed, `loaded, `kept
      ensures Abstract() == Yield(old(Abstract()), n, f)
    {
      var a, offered := Agree(f, call);
      if a.None? {
        return;
      }
      var records := BothDirections(f, a.value, call, offered);
      if |records| > 0 {
        kept := kept[n := records];
      }
    }

    method BothDirections(f: Frame, a: Agreed, call: string, offered: Spis) returns (records: seq<string>)
      requires Calls(f, call) && Agreement(f, Lookup(keys, call)) == Some(a)
      requires OfferIn(f.server).Some? && offered == SpisOf(OfferIn(f.server).value)
      modifies `installed, `loaded
      ensures records == Derived(old(Abstract()), f)
      ensures Abstract() == InstallAll(old(Abstract()), f, records)
    {
      DerivedIs(Abstract(), f, call, a);
      records := TwoDirections(f, a, call, offered);
    }

    method TwoDirections(f: Frame, a: Agreed, call: string, offered: Spis) returns (records: seq<string>)
      modifies `installed, `loaded
      ensures records == Towards(a, f.dst.text, f.src.text, SpiList(offered))
        + (if call in clients then Towards(a, f.src.text, f.dst.text, SpiList(clients[call])) else [])
      ensures Abstract() == InstallAll(old(Abstract()), f, records)
    {
      ghost var start := Abstract();
      records := Direction(f, a, f.dst.text, f.src.text, offered, [], start);
      records := UeDirection(f, a, call, records, start);
    }

    method UeDirection(f: Frame, a: Agreed, call: string, before: seq<string>, ghost start: State)
        returns (records: seq<string>)
      requires Abstract() == InstallAll(start, f, before)
      modifies `installed, `loaded
      ensures records == before + (if call in old(clients) then
        Towards(a, f.src.text, f.dst.text, SpiList(old(clients)[call])) else [])
      ensures Abstract() == InstallAll(start, f, records)
    {
      if call !in clients {
        return before;
      }
      records := Direction(f, a, f.src.text, f.dst.text, clients[call], before, start);
    }

    /** One dissection of a frame. */
    method DissectFrame(n: nat, f: Frame) returns (shown: seq<string>)
      modifies this
      ensures Abstract() == Step(old(Abstract()), Dissection(n, f)) && shown == Shown(Abstract(), n)
    {
      if n !in visited {
        DeriveFrame(n, f);
      }
      visited := visited + {n};
      shown := if n in kept then kept[n] else [];
    }
  }

  function SpisUpTo(both: seq<Option<string>>, i: nat): seq<string>
    requires i <= |both|
  {
    if i == 0 then [] else SpisUpTo(both, i - 1) + (if both[i - 1].Some? then [both[i - 1].value] else [])
  }

  lemma TowardsMore(a: Agreed, from: string, to: string, spis: seq<string>, spi: string, before: seq<string>)
    ensures before + Towards(a, from, to, spis + [spi])
      == before + Towards(a, from, to, spis) + [Record(a, from, to, spi)]
  {
  }

  lemma DerivedIs(s: State, f: Frame, call: string, a: Agreed)
    requires Calls(f, call) && Agreement(f, Lookup(s.keys, call)) == Some(a) && OfferIn(f.server).Some?
    ensures Derived(s, f) ==
      Towards(a, f.dst.text, f.src.text, SpiList(SpisOf(OfferIn(f.server).value)))
      + (if call in s.clients then Towards(a, f.src.text, f.dst.text, SpiList(s.clients[call])) else [])
  {
  }

  lemma BothSpis(spis: Spis)
    ensures SpisUpTo([spis.c, spis.s], 2) == SpiList(spis)
  {
    assert SpisUpTo([spis.c, spis.s], 1) == SpisUpTo([spis.c, spis.s], 0) + (if spis.c.Some? then [spis.c.value] else []);
  }

  method FindEncr(ealg: Option<string>) returns (enc: Option<string>)
    ensures enc == Encr(ealg)
  {
    enc := Algo(EncrTable, ealg);
    TablesAre();
  }

  method FindAuth(alg: Option<string>) returns (auth: string)
    ensures auth == Auth(alg)
  {
    var found := Algo(AuthTable, alg);
    TablesAre();
    auth := if found.Some? then found.value else AnyIcv;
  }

  /** The tables are the functions they stand for. */
  lemma TablesAre()
    ensures |EncrTable| == 3 && EncrTable[0] == ("null", "NULL") && EncrTable[1] == ("aes-cbc", "AES-CBC [RFC3602]")
    ensures EncrTable[2] == ("des-ede3-cbc", "TripleDES-CBC [RFC2451]")
    ensures |AuthTable| == 2 && AuthTable[0] == ("hmac-md5-96", "HMAC-MD5-96 [RFC2403]")
    ensures AuthTable[1] == ("hmac-sha-1-96", "HMAC-SHA-1-96 [RFC2404]")
  {
  }
}
