/** The security associations of a registration (plugins/ims_esp/packet-ims-esp.c; 3GPP
    TS 33.203, Annexes H and I). */
module EspRecords {
  import opened Basics
  import opened Options
  import opened EspHeader

  // -------------------------------------------------------------------- keys --

  predicate IsXDigit(c: char) {
    '0' <= c <= '9' || 'a' <= c <= 'f' || 'A' <= c <= 'F'
  }

  /** 128 bits in hex. */
  predicate IsKey(x: string) {
    |x| == 32 && forall i :: 0 <= i < 32 ==> IsXDigit(x[i])
  }

  function Unquoted(value: string): string {
    var v := if value != "" && value[0] == '\"' then value[1..] else value;
    if v != "" && v[|v| - 1] == '\"' then v[..|v| - 1] else v
  }

  function KeyOf(value: Option<string>): Option<string> {
    if value.Some? && IsKey(Unquoted(value.value)) then Some(Lowered(Unquoted(value.value))) else None
  }

  predicate Quotes(v: string, x: string) {
    v == x || v == "\"" + x || v == x + "\"" || v == "\"" + x + "\""
  }

  /** A key is 128 bits of hex, in quotes or not, and is told in lower case. */
  lemma KeyIsHex(v: string, k: string)
    ensures KeyOf(Some(v)) == Some(k) <==> exists x :: Quotes(v, x) && IsKey(x) && k == Lowered(x)
  {
    if KeyOf(Some(v)).Some? {
      var x := Unquoted(v);
      assert Quotes(v, x) by {
        QuotesBack(v);
      }
    }
    forall x | Quotes(v, x) && IsKey(x) ensures Unquoted(v) == x {
      assert x[0] != '\"' && x[31] != '\"';
    }
  }

  lemma QuotesBack(v: string)
    ensures Quotes(v, Unquoted(v))
  {
    var w := if v != "" && v[0] == '\"' then v[1..] else v;
    assert v == w || v == "\"" + w;
    assert w == Unquoted(v) || w == Unquoted(v) + "\"";
    assert "\"" + (Unquoted(v) + "\"") == "\"" + Unquoted(v) + "\"";
  }

  method ReadKey(value: Option<string>) returns (out: Option<string>)
    ensures out == KeyOf(value)
  {
    if value.None? {
      return None;
    }
    var v := value.value;
    if v != "" && v[0] == '\"' {
      v := v[1..];
    }
    if v != "" && v[|v| - 1] == '\"' {
      v := v[..|v| - 1];
    }
    if |v| != 32 {
      return None;
    }
    var text := "";
    for i := 0 to 32
      invariant |text| == i && forall j :: 0 <= j < i ==> IsXDigit(v[j]) && text[j] == Lower(v[j])
    {
      if !IsXDigit(v[i]) {
        return None;
      }
      text := text + [Lower(v[i])];
    }
    assert text == Lowered(v);
    return Some(text);
  }

  // -------------------------------------------------------------- algorithms --

  const EncrTable := [("null", "NULL"), ("aes-cbc", "AES-CBC [RFC3602]"),
                      ("des-ede3-cbc", "TripleDES-CBC [RFC2451]")]
  const AuthTable := [("hmac-md5-96", "HMAC-MD5-96 [RFC2403]"), ("hmac-sha-1-96", "HMAC-SHA-1-96 [RFC2404]")]
  const AnyIcv := "ANY 96 bit authentication [no checking]"

  function Encr(ealg: Option<string>): Option<string> {
    match ealg
    case None => None
    case Some(name) =>
      if name == "null" then Some("NULL")
      else if name == "aes-cbc" then Some("AES-CBC [RFC3602]")
      else if name == "des-ede3-cbc" then Some("TripleDES-CBC [RFC2451]")
      else None
  }

  function Auth(alg: Option<string>): string {
    match alg
    case None => AnyIcv
    case Some(name) =>
      if name == "hmac-md5-96" then "HMAC-MD5-96 [RFC2403]"
      else if name == "hmac-sha-1-96" then "HMAC-SHA-1-96 [RFC2404]"
      else AnyIcv
  }

  method Algo(table: seq<(string, string)>, mech: Option<string>) returns (sa: Option<string>)
    ensures sa.Some? <==> mech.Some? && exists i :: 0 <= i < |table| && table[i].0 == mech.value
    ensures sa.Some? ==> exists i :: 0 <= i < |table| && table[i] == (mech.value, sa.value)
  {
    if mech.None? {
      return None;
    }
    for i := 0 to |table|
      invariant forall j :: 0 <= j < i ==> table[j].0 != mech.value
    {
      if table[i].0 == mech.value {
        assert table[i] == (mech.value, table[i].1);
        return Some(table[i].1);
      }
    }
    return None;
  }

  function AuthKey(alg: Option<string>, ik: string): string {
    if alg == Some("hmac-sha-1-96") then "0x" + ik + "00000000" else "0x" + ik
  }

  function EncrKey(ealg: Option<string>, ck: string): string {
    if ealg == Some("null") then ""
    else if ealg == Some("des-ede3-cbc") then "0x" + ck + (if |ck| > 16 then ck[..16] else ck)
    else "0x" + ck
  }

  function Bits(key: string): nat {
    if |key| < 2 then 0 else (|key| - 2) * 4
  }

  /** The keys are as long as the algorithm wants them, and begin with the key they are
      made from: 160 bits for SHA-1, zeros at the end; 192 for triple DES, its first 64 bits
      once more; 128 for the others, and none where nothing is encrypted. */
  lemma KeysFit(alg: Option<string>, ealg: Option<string>, ik: string, ck: string)
    requires IsKey(ik) && IsKey(ck)
    ensures Bits(AuthKey(alg, ik)) == (if alg == Some("hmac-sha-1-96") then 160 else 128)
    ensures AuthKey(alg, ik)[..34] == "0x" + ik
    ensures alg == Some("hmac-sha-1-96") ==> AuthKey(alg, ik)[34..] == "00000000"
    ensures Encr(ealg) == Some("NULL") <==> EncrKey(ealg, ck) == ""
    ensures Encr(ealg) == Some("AES-CBC [RFC3602]") ==> Bits(EncrKey(ealg, ck)) == 128
    ensures Encr(ealg) == Some("TripleDES-CBC [RFC2451]") ==>
      Bits(EncrKey(ealg, ck)) == 192 && EncrKey(ealg, ck)[34..] == EncrKey(ealg, ck)[2..18]
    ensures EncrKey(ealg, ck) != "" ==> EncrKey(ealg, ck)[..34] == "0x" + ck
  {
    assert (("0x" + ck) + ck[..16])[34..] == ck[..16];
    assert (("0x" + ck) + ck[..16])[2..18] == ck[..16];
    assert "NULL" != "AES-CBC [RFC3602]" && "NULL" != "TripleDES-CBC [RFC2451]" by {
      assert |"NULL"| == 4 && |"AES-CBC [RFC3602]"| == 17 && |"TripleDES-CBC [RFC2451]"| == 23;
    }
  }

  // ----------------------------------------------------------------- records --

  datatype Family = V4 | V6 | OtherFamily
  datatype Addr = Addr(family: Family, text: string)
  datatype Keys = Keys(ck: Option<string>, ik: string)

  /** What a frame carries: the last value of each SIP field, and its addresses. Whether
      there is a table of associations, and what it refuses, is the table's own affair. */
  datatype Frame = Frame(call: Option<string>, ik: Option<string>, ck: Option<string>, client: Option<string>,
                         server: Option<string>, src: Addr, dst: Addr, table: bool, refused: set<string>)

  predicate Calls(f: Frame, call: string) {
    f.call == Some(call) && call != ""
  }

  /** The keys a frame brings. */
  function KeysIn(f: Frame): Option<Keys> {
    if KeyOf(f.ik).Some? then Some(Keys(KeyOf(f.ck), KeyOf(f.ik).value)) else None
  }

  function OfferIn(header: Option<string>): Option<Mech> {
    if header.Some? then Offer(header.value) else None
  }

  function ClientIn(f: Frame): Option<Spis> {
    if OfferIn(f.client).Some? then Some(SpisOf(OfferIn(f.client).value)) else None
  }

  function FamilyName(src: Addr, dst: Addr): Option<string> {
    if src.family.V4? && dst.family.V4? then Some("IPv4")
    else if src.family.V6? && dst.family.V6? then Some("IPv6")
    else None
  }

  /** What the associations of one registration have in common. */
  datatype Agreed = Agreed(proto: string, enc: string, encKey: string, auth: string, authKey: string)

  function CkText(k: Keys): string {
    if k.ck.Some? then k.ck.value else ""
  }

  /** All that has to come together for there to be an association. */
  function Agreement(f: Frame, keys: Option<Keys>): Option<Agreed> {
    var server := OfferIn(f.server);
    if server.None? || FamilyName(f.src, f.dst).None? || keys.None? then None
    else
      var m := server.value;
      var enc := Encr(m.ealg);
      if enc.None? || m.prot == Some("ah") || (enc != Some("NULL") && keys.value.ck.None?) then None
      else
        Some(Agreed(FamilyName(f.src, f.dst).value, enc.value, EncrKey(m.ealg, CkText(keys.value)),
                    Auth(m.alg), AuthKey(m.alg, keys.value.ik)))
  }

  /** Fields as a line of the table: each in quotes, with commas between. */
  function Line(fields: seq<string>): string {
    if fields == [] then ""
    else Line(fields[..|fields| - 1]) + (if |fields| == 1 then "" else ",") + "\"" + fields[|fields| - 1] + "\""
  }

  /** One association, as the table of them is loaded. */
  function Record(a: Agreed, from: string, to: string, spi: string): string {
    Line([a.proto, from, to, spi, a.enc, a.encKey, a.auth, a.authKey])
  }

  function SpiList(s: Spis): (r: seq<string>)
    ensures |r| <= 2
  {
    (if s.c.Some? then [s.c.value] else []) + (if s.s.Some? then [s.s.value] else [])
  }

  function Towards(a: Agreed, from: string, to: string, spis: seq<string>): (r: seq<string>)
    ensures |r| == |spis| && forall i :: 0 <= i < |spis| ==> r[i] == Record(a, from, to, spis[i])
  {
    seq(|spis|, i requires 0 <= i < |spis| => Record(a, from, to, spis[i]))
  }

  /** The associations of a frame: each on the way to the party that gave out its SPI. */
  function RecordsOf(f: Frame, keys: Option<Keys>, client: Option<Spis>): seq<string> {
    match Agreement(f, keys)
    case None => []
    case Some(a) =>
      Towards(a, f.dst.text, f.src.text, SpiList(SpisOf(OfferIn(f.server).value)))
      + (if client.Some? then Towards(a, f.src.text, f.dst.text, SpiList(client.value)) else [])
  }

  /** There are associations exactly when everything has come together, and never more
      than four: one for each SPI of either party. */
  lemma RecordsCount(f: Frame, keys: Option<Keys>, client: Option<Spis>)
    ensures RecordsOf(f, keys, client) != [] <==> Agreement(f, keys).Some?
    ensures Agreement(f, keys).Some? ==>
      OfferIn(f.server).Some? && 1 <= |SpiList(SpisOf(OfferIn(f.server).value))|
      && |RecordsOf(f, keys, client)| == |SpiList(SpisOf(OfferIn(f.server).value))|
                                         + (if client.Some? then |SpiList(client.value)| else 0) <= 4
  {
    if f.server.Some? {
      OfferOffers(f.server.value);
    }
  }

  /** The P-CSCF's SPIs are on the way to it, and the UE's on the way back, and there is no
      other association. */
  lemma RecordsAre(f: Frame, keys: Option<Keys>, client: Option<Spis>, record: string)
    requires Agreement(f, keys).Some?
    ensures var a, ue, pcscf := Agreement(f, keys).value, f.dst.text, f.src.text;
      var offered := SpiList(SpisOf(OfferIn(f.server).value));
      record in RecordsOf(f, keys, client) <==>
        (exists i :: 0 <= i < |offered| && record == Record(a, ue, pcscf, offered[i]))
        || (client.Some? && exists i :: 0 <= i < |SpiList(client.value)|
                              && record == Record(a, pcscf, ue, SpiList(client.value)[i]))
  {
    var a, ue, pcscf := Agreement(f, keys).value, f.dst.text, f.src.text;
    InTowards(a, ue, pcscf, SpiList(SpisOf(OfferIn(f.server).value)), record);
    if client.Some? {
      InTowards(a, pcscf, ue, SpiList(client.value), record);
    }
  }

  lemma InTowards(a: Agreed, from: string, to: string, spis: seq<string>, record: string)
    ensures record in Towards(a, from, to, spis)
      <==> exists i :: 0 <= i < |spis| && record == Record(a, from, to, spis[i])
  {
  }

  lemma OfferOffers(header: string)
    ensures Offer(header).Some? ==> Offers(Offer(header).value)
  {
    OfferIsFirst(header);
  }
}
