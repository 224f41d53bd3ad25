/** Security-agreement header values (plugins/ims_esp/packet-ims-esp.c; section 2.2 of
    RFC 3329): what they say, and the scan of them. */
module EspHeader {
  import opened Basics
  import opened Options

  // --------------------------------------------------------------- splitting --

  /** Where `c` is next, or the end. */
  function Find(s: string, c: char, i: nat): (n: nat)
    requires i <= |s|
    ensures i <= n <= |s| && (forall j :: i <= j < n ==> s[j] != c) && (n < |s| ==> s[n] == c)
    decreases |s| - i
  {
    if i == |s| || s[i] == c then i else Find(s, c, i + 1)
  }

  function SplitFrom(s: string, sep: char, i: nat): (parts: seq<string>)
    requires i <= |s|
    ensures parts != []
    decreases |s| - i
  {
    var n := Find(s, sep, i);
    if n == |s| then [s[i..]] else [s[i..n]] + SplitFrom(s, sep, n + 1)
  }

  function Split(s: string, sep: char): seq<string> {
    SplitFrom(s, sep, 0)
  }

  function Join(parts: seq<string>, sep: char): string
    requires parts != []
  {
    if |parts| == 1 then parts[0] else parts[0] + [sep] + Join(parts[1..], sep)
  }

  lemma {:induction false} SplitFromJoins(s: string, sep: char, i: nat)
    requires i <= |s|
    ensures Join(SplitFrom(s, sep, i), sep) == s[i..]
    decreases |s| - i
  {
    var n := Find(s, sep, i);
    if n < |s| {
      SplitFromJoins(s, sep, n + 1);
      var parts := SplitFrom(s, sep, n + 1);
      assert ([s[i..n]] + parts)[1..] == parts;
      assert s[i..] == s[i..n] + [sep] + s[n + 1..];
    }
  }

  lemma {:induction false} SplitFromClean(s: string, sep: char, i: nat)
    requires i <= |s|
    ensures forall p :: p in SplitFrom(s, sep, i) ==> sep !in p
    decreases |s| - i
  {
    var n := Find(s, sep, i);
    assert sep !in s[i..n];
    if n < |s| {
      SplitFromClean(s, sep, n + 1);
    }
  }

  /** The parts are what lies between the separators, and all of it. */
  lemma SplitJoins(s: string, sep: char)
    ensures Join(Split(s, sep), sep) == s
    ensures forall p :: p in Split(s, sep) ==> sep !in p
  {
    SplitFromJoins(s, sep, 0);
    SplitFromClean(s, sep, 0);
    assert s[0..] == s;
  }

  /** What each part gives, one after another. */
  function Collect<T>(parts: seq<string>, f: string -> seq<T>): seq<T> {
    if parts == [] then [] else f(parts[0]) + Collect(parts[1..], f)
  }

  /** What the first part that gives anything gives. */
  function FirstSome<T>(parts: seq<string>, f: string -> Option<T>): Option<T> {
    if parts == [] then None else if f(parts[0]).Some? then f(parts[0]) else FirstSome(parts[1..], f)
  }

  lemma SplitStep(s: string, sep: char, i: nat)
    requires i <= |s|
    ensures var n := Find(s, sep, i);
      SplitFrom(s, sep, i) == [s[i..n]] + (if n < |s| then SplitFrom(s, sep, n + 1) else [])
  {
    assert s[i..|s|] == s[i..];
  }

  lemma CollectCons<T>(part: string, parts: seq<string>, f: string -> seq<T>)
    ensures Collect([part] + parts, f) == f(part) + Collect(parts, f)
  {
    assert ([part] + parts)[1..] == parts;
  }

  lemma FirstSomeCons<T>(part: string, parts: seq<string>, f: string -> Option<T>)
    ensures FirstSome([part] + parts, f) == if f(part).Some? then f(part) else FirstSome(parts, f)
  {
    assert ([part] + parts)[1..] == parts;
  }

  /** Collecting from one separator to the next. */
  lemma CollectNext<T>(s: string, sep: char, i: nat, f: string -> seq<T>)
    requires i <= |s|
    ensures var n := Find(s, sep, i);
      Collect(SplitFrom(s, sep, i), f) == f(s[i..n]) + (if n < |s| then Collect(SplitFrom(s, sep, n + 1), f) else [])
  {
    var n := Find(s, sep, i);
    SplitStep(s, sep, i);
    CollectCons(s[i..n], if n < |s| then SplitFrom(s, sep, n + 1) else [], f);
  }

  lemma CollectEnd<T>(s: string, sep: char, f: string -> seq<T>)
    requires f("") == []
    ensures Collect(SplitFrom(s, sep, |s|), f) == []
  {
    assert s[|s|..] == "";
    assert SplitFrom(s, sep, |s|) == [""];
    assert Collect([""], f) == f("") + Collect([], f);
  }

  /** Collecting one part more. */
  lemma PassPart<T>(s: string, sep: char, i: nat, part: string, f: string -> seq<T>,
                    done: seq<T>, more: seq<T>, rest: seq<T>, all: seq<T>)
      returns (less: seq<T>, next: nat)
    requires i <= |s| && f("") == [] && rest == Collect(SplitFrom(s, sep, i), f) && all == done + rest
    requires part == s[i..Find(s, sep, i)] && more == done + f(part)
    ensures next == (if Find(s, sep, i) < |s| then Find(s, sep, i) + 1 else |s|)
    ensures less == Collect(SplitFrom(s, sep, next), f) && all == more + less
  {
    var n := Find(s, sep, i);
    next := if n < |s| then n + 1 else |s|;
    CollectNext(s, sep, i, f);
    CollectEnd(s, sep, f);
    less := Collect(SplitFrom(s, sep, next), f);
    assert rest == f(part) + less;
  }

  lemma FirstSomeEnd<T>(s: string, sep: char, f: string -> Option<T>)
    requires f("") == None
    ensures FirstSome(SplitFrom(s, sep, |s|), f) == None
  {
    assert s[|s|..] == "";
    assert SplitFrom(s, sep, |s|) == [""];
    assert FirstSome([""][1..], f) == None;
  }

  lemma FirstSomeNext<T>(s: string, sep: char, i: nat, f: string -> Option<T>)
    requires i <= |s|
    ensures var n := Find(s, sep, i);
      FirstSome(SplitFrom(s, sep, i), f) ==
      if f(s[i..n]).Some? then f(s[i..n]) else if n < |s| then FirstSome(SplitFrom(s, sep, n + 1), f) else None
  {
    var n := Find(s, sep, i);
    SplitStep(s, sep, i);
    FirstSomeCons(s[i..n], if n < |s| then SplitFrom(s, sep, n + 1) else [], f);
  }

  /** There is a first part that gives something exactly when some part does, and nothing
      comes of any part before it. */
  lemma {:induction false} FirstSomeIsFirst<T(!new)>(parts: seq<string>, f: string -> Option<T>)
    ensures FirstSome(parts, f).Some? <==> exists i :: 0 <= i < |parts| && f(parts[i]).Some?
    ensures FirstSome(parts, f).Some? ==> exists i :: 0 <= i < |parts| && IsFirst(parts, f, i, FirstSome(parts, f))
  {
    if parts != [] {
      var rest := parts[1..];
      assert parts == [parts[0]] + rest;
      FirstSomeIsFirst(rest, f);
      if f(parts[0]).Some? {
        assert IsFirst(parts, f, 0, f(parts[0]));
      } else if FirstSome(rest, f).Some? {
        var i :| 0 <= i < |rest| && IsFirst(rest, f, i, FirstSome(rest, f));
        assert parts[i + 1] == rest[i];
        assert IsFirst(parts, f, i + 1, FirstSome(rest, f)) by {
          assert forall j :: 0 < j < |parts| ==> parts[j] == rest[j - 1];
        }
      } else {
        assert forall j :: 0 < j < |parts| ==> parts[j] == rest[j - 1];
      }
    }
  }

  ghost predicate IsFirst<T(!new)>(parts: seq<string>, f: string -> Option<T>, i: nat, r: Option<T>)
    requires i < |parts|
  {
    r == f(parts[i]) && r.Some? && forall j :: 0 <= j < i ==> f(parts[j]).None?
  }

  // ------------------------------------------------------------------ tokens --

  predicate IsSpace(c: char) {
    c == ' ' || c == '\t' || c == '\n' || c == '\r' || c == '\U{000C}'
  }

  /** The first place from `a` on that is not white space, or the end. */
  function SkipLeft(s: string, a: nat): (r: nat)
    requires a <= |s|
    ensures a <= r <= |s| && (r < |s| ==> !IsSpace(s[r])) && forall i :: a <= i < r ==> IsSpace(s[i])
    decreases |s| - a
  {
    if a < |s| && IsSpace(s[a]) then SkipLeft(s, a + 1) else a
  }

  /** The last place down to `a` that white space does not come before. */
  function SkipRight(s: string, a: nat, z: nat): (r: nat)
    requires a <= z <= |s|
    ensures a <= r <= z && (a < r ==> !IsSpace(s[r - 1])) && forall i :: r <= i < z ==> IsSpace(s[i])
    decreases z
  {
    if a < z && IsSpace(s[z - 1]) then SkipRight(s, a, z - 1) else z
  }

  /** White space off both ends, all of it and nothing else. */
  function Trim(s: string): string {
    var a := SkipLeft(s, 0);
    s[a..SkipRight(s, a, |s|)]
  }

  lemma TrimIsTight(s: string)
    ensures var t := Trim(s); t != "" ==> !IsSpace(t[0]) && !IsSpace(t[|t| - 1])
    ensures exists a: nat, z: nat :: a <= z <= |s| && Surrounded(s, a, z, Trim(s))
  {
    var a := SkipLeft(s, 0);
    assert Surrounded(s, a, SkipRight(s, a, |s|), Trim(s));
  }

  predicate Surrounded(s: string, a: nat, z: nat, t: string)
    requires a <= z <= |s|
  {
    t == s[a..z] && (forall i :: 0 <= i < a ==> IsSpace(s[i])) && forall i :: z <= i < |s| ==> IsSpace(s[i])
  }

  function Token(s: string): string {
    Lowered(Trim(s))
  }

  // -------------------------------------------------------------- mechanisms --

  datatype Param = Param(name: string, value: string)

  /** A part of a mechanism with `=` in it. */
  function ParamOf(part: string): seq<Param> {
    var n := Find(part, '=', 0);
    if n == |part| then [] else [Param(Token(part[..n]), Token(part[n + 1..]))]
  }

  /** The parameters of one mechanism, in order. */
  function Params(mechanism: string): seq<Param> {
    Collect(Split(mechanism, ';'), ParamOf)
  }

  function FirstValue(ps: seq<Param>, name: string): Option<string> {
    if ps == [] then None else if ps[0].name == name then Some(ps[0].value) else FirstValue(ps[1..], name)
  }

  lemma {:induction false} FirstStays(ps: seq<Param>, p: Param, name: string)
    ensures FirstValue(ps + [p], name) ==
      if FirstValue(ps, name).Some? then FirstValue(ps, name)
      else if p.name == name then Some(p.value) else None
  {
    if ps == [] {
      assert ps + [p] == [p];
    } else {
      assert (ps + [p])[1..] == ps[1..] + [p];
      FirstStays(ps[1..], p, name);
    }
  }

  datatype Mech = Mech(prot: Option<string>, ealg: Option<string>, alg: Option<string>,
                       spiC: Option<string>, spiS: Option<string>)

  /** A mechanism's own parameters, each by its first occurrence. */
  function MechWith(ps: seq<Param>): Mech {
    Mech(FirstValue(ps, "prot"), FirstValue(ps, "ealg"), FirstValue(ps, "alg"),
         FirstValue(ps, "spi-c"), FirstValue(ps, "spi-s"))
  }

  function MechOf(mechanism: string): Mech {
    MechWith(Params(mechanism))
  }

  // -------------------------------------------------------------------- SPIs --

  predicate IsDigit(c: char) {
    '0' <= c <= '9'
  }

  function Digit(c: char): nat {
    if IsDigit(c) then (c - '0') as nat else 0
  }

  function Decimal(s: string): nat {
    if s == "" then 0 else Decimal(s[..|s| - 1]) * 10 + Digit(s[|s| - 1])
  }

  predicate IsU32(s: string) {
    s != "" && (forall i :: 0 <= i < |s| ==> IsDigit(s[i])) && Decimal(s) < 0x1_0000_0000
  }

  const HexDigits := "0123456789abcdef"

  /** A number in so many hex digits. */
  function Hex(n: nat, digits: nat): (s: string)
    ensures |s| == digits
  {
    if digits == 0 then "" else Hex(n / 16, digits - 1) + [HexDigits[n % 16]]
  }

  function Unhex(s: string): nat {
    if s == "" then 0
    else
      var c := s[|s| - 1];
      Unhex(s[..|s| - 1]) * 16 + (if 'a' <= c <= 'f' then (c - 'a') as nat + 10 else Digit(c))
  }

  function Power16(n: nat): nat {
    if n == 0 then 1 else 16 * Power16(n - 1)
  }

  lemma DigitReads(d: nat)
    requires d < 16
    ensures Unhex([HexDigits[d]]) == d
  {
    var c := HexDigits[d];
    assert [c][..0] == "";
    assert d < 10 ==> IsDigit(c) && Digit(c) == d;
  }

  /** The number can be read back off its digits. */
  lemma {:induction false} HexReads(n: nat, digits: nat)
    requires n < Power16(digits)
    ensures Unhex(Hex(n, digits)) == n
  {
    if digits > 0 {
      HexReads(n / 16, digits - 1);
      DigitReads(n % 16);
      var s := Hex(n, digits);
      assert s[..digits - 1] == Hex(n / 16, digits - 1);
    }
  }

  /** An SPI for the table: its 32 bits in hex. */
  function Spi(raw: Option<string>): (r: Option<string>)
    ensures r.Some? <==> raw.Some? && IsU32(raw.value)
  {
    if raw.Some? && IsU32(raw.value) then Some("0x" + Hex(Decimal(raw.value), 8)) else None
  }

  lemma SpiReads(raw: string)
    requires IsU32(raw)
    ensures Spi(Some(raw)).value[2..] == Hex(Decimal(raw), 8)
    ensures Unhex(Spi(Some(raw)).value[2..]) == Decimal(raw)
  {
    assert Power16(8) == 0x1_0000_0000;
    HexReads(Decimal(raw), 8);
    assert Spi(Some(raw)).value[2..] == Hex(Decimal(raw), 8);
  }

  datatype Spis = Spis(c: Option<string>, s: Option<string>)

  function SpisOf(m: Mech): Spis {
    Spis(Spi(m.spiC), Spi(m.spiS))
  }

  predicate Offers(m: Mech) {
    SpisOf(m).c.Some? || SpisOf(m).s.Some?
  }

  function OfferOf(mechanism: string): Option<Mech> {
    if Offers(MechOf(mechanism)) then Some(MechOf(mechanism)) else None
  }

  /** What a header value says: the first of its mechanisms that offers an SPI. */
  function Offer(header: string): Option<Mech> {
    FirstSome(Split(header, ','), OfferOf)
  }

  /** A header says something exactly when one of its mechanisms offers an SPI, and then
      it is the first of those, with its own parameters and nothing of any other. */
  lemma OfferIsFirst(header: string)
    ensures var parts := Split(header, ',');
      && (Offer(header).Some? <==> exists i :: 0 <= i < |parts| && Offers(MechOf(parts[i])))
      && (Offer(header).Some? ==> exists i :: 0 <= i < |parts| && IsFirstOffer(parts, i, Offer(header).value))
  {
    var parts := Split(header, ',');
    FirstSomeIsFirst(parts, OfferOf);
    assert forall i :: 0 <= i < |parts| ==> (OfferOf(parts[i]).Some? <==> Offers(MechOf(parts[i])));
    if Offer(header).Some? {
      var i :| 0 <= i < |parts| && IsFirst(parts, OfferOf, i, FirstSome(parts, OfferOf));
      assert IsFirstOffer(parts, i, Offer(header).value);
    }
  }

  ghost predicate IsFirstOffer(parts: seq<string>, i: nat, m: Mech)
    requires i < |parts|
  {
    m == MechOf(parts[i]) && Offers(m) && forall j :: 0 <= j < i ==> !Offers(MechOf(parts[j]))
  }

  // ---------------------------------------------------------------- the scan --

  class Mechanism {
    var prot: Option<string>
    var ealg: Option<string>
    var alg: Option<string>
    var spiC: Option<string>
    var spiS: Option<string>

    constructor ()
      ensures Value() == MechWith([])
    {
      prot, ealg, alg, spiC, spiS := None, None, None, None, None;
    }

    function Value(): Mech
      reads this
    {
      Mech(prot, ealg, alg, spiC, spiS)
    }

    /** Notes a parameter, unless one of that name has been noted before. */
    method Set(name: string, value: string, ghost ps: seq<Param>)
      requires Value() == MechWith(ps)
      modifies this
      ensures Value() == MechWith(ps + [Param(name, value)])
    {
      ghost var p := Param(name, value);
      FirstStays(ps, p, "prot");
      FirstStays(ps, p, "ealg");
      FirstStays(ps, p, "alg");
      FirstStays(ps, p, "spi-c");
      FirstStays(ps, p, "spi-s");
      if name == "prot" {
        if prot.None? { prot := Some(value); }
      } else if name == "ealg" {
        if ealg.None? { ealg := Some(value); }
      } else if name == "alg" {
        if alg.None? { alg := Some(value); }
      } else if name == "spi-c" {
        if spiC.None? { spiC := Some(value); }
      } else if name == "spi-s" {
        if spiS.None? { spiS := Some(value); }
      }
    }
  }

  /** The token between two places of a header. */
  method ReadToken(h: string, start: nat, end: nat) returns (out: string)
    requires start <= end <= |h|
    ensures out == Token(h[start..end])
  {
    var a := SkipSpace(h, start, end);
    var z := SkipSpaceBack(h, start, a, end);
    SliceOfSlice(h, start, end, a - start, z - start);
    out := Lowered(h[a..z]);
  }

  method SkipSpace(h: string, start: nat, end: nat) returns (a: nat)
    requires start <= end <= |h|
    ensures start <= a <= end && a - start == SkipLeft(h[start..end], 0)
  {
    ghost var s := h[start..end];
    a := start;
    while a < end && IsSpace(h[a])
      invariant start <= a <= end && SkipLeft(s, a - start) == SkipLeft(s, 0)
    {
      assert h[a] == s[a - start];
      a := a + 1;
    }
    assert a < end ==> h[a] == s[a - start];
  }

  method SkipSpaceBack(h: string, start: nat, a: nat, end: nat) returns (z: nat)
    requires start <= a <= end <= |h|
    ensures a <= z <= end && z - start == SkipRight(h[start..end], a - start, end - start)
  {
    ghost var s := h[start..end];
    z := end;
    while z > a && IsSpace(h[z - 1])
      invariant a <= z <= end && SkipRight(s, a - start, z - start) == SkipRight(s, a - start, |s|)
    {
      assert h[z - 1] == s[z - 1 - start];
      z := z - 1;
    }
    assert z > a ==> h[z - 1] == s[z - 1 - start];
  }

  lemma NothingLeft()
    ensures ParamOf("") == [] && OfferOf("") == None
  {
    assert Split("", ';') == [""];
    assert Collect([""], ParamOf) == ParamOf("") + Collect([], ParamOf);
  }

  /** The parameters of the mechanism between two places of a header. */
  method ReadMechanism(h: string, start: nat, end: nat) returns (mech: Mechanism)
    requires start <= end <= |h|
    ensures fresh(mech) && mech.Value() == MechOf(h[start..end])
  {
    mech := new Mechanism();
    NothingLeft();
    ReadParts(h, start, end, h[start..end], mech, ParamOf);
  }

  lemma SamePiece(h: string, start: nat, end: nat, m: string, i: nat, j: nat)
    requires start <= end <= |h| && m == h[start..end] && i <= j <= |m|
    ensures m[i..j] == h[start + i..start + j]
  {
    SliceOfSlice(h, start, end, i, j);
  }

  method ReadParts(h: string, start: nat, end: nat, m: string, mech: Mechanism, ghost f: string -> seq<Param>)
    requires start <= end <= |h| && m == h[start..end] && mech.Value() == MechWith([])
    requires f == ParamOf && f("") == []
    modifies mech
    ensures mech.Value() == MechWith(Collect(Split(m, ';'), f))
  {
    ghost var done: seq<Param> := [];
    ghost var rest := Collect(Split(m, ';'), f);
    ghost var all := rest;
    ghost var i := 0;
    var part := start;
    while part < end
      invariant start <= part <= end && mech.Value() == MechWith(done)
      invariant part == start + i && rest == Collect(SplitFrom(m, ';', i), f) && all == done + rest
      decreases end - part
    {
      var partEnd := start + Find(m, ';', part - start);
      SamePiece(h, start, end, m, i, Find(m, ';', i));
      var text := h[part..partEnd];
      ghost var more := done + f(text);
      ghost var less, next := PassPart(m, ';', i, text, f, done, more, rest, all);
      ReadPart(h, part, partEnd, text, mech, done, more, f);
      part := if partEnd < end then partEnd + 1 else end;
      done, rest, i := more, less, next;
    }
    CollectEnd(m, ';', f);
    assert done == all;
  }

  method ReadPart(h: string, part: nat, partEnd: nat, s: string, mech: Mechanism, ghost done: seq<Param>,
                  ghost more: seq<Param>, ghost f: string -> seq<Param>)
    requires part <= partEnd <= |h| && s == h[part..partEnd] && mech.Value() == MechWith(done)
    requires f == ParamOf && more == done + f(s)
    modifies mech
    ensures mech.Value() == MechWith(more)
  {
    var eq := part + Find(s, '=', 0);
    if eq < partEnd {
      var name, value := ReadParam(h, part, eq, partEnd, s);
      mech.Set(name, value, done);
    } else {
      assert done + [] == done;
    }
  }

  method ReadParam(h: string, part: nat, eq: nat, partEnd: nat, ghost s: string) returns (name: string, value: string)
    requires part <= eq < partEnd <= |h| && s == h[part..partEnd] && eq == part + Find(s, '=', 0)
    ensures ParamOf(s) == [Param(name, value)]
  {
    SliceOfSlice(h, part, partEnd, 0, eq - part);
    SliceOfSlice(h, part, partEnd, eq - part + 1, |s|);
    name := ReadToken(h, part, eq);
    value := ReadToken(h, eq + 1, partEnd);
  }

  /** The first mechanism of a header that offers an SPI. */
  method ReadHeader(header: string) returns (ok: bool, out: Mech, spis: Spis)
    ensures ok <==> Offer(header).Some?
    ensures ok ==> Some(out) == Offer(header) && spis == SpisOf(out)
  {
    NothingLeft();
    ok, out, spis := ScanHeader(header, OfferOf);
  }

  method ScanHeader(header: string, ghost f: string -> Option<Mech>) returns (ok: bool, out: Mech, spis: Spis)
    requires f == OfferOf && f("") == None
    ensures ok <==> FirstSome(Split(header, ','), f).Some?
    ensures ok ==> Some(out) == FirstSome(Split(header, ','), f) && spis == SpisOf(out)
  {
    var start := 0;
    ok := false;
    out, spis := Mech(None, None, None, None, None), Spis(None, None);
    while start < |header|
      invariant start <= |header| && !ok
      invariant FirstSome(SplitFrom(header, ',', start), f) == FirstSome(SplitFrom(header, ',', 0), f)
      decreases |header| - start
    {
      FirstSomeNext(header, ',', start, f);
      var end := Find(header, ',', start);
      ok, out, spis := TryMechanism(header, start, end, header[start..end], f);
      if ok {
        return;
      }
      FirstSomeEnd(header, ',', f);
      start := if end < |header| then end + 1 else end;
    }
    FirstSomeEnd(header, ',', f);
  }

  method TryMechanism(header: string, start: nat, end: nat, ghost m: string, ghost f: string -> Option<Mech>)
      returns (ok: bool, out: Mech, spis: Spis)
    requires start <= end <= |header| && m == header[start..end] && f == OfferOf
    ensures ok <==> f(m).Some?
    ensures ok ==> Some(out) == f(m) && spis == SpisOf(out)
  {
    var mech := ReadMechanism(header, start, end);
    out := mech.Value();
    spis := SpisOf(out);
    ok := spis.c.Some? || spis.s.Some?;
  }
}
