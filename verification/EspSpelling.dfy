/** Security-agreement headers written out and read back (plugins/ims_esp/packet-ims-esp.c;
    section 2.2 of RFC 3329). */
module EspSpelling {
  import opened Basics
  import opened Options
  import opened EspHeader

  ghost predicate NoneHas(parts: seq<string>, sep: char) {
    forall i :: 0 <= i < |parts| ==> sep !in parts[i]
  }

  /** Where a part ends that has no separator in it. */
  lemma FindAfter(before: string, part: string, tail: string, sep: char, s: string)
    requires s == before + (part + tail) && sep !in part && (tail == "" || tail[0] == sep)
    ensures Find(s, sep, |before|) == |before| + |part| && s[|before|..|before| + |part|] == part
    ensures s[|before| + |part|..] == tail
  {
    var n := |before|;
    Middle(before, part, tail, s);
    forall i | n <= i < n + |part| ensures s[i] != sep {
      assert s[i] == s[n..n + |part|][i - n];
    }
    assert tail != "" ==> s[n + |part|] == s[n + |part|..][0];
    FindsIt(s, sep, n, n + |part|);
  }

  lemma Middle(before: string, part: string, tail: string, s: string)
    requires s == before + (part + tail)
    ensures s[|before|..|before| + |part|] == part && s[|before| + |part|..] == tail
  {
    assert s[|before|..] == part + tail;
  }

  lemma FindsIt(s: string, sep: char, n: nat, end: nat)
    requires n <= end <= |s| && (forall i :: n <= i < end ==> s[i] != sep) && (end < |s| ==> s[end] == sep)
    ensures Find(s, sep, n) == end
  {
  }

  lemma {:induction false} SplitFromJoined(before: string, at: nat, parts: seq<string>, sep: char, s: string)
    requires parts != [] && NoneHas(parts, sep) && at == |before| && s == before + Join(parts, sep)
    ensures SplitFrom(s, sep, at) == parts
    decreases |parts|
  {
    if |parts| > 1 {
      var part, rest, next := parts[0], parts[1..], at + |parts[0]| + 1;
      var more := JoinFirst(before, parts, sep, s);
      SplitFromJoined(before + part + [sep], next, rest, sep, s);
      FindBefore(before, at, part, more, sep, s);
      PartThenRest(s, sep, at, part, rest, next);
      assert parts == [part] + rest;
    } else {
      LastPart(before, parts[0], sep, s);
      assert parts == [parts[0]];
    }
  }

  lemma JoinFirst(before: string, parts: seq<string>, sep: char, s: string) returns (more: string)
    requires |parts| > 1 && s == before + Join(parts, sep)
    ensures s == before + (parts[0] + [sep] + more) && s == (before + parts[0] + [sep]) + Join(parts[1..], sep)
    ensures |before + parts[0] + [sep]| == |before| + |parts[0]| + 1
  {
    more := Join(parts[1..], sep);
    JoinMore(before, parts[0], sep, more, s);
  }

  lemma PartThenRest(s: string, sep: char, at: nat, part: string, rest: seq<string>, next: nat)
    requires at + |part| < |s| && Find(s, sep, at) == at + |part| && s[at..at + |part|] == part
    requires next == at + |part| + 1 && SplitFrom(s, sep, next) == rest
    ensures SplitFrom(s, sep, at) == [part] + rest
  {
  }

  lemma FindBefore(before: string, at: nat, part: string, more: string, sep: char, s: string)
    requires at == |before| && s == before + (part + [sep] + more) && sep !in part
    ensures at + |part| < |s| && Find(s, sep, at) == at + |part| && s[at..at + |part|] == part
  {
    var tail := [sep] + more;
    JoinMore(before, part, sep, more, s);
    FindAfter(before, part, tail, sep, s);
  }

  lemma LastPart(before: string, part: string, sep: char, s: string)
    requires s == before + part && sep !in part
    ensures SplitFrom(s, sep, |before|) == [part]
  {
    JoinLast(before, part, s);
    FindAfter(before, part, "", sep, s);
    SplitStep(s, sep, |before|);
  }

  lemma JoinLast(before: string, part: string, s: string)
    requires s == before + part
    ensures s == before + (part + "")
  {
  }

  lemma JoinMore(before: string, part: string, sep: char, more: string, s: string)
    requires s == before + (part + [sep] + more)
    ensures s == before + (part + ([sep] + more)) && s == (before + part + [sep]) + more
    ensures |before + part + [sep]| == |before| + |part| + 1
  {
  }

  /** Parts without a separator in them come back from their joining. */
  lemma SplitOfJoin(parts: seq<string>, sep: char)
    requires parts != [] && NoneHas(parts, sep)
    ensures Split(Join(parts, sep), sep) == parts
  {
    var s := Join(parts, sep);
    assert s == "" + s;
    SplitFromJoined("", 0, parts, sep, s);
  }

  // -------------------------------------------------------------- mechanisms --

  /** Spelled in small letters, with no white space and no mark of the header's own. */
  predicate Simple(s: string) {
    forall i :: 0 <= i < |s| ==> SimpleChar(s[i])
  }

  predicate SimpleChar(c: char) {
    !('A' <= c <= 'Z') && c !in " \t\n\r,;=" && c != '\U{000C}'
  }

  lemma SimpleToken(s: string)
    requires Simple(s)
    ensures Token(s) == s
  {
    assert s[0..|s|] == s;
    assert Lowered(s) == s;
    assert s != "" ==> SkipLeft(s, 0) == 0 && SkipRight(s, 0, |s|) == |s|;
  }

  function Written(p: Param): string {
    p.name + "=" + p.value
  }

  predicate SimpleParam(p: Param) {
    Simple(p.name) && Simple(p.value)
  }

  lemma FindFirst(s: string, c: char, n: nat)
    requires n <= |s| && (forall i :: 0 <= i < n ==> s[i] != c) && (n < |s| ==> s[n] == c)
    ensures Find(s, c, 0) == n
  {
  }

  lemma ParamRead(p: Param)
    requires SimpleParam(p)
    ensures ParamOf(Written(p)) == [p] && ';' !in Written(p) && ',' !in Written(p)
  {
    var s := Written(p);
    NoMarks(p.name);
    NoMarks(p.value);
    assert s == "" + (p.name + ("=" + p.value));
    FindAfter("", p.name, "=" + p.value, '=', s);
    assert s[..|p.name|] == s[0..|p.name|];
    SimpleToken(p.name);
    SimpleToken(p.value);
  }

  lemma NoMarks(s: string)
    requires Simple(s)
    ensures '=' !in s && ';' !in s && ',' !in s
  {
  }

  /** A mechanism: its name, and its parameters after it. */
  function Spelled(name: string, ps: seq<Param>): string {
    Join([name] + Parts(ps), ';')
  }

  function Parts(ps: seq<Param>): (r: seq<string>)
    ensures |r| == |ps| && forall i :: 0 <= i < |ps| ==> r[i] == Written(ps[i])
  {
    seq(|ps|, i requires 0 <= i < |ps| => Written(ps[i]))
  }

  ghost predicate SimpleParams(ps: seq<Param>) {
    forall i :: 0 <= i < |ps| ==> SimpleParam(ps[i])
  }

  lemma {:induction false} PartsRead(ps: seq<Param>)
    requires SimpleParams(ps)
    ensures Collect(Parts(ps), ParamOf) == ps
    decreases |ps|
  {
    if ps != [] {
      var rest := ps[1..];
      ParamRead(ps[0]);
      FirstPart(ps);
      CollectCons(Written(ps[0]), Parts(rest), ParamOf);
      PartsRead(rest);
      assert ps == [ps[0]] + rest;
    }
  }

  lemma FirstPart(ps: seq<Param>)
    requires ps != []
    ensures Parts(ps) == [Written(ps[0])] + Parts(ps[1..])
  {
    assert ps == [ps[0]] + ps[1..];
  }

  /** What is written as parameters is read as them. */
  lemma ParamsComeBack(name: string, ps: seq<Param>)
    requires Simple(name) && SimpleParams(ps)
    ensures Params(Spelled(name, ps)) == ps
  {
    var parts := [name] + Parts(ps);
    forall i | 0 <= i < |parts| ensures ';' !in parts[i] {
      if i > 0 {
        ParamRead(ps[i - 1]);
      }
    }
    SplitOfJoin(parts, ';');
    FindFirst(name, '=', |name|);
    CollectCons(name, Parts(ps), ParamOf);
    PartsRead(ps);
  }

  /** The value of a name is that of its first parameter, and nothing where there is none. */
  ghost predicate FirstNamed(ps: seq<Param>, name: string, value: Option<string>) {
    if value.Some? then
      exists i :: 0 <= i < |ps| && ps[i] == Param(name, value.value) && forall j :: 0 <= j < i ==> ps[j].name != name
    else forall i :: 0 <= i < |ps| ==> ps[i].name != name
  }

  lemma {:induction false} FirstValueIs(ps: seq<Param>, name: string)
    ensures FirstNamed(ps, name, FirstValue(ps, name))
    decreases |ps|
  {
    if ps != [] {
      var rest := ps[1..];
      FirstValueIs(rest, name);
      assert forall i :: 0 < i < |ps| ==> ps[i] == rest[i - 1];
      if ps[0].name == name {
        assert ps[0] == Param(name, ps[0].value);
      } else if FirstValue(rest, name).Some? {
        var i :| 0 <= i < |rest| && rest[i] == Param(name, FirstValue(rest, name).value)
          && forall j :: 0 <= j < i ==> rest[j].name != name;
        assert ps[i + 1] == rest[i];
      }
    }
  }

  /** So a mechanism means what its parameters say, each by its own name. */
  lemma MechanismSays(name: string, ps: seq<Param>)
    requires Simple(name) && SimpleParams(ps)
    ensures var m := MechOf(Spelled(name, ps));
      && FirstNamed(ps, "prot", m.prot) && FirstNamed(ps, "ealg", m.ealg) && FirstNamed(ps, "alg", m.alg)
      && FirstNamed(ps, "spi-c", m.spiC) && FirstNamed(ps, "spi-s", m.spiS)
  {
    ParamsComeBack(name, ps);
    FirstValueIs(ps, "prot");
    FirstValueIs(ps, "ealg");
    FirstValueIs(ps, "alg");
    FirstValueIs(ps, "spi-c");
    FirstValueIs(ps, "spi-s");
  }

  /** And a header of several means the first of them that has an SPI. */
  lemma HeaderSays(mechanisms: seq<string>, i: nat)
    requires i < |mechanisms| && NoneHas(mechanisms, ',')
    requires HasSpi(MechOf(mechanisms[i])) && forall j :: 0 <= j < i ==> !HasSpi(MechOf(mechanisms[j]))
    ensures Offer(Join(mechanisms, ',')) == Some(MechOf(mechanisms[i]))
  {
    var header := Join(mechanisms, ',');
    SplitOfJoin(mechanisms, ',');
    OfferIsFirst(header);
    AllOffer(mechanisms);
    var k :| 0 <= k < |mechanisms| && IsFirstOffer(mechanisms, k, Offer(header).value);
    assert k == i;
  }

  lemma AllOffer(mechanisms: seq<string>)
    ensures forall j :: 0 <= j < |mechanisms| ==> (Offers(MechOf(mechanisms[j])) <==> HasSpi(MechOf(mechanisms[j])))
  {
    forall j | 0 <= j < |mechanisms| ensures Offers(MechOf(mechanisms[j])) <==> HasSpi(MechOf(mechanisms[j])) {
      HasSpiOffers(MechOf(mechanisms[j]));
    }
  }

  lemma HasSpiOffers(m: Mech)
    ensures Offers(m) <==> HasSpi(m)
  {
  }

  predicate HasSpi(m: Mech) {
    (m.spiC.Some? && IsNumber(m.spiC.value)) || (m.spiS.Some? && IsNumber(m.spiS.value))
  }

  /** A decimal number of 32 bits. */
  predicate IsNumber(s: string) {
    s != "" && (forall i :: 0 <= i < |s| ==> '0' <= s[i] <= '9') && Decimal(s) <= 4294967295
  }

  // ------------------------------------------------------------------- tokens --

  predicate White(c: char) {
    var n := c as int; n == 32 || n == 9 || n == 10 || n == 13 || n == 12
  }

  /** A token is what is left of a text without the white space at its ends, in small letters. */
  ghost predicate IsToken(s: string, a: nat, z: nat, t: string)
    requires a <= z <= |s|
  {
    && (forall i :: 0 <= i < a || z <= i < |s| ==> White(s[i]))
    && (a < z ==> !White(s[a]) && !White(s[z - 1]))
    && |t| == z - a
    && forall i :: 0 <= i < |t| ==> if 'A' <= s[a + i] <= 'Z' then t[i] as int == s[a + i] as int + 32 else t[i] == s[a + i]
  }

  lemma TokenSays(s: string)
    ensures exists a, z :: 0 <= a <= z <= |s| && IsToken(s, a, z, Token(s))
  {
    var a := SkipLeft(s, 0);
    var z := SkipRight(s, a, |s|);
    assert s[a..z] == Trim(s);
    forall i | 0 <= i < z - a
      ensures if 'A' <= s[a + i] <= 'Z' then Token(s)[i] as int == s[a + i] as int + 32 else Token(s)[i] == s[a + i]
    {
      assert Trim(s)[i] == s[a + i];
    }
    if a < z {
      StopsRight(s, a, |s|);
    }
    assert IsToken(s, a, z, Token(s));
  }

  lemma StopsRight(s: string, a: nat, z: nat)
    requires a < |s| && a <= z <= |s| && !IsSpace(s[a])
    ensures a < z ==> SkipRight(s, a, z) > a
  {
  }

  // ------------------------------------------------------------------ numbers --

  /** A number as it is written. */
  function Text(n: nat): (s: string)
    ensures s != "" && forall i :: 0 <= i < |s| ==> '0' <= s[i] <= '9'
  {
    if n < 10 then ["0123456789"[n]] else Text(n / 10) + ["0123456789"[n % 10]]
  }

  /** What is written as a number is read as it. */
  lemma {:induction false} NumberComesBack(n: nat)
    ensures Decimal(Text(n)) == n
  {
    var s := Text(n);
    if n < 10 {
      OneDigit("", n);
      assert s == "" + ["0123456789"[n]];
    } else {
      NumberComesBack(n / 10);
      OneDigit(Text(n / 10), n % 10);
    }
  }

  lemma OneDigit(before: string, d: nat)
    requires d < 10
    ensures Decimal(before + ["0123456789"[d]]) == Decimal(before) * 10 + d
  {
    var s := before + ["0123456789"[d]];
    assert s[..|s| - 1] == before;
  }

  /** So a party that writes an SPI in decimal has it in the table in hex. */
  lemma SpiComesBack(n: nat)
    requires n < 0x1_0000_0000
    ensures Spi(Some(Text(n))).Some? && Unhex(Spi(Some(Text(n))).value[2..]) == n
  {
    NumberComesBack(n);
    SpiReads(Text(n));
  }
}
