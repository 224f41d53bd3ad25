/** The times src/capture.go finds in a file, in numbers: as draft-ietf-opsawg-pcapng has
    counts (section 4.3), their units (4.2) and the bytes of blocks (3.1). */
module PcapngTimes {
  import opened Basics
  import opened Options
  import opened PcapngFormat
  import opened PcapngClock
  import opened PcapngWalk
  import opened PcapngFiles

  // -------------------------------------------------------------------- units --

  predicate SaysUnits(o: Opt) {
    o.code == 9 && o.value != []
  }

  /** How many counts make a second: what the first if_tsresol with a value says, a power of
      ten or of two, and a million where there is none. */
  ghost predicate PerSecond(os: seq<Opt>, per: nat) {
    && ((forall i :: 0 <= i < |os| ==> !SaysUnits(os[i])) ==> per == 1000000)
    && (forall i :: 0 <= i < |os| && SaysUnits(os[i]) && (forall j :: 0 <= j < i ==> !SaysUnits(os[j])) ==>
          per == Units(os[i].value[0]))
  }

  function Units(v: byte): nat {
    if v < 19 then Power(10, v) else if v < 128 then Power(10, 19) else if v < 192 then Power(2, v - 128) else 0
  }

  lemma {:induction false} ResolutionSays(os: seq<Opt>)
    ensures PerSecond(os, Resolution(os))
  {
    if os != [] && !SaysUnits(os[0]) {
      var rest := os[1..];
      ResolutionSays(rest);
      assert forall i :: 0 < i < |os| ==> os[i] == rest[i - 1];
      if forall i :: 0 <= i < |os| ==> !SaysUnits(os[i]) {
        assert forall i :: 0 <= i < |rest| ==> rest[i] == os[i + 1];
      }
      forall i | 0 <= i < |os| && SaysUnits(os[i]) && (forall j :: 0 <= j < i ==> !SaysUnits(os[j]))
        ensures Resolution(os) == Units(os[i].value[0])
      {
        assert forall j :: 0 <= j < i - 1 ==> rest[j] == os[j + 1];
      }
    }
  }

  lemma {:induction false} OneSays(os: seq<Opt>, a: nat, b: nat)
    requires PerSecond(os, a) && PerSecond(os, b)
    ensures a == b
  {
    if exists i :: 0 <= i < |os| && SaysUnits(os[i]) {
      var i :| 0 <= i < |os| && SaysUnits(os[i]);
      FirstOf(os, i);
    }
  }

  lemma {:induction false} FirstOf(os: seq<Opt>, i: nat)
    requires i < |os| && SaysUnits(os[i])
    ensures exists k :: 0 <= k < |os| && SaysUnits(os[k]) && forall j :: 0 <= j < k ==> !SaysUnits(os[j])
    decreases i
  {
    if exists j :: 0 <= j < i && SaysUnits(os[j]) {
      var j :| 0 <= j < i && SaysUnits(os[j]);
      FirstOf(os, j);
    }
  }

  // ------------------------------------------------------------------- counts --

  /** The interfaces described, in order. */
  function Described(bs: seq<Block>): seq<Block> {
    if bs == [] then []
    else Described(bs[..|bs| - 1]) + (if bs[|bs| - 1].Interface? then [bs[|bs| - 1]] else [])
  }

  lemma {:induction false} DescribedUnits(bs: seq<Block>)
    ensures |UnitsOf(bs)| == |Described(bs)|
    ensures forall k :: 0 <= k < |Described(bs)| ==>
      Described(bs)[k].Interface? && UnitsOf(bs)[k] == Resolution(Described(bs)[k].options)
  {
    if bs != [] {
      DescribedUnits(bs[..|bs| - 1]);
    }
  }

  /** A packet counted so many units, so many of which make a second on its interface, as
      far as that has been described. */
  ghost predicate Counted(before: seq<Block>, b: Block, count: nat, per: nat) {
    && b.Packet? && count < 0x1_0000_0000_0000_0000
    && b.high == count / 0x1_0000_0000 && b.low == count % 0x1_0000_0000
    && (if b.iface < |Described(before)| then
          Described(before)[b.iface].Interface? && PerSecond(Described(before)[b.iface].options, per)
        else per == 1000000)
  }

  /** Its time is then the count in milliseconds, where the unit is one that comes out right. */
  lemma CountedTime(before: seq<Block>, b: Block, count: nat, per: nat)
    requires Counted(before, b, count, per) && 2000 <= per <= 18446744073709552
    ensures AllFit(UnitsOf(before)) && TimeOf(b, UnitsOf(before)) == count * 1000 / per
  {
    UnitsSmall(before);
    UnitIs(before, b, count, per);
    MillisOf(UnitsOf(before), b.iface, b.high, b.low, count, per);
  }

  lemma UnitIs(before: seq<Block>, b: Block, count: nat, per: nat)
    requires Counted(before, b, count, per)
    ensures per == if b.iface < |UnitsOf(before)| then UnitsOf(before)[b.iface] else 1000000
  {
    DescribedUnits(before);
    if b.iface < |Described(before)| {
      ResolutionSays(Described(before)[b.iface].options);
      OneSays(Described(before)[b.iface].options, per, Resolution(Described(before)[b.iface].options));
    }
  }

  lemma MillisOf(units: seq<nat>, iface: U32, high: U32, low: U32, count: nat, per: nat)
    requires AllFit(units) && count < 0x1_0000_0000_0000_0000 && 2000 <= per <= 18446744073709552
    requires high == count / 0x1_0000_0000 && low == count % 0x1_0000_0000
    requires per == if iface < |units| then units[iface] else 1000000
    ensures PacketMillis(iface, high, low, units) == count * 1000 / per
  {
    Halved(count, high, low);
    ExactInside(count, per);
  }

  lemma Halved(count: nat, high: nat, low: nat)
    requires high == count / 0x1_0000_0000 && low == count % 0x1_0000_0000
    ensures high * 0x1_0000_0000 + low == count
  {
  }

  // -------------------------------------------------------------------- times --

  ghost predicate NoPacket(bs: seq<Block>) {
    forall j :: 0 <= j < |bs| ==> !bs[j].Packet?
  }

  /** A file says it begins when its first packet was, by that packet's own interface: where
      that is among its first 4096 blocks. */
  lemma FirstTime(big: bool, bs: seq<Block>, first: nat, count: nat, per: nat)
    requires FileOk(big, bs) && first < |bs| && first < 4096 && NoPacket(bs[..first])
    requires Counted(bs[..first], bs[first], count, per) && 2000 <= per <= 18446744073709552
    requires count * 1000 / per > 0
    ensures Times(Serialize(big, bs)).0 == count * 1000 / per
  {
    CountedTime(bs[..first], bs[first], count, per);
    NoneSooner(bs, first);
    TimesOfFile(big, bs, first, first);
  }

  lemma NoneSooner(bs: seq<Block>, first: nat)
    requires first < |bs| && first < 4096 && NoPacket(bs[..first]) && HasTime(bs, first)
    ensures IsFirst(bs, first)
  {
    forall j | 0 <= j < first ensures !HasTime(bs, j) {
      assert bs[..first][j] == bs[j];
    }
  }

  /** And that it ends when its last was: where that is among its last 4096 blocks, and its
      interface was described before the first packet. */
  lemma LastTime(big: bool, bs: seq<Block>, first: nat, sooner: nat, unit: nat, last: nat, count: nat, per: nat)
    requires FileOk(big, bs) && first < |bs| && first < 4096 && NoPacket(bs[..first])
    requires Counted(bs[..first], bs[first], sooner, unit) && 2000 <= unit <= 18446744073709552
    requires sooner * 1000 / unit > 0
    requires last < |bs| && |bs| - last <= 4096 && NoPacket(bs[last + 1..])
    requires Counted(bs[..first], bs[last], count, per) && 2000 <= per <= 18446744073709552
    ensures Times(Serialize(big, bs)).1 == count * 1000 / per
  {
    CountedTime(bs[..first], bs[first], sooner, unit);
    NoneSooner(bs, first);
    CountedTime(bs[..first], bs[last], count, per);
    forall j | last < j < |bs| ensures !bs[j].Packet? {
      assert bs[last + 1..][j - last - 1] == bs[j];
    }
    TimesOfFile(big, bs, first, last);
  }

  // ------------------------------------------------------------------- layout --

  /** Four bytes of a file as a number. */
  function NumberAt(f: Bytes, big: bool, pos: nat): nat
    requires pos + 4 <= |f|
  {
    var (a, b, c, d) := (f[pos] as int, f[pos + 1] as int, f[pos + 2] as int, f[pos + 3] as int);
    if big then a * 0x100_0000 + b * 0x1_0000 + c * 0x100 + d else d * 0x100_0000 + c * 0x1_0000 + b * 0x100 + a
  }

  /** There is a block at a place of any file exactly if its type and length are there, and the
      length is one a block may have; and one ends at a place exactly if the length before it
      leads back to a block of that length. */
  lemma BlockSays(f: Bytes, big: bool, pos: nat)
    ensures BlockAt(f, big, pos).Some? <==>
      pos + 8 <= |f| && 12 <= NumberAt(f, big, pos + 4) <= 16777216 && NumberAt(f, big, pos + 4) % 4 == 0
    ensures BlockAt(f, big, pos).Some? ==>
      BlockAt(f, big, pos) == Some(Head(NumberAt(f, big, pos), NumberAt(f, big, pos + 4)))
  {
    if pos + 8 <= |f| {
      SliceOfSlice(f, pos, pos + 8, 0, 4);
      SliceOfSlice(f, pos, pos + 8, 4, 8);
      NumberOf(f, big, pos, f[pos..pos + 8][0..4]);
      NumberOf(f, big, pos + 4, f[pos..pos + 8][4..8]);
    }
  }

  lemma BlockEndSays(f: Bytes, big: bool, pos: nat, start: nat)
    ensures BackFrom(f, big, pos) == Some(start) <==>
      4 <= pos <= |f| && NumberAt(f, big, pos - 4) == pos - start
      && BlockAt(f, big, start).Some? && BlockAt(f, big, start).value.length == pos - start
  {
    if 4 <= pos <= |f| {
      NumberOf(f, big, pos - 4, f[pos - 4..pos]);
    }
  }

  lemma NumberOf(f: Bytes, big: bool, pos: nat, b: Bytes)
    requires pos + 4 <= |f| && b == f[pos..pos + 4]
    ensures Get32(big, b) == NumberAt(f, big, pos)
  {
    assert b[0] == f[pos] && b[1] == f[pos + 1] && b[2] == f[pos + 2] && b[3] == f[pos + 3];
  }

  /** What may be a block: whole words of no more than sixteen megabytes, its type and its
      lengths with it. */
  lemma BlockSizes(big: bool, b: Block)
    requires BodyOk(b)
    ensures BlockOk(big, b) <==> |Body(big, b)| % 4 == 0 && |Body(big, b)| + 12 <= 16777216
  {
  }

  /** The bytes of a section header in the one byte order and in the other, and then those of
      a packet and of an interface. */
  lemma SectionLayout()
    ensures BlockOk(false, Section([1, 0, 0, 0])) && BlockBytes(false, Section([1, 0, 0, 0]))
      == [0x0a, 0x0d, 0x0d, 0x0a] + [20, 0, 0, 0] + ([0x4d, 0x3c, 0x2b, 0x1a] + [1, 0, 0, 0]) + [20, 0, 0, 0]
  {
    assert Put32(false, Magic) == [0x4d, 0x3c, 0x2b, 0x1a];
    assert Put32(false, TypeSection) == [0x0a, 0x0d, 0x0d, 0x0a] && Put32(false, 20) == [20, 0, 0, 0];
  }

  lemma OtherSectionLayout()
    ensures BlockOk(true, Section([0, 1, 0, 0])) && BlockBytes(true, Section([0, 1, 0, 0]))
      == [0x0a, 0x0d, 0x0d, 0x0a] + [0, 0, 0, 20] + ([0x1a, 0x2b, 0x3c, 0x4d] + [0, 1, 0, 0]) + [0, 0, 0, 20]
  {
    OtherWords();
  }

  lemma OtherWords()
    ensures Put32(true, TypeSection) == [0x0a, 0x0d, 0x0d, 0x0a] && Put32(true, 20) == [0, 0, 0, 20]
    ensures Put32(true, Magic) == [0x1a, 0x2b, 0x3c, 0x4d]
  {
  }

  lemma PacketLayout()
    ensures BlockOk(true, Packet(1, 2, 3, [])) && BlockBytes(true, Packet(1, 2, 3, []))
      == [0, 0, 0, 6, 0, 0, 0, 24, 0, 0, 0, 1, 0, 0, 0, 2, 0, 0, 0, 3, 0, 0, 0, 24]
  {
    assert Put32(true, TypePacket) == [0, 0, 0, 6] && Put32(true, 24) == [0, 0, 0, 24];
    assert Put32(true, 1) == [0, 0, 0, 1] && Put32(true, 2) == [0, 0, 0, 2] && Put32(true, 3) == [0, 0, 0, 3];
  }

  lemma OptionLayout()
    ensures OptsOk([Opt(9, [6])]) && OptsBytes(false, [Opt(9, [6])]) == [9, 0, 1, 0, 6, 0, 0, 0]
  {
    var os := [Opt(9, [6])];
    assert Put16(false, 9) == [9, 0] && Put16(false, 1) == [1, 0] && Padding(1) == [0, 0, 0];
    assert OptBytes(false, os[0]) == [9, 0, 1, 0, 6, 0, 0, 0];
    assert os[1..] == [] && OptsBytes(false, os) == OptBytes(false, os[0]) + OptsBytes(false, []);
  }

  lemma InterfaceLayout()
    ensures var b := Interface([1, 0, 0, 0, 0, 0, 4, 0], [Opt(9, [6])], [0, 0, 0, 0]);
      BlockOk(false, b) && BlockBytes(false, b)
        == [1, 0, 0, 0, 32, 0, 0, 0] + ([1, 0, 0, 0, 0, 0, 4, 0] + [9, 0, 1, 0, 6, 0, 0, 0] + [0, 0, 0, 0])
           + [32, 0, 0, 0]
  {
    OptionLayout();
    assert Put32(false, TypeInterface) == [1, 0, 0, 0] && Put32(false, 32) == [32, 0, 0, 0];
  }
}
