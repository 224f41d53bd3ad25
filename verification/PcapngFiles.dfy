/** What the walks of src/capture.go make of a file that is a list of blocks. */
module PcapngFiles {
  import opened Basics
  import opened Options
  import opened PcapngFormat
  import opened PcapngClock
  import opened PcapngWalk

  // ---------------------------------------------------------------- options --

  /** The units of the first if_tsresol option that has a value, or microseconds. */
  function Resolution(os: seq<Opt>): nat {
    if os == [] then Microseconds
    else if os[0].code == 9 && os[0].value != [] then Unit(os[0].value[0])
    else Resolution(os[1..])
  }

  lemma {:induction false} ResolutionRead(f: Bytes, big: bool, pos: nat, limit: nat, os: seq<Opt>, rest: Bytes)
    requires OptsOk(os) && RestOk(rest)
    requires pos <= limit <= |f| && f[pos..limit] == OptsBytes(big, os) + rest
    ensures ResolutionAt(f, big, pos, limit) == Resolution(os)
    decreases |os|
  {
    if os == [] {
      EndRead(f, big, pos, limit, rest);
    } else {
      var more := OptsBytes(big, os[1..]) + rest;
      OptsSplit(big, os, rest);
      OptionRead(f, big, pos, limit, os[0], more);
      if os[0].code != 9 || os[0].value == [] {
        ResolutionRead(f, big, pos + |OptBytes(big, os[0])|, limit, os[1..], rest);
      }
    }
  }

  lemma OptsSplit(big: bool, os: seq<Opt>, rest: Bytes)
    requires OptsOk(os) && os != []
    ensures OptsBytes(big, os) + rest == OptBytes(big, os[0]) + (OptsBytes(big, os[1..]) + rest)
  {
  }

  lemma EndRead(f: Bytes, big: bool, pos: nat, limit: nat, rest: Bytes)
    requires RestOk(rest) && pos <= limit <= |f| && f[pos..limit] == rest
    ensures ResolutionAt(f, big, pos, limit) == Microseconds
  {
    if rest != [] {
      SliceOfSlice(f, pos, limit, 0, 4);
      assert rest[0..4][0..2] == [0, 0];
    }
  }

  /** One option on the way to if_tsresol. */
  lemma OptionRead(f: Bytes, big: bool, pos: nat, limit: nat, o: Opt, more: Bytes)
    requires OptOk(o) && pos <= limit <= |f| && f[pos..limit] == OptBytes(big, o) + more
    ensures var next := pos + |OptBytes(big, o)|;
      && next <= limit && f[next..limit] == more
      && ResolutionAt(f, big, pos, limit)
         == (if o.code == 9 && o.value != [] then Unit(o.value[0]) else ResolutionAt(f, big, next, limit))
  {
    OptionFields(f, big, pos, limit, o, more);
  }

  /** The fields of one option, read from the file it is in. */
  lemma OptionFields(f: Bytes, big: bool, pos: nat, limit: nat, o: Opt, more: Bytes)
    requires OptOk(o) && pos <= limit <= |f|
    requires f[pos..limit] == OptBytes(big, o) + more
    ensures pos + 4 <= limit
    ensures Get16(big, f[pos..pos + 4][0..2]) == o.code && Get16(big, f[pos..pos + 4][2..4]) == |o.value|
    ensures o.value != [] ==> pos + 5 <= limit && f[pos + 4..pos + 5] == o.value[..1]
    ensures |OptBytes(big, o)| == 4 + (|o.value| + 3) / 4 * 4
    ensures pos + |OptBytes(big, o)| <= limit && f[pos + |OptBytes(big, o)|..limit] == more
  {
    var s, b := f[pos..limit], OptBytes(big, o);
    OptionParts(Put16(big, o.code), Put16(big, |o.value|), o.value, Padding(|o.value|), more, s);
    Got16(big, o.code);
    Got16(big, |o.value|);
    SliceOfSlice(f, pos, limit, 0, 4);
    SliceOfSlice(f, pos, limit, |b|, |s|);
    if o.value != [] {
      SliceOfSlice(f, pos, limit, 4, 5);
    }
  }

  lemma OptionParts(code: Bytes, size: Bytes, value: Bytes, pad: Bytes, more: Bytes, s: Bytes)
    requires |code| == |size| == 2 && s == code + size + value + pad + more
    ensures s[0..4][0..2] == code && s[0..4][2..4] == size
    ensures value != [] ==> s[4..5] == value[..1]
    ensures s[4 + |value| + |pad|..] == more
  {
  }

  // ------------------------------------------------------------- one block --

  /** A block of a file, and where it lies. */
  predicate Lies(f: Bytes, big: bool, pos: nat, end: nat, b: Block) {
    && BlockOk(big, b) && end == pos + Length(big, b)
    && PartsAt(f, pos, end, Put32(big, Kind(b)), Put32(big, Length(big, b)), Body(big, b))
  }

  lemma EachLies(big: bool, bs: seq<Block>, i: nat)
    requires BlocksOk(big, bs) && i < |bs|
    ensures Lies(Serialize(big, bs), big, Offset(big, bs, i), Offset(big, bs, i + 1), bs[i])
  {
    Parts(big, bs, i);
  }

  lemma BlockRead(f: Bytes, big: bool, pos: nat, end: nat, b: Block)
    requires Lies(f, big, pos, end, b)
    ensures MinBlock <= end - pos && BlockAt(f, big, pos) == Some(Head(Kind(b), end - pos))
  {
    Found(f, big, pos, end, Kind(b), Length(big, b), Body(big, b));
  }

  lemma Found(f: Bytes, big: bool, pos: nat, end: nat, kind: U32, length: nat, body: Bytes)
    requires Sane(length) && end == pos + length
    requires PartsAt(f, pos, end, Put32(big, kind), Put32(big, length), body)
    ensures MinBlock <= end - pos && BlockAt(f, big, pos) == Some(Head(kind, end - pos))
  {
    HeadRead(f, big, pos, kind, length);
  }

  lemma HeadRead(f: Bytes, big: bool, pos: nat, kind: U32, length: nat)
    requires Sane(length) && pos + 8 <= |f|
    requires f[pos..pos + 4] == Put32(big, kind) && f[pos + 4..pos + 8] == Put32(big, length)
    ensures BlockAt(f, big, pos) == Some(Head(kind, length))
  {
    Got32(big, kind);
    Got32(big, length);
    SliceOfSlice(f, pos, pos + 8, 0, 4);
    SliceOfSlice(f, pos, pos + 8, 4, 8);
  }

  /** Backwards, every block is found from where it ends. */
  lemma BlockReadBack(f: Bytes, big: bool, pos: nat, end: nat, b: Block)
    requires Lies(f, big, pos, end, b)
    ensures BackFrom(f, big, end) == Some(pos)
  {
    FoundBack(f, big, pos, end, Kind(b), Length(big, b), Body(big, b));
  }

  lemma FoundBack(f: Bytes, big: bool, pos: nat, end: nat, kind: U32, length: nat, body: Bytes)
    requires Sane(length) && end == pos + length
    requires PartsAt(f, pos, end, Put32(big, kind), Put32(big, length), body)
    ensures BackFrom(f, big, end) == Some(pos)
  {
    Found(f, big, pos, end, kind, length, body);
    TailRead(f, big, pos, end, kind, length);
  }

  lemma TailRead(f: Bytes, big: bool, pos: nat, end: nat, kind: U32, length: nat)
    requires Sane(length) && end == pos + length <= |f| && f[end - 4..end] == Put32(big, length)
    requires BlockAt(f, big, pos) == Some(Head(kind, length))
    ensures BackFrom(f, big, end) == Some(pos)
  {
    Got32(big, length);
  }

  lemma InterfaceRead(f: Bytes, big: bool, pos: nat, end: nat, fixed: Bytes, os: seq<Opt>, rest: Bytes)
    requires |fixed| == 8 && OptsOk(os) && RestOk(rest)
    requires pos + 8 <= end - 4 <= |f| && f[pos + 8..end - 4] == fixed + OptsBytes(big, os) + rest
    ensures ResolutionOf(f, big, pos + 8, end - pos) == Resolution(os)
  {
    BodyRead(f, pos + 8, end - 4, fixed, OptsBytes(big, os), rest);
    ResolutionRead(f, big, pos + 16, end - 4, os, rest);
  }

  lemma BodyRead(f: Bytes, pos: nat, end: nat, fixed: Bytes, options: Bytes, rest: Bytes)
    requires pos <= end <= |f| && f[pos..end] == fixed + options + rest
    ensures pos + |fixed| <= end && f[pos + |fixed|..end] == options + rest
  {
    assert fixed + options + rest == fixed + (options + rest);
    SliceOfSlice(f, pos, end, |fixed|, end - pos);
  }

  /** A packet's time, given the units of the interfaces described so far. */
  function TimeOf(b: Block, units: seq<nat>): int
    requires b.Packet? && AllFit(units)
  {
    PacketMillis(b.iface, b.high, b.low, units)
  }

  lemma PacketRead(f: Bytes, big: bool, pos: nat, end: nat, b: Block, units: seq<nat>)
    requires b.Packet? && AllFit(units) && pos + 8 <= end - 4 <= |f| && f[pos + 8..end - 4] == Body(big, b)
    ensures TimeAt(f, big, pos + 8, units) == TimeOf(b, units)
  {
    PacketParts(Put32(big, b.iface), Put32(big, b.high), Put32(big, b.low), b.rest, Body(big, b));
    FieldsRead(f, big, pos + 8, end - 4, Body(big, b), b.iface, b.high, b.low, units);
  }

  lemma FieldsRead(f: Bytes, big: bool, pos: nat, end: nat, s: Bytes, iface: U32, high: U32, low: U32, units: seq<nat>)
    requires pos <= end <= |f| && f[pos..end] == s && |s| >= 12 && AllFit(units)
    requires s[0..12][0..4] == Put32(big, iface) && s[0..12][4..8] == Put32(big, high)
    requires s[0..12][8..12] == Put32(big, low)
    ensures TimeAt(f, big, pos, units) == PacketMillis(iface, high, low, units)
  {
    SliceOfSlice(f, pos, end, 0, 12);
    Got32(big, iface);
    Got32(big, high);
    Got32(big, low);
  }

  lemma PacketParts(iface: Bytes, high: Bytes, low: Bytes, rest: Bytes, s: Bytes)
    requires |iface| == |high| == |low| == 4 && s == iface + high + low + rest
    ensures s[0..12][0..4] == iface && s[0..12][4..8] == high && s[0..12][8..12] == low
  {
  }

  /** What a block of a file is read as, from either end of it. */
  ghost predicate Reads(f: Bytes, big: bool, pos: nat, end: nat, b: Block) {
    && MinBlock <= end - pos && end <= |f|
    && (Kind(b) == TypeInterface <==> b.Interface?) && (Kind(b) == TypePacket <==> b.Packet?)
    && BlockAt(f, big, pos) == Some(Head(Kind(b), end - pos)) && BackFrom(f, big, end) == Some(pos)
    && (b.Interface? ==> ResolutionOf(f, big, pos + 8, end - pos) == Resolution(b.options))
    && (b.Packet? ==> forall units :: AllFit(units) ==> TimeAt(f, big, pos + 8, units) == TimeOf(b, units))
  }

  lemma LiesReads(f: Bytes, big: bool, pos: nat, end: nat, b: Block)
    requires Lies(f, big, pos, end, b)
    ensures Reads(f, big, pos, end, b)
  {
    KindTells(b);
    BlockRead(f, big, pos, end, b);
    BlockReadBack(f, big, pos, end, b);
    LiesInterface(f, big, pos, end, b);
    LiesPacket(f, big, pos, end, b);
  }

  lemma KindTells(b: Block)
    requires BodyOk(b)
    ensures (Kind(b) == TypeInterface <==> b.Interface?) && (Kind(b) == TypePacket <==> b.Packet?)
  {
  }

  lemma LiesPacket(f: Bytes, big: bool, pos: nat, end: nat, b: Block)
    requires Lies(f, big, pos, end, b)
    ensures b.Packet? ==> forall units :: AllFit(units) ==> TimeAt(f, big, pos + 8, units) == TimeOf(b, units)
  {
    forall units | b.Packet? && AllFit(units) ensures TimeAt(f, big, pos + 8, units) == TimeOf(b, units) {
      PacketRead(f, big, pos, end, b, units);
    }
  }

  lemma LiesInterface(f: Bytes, big: bool, pos: nat, end: nat, b: Block)
    requires Lies(f, big, pos, end, b)
    ensures b.Interface? ==> ResolutionOf(f, big, pos + 8, end - pos) == Resolution(b.options)
  {
    if b.Interface? {
      InterfaceRead(f, big, pos, end, b.fixed, b.options, b.rest);
    }
  }

  // ------------------------------------------------------------ both walks --

  /** The units of the interfaces described, in order. */
  function UnitsOf(bs: seq<Block>): seq<nat> {
    if bs == [] then []
    else
      var b := bs[|bs| - 1];
      UnitsOf(bs[..|bs| - 1]) + (if b.Interface? then [Resolution(b.options)] else [])
  }

  lemma {:induction false} ResolutionSmall(os: seq<Opt>)
    ensures Resolution(os) < Two64
  {
    if os != [] {
      if os[0].code == 9 && os[0].value != [] {
        UnitFits(os[0].value[0]);
      } else {
        ResolutionSmall(os[1..]);
      }
    }
  }

  lemma {:induction false} UnitsSmall(bs: seq<Block>)
    ensures AllFit(UnitsOf(bs))
  {
    if bs != [] {
      UnitsSmall(bs[..|bs| - 1]);
      if bs[|bs| - 1].Interface? {
        ResolutionSmall(bs[|bs| - 1].options);
      }
    }
  }

  /** The time of a packet by the interfaces described before it. */
  function PacketTime(bs: seq<Block>, i: nat): int
    requires i < |bs| && bs[i].Packet?
  {
    UnitsSmall(bs[..i]);
    TimeOf(bs[i], UnitsOf(bs[..i]))
  }

  predicate HasTime(bs: seq<Block>, i: nat)
    requires i < |bs|
  {
    bs[i].Packet? && PacketTime(bs, i) != 0
  }

  /** The first packet with a time, near enough to the beginning. */
  predicate IsFirst(bs: seq<Block>, i: nat) {
    i < |bs| && i < MaxWalk && HasTime(bs, i) && forall j :: 0 <= j < i ==> !HasTime(bs, j)
  }

  ghost predicate NoFirst(bs: seq<Block>) {
    forall j :: 0 <= j < |bs| && j < MaxWalk ==> !HasTime(bs, j)
  }

  /** The last packet, near enough to the end. */
  predicate IsLast(bs: seq<Block>, i: nat) {
    i < |bs| && |bs| - i <= MaxWalk && bs[i].Packet? && forall j :: i < j < |bs| ==> !bs[j].Packet?
  }

  ghost predicate NoLast(bs: seq<Block>) {
    forall j :: 0 <= j < |bs| && |bs| - j <= MaxWalk ==> !bs[j].Packet?
  }

  /** Blocks one after another, from one end of the file to the other. */
  ghost predicate Chain(f: Bytes, big: bool, at: seq<nat>, bs: seq<Block>) {
    && |at| == |bs| + 1 && at[0] == 0 && at[|bs|] == |f|
    && forall i :: 0 <= i < |bs| ==> Reads(f, big, at[i], at[i + 1], bs[i])
  }

  ghost function Offsets(big: bool, bs: seq<Block>): (at: seq<nat>)
    requires BlocksOk(big, bs)
    ensures |at| == |bs| + 1 && forall i :: 0 <= i <= |bs| ==> at[i] == Offset(big, bs, i)
  {
    seq(|bs| + 1, i requires 0 <= i <= |bs| && BlocksOk(big, bs) => Offset(big, bs, i))
  }

  lemma EachReads(big: bool, bs: seq<Block>, i: nat)
    requires BlocksOk(big, bs) && i < |bs|
    ensures Reads(Serialize(big, bs), big, Offset(big, bs, i), Offset(big, bs, i + 1), bs[i])
  {
    EachLies(big, bs, i);
    LiesReads(Serialize(big, bs), big, Offset(big, bs, i), Offset(big, bs, i + 1), bs[i]);
  }

  lemma FileIsChain(big: bool, bs: seq<Block>)
    requires BlocksOk(big, bs)
    ensures Chain(Serialize(big, bs), big, Offsets(big, bs), bs)
  {
    WholeFile(big, bs);
    var f, at := Serialize(big, bs), Offsets(big, bs);
    forall i | 0 <= i < |bs| ensures Reads(f, big, at[i], at[i + 1], bs[i]) {
      EachReads(big, bs, i);
      assert at[i] == Offset(big, bs, i) && at[i + 1] == Offset(big, bs, i + 1);
    }
  }

  /** A step of the forward walk, from one block to the next. */
  lemma ForwardBlock(f: Bytes, big: bool, pos: nat, end: nat, b: Block, n: nat, units: seq<nat>)
    requires Reads(f, big, pos, end, b) && n < MaxWalk && AllFit(units)
    ensures b.Interface? ==> Resolution(b.options) < Two64
    ensures Forward(f, big, pos, n, units) ==
      if b.Packet? && TimeOf(b, units) != 0 then Ahead(TimeOf(b, units), units)
      else Forward(f, big, end, n + 1, if b.Interface? then units + [Resolution(b.options)] else units)
  {
  }

  lemma ForwardStep(f: Bytes, big: bool, at: seq<nat>, bs: seq<Block>, i: nat)
    requires Chain(f, big, at, bs) && i < |bs| && i < MaxWalk
    requires AllFit(UnitsOf(bs[..i])) && AllFit(UnitsOf(bs[..i + 1]))
    ensures Forward(f, big, at[i], i, UnitsOf(bs[..i])) ==
      if HasTime(bs, i) then Ahead(PacketTime(bs, i), UnitsOf(bs[..i]))
      else Forward(f, big, at[i + 1], i + 1, UnitsOf(bs[..i + 1]))
  {
    UnitsNext(bs, i);
    ForwardBlock(f, big, at[i], at[i + 1], bs[i], i, UnitsOf(bs[..i]));
  }

  lemma UnitsNext(bs: seq<Block>, i: nat)
    requires i < |bs|
    ensures UnitsOf(bs[..i + 1]) == UnitsOf(bs[..i]) + (if bs[i].Interface? then [Resolution(bs[i].options)] else [])
    ensures !bs[i].Interface? ==> UnitsOf(bs[..i + 1]) == UnitsOf(bs[..i])
  {
    assert bs[..i + 1][..i] == bs[..i];
  }

  /** The forward walk passes over blocks without a packet time to the first that has. */
  lemma {:induction false} ForwardFinds(f: Bytes, big: bool, at: seq<nat>, bs: seq<Block>, i: nat, first: nat)
    requires Chain(f, big, at, bs) && IsFirst(bs, first) && i <= first && AllFit(UnitsOf(bs[..i]))
    ensures Forward(f, big, at[i], i, UnitsOf(bs[..i])) == Ahead(PacketTime(bs, first), UnitsOf(bs[..first]))
    decreases first - i
  {
    UnitsSmall(bs[..i + 1]);
    ForwardStep(f, big, at, bs, i);
    if i < first {
      ForwardFinds(f, big, at, bs, i + 1, first);
    }
  }

  /** And without one it finds none. */
  lemma {:induction false} ForwardMisses(f: Bytes, big: bool, at: seq<nat>, bs: seq<Block>, i: nat)
    requires Chain(f, big, at, bs) && NoFirst(bs) && i <= |bs| && AllFit(UnitsOf(bs[..i]))
    ensures Forward(f, big, at[i], i, UnitsOf(bs[..i])).first == 0
    decreases |bs| - i
  {
    if i < |bs| && i < MaxWalk {
      UnitsSmall(bs[..i + 1]);
      ForwardStep(f, big, at, bs, i);
      ForwardMisses(f, big, at, bs, i + 1);
    }
  }

  /** A step of the backward walk, from the end of a block to its start. */
  lemma BackwardBlock(f: Bytes, big: bool, pos: nat, end: nat, b: Block, n: nat, units: seq<nat>)
    requires Reads(f, big, pos, end, b) && n < MaxWalk && AllFit(units)
    ensures Backward(f, big, end, n, units) ==
      if b.Packet? then TimeOf(b, units) else Backward(f, big, pos, n + 1, units)
  {
  }

  lemma {:induction false} BackwardFinds(f: Bytes, big: bool, at: seq<nat>, bs: seq<Block>, i: nat, last: nat,
                                         units: seq<nat>)
    requires Chain(f, big, at, bs) && IsLast(bs, last) && last < i <= |bs| && AllFit(units)
    ensures Backward(f, big, at[i], |bs| - i, units) == TimeOf(bs[last], units)
    decreases i
  {
    BackwardBlock(f, big, at[i - 1], at[i], bs[i - 1], |bs| - i, units);
    if i - 1 > last {
      BackwardFinds(f, big, at, bs, i - 1, last, units);
    }
  }

  lemma {:induction false} BackwardMisses(f: Bytes, big: bool, at: seq<nat>, bs: seq<Block>, i: nat, units: seq<nat>)
    requires Chain(f, big, at, bs) && NoLast(bs) && i <= |bs| && AllFit(units)
    ensures Backward(f, big, at[i], |bs| - i, units) == 0
    decreases i
  {
    if i > 0 && |bs| - i < MaxWalk {
      BackwardBlock(f, big, at[i - 1], at[i], bs[i - 1], |bs| - i, units);
      BackwardMisses(f, big, at, bs, i - 1, units);
    }
  }

  lemma MagicTells(big: bool)
    ensures IsBig(Put32(big, Magic)) == big
  {
    Got32(big, Magic);
    assert Put32(false, Magic) == [0x4d, 0x3c, 0x2b, 0x1a];
  }

  /** The byte order is read off the section header, whichever it is. */
  lemma ByteOrder(f: Bytes, big: bool, end: nat, b: Block)
    requires Lies(f, big, 0, end, b) && b.Section?
    ensures ReadAt(f, 4, 8).Some? && IsBig(ReadAt(f, 4, 8).value) == big
  {
    var body := Body(big, b);
    assert body[0..4] == Put32(big, Magic);
    SliceOfSlice(f, 8, end - 4, 0, 4);
    MagicTells(big);
  }

  /** The times of a capture: of its first packet with a time and of its last packet, each
      within reach of its end of the file, the last by the interfaces described before the
      first. With no first there is no last, whatever the tail holds. */
  lemma TimesOfFile(big: bool, bs: seq<Block>, first: nat, last: nat)
    requires FileOk(big, bs) && first < |bs|
    ensures IsFirst(bs, first) ==> Times(Serialize(big, bs)).0 == PacketTime(bs, first)
    ensures AllFit(UnitsOf(bs[..first]))
    ensures IsFirst(bs, first) && IsLast(bs, last) ==>
      Times(Serialize(big, bs)).1 == TimeOf(bs[last], UnitsOf(bs[..first]))
    ensures IsFirst(bs, first) && NoLast(bs) ==> Times(Serialize(big, bs)).1 == 0
    ensures NoFirst(bs) ==> Times(Serialize(big, bs)) == (0, 0)
  {
    var f := Serialize(big, bs);
    var at := Offsets(big, bs);
    FileIsChain(big, bs);
    EachLies(big, bs, 0);
    WholeFile(big, bs);
    ByteOrder(f, big, Offset(big, bs, 1), bs[0]);
    assert bs[..0] == [];
    UnitsSmall(bs[..first]);
    if IsFirst(bs, first) {
      ForwardFinds(f, big, at, bs, 0, first);
      if IsLast(bs, last) {
        BackwardFinds(f, big, at, bs, |bs|, last, UnitsOf(bs[..first]));
      } else if NoLast(bs) {
        BackwardMisses(f, big, at, bs, |bs|, UnitsOf(bs[..first]));
      }
    } else if NoFirst(bs) {
      ForwardMisses(f, big, at, bs, 0);
    }
  }

  lemma {:induction false} UnitsStart(bs: seq<Block>, i: nat, j: nat)
    requires i <= j <= |bs|
    ensures UnitsOf(bs[..i]) <= UnitsOf(bs[..j])
    decreases j
  {
    if i < j {
      UnitsStart(bs, i, j - 1);
      UnitsNext(bs, j - 1);
    }
  }

  /** Last is the last packet's own time, by all the interfaces described before it, where
      its own was described before the first packet already, or never is. */
  lemma LastIsItsOwn(big: bool, bs: seq<Block>, first: nat, last: nat)
    requires FileOk(big, bs) && IsFirst(bs, first) && IsLast(bs, last)
    requires bs[last].iface < |UnitsOf(bs[..first])| || bs[last].iface >= |UnitsOf(bs[..last])|
    ensures Times(Serialize(big, bs)).1 == PacketTime(bs, last)
  {
    TimesOfFile(big, bs, first, last);
    UnitsStart(bs, first, last);
    UnitsSmall(bs[..last]);
  }

  // ------------------------------------------------------------- boundaries --

  /** Where the forward walk stands after so many blocks, and where the backward walk
      does, on any file. */
  function Steps(f: Bytes, big: bool, pos: nat, n: nat): Option<nat>
    decreases n
  {
    if n == 0 then Some(pos)
    else
      match BlockAt(f, big, pos)
      case None => None
      case Some(h) => Steps(f, big, pos + h.length, n - 1)
  }

  function StepsBack(f: Bytes, big: bool, pos: nat, n: nat): Option<nat>
    decreases n
  {
    if n == 0 then Some(pos)
    else
      match BackFrom(f, big, pos)
      case None => None
      case Some(start) => StepsBack(f, big, start, n - 1)
  }

  /** On any bytes, wherever the backward walk gets to, as many steps forwards lead back,
      and every step is twelve bytes or more. */
  lemma {:induction false} BackAndForth(f: Bytes, big: bool, pos: nat, n: nat)
    ensures StepsBack(f, big, pos, n).Some? ==>
      StepsBack(f, big, pos, n).value + MinBlock * n <= pos
      && Steps(f, big, StepsBack(f, big, pos, n).value, n) == Some(pos)
    decreases n
  {
    if n > 0 && BackFrom(f, big, pos).Some? {
      var start := BackFrom(f, big, pos).value;
      BackAndForth(f, big, start, n - 1);
      if StepsBack(f, big, start, n - 1).Some? {
        StepsMore(f, big, StepsBack(f, big, start, n - 1).value, n - 1, start);
      }
    }
  }

  lemma {:induction false} StepsMore(f: Bytes, big: bool, pos: nat, n: nat, mid: nat)
    requires Steps(f, big, pos, n) == Some(mid) && BlockAt(f, big, mid).Some?
    ensures Steps(f, big, pos, n + 1) == Some(mid + BlockAt(f, big, mid).value.length)
    decreases n
  {
    if n > 0 {
      StepsMore(f, big, pos + BlockAt(f, big, pos).value.length, n - 1, mid);
    } else {
      assert Steps(f, big, pos, 1) == Steps(f, big, mid + BlockAt(f, big, mid).value.length, 0);
    }
  }

  /** On a file of blocks both walks stop at the very same places, the block boundaries. */
  lemma {:induction false} StepsOnBoundaries(f: Bytes, big: bool, at: seq<nat>, bs: seq<Block>, i: nat)
    requires Chain(f, big, at, bs) && i <= |bs|
    ensures Steps(f, big, 0, i) == Some(at[i])
    decreases i
  {
    if i > 0 {
      StepsOnBoundaries(f, big, at, bs, i - 1);
      assert Reads(f, big, at[i - 1], at[i - 1 + 1], bs[i - 1]);
      StepsMore(f, big, 0, i - 1, at[i - 1]);
    }
  }

  lemma {:induction false} StepsBackOnBoundaries(f: Bytes, big: bool, at: seq<nat>, bs: seq<Block>, i: nat)
    requires Chain(f, big, at, bs) && i <= |bs|
    ensures StepsBack(f, big, |f|, i) == Some(at[|bs| - i])
    decreases i
  {
    if i > 0 {
      StepsBackOnBoundaries(f, big, at, bs, i - 1);
      var j := |bs| - i;
      assert Reads(f, big, at[j], at[j + 1], bs[j]);
      StepsBackMore(f, big, |f|, i - 1, at[j + 1]);
    }
  }

  lemma {:induction false} StepsBackMore(f: Bytes, big: bool, pos: nat, n: nat, mid: nat)
    requires StepsBack(f, big, pos, n) == Some(mid) && BackFrom(f, big, mid).Some?
    ensures StepsBack(f, big, pos, n + 1) == Some(BackFrom(f, big, mid).value)
    decreases n
  {
    if n > 0 {
      StepsBackMore(f, big, BackFrom(f, big, pos).value, n - 1, mid);
    } else {
      assert StepsBack(f, big, pos, 1) == StepsBack(f, big, BackFrom(f, big, mid).value, 0);
    }
  }

  lemma ChainAgrees(f: Bytes, big: bool, at: seq<nat>, bs: seq<Block>, i: nat)
    requires Chain(f, big, at, bs) && i <= |bs|
    ensures StepsBack(f, big, |f|, i) == Some(at[|bs| - i])
    ensures Steps(f, big, 0, |bs| - i) == Some(at[|bs| - i])
  {
    StepsBackOnBoundaries(f, big, at, bs, i);
    StepsOnBoundaries(f, big, at, bs, |bs| - i);
  }

  /** So the backward walk visits the forward boundaries in reverse. */
  lemma WalksAgree(big: bool, bs: seq<Block>, i: nat)
    requires BlocksOk(big, bs) && i <= |bs|
    ensures var f := Serialize(big, bs);
      StepsBack(f, big, |f|, i) == Steps(f, big, 0, |bs| - i) == Some(Offset(big, bs, |bs| - i))
  {
    FileIsChain(big, bs);
    ChainAgrees(Serialize(big, bs), big, Offsets(big, bs), bs, i);
  }
}
