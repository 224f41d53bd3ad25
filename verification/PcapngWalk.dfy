/** The walks over a capture file from either end (src/capture.go), on any bytes at all. */
module PcapngWalk {
  import opened Options
  import opened PcapngFormat
  import opened PcapngClock

  const MaxWalk := 4096
  const Microseconds := 1000000

  /** `n` bytes at an offset, if the file has them. */
  function ReadAt(f: Bytes, n: nat, pos: int): (r: Option<Bytes>)
    ensures r.Some? <==> 0 <= pos <= |f| - n
    ensures r.Some? ==> |r.value| == n
  {
    if 0 <= pos && pos + n <= |f| then Some(f[pos..pos + n]) else None
  }

  // ------------------------------------------------------------------ steps --

  datatype Head = Head(kind: U32, length: nat)

  predicate Sane(length: nat) {
    MinBlock <= length <= MaxBlock && length % 4 == 0
  }

  /** A block's type and length, if the length makes sense. */
  function BlockAt(f: Bytes, big: bool, pos: int): (r: Option<Head>)
    ensures r.Some? ==> Sane(r.value.length) && 0 <= pos && pos + 8 <= |f|
  {
    match ReadAt(f, 8, pos)
    case None => None
    case Some(head) =>
      var length := Get32(big, head[4..8]);
      if Sane(length) then Some(Head(Get32(big, head[0..4]), length)) else None
  }

  /** The start of the block that ends at an offset, if both copies of its length agree. */
  function BackFrom(f: Bytes, big: bool, pos: int): (r: Option<int>)
    ensures r.Some? ==> 0 <= r.value <= pos - MinBlock && (pos - r.value) % 4 == 0
    ensures r.Some? ==>
      BlockAt(f, big, r.value).Some? && r.value + BlockAt(f, big, r.value).value.length == pos
  {
    match ReadAt(f, 4, pos - 4)
    case None => None
    case Some(tail) =>
      var length := Get32(big, tail);
      if !Sane(length) || length > pos then None
      else
        var head := BlockAt(f, big, pos - length);
        if head.None? || head.value.length != length then None else Some(pos - length)
  }

  predicate AllFit(units: seq<nat>) {
    forall i :: 0 <= i < |units| ==> units[i] < Two64
  }

  function TimeAt(f: Bytes, big: bool, body: int, units: seq<nat>): int
    requires AllFit(units)
  {
    match ReadAt(f, 12, body)
    case None => 0
    case Some(b) =>
      PacketMillis(Get32(big, b[0..4]), Get32(big, b[4..8]), Get32(big, b[8..12]), units)
  }

  /** A packet's time: its interface's own units, or microseconds where that is not known. */
  function PacketMillis(iface: U32, high: U32, low: U32, units: seq<nat>): int
    requires AllFit(units)
  {
    var unit := if iface < |units| then units[iface] else Microseconds;
    if unit == 0 then 0 else Millis(high * 0x1_0000_0000 + low, unit)
  }

  /** The units of the first if_tsresol option that has a value. */
  function ResolutionAt(f: Bytes, big: bool, pos: int, limit: int): nat
    decreases limit - pos
  {
    if pos + 4 > limit then Microseconds
    else
      match ReadAt(f, 4, pos)
      case None => Microseconds
      case Some(opt) =>
        var code, size := Get16(big, opt[0..2]), Get16(big, opt[2..4]);
        if code == 0 then Microseconds
        else if code == 9 && size >= 1 then
          match ReadAt(f, 1, pos + 4)
          case None => Microseconds
          case Some(v) => Unit(v[0])
        else ResolutionAt(f, big, pos + 4 + (size + 3) / 4 * 4, limit)
  }

  lemma {:induction false} ResolutionFits(f: Bytes, big: bool, pos: int, limit: int)
    ensures ResolutionAt(f, big, pos, limit) < Two64
    decreases limit - pos
  {
    if pos + 4 <= limit && ReadAt(f, 4, pos).Some? {
      var opt := ReadAt(f, 4, pos).value;
      var code, size := Get16(big, opt[0..2]), Get16(big, opt[2..4]);
      if code == 9 && size >= 1 {
        if ReadAt(f, 1, pos + 4).Some? {
          UnitFits(ReadAt(f, 1, pos + 4).value[0]);
        }
      } else if code != 0 {
        ResolutionFits(f, big, pos + 4 + (size + 3) / 4 * 4, limit);
      }
    }
  }

  function ResolutionOf(f: Bytes, big: bool, body: int, length: nat): (unit: nat)
    ensures unit < Two64
  {
    ResolutionFits(f, big, body + 8, body + length - 12);
    ResolutionAt(f, big, body + 8, body + length - 12)
  }

  // ------------------------------------------------------------------ walks --

  datatype Ahead = Ahead(first: int, units: seq<nat>)

  /** From an offset to the first packet with a time, with the units met on the way. */
  function Forward(f: Bytes, big: bool, pos: nat, n: nat, units: seq<nat>): (r: Ahead)
    requires AllFit(units)
    ensures AllFit(r.units)
    decreases MaxWalk - n
  {
    if pos + MinBlock > |f| || n >= MaxWalk then Ahead(0, units)
    else
      match BlockAt(f, big, pos)
      case None => Ahead(0, units)
      case Some(h) =>
        if h.kind == TypeInterface then
          Forward(f, big, pos + h.length, n + 1, units + [ResolutionOf(f, big, pos + 8, h.length)])
        else if h.kind == TypePacket && TimeAt(f, big, pos + 8, units) != 0 then
          Ahead(TimeAt(f, big, pos + 8, units), units)
        else Forward(f, big, pos + h.length, n + 1, units)
  }

  /** From an offset back to the last packet. */
  function Backward(f: Bytes, big: bool, pos: int, n: nat, units: seq<nat>): int
    requires AllFit(units)
    decreases MaxWalk - n
  {
    if pos < MinBlock || n >= MaxWalk then 0
    else
      match BackFrom(f, big, pos)
      case None => 0
      case Some(start) =>
        if BlockAt(f, big, start).value.kind == TypePacket then TimeAt(f, big, start + 8, units)
        else Backward(f, big, start, n + 1, units)
  }

  predicate IsBig(bom: Bytes)
    requires |bom| == 4
  {
    Get32(true, bom) == Magic
  }

  function Times(f: Bytes): (int, int) {
    match ReadAt(f, 4, 8)
    case None => (0, 0)
    case Some(bom) =>
      var ahead := Forward(f, IsBig(bom), 0, 0, []);
      (ahead.first, if ahead.first == 0 then 0 else Backward(f, IsBig(bom), |f|, 0, ahead.units))
  }

  // ---------------------------------------------------------------- methods --

  method Block(f: Bytes, big: bool, pos: int) returns (kind: U32, length: nat, body: int, ok: bool)
    ensures ok <==> BlockAt(f, big, pos).Some?
    ensures ok ==> Some(Head(kind, length)) == BlockAt(f, big, pos) && body == pos + 8
  {
    var head := ReadAt(f, 8, pos);
    if head.None? {
      return 0, 0, 0, false;
    }
    kind := Get32(big, head.value[0..4]);
    length := Get32(big, head.value[4..8]);
    if length < MinBlock || length > MaxBlock || length % 4 != 0 {
      return 0, 0, 0, false;
    }
    return kind, length, pos + 8, true;
  }

  method Back(f: Bytes, big: bool, pos: int) returns (start: int, ok: bool)
    ensures ok <==> BackFrom(f, big, pos).Some?
    ensures ok ==> Some(start) == BackFrom(f, big, pos)
  {
    var tail := ReadAt(f, 4, pos - 4);
    if tail.None? {
      return 0, false;
    }
    var length := Get32(big, tail.value);
    if length < MinBlock || length > MaxBlock || length % 4 != 0 || length > pos {
      return 0, false;
    }
    start := pos - length;
    var _, leading, _, fine := Block(f, big, start);
    if !fine || leading != length {
      return 0, false;
    }
    return start, true;
  }

  method TsResol(f: Bytes, big: bool, body: int, length: nat) returns (unit: nat)
    ensures unit == ResolutionOf(f, big, body, length)
  {
    var pos, limit := body + 8, body + length - 8 - 4;
    while pos + 4 <= limit
      invariant ResolutionAt(f, big, pos, limit) == ResolutionOf(f, big, body, length)
      decreases limit - pos
    {
      var opt := ReadAt(f, 4, pos);
      if opt.None? {
        break;
      }
      var code, size := Get16(big, opt.value[0..2]), Get16(big, opt.value[2..4]);
      if code == 0 {
        break;
      }
      if code == 9 && size >= 1 {
        var v := ReadAt(f, 1, pos + 4);
        if v.None? {
          break;
        }
        if v.value[0] >= 128 {
          return Shifted(v.value[0] - 128);
        }
        unit := Pow10(v.value[0]);
        return;
      }
      pos := pos + 4 + (size + 3) / 4 * 4;
    }
    return Microseconds;
  }

  /** One, shifted left in 64 bits. */
  function Shifted(n: nat): nat {
    if n < 64 then Power(2, n) else 0
  }

  method PcapngTimes(f: Bytes) returns (first: int, last: int)
    ensures (first, last) == Times(f)
  {
    first, last := 0, 0;
    var bom := ReadAt(f, 4, 8);
    if bom.None? {
      return;
    }
    var big := IsBig(bom.value);
    var units: seq<nat>;
    first, units := WalkForward(f, big);
    if first == 0 {
      return;
    }
    last := WalkBackward(f, big, units);
  }

  method WalkForward(f: Bytes, big: bool) returns (first: int, units: seq<nat>)
    ensures Ahead(first, units) == Forward(f, big, 0, 0, [])
  {
    first, units := 0, [];
    var pos, n := 0, 0;
    while pos + MinBlock <= |f| && n < MaxWalk
      invariant 0 <= pos && first == 0 && AllFit(units)
      invariant Forward(f, big, pos, n, units) == Forward(f, big, 0, 0, [])
      decreases MaxWalk - n
    {
      var kind, length, body, ok := Block(f, big, pos);
      if !ok {
        break;
      }
      if kind == TypeInterface {
        var unit := TsResol(f, big, body, length);
        units := units + [unit];
      } else if kind == TypePacket {
        first := TimeAt(f, big, body, units);
      }
      if first != 0 {
        break;
      }
      pos := pos + length;
      n := n + 1;
    }
  }

  method WalkBackward(f: Bytes, big: bool, units: seq<nat>) returns (last: int)
    requires AllFit(units)
    ensures last == Backward(f, big, |f|, 0, units)
  {
    last := 0;
    var pos, n := |f|, 0;
    while pos >= MinBlock && n < MaxWalk
      invariant 0 <= pos <= |f| && last == 0
      invariant Backward(f, big, pos, n, units) == Backward(f, big, |f|, 0, units)
      decreases MaxWalk - n
    {
      var start, ok := Back(f, big, pos);
      if !ok {
        break;
      }
      var kind, _, body, fine := Block(f, big, start);
      if !fine {
        break;
      }
      if kind == TypePacket {
        last := TimeAt(f, big, body, units);
        break;
      }
      pos := start;
      n := n + 1;
    }
  }
}
