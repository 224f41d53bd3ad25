/** Capture files as bytes: the blocks of draft-ietf-opsawg-pcapng, in either byte order
    (section 3.1), their options (3.5), interface descriptions (4.2) and packets (4.3). */
module PcapngFormat {
  import opened Basics
  type byte = x: int | 0 <= x < 256
  type Bytes = seq<byte>
  type U32 = x: int | 0 <= x < 0x1_0000_0000

  const TypeSection := 0x0a0d0d0a
  const TypeInterface := 0x00000001
  const TypePacket := 0x00000006
  const Magic := 0x1a2b3c4d

  const MinBlock := 12
  const MaxBlock := 16777216

  // ---------------------------------------------------------------- numbers --

  function Get16(big: bool, b: Bytes): (n: nat)
    requires |b| == 2
    ensures n < 0x10000
  {
    if big then 256 * (b[0] as int) + b[1] else 256 * (b[1] as int) + b[0]
  }

  function Get32(big: bool, b: Bytes): (n: U32)
    requires |b| == 4
  {
    var (a, b, c, d) := (b[0] as int, b[1] as int, b[2] as int, b[3] as int);
    if big then 16777216 * a + 65536 * b + 256 * c + d else 16777216 * d + 65536 * c + 256 * b + a
  }

  function Put16(big: bool, n: nat): (b: Bytes)
    requires n < 0x10000
    ensures |b| == 2
  {
    if big then [n / 256, n % 256] else [n % 256, n / 256]
  }

  function Put32(big: bool, n: U32): (b: Bytes)
    ensures |b| == 4
  {
    var d := [n / 16777216, n / 65536 % 256, n / 256 % 256, n % 256];
    if big then d else [d[3], d[2], d[1], d[0]]
  }

  lemma Got16(big: bool, n: nat)
    requires n < 0x10000
    ensures Get16(big, Put16(big, n)) == n
  {
  }

  lemma Got32(big: bool, n: U32)
    ensures Get32(big, Put32(big, n)) == n
  {
    assert n / 65536 == (n / 16777216) * 256 + n / 65536 % 256;
    assert n / 256 == (n / 65536) * 256 + n / 256 % 256;
  }

  // ----------------------------------------------------------------- blocks --

  /** An option and its value, padded to four bytes. */
  datatype Opt = Opt(code: nat, value: Bytes)

  datatype Block =
    | Interface(fixed: Bytes, options: seq<Opt>, rest: Bytes)
    | Packet(iface: U32, high: U32, low: U32, rest: Bytes)
    | Section(rest: Bytes)
    | Other(kind: U32, body: Bytes)

  function Padding(n: nat): (b: Bytes)
    ensures |b| < 4 && (n + |b|) % 4 == 0
  {
    if n % 4 == 0 then [] else if n % 4 == 1 then [0, 0, 0] else if n % 4 == 2 then [0, 0] else [0]
  }

  predicate OptOk(o: Opt) {
    0 < o.code < 0x10000 && |o.value| < 0x10000
  }

  predicate OptsOk(os: seq<Opt>) {
    forall i :: 0 <= i < |os| ==> OptOk(os[i])
  }

  function OptBytes(big: bool, o: Opt): (b: Bytes)
    requires OptOk(o)
    ensures |b| % 4 == 0
  {
    Put16(big, o.code) + Put16(big, |o.value|) + o.value + Padding(|o.value|)
  }

  function OptsBytes(big: bool, os: seq<Opt>): (b: Bytes)
    requires OptsOk(os)
    ensures |b| % 4 == 0
  {
    if os == [] then [] else OptBytes(big, os[0]) + OptsBytes(big, os[1..])
  }

  /** What may come after the options: nothing, or the mark that ends them and whatever
      comes after that. */
  predicate RestOk(rest: Bytes) {
    |rest| % 4 == 0 && (rest == [] || (rest[0] == 0 && rest[1] == 0))
  }

  predicate BodyOk(b: Block) {
    match b
    case Interface(fixed, options, rest) =>
      |fixed| == 8 && OptsOk(options) && RestOk(rest)
    case Packet(_, _, _, _) => true
    case Section(_) => true
    case Other(kind, _) => kind != TypeInterface && kind != TypePacket
  }

  function Kind(b: Block): U32 {
    match b
    case Interface(_, _, _) => TypeInterface
    case Packet(_, _, _, _) => TypePacket
    case Section(_) => TypeSection
    case Other(kind, _) => kind
  }

  function Body(big: bool, b: Block): Bytes
    requires BodyOk(b)
  {
    match b
    case Interface(fixed, options, rest) => fixed + OptsBytes(big, options) + rest
    case Packet(iface, high, low, rest) => Put32(big, iface) + Put32(big, high) + Put32(big, low) + rest
    case Section(rest) => Put32(big, Magic) + rest
    case Other(_, body) => body
  }

  predicate BlockOk(big: bool, b: Block) {
    BodyOk(b) && |Body(big, b)| % 4 == 0 && |Body(big, b)| + MinBlock <= MaxBlock
  }

  function Length(big: bool, b: Block): (n: nat)
    requires BlockOk(big, b)
    ensures MinBlock <= n <= MaxBlock && n % 4 == 0
  {
    |Body(big, b)| + MinBlock
  }

  /** A block: its type, its length, its body, and its length once more. */
  function BlockBytes(big: bool, b: Block): (s: Bytes)
    requires BlockOk(big, b)
    ensures |s| == Length(big, b)
  {
    var n := Length(big, b);
    Put32(big, Kind(b)) + Put32(big, n) + Body(big, b) + Put32(big, n)
  }

  ghost predicate BlocksOk(big: bool, bs: seq<Block>) {
    forall i :: 0 <= i < |bs| ==> BlockOk(big, bs[i])
  }

  function Serialize(big: bool, bs: seq<Block>): Bytes
    requires forall i :: 0 <= i < |bs| ==> BlockOk(big, bs[i])
  {
    if bs == [] then [] else Serialize(big, bs[..|bs| - 1]) + BlockBytes(big, bs[|bs| - 1])
  }

  /** A file: blocks, a section header first. */
  ghost predicate FileOk(big: bool, bs: seq<Block>) {
    BlocksOk(big, bs) && bs != [] && bs[0].Section?
  }

  /** Where a block starts. */
  function Offset(big: bool, bs: seq<Block>, i: nat): nat
    requires (forall j :: 0 <= j < |bs| ==> BlockOk(big, bs[j])) && i <= |bs|
  {
    |Serialize(big, bs[..i])|
  }

  lemma {:induction false} FileStarts(big: bool, bs: seq<Block>, i: nat)
    requires BlocksOk(big, bs) && i <= |bs|
    ensures Serialize(big, bs[..i]) <= Serialize(big, bs)
    decreases |bs|
  {
    if i < |bs| {
      var n := |bs| - 1;
      FileStarts(big, bs[..n], i);
      assert bs[..n][..i] == bs[..i];
    } else {
      assert bs[..i] == bs;
    }
  }

  /** A block lies between its offset and the next one's. */
  lemma BlockLies(big: bool, bs: seq<Block>, i: nat)
    requires BlocksOk(big, bs) && i < |bs|
    ensures Offset(big, bs, i + 1) == Offset(big, bs, i) + Length(big, bs[i]) <= |Serialize(big, bs)|
    ensures Serialize(big, bs)[Offset(big, bs, i)..Offset(big, bs, i + 1)] == BlockBytes(big, bs[i])
  {
    FileStarts(big, bs, i + 1);
    OneMore(big, bs, i);
    NextPart(Serialize(big, bs), Serialize(big, bs[..i + 1]), Serialize(big, bs[..i]), BlockBytes(big, bs[i]));
  }

  lemma OneMore(big: bool, bs: seq<Block>, i: nat)
    requires BlocksOk(big, bs) && i < |bs|
    ensures Serialize(big, bs[..i + 1]) == Serialize(big, bs[..i]) + BlockBytes(big, bs[i])
  {
    assert bs[..i + 1][..i] == bs[..i];
  }

  lemma NextPart(f: Bytes, g: Bytes, h: Bytes, s: Bytes)
    requires g <= f && g == h + s
    ensures |g| == |h| + |s| <= |f| && f[|h|..|g|] == s
  {
    assert f[..|g|] == g;
  }

  lemma WholeFile(big: bool, bs: seq<Block>)
    requires BlocksOk(big, bs)
    ensures Offset(big, bs, 0) == 0 && Offset(big, bs, |bs|) == |Serialize(big, bs)|
  {
    assert bs[..|bs|] == bs;
  }

  /** The parts of a block, from one offset to another. */
  predicate PartsAt(f: Bytes, pos: nat, end: nat, kind: Bytes, length: Bytes, body: Bytes) {
    && pos + 8 <= end - 4 <= end <= |f|
    && f[pos..pos + 4] == kind && f[pos + 4..pos + 8] == length
    && f[pos + 8..end - 4] == body && f[end - 4..end] == length
  }

  /** Where the parts of a block are in the file it is in. */
  lemma Parts(big: bool, bs: seq<Block>, i: nat)
    requires BlocksOk(big, bs) && i < |bs|
    ensures Offset(big, bs, i + 1) == Offset(big, bs, i) + Length(big, bs[i])
    ensures PartsAt(Serialize(big, bs), Offset(big, bs, i), Offset(big, bs, i + 1),
                    Put32(big, Kind(bs[i])), Put32(big, Length(big, bs[i])), Body(big, bs[i]))
  {
    BlockLies(big, bs, i);
    BlockParts(big, bs[i]);
    SlicedParts(Serialize(big, bs), Offset(big, bs, i), Offset(big, bs, i + 1), BlockBytes(big, bs[i]),
                Put32(big, Kind(bs[i])), Put32(big, Length(big, bs[i])), Body(big, bs[i]));
  }

  lemma BlockParts(big: bool, b: Block)
    requires BlockOk(big, b)
    ensures BlockBytes(big, b)
      == Put32(big, Kind(b)) + Put32(big, Length(big, b)) + Body(big, b) + Put32(big, Length(big, b))
  {
  }

  lemma SlicedParts(f: Bytes, pos: nat, end: nat, s: Bytes, kind: Bytes, length: Bytes, body: Bytes)
    requires pos <= end <= |f| && |kind| == |length| == 4 && f[pos..end] == s == kind + length + body + length
    ensures PartsAt(f, pos, end, kind, length, body)
  {
    SliceOfSlice(f, pos, end, 0, 4);
    SliceOfSlice(f, pos, end, 4, 8);
    SliceOfSlice(f, pos, end, 8, |s| - 4);
    SliceOfSlice(f, pos, end, |s| - 4, |s|);
    assert s[0..4] == kind && s[4..8] == length && s[8..|s| - 4] == body && s[|s| - 4..|s|] == length;
  }
}
