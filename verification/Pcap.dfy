/**
Classic pcap files: the writer, which appends one record per frame, and an independent reader.
*/
module Pcap {
  import opened Bytes
  import opened Wrappers

  const MAGIC_NANOSECONDS: nat := 0xA1B2_3C4D
  const SNAPLEN: nat := 65_550
  const LINKTYPE_ETHERNET: nat := 1
  const NANOSECONDS: nat := 1_000_000_000
  const U32: nat := 0x1_0000_0000

  /** The 24 bytes every file starts with: magic, version 2.4, zone, precision, length, link type. */
  const GLOBAL_HEADER: seq<Byte> :=
    ToBytes(Little, MAGIC_NANOSECONDS, 4) + ToBytes(Little, 2, 2) + ToBytes(Little, 4, 2)
    + ToBytes(Little, 0, 4) + ToBytes(Little, 0, 4) + ToBytes(Little, SNAPLEN, 4)
    + ToBytes(Little, LINKTYPE_ETHERNET, 4)

  /** What is written: a frame and its capture time in nanoseconds since the epoch. */
  datatype Record = Record(data: seq<Byte>, timestamp: int)

  /** A record whose seconds and length fit the 32 bits they are packed in. */
  predicate Fits(r: Record) {
    0 <= r.timestamp < U32 * NANOSECONDS && |r.data| < U32
  }

  ghost predicate AllFit(records: seq<Record>) {
    forall r | r in records :: Fits(r)
  }

  /** What stands in a file: the four words in front of the data are the time, in two parts, and two lengths. */
  datatype Stored = Stored(seconds: nat, fraction: nat, original: nat, data: seq<Byte>)

  predicate Storable(r: Stored) {
    r.seconds < U32 && r.fraction < U32 && r.original < U32 && |r.data| < U32
  }

  ghost predicate AllStorable(records: seq<Stored>) {
    forall r | r in records :: Storable(r)
  }

  function RecordHeader(order: Order, seconds: nat, fraction: nat, length: nat, original: nat): (h: seq<Byte>)
    ensures |h| == 16
  {
    ToBytes(order, seconds, 4) + ToBytes(order, fraction, 4) + ToBytes(order, length, 4) + ToBytes(order, original, 4)
  }

  function HeaderOf(order: Order, r: Stored): (h: seq<Byte>)
    ensures |h| == 16
  {
    RecordHeader(order, r.seconds, r.fraction, |r.data|, r.original)
  }

  function Packed(order: Order, r: Stored): seq<Byte> {
    HeaderOf(order, r) + r.data
  }

  function PackedAll(order: Order, records: seq<Stored>): seq<Byte>
    decreases |records|
  {
    if records == [] then [] else Packed(order, records[0]) + PackedAll(order, records[1..])
  }

  /** How a frame is stored: the captured length is the only length known. */
  function StoredOf(r: Record): (stored: Stored)
    requires Fits(r)
    ensures Storable(stored)
  {
    Stored(r.timestamp / NANOSECONDS, r.timestamp % NANOSECONDS, |r.data|, r.data)
  }

  function AllStored(records: seq<Record>): (stored: seq<Stored>)
    requires AllFit(records)
    ensures |stored| == |records| && forall i | 0 <= i < |records| :: stored[i] == StoredOf(records[i])
    decreases |records|
  {
    if records == [] then [] else [StoredOf(records[0])] + AllStored(records[1..])
  }

  ghost function File(records: seq<Record>): seq<Byte>
    requires AllFit(records)
  {
    GLOBAL_HEADER + PackedAll(Little, AllStored(records))
  }

  lemma {:induction false} PackedAppends(records: seq<Stored>, r: Stored)
    ensures PackedAll(Little, records + [r]) == PackedAll(Little, records) + Packed(Little, r)
  {
    var longer := records + [r];
    if records == [] {
      assert longer[1..] == [];
    } else {
      PackedAppends(records[1..], r);
      assert longer[1..] == records[1..] + [r];
    }
  }

  lemma FileAppends(records: seq<Record>, r: Record)
    requires AllFit(records) && Fits(r)
    ensures File(records + [r]) == File(records) + Packed(Little, StoredOf(r))
  {
    assert AllStored(records + [r]) == AllStored(records) + [StoredOf(r)];
    PackedAppends(AllStored(records), StoredOf(r));
  }

  // The same in bytes.

  /** The number that four bytes spell, the least significant first. */
  function LittleAt(s: seq<Byte>, at: nat): nat
    requires at + 4 <= |s|
  {
    Word(s[at + 3], s[at + 2], s[at + 1], s[at])
  }

  /** The sixteen bytes in front of a frame: seconds, nanoseconds, and the length twice. */
  predicate HeaderSays(h: seq<Byte>, timestamp: int, length: nat) {
    && |h| == 16
    && LittleAt(h, 0) * 1_000_000_000 + LittleAt(h, 4) == timestamp && LittleAt(h, 4) < 1_000_000_000
    && LittleAt(h, 8) == length && LittleAt(h, 12) == length
  }

  lemma SpellsLittle(n: nat)
    requires n < U32
    ensures LittleAt(ToBytes(Little, n, 4), 0) == n
  {
    var s := ToBytes(Little, n, 4);
    Widths();
    ReadsBack(Little, n, 4);
    Little4(s[0], s[1], s[2], s[3]);
    assert s == [s[0], s[1], s[2], s[3]];
  }

  lemma HeaderWords(seconds: nat, fraction: nat, length: nat, original: nat)
    requires seconds < U32 && fraction < U32 && length < U32 && original < U32
    ensures var h := RecordHeader(Little, seconds, fraction, length, original);
            && LittleAt(h, 0) == seconds && LittleAt(h, 4) == fraction
            && LittleAt(h, 8) == length && LittleAt(h, 12) == original
  {
    SpellsLittle(seconds);
    SpellsLittle(fraction);
    SpellsLittle(length);
    SpellsLittle(original);
  }

  /** What stands behind the file as it was: a header that says so, and the frame. */
  ghost predicate Appends(before: seq<Byte>, file: seq<Byte>, timestamp: int, data: seq<Byte>) {
    exists h: seq<Byte> :: HeaderSays(h, timestamp, |data|) && file == before + h + data
  }

  /** Struct packing fails on a value that does not fit its field. */
  datatype PackError = OutOfRange

  class PcapWriter {
    var file: seq<Byte>
    ghost var records: seq<Record>

    ghost predicate Valid()
      reads this
    {
      AllFit(records) && file == File(records)
    }

    constructor ()
      ensures Valid() && records == []
      ensures file == [0x4D, 0x3C, 0xB2, 0xA1, 2, 0, 4, 0, 0, 0, 0, 0, 0, 0, 0, 0, 0x0E, 0, 1, 0, 1, 0, 0, 0]
    {
      file := GLOBAL_HEADER;
      records := [];
      HeaderBytes();
    }

    /** Appends one frame, stamped with the time now if no other is given, or leaves the file alone. */
    method Write(data: seq<Byte>, timestamp: Option<int>, now: int) returns (r: Result<(), PackError>)
      requires Valid()
      modifies this
      ensures Valid()
      ensures var time := if timestamp.Some? then timestamp.value else now;
              && (r.Success? <==> 0 <= time < 0x1_0000_0000 * 1_000_000_000 && |data| < 0x1_0000_0000)
              && records == old(records) + (if r.Success? then [Record(data, time)] else [])
              && (if r.Success? then Appends(old(file), file, time, data) else file == old(file))
    {
      var at := if timestamp.Some? then timestamp.value else now;
      var seconds, nanoseconds := at / NANOSECONDS, at % NANOSECONDS;
      if !(0 <= seconds < U32 && |data| < U32) {
        return Failure(OutOfRange);
      }
      ghost var record := Record(data, at);
      FileAppends(records, record);
      HeaderWords(seconds, nanoseconds, |data|, |data|);
      ghost var header := RecordHeader(Little, seconds, nanoseconds, |data|, |data|);
      assert file + Packed(Little, StoredOf(record)) == file + header + data;
      assert HeaderSays(header, at, |data|);
      records := records + [record];
      file := file + RecordHeader(Little, seconds, nanoseconds, |data|, |data|);
      file := file + data;
      return Success(());
    }
  }

  /** Magic, version 2.4, zone, precision, a length of 65,550 bytes, and Ethernet. */
  lemma HeaderBytes()
    ensures GLOBAL_HEADER ==
            [0x4D, 0x3C, 0xB2, 0xA1, 2, 0, 4, 0, 0, 0, 0, 0, 0, 0, 0, 0, 0x0E, 0, 1, 0, 1, 0, 0, 0]
  {
    SmallFields();
    LargeFields();
  }

  lemma SmallFields()
    ensures ToBytes(Little, 2, 2) == [2, 0] && ToBytes(Little, 4, 2) == [4, 0]
    ensures ToBytes(Little, 0, 4) == [0, 0, 0, 0] && ToBytes(Little, LINKTYPE_ETHERNET, 4) == [1, 0, 0, 0]
  {
    assert ToBytes(Little, 0, 1) == [0] && ToBytes(Little, 0, 2) == [0, 0] && ToBytes(Little, 0, 3) == [0, 0, 0];
  }

  lemma LargeFields()
    ensures ToBytes(Little, MAGIC_NANOSECONDS, 4) == [0x4D, 0x3C, 0xB2, 0xA1]
    ensures ToBytes(Little, SNAPLEN, 4) == [0x0E, 0, 1, 0]
  {
    assert ToBytes(Little, 0xA1B2, 2) == [0xB2, 0xA1] && ToBytes(Little, 0xA1B2_3C, 3) == [0x3C, 0xB2, 0xA1];
    assert ToBytes(Little, 1, 2) == [1, 0] && ToBytes(Little, 0x0100, 3) == [0, 1, 0];
  }

  // The reader.

  const MAGICS_BIG: seq<seq<Byte>> := [[0xA1, 0xB2, 0xC3, 0xD4], [0xA1, 0xB2, 0x3C, 0x4D]]
  const MAGICS_LITTLE: seq<seq<Byte>> := [[0xD4, 0xC3, 0xB2, 0xA1], [0x4D, 0x3C, 0xB2, 0xA1]]

  function Clipped(s: seq<Byte>, from: nat, to: nat): seq<Byte> {
    if from >= |s| || to <= from then [] else if to >= |s| then s[from..] else s[from..to]
  }

  function MagicOrder(magic: seq<Byte>): Option<Order> {
    if magic in MAGICS_BIG then Some(Big) else if magic in MAGICS_LITTLE then Some(Little) else None
  }

  /** The record at `cursor`; the end of the file may cut its data short. */
  function RecordAt(order: Order, data: seq<Byte>, cursor: nat): Stored
    requires cursor + 16 <= |data|
  {
    Stored(FromBytes(order, data[cursor..cursor + 4]), FromBytes(order, data[cursor + 4..cursor + 8]),
           FromBytes(order, data[cursor + 12..cursor + 16]), Clipped(data, cursor + 16, EndAt(order, data, cursor)))
  }

  function EndAt(order: Order, data: seq<Byte>, cursor: nat): nat
    requires cursor + 16 <= |data|
  {
    cursor + 16 + FromBytes(order, data[cursor + 8..cursor + 12])
  }

  function RecordsFrom(order: Order, data: seq<Byte>, cursor: nat): seq<Stored>
    decreases |data| - cursor
  {
    if cursor + 16 > |data| then []
    else [RecordAt(order, data, cursor)] + RecordsFrom(order, data, EndAt(order, data, cursor))
  }

  function Frames(records: seq<Stored>): (frames: seq<seq<Byte>>)
    ensures |frames| == |records|
  {
    seq(|records|, i requires 0 <= i < |records| => records[i].data)
  }

  /** The records of a file, or nothing if it does not start as a pcap file. */
  function Records(data: seq<Byte>): Option<seq<Stored>> {
    match MagicOrder(Clipped(data, 0, 4))
    case None => None
    case Some(order) => Some(RecordsFrom(order, data, 24))
  }

  /** The frames from every cursor on, as one function. */
  type FrameReader = nat -> seq<seq<Byte>>

  function FramesFrom(order: Order, data: seq<Byte>, cursor: nat): seq<seq<Byte>> {
    Frames(RecordsFrom(order, data, cursor))
  }

  ghost predicate ReadsFrames(f: FrameReader, order: Order, data: seq<Byte>) {
    forall cursor {:trigger FramesFrom(order, data, cursor)} :: f(cursor) == FramesFrom(order, data, cursor)
  }

  lemma FrameReaderOf(order: Order, data: seq<Byte>) returns (f: FrameReader)
    ensures ReadsFrames(f, order, data)
    ensures f(24) == Frames(RecordsFrom(order, data, 24))
  {
    f := (cursor: nat) => FramesFrom(order, data, cursor);
  }

  lemma FramesInFront(r: Stored, more: seq<Stored>)
    ensures Frames([r] + more) == [r.data] + Frames(more)
  {
  }

  lemma NextFrame(f: FrameReader, order: Order, data: seq<Byte>, cursor: nat, length: nat)
    requires ReadsFrames(f, order, data) && cursor + 16 <= |data|
    requires length == FromBytes(order, data[cursor + 8..cursor + 12])
    ensures f(cursor) == [Clipped(data, cursor + 16, cursor + 16 + length)] + f(cursor + 16 + length)
  {
    var next := cursor + 16 + length;
    var here, there := FramesFrom(order, data, cursor), FramesFrom(order, data, next);
    FramesInFront(RecordAt(order, data, cursor), RecordsFrom(order, data, next));
  }

  lemma NoFrame(f: FrameReader, order: Order, data: seq<Byte>, cursor: nat)
    requires ReadsFrames(f, order, data) && cursor + 16 > |data|
    ensures f(cursor) == []
  {
    var here := FramesFrom(order, data, cursor);
  }

  lemma FramesAssociate(a: seq<seq<Byte>>, b: seq<seq<Byte>>, c: seq<seq<Byte>>)
    ensures a + (b + c) == a + b + c && a + [] == a && [] + c == c
  {
  }

  method ReadPcap(data: seq<Byte>) returns (r: Option<seq<seq<Byte>>>)
    ensures r == match Records(data) { case None => None case Some(records) => Some(Frames(records)) }
  {
    match MagicOrder(Clipped(data, 0, 4)) {
      case None =>
        return None;
      case Some(order) =>
        var frames := ReadFrames(order, data);
        return Some(frames);
    }
  }

  method ReadFrames(endian: Order, data: seq<Byte>) returns (frames: seq<seq<Byte>>)
    ensures frames == Frames(RecordsFrom(endian, data, 24))
  {
    frames := [];
    var cursor := 24;
    ghost var f := FrameReaderOf(endian, data);
    FramesAssociate([], [], f(24));
    while cursor + 16 <= |data|
      invariant f(24) == frames + f(cursor)
      decreases |data| - cursor
    {
      var length := FromBytes(endian, data[cursor + 8..cursor + 12]);
      NextFrame(f, endian, data, cursor, length);
      cursor := cursor + 16;
      FramesAssociate(frames, [Clipped(data, cursor, cursor + length)], f(cursor + length));
      frames := frames + [Clipped(data, cursor, cursor + length)];
      cursor := cursor + length;
    }
    NoFrame(f, endian, data, cursor);
    FramesAssociate(frames, [], []);
  }

  // The round trip.

  lemma HeaderReads(order: Order, seconds: nat, fraction: nat, length: nat, original: nat)
    requires seconds < U32 && fraction < U32 && length < U32 && original < U32
    ensures var h := RecordHeader(order, seconds, fraction, length, original);
            && FromBytes(order, h[..4]) == seconds
            && FromBytes(order, h[4..8]) == fraction
            && FromBytes(order, h[8..12]) == length
            && FromBytes(order, h[12..16]) == original
  {
    Widths();
    ReadsBack(order, seconds, 4);
    ReadsBack(order, fraction, 4);
    ReadsBack(order, length, 4);
    ReadsBack(order, original, 4);
    var h := RecordHeader(order, seconds, fraction, length, original);
    assert h[..4] == ToBytes(order, seconds, 4);
    assert h[4..8] == ToBytes(order, fraction, 4);
    assert h[8..12] == ToBytes(order, length, 4);
    assert h[12..16] == ToBytes(order, original, 4);
  }

  /** The slices that reading a record looks at. */
  lemma Slices(h: seq<Byte>, body: seq<Byte>, data: seq<Byte>, cursor: nat, rest: seq<Byte>)
    requires |h| == 16 && cursor <= |data| && data[cursor..] == h + body + rest
    ensures cursor + 16 + |body| <= |data|
    ensures data[cursor..cursor + 4] == h[..4]
    ensures data[cursor + 4..cursor + 8] == h[4..8]
    ensures data[cursor + 8..cursor + 12] == h[8..12]
    ensures data[cursor + 12..cursor + 16] == h[12..16]
    ensures Clipped(data, cursor + 16, cursor + 16 + |body|) == body
    ensures data[cursor + 16 + |body|..] == rest
  {
    var here := data[cursor..];
    assert here[..16] == h;
    assert data[cursor + 16..cursor + 16 + |body|] == here[16..16 + |body|] == body;
    assert data[cursor + 16 + |body|..] == here[16 + |body|..] == rest;
    assert |body| == 0 ==> body == [];
  }

  /** One written record, wherever it stands, is the next one read. */
  lemma RecordReads(order: Order, r: Stored, data: seq<Byte>, cursor: nat, rest: seq<Byte>)
    requires Storable(r) && cursor <= |data| && data[cursor..] == Packed(order, r) + rest
    ensures var end := cursor + |Packed(order, r)|;
            && end <= |data| && data[end..] == rest
            && RecordAt(order, data, cursor) == r && EndAt(order, data, cursor) == end
  {
    HeaderReads(order, r.seconds, r.fraction, |r.data|, r.original);
    Slices(HeaderOf(order, r), r.data, data, cursor, rest);
  }

  /** A record that the end of the file cuts is read with the data there is. */
  lemma PartReads(order: Order, r: Stored, data: seq<Byte>, cursor: nat, part: seq<Byte>)
    requires Storable(r) && cursor <= |data| && part < r.data
    requires data[cursor..] == HeaderOf(order, r) + part
    ensures cursor + 16 <= |data| < EndAt(order, data, cursor)
    ensures RecordAt(order, data, cursor) == r.(data := part)
  {
    HeaderReads(order, r.seconds, r.fraction, |r.data|, r.original);
    assert data[cursor..] == HeaderOf(order, r) + part + [];
    Slices(HeaderOf(order, r), part, data, cursor, []);
  }

  /** The records that the first `room` bytes contain wholly. */
  function WholeRecords(records: seq<Stored>, room: nat): (whole: seq<Stored>)
    ensures whole <= records && Taken(whole) <= room
  {
    if records == [] || room < 16 + |records[0].data| then []
    else [records[0]] + WholeRecords(records[1..], room - 16 - |records[0].data|)
  }

  /** The bytes they take. */
  function Taken(records: seq<Stored>): nat {
    if records == [] then 0 else 16 + |records[0].data| + Taken(records[1..])
  }

  /** The first of the other records, if its header is there, with the data there is. */
  function Part(records: seq<Stored>, room: nat): seq<Stored> {
    if records == [] || room < 16 || room - 16 > |records[0].data| then []
    else [records[0].(data := records[0].data[..room - 16])]
  }

  /** What is read of the records when only the first `room` bytes are there. */
  function Remains(records: seq<Stored>, room: nat): seq<Stored> {
    if records == [] || room < 16 + |records[0].data| then Part(records, room)
    else [records[0]] + Remains(records[1..], room - 16 - |records[0].data|)
  }

  lemma {:induction false} RemainsWhole(records: seq<Stored>, room: nat, whole: seq<Stored>)
    requires whole == WholeRecords(records, room)
    ensures Remains(records, room) == whole + Part(records[|whole|..], room - Taken(whole))
    decreases records
  {
    if records == [] || room < 16 + |records[0].data| {
      NothingWhole(records, room, whole, Part(records, room));
    } else {
      var more, left := records[1..], room - 16 - |records[0].data|;
      var inner := WholeRecords(more, left);
      RemainsWhole(more, left, inner);
      RemainsMore(records, room, more, left, inner, Part(more[|inner|..], left - Taken(inner)));
    }
  }

  lemma RemainsMore(records: seq<Stored>, room: nat, more: seq<Stored>, left: nat, inner: seq<Stored>,
                    part: seq<Stored>)
    requires records != [] && room >= 16 + |records[0].data|
    requires more == records[1..] && left == room - 16 - |records[0].data| && inner == WholeRecords(more, left)
    requires part == Part(more[|inner|..], left - Taken(inner)) && Remains(more, left) == inner + part
    ensures var whole := WholeRecords(records, room);
            Remains(records, room) == whole + Part(records[|whole|..], room - Taken(whole))
  {
    RemainsStep(records, room, more, left);
    WholeStep(records, room, more, left, inner, part);
  }

  lemma RemainsStep(records: seq<Stored>, room: nat, more: seq<Stored>, left: nat)
    requires records != [] && room >= 16 + |records[0].data|
    requires more == records[1..] && left == room - 16 - |records[0].data|
    ensures Remains(records, room) == [records[0]] + Remains(more, left)
  {
  }

  lemma NothingWhole(records: seq<Stored>, room: nat, whole: seq<Stored>, part: seq<Stored>)
    requires whole == [] && part == Part(records, room)
    ensures part == whole + Part(records[|whole|..], room - Taken(whole))
  {
    assert records[0..] == records;
  }

  lemma {:induction false} CutReads(order: Order, records: seq<Stored>, data: seq<Byte>, cursor: nat, room: nat)
    requires AllStorable(records) && cursor <= |data| && room == |data| - cursor
    requires data[cursor..] <= PackedAll(order, records)
    ensures RecordsFrom(order, data, cursor) == Remains(records, room)
    decreases |records|
  {
    if records == [] || room < 16 + |records[0].data| {
      CutHere(order, records, data, cursor, room);
    } else {
      var r, more := records[0], records[1..];
      assert Storable(r) && AllStorable(more);
      Splits(data[cursor..], HeaderOf(order, r), r.data, PackedAll(order, more));
      RecordReads(order, r, data, cursor, data[cursor..][16 + |r.data|..]);
      CutReads(order, more, data, EndAt(order, data, cursor), room - 16 - |r.data|);
    }
  }

  /** No whole record is left. */
  lemma CutHere(order: Order, records: seq<Stored>, data: seq<Byte>, cursor: nat, room: nat)
    requires AllStorable(records) && cursor <= |data| && room == |data| - cursor
    requires data[cursor..] <= PackedAll(order, records)
    requires records == [] || room < 16 + |records[0].data|
    ensures RecordsFrom(order, data, cursor) == Part(records, room)
  {
    if records != [] && room >= 16 {
      var r := records[0];
      assert Storable(r) && AllStorable(records[1..]);
      Splits(data[cursor..], HeaderOf(order, r), r.data, PackedAll(order, records[1..]));
      PartReads(order, r, data, cursor, r.data[..room - 16]);
      LastReads(order, data, cursor);
    }
  }

  lemma LastReads(order: Order, data: seq<Byte>, cursor: nat)
    requires cursor + 16 <= |data| < EndAt(order, data, cursor)
    ensures RecordsFrom(order, data, cursor) == [RecordAt(order, data, cursor)]
  {
  }

  lemma WholeInFront(records: seq<Stored>, room: nat, more: seq<Stored>, left: nat)
    requires records != [] && room >= 16 + |records[0].data|
    requires more == records[1..] && left == room - 16 - |records[0].data|
    ensures WholeRecords(records, room) == [records[0]] + WholeRecords(more, left)
  {
  }

  lemma TakenInFront(r: Stored, inner: seq<Stored>)
    ensures Taken([r] + inner) == 16 + |r.data| + Taken(inner)
  {
    assert ([r] + inner)[1..] == inner;
  }

  lemma BehindWhole(records: seq<Stored>, more: seq<Stored>, inner: seq<Stored>, part: seq<Stored>)
    requires records != [] && more == records[1..] && |inner| <= |more|
    ensures var whole := [records[0]] + inner;
            records[|whole|..] == more[|inner|..] && [records[0]] + (inner + part) == whole + part
  {
  }

  /** One more whole record in front of those that are whole without it. */
  lemma WholeStep(records: seq<Stored>, room: nat, more: seq<Stored>, left: nat, inner: seq<Stored>, part: seq<Stored>)
    requires records != [] && room >= 16 + |records[0].data|
    requires more == records[1..] && left == room - 16 - |records[0].data| && inner == WholeRecords(more, left)
    requires part == Part(more[|inner|..], left - Taken(inner))
    ensures var whole := WholeRecords(records, room);
            [records[0]] + (inner + part) == whole + Part(records[|whole|..], room - Taken(whole))
  {
    WholeInFront(records, room, more, left);
    TakenInFront(records[0], inner);
    BehindWhole(records, more, inner, part);
  }

  /** Where a prefix of a header, a body and the rest ends. */
  lemma Splits(s: seq<Byte>, h: seq<Byte>, body: seq<Byte>, rest: seq<Byte>)
    requires |h| == 16 && s <= h + body + rest && |s| >= 16
    ensures |s| < 16 + |body| ==> s == h + body[..|s| - 16] && body[..|s| - 16] < body
    ensures |s| >= 16 + |body| ==> s == h + body + s[16 + |body|..] && s[16 + |body|..] <= rest
  {
    assert s == (h + body + rest)[..|s|];
  }

  lemma HeadOf(header: seq<Byte>, rest: seq<Byte>, n: nat)
    requires |header| == 24 && n <= 24 + |rest|
    ensures var data := (header + rest)[..n];
            && (n >= 4 ==> Clipped(data, 0, 4) == header[..4])
            && (n >= 24 ==> data[24..] <= rest)
  {
    var data := (header + rest)[..n];
    assert n >= 4 ==> data[..4] == header[..4];
    assert n >= 24 ==> data[24..] == rest[..n - 24];
  }

  /**
  A file cut off anywhere: the records wholly there, and then at most one more, whose header is
  there, with its data clipped. Without its magic it is no pcap file at all.
  */
  lemma CutFileReads(order: Order, header: seq<Byte>, records: seq<Stored>, n: nat)
    requires |header| == 24 && MagicOrder(header[..4]) == Some(order) && AllStorable(records)
    requires n <= 24 + |PackedAll(order, records)|
    ensures Records((header + PackedAll(order, records))[..n]) ==
            if n < 4 then None
            else if n < 24 then Some([])
            else
              var whole := WholeRecords(records, n - 24);
              Some(whole + Part(records[|whole|..], n - 24 - Taken(whole)))
  {
    HeadOf(header, PackedAll(order, records), n);
    CutFileAt(order, records, PackedAll(order, records), (header + PackedAll(order, records))[..n], n);
  }

  lemma CutFileAt(order: Order, records: seq<Stored>, packed: seq<Byte>, data: seq<Byte>, n: nat)
    requires AllStorable(records) && packed == PackedAll(order, records) && |data| == n
    requires n >= 4 ==> MagicOrder(Clipped(data, 0, 4)) == Some(order)
    requires n >= 24 ==> data[24..] <= packed
    ensures Records(data) ==
            if n < 4 then None
            else if n < 24 then Some([])
            else
              var whole := WholeRecords(records, n - 24);
              Some(whole + Part(records[|whole|..], n - 24 - Taken(whole)))
  {
    if n < 4 {
      ShortMagic(Clipped(data, 0, 4));
    } else if n < 24 {
      NothingBehind(order, data, 24);
      RecordsAre(order, data, []);
    } else {
      CutFileRest(order, records, data, n - 24, WholeRecords(records, n - 24));
    }
  }

  lemma CutFileRest(order: Order, records: seq<Stored>, data: seq<Byte>, room: nat, whole: seq<Stored>)
    requires AllStorable(records) && |data| == 24 + room && MagicOrder(Clipped(data, 0, 4)) == Some(order)
    requires data[24..] <= PackedAll(order, records) && whole == WholeRecords(records, room)
    ensures Records(data) == Some(whole + Part(records[|whole|..], room - Taken(whole)))
  {
    var read := CutRecords(order, records, data, 24, room, whole);
    RecordsAre(order, data, read);
  }

  lemma RecordsAre(order: Order, data: seq<Byte>, records: seq<Stored>)
    requires MagicOrder(Clipped(data, 0, 4)) == Some(order) && records == RecordsFrom(order, data, 24)
    ensures Records(data) == Some(records)
  {
  }

  lemma ShortMagic(magic: seq<Byte>)
    requires |magic| < 4
    ensures MagicOrder(magic) == None
  {
  }

  lemma NothingBehind(order: Order, data: seq<Byte>, cursor: nat)
    requires |data| < cursor + 16
    ensures RecordsFrom(order, data, cursor) == []
  {
  }

  lemma CutRecords(order: Order, records: seq<Stored>, data: seq<Byte>, cursor: nat, room: nat, whole: seq<Stored>)
    returns (read: seq<Stored>)
    requires AllStorable(records) && cursor <= |data| && room == |data| - cursor
    requires data[cursor..] <= PackedAll(order, records) && whole == WholeRecords(records, room)
    ensures read == whole + Part(records[|whole|..], room - Taken(whole))
    ensures read == RecordsFrom(order, data, cursor)
  {
    read := Remains(records, room);
    CutReads(order, records, data, cursor, room);
    RemainsWhole(records, room, whole);
  }

  lemma {:induction false} PackedReads(order: Order, records: seq<Stored>, data: seq<Byte>, cursor: nat)
    requires AllStorable(records) && cursor <= |data| && data[cursor..] == PackedAll(order, records)
    ensures RecordsFrom(order, data, cursor) == records
    decreases |records|
  {
    if records != [] {
      var r, more := records[0], records[1..];
      assert records == [r] + more;
      RecordReads(order, r, data, cursor, PackedAll(order, more));
      PackedReads(order, more, data, EndAt(order, data, cursor));
    }
  }

  lemma HeaderStarts()
    ensures |GLOBAL_HEADER| == 24 && MagicOrder(GLOBAL_HEADER[..4]) == Some(Little)
    ensures FromBytes(Little, GLOBAL_HEADER[20..24]) == LINKTYPE_ETHERNET
  {
    assert GLOBAL_HEADER[..4] == ToBytes(Little, MAGIC_NANOSECONDS, 4) == [0x4D, 0x3C, 0xB2, 0xA1];
    assert GLOBAL_HEADER[20..24] == ToBytes(Little, LINKTYPE_ETHERNET, 4);
    Widths();
    ReadsBack(Little, LINKTYPE_ETHERNET, 4);
  }

  /** Behind any header with a known magic, records in the byte order it announces read back. */
  lemma FileReads(order: Order, header: seq<Byte>, records: seq<Stored>)
    requires |header| == 24 && MagicOrder(header[..4]) == Some(order) && AllStorable(records)
    ensures Records(header + PackedAll(order, records)) == Some(records)
  {
    var data := header + PackedAll(order, records);
    assert Clipped(data, 0, 4) == data[..4] == header[..4];
    assert data[24..] == PackedAll(order, records);
    PackedReads(order, records, data, 24);
  }

  /** Whatever was written reads back: every frame, in order, with its time to the nanosecond. */
  lemma WrittenReads(records: seq<Record>)
    requires AllFit(records)
    ensures Records(File(records)) == Some(AllStored(records))
    ensures forall i | 0 <= i < |records| ::
              var stored := AllStored(records)[i];
              && stored.data == records[i].data && stored.original == |stored.data|
              && stored.seconds * 1_000_000_000 + stored.fraction == records[i].timestamp
  {
    HeaderStarts();
    FileReads(Little, GLOBAL_HEADER, AllStored(records));
  }

  function FramesOf(records: seq<Record>): (frames: seq<seq<Byte>>)
    ensures |frames| == |records|
  {
    seq(|records|, i requires 0 <= i < |records| => records[i].data)
  }

  /** The frames of a whole session of writes, through the file and back. */
  method RoundTrip(writes: seq<Record>) returns (frames: Option<seq<seq<Byte>>>)
    requires AllFit(writes)
    ensures frames == Some(FramesOf(writes))
  {
    var writer := new PcapWriter();
    for i := 0 to |writes|
      invariant writer.Valid() && writer.records == writes[..i]
    {
      assert Fits(writes[i]) && writes[..i + 1] == writes[..i] + [writes[i]];
      var _ := writer.Write(writes[i].data, Some(writes[i].timestamp), 0);
    }
    assert writes[..|writes|] == writes;
    WrittenReads(writes);
    frames := ReadPcap(writer.file);
    assert Frames(AllStored(writes)) == FramesOf(writes);
  }
}
