/**
Capture files byte by byte. Any bytes at all fall into records or blocks that are wholly there and
a rest that begins none; what the readers make of them is told by literal bytes.
*/
module Captures {
  import opened Bytes
  import opened Wrappers
  import opened Pcap
  import opened Pcapng

  /** The number that two bytes spell in the byte order. */
  function HalfOf(order: Order, s: seq<Byte>, at: nat): nat
    requires at + 2 <= |s|
  {
    if order.Big? then Half(s[at], s[at + 1]) else Half(s[at + 1], s[at])
  }

  /** The number that four bytes spell in the byte order. */
  function WordOf(order: Order, s: seq<Byte>, at: nat): nat
    requires at + 4 <= |s|
  {
    if order.Big? then Word(s[at], s[at + 1], s[at + 2], s[at + 3])
    else Word(s[at + 3], s[at + 2], s[at + 1], s[at])
  }

  lemma ReadsHalf(order: Order, s: seq<Byte>, at: nat)
    requires at + 2 <= |s|
    ensures FromBytes(order, s[at..at + 2]) == HalfOf(order, s, at)
  {
    assert s[at..at + 2] == [s[at], s[at + 1]];
    Big2(s[at], s[at + 1]);
    Little2(s[at], s[at + 1]);
  }

  lemma ReadsWord(order: Order, s: seq<Byte>, at: nat)
    requires at + 4 <= |s|
    ensures FromBytes(order, s[at..at + 4]) == WordOf(order, s, at)
  {
    assert s[at..at + 4] == [s[at], s[at + 1], s[at + 2], s[at + 3]];
    Big4(s[at], s[at + 1], s[at + 2], s[at + 3]);
    Little4(s[at], s[at + 1], s[at + 2], s[at + 3]);
  }

  function Joined(parts: seq<seq<Byte>>): seq<Byte> {
    if parts == [] then [] else parts[0] + Joined(parts[1..])
  }

  lemma FirstJoined(parts: seq<seq<Byte>>, tail: seq<Byte>, s: seq<Byte>)
    requires parts != [] && s == Joined(parts) + tail
    ensures s == parts[0] + (Joined(parts[1..]) + tail)
    ensures |parts[0]| <= |s| && s[..|parts[0]|] == parts[0] && s[|parts[0]|..] == Joined(parts[1..]) + tail
  {
  }

  // Classic files.

  /** The two magics of each byte order, for microseconds and for nanoseconds. */
  predicate MagicIs(order: Order, s: seq<Byte>) {
    |s| >= 4 &&
    match order
    case Big => s[..4] == [0xA1, 0xB2, 0xC3, 0xD4] || s[..4] == [0xA1, 0xB2, 0x3C, 0x4D]
    case Little => s[..4] == [0xD4, 0xC3, 0xB2, 0xA1] || s[..4] == [0x4D, 0x3C, 0xB2, 0xA1]
  }

  lemma MagicBytes(order: Order, s: seq<Byte>)
    ensures MagicOrder(Clipped(s, 0, 4)) == Some(order) <==> MagicIs(order, s)
    ensures |s| >= 4 ==> Clipped(s, 0, 4) == s[..4]
  {
    if |s| < 4 {
      ShortMagic(Clipped(s, 0, 4));
    } else {
      assert Clipped(s, 0, 4) == s[..4];
      FourMagics(s[..4]);
    }
  }

  lemma FourMagics(m: seq<Byte>)
    ensures MagicOrder(m) == Some(Big) <==> m == [0xA1, 0xB2, 0xC3, 0xD4] || m == [0xA1, 0xB2, 0x3C, 0x4D]
    ensures MagicOrder(m) == Some(Little) <==> m == [0xD4, 0xC3, 0xB2, 0xA1] || m == [0x4D, 0x3C, 0xB2, 0xA1]
  {
    assert [0xA1, 0xB2, 0xC3, 0xD4][0] == 0xA1 && [0xA1, 0xB2, 0x3C, 0x4D][0] == 0xA1;
    assert [0xD4, 0xC3, 0xB2, 0xA1][0] == 0xD4 && [0x4D, 0x3C, 0xB2, 0xA1][0] == 0x4D;
  }

  /** Sixteen bytes of header, the third word of which is the length of what follows. */
  predicate IsRecord(order: Order, r: seq<Byte>) {
    |r| >= 16 && WordOf(order, r, 8) == |r| - 16
  }

  /** Too short for a header, or for the data the header announces. */
  predicate NoRecord(order: Order, tail: seq<Byte>) {
    |tail| < 16 || WordOf(order, tail, 8) > |tail| - 16
  }

  ghost predicate AllRecords(order: Order, records: seq<seq<Byte>>) {
    forall r | r in records :: IsRecord(order, r)
  }

  /** The data of the records, and of the one cut off behind them if its header is there. */
  function DataOf(records: seq<seq<Byte>>, tail: seq<Byte>): seq<seq<Byte>>
    requires forall r | r in records :: |r| >= 16
  {
    if records == [] then (if |tail| < 16 then [] else [tail[16..]])
    else [records[0][16..]] + DataOf(records[1..], tail)
  }

  lemma RecordHere(order: Order, data: seq<Byte>, cursor: nat, r: seq<Byte>, rest: seq<Byte>)
    requires cursor <= |data| && data[cursor..] == r + rest && IsRecord(order, r)
    ensures cursor + 16 <= |data| && EndAt(order, data, cursor) == cursor + |r| <= |data|
    ensures RecordAt(order, data, cursor).data == r[16..] && data[cursor + |r|..] == rest
  {
    var here := data[cursor..];
    assert data[cursor + 8..cursor + 12] == here[8..12] == r[8..12];
    ReadsWord(order, r, 8);
    assert here[..|r|] == r && here[16..|r|] == r[16..];
    assert data[cursor + 16..cursor + |r|] == here[16..|r|];
    assert data[cursor + |r|..] == here[|r|..];
  }

  lemma CutRecordHere(f: FrameReader, order: Order, data: seq<Byte>, cursor: nat, tail: seq<Byte>)
    requires ReadsFrames(f, order, data) && cursor <= |data| && data[cursor..] == tail && NoRecord(order, tail)
    ensures f(cursor) == DataOf([], tail)
  {
    var here := FramesFrom(order, data, cursor);
    if |tail| >= 16 {
      assert data[cursor + 8..cursor + 12] == tail[8..12];
      ReadsWord(order, tail, 8);
      assert data[cursor + 16..] == tail[16..];
      LastReads(order, data, cursor);
    }
  }

  lemma {:induction false} RecordsRead(f: FrameReader, order: Order, data: seq<Byte>, cursor: nat,
                                       records: seq<seq<Byte>>, tail: seq<Byte>)
    requires ReadsFrames(f, order, data) && AllRecords(order, records) && NoRecord(order, tail)
    requires cursor <= |data| && data[cursor..] == Joined(records) + tail
    ensures f(cursor) == DataOf(records, tail)
    decreases |records|
  {
    if records == [] {
      assert [] + tail == tail;
      CutRecordHere(f, order, data, cursor, tail);
    } else {
      var r, more, next := records[0], records[1..], cursor + |records[0]|;
      FirstJoined(records, tail, data[cursor..]);
      FirstRecord(f, order, data, cursor, r, Joined(more) + tail, next);
      RecordsRead(f, order, data, next, more, tail);
      FirstData(records, tail);
    }
  }

  lemma FirstData(records: seq<seq<Byte>>, tail: seq<Byte>)
    requires records != [] && forall r | r in records :: |r| >= 16
    ensures DataOf(records, tail) == [records[0][16..]] + DataOf(records[1..], tail)
  {
  }

  lemma FirstRecord(f: FrameReader, order: Order, data: seq<Byte>, cursor: nat, r: seq<Byte>, rest: seq<Byte>,
                    next: nat)
    requires ReadsFrames(f, order, data) && IsRecord(order, r) && next == cursor + |r|
    requires cursor <= |data| && data[cursor..] == r + rest
    ensures next <= |data| && data[next..] == rest && f(cursor) == [r[16..]] + f(next)
  {
    RecordHere(order, data, cursor, r, rest);
    FrameHere(f, order, data, cursor, r);
  }

  lemma FrameHere(f: FrameReader, order: Order, data: seq<Byte>, cursor: nat, r: seq<Byte>)
    requires ReadsFrames(f, order, data) && cursor + 16 <= |data| && |r| >= 16
    requires EndAt(order, data, cursor) == cursor + |r| && RecordAt(order, data, cursor).data == r[16..]
    ensures f(cursor) == [r[16..]] + f(cursor + |r|)
  {
    NextFrame(f, order, data, cursor, |r| - 16);
  }

  /**
  The test reader on any file: without one of the four magics, none; else the data of the records
  behind byte 24, and of one cut off at the end.
  */
  lemma AnyFileReads(order: Order, data: seq<Byte>, records: seq<seq<Byte>>, tail: seq<Byte>)
    requires AllRecords(order, records) && NoRecord(order, tail)
    requires if |data| < 24 then records == [] && tail == [] else data[24..] == Joined(records) + tail
    ensures MagicIs(order, data) ==> Records(data).Some? && Frames(Records(data).value) == DataOf(records, tail)
    ensures Records(data).None? <==> !MagicIs(Big, data) && !MagicIs(Little, data)
  {
    MagicBytes(Big, data);
    MagicBytes(Little, data);
    if |data| >= 24 {
      var f := FrameReaderOf(order, data);
      RecordsRead(f, order, data, 24, records, tail);
    } else {
      NothingBehind(order, data, 24);
    }
  }

  lemma {:induction false} FallsIntoRecords(order: Order, s: seq<Byte>)
    returns (records: seq<seq<Byte>>, tail: seq<Byte>)
    ensures AllRecords(order, records) && NoRecord(order, tail) && s == Joined(records) + tail
    decreases |s|
  {
    if NoRecord(order, s) {
      records, tail := [], s;
    } else {
      var n := 16 + WordOf(order, s, 8);
      var r := s[..n];
      assert WordOf(order, r, 8) == WordOf(order, s, 8);
      var more;
      more, tail := FallsIntoRecords(order, s[n..]);
      records := [r] + more;
      RecordsJoin(s, n, more, tail);
    }
  }

  lemma RecordsJoin(s: seq<Byte>, n: nat, more: seq<seq<Byte>>, tail: seq<Byte>)
    requires n <= |s| && s[n..] == Joined(more) + tail
    ensures s == Joined([s[..n]] + more) + tail
  {
    assert ([s[..n]] + more)[1..] == more;
    assert s == s[..n] + s[n..];
  }

  // Files of blocks.

  predicate IsSection(b: seq<Byte>) {
    |b| >= 4 && b[..4] == [0x0A, 0x0D, 0x0D, 0x0A]
  }

  /** The byte order a block is in: a section header's own, by its magic, or else the one in force. */
  function OrderIn(order: Order, b: seq<Byte>): Order
    requires |b| >= 8 && (IsSection(b) ==> |b| >= 12)
  {
    if !IsSection(b) then order
    else if b[8..12] == [0x4D, 0x3C, 0x2B, 0x1A] then Little
    else Big
  }

  /** At least twelve bytes, of which those from the fifth to the eighth spell how many there are. */
  predicate IsBlock(order: Order, b: seq<Byte>) {
    |b| >= 12 && WordOf(OrderIn(order, b), b, 4) == |b|
  }

  /** Too short for a header, for the length it announces, or a length that no block has. */
  predicate NoBlock(order: Order, tail: seq<Byte>) {
    || |tail| < 8
    || (IsSection(tail) && |tail| < 12)
    || (var n := WordOf(OrderIn(order, tail), tail, 4); n < 12 || n > |tail|)
  }

  predicate AllBlocks(order: Order, blocks: seq<seq<Byte>>, tail: seq<Byte>)
    decreases |blocks|
  {
    if blocks == [] then NoBlock(order, tail)
    else IsBlock(order, blocks[0]) && AllBlocks(OrderIn(order, blocks[0]), blocks[1..], tail)
  }

  /** The link types that the interface blocks declare, in file order: type 1, and sixteen bytes or more. */
  function Interfaces(order: Order, blocks: seq<seq<Byte>>, tail: seq<Byte>): seq<nat>
    requires AllBlocks(order, blocks, tail)
    decreases |blocks|
  {
    if blocks == [] then []
    else
      var b, here := blocks[0], OrderIn(order, blocks[0]);
      (if WordOf(here, b, 0) == 1 && |b| >= 16 then [HalfOf(here, b, 8)] else [])
      + Interfaces(here, blocks[1..], tail)
  }

  /** The two magics of a section header are told apart by their bytes. */
  lemma MagicOfSection()
    ensures ToBytes(Little, SHB_BOM, 4) == [0x4D, 0x3C, 0x2B, 0x1A]
    ensures ToBytes(Big, SHB_BOM, 4) == [0x1A, 0x2B, 0x3C, 0x4D]
    ensures SHB_TYPE == [0x0A, 0x0D, 0x0D, 0x0A]
  {
    assert ToBytes(Little, SHB_BOM, 4)[0] == 0x4D;
    assert ToBytes(Big, SHB_BOM, 4)[0] == 0x1A;
  }

  lemma OrderIsIn(order: Order, b: seq<Byte>)
    requires |b| >= 8 && (IsSection(b) ==> |b| >= 12)
    ensures OrderOf(order, b) == OrderIn(order, b) && (b[..4] == SHB_TYPE <==> IsSection(b))
  {
    MagicOfSection();
  }

  lemma VerdictStep(found: Option<nat>, l: nat, links: seq<nat>)
    ensures LinkVerdict(found, [l] + links) ==
            if l != 1 then Some(l) else LinkVerdict(Some(1), links)
  {
    assert ([l] + links)[1..] == links;
  }

  /** One block in front of others. */
  lemma BlockWalks(w: Walker, order: Order, found: Option<nat>, b: seq<Byte>, more: seq<Byte>, rest: seq<Byte>)
    requires Walks(w) && IsBlock(order, b) && rest == b + more
    ensures var here := OrderIn(order, b);
            w(order, found, rest) ==
            if WordOf(here, b, 0) == 1 && |b| >= 16 then
              (if HalfOf(here, b, 8) != 1 then Some(HalfOf(here, b, 8)) else w(here, Some(1), more))
            else w(here, found, more)
  {
    var here := OrderIn(order, b);
    BlockSeen(order, b, more, rest);
    WalkOnce(w, order, found, rest, here, WordOf(here, b, 0), |b|, if |b| >= 16 then HalfOf(here, b, 8) else 0);
  }

  lemma BlockSeen(order: Order, b: seq<Byte>, more: seq<Byte>, rest: seq<Byte>)
    requires IsBlock(order, b) && rest == b + more
    ensures var here := OrderIn(order, b);
            && |rest| >= 12 && OrderOf(order, rest) == here
            && FromBytes(here, rest[..4]) == WordOf(here, b, 0) && FromBytes(here, rest[4..8]) == |b|
            && (|b| >= 16 ==> FromBytes(here, rest[8..10]) == HalfOf(here, b, 8))
            && rest[|b|..] == more
  {
    var here := OrderIn(order, b);
    assert rest[..4] == b[..4] == b[0..4] && rest[4..8] == b[4..8];
    assert rest[8..12] == b[8..12] && rest[8..10] == b[8..10];
    OrderIsIn(order, rest);
    ReadsWord(here, b, 0);
    ReadsWord(here, b, 4);
    ReadsHalf(here, b, 8);
  }

  lemma TailWalks(w: Walker, order: Order, found: Option<nat>, tail: seq<Byte>)
    requires Walks(w) && NoBlock(order, tail)
    ensures w(order, found, tail) == found
  {
    if |tail| < 8 || (IsSection(tail) && |tail| < 12) {
      MagicOfSection();
      WalkEnds(w, order, found, tail);
    } else {
      var here := OrderIn(order, tail);
      OrderIsIn(order, tail);
      ReadsWord(here, tail, 4);
      assert tail[..4] == tail[0..4];
      WalkOnce(w, order, found, tail, here, FromBytes(here, tail[..4]), WordOf(here, tail, 4),
               if |tail| >= 10 then FromBytes(here, tail[8..10]) else 0);
    }
  }

  lemma FirstBlock(order: Order, blocks: seq<seq<Byte>>, tail: seq<Byte>)
    requires blocks != [] && AllBlocks(order, blocks, tail)
    ensures IsBlock(order, blocks[0]) && AllBlocks(OrderIn(order, blocks[0]), blocks[1..], tail)
    ensures var b, here := blocks[0], OrderIn(order, blocks[0]);
            Interfaces(order, blocks, tail) ==
            (if WordOf(here, b, 0) == 1 && |b| >= 16 then [HalfOf(here, b, 8)] else [])
            + Interfaces(here, blocks[1..], tail)
  {
  }

  lemma {:induction false} BlocksWalk(w: Walker, order: Order, found: Option<nat>, blocks: seq<seq<Byte>>,
                                      tail: seq<Byte>, rest: seq<Byte>)
    requires Walks(w) && AllBlocks(order, blocks, tail) && rest == Joined(blocks) + tail
    ensures w(order, found, rest) == LinkVerdict(found, Interfaces(order, blocks, tail))
    decreases |blocks|
  {
    if blocks == [] {
      assert [] + tail == tail;
      TailWalks(w, order, found, tail);
    } else {
      var b, more := blocks[0], Joined(blocks[1..]) + tail;
      var here := OrderIn(order, b);
      FirstJoined(blocks, tail, rest);
      FirstBlock(order, blocks, tail);
      BlockWalks(w, order, found, b, more, rest);
      var links := Interfaces(here, blocks[1..], tail);
      if WordOf(here, b, 0) == 1 && |b| >= 16 {
        VerdictStep(found, HalfOf(here, b, 8), links);
        BlocksWalk(w, here, Some(1), blocks[1..], tail, more);
      } else {
        assert [] + links == links;
        BlocksWalk(w, here, found, blocks[1..], tail, more);
      }
    }
  }

  /**
  The link type of any bytes: none unless they begin as a section header and go on for twelve bytes;
  else, of the blocks wholly there up to the first that is not, the first interface block's that is
  not 1, or 1 if there are interface blocks.
  */
  lemma AnyBytesAnswer(data: seq<Byte>, blocks: seq<seq<Byte>>, tail: seq<Byte>)
    requires AllBlocks(Little, blocks, tail) && data == Joined(blocks) + tail
    ensures Linktype(data) ==
            if |data| < 12 || data[..4] != [0x0A, 0x0D, 0x0D, 0x0A] then None
            else LinkVerdict(None, Interfaces(Little, blocks, tail))
  {
    var w := WalkerOf();
    MagicOfSection();
    BlocksWalk(w, Little, None, blocks, tail, data);
    var whole := Walk(Little, None, data);
  }

  lemma {:induction false} FallsIntoBlocks(order: Order, s: seq<Byte>) returns (blocks: seq<seq<Byte>>, tail: seq<Byte>)
    ensures AllBlocks(order, blocks, tail) && s == Joined(blocks) + tail
    decreases |s|
  {
    if NoBlock(order, s) {
      blocks, tail := [], s;
    } else {
      var n := WordOf(OrderIn(order, s), s, 4);
      var b := s[..n];
      assert b[..4] == s[..4] && b[8..12] == s[8..12];
      assert IsBlock(order, b) && OrderIn(order, b) == OrderIn(order, s);
      var more;
      more, tail := FallsIntoBlocks(OrderIn(order, b), s[n..]);
      blocks := [b] + more;
      RecordsJoin(s, n, more, tail);
      assert blocks[1..] == more;
    }
  }

  /** A classic file declares the word at 20, in the byte order of its magic; any other file what its blocks say. */
  lemma DeclaredIs(data: seq<Byte>, order: Order)
    ensures |data| >= 24 && MagicIs(order, data) ==> DeclaredLinktype(data) == Some(WordOf(order, data, 20))
    ensures |data| < 24 || (!MagicIs(Big, data) && !MagicIs(Little, data)) ==> DeclaredLinktype(data) == Linktype(data)
  {
    if |data| >= 24 {
      FourMagics(data[..4]);
      ReadsWord(order, data, 20);
    }
  }

  // The blocks that are written, in bytes.

  /** A section header: its type, its length, its magic, what is in it, and its length. */
  lemma SectionInBytes(order: Order, own: Order, body: seq<Byte>)
    ensures Written(order, Section(own, body)) ==
            [0x0A, 0x0D, 0x0D, 0x0A] + ToBytes(own, 16 + |body|, 4)
            + (if own.Little? then [0x4D, 0x3C, 0x2B, 0x1A] else [0x1A, 0x2B, 0x3C, 0x4D])
            + body + ToBytes(own, 16 + |body|, 4)
  {
    MagicOfSection();
    SameType(own);
  }

  lemma TypeOne(order: Order)
    ensures ToBytes(order, 1, 4) == if order.Little? then [1, 0, 0, 0] else [0, 0, 0, 1]
  {
    match order
    case Little =>
      assert ToBytes(Little, 0, 3) == [0, 0, 0];
    case Big =>
      assert ToBytes(Big, 0, 3) == [0, 0, 0];
  }

  /** An interface block: type 1, its length, a link type of two bytes, two bytes more, options, its length. */
  lemma InterfaceInBytes(order: Order, body: seq<Byte>)
    ensures Written(order, Other(1, body)) ==
            (if order.Little? then [1, 0, 0, 0] else [0, 0, 0, 1]) + ToBytes(order, 12 + |body|, 4)
            + body + ToBytes(order, 12 + |body|, 4)
  {
    TypeOne(order);
  }

  lemma InterfaceDeclares(order: Order, body: seq<Byte>)
    requires |body| >= 4
    ensures Declares(order, Other(1, body)) == Some(HalfOf(order, body, 0))
  {
    assert body[..2] == body[0..2];
    ReadsHalf(order, body, 0);
  }
}
