/**
The link type a capture file declares. For pcapng this is a walk over blocks whose byte order
every Section Header Block sets anew.
*/
module Pcapng {
  import opened Bytes
  import opened Wrappers
  import opened Pcap

  const SHB_TYPE: seq<Byte> := [0x0A, 0x0D, 0x0D, 0x0A]
  const SHB_NUMBER: nat := 0x0A0D_0D0A
  const SHB_BOM: nat := 0x1A2B_3C4D
  const IDB_TYPE: nat := 1

  /** The slices that the walk looks at. */
  lemma BlockSlices(data: seq<Byte>, cursor: nat)
    requires cursor + 8 <= |data|
    ensures data[cursor..][..4] == data[cursor..cursor + 4]
    ensures data[cursor..][4..8] == data[cursor + 4..cursor + 8]
    ensures cursor + 12 <= |data| ==> data[cursor..][8..12] == data[cursor + 8..cursor + 12]
    ensures cursor + 10 <= |data| ==> data[cursor..][8..10] == data[cursor + 8..cursor + 10]
  {
  }

  /** The rest of every walk, as one function. */
  type Walker = (Order, Option<nat>, seq<Byte>) -> Option<nat>

  ghost predicate Walks(w: Walker) {
    forall order, found, rest {:trigger Walk(order, found, rest)} :: w(order, found, rest) == Walk(order, found, rest)
  }

  lemma WalkerOf() returns (w: Walker)
    ensures Walks(w)
  {
    w := (order: Order, found: Option<nat>, rest: seq<Byte>) => Walk(order, found, rest);
  }

  /** One block of a walk, from the number its first bytes read as. */
  lemma WalkOnce(w: Walker, order: Order, found: Option<nat>, rest: seq<Byte>, here: Order, blockType: nat,
                 blockLen: nat, linkType: nat)
    requires Walks(w) && |rest| >= 8 && (rest[..4] == SHB_TYPE ==> |rest| >= 12) && here == OrderOf(order, rest)
    requires blockType == FromBytes(here, rest[..4]) && blockLen == FromBytes(here, rest[4..8])
    requires 16 <= blockLen <= |rest| ==> linkType == FromBytes(here, rest[8..10])
    ensures w(order, found, rest) ==
            if blockLen < 12 || blockLen > |rest| then found
            else if blockType == IDB_TYPE && blockLen >= 16 then
              if linkType != LINKTYPE_ETHERNET then Some(linkType)
              else w(here, Some(LINKTYPE_ETHERNET), rest[blockLen..])
            else w(here, found, rest[blockLen..])
  {
    var whole := Walk(order, found, rest);
    if 12 <= blockLen <= |rest| {
      var next, next' := Walk(here, Some(LINKTYPE_ETHERNET), rest[blockLen..]), Walk(here, found, rest[blockLen..]);
    }
  }

  lemma WalkEnds(w: Walker, order: Order, found: Option<nat>, rest: seq<Byte>)
    requires Walks(w) && (|rest| < 8 || (rest[..4] == SHB_TYPE && |rest| < 12))
    ensures w(order, found, rest) == found
  {
    var whole := Walk(order, found, rest);
  }

  method PcapngLinktype(data: seq<Byte>) returns (r: Option<nat>)
    ensures r == Linktype(data)
  {
    if |data| < 12 || data[..4] != SHB_TYPE {
      return None;
    }
    var endian, cursor := Little, 0;
    var found: Option<nat> := None;
    ghost var w := WalkerOf();
    ghost var whole := Walk(Little, None, data);
    assert data[0..] == data;
    while cursor + 8 <= |data|
      invariant cursor <= |data| && Linktype(data) == w(endian, found, data[cursor..])
      decreases |data| - cursor
    {
      ghost var rest, order := data[cursor..], endian;
      BlockSlices(data, cursor);
      if data[cursor..cursor + 4] == SHB_TYPE {
        if cursor + 12 > |data| {
          WalkEnds(w, order, found, rest);
          break;
        }
        endian := if data[cursor + 8..cursor + 12] == ToBytes(Little, SHB_BOM, 4) then Little else Big;
      }
      var blockType := FromBytes(endian, data[cursor..cursor + 4]);
      var blockLen := FromBytes(endian, data[cursor + 4..cursor + 8]);
      WalkOnce(w, order, found, rest, endian, blockType, blockLen,
               if |rest| >= 10 then FromBytes(endian, rest[8..10]) else 0);
      if blockLen < 12 || cursor + blockLen > |data| {
        break;
      }
      assert rest[blockLen..] == data[cursor + blockLen..];
      if blockType == IDB_TYPE && blockLen >= 16 {
        var linkType := FromBytes(endian, data[cursor + 8..cursor + 10]);
        if linkType != LINKTYPE_ETHERNET {
          return Some(linkType);
        }
        found := Some(LINKTYPE_ETHERNET);
      }
      cursor := cursor + blockLen;
    }
    if cursor + 8 > |data| {
      WalkEnds(w, endian, found, data[cursor..]);
    }
    return found;
  }

  /** The byte order in force for the block in front, which a Section Header Block sets itself. */
  function OrderOf(order: Order, rest: seq<Byte>): Order
    requires |rest| >= 8 && (rest[..4] == SHB_TYPE ==> |rest| >= 12)
  {
    if rest[..4] != SHB_TYPE then order
    else if rest[8..12] == ToBytes(Little, SHB_BOM, 4) then Little
    else Big
  }

  /** What the walk answers for the rest of the file. */
  function Walk(order: Order, found: Option<nat>, rest: seq<Byte>): Option<nat>
    decreases |rest|
  {
    if |rest| < 8 || (rest[..4] == SHB_TYPE && |rest| < 12) then found
    else
      var here := OrderOf(order, rest);
      var blockType, blockLen := FromBytes(here, rest[..4]), FromBytes(here, rest[4..8]);
      if blockLen < 12 || blockLen > |rest| then found
      else if blockType == IDB_TYPE && blockLen >= 16 then
        var linkType := FromBytes(here, rest[8..10]);
        if linkType != LINKTYPE_ETHERNET then Some(linkType)
        else Walk(here, Some(LINKTYPE_ETHERNET), rest[blockLen..])
      else Walk(here, found, rest[blockLen..])
  }

  function Linktype(data: seq<Byte>): Option<nat> {
    if |data| < 12 || data[..4] != SHB_TYPE then None else Walk(Little, None, data)
  }

  /** The link type a capture declares, classic or pcapng. */
  function DeclaredLinktype(data: seq<Byte>): Option<nat> {
    if |data| >= 24 && MagicOrder(data[..4]).Some? then
      Some(FromBytes(MagicOrder(data[..4]).value, data[20..24]))
    else Linktype(data)
  }

  // Files as lists of blocks.

  /** A section header with its byte order, or a block of another type; `body` is what the lengths enclose. */
  datatype Block =
    | Section(order: Order, body: seq<Byte>)
    | Other(number: nat, body: seq<Byte>)

  function Size(b: Block): nat {
    match b
    case Section(_, body) => 16 + |body|
    case Other(_, body) => 12 + |body|
  }

  predicate Writable(b: Block) {
    && Size(b) < U32
    && (b.Other? ==> b.number < U32 && b.number != SHB_NUMBER)
  }

  ghost predicate AllWritable(blocks: seq<Block>) {
    forall b | b in blocks :: Writable(b)
  }

  /** The byte order after the block. */
  function OrderAfter(order: Order, b: Block): Order {
    if b.Section? then b.order else order
  }

  /** Type, total length, body, total length; a section's body begins with the byte-order magic. */
  function Written(order: Order, b: Block): (s: seq<Byte>)
    ensures |s| == Size(b)
  {
    match b
    case Section(o, body) =>
      ToBytes(o, SHB_NUMBER, 4) + ToBytes(o, Size(b), 4) + ToBytes(o, SHB_BOM, 4) + body + ToBytes(o, Size(b), 4)
    case Other(number, body) =>
      ToBytes(order, number, 4) + ToBytes(order, Size(b), 4) + body + ToBytes(order, Size(b), 4)
  }

  function WrittenAll(order: Order, blocks: seq<Block>): seq<Byte>
    decreases |blocks|
  {
    if blocks == [] then [] else Written(order, blocks[0]) + WrittenAll(OrderAfter(order, blocks[0]), blocks[1..])
  }

  /** The link type a block declares, if it is an interface block. */
  function Declares(order: Order, b: Block): Option<nat> {
    if b.Other? && b.number == IDB_TYPE && |b.body| >= 4 then Some(FromBytes(order, b.body[..2])) else None
  }

  /** The link types of the interface blocks, in file order. */
  function LinkTypes(order: Order, blocks: seq<Block>): seq<nat>
    decreases |blocks|
  {
    if blocks == [] then []
    else
      (match Declares(order, blocks[0]) case None => [] case Some(l) => [l])
      + LinkTypes(OrderAfter(order, blocks[0]), blocks[1..])
  }

  /** The blocks that the first `n` bytes contain wholly. */
  function WholeBlocks(blocks: seq<Block>, n: nat): seq<Block> {
    if blocks == [] || n < Size(blocks[0]) then []
    else [blocks[0]] + WholeBlocks(blocks[1..], n - Size(blocks[0]))
  }

  /** Any other link type before Ethernet, and Ethernet before nothing. */
  function FirstForeign(links: seq<nat>): Option<nat> {
    if links == [] then None
    else if links[0] != LINKTYPE_ETHERNET then Some(links[0])
    else FirstForeign(links[1..])
  }

  function LinkVerdict(found: Option<nat>, links: seq<nat>): Option<nat> {
    if FirstForeign(links).Some? then FirstForeign(links)
    else if links != [] then Some(LINKTYPE_ETHERNET)
    else found
  }

  lemma {:induction false} FirstForeignIsFirst(links: seq<nat>)
    ensures match FirstForeign(links)
            case None => forall l | l in links :: l == LINKTYPE_ETHERNET
            case Some(l) => exists i | 0 <= i < |links| ::
                links[i] == l != LINKTYPE_ETHERNET && forall j | 0 <= j < i :: links[j] == LINKTYPE_ETHERNET
  {
    if links != [] && links[0] == LINKTYPE_ETHERNET {
      FirstForeignIsFirst(links[1..]);
      match FirstForeign(links[1..])
      case None =>
        assert links == [links[0]] + links[1..];
      case Some(l) =>
        var i :| 0 <= i < |links[1..]| && links[1..][i] == l &&
          forall j | 0 <= j < i :: links[1..][j] == LINKTYPE_ETHERNET;
        forall j | 0 <= j < i + 1 ensures links[j] == LINKTYPE_ETHERNET {
          assert j > 0 ==> links[j] == links[1..][j - 1];
        }
        assert links[i + 1] == l;
    }
  }

  lemma SameType(o: Order)
    ensures ToBytes(o, SHB_NUMBER, 4) == SHB_TYPE
    ensures ToBytes(Big, SHB_BOM, 4) != ToBytes(Little, SHB_BOM, 4)
  {
    assert ToBytes(Little, SHB_BOM, 4)[0] == 0x4D;
    assert ToBytes(Big, SHB_BOM, 4) == [0x1A, 0x2B, 0x3C, 0x4D];
  }

  /** Bytes are determined by the number they read as. */
  lemma TypeIsSection(o: Order, number: nat)
    requires number < U32
    ensures ToBytes(o, number, 4) == SHB_TYPE <==> number == SHB_NUMBER
  {
    Widths();
    SameType(o);
    ReadsBack(o, number, 4);
    ReadsBack(o, SHB_NUMBER, 4);
  }

  function TypeOf(b: Block): nat {
    if b.Section? then SHB_NUMBER else b.number
  }

  lemma WrittenParts(order: Order, b: Block)
    ensures var w, o := Written(order, b), OrderAfter(order, b);
            && w[..4] == ToBytes(o, TypeOf(b), 4)
            && w[4..8] == ToBytes(o, Size(b), 4)
            && (b.Section? ==> w[8..12] == ToBytes(o, SHB_BOM, 4))
            && (b.Other? && |b.body| >= 4 ==> w[8..10] == b.body[..2])
  {
    match b
    case Section(o, body) =>
      SectionSlices(ToBytes(o, SHB_NUMBER, 4), ToBytes(o, Size(b), 4), ToBytes(o, SHB_BOM, 4), body,
                    ToBytes(o, Size(b), 4));
    case Other(number, body) =>
      OtherSlices(ToBytes(order, number, 4), ToBytes(order, Size(b), 4), body, ToBytes(order, Size(b), 4));
  }

  lemma SectionSlices(t: seq<Byte>, l: seq<Byte>, bom: seq<Byte>, body: seq<Byte>, end: seq<Byte>)
    requires |t| == 4 && |l| == 4 && |bom| == 4
    ensures var w := t + l + bom + body + end;
            |w| >= 12 && w[..4] == t && w[4..8] == l && w[8..12] == bom
  {
  }

  lemma OtherSlices(t: seq<Byte>, l: seq<Byte>, body: seq<Byte>, end: seq<Byte>)
    requires |t| == 4 && |l| == 4 && |end| == 4
    ensures var w := t + l + body + end;
            |w| >= 12 && w[..4] == t && w[4..8] == l && (|body| >= 4 ==> w[8..10] == body[..2])
  {
  }

  /** How the walk sees a block that stands whole in front of it. */
  lemma BlockReads(order: Order, b: Block, rest: seq<Byte>)
    requires Writable(b) && |rest| >= Size(b) && rest[..Size(b)] == Written(order, b)
    ensures rest[..4] == SHB_TYPE <==> b.Section?
    ensures OrderOf(order, rest) == OrderAfter(order, b)
    ensures FromBytes(OrderAfter(order, b), rest[..4]) == TypeOf(b)
    ensures FromBytes(OrderAfter(order, b), rest[4..8]) == Size(b)
    ensures b.Other? && |b.body| >= 4 ==> rest[8..10] == b.body[..2]
  {
    var w, o := Written(order, b), OrderAfter(order, b);
    WrittenParts(order, b);
    Widths();
    ReadsBack(o, Size(b), 4);
    ReadsBack(o, TypeOf(b), 4);
    SameType(o);
    TypeIsSection(o, TypeOf(b));
    PrefixSlices(w, rest);
  }

  lemma PrefixSlices(rest: seq<Byte>, w: seq<Byte>)
    requires rest <= w && |rest| >= 8
    ensures rest[..4] == w[..4] && rest[4..8] == w[4..8]
    ensures |rest| >= 12 ==> rest[8..12] == w[8..12]
    ensures |rest| >= 10 ==> rest[8..10] == w[8..10]
  {
  }

  /** How the walk sees a block that the end of the file cuts. */
  lemma CutBlockStops(order: Order, found: Option<nat>, b: Block, rest: seq<Byte>)
    requires Writable(b) && rest < Written(order, b)
    ensures Walk(order, found, rest) == found
  {
    var w, o := Written(order, b), OrderAfter(order, b);
    if |rest| >= 8 {
      assert w[..Size(b)] == w;
      BlockReads(order, b, w);
      PrefixSlices(rest, w);
    }
  }

  /** What the walk makes of a whole block in front of it. */
  lemma WalkStep(order: Order, found: Option<nat>, b: Block, rest: seq<Byte>)
    requires Writable(b) && |rest| >= Size(b) && rest[..Size(b)] == Written(order, b)
    ensures Walk(order, found, rest) ==
            match Declares(order, b)
            case None => Walk(OrderAfter(order, b), found, rest[Size(b)..])
            case Some(l) =>
              if l != LINKTYPE_ETHERNET then Some(l) else Walk(order, Some(LINKTYPE_ETHERNET), rest[Size(b)..])
  {
    BlockReads(order, b, rest);
  }

  lemma LinksStep(order: Order, found: Option<nat>, b: Block, more: seq<Block>)
    ensures LinkVerdict(found, LinkTypes(order, [b] + more)) ==
            match Declares(order, b)
            case None => LinkVerdict(found, LinkTypes(OrderAfter(order, b), more))
            case Some(l) =>
              if l != LINKTYPE_ETHERNET then Some(l)
              else LinkVerdict(Some(LINKTYPE_ETHERNET), LinkTypes(order, more))
  {
    var links := LinkTypes(OrderAfter(order, b), more);
    assert ([b] + more)[1..] == more;
    match Declares(order, b)
    case None =>
      assert [] + links == links;
    case Some(l) =>
      assert ([l] + links)[1..] == links;
  }

  /** The walk over any prefix of a list of blocks. */
  lemma {:induction false} WalksBlocks(order: Order, found: Option<nat>, blocks: seq<Block>, rest: seq<Byte>)
    requires AllWritable(blocks) && rest <= WrittenAll(order, blocks)
    ensures Walk(order, found, rest) == LinkVerdict(found, LinkTypes(order, WholeBlocks(blocks, |rest|)))
    decreases |blocks|
  {
    if blocks != [] {
      var b, more := blocks[0], blocks[1..];
      var n := Size(b);
      SplitPrefix(rest, Written(order, b), WrittenAll(OrderAfter(order, b), more));
      if |rest| < n {
        CutBlockStops(order, found, b, rest);
      } else {
        WalkStep(order, found, b, rest);
        LinksStep(order, found, b, WholeBlocks(more, |rest| - n));
        WalksBlocks(OrderAfter(order, b), if Declares(order, b).Some? then Some(LINKTYPE_ETHERNET) else found, more,
                    rest[n..]);
      }
    }
  }

  /** A prefix ends in the first part or in the second. */
  lemma SplitPrefix(rest: seq<Byte>, first: seq<Byte>, second: seq<Byte>)
    requires rest <= first + second
    ensures if |rest| < |first| then rest < first else rest[..|first|] == first && rest[|first|..] <= second
  {
    if |rest| < |first| {
      assert rest == (first + second)[..|rest|] == first[..|rest|];
    }
  }

  /**
  For any sections, each with its own byte order, and any blocks in them, cut off anywhere: the
  answer is the first link type other than Ethernet that a whole interface block declares, else
  Ethernet if there is such a block at all, else nothing.
  */
  lemma CutFileAnswers(blocks: seq<Block>, n: nat)
    requires AllWritable(blocks) && blocks != [] && blocks[0].Section?
    requires n <= |WrittenAll(Little, blocks)|
    ensures Linktype(WrittenAll(Little, blocks)[..n]) == LinkVerdict(None, LinkTypes(Little, WholeBlocks(blocks, n)))
  {
    var all := WrittenAll(Little, blocks);
    var data := all[..n];
    StartsAsSection(blocks);
    if n >= 12 {
      assert data[..4] == all[..4];
      WalksBlocks(Little, None, blocks, data);
    }
  }

  lemma StartsAsSection(blocks: seq<Block>)
    requires blocks != [] && blocks[0].Section?
    ensures |WrittenAll(Little, blocks)| >= 16 && WrittenAll(Little, blocks)[..4] == SHB_TYPE
  {
    var w := Written(Little, blocks[0]);
    SameType(blocks[0].order);
    WrittenParts(Little, blocks[0]);
    assert (w + WrittenAll(OrderAfter(Little, blocks[0]), blocks[1..]))[..4] == w[..4];
  }

  lemma {:induction false} AllWhole(order: Order, blocks: seq<Block>, n: nat)
    requires n == |WrittenAll(order, blocks)|
    ensures WholeBlocks(blocks, n) == blocks
    decreases |blocks|
  {
    if blocks != [] {
      assert blocks == [blocks[0]] + blocks[1..];
      AllWhole(OrderAfter(order, blocks[0]), blocks[1..], n - Size(blocks[0]));
    }
  }

  lemma FileAnswers(blocks: seq<Block>)
    requires AllWritable(blocks) && blocks != [] && blocks[0].Section?
    ensures Linktype(WrittenAll(Little, blocks)) == LinkVerdict(None, LinkTypes(Little, blocks))
  {
    var all := WrittenAll(Little, blocks);
    CutFileAnswers(blocks, |all|);
    AllWhole(Little, blocks, |all|);
    assert all[..|all|] == all;
  }

  /** On any bytes at all: a foreign link type once found stays found however the file goes on. */
  lemma {:induction false} RefusalStands(order: Order, found: Option<nat>, rest: seq<Byte>, more: seq<Byte>)
    requires found.None? || found == Some(LINKTYPE_ETHERNET)
    requires Walk(order, found, rest).Some? && Walk(order, found, rest).value != LINKTYPE_ETHERNET
    ensures Walk(order, found, rest + more) == Walk(order, found, rest)
    decreases |rest|
  {
    var longer := rest + more;
    PrefixSlices(rest, longer);
    var here := OrderOf(order, rest);
    var n := FromBytes(here, rest[4..8]);
    assert longer[n..] == rest[n..] + more;
    if FromBytes(here, rest[..4]) == IDB_TYPE && n >= 16 {
      if FromBytes(here, rest[8..10]) == LINKTYPE_ETHERNET {
        RefusalStands(here, Some(LINKTYPE_ETHERNET), rest[n..], more);
      }
    } else {
      RefusalStands(here, found, rest[n..], more);
    }
  }

  lemma ForeignStaysForeign(data: seq<Byte>, more: seq<Byte>)
    requires Linktype(data).Some? && Linktype(data).value != LINKTYPE_ETHERNET
    ensures Linktype(data + more) == Linktype(data)
  {
    assert data <= data + more;
    PrefixSlices(data, data + more);
    RefusalStands(Little, None, data, more);
  }

  /** A classic file declares the last field of its header, in the byte order of its magic. */
  lemma ClassicDeclares(order: Order, header: seq<Byte>, rest: seq<Byte>)
    requires |header| == 24 && MagicOrder(header[..4]) == Some(order)
    ensures DeclaredLinktype(header + rest) == Some(FromBytes(order, header[20..24]))
  {
    var data := header + rest;
    assert data[..4] == header[..4];
    assert data[20..24] == header[20..24];
  }

  /** What the writer produces declares Ethernet. */
  lemma WriterDeclaresEthernet(records: seq<Record>)
    requires AllFit(records)
    ensures DeclaredLinktype(File(records)) == Some(LINKTYPE_ETHERNET)
  {
    HeaderStarts();
    ClassicDeclares(Little, GLOBAL_HEADER, PackedAll(Little, AllStored(records)));
  }

  /** A pcapng file is not mistaken for a classic one. */
  lemma PcapngDeclares(blocks: seq<Block>)
    requires AllWritable(blocks) && blocks != [] && blocks[0].Section?
    ensures DeclaredLinktype(WrittenAll(Little, blocks)) == LinkVerdict(None, LinkTypes(Little, blocks))
  {
    StartsAsSection(blocks);
    NoMagic(WrittenAll(Little, blocks)[..4]);
    FileAnswers(blocks);
  }

  lemma NoMagic(magic: seq<Byte>)
    requires magic == SHB_TYPE
    ensures MagicOrder(magic) == None
  {
    assert SHB_TYPE[0] == 0x0A;
  }
}
