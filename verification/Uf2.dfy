/** The UF2 container: 512-byte blocks that each place some bytes at an address. */
module Uf2 {
  import opened Bytes
  import opened LittleEndian
  import opened Throttle
  import opened Wrappers

  const MAGIC_START0: nat := 0x0A324655
  const MAGIC_START1: nat := 0x9E5D5157
  const MAGIC_END: nat := 0x0AB16F30

  const BLOCK_SIZE := 512
  const PAGE_SIZE := 256
  const MAX_PADDING := 10 * 1024 * 1024

  /** How a conversion can end early: by the exception the interpreter raises. */
  datatype Error = StructError | TypeError | IndexError | ValueError | AssertionError

  datatype Result<+T> = Ok(value: T) | Err(error: Error)

  /** 256 bytes and where they go. */
  datatype Page = Page(addr: nat, bytes: seq<Byte>)

  type Block = b: seq<Byte> | |b| == BLOCK_SIZE witness Zeros(BLOCK_SIZE)

  function Zeros(n: nat): seq<Byte> { seq(n, i => 0) }

  // ---- Encoding ----

  /** struct.pack refuses a number that does not fit a 32-bit word. */
  predicate Packable(addr: int, blockno: int, numblocks: int, familyid: int) {
    && 0 <= addr < TWO_TO_THE_32 && 0 <= blockno < TWO_TO_THE_32
    && 0 <= numblocks < TWO_TO_THE_32 && 0 <= familyid < TWO_TO_THE_32
  }

  function Header(addr: nat, blockno: nat, numblocks: nat, familyid: nat): (h: seq<Byte>)
    requires Packable(addr, blockno, numblocks, familyid)
    ensures |h| == 32
  {
    PackAll([MAGIC_START0, MAGIC_START1, if familyid != 0 then 0x2000 else 0, addr, PAGE_SIZE, blockno, numblocks,
             familyid])
  }

  function EncodeBlock(page: Page, blockno: nat, numblocks: nat, familyid: int): Result<Block> {
    if |page.bytes| == PAGE_SIZE && Packable(page.addr, blockno, numblocks, familyid) then
      Ok(Header(page.addr, blockno, numblocks, familyid) + page.bytes
         + Zeros(BLOCK_SIZE - PAGE_SIZE - 32 - 4) + Pack32(MAGIC_END))
    else
      Err(StructError)
  }

  /** These pages as the first blocks of a container that announces `total` blocks. */
  function EncodePages(pages: seq<Page>, total: nat, familyid: int): Result<seq<Block>> {
    if pages == [] then Ok([])
    else
      match EncodePages(pages[..|pages| - 1], total, familyid)
      case Err(e) => Err(e)
      case Ok(front) =>
        match EncodeBlock(pages[|pages| - 1], |pages| - 1, total, familyid)
        case Err(e) => Err(e)
        case Ok(block) => Ok(front + [block])
  }

  function Flatten(blocks: seq<Block>): seq<Byte> {
    if blocks == [] then [] else Flatten(blocks[..|blocks| - 1]) + blocks[|blocks| - 1]
  }

  /** A container file with a block for each page. */
  function Container(pages: seq<Page>, familyid: int): Result<seq<Byte>> {
    match EncodePages(pages, |pages|, familyid)
    case Err(e) => Err(e)
    case Ok(blocks) => Ok(Flatten(blocks))
  }

  // ---- Decoding ----

  /** Where the output started, where it stands, and the output; None before the first block that counts. */
  datatype Decoder = Decoder(start: nat, curr: nat, outp: seq<Byte>)

  /** Places data at an address after what is there already, with zeros in between. */
  function Place(d: Option<Decoder>, addr: nat, data: seq<Byte>): Result<Option<Decoder>> {
    var d := if d.None? then Decoder(addr, addr, []) else d.value;
    var padding := addr - d.curr;
    if padding < 0 || padding > MAX_PADDING || padding % 4 != 0 then Err(TypeError)
    else Ok(Some(Decoder(d.start, addr + |data|, d.outp + Zeros(padding) + data)))
  }

  /** Every complaint about a block is built by adding a number to a string, which raises a TypeError. */
  function DecodeBlock(d: Option<Decoder>, block: Block): Result<Option<Decoder>> {
    if WordAt(block, 0) != MAGIC_START0 || WordAt(block, 1) != MAGIC_START1 then Err(TypeError)
    else if WordAt(block, 2) % 2 == 1 then Ok(d)
    else if WordAt(block, 4) > 476 then Err(TypeError)
    else Place(d, WordAt(block, 3), block[32..32 + WordAt(block, 4)])
  }

  /** A container file in blocks; what is left over at the end is ignored. */
  function Split(buf: seq<Byte>): seq<Block> {
    seq(|buf| / BLOCK_SIZE, i requires 0 <= i < |buf| / BLOCK_SIZE => buf[BLOCK_SIZE * i..BLOCK_SIZE * i + BLOCK_SIZE])
  }

  function Decode(blocks: seq<Block>): Result<Option<Decoder>> {
    if blocks == [] then Ok(None)
    else
      match Decode(blocks[..|blocks| - 1])
      case Err(e) => Err(e)
      case Ok(d) => DecodeBlock(d, blocks[|blocks| - 1])
  }

  /** The converters of uf2conv.py share two global variables. */
  class Converter {
    var appstartaddr: Option<nat>
    var familyid: int

    constructor (familyid: int)
      ensures appstartaddr == Some(0x2000) && this.familyid == familyid
    {
      appstartaddr := Some(0x2000);
      this.familyid := familyid;
    }

    static method AppendZeros(outp: seq<Byte>, padding: int) returns (r: seq<Byte>)
      requires padding >= 0 && padding % 4 == 0
      ensures r == outp + Zeros(padding)
    {
      r := outp;
      var left := padding;
      while left > 0
        invariant 0 <= left <= padding && left % 4 == 0
        invariant r == outp + Zeros(padding - left)
      {
        left := left - 4;
        r := r + [0, 0, 0, 0];
      }
    }

    /** The decoder that the variables of the loop make up. */
    static ghost function Now(start: Option<nat>, curr: Option<nat>, outp: seq<Byte>): Option<Decoder> {
      if start.None? || curr.None? then None else Some(Decoder(start.value, curr.value, outp))
    }

    /** Places the data of a block; `curraddr` is where the output stands, once it has begun. */
    method PlaceData(newaddr: nat, data: seq<Byte>, curraddr: Option<nat>, outp: seq<Byte>)
      returns (error: bool, curraddr': Option<nat>, outp': seq<Byte>)
      requires if curraddr.Some? then appstartaddr.Some? else outp == []
      modifies this`appstartaddr
      ensures Place(Now(old(appstartaddr), curraddr, outp), newaddr, data)
              == if error then Err(TypeError) else Ok(Now(appstartaddr, curraddr', outp'))
      ensures !error ==> curraddr'.Some? && appstartaddr.Some?
    {
      error, curraddr', outp' := false, curraddr, outp;
      if curraddr'.None? {
        appstartaddr := Some(newaddr);
        curraddr' := Some(newaddr);
      }
      var padding: int := newaddr - curraddr'.value;
      if padding < 0 || padding > MAX_PADDING || padding % 4 != 0 {
        error := true;
        return;
      }
      outp' := AppendZeros(outp', padding);
      outp' := outp' + data;
      curraddr' := Some(newaddr + |data|);
    }

    /** What one block of input adds. */
    method TakeBlock(block: Block, curraddr: Option<nat>, outp: seq<Byte>)
      returns (error: bool, curraddr': Option<nat>, outp': seq<Byte>)
      requires if curraddr.Some? then appstartaddr.Some? else outp == []
      modifies this`appstartaddr
      ensures DecodeBlock(Now(old(appstartaddr), curraddr, outp), block)
              == if error then Err(TypeError) else Ok(Now(appstartaddr, curraddr', outp'))
      ensures !error ==>
        if curraddr'.Some? then appstartaddr.Some? else outp' == [] && appstartaddr == old(appstartaddr)
    {
      error, curraddr', outp' := false, curraddr, outp;
      if WordAt(block, 0) != MAGIC_START0 || WordAt(block, 1) != MAGIC_START1 {
        error := true;
        return;
      }
      if WordAt(block, 2) % 2 == 1 {
        return;
      }
      var datalen: nat := WordAt(block, 4);
      if datalen > 476 {
        error := true;
        return;
      }
      error, curraddr', outp' := PlaceData(WordAt(block, 3), block[32..32 + datalen], curraddr, outp);
    }

    method ConvertFromUf2(buf: seq<Byte>) returns (r: Result<seq<Byte>>)
      modifies this`appstartaddr
      ensures match Decode(Split(buf))
              case Err(e) => r == Err(e)
              case Ok(None) => r == Ok([]) && appstartaddr == old(appstartaddr)
              case Ok(Some(d)) => r == Ok(d.outp) && appstartaddr == Some(d.start)
    {
      var numblocks := |buf| / BLOCK_SIZE;
      var curraddr: Option<nat> := None;
      var outp: seq<Byte> := [];
      ghost var blocks := Split(buf);
      for blockno := 0 to numblocks
        invariant if curraddr.Some? then appstartaddr.Some? else outp == [] && appstartaddr == old(appstartaddr)
        invariant Decode(blocks[..blockno]) == Ok(Now(appstartaddr, curraddr, outp))
      {
        var ptr := blockno * BLOCK_SIZE;
        ghost var before := Now(appstartaddr, curraddr, outp);
        var block := buf[ptr..ptr + BLOCK_SIZE];
        assert blocks[blockno] == block;
        DecodeNext(blocks, blockno, before);
        var error, c, o := TakeBlock(block, curraddr, outp);
        if error {
          ErrorStays(blocks, blockno + 1);
          return Err(TypeError);
        }
        curraddr, outp := c, o;
      }
      assert blocks[..numblocks] == blocks;
      return Ok(outp);
    }

    /** The pages of a file, one container block each. */
    method ConvertToUf2(content: seq<Byte>) returns (r: Result<seq<Byte>>)
      ensures r == if content == [] then Ok([])
                   else if appstartaddr.None? then Err(TypeError)
                   else Container(FilePages(content, appstartaddr.value), familyid)
    {
      var datapadding := AppendZeros([], BLOCK_SIZE - PAGE_SIZE - 32 - 4);
      assert datapadding == Zeros(BLOCK_SIZE - PAGE_SIZE - 32 - 4);
      var numblocks := (|content| + 255) / PAGE_SIZE;
      var outp: seq<Byte> := [];
      if numblocks > 0 && appstartaddr.None? {
        return Err(TypeError);
      }
      ghost var pages := if numblocks == 0 then [] else FilePages(content, appstartaddr.value);
      ghost var blocks: seq<Block> := [];
      for blockno := 0 to numblocks
        invariant EncodePages(pages[..blockno], numblocks, familyid) == Ok(blocks) && outp == Flatten(blocks)
      {
        var ptr := PAGE_SIZE * blockno;
        var addr := ptr + appstartaddr.value;
        var chunk := FillPage(content[ptr..Min(ptr + PAGE_SIZE, |content|)]);
        FilePageAt(content, appstartaddr.value, blockno);
        assert pages[blockno] == Page(addr, chunk);
        EncodeNext(pages, blockno, numblocks, familyid, blocks);
        var block := PackBlock(chunk, addr, blockno, numblocks, datapadding);
        if block.Err? {
          EncodeErrorStays(pages, blockno + 1, numblocks, familyid);
          return Err(block.error);
        }
        FlattenNext(blocks, block.value);
        blocks := blocks + [block.value];
        outp := outp + block.value;
      }
      assert pages[..numblocks] == pages;
      return Ok(outp);
    }

    /** One block of a container: a header, a page and the padding up to the end mark. */
    method PackBlock(chunk: seq<Byte>, addr: nat, blockno: nat, numblocks: nat, datapadding: seq<Byte>)
      returns (r: Result<Block>)
      requires |chunk| == PAGE_SIZE && datapadding == Zeros(BLOCK_SIZE - PAGE_SIZE - 32 - 4)
      ensures r == EncodeBlock(Page(addr, chunk), blockno, numblocks, familyid)
    {
      if !Packable(addr, blockno, numblocks, familyid) {
        return Err(StructError);
      }
      var hd := Header(addr, blockno, numblocks, familyid);
      return Ok(hd + chunk + datapadding + Pack32(MAGIC_END));
    }

    static method FillPage(chunk: seq<Byte>) returns (page: seq<Byte>)
      requires |chunk| <= PAGE_SIZE
      ensures page == chunk + Zeros(PAGE_SIZE - |chunk|)
    {
      page := chunk;
      while |page| < PAGE_SIZE
        invariant |chunk| <= |page| <= PAGE_SIZE
        invariant page == chunk + Zeros(|page| - |chunk|)
      {
        page := page + [0];
      }
    }
  }

  function BlocksFor(content: seq<Byte>): nat { (|content| + 255) / PAGE_SIZE }

  /** A file cut into pages from address `start` on, the last one filled up with zeros. */
  function FilePages(content: seq<Byte>, start: nat): seq<Page> {
    seq(BlocksFor(content), i requires 0 <= i < BlocksFor(content) =>
      var end := Min(PAGE_SIZE * i + PAGE_SIZE, |content|);
      Page(start + PAGE_SIZE * i, content[PAGE_SIZE * i..end] + Zeros(PAGE_SIZE - (end - PAGE_SIZE * i))))
  }

  lemma FilePageAt(content: seq<Byte>, start: nat, i: nat)
    requires i < BlocksFor(content)
    ensures var end := Min(PAGE_SIZE * i + PAGE_SIZE, |content|);
            && PAGE_SIZE * i < end <= PAGE_SIZE * i + PAGE_SIZE
            && FilePages(content, start)[i]
               == Page(start + PAGE_SIZE * i, content[PAGE_SIZE * i..end] + Zeros(PAGE_SIZE - (end - PAGE_SIZE * i)))
  {}

  lemma EncodeNext(pages: seq<Page>, n: nat, total: nat, familyid: int, front: seq<Block>)
    requires n < |pages| && EncodePages(pages[..n], total, familyid) == Ok(front)
    ensures EncodePages(pages[..n + 1], total, familyid)
         == match EncodeBlock(pages[n], n, total, familyid)
            case Err(e) => Err(e)
            case Ok(block) => Ok(front + [block])
  {
    assert pages[..n + 1][..n] == pages[..n];
  }

  lemma {:induction false} EncodeErrorStays(pages: seq<Page>, n: nat, total: nat, familyid: int)
    requires n <= |pages| && EncodePages(pages[..n], total, familyid).Err?
    ensures EncodePages(pages, total, familyid) == EncodePages(pages[..n], total, familyid)
  {
    if n == |pages| {
      assert pages[..n] == pages;
    } else {
      var front := pages[..|pages| - 1];
      assert front[..n] == pages[..n];
      EncodeErrorStays(front, n, total, familyid);
    }
  }

  lemma FlattenNext(blocks: seq<Block>, block: Block)
    ensures Flatten(blocks + [block]) == Flatten(blocks) + block
  {
    assert (blocks + [block])[..|blocks|] == blocks;
  }

  lemma DecodeNext(blocks: seq<Block>, n: nat, d: Option<Decoder>)
    requires n < |blocks| && Decode(blocks[..n]) == Ok(d)
    ensures Decode(blocks[..n + 1]) == DecodeBlock(d, blocks[n])
  {
    assert blocks[..n + 1][..n] == blocks[..n];
  }

  lemma {:induction false} ErrorStays(blocks: seq<Block>, n: nat)
    requires n <= |blocks| && Decode(blocks[..n]).Err?
    ensures Decode(blocks) == Decode(blocks[..n])
  {
    if n == |blocks| {
      assert blocks[..n] == blocks;
    } else {
      var front := blocks[..|blocks| - 1];
      assert front[..n] == blocks[..n];
      ErrorStays(front, n);
    }
  }

  // ---- Decoding yields the memory image ----

  ghost predicate ValidBlock(block: Block) {
    && WordAt(block, 0) == MAGIC_START0 && WordAt(block, 1) == MAGIC_START1
    && (WordAt(block, 2) % 2 == 1 || WordAt(block, 4) <= 476)
  }

  /** What a block says goes where; a block not meant for flash says nothing. */
  function Said(block: Block): seq<Page> {
    if WordAt(block, 2) % 2 == 1 then []
    else [Page(WordAt(block, 3), block[32..32 + Min(WordAt(block, 4), 476)])]
  }

  function Segments(blocks: seq<Block>): seq<Page> {
    if blocks == [] then [] else Segments(blocks[..|blocks| - 1]) + Said(blocks[|blocks| - 1])
  }

  /** b goes after a without overlap, with a gap of at most 10 MiB in whole words. */
  predicate Follows(a: Page, b: Page) {
    var gap := b.addr - (a.addr + |a.bytes|);
    0 <= gap <= MAX_PADDING && gap % 4 == 0
  }

  ghost predicate Ordered(segments: seq<Page>) {
    var n := |segments|;
    n < 2 || (Ordered(segments[..n - 1]) && Follows(segments[n - 2], segments[n - 1]))
  }

  function PlaceAll(segments: seq<Page>): Result<Option<Decoder>> {
    if segments == [] then Ok(None)
    else
      match PlaceAll(segments[..|segments| - 1])
      case Err(e) => Err(e)
      case Ok(d) => Place(d, segments[|segments| - 1].addr, segments[|segments| - 1].bytes)
  }

  /** The byte these segments put at an address, if any. */
  function ImageAt(segments: seq<Page>, a: nat): Option<Byte> {
    if segments == [] then None
    else
      var last := segments[|segments| - 1];
      if last.addr <= a < last.addr + |last.bytes| then Some(last.bytes[a - last.addr])
      else ImageAt(segments[..|segments| - 1], a)
  }

  function OrZero(b: Option<Byte>): Byte { if b.Some? then b.value else 0 }

  /** The output is the memory from the first address to the end of the last segment, with zeros where none goes. */
  ghost predicate IsImage(d: Decoder, segments: seq<Page>)
    requires segments != []
  {
    var last := segments[|segments| - 1];
    && d.start == segments[0].addr && d.curr == last.addr + |last.bytes| && |d.outp| == d.curr - d.start
    && (forall a: nat {:trigger ImageAt(segments, a)} :: ImageAt(segments, a).Some? ==> d.start <= a && a < d.curr)
    && (forall a: nat {:trigger ImageAt(segments, a)} :: d.start <= a < d.curr ==>
          d.outp[a - d.start] == OrZero(ImageAt(segments, a)))
  }

  ghost predicate IsImageOrEmpty(d: Option<Decoder>, segments: seq<Page>) {
    if segments == [] then d == None else d.Some? && IsImage(d.value, segments)
  }

  lemma {:induction false} PlaceAllImage(segments: seq<Page>)
    ensures PlaceAll(segments).Ok? <==> Ordered(segments)
    ensures PlaceAll(segments).Ok? ==> IsImageOrEmpty(PlaceAll(segments).value, segments)
  {
    if segments != [] {
      var front, last := segments[..|segments| - 1], segments[|segments| - 1];
      PlaceAllImage(front);
      if PlaceAll(front).Ok? {
        assert segments == front + [last];
        assert PlaceAll(segments) == Place(PlaceAll(front).value, last.addr, last.bytes);
        if front == [] {
          assert segments == [last];
          FirstPlaced(last);
          FirstImage(last);
        } else {
          assert segments[|segments| - 2] == front[|front| - 1];
          NextImage(front, PlaceAll(front).value.value, last);
        }
      }
    }
  }

  lemma FirstPlaced(last: Page)
    ensures Place(None, last.addr, last.bytes) == Ok(Some(Decoder(last.addr, last.addr + |last.bytes|, last.bytes)))
  {
    assert [] + Zeros(0) + last.bytes == last.bytes;
  }

  lemma FirstImage(last: Page)
    ensures IsImage(Decoder(last.addr, last.addr + |last.bytes|, last.bytes), [last])
  {
    forall a: nat
      ensures ImageAt([last], a)
           == if last.addr <= a < last.addr + |last.bytes| then Some(last.bytes[a - last.addr]) else None
    {
      FirstImageAt(last, a);
    }
  }

  lemma FirstImageAt(last: Page, a: nat)
    ensures ImageAt([last], a)
         == if last.addr <= a < last.addr + |last.bytes| then Some(last.bytes[a - last.addr]) else None
  {
    assert [last][..0] == [];
  }

  lemma NextImage(front: seq<Page>, d: Decoder, last: Page)
    requires front != [] && IsImage(d, front)
    ensures Place(Some(d), last.addr, last.bytes).Ok? <==> Follows(front[|front| - 1], last)
    ensures var r := Place(Some(d), last.addr, last.bytes);
            r.Ok? ==> r.value.Some? && IsImage(r.value.value, front + [last])
  {
    var all := front + [last];
    assert all[..|all| - 1] == front && all[0] == front[0];
    if Follows(front[|front| - 1], last) {
      var outp := d.outp + Zeros(last.addr - d.curr) + last.bytes;
      forall a: nat
        ensures ImageAt(all, a).Some? ==> d.start <= a && a < last.addr + |last.bytes|
        ensures d.start <= a < last.addr + |last.bytes| ==> outp[a - d.start] == OrZero(ImageAt(all, a))
      {
        assert ImageAt(all, a) == if last.addr <= a < last.addr + |last.bytes| then Some(last.bytes[a - last.addr])
                                  else ImageAt(front, a);
      }
    }
  }

  /** A container decodes exactly when its blocks are valid and in order, and then to the memory image of what they
      say. */
  lemma DecodeImage(blocks: seq<Block>)
    ensures Decode(blocks).Ok? <==> (forall b :: b in blocks ==> ValidBlock(b)) && Ordered(Segments(blocks))
    ensures Decode(blocks).Ok? ==> IsImageOrEmpty(Decode(blocks).value, Segments(blocks))
  {
    DecodeIsPlaceAll(blocks);
    PlaceAllImage(Segments(blocks));
  }

  lemma {:induction false} DecodeIsPlaceAll(blocks: seq<Block>)
    ensures Decode(blocks) == if forall b :: b in blocks ==> ValidBlock(b) then PlaceAll(Segments(blocks))
                              else Err(TypeError)
  {
    if blocks != [] {
      var front, last := blocks[..|blocks| - 1], blocks[|blocks| - 1];
      assert blocks == front + [last];
      DecodeIsPlaceAll(front);
      BlockPlaces(Segments(front), last);
    }
  }

  lemma BlockPlaces(front: seq<Page>, block: Block)
    ensures PlaceAll(front + Said(block))
         == if PlaceAll(front).Err? || Said(block) == [] then PlaceAll(front)
            else Place(PlaceAll(front).value, Said(block)[0].addr, Said(block)[0].bytes)
    ensures PlaceAll(front).Ok? ==>
      DecodeBlock(PlaceAll(front).value, block)
      == if ValidBlock(block) then PlaceAll(front + Said(block)) else Err(TypeError)
    ensures PlaceAll(front).Err? ==> PlaceAll(front) == Err(TypeError)
  {
    PlaceErrors(front);
    if Said(block) == [] {
      assert front + [] == front;
    } else {
      var all := front + Said(block);
      assert all[..|all| - 1] == front;
    }
  }

  lemma {:induction false} PlaceErrors(segments: seq<Page>)
    ensures PlaceAll(segments).Err? ==> PlaceAll(segments) == Err(TypeError)
  {
    if segments != [] { PlaceErrors(segments[..|segments| - 1]); }
  }

  // ---- What is encoded is decoded ----

  lemma {:induction false} SplitFlatten(blocks: seq<Block>)
    ensures |Flatten(blocks)| == BLOCK_SIZE * |blocks| && Split(Flatten(blocks)) == blocks
  {
    if blocks != [] {
      var front, last := blocks[..|blocks| - 1], blocks[|blocks| - 1];
      SplitFlatten(front);
      forall i | 0 <= i < |blocks|
        ensures Split(Flatten(blocks))[i] == blocks[i]
      {
        BlockFound(Flatten(front), last, i);
        if i < |front| {
          assert Split(Flatten(front))[i] == front[i];
        }
      }
    }
  }

  lemma BlockFound(buf: seq<Byte>, last: Block, i: nat)
    requires |buf| % BLOCK_SIZE == 0 && i <= |buf| / BLOCK_SIZE
    ensures var at := BLOCK_SIZE * i;
            (buf + last)[at..at + BLOCK_SIZE] == if at < |buf| then buf[at..at + BLOCK_SIZE] else last
  {
  }

  lemma HeaderWords(addr: nat, blockno: nat, numblocks: nat, familyid: nat, rest: seq<Byte>)
    requires Packable(addr, blockno, numblocks, familyid)
    ensures var b := Header(addr, blockno, numblocks, familyid) + rest;
            && WordAt(b, 0) == MAGIC_START0 && WordAt(b, 1) == MAGIC_START1
            && WordAt(b, 2) == (if familyid != 0 then 0x2000 else 0)
            && WordAt(b, 3) == addr && WordAt(b, 4) == PAGE_SIZE
  {
    var words := [MAGIC_START0, MAGIC_START1, if familyid != 0 then 0x2000 else 0, addr, PAGE_SIZE, blockno, numblocks,
                  familyid];
    WordAtPackAll(words, rest, 0);
    WordAtPackAll(words, rest, 1);
    WordAtPackAll(words, rest, 2);
    WordAtPackAll(words, rest, 3);
    WordAtPackAll(words, rest, 4);
  }

  lemma EncodedBlockSays(page: Page, blockno: nat, numblocks: nat, familyid: int)
    requires EncodeBlock(page, blockno, numblocks, familyid).Ok?
    ensures var block := EncodeBlock(page, blockno, numblocks, familyid).value;
            ValidBlock(block) && Said(block) == [page]
  {
    var h := Header(page.addr, blockno, numblocks, familyid);
    var rest := page.bytes + Zeros(BLOCK_SIZE - PAGE_SIZE - 32 - 4) + Pack32(MAGIC_END);
    var block := EncodeBlock(page, blockno, numblocks, familyid).value;
    assert block == h + rest;
    HeaderWords(page.addr, blockno, numblocks, familyid, rest);
    assert block[32..32 + PAGE_SIZE] == page.bytes;
  }

  lemma {:induction false} EncodedPagesSay(pages: seq<Page>, total: nat, familyid: int)
    requires EncodePages(pages, total, familyid).Ok?
    ensures var blocks := EncodePages(pages, total, familyid).value;
            Segments(blocks) == pages && forall b :: b in blocks ==> ValidBlock(b)
  {
    if pages != [] {
      var front, last := pages[..|pages| - 1], pages[|pages| - 1];
      EncodedPagesSay(front, total, familyid);
      EncodedBlockSays(last, |front|, total, familyid);
      var blocks := EncodePages(pages, total, familyid).value;
      assert blocks[..|blocks| - 1] == EncodePages(front, total, familyid).value;
      assert pages == front + [last];
    }
  }

  /** Decoding a container is placing its pages. */
  lemma DecodeContainer(pages: seq<Page>, familyid: int)
    requires Container(pages, familyid).Ok?
    ensures Decode(Split(Container(pages, familyid).value)) == PlaceAll(pages)
  {
    var blocks := EncodePages(pages, |pages|, familyid).value;
    SplitFlatten(blocks);
    EncodedPagesSay(pages, |pages|, familyid);
    DecodeIsPlaceAll(blocks);
  }

  /** Decoding a container succeeds exactly when its pages are in order, and yields the memory image. */
  lemma ContainerImage(pages: seq<Page>, familyid: int)
    requires Container(pages, familyid).Ok?
    ensures var d := Decode(Split(Container(pages, familyid).value));
            (d.Ok? <==> Ordered(pages)) && (d.Ok? ==> IsImageOrEmpty(d.value, pages))
  {
    DecodeContainer(pages, familyid);
    PlaceAllImage(pages);
  }

  ghost predicate WholePages(pages: seq<Page>) { forall p :: p in pages ==> |p.bytes| == PAGE_SIZE }

  ghost predicate Addressable(pages: seq<Page>) { forall p :: p in pages ==> p.addr < TWO_TO_THE_32 }

  /** An encoding fails only on a number that does not fit 32 bits. */
  lemma {:induction false} EncodeOkIff(pages: seq<Page>, total: nat, familyid: int)
    requires WholePages(pages) && |pages| <= total
    ensures EncodePages(pages, total, familyid).Ok? <==>
              pages == [] || (Addressable(pages) && total < TWO_TO_THE_32 && 0 <= familyid < TWO_TO_THE_32)
  {
    if pages != [] {
      LastPageApart(pages);
      EncodeOkIff(pages[..|pages| - 1], total, familyid);
    }
  }

  lemma LastPageApart(pages: seq<Page>)
    requires pages != []
    ensures var front, last := pages[..|pages| - 1], pages[|pages| - 1];
            && (Addressable(pages) <==> Addressable(front) && last.addr < TWO_TO_THE_32)
            && (WholePages(pages) ==> WholePages(front) && |last.bytes| == PAGE_SIZE)
  {
    assert pages == pages[..|pages| - 1] + [pages[|pages| - 1]];
  }

  /** A file filled up with zeros to whole pages. */
  function Padded(content: seq<Byte>): seq<Byte> { content + Zeros(PAGE_SIZE * BlocksFor(content) - |content|) }

  lemma PlaceNext(pages: seq<Page>, n: nat)
    requires n < |pages| && PlaceAll(pages[..n]).Ok?
    ensures PlaceAll(pages[..n + 1]) == Place(PlaceAll(pages[..n]).value, pages[n].addr, pages[n].bytes)
  {
    assert pages[..n + 1][..n] == pages[..n];
  }

  lemma PlaceAdjacent(d: Decoder, data: seq<Byte>)
    ensures Place(Some(d), d.curr, data) == Ok(Some(Decoder(d.start, d.curr + |data|, d.outp + data)))
  {
    assert d.outp + Zeros(0) + data == d.outp + data;
  }

  lemma {:induction false} PlaceFile(content: seq<Byte>, start: nat, n: nat)
    requires 1 <= n <= BlocksFor(content)
    ensures PlaceAll(FilePages(content, start)[..n])
         == Ok(Some(Decoder(start, start + PAGE_SIZE * n, Padded(content)[..PAGE_SIZE * n])))
  {
    var pages, m := FilePages(content, start), n - 1;
    var before, data := Padded(content)[..PAGE_SIZE * m], pages[m].bytes;
    FilePageAt(content, start, m);
    PageOfPadded(content, start, m);
    assert before + data == Padded(content)[..PAGE_SIZE * n];
    var d := Decoder(start, start + PAGE_SIZE * m, before);
    PlaceAdjacent(d, data);
    if m == 0 {
      assert pages[..0] == [];
      assert Place(None, start, data) == Place(Some(d), start, data);
    } else {
      PlaceFile(content, start, m);
    }
    PlaceNext(pages, m);
  }

  lemma PageOfPadded(content: seq<Byte>, start: nat, i: nat)
    requires i < BlocksFor(content)
    ensures FilePages(content, start)[i].bytes == Padded(content)[PAGE_SIZE * i..PAGE_SIZE * i + PAGE_SIZE]
  {
    FilePageAt(content, start, i);
  }

  lemma FilePlaced(content: seq<Byte>, start: nat)
    requires content != []
    ensures PlaceAll(FilePages(content, start))
         == Ok(Some(Decoder(start, start + |Padded(content)|, Padded(content))))
  {
    var n := BlocksFor(content);
    PlaceFile(content, start, n);
    assert FilePages(content, start)[..n] == FilePages(content, start);
    assert Padded(content)[..PAGE_SIZE * n] == Padded(content);
  }

  /** A file converts exactly when its last page begins in the 32-bit address space. */
  lemma FileEncodes(content: seq<Byte>, start: nat, familyid: int)
    requires content != [] && 0 <= familyid < TWO_TO_THE_32
    ensures Container(FilePages(content, start), familyid).Ok?
       <==> start + PAGE_SIZE * (BlocksFor(content) - 1) < TWO_TO_THE_32
  {
    var pages := FilePages(content, start);
    forall i | 0 <= i < |pages|
      ensures pages[i].addr == start + PAGE_SIZE * i && |pages[i].bytes| == PAGE_SIZE
    {
      FilePageAt(content, start, i);
    }
    EncodeOkIff(pages, |pages|, familyid);
    assert pages[|pages| - 1] in pages;
  }

  /** Converting a file to UF2 and back gives the file, filled up with zeros to whole pages, and its address. */
  lemma FileRoundTrip(content: seq<Byte>, start: nat, familyid: int)
    requires content != [] && Container(FilePages(content, start), familyid).Ok?
    ensures Decode(Split(Container(FilePages(content, start), familyid).value))
         == Ok(Some(Decoder(start, start + |Padded(content)|, Padded(content))))
  {
    DecodeContainer(FilePages(content, start), familyid);
    FilePlaced(content, start);
  }
}
