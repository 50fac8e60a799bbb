/** Intel HEX text to UF2: records write single bytes, pages collect them, and each page becomes a block. */
module IntelHex {
  import opened Bytes
  import opened LittleEndian
  import opened Throttle
  import opened Uf2
  import opened Wrappers

  // ---- Text ----

  /** What a file recognised as HEX consists of. */
  predicate IsHexChar(c: char) {
    c == ':' || '0' <= c <= '9' || 'a' <= c <= 'f' || 'A' <= c <= 'F' || c == '\r' || c == '\n'
  }

  function SplitLines(buf: string): (lines: seq<string>)
    ensures lines != []
    ensures (forall c :: c in buf ==> IsHexChar(c)) ==> forall l, c :: l in lines && c in l ==> IsHexChar(c)
  {
    if buf == [] then [[]]
    else
      var rest := SplitLines(buf[1..]);
      if buf[0] == '\n' then [[]] + rest else [[buf[0]] + rest[0]] + rest[1..]
  }

  function HexDigit(c: char): (d: Option<nat>)
    ensures d.Some? ==> d.value < 16
  {
    if '0' <= c <= '9' then Some(c as int - '0' as int)
    else if 'a' <= c <= 'f' then Some(c as int - 'a' as int + 10)
    else if 'A' <= c <= 'F' then Some(c as int - 'A' as int + 10)
    else None
  }

  /** int(s, 16) on two such characters: white space around the digits is dropped. */
  function HexPair(a: char, b: char): Result<Byte> {
    match (HexDigit(a), HexDigit(b))
    case (Some(x), Some(y)) => Ok(16 * x + y)
    case (Some(x), None) => if b == '\r' then Ok(x) else Err(ValueError)
    case (None, Some(y)) => if a == '\r' then Ok(y) else Err(ValueError)
    case (None, None) => Err(ValueError)
  }

  /** The bytes that the pairs of characters from position i on stand for. */
  function Pairs(line: string, i: nat): Result<seq<Byte>>
    decreases |line| - i
  {
    if i + 1 >= |line| then Ok([])
    else
      match HexPair(line[i], line[i + 1])
      case Err(e) => Err(e)
      case Ok(b) => After([b], Pairs(line, i + 2))
  }

  /** The outcome of reading the rest of a line, after these bytes. */
  function After(rec: seq<Byte>, rest: Result<seq<Byte>>): Result<seq<Byte>> {
    match rest
    case Err(e) => Err(e)
    case Ok(more) => Ok(rec + more)
  }

  method ParseRecord(line: string) returns (r: Result<seq<Byte>>)
    ensures r == Pairs(line, 1)
  {
    var i := 1;
    var rec: seq<Byte> := [];
    AfterNothing(Pairs(line, 1));
    while i < |line| - 1
      invariant i >= 1 && Pairs(line, 1) == After(rec, Pairs(line, i))
      decreases |line| - i
    {
      var b := HexPair(line[i], line[i + 1]);
      match b {
        case Err(e) => return Err(e);
        case Ok(value) =>
          AfterOne(rec, value, Pairs(line, i + 2));
          rec := rec + [value];
      }
      i := i + 2;
    }
    assert rec + [] == rec;
    return Ok(rec);
  }

  lemma AfterNothing(rest: Result<seq<Byte>>)
    ensures After([], rest) == rest
  {
    if rest.Ok? { assert [] + rest.value == rest.value; }
  }

  lemma AfterOne(rec: seq<Byte>, b: Byte, rest: Result<seq<Byte>>)
    ensures After(rec, After([b], rest)) == After(rec + [b], rest)
  {
    if rest.Ok? { assert rec + ([b] + rest.value) == rec + [b] + rest.value; }
  }

  // ---- Records ----

  datatype Write = Write(addr: nat, byte: Byte)

  datatype Status = Running | Ended | Failed(error: Error)

  /** The upper half of addresses, the first data address, and every byte written so far, in order. */
  datatype Machine = Machine(upper: nat, start: Option<nat>, writes: seq<Write>, status: Status)

  const INITIAL := Machine(0, None, [], Running)

  /** The log of writes, continued by the bytes of a data record from an address on. */
  function Logged(writes: seq<Write>, addr: nat, data: seq<Byte>): seq<Write> {
    if data == [] then writes
    else Logged(writes, addr, data[..|data| - 1]) + [Write(addr + |data| - 1, data[|data| - 1])]
  }

  /** Everything between the record type and the checksum. */
  function Payload(rec: seq<Byte>): seq<Byte>
    requires |rec| >= 4
  {
    if |rec| == 4 then [] else rec[4..|rec| - 1]
  }

  function Interpret(m: Machine, rec: seq<Byte>): Machine {
    if |rec| < 4 then m.(status := Failed(IndexError))
    else
      var tp := rec[3];
      if tp == 4 then
        if |rec| < 6 then m.(status := Failed(IndexError))
        else m.(upper := Half(rec[4], rec[5]) * 0x1_0000)
      else if tp == 2 then
        if |rec| < 6 then m.(status := Failed(IndexError))
        else
          var m := m.(upper := Half(rec[4], rec[5]) * 16);
          if m.upper % 0x1_0000 == 0 then m else m.(status := Failed(AssertionError))
      else if tp == 1 then m.(status := Ended)
      else if tp == 0 then
        var addr := m.upper + Half(rec[1], rec[2]);
        m.(start := if m.start.None? then Some(addr) else m.start, writes := Logged(m.writes, addr, Payload(rec)))
      else m
  }

  function Half(high: nat, low: nat): nat { 256 * high + low }

  function ReadLine(m: Machine, line: string): Machine {
    if line == [] then m.(status := Failed(IndexError))
    else if line[0] != ':' then m
    else
      match Pairs(line, 1)
      case Err(e) => m.(status := Failed(e))
      case Ok(rec) => Interpret(m, rec)
  }

  /** The machine after these lines; it stops at the first end-of-file record or error. */
  function ReadLines(lines: seq<string>): Machine {
    if lines == [] then INITIAL
    else
      var m := ReadLines(lines[..|lines| - 1]);
      if m.status.Running? then ReadLine(m, lines[|lines| - 1]) else m
  }

  // ---- Pages ----

  function PageOf(addr: nat): nat { addr / PAGE_SIZE * PAGE_SIZE }

  type WholePage = p: Page | |p.bytes| == PAGE_SIZE witness Page(0, Zeros(PAGE_SIZE))

  /** A write goes to the page at hand, or begins a new one. */
  function Store(pages: seq<WholePage>, w: Write): seq<WholePage> {
    var n := |pages|;
    if n == 0 || PageOf(pages[n - 1].addr) != PageOf(w.addr) then
      pages + [Page(PageOf(w.addr), Zeros(PAGE_SIZE)[w.addr % PAGE_SIZE := w.byte])]
    else
      pages[n - 1 := pages[n - 1].(bytes := pages[n - 1].bytes[w.addr % PAGE_SIZE := w.byte])]
  }

  function BuildPages(writes: seq<Write>): seq<WholePage> {
    if writes == [] then [] else Store(BuildPages(writes[..|writes| - 1]), writes[|writes| - 1])
  }

  /** The page buffer of the converter. */
  class PageBuffer {
    const addr: nat
    const bytes: array<Byte>

    constructor (addr: nat)
      ensures this.addr == addr && fresh(bytes) && bytes.Length == PAGE_SIZE && bytes[..] == Zeros(PAGE_SIZE)
    {
      this.addr := addr;
      bytes := new Byte[PAGE_SIZE](i => 0);
    }

    method Encode(blockno: nat, numblocks: nat, familyid: int) returns (r: Result<Block>)
      requires bytes.Length == PAGE_SIZE
      ensures r == EncodeBlock(Page(addr, bytes[..]), blockno, numblocks, familyid)
    {
      if !Packable(addr, blockno, numblocks, familyid) {
        return Err(StructError);
      }
      var hd := Header(addr, blockno, numblocks, familyid);
      hd := hd + bytes[..];
      ghost var before := hd;
      while |hd| < BLOCK_SIZE - 4
        invariant 32 + PAGE_SIZE <= |hd| <= BLOCK_SIZE - 4
        invariant hd == before + Zeros(|hd| - 32 - PAGE_SIZE)
      {
        hd := hd + [0];
      }
      hd := hd + Pack32(MAGIC_END);
      return Ok(hd);
    }
  }

  /** The page buffers hold these pages; they never share their bytes, which are among `buffers`. */
  ghost predicate Holds(blocks: seq<PageBuffer>, pages: seq<WholePage>, buffers: set<array<Byte>>)
    reads buffers
  {
    && |blocks| == |pages|
    && (forall i :: 0 <= i < |blocks| ==> blocks[i].bytes in buffers)
    && (forall i :: 0 <= i < |blocks| ==> blocks[i].addr == pages[i].addr)
    && (forall i :: 0 <= i < |blocks| ==> blocks[i].bytes[..] == pages[i].bytes)
    && (forall i, j :: 0 <= i < j < |blocks| ==> blocks[i].bytes != blocks[j].bytes)
  }

  lemma BuildNext(writes: seq<Write>, w: Write)
    ensures BuildPages(writes + [w]) == Store(BuildPages(writes), w)
  {
    assert (writes + [w])[..|writes|] == writes;
  }

  /** Stores one byte. */
  method StoreByte(blocks: seq<PageBuffer>, addr: nat, byte: Byte, ghost pages: seq<WholePage>,
                   ghost buffers: set<array<Byte>>)
    returns (more: seq<PageBuffer>, ghost grown: set<array<Byte>>)
    requires Holds(blocks, pages, buffers)
    modifies buffers
    ensures Holds(more, Store(pages, Write(addr, byte)), grown) && fresh(grown - buffers)
  {
    more, grown := blocks, buffers;
    if |blocks| == 0 || PageOf(blocks[|blocks| - 1].addr) != PageOf(addr) {
      var b := new PageBuffer(PageOf(addr));
      more, grown := blocks + [b], buffers + {b.bytes};
    }
    var currblock := more[|more| - 1];
    currblock.bytes[addr % PAGE_SIZE] := byte;
  }

  /** Stores the bytes of one data record. */
  method StoreRecord(blocks: seq<PageBuffer>, addr: nat, data: seq<Byte>, ghost writes: seq<Write>,
                     ghost buffers: set<array<Byte>>)
    returns (more: seq<PageBuffer>, ghost grown: set<array<Byte>>)
    requires Holds(blocks, BuildPages(writes), buffers)
    modifies buffers
    ensures Holds(more, BuildPages(Logged(writes, addr, data)), grown) && fresh(grown - buffers)
  {
    more, grown := blocks, buffers;
    for i := 0 to |data|
      invariant Holds(more, BuildPages(Logged(writes, addr, data[..i])), grown) && fresh(grown - buffers)
    {
      ghost var log := Logged(writes, addr, data[..i]);
      LoggedNext(writes, addr, data, i);
      BuildNext(log, Write(addr + i, data[i]));
      more, grown := StoreByte(more, addr + i, data[i], BuildPages(log), grown);
    }
    assert data[..|data|] == data;
  }

  lemma LoggedNext(writes: seq<Write>, addr: nat, data: seq<Byte>, i: nat)
    requires i < |data|
    ensures Logged(writes, addr, data[..i + 1]) == Logged(writes, addr, data[..i]) + [Write(addr + i, data[i])]
  {
    assert data[..i + 1][..i] == data[..i];
  }

  /** The variables of the conversion stand for this machine. */
  ghost predicate Stands(c: Converter, upper: nat, blocks: seq<PageBuffer>, buffers: set<array<Byte>>, m: Machine)
    reads c, buffers
  {
    c.appstartaddr == m.start && upper == m.upper && Holds(blocks, BuildPages(m.writes), buffers)
  }

  /** What one record does. */
  method TakeRecord(c: Converter, rec: seq<Byte>, upper: nat, blocks: seq<PageBuffer>, ghost m: Machine,
                    ghost buffers: set<array<Byte>>)
    returns (status: Status, upper': nat, more: seq<PageBuffer>, ghost grown: set<array<Byte>>)
    requires Stands(c, upper, blocks, buffers, m) && m.status.Running?
    modifies c`appstartaddr, buffers
    ensures Stands(c, upper', more, grown, Interpret(m, rec)) && status == Interpret(m, rec).status
    ensures fresh(grown - buffers)
  {
    status, upper', more, grown := Running, upper, blocks, buffers;
    if |rec| < 4 {
      return Failed(IndexError), upper, blocks, buffers;
    }
    var tp := rec[3];
    if tp == 4 || tp == 2 {
      if |rec| < 6 {
        return Failed(IndexError), upper, blocks, buffers;
      }
      upper' := Half(rec[4], rec[5]) * (if tp == 4 then 0x1_0000 else 16);
      if tp == 2 && upper' % 0x1_0000 != 0 {
        status := Failed(AssertionError);
      }
    } else if tp == 1 {
      status := Ended;
    } else if tp == 0 {
      var addr := upper + Half(rec[1], rec[2]);
      more, grown := StoreRecord(blocks, addr, Payload(rec), m.writes, buffers);
      if c.appstartaddr.None? {
        c.appstartaddr := Some(addr);
      }
    }
  }

  /** What one line does. */
  method TakeLine(c: Converter, line: string, upper: nat, blocks: seq<PageBuffer>, ghost m: Machine,
                  ghost buffers: set<array<Byte>>)
    returns (status: Status, upper': nat, more: seq<PageBuffer>, ghost grown: set<array<Byte>>)
    requires Stands(c, upper, blocks, buffers, m) && m.status.Running?
    modifies c`appstartaddr, buffers
    ensures Stands(c, upper', more, grown, ReadLine(m, line)) && status == ReadLine(m, line).status
    ensures fresh(grown - buffers)
  {
    status, upper', more, grown := Running, upper, blocks, buffers;
    if line == [] {
      status := Failed(IndexError);
    } else if line[0] == ':' {
      var parsed := ParseRecord(line);
      match parsed {
        case Err(e) =>
          status := Failed(e);
        case Ok(rec) =>
          status, upper', more, grown := TakeRecord(c, rec, upper, blocks, m, buffers);
      }
    }
  }

  /** The blocks of the pages, one after the other. */
  method EncodeBuffers(blocks: seq<PageBuffer>, familyid: int, ghost pages: seq<WholePage>,
                       ghost buffers: set<array<Byte>>)
    returns (r: Result<seq<Byte>>)
    requires Holds(blocks, pages, buffers)
    ensures r == Container(pages, familyid)
  {
    var numblocks := |blocks|;
    var resfile: seq<Byte> := [];
    ghost var done: seq<Block> := [];
    for i := 0 to numblocks
      invariant EncodePages(pages[..i], numblocks, familyid) == Ok(done) && resfile == Flatten(done)
    {
      EncodeNext(pages, i, numblocks, familyid, done);
      var block := blocks[i].Encode(i, numblocks, familyid);
      assert pages[i] == Page(blocks[i].addr, blocks[i].bytes[..]);
      match block {
        case Err(e) =>
          EncodeErrorStays(pages, i + 1, numblocks, familyid);
          return Err(e);
        case Ok(b) =>
          FlattenNext(done, b);
          done := done + [b];
          resfile := resfile + b;
      }
    }
    assert pages[..numblocks] == pages;
    return Ok(resfile);
  }

  /** What the conversion of a text yields. */
  function HexToUf2(buf: string, familyid: int): Result<seq<Byte>> {
    var m := ReadLines(SplitLines(buf));
    match m.status
    case Failed(e) => Err(e)
    case _ => Container(BuildPages(m.writes), familyid)
  }

  method ConvertFromHexToUf2(c: Converter, buf: string) returns (r: Result<seq<Byte>>)
    modifies c`appstartaddr
    ensures r == HexToUf2(buf, c.familyid)
    ensures c.appstartaddr == ReadLines(SplitLines(buf)).start
  {
    c.appstartaddr := None;
    var upper: nat := 0;
    var blocks: seq<PageBuffer> := [];
    ghost var buffers: set<array<Byte>> := {};
    var lines := SplitLines(buf);
    var i := 0;
    ghost var m := INITIAL;
    while i < |lines|
      invariant 0 <= i <= |lines|
      invariant m == ReadLines(lines[..i]) && m.status.Running?
      invariant Stands(c, upper, blocks, buffers, m) && fresh(buffers)
    {
      ReadNext(lines, i);
      var status;
      status, upper, blocks, buffers := TakeLine(c, lines[i], upper, blocks, m, buffers);
      m := ReadLine(m, lines[i]);
      i := i + 1;
      if !status.Running? {
        ReadStops(lines, i);
        if status.Failed? {
          return Err(status.error);
        }
        break;
      }
    }
    assert lines[..|lines|] == lines;
    r := EncodeBuffers(blocks, c.familyid, BuildPages(m.writes), buffers);
  }

  lemma ReadNext(lines: seq<string>, i: nat)
    requires i < |lines| && ReadLines(lines[..i]).status.Running?
    ensures ReadLines(lines[..i + 1]) == ReadLine(ReadLines(lines[..i]), lines[i])
  {
    assert lines[..i + 1][..i] == lines[..i];
  }

  lemma {:induction false} ReadStops(lines: seq<string>, i: nat)
    requires i <= |lines| && !ReadLines(lines[..i]).status.Running?
    ensures ReadLines(lines) == ReadLines(lines[..i])
  {
    if i == |lines| {
      assert lines[..i] == lines;
    } else {
      var front := lines[..|lines| - 1];
      assert front[..i] == lines[..i];
      ReadStops(front, i);
    }
  }

  // ---- HEX to UF2 to memory ----

  /** The last byte written to an address, if any. */
  function LastWrite(writes: seq<Write>, a: nat): Option<Byte> {
    if writes == [] then None
    else if writes[|writes| - 1].addr == a then Some(writes[|writes| - 1].byte)
    else LastWrite(writes[..|writes| - 1], a)
  }

  /** The next write stays on the page, or goes on to a later one, skipping at most 10 MiB. */
  predicate MovesOn(a: Write, b: Write) {
    var gap := PageOf(b.addr) - PageOf(a.addr);
    gap == 0 || PAGE_SIZE <= gap <= MAX_PADDING + PAGE_SIZE
  }

  ghost predicate InPageOrder(writes: seq<Write>) {
    var n := |writes|;
    n < 2 || (InPageOrder(writes[..n - 1]) && MovesOn(writes[n - 2], writes[n - 1]))
  }

  lemma PageOfFacts(a: nat)
    ensures PageOf(a) <= a < PageOf(a) + PAGE_SIZE && a - PageOf(a) == a % PAGE_SIZE
    ensures PageOf(PageOf(a)) == PageOf(a) && PageOf(a) % 4 == 0
  {}

  lemma SamePage(a: nat, b: nat)
    ensures PageOf(a) == PageOf(b) <==> PageOf(b) <= a < PageOf(b) + PAGE_SIZE
    ensures PageOf(a) < PageOf(b) ==> PageOf(a) + PAGE_SIZE <= PageOf(b)
    ensures (PageOf(b) - PageOf(a)) % 4 == 0
  {
    SamePageNumber(a, a / PAGE_SIZE, b, b / PAGE_SIZE);
  }

  lemma SamePageNumber(a: nat, p: nat, b: nat, q: nat)
    requires p * PAGE_SIZE <= a < p * PAGE_SIZE + PAGE_SIZE && q * PAGE_SIZE <= b < q * PAGE_SIZE + PAGE_SIZE
    ensures p == q <==> q * PAGE_SIZE <= a < q * PAGE_SIZE + PAGE_SIZE
    ensures p < q ==> p * PAGE_SIZE + PAGE_SIZE <= q * PAGE_SIZE
    ensures q * PAGE_SIZE - p * PAGE_SIZE == (64 * q - 64 * p) * 4
  {}

  /** The page at hand is that of the last write. */
  lemma {:induction false} LastPage(writes: seq<Write>)
    ensures writes == [] <==> BuildPages(writes) == []
    ensures writes != [] ==>
      var pages := BuildPages(writes);
      pages[|pages| - 1].addr == PageOf(writes[|writes| - 1].addr)
  {
    if writes != [] {
      var w := writes[|writes| - 1];
      LastPage(writes[..|writes| - 1]);
      PageOfFacts(w.addr);
      if |writes| > 1 { PageOfFacts(writes[|writes| - 2].addr); }
    }
  }

  /** Pages come out in order exactly when the writes visit them in order. */
  lemma {:induction false} OrderCarriesOver(writes: seq<Write>)
    ensures Ordered(BuildPages(writes)) <==> InPageOrder(writes)
  {
    var n := |writes|;
    if n > 0 {
      var front, w := writes[..n - 1], writes[n - 1];
      var pages := BuildPages(front);
      OrderCarriesOver(front);
      LastPage(front);
      if n > 1 { StoreOrder(pages, writes[n - 2], w); }
    }
  }

  lemma StoreOrder(pages: seq<WholePage>, v: Write, w: Write)
    requires pages != [] && pages[|pages| - 1].addr == PageOf(v.addr)
    ensures Ordered(Store(pages, w)) <==> Ordered(pages) && MovesOn(v, w)
  {
    PageOfFacts(v.addr);
    if PageOf(v.addr) == PageOf(w.addr) {
      var n := |pages|;
      SameAddresses(pages, n - 1, pages[n - 1].bytes[w.addr % PAGE_SIZE := w.byte]);
    } else {
      NewPageOrder(pages, v.addr, w.addr, Zeros(PAGE_SIZE)[w.addr % PAGE_SIZE := w.byte]);
    }
  }

  lemma SameAddresses(pages: seq<WholePage>, i: nat, bytes: seq<Byte>)
    requires i == |pages| - 1 && |bytes| == PAGE_SIZE
    ensures Ordered(pages[i := pages[i].(bytes := bytes)]) <==> Ordered(pages)
  {
    assert pages[i := pages[i].(bytes := bytes)][..i] == pages[..i];
  }

  lemma NewPageOrder(pages: seq<WholePage>, a: nat, b: nat, bytes: seq<Byte>)
    requires pages != [] && pages[|pages| - 1].addr == PageOf(a) != PageOf(b) && |bytes| == PAGE_SIZE
    ensures Ordered(pages + [Page(PageOf(b), bytes)])
       <==> Ordered(pages) && PAGE_SIZE <= PageOf(b) - PageOf(a) <= MAX_PADDING + PAGE_SIZE
  {
    assert (pages + [Page(PageOf(b), bytes)])[..|pages|] == pages;
    SamePage(a, b);
  }

  /** Nothing was written beyond the page at hand. */
  lemma {:induction false} NothingBeyond(writes: seq<Write>, a: nat)
    requires InPageOrder(writes) && writes != [] && a >= PageOf(writes[|writes| - 1].addr) + PAGE_SIZE
    ensures LastWrite(writes, a) == None
  {
    var n := |writes|;
    PageOfFacts(writes[n - 1].addr);
    if n > 1 {
      NothingBeyond(writes[..n - 1], a);
    } else {
      assert LastWrite(writes[..0], a) == None;
    }
  }

  /** The pages hold, at every address, the last byte written there. */
  lemma {:induction false} PagesHoldWrites(writes: seq<Write>, a: nat)
    requires InPageOrder(writes)
    ensures OrZero(ImageAt(BuildPages(writes), a)) == OrZero(LastWrite(writes, a))
  {
    var n := |writes|;
    if n > 0 {
      var front, w := writes[..n - 1], writes[n - 1];
      PagesHoldWrites(front, a);
      if n == 1 {
        NewPageImage([], w, a);
      } else {
        NextWriteHeld(front, w, a);
      }
    }
  }

  lemma NextWriteHeld(front: seq<Write>, w: Write, a: nat)
    requires front != [] && InPageOrder(front) && MovesOn(front[|front| - 1], w)
    requires OrZero(ImageAt(BuildPages(front), a)) == OrZero(LastWrite(front, a))
    ensures OrZero(ImageAt(Store(BuildPages(front), w), a))
         == if a == w.addr then w.byte else OrZero(LastWrite(front, a))
  {
    var last := front[|front| - 1];
    LastPage(front);
    PageOfFacts(last.addr);
    if PageOf(last.addr) == PageOf(w.addr) {
      SamePageImage(BuildPages(front), w, a);
    } else {
      NewPageImage(BuildPages(front), w, a);
      if PageOf(a) == PageOf(w.addr) {
        PageNotYetWritten(front, w, a);
      }
    }
  }

  lemma PageNotYetWritten(front: seq<Write>, w: Write, a: nat)
    requires front != [] && InPageOrder(front) && MovesOn(front[|front| - 1], w)
    requires PageOf(a) == PageOf(w.addr) != PageOf(front[|front| - 1].addr)
    ensures LastWrite(front, a) == None
  {
    SamePage(a, w.addr);
    NothingBeyond(front, a);
  }

  lemma NewPageImage(pages: seq<WholePage>, w: Write, a: nat)
    requires pages == [] || PageOf(pages[|pages| - 1].addr) != PageOf(w.addr)
    ensures OrZero(ImageAt(Store(pages, w), a))
         == if a == w.addr then w.byte else if PageOf(a) == PageOf(w.addr) then 0 else OrZero(ImageAt(pages, a))
  {
    var base, k := PageOf(w.addr), w.addr % PAGE_SIZE;
    PageOfFacts(w.addr);
    SamePage(a, w.addr);
    OnePageMore(pages, base, k, w.byte, a);
  }

  lemma OnePageMore(pages: seq<WholePage>, base: nat, k: nat, b: Byte, a: nat)
    requires k < PAGE_SIZE
    ensures OrZero(ImageAt(pages + [Page(base, Zeros(PAGE_SIZE)[k := b])], a))
         == if a == base + k then b else if base <= a < base + PAGE_SIZE then 0 else OrZero(ImageAt(pages, a))
  {
    var all := pages + [Page(base, Zeros(PAGE_SIZE)[k := b])];
    assert all[..|all| - 1] == pages;
  }

  lemma SamePageImage(pages: seq<WholePage>, w: Write, a: nat)
    requires pages != [] && pages[|pages| - 1].addr == PageOf(w.addr)
    ensures OrZero(ImageAt(Store(pages, w), a)) == if a == w.addr then w.byte else OrZero(ImageAt(pages, a))
  {
    var all := Store(pages, w);
    PageOfFacts(w.addr);
    assert all[..|all| - 1] == pages[..|pages| - 1];
    assert |all| == |pages|;
  }

  /** The memory that these writes make, from the first page visited to the last. */
  ghost predicate IsMemory(d: Decoder, writes: seq<Write>)
    requires writes != []
  {
    && d.start == PageOf(writes[0].addr)
    && d.curr == PageOf(writes[|writes| - 1].addr) + PAGE_SIZE
    && |d.outp| == d.curr - d.start
    && (forall a: nat {:trigger LastWrite(writes, a)} :: d.start <= a < d.curr ==>
          d.outp[a - d.start] == OrZero(LastWrite(writes, a)))
    && (forall a: nat {:trigger LastWrite(writes, a)} :: LastWrite(writes, a).Some? ==> d.start <= a && a < d.curr)
  }

  lemma {:induction false} FirstPage(writes: seq<Write>)
    requires writes != []
    ensures BuildPages(writes) != [] && BuildPages(writes)[0].addr == PageOf(writes[0].addr)
  {
    LastPage(writes);
    if |writes| > 1 {
      FirstPage(writes[..|writes| - 1]);
    }
  }

  lemma {:induction false} NothingBefore(writes: seq<Write>, a: nat)
    requires InPageOrder(writes) && writes != []
    ensures PageOf(writes[0].addr) <= PageOf(writes[|writes| - 1].addr)
    ensures a < PageOf(writes[0].addr) ==> LastWrite(writes, a) == None
  {
    var n := |writes|;
    PageOfFacts(writes[n - 1].addr);
    if n > 1 {
      NothingBefore(writes[..n - 1], a);
    } else {
      assert LastWrite(writes[..0], a) == None;
    }
  }

  /** Converting HEX to UF2 and decoding it succeeds exactly when the records visit their pages in order with gaps of
      at most 10 MiB, and then gives the memory the records write. */
  lemma HexImage(writes: seq<Write>, familyid: int)
    requires writes != [] && Container(BuildPages(writes), familyid).Ok?
    ensures var d := Decode(Split(Container(BuildPages(writes), familyid).value));
            (d.Ok? <==> InPageOrder(writes)) && (d.Ok? ==> d.value.Some? && IsMemory(d.value.value, writes))
  {
    var pages := BuildPages(writes);
    ContainerImage(pages, familyid);
    OrderCarriesOver(writes);
    LastPage(writes);
    FirstPage(writes);
    if InPageOrder(writes) {
      forall a: nat
        ensures OrZero(ImageAt(pages, a)) == OrZero(LastWrite(writes, a))
        ensures LastWrite(writes, a).Some? ==>
                  PageOf(writes[0].addr) <= a && a < PageOf(writes[|writes| - 1].addr) + PAGE_SIZE
      {
        PagesHoldWrites(writes, a);
        NothingBefore(writes, a);
        if a >= PageOf(writes[|writes| - 1].addr) + PAGE_SIZE { NothingBeyond(writes, a); }
      }
    }
  }

  /** So does converting a whole text and decoding the result. */
  lemma HexTextImage(buf: string, familyid: int)
    requires HexToUf2(buf, familyid).Ok? && ReadLines(SplitLines(buf)).writes != []
    ensures var writes := ReadLines(SplitLines(buf)).writes;
            var d := Decode(Split(HexToUf2(buf, familyid).value));
            (d.Ok? <==> InPageOrder(writes)) && (d.Ok? ==> d.value.Some? && IsMemory(d.value.value, writes))
  {
    HexImage(ReadLines(SplitLines(buf)).writes, familyid);
  }

  ghost predicate Reachable(writes: seq<Write>) { forall w :: w in writes ==> w.addr < TWO_TO_THE_32 }

  lemma {:induction false} PagesAddressable(writes: seq<Write>)
    ensures Addressable(BuildPages(writes)) <==> Reachable(writes)
  {
    var n := |writes|;
    if n > 0 {
      var front, w := writes[..n - 1], writes[n - 1];
      PagesAddressable(front);
      LastPage(front);
      assert writes == front + [w];
      if n > 1 { PageOfFacts(writes[n - 2].addr); }
      StoreAddressable(BuildPages(front), w, if n > 1 then writes[n - 2].addr else 0);
      assert n > 1 ==> writes[n - 2] in front;
    }
  }

  lemma StoreAddressable(pages: seq<WholePage>, w: Write, last: nat)
    requires pages != [] ==> pages[|pages| - 1].addr == PageOf(last)
    ensures Addressable(Store(pages, w)) <==> Addressable(pages) && w.addr < TWO_TO_THE_32
  {
    var all, n := Store(pages, w), |pages|;
    InAddressSpace(w.addr);
    PageOfFacts(last);
    if n > 0 && PageOf(last) == PageOf(w.addr) {
      assert pages == pages[..n - 1] + [pages[n - 1]] && all == pages[..n - 1] + [all[n - 1]];
      assert all[n - 1].addr == pages[n - 1].addr;
    } else {
      assert all == pages + [all[n]];
    }
  }

  lemma InAddressSpace(a: nat)
    ensures PageOf(a) < TWO_TO_THE_32 <==> a < TWO_TO_THE_32
  {}

  /** The conversion to UF2 fails exactly if some byte, the number of blocks, or the family is out of 32-bit reach. */
  lemma HexEncodes(writes: seq<Write>, familyid: int)
    ensures Container(BuildPages(writes), familyid).Ok?
       <==> writes == [] || (Reachable(writes) && |BuildPages(writes)| < TWO_TO_THE_32
                             && 0 <= familyid < TWO_TO_THE_32)
  {
    PagesAddressable(writes);
    LastPage(writes);
    EncodeOkIff(BuildPages(writes), |BuildPages(writes)|, familyid);
  }

  // ---- Text and records ----

  function DigitChar(d: nat): char
    requires d < 16
  {
    if d < 10 then '0' + d as char else 'A' + (d - 10) as char
  }

  /** A record as text: a colon, then two digits a byte. */
  function RecordText(rec: seq<Byte>): string { ":" + Digits(rec) }

  function Digits(rec: seq<Byte>): string {
    if rec == [] then [] else [DigitChar(rec[0] / 16), DigitChar(rec[0] % 16)] + Digits(rec[1..])
  }

  lemma {:induction false} PairsOfDigits(front: string, rec: seq<Byte>, end: string)
    requires |end| <= 1
    ensures Pairs(front + Digits(rec) + end, |front|) == Ok(rec)
    decreases |rec|
  {
    var line := front + Digits(rec) + end;
    if rec != [] {
      var pair := [DigitChar(rec[0] / 16), DigitChar(rec[0] % 16)];
      assert line[|front|] == pair[0] && line[|front| + 1] == pair[1];
      assert HexPair(pair[0], pair[1]) == Ok(rec[0]);
      PairsOfDigits(front + pair, rec[1..], end);
      assert front + pair + Digits(rec[1..]) + end == line;
      assert [rec[0]] + rec[1..] == rec;
    }
  }

  /** A record written as text is read back, whether or not a carriage return ends its line. */
  lemma RecordRoundTrip(rec: seq<Byte>)
    ensures Pairs(RecordText(rec), 1) == Ok(rec)
    ensures Pairs(RecordText(rec) + "\r", 1) == Ok(rec)
  {
    PairsOfDigits(":", rec, "");
    PairsOfDigits(":", rec, "\r");
    assert ":" + Digits(rec) + "" == RecordText(rec);
  }
}
