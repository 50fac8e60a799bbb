/** The file-transfer adapter: one packet at a time, in either role. */
module XModem {
  import opened Bytes
  import opened Crc16

  const BUFFER_SIZE := 128
  const MAX_RETRANS := 25

  datatype Control = NUL | SOH | STX | EOT | ACK | NAK | CAN | CTRLZ

  type Buffer = b: seq<Byte> | |b| <= BUFFER_SIZE
  type Sequence = n: int | 0 <= n < 0x10000

  datatype Packet = Packet(control: Control, seqno: Sequence, crc16: Word, buffer: Buffer)

  const INIT_ZERO := Packet(NUL, 0, ZERO, [])

  /** A file handle: closed, open for reading at a position, or open for writing at the end of the named file. */
  datatype File = Closed | Reading(contents: seq<Byte>, pos: nat) | Writing(name: seq<Byte>)

  type Flash = map<seq<Byte>, seq<Byte>>

  /** The fields of the adapter, and the files it works on. */
  datatype State = State(
    isReceiving: bool,
    isTransmitting: bool,
    isEOT: bool,
    retrans: int,
    packetno: Sequence,
    filename: seq<Byte>,
    store: Packet,
    file: File,
    flash: Flash)

  /** What one call leaves behind, and whether it announced a packet (which is then `next.store`). */
  datatype Outcome = Outcome(next: State, notified: bool) {
    /** The call announced the control packet c. */
    predicate Sent(c: Control) { notified && next.store.control == c }
  }

  /** memcpy of a packet's payload over the start of the fixed array. */
  function CopyName(filename: seq<Byte>, payload: seq<Byte>): seq<Byte> {
    payload + filename[Min(|payload|, |filename|)..]
  }

  /** The string in a C array: what stands before its first zero byte. */
  function CString(a: seq<Byte>): seq<Byte> {
    if a == [] || a[0] == 0 then [] else [a[0]] + CString(a[1..])
  }

  function ReadBuffer(f: File): (Buffer, File) {
    if f.Reading? then
      var start := Min(f.pos, |f.contents|);
      var end := Min(f.pos + BUFFER_SIZE, |f.contents|);
      (f.contents[start..end], f.(pos := end))
    else
      ([], f)
  }

  /** Moving outside the file fails and leaves the position alone. */
  function Seek(f: File, pos: int): File {
    if f.Reading? && 0 <= pos <= |f.contents| then f.(pos := pos) else f
  }

  function Append(flash: Flash, f: File, data: seq<Byte>): Flash {
    if f.Writing? && f.name in flash then flash[f.name := flash[f.name] + data] else flash
  }

  function SendControl(s: State, c: Control): Outcome {
    Outcome(s.(store := INIT_ZERO.(control := c)), true)
  }

  /** Reads the next buffer and announces it as packet `packetno`; a short one is the last. */
  function SendChunk(s: State): Outcome {
    var (data, file) := ReadBuffer(s.file);
    Outcome(s.(store := Packet(SOH, s.packetno, Crc(data), data),
               file := file,
               isEOT := s.isEOT || |data| < BUFFER_SIZE),
            true)
  }

  function OpenFile(s: State, p: Packet, canOpen: bool): Outcome {
    var s := s.(filename := CopyName(s.filename, p.buffer));
    var name := CString(s.filename);
    if p.control == SOH then
      if canOpen then
        var o := SendControl(s.(file := Writing(name), flash := s.flash[name := []]), ACK);
        o.(next := o.next.(isReceiving := true, packetno := 1))
      else
        var o := SendControl(s.(file := Closed), NAK);
        o.(next := o.next.(isReceiving := false))
    else if canOpen && name in s.flash then
      SendChunk(s.(file := Reading(s.flash[name], 0), packetno := 1, isTransmitting := true))
    else
      var o := SendControl(s.(file := Closed), NAK);
      o.(next := o.next.(isTransmitting := false))
  }

  function ReceiveData(s: State, p: Packet): Outcome {
    if p.seqno == s.packetno && Crc(p.buffer) == p.crc16 then
      var o := SendControl(s.(flash := Append(s.flash, s.file, p.buffer)), ACK);
      o.(next := o.next.(packetno := (s.packetno + 1) % 0x10000))
    else
      SendControl(s, NAK)
  }

  function EndFile(s: State, flash: Flash): Outcome {
    var o := SendControl(s, ACK);
    o.(next := o.next.(file := Closed, flash := flash, isReceiving := false))
  }

  function NextChunk(s: State): Outcome {
    if s.isEOT then
      var o := SendControl(s, EOT);
      o.(next := o.next.(file := Closed, isTransmitting := false, isEOT := false))
    else
      SendChunk(s.(retrans := MAX_RETRANS, packetno := (s.packetno + 1) % 0x10000))
  }

  function SameChunk(s: State): Outcome {
    var s := s.(retrans := s.retrans - 1);
    if s.retrans <= 0 then
      var o := SendControl(s, CAN);
      o.(next := o.next.(file := Closed, isTransmitting := false))
    else
      SendChunk(s.(file := Seek(s.file, (s.packetno - 1) * BUFFER_SIZE)))
  }

  /** One call of handlePacket; `canOpen` is the file system's answer, should it be asked to open a file. */
  function Handle(s: State, p: Packet, canOpen: bool): Outcome {
    match p.control
    case SOH | STX =>
      if p.seqno == 0 && !s.isReceiving && !s.isTransmitting then
        OpenFile(s, p, canOpen)
      else if s.isReceiving then
        ReceiveData(s, p)
      else if s.isTransmitting then
        var o := SendControl(s, CAN);
        o.(next := o.next.(isTransmitting := false))
      else
        Outcome(s, false)
    case EOT =>
      EndFile(s, s.flash)
    case CAN =>
      EndFile(s, s.flash - {CString(s.filename)})
    case ACK =>
      if s.isTransmitting then NextChunk(s) else SendControl(s, CAN)
    case NAK =>
      if s.isTransmitting then SameChunk(s) else SendControl(s, CAN)
    case _ =>
      Outcome(s, false)
  }

  /** The adapter as it is: an object whose fields each call updates. */
  class XModemAdapter {
    var isReceiving: bool
    var isTransmitting: bool
    var isEOT: bool
    var retrans: int
    var packetno: Sequence
    var filename: seq<Byte>
    var xmodemStore: Packet
    var file: File
    var flash: Flash

    ghost function Fields(): State
      reads this
    {
      State(isReceiving, isTransmitting, isEOT, retrans, packetno, filename, xmodemStore, file, flash)
    }

    constructor (files: Flash)
      ensures Fields() == PowerOn(files)
    {
      isReceiving, isTransmitting, isEOT := false, false, false;
      retrans, packetno := MAX_RETRANS, 0;
      filename := seq(BUFFER_SIZE, i => 0);
      xmodemStore := INIT_ZERO;
      file, flash := Closed, files;
    }

    method Send(c: Control)
      modifies this`xmodemStore
      ensures Fields() == SendControl(old(Fields()), c).next
    {
      xmodemStore := INIT_ZERO;
      xmodemStore := xmodemStore.(control := c);
    }

    method SendNextBuffer()
      modifies this`xmodemStore, this`file, this`isEOT
      ensures Fields() == SendChunk(old(Fields())).next
    {
      xmodemStore := INIT_ZERO;
      xmodemStore := xmodemStore.(control := SOH, seqno := packetno);
      var (data, rest) := ReadBuffer(file);
      file := rest;
      var crc := Crc16Ccitt(data);
      xmodemStore := xmodemStore.(buffer := data, crc16 := crc);
      if |xmodemStore.buffer| < BUFFER_SIZE {
        isEOT := true;
      }
    }

    method Open(p: Packet, canOpen: bool)
      modifies this
      ensures Outcome(Fields(), true) == OpenFile(old(Fields()), p, canOpen)
    {
      filename := CopyName(filename, p.buffer);
      var name := CString(filename);
      if p.control == SOH {
        if canOpen {
          file, flash := Writing(name), flash[name := []];
          Send(ACK);
          isReceiving := true;
          packetno := 1;
        } else {
          file := Closed;
          Send(NAK);
          isReceiving := false;
        }
      } else if canOpen && name in flash {
        file := Reading(flash[name], 0);
        packetno := 1;
        isTransmitting := true;
        SendNextBuffer();
      } else {
        file := Closed;
        Send(NAK);
        isTransmitting := false;
      }
    }

    method Receive(p: Packet)
      modifies this`flash, this`xmodemStore, this`packetno
      ensures Outcome(Fields(), true) == ReceiveData(old(Fields()), p)
    {
      var valid := false;
      if p.seqno == packetno {
        valid := Check(p.buffer, p.crc16);
      }
      if valid {
        flash := Append(flash, file, p.buffer);
        Send(ACK);
        packetno := (packetno + 1) % 0x10000;
      } else {
        Send(NAK);
      }
    }

    method Acknowledged()
      modifies this
      ensures Outcome(Fields(), true) == NextChunk(old(Fields()))
    {
      if isEOT {
        Send(EOT);
        file := Closed;
        isTransmitting := false;
        isEOT := false;
      } else {
        retrans := MAX_RETRANS;
        packetno := (packetno + 1) % 0x10000;
        SendNextBuffer();
      }
    }

    method NotAcknowledged()
      modifies this
      ensures Outcome(Fields(), true) == SameChunk(old(Fields()))
    {
      retrans := retrans - 1;
      if retrans <= 0 {
        Send(CAN);
        file := Closed;
        isTransmitting := false;
      } else {
        file := Seek(file, (packetno - 1) * BUFFER_SIZE);
        SendNextBuffer();
      }
    }

    method HandlePacket(p: Packet, canOpen: bool) returns (notified: bool)
      modifies this
      ensures Outcome(Fields(), notified) == Handle(old(Fields()), p, canOpen)
    {
      notified := true;
      match p.control {
        case SOH | STX =>
          if p.seqno == 0 && !isReceiving && !isTransmitting {
            Open(p, canOpen);
          } else if isReceiving {
            Receive(p);
          } else if isTransmitting {
            Send(CAN);
            isTransmitting := false;
          } else {
            notified := false;
          }
        case EOT =>
          Send(ACK);
          file := Closed;
          isReceiving := false;
        case CAN =>
          Send(ACK);
          file := Closed;
          flash := flash - {CString(filename)};
          isReceiving := false;
        case ACK =>
          if isTransmitting {
            Acknowledged();
          } else {
            Send(CAN);
          }
        case NAK =>
          if isTransmitting {
            NotAcknowledged();
          } else {
            Send(CAN);
          }
        case _ =>
          notified := false;
      }
    }
  }

  function PowerOn(files: Flash): State {
    State(false, false, false, MAX_RETRANS, 0, seq(BUFFER_SIZE, i => 0), INIT_ZERO, Closed, files)
  }

  // ---- Chunks ----

  /** The number of packets a file takes: the last one is always short, and empty after a whole number of buffers. */
  function PacketCount(contents: seq<Byte>): nat { |contents| / BUFFER_SIZE + 1 }

  /** Packets are numbered from 1. */
  function Chunk(contents: seq<Byte>, k: nat): Buffer
    requires k >= 1
  {
    contents[Min((k - 1) * BUFFER_SIZE, |contents|)..Min(k * BUFFER_SIZE, |contents|)]
  }

  function DataPacket(contents: seq<Byte>, k: Sequence): Packet
    requires k >= 1
  {
    Packet(SOH, k, Crc(Chunk(contents, k)), Chunk(contents, k))
  }

  /** The bytes the first k packets carry. */
  function FirstChunks(contents: seq<Byte>, k: nat): seq<Byte> { contents[..Min(k * BUFFER_SIZE, |contents|)] }

  lemma ChunksMeet(contents: seq<Byte>, k: nat)
    requires k >= 1
    ensures FirstChunks(contents, k) == FirstChunks(contents, k - 1) + Chunk(contents, k)
    ensures |Chunk(contents, k)| < BUFFER_SIZE <==> k >= PacketCount(contents)
    ensures FirstChunks(contents, k) == contents <==> k * BUFFER_SIZE >= |contents|
    ensures k >= PacketCount(contents) ==> FirstChunks(contents, k) == contents
  {}

  // ---- What every call keeps ----

  ghost predicate Transmitting(s: State, contents: seq<Byte>) {
    && s.isTransmitting && !s.isReceiving
    && s.file == Reading(contents, Min(s.packetno * BUFFER_SIZE, |contents|))
    && 1 <= s.packetno <= PacketCount(contents) < 0x10000
    && (s.packetno == PacketCount(contents) ==> s.isEOT)
  }

  /** Holds of every reachable state. A session goes on without its file once a CAN or EOT from outside closed it. */
  ghost predicate Inv(s: State) {
    && (s.isReceiving ==> !s.isTransmitting && s.file.Writing? && s.file.name in s.flash)
    && (s.isTransmitting ==>
          !s.isReceiving && (s.file.Closed? || (s.file.Reading? && Transmitting(s, s.file.contents))))
  }

  /** No file takes more packets than the sequence number can tell apart. */
  ghost predicate Countable(s: State) {
    forall name :: name in s.flash ==> PacketCount(s.flash[name]) < 0x10000
  }

  /** Reading at the start of chunk k yields chunk k. */
  lemma SendChunkSends(s: State)
    requires s.isTransmitting && !s.isReceiving && s.file.Reading?
    requires 1 <= s.packetno <= PacketCount(s.file.contents) < 0x10000
    requires s.file.pos == Min((s.packetno - 1) * BUFFER_SIZE, |s.file.contents|)
    ensures var o := SendChunk(s);
            && o.notified && o.next.store == DataPacket(s.file.contents, s.packetno)
            && Transmitting(o.next, s.file.contents)
            && o.next == s.(store := o.next.store, file := o.next.file, isEOT := o.next.isEOT)
            && (o.next.isEOT <==> s.isEOT || s.packetno == PacketCount(s.file.contents))
  {
    ChunksMeet(s.file.contents, s.packetno);
    ChunkPosition(s.file.contents, s.packetno);
  }

  lemma ChunkPosition(contents: seq<Byte>, k: nat)
    requires k >= 1
    ensures Min(Min((k - 1) * BUFFER_SIZE, |contents|) + BUFFER_SIZE, |contents|) == Min(k * BUFFER_SIZE, |contents|)
  {}

  /** The packets that close the file of a session from outside. */
  predicate ClosesFile(p: Packet) { p.control == EOT || p.control == CAN }

  /** After the call the invariant holds; a data packet it announced, first time or again, is the chunk of the open
      file that its number names, or empty if the file is closed; a session begins with the file it was asked for, and
      goes on with it exactly until a packet from outside closes it. */
  ghost predicate Faithful(s: State, p: Packet, o: Outcome) {
    && Inv(o.next)
    && (o.Sent(SOH) ==>
          o.next.isTransmitting && o.next.store.seqno == o.next.packetno
          && if o.next.file.Reading? then o.next.store == DataPacket(o.next.file.contents, o.next.packetno)
             else o.next.store.buffer == [])
    && (o.next.isTransmitting && !s.isTransmitting ==>
          && o.next.file.Reading? && CString(o.next.filename) in s.flash
          && o.next.file.contents == s.flash[CString(o.next.filename)])
    && (o.next.isTransmitting && s.isTransmitting ==>
          && (o.next.file.Reading? <==> s.file.Reading? && !ClosesFile(p))
          && (o.next.file.Reading? ==> o.next.file.contents == s.file.contents))
  }

  /** An acknowledged packet is followed by the next one. */
  lemma NextChunkSends(s: State, contents: seq<Byte>)
    requires Transmitting(s, contents) && !s.isEOT
    ensures var o := NextChunk(s);
            && o.notified && Transmitting(o.next, contents)
            && o.next.packetno == s.packetno + 1 && o.next.retrans == MAX_RETRANS
            && o.next.store == DataPacket(contents, s.packetno + 1)
            && (o.next.isEOT <==> o.next.packetno == PacketCount(contents))
            && o.next.filename == s.filename && o.next.flash == s.flash
  {
    assert (s.packetno + 1) % 0x10000 == s.packetno + 1;
    var t := s.(retrans := MAX_RETRANS, packetno := s.packetno + 1);
    assert NextChunk(s) == SendChunk(t);
    SendChunkSends(t);
  }

  /** A refused packet is read again from its place in the file. */
  lemma SameChunkSends(s: State, contents: seq<Byte>)
    requires Transmitting(s, contents) && s.retrans > 1
    ensures var o := SameChunk(s);
            && o.notified && Transmitting(o.next, contents)
            && o.next.packetno == s.packetno && o.next.retrans == s.retrans - 1
            && o.next.store == DataPacket(contents, s.packetno)
            && (o.next.isEOT <==> s.isEOT)
  {
    BeforeEnd(contents, s.packetno);
    var t := s.(retrans := s.retrans - 1, file := Reading(contents, (s.packetno - 1) * BUFFER_SIZE));
    assert SameChunk(s) == SendChunk(t);
    SendChunkSends(t);
  }

  /** A closed file reads as empty. */
  lemma SendChunkClosed(s: State)
    requires s.file.Closed?
    ensures SendChunk(s) == Outcome(s.(store := Packet(SOH, s.packetno, Crc([]), []), isEOT := true), true)
  {}

  lemma NextChunkClosed(s: State)
    requires s.file.Closed? && !s.isEOT
    ensures var k := (s.packetno + 1) % 0x10000;
            NextChunk(s) == Outcome(s.(retrans := MAX_RETRANS, packetno := k, isEOT := true,
                                       store := Packet(SOH, k, Crc([]), [])), true)
  {
    SendChunkClosed(s.(retrans := MAX_RETRANS, packetno := (s.packetno + 1) % 0x10000));
  }

  lemma NextChunkFaithful(s: State, p: Packet)
    requires Inv(s) && s.isTransmitting && p.control == ACK
    ensures Faithful(s, p, NextChunk(s))
  {
    if s.isEOT {
    } else if s.file.Reading? {
      NextChunkSends(s, s.file.contents);
    } else {
      NextChunkClosed(s);
    }
  }

  lemma SameChunkFaithful(s: State, p: Packet)
    requires Inv(s) && s.isTransmitting && p.control == NAK
    ensures Faithful(s, p, SameChunk(s))
  {
    if s.retrans > 1 && s.file.Reading? { SameChunkSends(s, s.file.contents); }
  }

  lemma OpenFileFaithful(s: State, p: Packet, canOpen: bool)
    requires !s.isTransmitting && !s.isReceiving && Countable(s)
    ensures Faithful(s, p, OpenFile(s, p, canOpen))
  {
    var filename := CopyName(s.filename, p.buffer);
    var name := CString(filename);
    if p.control != SOH && canOpen && name in s.flash {
      SendChunkSends(s.(filename := filename, file := Reading(s.flash[name], 0), packetno := 1,
                        isTransmitting := true));
    }
  }

  /** Whatever packet comes, in whatever state. */
  lemma HandleFaithful(s: State, p: Packet, canOpen: bool)
    requires Inv(s) && Countable(s)
    ensures Faithful(s, p, Handle(s, p, canOpen))
  {
    if s.isTransmitting && p.control.ACK? {
      NextChunkFaithful(s, p);
    } else if s.isTransmitting && p.control.NAK? {
      SameChunkFaithful(s, p);
    } else if (p.control.SOH? || p.control.STX?) && p.seqno == 0 && !s.isReceiving && !s.isTransmitting {
      OpenFileFaithful(s, p, canOpen);
    }
  }

  lemma BeforeEnd(contents: seq<Byte>, k: nat)
    requires 1 <= k <= PacketCount(contents)
    ensures (k - 1) * BUFFER_SIZE <= |contents|
  {}

  // ---- Whole runs ----

  datatype Input = Input(packet: Packet, canOpen: bool)

  function Run(s: State, inputs: seq<Input>): State {
    if inputs == [] then s
    else Handle(Run(s, inputs[..|inputs| - 1]), inputs[|inputs| - 1].packet, inputs[|inputs| - 1].canOpen).next
  }

  ghost predicate CountableRun(s: State, inputs: seq<Input>) {
    forall i :: 0 <= i < |inputs| ==> Countable(Run(s, inputs[..i]))
  }

  /** From power-on, over any inputs at all: the i-th call is faithful. */
  lemma {:induction false} RunFaithful(files: Flash, inputs: seq<Input>, i: nat)
    requires CountableRun(PowerOn(files), inputs) && i < |inputs|
    ensures var s := Run(PowerOn(files), inputs[..i]);
            Inv(s) && Faithful(s, inputs[i].packet, Handle(s, inputs[i].packet, inputs[i].canOpen))
  {
    var s := Run(PowerOn(files), inputs[..i]);
    if i > 0 {
      RunFaithful(files, inputs, i - 1);
      assert inputs[..i][..i - 1] == inputs[..i - 1];
    }
    HandleFaithful(s, inputs[i].packet, inputs[i].canOpen);
  }

  // ---- One session ----

  /** The session never ends over these inputs. */
  ghost predicate StaysOn(s: State, inputs: seq<Input>) {
    forall i :: 0 <= i <= |inputs| ==> Run(s, inputs[..i]).isTransmitting
  }

  ghost predicate Undisturbed(inputs: seq<Input>) {
    forall i :: 0 <= i < |inputs| ==> !ClosesFile(inputs[i].packet)
  }

  /** A session that sends these contents, with its file open or closed. */
  ghost predicate OnSession(s: State, contents: seq<Byte>, open: bool) {
    if open then Transmitting(s, contents)
    else
      && s.isTransmitting && !s.isReceiving && s.file.Closed?
      && 1 <= s.packetno <= PacketCount(contents) < 0x10000
      && (s.packetno == PacketCount(contents) ==> s.isEOT)
  }

  /** A data packet carries its chunk, or nothing. */
  ghost predicate CarriesChunk(o: Outcome, contents: seq<Byte>, open: bool) {
    && o.next.store.seqno == o.next.packetno && 1 <= o.next.packetno <= PacketCount(contents)
    && o.next.store == if open then DataPacket(contents, o.next.packetno)
                       else Packet(SOH, o.next.packetno, Crc([]), [])
  }

  /** A call goes on with a session, or ends it. */
  ghost predicate GoesOn(o: Outcome, contents: seq<Byte>, open: bool, p: Packet) {
    && (o.next.isTransmitting ==> OnSession(o.next, contents, open && !ClosesFile(p)))
    && (o.Sent(SOH) ==> !ClosesFile(p) && CarriesChunk(o, contents, open))
  }

  lemma AckGoesOn(s: State, contents: seq<Byte>, open: bool, p: Packet)
    requires OnSession(s, contents, open) && p.control == ACK
    ensures GoesOn(NextChunk(s), contents, open, p)
  {
    if s.isEOT {
    } else if open {
      OpenAckGoesOn(s, contents, p);
    } else {
      NextChunkClosed(s);
    }
  }

  lemma OpenAckGoesOn(s: State, contents: seq<Byte>, p: Packet)
    requires Transmitting(s, contents) && p.control == ACK && !s.isEOT
    ensures GoesOn(NextChunk(s), contents, true, p)
  {
    NextChunkSends(s, contents);
  }

  lemma NakGoesOn(s: State, contents: seq<Byte>, open: bool, p: Packet)
    requires OnSession(s, contents, open) && p.control == NAK
    ensures GoesOn(SameChunk(s), contents, open, p)
  {
    if open && s.retrans > 1 {
      SameChunkSends(s, contents);
    }
  }

  lemma SessionStep(s: State, contents: seq<Byte>, open: bool, p: Packet, canOpen: bool)
    requires OnSession(s, contents, open)
    ensures GoesOn(Handle(s, p, canOpen), contents, open, p)
  {
    if p.control == ACK {
      AckGoesOn(s, contents, open, p);
    } else if p.control == NAK {
      NakGoesOn(s, contents, open, p);
    }
  }

  /** As long as a session lasts, its file is open, with the contents it was opened with, exactly while no CAN or EOT
      came from outside. */
  lemma {:induction false} SessionFileOpenIff(s: State, contents: seq<Byte>, inputs: seq<Input>)
    requires Transmitting(s, contents) && StaysOn(s, inputs)
    ensures OnSession(Run(s, inputs), contents, Undisturbed(inputs))
    ensures Run(s, inputs).file.Reading? <==> Undisturbed(inputs)
    ensures Undisturbed(inputs) ==> Run(s, inputs).file.contents == contents
  {
    if inputs != [] {
      var n := |inputs| - 1;
      var front, last := inputs[..n], inputs[n];
      forall i | 0 <= i <= n ensures Run(s, front[..i]).isTransmitting {
        assert front[..i] == inputs[..i];
      }
      SessionFileOpenIff(s, contents, front);
      SessionStep(Run(s, front), contents, Undisturbed(front), last.packet, last.canOpen);
      assert inputs[..|inputs|] == inputs && inputs == front + [last];
      assert Undisturbed(inputs) <==> Undisturbed(front) && !ClosesFile(last.packet);
    }
  }

  /** A data packet of a session carries the chunk its number names exactly while no CAN or EOT came from outside, or
      when that chunk is empty. */
  lemma SessionPacketIff(s: State, contents: seq<Byte>, inputs: seq<Input>, next: Input)
    requires Transmitting(s, contents) && StaysOn(s, inputs)
    requires Handle(Run(s, inputs), next.packet, next.canOpen).Sent(SOH)
    ensures var t := Handle(Run(s, inputs), next.packet, next.canOpen).next;
            && 1 <= t.packetno <= PacketCount(contents) && t.store.seqno == t.packetno
            && (t.store == DataPacket(contents, t.packetno)
                <==> Undisturbed(inputs) || Chunk(contents, t.packetno) == [])
  {
    SessionFileOpenIff(s, contents, inputs);
    SessionStep(Run(s, inputs), contents, Undisturbed(inputs), next.packet, next.canOpen);
  }
}
