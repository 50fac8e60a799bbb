/** Sending a file to the phone: how long a session lasts, and what the phone has when it ends. */
module XModemTransmit {
  import opened Bytes
  import opened Crc16
  import opened Crc16Damage
  import opened XModem

  /** A session that has just announced its first packet, begun with the end flag down. */
  ghost predicate Begun(s: State, contents: seq<Byte>) {
    && Transmitting(s, contents)
    && s.packetno == 1 && s.store == DataPacket(contents, 1)
    && (s.isEOT <==> PacketCount(contents) == 1)
  }

  /** And with the whole retransmission budget, as a fresh adapter has it. */
  ghost predicate FreshSession(s: State, contents: seq<Byte>) {
    Begun(s, contents) && s.retrans == MAX_RETRANS
  }

  /** Opening an existing file on an idle adapter begins one, unless an aborted session left its flags behind. */
  lemma OpenBeginsSession(s: State, p: Packet)
    requires p.control == STX && p.seqno == 0 && !s.isReceiving && !s.isTransmitting
    requires CString(CopyName(s.filename, p.buffer)) in s.flash
    requires PacketCount(s.flash[CString(CopyName(s.filename, p.buffer))]) < 0x10000
    ensures var contents := s.flash[CString(CopyName(s.filename, p.buffer))];
            var t := Handle(s, p, true).next;
            && Transmitting(t, contents)
            && (FreshSession(t, contents)
                <==> s.retrans == MAX_RETRANS && (!s.isEOT || PacketCount(contents) == 1))
            && (StaleSession(t, contents) <==> s.isEOT || PacketCount(contents) == 1)
            && t.retrans == s.retrans && t.filename == CopyName(s.filename, p.buffer) && t.flash == s.flash
  {
    var filename := CopyName(s.filename, p.buffer);
    SendChunkSends(s.(filename := filename, file := Reading(s.flash[CString(filename)], 0), packetno := 1,
                      isTransmitting := true));
  }

  // ---- Termination ----

  function Reply(s: State, ack: bool): Outcome
    requires s.isTransmitting
  {
    if ack then NextChunk(s) else SameChunk(s)
  }

  /** Packets still to be acknowledged, then resends left: at most 25 replies a packet. */
  function Measure(s: State): int
    requires s.file.Reading?
  {
    MAX_RETRANS * (PacketCount(s.file.contents) - s.packetno) + s.retrans
  }

  ghost predicate Live(s: State, contents: seq<Byte>) {
    Transmitting(s, contents) && 1 <= s.retrans <= MAX_RETRANS
  }

  /** Each reply brings the end closer or is the end, and the end is announced. */
  lemma ReplyDecreases(s: State, ack: bool, contents: seq<Byte>)
    requires Live(s, contents)
    ensures var o := Reply(s, ack);
            if o.next.isTransmitting then Live(o.next, contents) && Measure(o.next) < Measure(s)
            else o.Sent(EOT) || o.Sent(CAN)
  {
    if ack {
      if !s.isEOT { NextChunkSends(s, contents); }
    } else if s.retrans > 1 {
      SameChunkSends(s, contents);
    }
  }

  /** The number of replies the session takes in before it ends. */
  function RepliesTaken(s: State, replies: seq<bool>): nat
    decreases |replies|
  {
    if replies == [] || !s.isTransmitting then 0 else 1 + RepliesTaken(Reply(s, replies[0]).next, replies[1..])
  }

  lemma {:induction false} RepliesBounded(s: State, replies: seq<bool>, contents: seq<Byte>)
    requires Live(s, contents)
    ensures RepliesTaken(s, replies) <= Measure(s)
    decreases |replies|
  {
    if replies != [] {
      ReplyDecreases(s, replies[0], contents);
      var t := Reply(s, replies[0]).next;
      if t.isTransmitting { RepliesBounded(t, replies[1..], contents); }
    }
  }

  /** Whatever the phone replies, and however much of the budget a session begins with: it is over after 25 replies for
      each packet still to come and one for each retransmission left, or one if none is. A fresh one is over after 25
      replies a packet. */
  lemma SessionEnds(s: State, replies: seq<bool>, contents: seq<Byte>)
    requires Transmitting(s, contents) && s.retrans <= MAX_RETRANS
    ensures RepliesTaken(s, replies)
         <= MAX_RETRANS * (PacketCount(contents) - s.packetno) + if s.retrans >= 1 then s.retrans else 1
    ensures FreshSession(s, contents) ==> RepliesTaken(s, replies) <= MAX_RETRANS * PacketCount(contents)
  {
    if s.retrans >= 1 {
      RepliesBounded(s, replies, contents);
    } else if replies != [] {
      var t := Reply(s, replies[0]).next;
      if replies[0] && !s.isEOT {
        NextChunkSends(s, contents);
        RepliesBounded(t, replies[1..], contents);
      } else {
        NakCancelsIff(s, contents);
        assert RepliesTaken(t, replies[1..]) == 0;
      }
    }
  }

  /** The bound is reached: refuse every packet as often as possible before taking it. */
  lemma {:induction false} BoundReached(s: State, contents: seq<Byte>) returns (replies: seq<bool>)
    requires Live(s, contents) && (s.isEOT <==> s.packetno == PacketCount(contents))
    ensures RepliesTaken(s, replies) == |replies| == Measure(s)
    decreases PacketCount(contents) - s.packetno, s.retrans
  {
    var ack := s.retrans == 1;
    if ack && s.isEOT {
      replies := [true];
      assert RepliesTaken(NextChunk(s).next, []) == 0;
    } else {
      ReplyDecreases(s, ack, contents);
      if ack { NextChunkSends(s, contents); } else { SameChunkSends(s, contents); }
      var rest := BoundReached(Reply(s, ack).next, contents);
      replies := [ack] + rest;
      assert replies[1..] == rest;
    }
  }

  // ---- A phone behind a bad channel ----

  /** The phone takes packets in order only. */
  datatype Phone = Phone(expected: nat, got: seq<Byte>) {
    predicate Accepts(p: Packet) { p.control == SOH && p.seqno == expected && Crc(p.buffer) == p.crc16 }
  }

  /** The adapter, every packet it ever put on the channel, the phone, and the ACKs still under way to the adapter. */
  datatype Link = Link(adapter: State, sent: set<Packet>, phone: Phone, acks: nat)

  datatype Event =
    | DeliverData(p: Packet)                           // any packet sent, any time, any number of times
    | DeliverDamaged(p: Packet, original: Packet, d: Damage)
    | DeliverAck
    | LoseAck
    | RepeatAck                                        // only where repeated ACKs are looked at
    | DeliverNak                                       // refusals may be lost, repeated or forged
    | DeliverOther(p: Packet)

  ghost predicate Enabled(l: Link, e: Event) {
    && l.adapter.isTransmitting
    && match e
       case DeliverData(p) => p in l.sent
       case DeliverDamaged(p, original, d) =>
         && original in l.sent
         && p == original.(buffer := p.buffer) && Damaged(p.buffer, original.buffer, d)
       case DeliverAck | LoseAck => l.acks > 0
       case RepeatAck => false
       case DeliverNak => true
       case DeliverOther(p) => p.control !in {ACK, NAK, EOT, CAN}
  }

  /** A packet reaches the phone: it acknowledges what it takes. */
  function PhoneGets(l: Link, p: Packet): Link {
    if l.phone.Accepts(p) then
      l.(phone := Phone(l.phone.expected + 1, l.phone.got + p.buffer), acks := l.acks + 1)
    else
      l
  }

  /** A packet reaches the adapter: what it announces goes on the channel. */
  function AdapterGets(l: Link, p: Packet): Link {
    var o := Handle(l.adapter, p, false);
    l.(adapter := o.next, sent := if o.notified then l.sent + {o.next.store} else l.sent)
  }

  function Next(l: Link, e: Event): Link {
    match e
    case DeliverData(p) => PhoneGets(l, p)
    case DeliverDamaged(p, _, _) => PhoneGets(l, p)
    case DeliverAck => if l.acks > 0 then AdapterGets(l.(acks := l.acks - 1), INIT_ZERO.(control := ACK)) else l
    case LoseAck => if l.acks > 0 then l.(acks := l.acks - 1) else l
    case RepeatAck => AdapterGets(l, INIT_ZERO.(control := ACK))
    case DeliverNak => AdapterGets(l, INIT_ZERO.(control := NAK))
    case DeliverOther(p) => AdapterGets(l, p)
  }

  function Start(s: State): Link { Link(s, {s.store}, Phone(1, []), 0) }

  function RunLink(l: Link, events: seq<Event>): Link {
    if events == [] then l else Next(RunLink(l, events[..|events| - 1]), events[|events| - 1])
  }

  ghost predicate EnabledRun(l: Link, events: seq<Event>) {
    forall i :: 0 <= i < |events| ==> Enabled(RunLink(l, events[..i]), events[i])
  }

  /** The phone holds the start of the file, packet by packet. */
  ghost predicate PhoneHasPrefix(l: Link, contents: seq<Byte>) {
    l.phone.expected >= 1 && l.phone.got == FirstChunks(contents, l.phone.expected - 1)
  }

  /** When the adapter has announced the end, the phone holds the whole file. */
  ghost predicate CompleteAtEnd(l: Link, contents: seq<Byte>) {
    !l.adapter.isTransmitting && l.adapter.store.control == EOT ==> l.phone.got == contents
  }

  ghost predicate LinkInv(l: Link, contents: seq<Byte>) {
    && PacketCount(contents) < 0x10000
    && (forall p :: p in l.sent && p.control == SOH ==>
          1 <= p.seqno <= PacketCount(contents) && p == DataPacket(contents, p.seqno))
    && PhoneHasPrefix(l, contents)
    && (l.adapter.isTransmitting ==>
          && Transmitting(l.adapter, contents)
          && (l.adapter.isEOT ==> FirstChunks(contents, l.adapter.packetno) == contents)
          && l.acks + l.adapter.packetno <= l.phone.expected)
    && CompleteAtEnd(l, contents)
  }

  lemma StartInv(s: State, contents: seq<Byte>)
    requires Begun(s, contents) || (StaleSession(s, contents) && |contents| <= BUFFER_SIZE)
    ensures LinkInv(Start(s), contents)
  {
    ChunksMeet(contents, 1);
  }

  lemma PhoneKeepsInv(l: Link, p: Packet, contents: seq<Byte>)
    requires LinkInv(l, contents) && l.adapter.isTransmitting && p in l.sent
    ensures LinkInv(PhoneGets(l, p), contents)
  {
    if l.phone.Accepts(p) { ChunksMeet(contents, l.phone.expected); }
  }

  /** A damaged packet carries its original's checksum, so the phone turns it down. */
  lemma DamagedRejected(l: Link, p: Packet, original: Packet, d: Damage)
    requires original.control == SOH ==> original.crc16 == Crc(original.buffer)
    requires p == original.(buffer := p.buffer) && Damaged(p.buffer, original.buffer, d)
    ensures PhoneGets(l, p) == l
  {
    DamageDetected(p.buffer, original.buffer, d);
  }

  /** An ACK accounts for a packet the phone took, so the adapter never runs ahead of the phone. */
  lemma AckKeepsInv(l: Link, contents: seq<Byte>)
    requires LinkInv(l, contents) && l.adapter.isTransmitting && l.acks > 0
    ensures LinkInv(Next(l, DeliverAck), contents)
  {
    if l.adapter.isEOT { LastAck(l, contents); } else { MiddleAck(l, contents); }
  }

  lemma LastAck(l: Link, contents: seq<Byte>)
    requires LinkInv(l, contents) && l.adapter.isTransmitting && l.acks > 0 && l.adapter.isEOT
    ensures LinkInv(Next(l, DeliverAck), contents)
  {
    ChunksMeet(contents, l.adapter.packetno);
    ChunksMeet(contents, l.phone.expected - 1);
  }

  lemma MiddleAck(l: Link, contents: seq<Byte>)
    requires LinkInv(l, contents) && l.adapter.isTransmitting && l.acks > 0 && !l.adapter.isEOT
    ensures LinkInv(Next(l, DeliverAck), contents)
  {
    var s := NextChunk(l.adapter).next;
    NextChunkSends(l.adapter, contents);
    ChunksMeet(contents, s.packetno);
    ChunkOnChannel(l, s, l.acks - 1, contents);
  }

  lemma ChunkOnChannel(l: Link, s: State, acks: nat, contents: seq<Byte>)
    requires LinkInv(l, contents) && Transmitting(s, contents) && s.store == DataPacket(contents, s.packetno)
    requires s.isEOT ==> FirstChunks(contents, s.packetno) == contents
    requires acks + s.packetno <= l.phone.expected
    ensures LinkInv(l.(adapter := s, sent := l.sent + {s.store}, acks := acks), contents)
  {}

  lemma NakKeepsInv(l: Link, contents: seq<Byte>)
    requires LinkInv(l, contents) && l.adapter.isTransmitting
    ensures LinkInv(Next(l, DeliverNak), contents)
  {
    if l.adapter.retrans > 1 {
      SameChunkSends(l.adapter, contents);
      ChunkOnChannel(l, SameChunk(l.adapter).next, l.acks, contents);
    }
  }

  lemma OtherKeepsInv(l: Link, p: Packet, contents: seq<Byte>)
    requires LinkInv(l, contents) && l.adapter.isTransmitting && p.control !in {ACK, NAK, EOT, CAN}
    ensures LinkInv(Next(l, DeliverOther(p)), contents)
  {}

  lemma NextKeepsInv(l: Link, e: Event, contents: seq<Byte>)
    requires LinkInv(l, contents) && Enabled(l, e)
    ensures LinkInv(Next(l, e), contents)
  {
    match e
    case DeliverData(p) => PhoneKeepsInv(l, p, contents);
    case DeliverDamaged(p, original, d) => DamagedRejected(l, p, original, d);
    case DeliverAck => AckKeepsInv(l, contents);
    case LoseAck | RepeatAck =>
    case DeliverNak => NakKeepsInv(l, contents);
    case DeliverOther(p) => OtherKeepsInv(l, p, contents);
  }

  lemma {:induction false} RunKeepsInv(l: Link, events: seq<Event>, contents: seq<Byte>)
    requires LinkInv(l, contents) && EnabledRun(l, events)
    ensures LinkInv(RunLink(l, events), contents)
  {
    if events != [] {
      var front := events[..|events| - 1];
      forall i | 0 <= i < |front|
        ensures Enabled(RunLink(l, front[..i]), front[i])
      {
        assert events[..i] == front[..i];
      }
      RunKeepsInv(l, front, contents);
      NextKeepsInv(RunLink(l, front), events[|events| - 1], contents);
    }
  }

  /** Whatever the channel loses, repeats, reorders or damages: what the phone holds is the start of the file, packet
      by packet, and once the adapter announces the end it is all of it. */
  lemma TransferComplete(s: State, events: seq<Event>, contents: seq<Byte>)
    requires Begun(s, contents) && EnabledRun(Start(s), events)
    ensures PhoneHasPrefix(RunLink(Start(s), events), contents)
    ensures CompleteAtEnd(RunLink(Start(s), events), contents)
  {
    StartInv(s, contents);
    RunKeepsInv(Start(s), events, contents);
  }

  // ---- What an aborted session leaves behind ----

  /** A session begun with isEOT still set. */
  ghost predicate StaleSession(s: State, contents: seq<Byte>) {
    && Transmitting(s, contents)
    && s.packetno == 1 && s.store == DataPacket(contents, 1) && s.isEOT
  }

  ghost predicate EndsComplete(s: State, contents: seq<Byte>) {
    forall events :: EnabledRun(Start(s), events) ==> CompleteAtEnd(RunLink(Start(s), events), contents)
  }

  /** The phone takes the first packet and acknowledges it; the adapter answers with the end. */
  lemma StaleSessionCutOff(s: State, contents: seq<Byte>)
    requires StaleSession(s, contents) && |contents| > BUFFER_SIZE
    ensures !EndsComplete(s, contents)
  {
    var l0, data := Start(s), DeliverData(s.store);
    var l1 := PhoneGets(l0, s.store);
    ChunksMeet(contents, 1);
    assert l1 == l0.(phone := l1.phone, acks := 1) && l1.phone.got == FirstChunks(contents, 1) != contents;
    TwoEvents(l0, data, DeliverAck);
    EndAnnounced(l1);
    assert !CompleteAtEnd(RunLink(l0, [data, DeliverAck]), contents);
  }

  lemma EndAnnounced(l: Link)
    requires l.adapter.isTransmitting && l.adapter.isEOT && l.acks > 0
    ensures var m := Next(l, DeliverAck);
            !m.adapter.isTransmitting && m.adapter.store.control == EOT && m.phone == l.phone
  {}

  lemma TwoEvents(l: Link, e: Event, f: Event)
    ensures RunLink(l, [e, f]) == Next(Next(l, e), f)
    ensures Enabled(l, e) && Enabled(Next(l, e), f) ==> EnabledRun(l, [e, f])
  {
    var events := [e, f];
    assert events[..1] == [e] && [e][..0] == [] && events[..0] == [];
    assert RunLink(l, [e]) == Next(l, e);
  }

  /** Such a session is cut off after its first packet, so it is complete exactly when one packet can hold the file. */
  lemma StaleSessionCompleteIff(s: State, contents: seq<Byte>)
    requires StaleSession(s, contents)
    ensures EndsComplete(s, contents) <==> |contents| <= BUFFER_SIZE
  {
    if |contents| <= BUFFER_SIZE {
      forall events | EnabledRun(Start(s), events)
        ensures CompleteAtEnd(RunLink(Start(s), events), contents)
      {
        StartInv(s, contents);
        RunKeepsInv(Start(s), events, contents);
      }
    } else {
      StaleSessionCutOff(s, contents);
    }
  }

  /** A data packet in the middle of a session aborts it, and leaves the flag and the budget as they were. */
  lemma AbortKeepsFlags(s: State, p: Packet, canOpen: bool)
    requires s.isTransmitting && !s.isReceiving && (p.control == SOH || p.control == STX)
    ensures var o := Handle(s, p, canOpen);
            o.Sent(CAN) && o.next == s.(store := o.next.store, isTransmitting := false)
  {}

  /** So a file opened after a session that was aborted while it waited for its last ACK gets a stale session. */
  lemma AbortThenOpenIsStale(s: State, contents: seq<Byte>, abort: Packet, open: Packet)
    requires Transmitting(s, contents) && s.isEOT && (abort.control == SOH || abort.control == STX)
    requires open.control == STX && open.seqno == 0 && CString(CopyName(s.filename, open.buffer)) in s.flash
    requires PacketCount(s.flash[CString(CopyName(s.filename, open.buffer))]) < 0x10000
    ensures var t := Handle(Handle(s, abort, true).next, open, true).next;
            StaleSession(t, s.flash[CString(CopyName(s.filename, open.buffer))]) && t.retrans == s.retrans
  {
    AbortKeepsFlags(s, abort, true);
    OpenBeginsSession(Handle(s, abort, true).next, open);
  }

  /** One refusal cancels a session exactly when at most one retransmission is left. */
  lemma NakCancelsIff(s: State, contents: seq<Byte>)
    requires Transmitting(s, contents)
    ensures SameChunk(s).Sent(CAN) <==> s.retrans <= 1
    ensures s.retrans <= 1 ==> SameChunk(s).next.retrans <= 0 && !SameChunk(s).next.isTransmitting
  {
    if s.retrans > 1 { SameChunkSends(s, contents); }
  }

  /** So after a session that its refusals cancelled, the first refusal cancels the next one too. */
  lemma CancelledThenOneNakCancels(s: State, contents: seq<Byte>, open: Packet)
    requires Transmitting(s, contents) && s.retrans <= 1
    requires open.control == STX && open.seqno == 0 && CString(CopyName(s.filename, open.buffer)) in s.flash
    requires PacketCount(s.flash[CString(CopyName(s.filename, open.buffer))]) < 0x10000
    ensures var t := Handle(SameChunk(s).next, open, true).next;
            Transmitting(t, s.flash[CString(CopyName(s.filename, open.buffer))]) && SameChunk(t).Sent(CAN)
  {
    NakCancelsIff(s, contents);
    var t := Handle(SameChunk(s).next, open, true).next;
    OpenBeginsSession(SameChunk(s).next, open);
    NakCancelsIff(t, t.file.contents);
  }

  lemma RunLast(s: State, inputs: seq<Input>, i: Input)
    ensures Run(s, inputs + [i]) == Handle(Run(s, inputs), i.packet, i.canOpen).next
  {
    assert (inputs + [i])[..|inputs|] == inputs;
  }

  /** The adapter after power-on has sent the first k packets of the file that this packet opens. */
  ghost predicate Sending(files: Flash, open: Packet, inputs: seq<Input>, k: nat) {
    var s := Run(PowerOn(files), inputs);
    var filename := CopyName(PowerOn(files).filename, open.buffer);
    && CString(filename) in files && Transmitting(s, files[CString(filename)])
    && s.packetno == k && (s.isEOT <==> k == PacketCount(files[CString(filename)]))
    && s.filename == filename && s.flash == files
  }

  lemma {:induction false} SendingReached(files: Flash, open: Packet, k: nat) returns (inputs: seq<Input>)
    requires open.control == STX && open.seqno == 0
    requires var name := CString(CopyName(PowerOn(files).filename, open.buffer));
             name in files && 1 <= k <= PacketCount(files[name]) < 0x10000
    ensures Sending(files, open, inputs, k)
  {
    if k == 1 {
      inputs := [Input(open, true)];
      assert Run(PowerOn(files), []) == PowerOn(files);
      RunLast(PowerOn(files), [], inputs[0]);
      OpenBeginsSession(PowerOn(files), open);
    } else {
      var before := SendingReached(files, open, k - 1);
      var ack := Input(INIT_ZERO.(control := ACK), true);
      var s := Run(PowerOn(files), before);
      NextChunkSends(s, s.file.contents);
      RunLast(PowerOn(files), before, ack);
      inputs := before + [ack];
    }
  }

  /** From power-on, for every file there is a run into a stale session of it; a longer one is then cut off. */
  lemma StaleSessionReached(files: Flash, open: Packet) returns (inputs: seq<Input>)
    requires open.control == STX && open.seqno == 0
    requires var name := CString(CopyName(PowerOn(files).filename, open.buffer));
             name in files && PacketCount(files[name]) < 0x10000
    ensures var contents := files[CString(CopyName(PowerOn(files).filename, open.buffer))];
            var s := Run(PowerOn(files), inputs);
            StaleSession(s, contents) && (EndsComplete(s, contents) <==> |contents| <= BUFFER_SIZE)
  {
    var filename := CopyName(PowerOn(files).filename, open.buffer);
    var contents := files[CString(filename)];
    var sent := SendingReached(files, open, PacketCount(contents));
    var s, abort, again := Run(PowerOn(files), sent), Input(INIT_ZERO.(control := SOH), true), Input(open, true);
    RunLast(PowerOn(files), sent, abort);
    RunLast(PowerOn(files), sent + [abort], again);
    NamedAgain(PowerOn(files).filename, open.buffer);
    AbortThenOpenIsStale(s, contents, abort.packet, open);
    inputs := sent + [abort] + [again];
    StaleSessionCompleteIff(Run(PowerOn(files), inputs), contents);
  }

  lemma NamedAgain(filename: seq<Byte>, payload: seq<Byte>)
    ensures CopyName(CopyName(filename, payload), payload) == CopyName(filename, payload)
  {}

  // ---- A repeated acknowledgement ----

  /** An ACK that was sent may also arrive more than once. */
  ghost predicate RepeatingRun(l: Link, events: seq<Event>) {
    forall i :: 0 <= i < |events| ==>
      Enabled(RunLink(l, events[..i]), events[i]) || RepeatEnabled(RunLink(l, events[..i]), events[i])
  }

  ghost predicate RepeatEnabled(l: Link, e: Event) { e.RepeatAck? && l.adapter.isTransmitting && l.phone.expected > 1 }

  ghost predicate CompleteWithRepeats(s: State, contents: seq<Byte>) {
    forall events :: RepeatingRun(Start(s), events) ==> CompleteAtEnd(RunLink(Start(s), events), contents)
  }

  /** What repeated ACKs leave of the invariant: nothing ties the adapter's place to the phone's. */
  ghost predicate LooseInv(l: Link, contents: seq<Byte>) {
    && PacketCount(contents) < 0x10000
    && (forall p :: p in l.sent && p.control == SOH ==>
          1 <= p.seqno <= PacketCount(contents) && p == DataPacket(contents, p.seqno))
    && PhoneHasPrefix(l, contents)
    && (l.adapter.isTransmitting ==> Transmitting(l.adapter, contents))
    && (l.acks > 0 || (!l.adapter.isTransmitting && l.adapter.store.control == EOT) ==> l.phone.expected > 1)
  }

  lemma PhoneKeepsLoose(l: Link, p: Packet, contents: seq<Byte>)
    requires LooseInv(l, contents) && p in l.sent
    ensures LooseInv(PhoneGets(l, p), contents)
  {
    if l.phone.Accepts(p) { ChunksMeet(contents, l.phone.expected); }
  }

  lemma AckKeepsLoose(l: Link, acks: nat, contents: seq<Byte>)
    requires LooseInv(l, contents) && l.adapter.isTransmitting && l.phone.expected > 1
    ensures LooseInv(AdapterGets(l.(acks := acks), INIT_ZERO.(control := ACK)), contents)
  {
    var s := NextChunk(l.adapter).next;
    if l.adapter.isEOT {
      EndKeepsLoose(l, s, acks, contents);
    } else {
      NextChunkSends(l.adapter, contents);
      ChunkKeepsLoose(l, s, acks, contents);
    }
  }

  lemma ChunkKeepsLoose(l: Link, s: State, acks: nat, contents: seq<Byte>)
    requires LooseInv(l, contents) && Transmitting(s, contents) && s.store == DataPacket(contents, s.packetno)
    requires acks > l.acks ==> l.phone.expected > 1
    ensures LooseInv(l.(adapter := s, sent := l.sent + {s.store}, acks := acks), contents)
  {}

  lemma EndKeepsLoose(l: Link, s: State, acks: nat, contents: seq<Byte>)
    requires LooseInv(l, contents) && !s.isTransmitting && s.store.control != SOH && l.phone.expected > 1
    ensures LooseInv(l.(adapter := s, sent := l.sent + {s.store}, acks := acks), contents)
  {}

  lemma NakKeepsLoose(l: Link, contents: seq<Byte>)
    requires LooseInv(l, contents) && l.adapter.isTransmitting
    ensures LooseInv(Next(l, DeliverNak), contents)
  {
    if l.adapter.retrans > 1 {
      SameChunkSends(l.adapter, contents);
      ChunkKeepsLoose(l, SameChunk(l.adapter).next, l.acks, contents);
    }
  }

  lemma NextKeepsLoose(l: Link, e: Event, contents: seq<Byte>)
    requires LooseInv(l, contents) && (Enabled(l, e) || RepeatEnabled(l, e))
    ensures LooseInv(Next(l, e), contents)
  {
    match e
    case DeliverData(p) => PhoneKeepsLoose(l, p, contents);
    case DeliverDamaged(p, original, d) => DamagedRejected(l, p, original, d);
    case DeliverAck => AckKeepsLoose(l, l.acks - 1, contents);
    case RepeatAck => AckKeepsLoose(l, l.acks, contents);
    case DeliverNak => NakKeepsLoose(l, contents);
    case LoseAck | DeliverOther(_) =>
  }

  lemma {:induction false} RunKeepsLoose(l: Link, events: seq<Event>, contents: seq<Byte>)
    requires LooseInv(l, contents)
    requires forall i :: 0 <= i < |events| ==>
               Enabled(RunLink(l, events[..i]), events[i]) || RepeatEnabled(RunLink(l, events[..i]), events[i])
    ensures LooseInv(RunLink(l, events), contents)
  {
    if events != [] {
      var front := events[..|events| - 1];
      forall i | 0 <= i < |front|
        ensures Enabled(RunLink(l, front[..i]), front[i]) || RepeatEnabled(RunLink(l, front[..i]), front[i])
      {
        assert events[..i] == front[..i];
      }
      RunKeepsLoose(l, front, contents);
      NextKeepsLoose(RunLink(l, front), events[|events| - 1], contents);
    }
  }

  lemma OneMore(l: Link, events: seq<Event>, e: Event)
    requires RepeatingRun(l, events)
    requires Enabled(RunLink(l, events), e) || RepeatEnabled(RunLink(l, events), e)
    ensures RepeatingRun(l, events + [e]) && RunLink(l, events + [e]) == Next(RunLink(l, events), e)
  {
    var more := events + [e];
    assert more[..|events|] == events;
    forall i | 0 <= i < |more|
      ensures Enabled(RunLink(l, more[..i]), more[i]) || RepeatEnabled(RunLink(l, more[..i]), more[i])
    {
      if i < |events| { assert more[..i] == events[..i]; }
    }
  }

  /** The phone has only the first packet, and its one ACK has driven the adapter on to packet k. */
  ghost predicate DrivenTo(l: Link, contents: seq<Byte>, k: nat) {
    && Transmitting(l.adapter, contents) && l.adapter.packetno == k
    && (l.adapter.isEOT <==> k == PacketCount(contents))
    && l.phone == Phone(2, FirstChunks(contents, 1))
  }

  lemma FirstTaken(s: State, contents: seq<Byte>)
    requires Begun(s, contents)
    ensures Enabled(Start(s), DeliverData(s.store)) && DrivenTo(Next(Start(s), DeliverData(s.store)), contents, 1)
  {
    ChunksMeet(contents, 1);
  }

  lemma DrivenOn(l: Link, contents: seq<Byte>, k: nat)
    requires DrivenTo(l, contents, k) && k < PacketCount(contents)
    ensures RepeatEnabled(l, RepeatAck) && DrivenTo(Next(l, RepeatAck), contents, k + 1)
  {
    NextChunkSends(l.adapter, contents);
  }

  lemma {:induction false} RepeatsDrive(s: State, contents: seq<Byte>, k: nat) returns (events: seq<Event>)
    requires Begun(s, contents) && 1 <= k <= PacketCount(contents)
    ensures RepeatingRun(Start(s), events) && DrivenTo(RunLink(Start(s), events), contents, k)
  {
    if k == 1 {
      assert RunLink(Start(s), []) == Start(s);
      FirstTaken(s, contents);
      OneMore(Start(s), [], DeliverData(s.store));
      events := [] + [DeliverData(s.store)];
    } else {
      var before := RepeatsDrive(s, contents, k - 1);
      DrivenOn(RunLink(Start(s), before), contents, k - 1);
      OneMore(Start(s), before, RepeatAck);
      events := before + [RepeatAck];
    }
  }

  lemma LooseComplete(l: Link, contents: seq<Byte>)
    requires LooseInv(l, contents) && |contents| <= BUFFER_SIZE
    ensures CompleteAtEnd(l, contents)
  {
    if l.phone.expected > 1 { ChunksMeet(contents, l.phone.expected - 1); }
  }

  lemma DrivenToEnd(l: Link, contents: seq<Byte>)
    requires DrivenTo(l, contents, PacketCount(contents)) && |contents| > BUFFER_SIZE
    ensures RepeatEnabled(l, RepeatAck) && !CompleteAtEnd(Next(l, RepeatAck), contents)
  {
    ChunksMeet(contents, 1);
  }

  /** ACKs carry no number, so with repeated ones a session is complete in every run exactly when one packet can hold
      the file. */
  lemma RepeatedAcksCompleteIff(s: State, contents: seq<Byte>)
    requires Begun(s, contents)
    ensures CompleteWithRepeats(s, contents) <==> |contents| <= BUFFER_SIZE
  {
    if |contents| <= BUFFER_SIZE {
      forall events | RepeatingRun(Start(s), events)
        ensures CompleteAtEnd(RunLink(Start(s), events), contents)
      {
        RunKeepsLoose(Start(s), events, contents);
        LooseComplete(RunLink(Start(s), events), contents);
      }
    } else {
      var events := RepeatsDrive(s, contents, PacketCount(contents));
      DrivenToEnd(RunLink(Start(s), events), contents);
      OneMore(Start(s), events, RepeatAck);
      assert !CompleteAtEnd(RunLink(Start(s), events + [RepeatAck]), contents);
    }
  }

  // ---- An end or a cancel from outside ----

  /** A CAN or EOT may also reach the adapter while it transmits. */
  ghost predicate OutsideEnabled(l: Link, e: Event) {
    e.DeliverOther? && ClosesFile(e.p) && l.adapter.isTransmitting
  }

  ghost predicate DisturbedRun(l: Link, events: seq<Event>) {
    forall i :: 0 <= i < |events| ==>
      Enabled(RunLink(l, events[..i]), events[i]) || OutsideEnabled(RunLink(l, events[..i]), events[i])
  }

  ghost predicate CompleteDisturbed(s: State, contents: seq<Byte>) {
    forall events :: DisturbedRun(Start(s), events) ==> CompleteAtEnd(RunLink(Start(s), events), contents)
  }

  /** Nothing but empty packets is under way. */
  ghost predicate EmptyInv(l: Link) {
    && l.phone.got == []
    && (forall p :: p in l.sent && p.control == SOH ==> p.crc16 == Crc(p.buffer) && p.buffer == [])
    && (l.adapter.isTransmitting ==> NothingToRead(l.adapter.file))
  }

  predicate NothingToRead(f: File) { f.Closed? || (f.Reading? && f.contents == []) }

  ghost predicate SendsNothing(o: Outcome) {
    && (o.next.isTransmitting ==> NothingToRead(o.next.file))
    && (o.Sent(SOH) ==> o.next.store.buffer == [] && o.next.store.crc16 == Crc([]))
  }

  lemma ReadNothing(f: File)
    requires NothingToRead(f)
    ensures ReadBuffer(f).0 == [] && NothingToRead(ReadBuffer(f).1)
  {
  }

  lemma SendChunkNothing(s: State)
    requires NothingToRead(s.file)
    ensures SendsNothing(SendChunk(s))
  {
    ReadNothing(s.file);
  }

  lemma SeekNothing(f: File, pos: int)
    requires NothingToRead(f)
    ensures NothingToRead(Seek(f, pos))
  {
  }

  lemma AckNothing(s: State)
    requires NothingToRead(s.file)
    ensures SendsNothing(NextChunk(s))
  {
    if !s.isEOT {
      SendChunkNothing(s.(retrans := MAX_RETRANS, packetno := (s.packetno + 1) % 0x10000));
    }
  }

  lemma NakNothing(s: State)
    requires NothingToRead(s.file)
    ensures SendsNothing(SameChunk(s))
  {
    if s.retrans > 1 {
      var file := Seek(s.file, (s.packetno - 1) * BUFFER_SIZE);
      SeekNothing(s.file, (s.packetno - 1) * BUFFER_SIZE);
      SendChunkNothing(s.(retrans := s.retrans - 1, file := file));
    }
  }

  lemma HandleNothing(s: State, p: Packet)
    requires s.isTransmitting && NothingToRead(s.file)
    ensures SendsNothing(Handle(s, p, false))
  {
    if p.control == ACK {
      AckNothing(s);
    } else if p.control == NAK {
      NakNothing(s);
    }
  }

  lemma HandleKeepsEmpty(l: Link, p: Packet, acks: nat)
    requires EmptyInv(l) && l.adapter.isTransmitting
    ensures EmptyInv(AdapterGets(l.(acks := acks), p))
  {
    HandleNothing(l.adapter, p);
  }

  lemma NextKeepsEmpty(l: Link, e: Event)
    requires EmptyInv(l) && (Enabled(l, e) || OutsideEnabled(l, e))
    ensures EmptyInv(Next(l, e))
  {
    match e
    case DeliverData(_) | LoseAck | RepeatAck =>
    case DeliverDamaged(p, original, d) => DamagedRejected(l, p, original, d);
    case DeliverAck => HandleKeepsEmpty(l, INIT_ZERO.(control := ACK), l.acks - 1);
    case DeliverNak => HandleKeepsEmpty(l, INIT_ZERO.(control := NAK), l.acks);
    case DeliverOther(p) => HandleKeepsEmpty(l, p, l.acks);
  }

  lemma FrontDisturbed(l: Link, events: seq<Event>)
    requires events != [] && DisturbedRun(l, events)
    ensures var n := |events| - 1;
            && DisturbedRun(l, events[..n])
            && (Enabled(RunLink(l, events[..n]), events[n]) || OutsideEnabled(RunLink(l, events[..n]), events[n]))
  {
    var front := events[..|events| - 1];
    forall i | 0 <= i < |front|
      ensures Enabled(RunLink(l, front[..i]), front[i]) || OutsideEnabled(RunLink(l, front[..i]), front[i])
    {
      assert events[..i] == front[..i];
    }
  }

  lemma {:induction false} RunKeepsEmpty(l: Link, events: seq<Event>)
    requires EmptyInv(l) && DisturbedRun(l, events)
    ensures EmptyInv(RunLink(l, events))
  {
    if events != [] {
      FrontDisturbed(l, events);
      RunKeepsEmpty(l, events[..|events| - 1]);
      NextKeepsEmpty(RunLink(l, events[..|events| - 1]), events[|events| - 1]);
    }
  }

  lemma OneMoreDisturbed(l: Link, events: seq<Event>, e: Event)
    requires DisturbedRun(l, events)
    requires Enabled(RunLink(l, events), e) || OutsideEnabled(RunLink(l, events), e)
    ensures DisturbedRun(l, events + [e]) && RunLink(l, events + [e]) == Next(RunLink(l, events), e)
  {
    var more := events + [e];
    assert more[..|events|] == events;
    forall i | 0 <= i < |more|
      ensures Enabled(RunLink(l, more[..i]), more[i]) || OutsideEnabled(RunLink(l, more[..i]), more[i])
    {
      if i < |events| { assert more[..i] == events[..i]; }
    }
  }

  /** An EOT from outside closes the file, a NAK then asks for the first packet again, and it comes empty. */
  lemma EmptyPacketTaken(l: Link) returns (l3: Link, data: Packet)
    requires l.adapter.isTransmitting && !l.adapter.isReceiving && l.adapter.packetno == 1 && l.adapter.retrans > 1
    requires l.phone == Phone(1, [])
    ensures data == Packet(SOH, 1, Crc([]), [])
    ensures var l2 := Next(Next(l, DeliverOther(INIT_ZERO.(control := EOT))), DeliverNak);
            data in l2.sent && l2.adapter.isTransmitting && l3 == Next(l2, DeliverData(data))
    ensures l3.adapter.isTransmitting && l3.adapter.isEOT && l3.acks > 0 && l3.phone == Phone(2, [])
  {
    data := Packet(SOH, 1, Crc([]), []);
    var l1 := Next(l, DeliverOther(INIT_ZERO.(control := EOT)));
    assert l1.adapter.isTransmitting && l1.adapter.file.Closed? && l1.adapter.packetno == 1;
    SendChunkClosed(l1.adapter.(retrans := l.adapter.retrans - 1));
    var l2 := Next(l1, DeliverNak);
    assert l2.adapter.store == data && l2.adapter.isEOT && l2.phone == l.phone;
    l3 := Next(l2, DeliverData(data));
  }

  lemma FourDisturbed(l: Link, a: Event, b: Event, c: Event, d: Event) returns (events: seq<Event>)
    requires Enabled(l, a) || OutsideEnabled(l, a)
    requires var l1 := Next(l, a); Enabled(l1, b) || OutsideEnabled(l1, b)
    requires var l2 := Next(Next(l, a), b); Enabled(l2, c) || OutsideEnabled(l2, c)
    requires var l3 := Next(Next(Next(l, a), b), c); Enabled(l3, d) || OutsideEnabled(l3, d)
    ensures DisturbedRun(l, events) && RunLink(l, events) == Next(Next(Next(Next(l, a), b), c), d)
  {
    var e0: seq<Event> := [];
    assert RunLink(l, e0) == l;
    OneMoreDisturbed(l, e0, a);
    OneMoreDisturbed(l, e0 + [a], b);
    OneMoreDisturbed(l, e0 + [a] + [b], c);
    OneMoreDisturbed(l, e0 + [a] + [b] + [c], d);
    events := e0 + [a] + [b] + [c] + [d];
  }

  lemma CutOffFromOutside(s: State, contents: seq<Byte>) returns (events: seq<Event>)
    requires Begun(s, contents) && s.retrans > 1 && contents != []
    ensures DisturbedRun(Start(s), events) && !CompleteAtEnd(RunLink(Start(s), events), contents)
  {
    var l3, data := EmptyPacketTaken(Start(s));
    var end := DeliverOther(INIT_ZERO.(control := EOT));
    events := FourDisturbed(Start(s), end, DeliverNak, DeliverData(data), DeliverAck);
    EndAnnounced(l3);
  }

  lemma EmptyFromOutside(s: State, events: seq<Event>)
    requires Begun(s, []) && DisturbedRun(Start(s), events)
    ensures CompleteAtEnd(RunLink(Start(s), events), [])
  {
    assert EmptyInv(Start(s));
    RunKeepsEmpty(Start(s), events);
  }

  // A session whose budget is spent cancels at the first refusal, so its first packet is never sent again.

  /** Nothing is left to read. */
  predicate AtEnd(f: File, contents: seq<Byte>) {
    f.Closed? || (f.Reading? && f.contents == contents && f.pos == |contents|)
  }

  /** The file in one packet, and perhaps the empty one after it. */
  ghost predicate FirstOrEmpty(p: Packet, contents: seq<Byte>) {
    p.crc16 == Crc(p.buffer) && ((p.seqno == 1 && p.buffer == contents) || (p.seqno == 2 && p.buffer == []))
  }

  ghost predicate PhoneHasAll(phone: Phone, contents: seq<Byte>) {
    phone.expected >= 1 && phone.got == if phone.expected == 1 then [] else contents
  }

  ghost predicate SpentAdapter(s: State, contents: seq<Byte>, taken: bool) {
    && !s.isReceiving && AtEnd(s.file, contents) && |contents| <= BUFFER_SIZE
    && (s.isEOT || |contents| == BUFFER_SIZE)
    && ((s.packetno == 1 && s.retrans <= 1) || (s.packetno == 2 && s.isEOT && |contents| == BUFFER_SIZE && taken))
  }

  ghost predicate SpentInv(l: Link, contents: seq<Byte>) {
    && (forall p :: p in l.sent && p.control == SOH ==> FirstOrEmpty(p, contents))
    && PhoneHasAll(l.phone, contents)
    && (l.adapter.isTransmitting ==>
          SpentAdapter(l.adapter, contents, l.phone.expected >= 2) && (l.acks > 0 ==> l.phone.expected >= 2))
    && CompleteAtEnd(l, contents)
  }

  /** What the adapter does in one step, if the phone has taken the first packet or no ACK comes. */
  ghost predicate SpentStep(o: Outcome, contents: seq<Byte>, taken: bool) {
    && (o.next.isTransmitting ==> SpentAdapter(o.next, contents, taken))
    && (o.Sent(SOH) ==> FirstOrEmpty(o.next.store, contents))
    && (!o.next.isTransmitting && o.next.store.control == EOT ==> taken)
  }

  lemma SendChunkAtEnd(s: State, contents: seq<Byte>)
    requires AtEnd(s.file, contents)
    ensures var o := SendChunk(s);
            o.next == s.(store := Packet(SOH, s.packetno, Crc([]), []), isEOT := true, file := o.next.file)
            && AtEnd(o.next.file, contents)
  {
    assert ReadBuffer(s.file).0 == [] && AtEnd(ReadBuffer(s.file).1, contents);
  }

  lemma SpentAck(s: State, contents: seq<Byte>)
    requires s.isTransmitting && SpentAdapter(s, contents, true)
    ensures SpentStep(NextChunk(s), contents, true)
  {
    if !s.isEOT {
      SendChunkAtEnd(s.(retrans := MAX_RETRANS, packetno := 2), contents);
    }
  }

  lemma SpentNak(s: State, contents: seq<Byte>, taken: bool)
    requires s.isTransmitting && SpentAdapter(s, contents, taken)
    ensures SpentStep(SameChunk(s), contents, taken)
  {
    if s.retrans > 1 {
      var file := Seek(s.file, BUFFER_SIZE);
      assert AtEnd(file, contents);
      SendChunkAtEnd(s.(retrans := s.retrans - 1, file := file), contents);
    }
  }

  lemma SpentOther(s: State, p: Packet, contents: seq<Byte>, taken: bool)
    requires s.isTransmitting && SpentAdapter(s, contents, taken) && p.control !in {ACK, NAK}
    ensures SpentStep(Handle(s, p, false), contents, taken)
  {
  }

  lemma HandleKeepsSpent(l: Link, p: Packet, acks: nat, contents: seq<Byte>)
    requires SpentInv(l, contents) && l.adapter.isTransmitting
    requires p.control == ACK || acks > 0 ==> l.phone.expected >= 2
    ensures SpentInv(AdapterGets(l.(acks := acks), p), contents)
  {
    var taken := l.phone.expected >= 2;
    assert SpentStep(Handle(l.adapter, p, false), contents, taken) by {
      if p.control == ACK {
        SpentAck(l.adapter, contents);
      } else if p.control == NAK {
        SpentNak(l.adapter, contents, taken);
      } else {
        SpentOther(l.adapter, p, contents, taken);
      }
    }
  }

  lemma PhoneKeepsSpent(l: Link, p: Packet, contents: seq<Byte>)
    requires SpentInv(l, contents) && l.adapter.isTransmitting && p in l.sent
    ensures SpentInv(PhoneGets(l, p), contents)
  {
    assert [] + contents == contents == contents + [];
  }

  lemma NextKeepsSpent(l: Link, e: Event, contents: seq<Byte>)
    requires SpentInv(l, contents) && (Enabled(l, e) || OutsideEnabled(l, e))
    ensures SpentInv(Next(l, e), contents)
  {
    match e
    case DeliverData(p) => PhoneKeepsSpent(l, p, contents);
    case LoseAck | RepeatAck =>
    case DeliverDamaged(p, original, d) => DamagedRejected(l, p, original, d);
    case DeliverAck => HandleKeepsSpent(l, INIT_ZERO.(control := ACK), l.acks - 1, contents);
    case DeliverNak => HandleKeepsSpent(l, INIT_ZERO.(control := NAK), l.acks, contents);
    case DeliverOther(p) => HandleKeepsSpent(l, p, l.acks, contents);
  }

  lemma {:induction false} RunKeepsSpent(l: Link, events: seq<Event>, contents: seq<Byte>)
    requires SpentInv(l, contents) && DisturbedRun(l, events)
    ensures SpentInv(RunLink(l, events), contents)
  {
    if events != [] {
      FrontDisturbed(l, events);
      RunKeepsSpent(l, events[..|events| - 1], contents);
      NextKeepsSpent(RunLink(l, events[..|events| - 1]), events[|events| - 1], contents);
    }
  }

  lemma SpentFromOutside(s: State, contents: seq<Byte>, events: seq<Event>)
    requires Begun(s, contents) && s.retrans <= 1 && |contents| <= BUFFER_SIZE && DisturbedRun(Start(s), events)
    ensures CompleteAtEnd(RunLink(Start(s), events), contents)
  {
    assert Chunk(contents, 1) == contents;
    assert SpentInv(Start(s), contents);
    RunKeepsSpent(Start(s), events, contents);
  }

  /** An EOT from outside closes the file, and the second packet comes empty. */
  lemma EmptySecondTaken(l: Link, first: Packet) returns (l4: Link, second: Packet)
    requires l.adapter.isTransmitting && !l.adapter.isReceiving && !l.adapter.isEOT && l.adapter.packetno == 1
    requires l.phone == Phone(1, []) && l.acks == 0 && first in l.sent && l.phone.Accepts(first)
    ensures second == Packet(SOH, 2, Crc([]), [])
    ensures var l2 := Next(Next(l, DeliverOther(INIT_ZERO.(control := EOT))), DeliverData(first));
            var l3 := Next(l2, DeliverAck);
            first in Next(l, DeliverOther(INIT_ZERO.(control := EOT))).sent
            && Next(l, DeliverOther(INIT_ZERO.(control := EOT))).adapter.isTransmitting
            && l2.acks > 0 && l2.adapter.isTransmitting
            && second in l3.sent && l3.adapter.isTransmitting && l4 == Next(l3, DeliverData(second))
    ensures l4.adapter.isTransmitting && l4.adapter.isEOT && l4.acks > 0 && l4.phone == Phone(3, first.buffer)
  {
    second := Packet(SOH, 2, Crc([]), []);
    var l1 := Next(l, DeliverOther(INIT_ZERO.(control := EOT)));
    assert l1.adapter.isTransmitting && l1.adapter.file.Closed? && l1.adapter.packetno == 1 && !l1.adapter.isEOT;
    NextChunkClosed(l1.adapter);
    var l2 := Next(l1, DeliverData(first));
    assert l2.adapter == l1.adapter && l2.phone == Phone(2, first.buffer) && l2.acks == 1;
    var l3 := Next(l2, DeliverAck);
    assert l3.adapter.store == second && l3.adapter.isEOT && l3.phone == l2.phone;
    assert first.buffer + [] == first.buffer;
    l4 := Next(l3, DeliverData(second));
  }

  lemma CutOffAfterFirst(s: State, contents: seq<Byte>) returns (events: seq<Event>)
    requires Begun(s, contents) && |contents| > BUFFER_SIZE
    ensures DisturbedRun(Start(s), events) && !CompleteAtEnd(RunLink(Start(s), events), contents)
  {
    var l4, second := EmptySecondTaken(Start(s), s.store);
    var end := DeliverOther(INIT_ZERO.(control := EOT));
    var four := FourDisturbed(Start(s), end, DeliverData(s.store), DeliverAck, DeliverData(second));
    OneMoreDisturbed(Start(s), four, DeliverAck);
    EndAnnounced(l4);
    events := four + [DeliverAck];
    assert |s.store.buffer| < |contents|;
  }

  /** If a CAN or EOT from outside may come in between, a session is complete in every run exactly when its file is
      empty, or when no retransmission is left and the file is at most one buffer long. */
  lemma DisturbedCompleteIff(s: State, contents: seq<Byte>)
    requires Begun(s, contents)
    ensures CompleteDisturbed(s, contents) <==> contents == [] || (s.retrans <= 1 && |contents| <= BUFFER_SIZE)
  {
    if contents == [] {
      forall events | DisturbedRun(Start(s), events)
        ensures CompleteAtEnd(RunLink(Start(s), events), contents)
      {
        EmptyFromOutside(s, events);
      }
    } else if |contents| > BUFFER_SIZE {
      var events := CutOffAfterFirst(s, contents);
    } else if s.retrans > 1 {
      var events := CutOffFromOutside(s, contents);
    } else {
      forall events | DisturbedRun(Start(s), events)
        ensures CompleteAtEnd(RunLink(Start(s), events), contents)
      {
        SpentFromOutside(s, contents, events);
      }
    }
  }
}
