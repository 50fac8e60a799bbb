/** Receiving a file from the phone: what is on flash during the transfer and when it ends. */
module XModemReceive {
  import opened Bytes
  import opened Crc16
  import opened Crc16Damage
  import opened XModem

  /** What the phone sends, packet by packet; the first is number 1. */
  type Chunks = c: seq<Buffer> | |c| < 0xffff witness []

  function Concat(chunks: seq<Buffer>): seq<Byte> {
    if chunks == [] then [] else Concat(chunks[..|chunks| - 1]) + chunks[|chunks| - 1]
  }

  function ChunkPacket(chunks: Chunks, k: nat): Packet
    requires 1 <= k <= |chunks|
  {
    Packet(SOH, k, Crc(chunks[k - 1]), chunks[k - 1])
  }

  /** The adapter, the ACKs under way to the phone, and the ACKs the phone has seen. The first ACK answers the packet
      that named the file. */
  datatype Link = Link(adapter: State, acks: nat, acked: nat)

  datatype Event =
    | DeliverData(k: nat)                              // any chunk, any time, any number of times
    | DeliverDamaged(k: nat, data: Buffer, d: Damage)
    | DeliverName(p: Packet)                           // the packet that named the file, repeated
    | DeliverOther(p: Packet)
    | DeliverAck
    | LoseAck
    | DeliverEnd                                       // the phone may end the transfer at any time
    | DeliverCancel

  ghost predicate Enabled(l: Link, e: Event, chunks: Chunks) {
    && l.adapter.isReceiving
    && match e
       case DeliverData(k) => 1 <= k <= |chunks|
       case DeliverDamaged(k, data, d) => 1 <= k <= |chunks| && Damaged(data, chunks[k - 1], d)
       case DeliverName(p) => (p.control == SOH || p.control == STX) && p.seqno == 0
       case DeliverOther(p) => p.control !in {SOH, STX, EOT, CAN}
       case DeliverAck | LoseAck => l.acks > 0
       case DeliverEnd | DeliverCancel => true
  }

  function AdapterGets(l: Link, p: Packet): Link {
    var o := Handle(l.adapter, p, true);
    l.(adapter := o.next, acks := if o.Sent(ACK) then l.acks + 1 else l.acks)
  }

  function Next(l: Link, e: Event, chunks: Chunks): Link {
    match e
    case DeliverData(k) => if 1 <= k <= |chunks| then AdapterGets(l, ChunkPacket(chunks, k)) else l
    case DeliverDamaged(k, data, _) =>
      if 1 <= k <= |chunks| then AdapterGets(l, ChunkPacket(chunks, k).(buffer := data)) else l
    case DeliverName(p) => AdapterGets(l, p)
    case DeliverOther(p) => AdapterGets(l, p)
    case DeliverAck => if l.acks > 0 then l.(acks := l.acks - 1, acked := l.acked + 1) else l
    case LoseAck => if l.acks > 0 then l.(acks := l.acks - 1) else l
    case DeliverEnd => AdapterGets(l, INIT_ZERO.(control := EOT))
    case DeliverCancel => AdapterGets(l, INIT_ZERO.(control := CAN))
  }

  function RunLink(l: Link, events: seq<Event>, chunks: Chunks): Link {
    if events == [] then l else Next(RunLink(l, events[..|events| - 1], chunks), events[|events| - 1], chunks)
  }

  ghost predicate EnabledRun(l: Link, events: seq<Event>, chunks: Chunks) {
    forall i :: 0 <= i < |events| ==> Enabled(RunLink(l, events[..i], chunks), events[i], chunks)
  }

  /** The adapter has just opened the file it was asked to receive. */
  ghost predicate Opened(s: State, name: seq<Byte>) {
    && s.isReceiving && !s.isTransmitting && s.packetno == 1
    && s.file == Writing(name) && name == CString(s.filename) && name in s.flash && s.flash[name] == []
  }

  lemma OpenReceives(s: State, p: Packet)
    requires p.control == SOH && p.seqno == 0 && !s.isReceiving && !s.isTransmitting
    ensures var o := Handle(s, p, true);
            && Opened(o.next, CString(CopyName(s.filename, p.buffer))) && o.Sent(ACK)
            && o.next.flash - {CString(o.next.filename)} == s.flash - {CString(o.next.filename)}
  {}

  /** While it lasts: on flash are exactly the chunks before number packetno, and no ACK stands for anything else. */
  ghost predicate Underway(l: Link, name: seq<Byte>, chunks: Chunks, others: Flash) {
    var s := l.adapter;
    && s.isReceiving && !s.isTransmitting
    && s.file == Writing(name) && name == CString(s.filename)
    && 1 <= s.packetno <= |chunks| + 1
    && s.flash == others[name := Concat(chunks[..s.packetno - 1])]
    && l.acks + l.acked <= s.packetno
  }

  /** When it is over: the chunks taken are there, or nothing; no other file was touched. */
  ghost predicate Finished(l: Link, name: seq<Byte>, chunks: Chunks, others: Flash) {
    && !l.adapter.isReceiving && l.adapter.file == Closed && 1 <= l.adapter.packetno <= |chunks| + 1
    && (l.adapter.flash == others[name := Concat(chunks[..l.adapter.packetno - 1])]
        || l.adapter.flash == others - {name})
  }

  /** A chunk is written if it is the next one; whatever else arrives is refused and changes nothing on flash. */
  lemma DataKeepsUnderway(l: Link, k: nat, name: seq<Byte>, chunks: Chunks, others: Flash)
    requires Underway(l, name, chunks, others) && 1 <= k <= |chunks|
    ensures Underway(Next(l, DeliverData(k), chunks), name, chunks, others)
  {
    var s := l.adapter;
    if k == s.packetno {
      assert chunks[..k][..k - 1] == chunks[..k - 1];
      assert s.flash[name := Concat(chunks[..k])] == others[name := Concat(chunks[..k])];
    }
  }

  /** A packet that is not the next one, or not intact, is only answered. */
  lemma Refused(l: Link, p: Packet)
    requires l.adapter.isReceiving && p.control == SOH
    requires p.seqno != l.adapter.packetno || Crc(p.buffer) != p.crc16
    ensures AdapterGets(l, p) == l.(adapter := l.adapter.(store := INIT_ZERO.(control := NAK)))
  {}

  lemma DamagedKeepsUnderway(l: Link, e: Event, name: seq<Byte>, chunks: Chunks, others: Flash)
    requires Underway(l, name, chunks, others) && e.DeliverDamaged? && Enabled(l, e, chunks)
    ensures Underway(Next(l, e, chunks), name, chunks, others)
  {
    DamageDetected(e.data, chunks[e.k - 1], e.d);
    Refused(l, ChunkPacket(chunks, e.k).(buffer := e.data));
  }

  lemma NextKeeps(l: Link, e: Event, name: seq<Byte>, chunks: Chunks, others: Flash)
    requires Underway(l, name, chunks, others) && Enabled(l, e, chunks)
    ensures var m := Next(l, e, chunks);
            match e
            case DeliverEnd =>
              Finished(m, name, chunks, others) && m.adapter.packetno == l.adapter.packetno
              && m.adapter.flash == others[name := Concat(chunks[..l.adapter.packetno - 1])]
            case DeliverCancel => Finished(m, name, chunks, others) && m.adapter.flash == others - {name}
            case _ => Underway(m, name, chunks, others)
  {
    match e
    case DeliverData(k) => DataKeepsUnderway(l, k, name, chunks, others);
    case DeliverDamaged(_, _, _) => DamagedKeepsUnderway(l, e, name, chunks, others);
    case DeliverEnd => EndFinishes(l, name, chunks, others);
    case DeliverCancel => CancelRemoves(l, name, chunks, others);
    case _ =>
  }

  /** Whenever the end comes, the file is what was taken so far. */
  lemma EndFinishes(l: Link, name: seq<Byte>, chunks: Chunks, others: Flash)
    requires Underway(l, name, chunks, others)
    ensures var m := Next(l, DeliverEnd, chunks);
            Finished(m, name, chunks, others) && m.adapter.packetno == l.adapter.packetno
            && m.adapter.flash == others[name := Concat(chunks[..l.adapter.packetno - 1])]
  {
    FileEnds(l.adapter, INIT_ZERO.(control := EOT));
  }

  lemma {:induction false} ConcatJoins(chunks: seq<Buffer>, k: nat)
    requires k <= |chunks|
    ensures Concat(chunks) == Concat(chunks[..k]) + Concat(chunks[k..])
  {
    var n := |chunks|;
    if k == n {
      assert chunks[..k] == chunks && chunks[k..] == [];
    } else {
      ConcatJoins(chunks[..n - 1], k);
      assert chunks[..n - 1][..k] == chunks[..k];
      assert chunks[..n - 1][k..] == chunks[k..][..n - k - 1];
      assert chunks[k..][n - k - 1] == chunks[n - 1];
    }
  }

  /** After the end the file is whole exactly when nothing was left to send; so it is when every packet, the one with
      the name included, was seen acknowledged. */
  lemma EndWholeIff(l: Link, name: seq<Byte>, chunks: Chunks, others: Flash)
    requires Underway(l, name, chunks, others)
    ensures Next(l, DeliverEnd, chunks).adapter.flash == others[name := Concat(chunks)]
       <==> Concat(chunks[l.adapter.packetno - 1..]) == []
    ensures l.acked >= |chunks| + 1 ==> Concat(chunks[l.adapter.packetno - 1..]) == []
  {
    var k := l.adapter.packetno - 1;
    EndFinishes(l, name, chunks, others);
    ConcatJoins(chunks, k);
    SameFile(others, name, Concat(chunks[..k]), Concat(chunks), Concat(chunks[k..]));
  }

  lemma SameFile(others: Flash, name: seq<Byte>, part: seq<Byte>, whole: seq<Byte>, rest: seq<Byte>)
    requires whole == part + rest
    ensures others[name := part] == others[name := whole] <==> rest == []
  {
    assert others[name := part][name] == part && others[name := whole][name] == whole;
    if rest == [] { assert whole == part; }
  }

  lemma CancelRemoves(l: Link, name: seq<Byte>, chunks: Chunks, others: Flash)
    requires Underway(l, name, chunks, others)
    ensures var m := Next(l, DeliverCancel, chunks);
            Finished(m, name, chunks, others) && m.adapter.flash == others - {name}
  {
    FileEnds(l.adapter, INIT_ZERO.(control := CAN));
    assert others[name := Concat(chunks[..l.adapter.packetno - 1])] - {name} == others - {name};
  }

  lemma FileEnds(s: State, p: Packet)
    requires p.control == EOT || p.control == CAN
    ensures var t := Handle(s, p, true).next;
            && !t.isReceiving && t.file == Closed
            && t.flash == if p.control == EOT then s.flash else s.flash - {CString(s.filename)}
  {}

  /** Whatever the channel loses, repeats, reorders or damages, for every file of fewer than 65535 packets: the file on
      flash is the chunks taken so far, before and after the end; after a cancel it is gone. */
  lemma {:induction false} ReceiveSafe(l: Link, events: seq<Event>, name: seq<Byte>, chunks: Chunks, others: Flash)
    requires Opened(l.adapter, name) && l.acks == 1 && l.acked == 0 && l.adapter.flash == others[name := []]
    requires EnabledRun(l, events, chunks)
    ensures var m := RunLink(l, events, chunks);
            Underway(m, name, chunks, others) || Finished(m, name, chunks, others)
    ensures events != [] && events[|events| - 1] == DeliverEnd ==>
              var m := RunLink(l, events, chunks);
              1 <= m.adapter.packetno <= |chunks| + 1
              && m.adapter.flash == others[name := Concat(chunks[..m.adapter.packetno - 1])]
  {
    if events != [] {
      var front, last := events[..|events| - 1], events[|events| - 1];
      FrontEnabled(l, events, chunks);
      ReceiveSafe(l, front, name, chunks, others);
      NextKeeps(RunLink(l, front, chunks), last, name, chunks, others);
    }
  }

  lemma FrontEnabled(l: Link, events: seq<Event>, chunks: Chunks)
    requires events != [] && EnabledRun(l, events, chunks)
    ensures var front := events[..|events| - 1];
            EnabledRun(l, front, chunks) && Enabled(RunLink(l, front, chunks), events[|events| - 1], chunks)
  {
    var front := events[..|events| - 1];
    forall i | 0 <= i < |front|
      ensures Enabled(RunLink(l, front[..i], chunks), front[i], chunks)
    {
      assert events[..i] == front[..i];
    }
    assert events[..|front|] == front;
  }

  function LostCount(events: seq<Event>): nat {
    if events == [] then 0
    else LostCount(events[..|events| - 1]) + if events[|events| - 1] == LoseAck then 1 else 0
  }

  lemma AcksAfter(l: Link, e: Event, chunks: Chunks)
    requires Enabled(l, e, chunks) && !l.adapter.isTransmitting && 1 <= l.adapter.packetno <= |chunks| + 1
    ensures var m := Next(l, e, chunks);
            var lost := if e == LoseAck then 1 else 0;
            && m.acked <= l.acked + l.acks - lost && m.adapter.packetno >= l.adapter.packetno
            && (m.adapter.isReceiving ==>
                  m.acks + m.acked + lost - m.adapter.packetno == l.acks + l.acked - l.adapter.packetno)
  {}

  lemma UnderwayWhileReceiving(l: Link, events: seq<Event>, name: seq<Byte>, chunks: Chunks, others: Flash)
    requires Opened(l.adapter, name) && l.acks == 1 && l.acked == 0 && l.adapter.flash == others[name := []]
    requires EnabledRun(l, events, chunks)
    ensures var m := RunLink(l, events, chunks);
            1 <= m.adapter.packetno <= |chunks| + 1 && (m.adapter.isReceiving ==> !m.adapter.isTransmitting)
  {
    ReceiveSafe(l, events, name, chunks, others);
  }

  lemma FrontEnabledRun(l: Link, events: seq<Event>, chunks: Chunks)
    requires events != [] && EnabledRun(l, events, chunks)
    ensures EnabledRun(l, events[..|events| - 1], chunks)
  {
    FrontEnabled(l, events, chunks);
  }

  /** A packet taken twice is refused, so every packet taken, the name included, has just one ACK: it is under way, or
      was seen, or was lost. */
  lemma {:induction false} AcksAccounted(l: Link, events: seq<Event>, name: seq<Byte>, chunks: Chunks, others: Flash)
    requires Opened(l.adapter, name) && l.acks == 1 && l.acked == 0 && l.adapter.flash == others[name := []]
    requires EnabledRun(l, events, chunks)
    ensures var m := RunLink(l, events, chunks);
            && m.acked + LostCount(events) <= m.adapter.packetno <= |chunks| + 1
            && (m.adapter.isReceiving ==> m.acks + m.acked + LostCount(events) == m.adapter.packetno)
  {
    if events != [] {
      var front := events[..|events| - 1];
      FrontEnabledRun(l, events, chunks);
      AcksAccounted(l, front, name, chunks, others);
      LastAccounted(l, events, name, chunks, others);
    }
  }

  lemma LastAccounted(l: Link, events: seq<Event>, name: seq<Byte>, chunks: Chunks, others: Flash)
    requires Opened(l.adapter, name) && l.acks == 1 && l.acked == 0 && l.adapter.flash == others[name := []]
    requires events != [] && EnabledRun(l, events, chunks)
    requires var front := events[..|events| - 1];
             var k := RunLink(l, front, chunks);
             k.adapter.isReceiving ==> k.acks + k.acked + LostCount(front) == k.adapter.packetno
    ensures var m := RunLink(l, events, chunks);
            && m.acked + LostCount(events) <= m.adapter.packetno <= |chunks| + 1
            && (m.adapter.isReceiving ==> m.acks + m.acked + LostCount(events) == m.adapter.packetno)
  {
    var front, last := events[..|events| - 1], events[|events| - 1];
    FrontEnabled(l, events, chunks);
    UnderwayWhileReceiving(l, front, name, chunks, others);
    UnderwayWhileReceiving(l, events, name, chunks, others);
    AcksAfter(RunLink(l, front, chunks), last, chunks);
  }

  lemma {:induction false} LostCountIff(events: seq<Event>)
    ensures LostCount(events) > 0 <==> LoseAck in events
  {
    if events != [] {
      var n := |events| - 1;
      LostCountIff(events[..n]);
      assert events == events[..n] + [events[n]];
    }
  }

  /** A lost ACK is never made good: the ACKs under way and seen are those of all packets taken exactly as long as none
      was lost; and once one was, the phone does not see every packet acknowledged, also when the session is over. */
  lemma LostAckNotMadeGood(l: Link, events: seq<Event>, name: seq<Byte>, chunks: Chunks, others: Flash)
    requires Opened(l.adapter, name) && l.acks == 1 && l.acked == 0 && l.adapter.flash == others[name := []]
    requires EnabledRun(l, events, chunks)
    ensures var m := RunLink(l, events, chunks);
            && (m.adapter.isReceiving ==> (m.acks + m.acked == m.adapter.packetno <==> LoseAck !in events))
            && (LoseAck in events ==> m.acked <= |chunks|)
  {
    AcksAccounted(l, events, name, chunks, others);
    LostCountIff(events);
  }
}
