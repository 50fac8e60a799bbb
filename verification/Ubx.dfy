/** The framing of the GPS receiver's binary protocol: building a frame, reading a payload, matching an ACK. */
module Ubx {
  import opened Bytes

  const SYNC1: Byte := 0xB5
  const SYNC2: Byte := 0x62
  const SCRATCH_SIZE := 250

  // ---- Checksum and frames ----

  function Add8(a: Byte, b: Byte): Byte { (a + b) % 256 }

  /** The two checksum bytes over these bytes. */
  function Checksum(data: seq<Byte>): (Byte, Byte) {
    if data == [] then (0, 0)
    else
      var (a, b) := Checksum(data[..|data| - 1]);
      var a' := Add8(a, data[|data| - 1]);
      (a', Add8(b, a'))
  }

  function Body(classId: Byte, msgId: Byte, payload: seq<Byte>): seq<Byte>
    requires |payload| < 256
  {
    [classId, msgId, |payload|, 0] + payload
  }

  /** A whole frame: sync bytes, class, id, length, payload and the checksum over all but the sync bytes. */
  function Frame(classId: Byte, msgId: Byte, payload: seq<Byte>): seq<Byte>
    requires |payload| < 256
  {
    var body := Body(classId, msgId, payload);
    [SYNC1, SYNC2] + body + [Checksum(body).0, Checksum(body).1]
  }

  /** Fills the last two bytes of a message with the checksum over what lies between them and the sync bytes. */
  method UBXChecksum(message: array<Byte>, length: nat)
    requires 4 <= length <= message.Length
    modifies message
    ensures var sum := Checksum(old(message[2..length - 2]));
            message[..] == old(message[..])[length - 2 := sum.0][length - 1 := sum.1]
  {
    var a: Byte, b: Byte := 0, 0;
    for i := 2 to length - 2
      invariant (a, b) == Checksum(message[2..i])
      invariant message[..] == old(message[..])
    {
      assert message[2..i + 1][..i - 2] == message[2..i];
      a := Add8(a, message[i]);
      b := Add8(b, a);
    }
    message[length - 2] := a;
    message[length - 1] := b;
  }

  /** Builds a frame in the scratch buffer and returns its length. */
  method MakeUBXPacket(scratch: array<Byte>, classId: Byte, msgId: Byte, msg: seq<Byte>) returns (length: nat)
    requires scratch.Length == SCRATCH_SIZE && |msg| + 8 <= SCRATCH_SIZE
    modifies scratch
    ensures length == |msg| + 8 && scratch[..length] == Frame(classId, msgId, msg)
    ensures scratch[length..] == old(scratch[length..])
  {
    var payloadSize := |msg|;
    scratch[0] := SYNC1;
    scratch[1] := SYNC2;
    scratch[2] := classId;
    scratch[3] := msgId;
    scratch[4] := payloadSize;
    scratch[5] := 0;
    scratch[6 + payloadSize] := 0;
    scratch[7 + payloadSize] := 0;
    for i := 0 to payloadSize
      invariant scratch[..6] == [SYNC1, SYNC2, classId, msgId, payloadSize, 0]
      invariant scratch[6..6 + i] == msg[..i]
      invariant scratch[payloadSize + 8..] == old(scratch[payloadSize + 8..])
    {
      scratch[6 + i] := msg[i];
    }
    ghost var filled, body := scratch[..], Body(classId, msgId, msg);
    HeaderAndPayload(filled, classId, msgId, msg);
    UBXChecksum(scratch, payloadSize + 8);
    ChecksumPlaced(filled, body, scratch[..]);
    return payloadSize + 8;
  }

  lemma HeaderAndPayload(filled: seq<Byte>, classId: Byte, msgId: Byte, msg: seq<Byte>)
    requires |msg| < 256 && |filled| >= 6 + |msg|
    requires filled[..6] == [SYNC1, SYNC2, classId, msgId, |msg|, 0] && filled[6..6 + |msg|] == msg
    ensures filled[..2] == [SYNC1, SYNC2] && filled[2..6 + |msg|] == Body(classId, msgId, msg)
  {
    var head := filled[..6];
    assert filled[..2] == head[..2] && filled[2..6] == head[2..];
    assert filled[2..6 + |msg|] == filled[2..6] + filled[6..6 + |msg|];
  }

  lemma ChecksumPlaced(filled: seq<Byte>, body: seq<Byte>, placed: seq<Byte>)
    requires |filled| >= |body| + 4 && filled[..2] == [SYNC1, SYNC2] && filled[2..|body| + 2] == body
    requires var sum := Checksum(body);
             placed == filled[|body| + 2 := sum.0][|body| + 3 := sum.1]
    ensures placed[..|body| + 4] == [SYNC1, SYNC2] + body + [Checksum(body).0, Checksum(body).1]
    ensures placed[|body| + 4..] == filled[|body| + 4..]
  {
    assert filled[..|body| + 2] == filled[..2] + filled[2..|body| + 2];
    assert placed[..|body| + 2] == filled[..|body| + 2];
  }

  // ---- What the serial port delivers ----

  /** One look at the port: a byte, nothing waiting at the moment, or silence for as long as a blocking read waits. */
  datatype Poll = Got(b: Byte) | Idle | Gap

  /** The bytes that arrived. */
  function Heard(polls: seq<Poll>): seq<Byte> {
    if polls == [] then []
    else if polls[0].Got? then [polls[0].b] + Heard(polls[1..])
    else Heard(polls[1..])
  }

  ghost predicate Steady(polls: seq<Poll>) {
    forall i :: 0 <= i < |polls| ==> !polls[i].Gap?
  }

  ghost predicate EndsWith(bytes: seq<Byte>, tail: seq<Byte>) {
    |tail| <= |bytes| && bytes[|bytes| - |tail|..] == tail
  }

  lemma {:induction false} HeardConcat(p: seq<Poll>, q: seq<Poll>)
    ensures Heard(p + q) == Heard(p) + Heard(q)
  {
    if p == [] {
      assert p + q == q;
    } else {
      HeardConcat(p[1..], q);
      assert (p + q)[1..] == p[1..] + q;
    }
  }

  lemma HeardLast(polls: seq<Poll>)
    requires polls != []
    ensures var p := polls[|polls| - 1];
            Heard(polls) == Heard(polls[..|polls| - 1]) + (if p.Got? then [p.b] else [])
  {
    var p := polls[|polls| - 1];
    HeardConcat(polls[..|polls| - 1], [p]);
    assert polls == polls[..|polls| - 1] + [p];
    assert [p][1..] == [];
  }

  // ---- Matching an ACK ----

  const FRAME_ERRORS_TEXT := "More than 100 frame errors"

  datatype Response = NONE | NAK | FRAME_ERRORS | OK

  /** How many bytes of the expected frame have just been read, and how many characters of the error text. */
  datatype Matcher = Waiting(ack: nat, errors: nat) | Answered(response: Response)

  type AckFrame = buf: seq<Byte> | |buf| == 10 witness [0, 0, 0, 0, 0, 0, 0, 0, 0, 0]

  ghost predicate Proper(m: Matcher) {
    m.Waiting? ==> m.ack <= 10 && m.errors < 26
  }

  function AckStep(buf: AckFrame, m: Matcher, p: Poll): (r: Matcher)
    requires Proper(m)
    ensures Proper(r)
  {
    if m.Answered? then m
    else if m.ack > 9 then Answered(OK)
    else if !p.Got? then m
    else
      var errors := if p.b == FRAME_ERRORS_TEXT[m.errors] as int then m.errors + 1 else 0;
      if errors == 26 then Answered(FRAME_ERRORS)
      else if p.b == buf[m.ack] then Waiting(m.ack + 1, errors)
      else if m.ack == 3 && p.b == 0 then Answered(NAK)
      else Waiting(0, errors)
  }

  function AckRun(buf: AckFrame, polls: seq<Poll>): (r: Matcher)
    ensures Proper(r)
  {
    if polls == [] then Waiting(0, 0)
    else AckStep(buf, AckRun(buf, polls[..|polls| - 1]), polls[|polls| - 1])
  }

  /** The ten bytes expected, with the checksum summed up in place. */
  method ExpectedAck(classId: Byte, msgId: Byte) returns (buf: array<Byte>)
    ensures fresh(buf) && buf.Length == 10
    ensures buf[..] == Frame(5, 1, [classId, msgId])
  {
    var ackP := [classId, msgId];
    ghost var head, body: seq<Byte> := [5, 1, 2, 0], Body(5, 1, ackP);
    buf := new Byte[10] [0xB5, 0x62, 0x05, 0x01, 0x02, 0x00, 0x00, 0x00, 0x00, 0x00];
    for j := 2 to 6
      invariant buf[..8] == [SYNC1, SYNC2] + head + [0, 0]
      invariant (buf[8], buf[9]) == Checksum(head[..j - 2])
    {
      ChecksumNext(head, j - 2);
      assert buf[..8][j] == head[j - 2];
      buf[8] := Add8(buf[8], buf[j]);
      buf[9] := Add8(buf[9], buf[8]);
    }
    assert head[..4] == body[..4];
    for j := 0 to 2
      invariant buf[..6 + j] == [SYNC1, SYNC2] + body[..4 + j]
      invariant (buf[8], buf[9]) == Checksum(body[..4 + j])
    {
      ChecksumNext(body, 4 + j);
      buf[6 + j] := ackP[j];
      assert buf[..7 + j] == [SYNC1, SYNC2] + body[..5 + j];
      buf[8] := Add8(buf[8], buf[6 + j]);
      buf[9] := Add8(buf[9], buf[8]);
    }
    assert body[..6] == body;
    assert buf[..] == buf[..8] + [buf[8], buf[9]];
  }

  lemma ChecksumNext(data: seq<Byte>, n: nat)
    requires n < |data|
    ensures var (a, b) := Checksum(data[..n]);
            var a' := Add8(a, data[n]);
            Checksum(data[..n + 1]) == (a', Add8(b, a'))
  {
    assert data[..n + 1][..n] == data[..n];
  }

  /** Waits for the acknowledgement of a message for as long as the polls last. */
  method GetACK(polls: seq<Poll>, classId: Byte, msgId: Byte) returns (r: Response)
    ensures var m := AckRun(Frame(5, 1, [classId, msgId]), polls);
            r == if m.Answered? then m.response else NONE
  {
    var buf := ExpectedAck(classId, msgId);
    ghost var frame := buf[..];
    var ack, sCounter := 0, 0;
    for i := 0 to |polls|
      invariant ack <= 10 && sCounter < 26 && buf[..] == frame
      invariant AckRun(frame, polls[..i]) == Waiting(ack, sCounter)
    {
      AckRunStep(frame, polls, i);
      if ack > 9 {
        return OK;
      }
      if polls[i].Got? {
        var b := polls[i].b;
        assert buf[ack] == frame[ack];
        if b == FRAME_ERRORS_TEXT[sCounter] as int {
          sCounter := sCounter + 1;
          if sCounter == 26 {
            return FRAME_ERRORS;
          }
        } else {
          sCounter := 0;
        }
        if b == buf[ack] {
          ack := ack + 1;
        } else {
          if ack == 3 && b == 0 {
            return NAK;
          }
          ack := 0;
        }
      }
    }
    assert polls[..|polls|] == polls;
    return NONE;
  }

  /** Adding a poll to a prefix is one step, and an answer once given stays. */
  lemma AckRunStep(buf: AckFrame, polls: seq<Poll>, i: nat)
    requires i < |polls|
    ensures AckRun(buf, polls[..i + 1]) == AckStep(buf, AckRun(buf, polls[..i]), polls[i])
    ensures AckRun(buf, polls[..i + 1]).Answered? ==> AckRun(buf, polls) == AckRun(buf, polls[..i + 1])
  {
    assert polls[..i + 1][..i] == polls[..i];
    if AckRun(buf, polls[..i + 1]).Answered? {
      AnswerStays(buf, polls, i + 1);
    }
  }

  lemma {:induction false} AnswerStays(buf: AckFrame, polls: seq<Poll>, i: nat)
    requires i <= |polls| && AckRun(buf, polls[..i]).Answered?
    ensures AckRun(buf, polls) == AckRun(buf, polls[..i])
  {
    if i == |polls| {
      assert polls[..i] == polls;
    } else {
      assert polls[..|polls| - 1][..i] == polls[..i];
      AnswerStays(buf, polls[..|polls| - 1], i);
    }
  }

  /** While it waits, the matcher's count is the part of the frame that has just arrived. */
  lemma {:induction false} WaitingEndsWith(buf: AckFrame, polls: seq<Poll>)
    requires AckRun(buf, polls).Waiting?
    ensures EndsWith(Heard(polls), buf[..AckRun(buf, polls).ack])
  {
    if polls != [] {
      HeardLast(polls);
      WaitingEndsWith(buf, polls[..|polls| - 1]);
      var m, m' := AckRun(buf, polls[..|polls| - 1]), AckRun(buf, polls);
      if m'.ack == m.ack + 1 {
        assert buf[..m'.ack] == buf[..m.ack] + [buf[m.ack]];
      }
    }
  }

  /** OK is answered only when the ten bytes of the frame were read one after the other, with time left. */
  lemma {:induction false} OkWasRead(buf: AckFrame, polls: seq<Poll>)
    requires AckRun(buf, polls) == Answered(OK)
    ensures exists k :: 0 <= k < |polls| && EndsWith(Heard(polls[..k]), buf)
  {
    var n := |polls| - 1;
    var before := polls[..n];
    if AckRun(buf, before).Waiting? {
      WaitingEndsWith(buf, before);
      assert buf[..10] == buf;
      assert EndsWith(Heard(polls[..n]), buf);
    } else {
      OkWasRead(buf, before);
      var k :| 0 <= k < |before| && EndsWith(Heard(before[..k]), buf);
      assert before[..k] == polls[..k];
    }
  }

  /** NAK is answered only when the start of an acknowledgement was read with the id of a refusal. */
  lemma {:induction false} NakWasRead(buf: AckFrame, polls: seq<Poll>)
    requires AckRun(buf, polls) == Answered(NAK)
    ensures exists k :: 0 <= k <= |polls| && EndsWith(Heard(polls[..k]), buf[..3] + [0])
  {
    var n := |polls| - 1;
    var before := polls[..n];
    if AckRun(buf, before).Waiting? {
      HeardLast(polls);
      WaitingEndsWith(buf, before);
      EndsWithOneMore(Heard(before), buf[..3], 0);
      assert polls[..n + 1] == polls;
    } else {
      NakWasRead(buf, before);
      var k :| 0 <= k <= |before| && EndsWith(Heard(before[..k]), buf[..3] + [0]);
      assert before[..k] == polls[..k];
    }
  }

  /** The last n bytes are the first n characters of the error text. */
  ghost predicate EndsWithText(bytes: seq<Byte>, n: nat)
    requires n <= 26
  {
    n <= |bytes| && forall i :: 0 <= i < n ==> bytes[|bytes| - n + i] == FRAME_ERRORS_TEXT[i] as int
  }

  lemma {:induction false} ErrorsEndWith(buf: AckFrame, polls: seq<Poll>)
    requires AckRun(buf, polls).Waiting?
    ensures EndsWithText(Heard(polls), AckRun(buf, polls).errors)
  {
    if polls != [] {
      var before := polls[..|polls| - 1];
      HeardLast(polls);
      ErrorsEndWith(buf, before);
      var m, m' := AckRun(buf, before), AckRun(buf, polls);
      if m'.errors == m.errors + 1 {
        TextGrows(Heard(before), m.errors, polls[|polls| - 1].b);
      }
    }
  }

  lemma TextGrows(bytes: seq<Byte>, n: nat, b: Byte)
    requires n < 26 && EndsWithText(bytes, n) && b == FRAME_ERRORS_TEXT[n] as int
    ensures EndsWithText(bytes + [b], n + 1)
  {
  }

  /** The answer of too many frame errors is given only when the whole error text was read in one piece. */
  lemma {:induction false} FrameErrorsWasRead(buf: AckFrame, polls: seq<Poll>)
    requires AckRun(buf, polls) == Answered(FRAME_ERRORS)
    ensures exists k :: 0 <= k <= |polls| && EndsWithText(Heard(polls[..k]), 26)
  {
    var n := |polls| - 1;
    var before := polls[..n];
    if AckRun(buf, before).Waiting? {
      HeardLast(polls);
      ErrorsEndWith(buf, before);
      TextGrows(Heard(before), 25, polls[n].b);
      assert polls[..n + 1] == polls;
      assert EndsWithText(Heard(polls[..n + 1]), 26);
    } else {
      FrameErrorsWasRead(buf, before);
      var k :| 0 <= k <= |before| && EndsWithText(Heard(before[..k]), 26);
      assert before[..k] == polls[..k];
    }
  }

  /** Bytes without the first sync byte never start a match; only the error text can end the wait. */
  lemma {:induction false} NoSyncNoMatch(buf: AckFrame, polls: seq<Poll>)
    requires buf[0] == SYNC1 && SYNC1 !in Heard(polls)
    ensures var m := AckRun(buf, polls);
            m == Answered(FRAME_ERRORS) || (m.Waiting? && m.ack == 0)
  {
    if polls != [] {
      HeardLast(polls);
      NoSyncNoMatch(buf, polls[..|polls| - 1]);
    }
  }

  /** Whether the frame carries on the match of its own first a bytes. */
  predicate Overlaps(buf: AckFrame, a: nat)
    requires a <= 9
  {
    buf[a..] == buf[..10 - a]
  }

  /** Where a matcher that had a bytes of the frame stands after m more bytes, each as it carries on the match. */
  ghost predicate OnTrack(r: Matcher, a: nat, m: nat) {
    if a + m < 10 then r.Waiting? && r.ack == a + m && (m > 0 ==> r.errors < m)
    else r == Answered(OK) || (r.Waiting? && r.ack == 10)
  }

  /** Where it stands when the bytes stop carrying on the match j bytes in. */
  ghost predicate OffTrack(r: Matcher, a: nat, j: nat, m: nat) {
    if r.Answered? then r.response != OK
    else if m <= j then r.ack == a + m
    else r.ack < m - j
  }

  /** The first sync byte is no character of the error text. */
  lemma SyncNotInText(e: nat)
    requires e < 26
    ensures FRAME_ERRORS_TEXT[e] as int != SYNC1
  {
  }

  lemma RunOneMore(buf: AckFrame, pre: seq<Poll>, during: seq<Poll>)
    requires during != []
    ensures AckRun(buf, pre + during)
         == AckStep(buf, AckRun(buf, pre + during[..|during| - 1]), during[|during| - 1])
  {
    assert (pre + during)[..|pre + during| - 1] == pre + during[..|during| - 1];
  }

  lemma {:induction false} StaysOnTrack(buf: AckFrame, pre: seq<Poll>, during: seq<Poll>, a: nat)
    requires buf[0] == SYNC1 && AckRun(buf, pre).Waiting? && AckRun(buf, pre).ack == a <= 9
    requires Heard(during) <= buf && Overlaps(buf, a)
    ensures OnTrack(AckRun(buf, pre + during), a, |Heard(during)|)
  {
    if during == [] {
      assert pre + during == pre;
    } else {
      var n := |during| - 1;
      HeardLast(during);
      StaysOnTrack(buf, pre, during[..n], a);
      RunOneMore(buf, pre, during);
      var m := |Heard(during[..n])|;
      if during[n].Got? && a + m < 10 {
        assert during[n].b == Heard(during)[m] == buf[m];
        assert buf[a..][m] == buf[..10 - a][m];
        SyncNotInText(AckRun(buf, pre + during[..n]).errors);
      }
    }
  }

  lemma OffTrackStep(buf: AckFrame, r: Matcher, p: Poll, a: nat, j: nat, m: nat)
    requires a + j < 10 && m < 10 && Proper(r) && OffTrack(r, a, j, m)
    requires p.Got? && p.b == buf[m] && buf[a + j] != buf[j]
    requires m < j ==> buf[a + m] == buf[m]
    ensures OffTrack(AckStep(buf, r, p), a, j, m + 1)
  {
  }

  lemma OffTrackStays(buf: AckFrame, r: Matcher, p: Poll, a: nat, j: nat, m: nat)
    requires a + j < 10 && m <= 10 && Proper(r) && OffTrack(r, a, j, m) && !p.Got?
    ensures OffTrack(AckStep(buf, r, p), a, j, m)
  {
  }

  lemma {:induction false} GoesOffTrack(buf: AckFrame, pre: seq<Poll>, during: seq<Poll>, a: nat, j: nat)
    requires AckRun(buf, pre).Waiting? && AckRun(buf, pre).ack == a && j < 10 - a
    requires Heard(during) <= buf
    requires buf[a..a + j] == buf[..j] && buf[a + j] != buf[j]
    ensures OffTrack(AckRun(buf, pre + during), a, j, |Heard(during)|)
  {
    if during == [] {
      assert pre + during == pre;
    } else {
      var n := |during| - 1;
      HeardLast(during);
      GoesOffTrack(buf, pre, during[..n], a, j);
      RunOneMore(buf, pre, during);
      var r, m := AckRun(buf, pre + during[..n]), |Heard(during[..n])|;
      if during[n].Got? {
        assert during[n].b == Heard(during)[m] == buf[m];
        if m < j {
          assert buf[a..a + j][m] == buf[..j][m];
        }
        OffTrackStep(buf, r, during[n], a, j, m);
      } else {
        OffTrackStays(buf, r, during[n], a, j, m);
      }
    }
  }

  /** A broken overlap has a first broken place. */
  lemma FirstBreak(buf: AckFrame, a: nat) returns (j: nat)
    requires a <= 9 && !Overlaps(buf, a)
    ensures j < 10 - a && buf[a..a + j] == buf[..j] && buf[a + j] != buf[j]
  {
    var tail, head := buf[a..], buf[..10 - a];
    j := 0;
    while tail[j] == head[j]
      invariant j < |tail| && tail[..j] == head[..j] && tail[j..] != head[j..]
      decreases |tail| - j
    {
      assert tail[j..] == [tail[j]] + tail[j + 1..] && head[j..] == [head[j]] + head[j + 1..];
      j := j + 1;
    }
    assert tail[..j] == buf[a..a + j] && tail[j] == buf[a + j];
  }

  /** Exactly when a frame that arrives is answered with OK: the bytes matched so far and the frame agree. */
  lemma FrameAnsweredIff(classId: Byte, msgId: Byte, pre: seq<Poll>, during: seq<Poll>, next: Poll)
    requires var buf := Frame(5, 1, [classId, msgId]);
             var m := AckRun(buf, pre);
             m.Waiting? && m.ack <= 9 && Heard(during) == buf
    ensures var buf := Frame(5, 1, [classId, msgId]);
            AckRun(buf, pre + during + [next]) == Answered(OK) <==> Overlaps(buf, AckRun(buf, pre).ack)
  {
    var buf := Frame(5, 1, [classId, msgId]);
    var a := AckRun(buf, pre).ack;
    var polls := pre + during + [next];
    assert polls[..|polls| - 1] == pre + during;
    if Overlaps(buf, a) {
      StaysOnTrack(buf, pre, during, a);
    } else {
      var j := FirstBreak(buf, a);
      GoesOffTrack(buf, pre, during, a, j);
    }
  }

  /** After any bytes without the first sync byte, the frame is answered with OK unless the error text came first. */
  lemma FrameAfterNoise(classId: Byte, msgId: Byte, pre: seq<Poll>, during: seq<Poll>, next: Poll)
    requires SYNC1 !in Heard(pre) && Heard(during) == Frame(5, 1, [classId, msgId])
    ensures var r := AckRun(Frame(5, 1, [classId, msgId]), pre + during + [next]);
            r == Answered(OK) || r == Answered(FRAME_ERRORS) == AckRun(Frame(5, 1, [classId, msgId]), pre)
  {
    var buf := Frame(5, 1, [classId, msgId]);
    NoSyncNoMatch(buf, pre);
    var polls := pre + during + [next];
    assert polls[..|pre|] == pre;
    if AckRun(buf, pre).Answered? {
      AnswerStays(buf, polls, |pre|);
    } else {
      assert buf[0..] == buf[..10];
      FrameAnsweredIff(classId, msgId, pre, during, next);
    }
  }

  /** Unless six bytes or more of a frame have just been read, the next frame is answered with OK exactly when none
      have: a stray start of one to five bytes makes the matcher miss it. */
  lemma StrayStartLosesFrame(classId: Byte, msgId: Byte, pre: seq<Poll>, during: seq<Poll>, next: Poll)
    requires var buf := Frame(5, 1, [classId, msgId]);
             var m := AckRun(buf, pre);
             m.Waiting? && m.ack <= 5 && Heard(during) == buf
    ensures var buf := Frame(5, 1, [classId, msgId]);
            AckRun(buf, pre + during + [next]) == Answered(OK) <==> AckRun(buf, pre).ack == 0
  {
    var buf := Frame(5, 1, [classId, msgId]);
    var a := AckRun(buf, pre).ack;
    FrameAnsweredIff(classId, msgId, pre, during, next);
    assert buf[..10 - a][0] == SYNC1;
    assert buf[a..][0] == buf[a] == [SYNC1, SYNC2, 5, 1, 2, 0][a];
  }

  // ---- Reading a payload ----

  /** A blocking read of up to n bytes: what it gets and how many polls it uses up. */
  function Take(polls: seq<Poll>, n: nat): (r: (seq<Byte>, nat))
    ensures |r.0| <= n && r.1 <= |polls|
  {
    if n == 0 || polls == [] then ([], 0)
    else
      match polls[0]
      case Gap => ([], 1)
      case Idle => var (got, used) := Take(polls[1..], n); (got, used + 1)
      case Got(b) => var (got, used) := Take(polls[1..], n - 1); ([b] + got, used + 1)
  }

  function NextCounter(counter: nat, c: Byte, classId: Byte, msgId: Byte): nat
    requires counter < 5
  {
    match counter
    case 0 => if c == SYNC1 then 1 else 0
    case 1 => if c == SYNC2 then 2 else 0
    case 2 => if c == classId then 3 else 0
    case 3 => if c == msgId then 4 else 0
    case _ => 5
  }

  /** The buffer after some bytes were read to its start. */
  function Overwrite(buffer: seq<Byte>, got: seq<Byte>): seq<Byte>
    requires |got| <= |buffer|
  {
    got + buffer[|got|..]
  }

  /** The length returned and the buffer left behind, from a given place in the frame on. */
  function Reply(polls: seq<Poll>, counter: nat, needRead: nat, buffer: seq<Byte>, size: nat, classId: Byte,
                 msgId: Byte): (r: (nat, seq<Byte>))
    requires counter <= 5 && size <= |buffer|
    ensures |r.1| == |buffer| && (r.0 == 0 || r.0 < size)
    decreases |polls|, 0
  {
    if polls == [] then (0, buffer)
    else if !polls[0].Got? then Reply(polls[1..], counter, needRead, buffer, size, classId, msgId)
    else if counter < 4 then
      Reply(polls[1..], NextCounter(counter, polls[0].b, classId, msgId), needRead, buffer, size, classId, msgId)
    else if counter == 4 then Reply(polls[1..], 5, polls[0].b, buffer, size, classId, msgId)
    else
      var msb: int := polls[0].b;
      ReadPayload(polls[1..], needRead + 256 * msb, buffer, size, classId, msgId)
  }

  /** The same once the length is known: a payload that does not fit, or does not come, is given up. */
  function ReadPayload(polls: seq<Poll>, need: nat, buffer: seq<Byte>, size: nat, classId: Byte, msgId: Byte)
    : (r: (nat, seq<Byte>))
    requires size <= |buffer|
    ensures |r.1| == |buffer| && (r.0 == 0 || r.0 < size)
    decreases |polls|, 1
  {
    if need >= size then Reply(polls, 0, need, buffer, size, classId, msgId)
    else
      var (got, used) := Take(polls, need);
      var buffer' := Overwrite(buffer, got);
      if |got| == need then (need, buffer') else Reply(polls[used..], 0, need, buffer', size, classId, msgId)
  }

  /** What a blocking read does, seen from a place inside it. */
  ghost predicate TakenSoFar(polls: seq<Poll>, start: nat, count: nat, bytes: seq<Byte>, next: nat)
    requires start <= next <= |polls| && |bytes| <= count
  {
    var (all, used) := Take(polls[start..], count);
    var (rest, more) := Take(polls[next..], count - |bytes|);
    all == bytes + rest && used == next - start + more
  }

  lemma TakeOneMore(polls: seq<Poll>, start: nat, count: nat, bytes: seq<Byte>, next: nat)
    requires start <= next < |polls| && |bytes| < count && !polls[next].Gap?
    requires TakenSoFar(polls, start, count, bytes, next)
    ensures TakenSoFar(polls, start, count, if polls[next].Got? then bytes + [polls[next].b] else bytes, next + 1)
  {
    assert polls[next..][0] == polls[next] && polls[next..][1..] == polls[next + 1..];
    if polls[next].Got? {
      var rest := Take(polls[next + 1..], count - |bytes| - 1).0;
      assert bytes + ([polls[next].b] + rest) == bytes + [polls[next].b] + rest;
    }
  }

  lemma TakeDone(polls: seq<Poll>, start: nat, count: nat, bytes: seq<Byte>, next: nat)
    requires start <= next <= |polls| && |bytes| <= count && TakenSoFar(polls, start, count, bytes, next)
    requires next == |polls| || |bytes| == count || polls[next].Gap?
    ensures Take(polls[start..], count)
         == (bytes, next - start + if |bytes| < count && next < |polls| then 1 else 0)
  {
    assert bytes + [] == bytes;
  }

  lemma WrittenOver(now: seq<Byte>, was: seq<Byte>, got: nat)
    requires got <= |now| == |was| && now[got..] == was[got..]
    ensures now == Overwrite(was, now[..got])
  {
    assert now == now[..got] + now[got..];
  }

  /** Reads up to count bytes to the start of the buffer, until the port goes silent. */
  method ReadBytes(polls: seq<Poll>, start: nat, buffer: array<Byte>, count: nat) returns (got: nat, next: nat)
    requires start <= |polls| && count <= buffer.Length
    modifies buffer
    ensures var (bytes, used) := Take(polls[start..], count);
            got == |bytes| && next == start + used && buffer[..] == Overwrite(old(buffer[..]), bytes)
  {
    got, next := 0, start;
    while got < count && next < |polls| && !polls[next].Gap?
      invariant start <= next <= |polls| && got <= count
      invariant buffer[got..] == old(buffer[got..])
      invariant TakenSoFar(polls, start, count, buffer[..got], next)
      decreases |polls| - next
    {
      ghost var bytes := buffer[..got];
      TakeOneMore(polls, start, count, bytes, next);
      if polls[next].Got? {
        buffer[got] := polls[next].b;
        got := got + 1;
        assert buffer[..got] == bytes + [polls[next].b];
      }
      next := next + 1;
    }
    TakeDone(polls, start, count, buffer[..got], next);
    WrittenOver(buffer[..], old(buffer[..]), got);
    if got < count && next < |polls| {
      next := next + 1;
    }
  }

  /** Waits for a frame of a class and id, and returns the length of its payload, read to the start of the buffer. */
  method GetPayload(polls: seq<Poll>, buffer: array<Byte>, size: nat, classId: Byte, msgId: Byte) returns (length: nat)
    requires size <= buffer.Length
    modifies buffer
    ensures (length, buffer[..]) == Reply(polls, 0, 0, old(buffer[..]), size, classId, msgId)
  {
    var i, ubxFrameCounter, needRead: nat := 0, 0, 0;
    ghost var outcome := Reply(polls, 0, 0, buffer[..], size, classId, msgId);
    while i < |polls|
      invariant i <= |polls| && ubxFrameCounter <= 5
      invariant Reply(polls[i..], ubxFrameCounter, needRead, buffer[..], size, classId, msgId) == outcome
    {
      assert polls[i..][0] == polls[i] && polls[i..][1..] == polls[i + 1..];
      if polls[i].Got? {
        var c: int := polls[i].b;
        if ubxFrameCounter < 4 {
          ubxFrameCounter := NextCounter(ubxFrameCounter, c, classId, msgId);
        } else if ubxFrameCounter == 4 {
          needRead := c;
          ubxFrameCounter := 5;
        } else {
          needRead := needRead + 256 * c;
          ubxFrameCounter := 0;
          if needRead < size {
            var got, next := ReadBytes(polls, i + 1, buffer, needRead);
            if got == needRead {
              return needRead;
            }
            assert polls[i + 1..][next - (i + 1)..] == polls[next..];
            i := next - 1;
          }
        }
      }
      i := i + 1;
    }
    return 0;
  }

  /** A blocking read gets just the next bytes to arrive. */
  lemma {:induction false} TakeHears(polls: seq<Poll>, n: nat)
    ensures var (got, used) := Take(polls, n);
            Heard(polls) == got + Heard(polls[used..])
  {
    if n == 0 || polls == [] || polls[0].Gap? {
      assert polls[0..] == polls;
    } else {
      var left := if polls[0].Got? then n - 1 else n;
      TakeHears(polls[1..], left);
      var used := Take(polls[1..], left).1;
      assert polls[1..][used..] == polls[used + 1..];
    }
  }

  /** It gets all it asks for when there is no silence before it has that much. */
  lemma {:induction false} TakeAll(polls: seq<Poll>, n: nat)
    requires Steady(polls) && n <= |Heard(polls)|
    ensures |Take(polls, n).0| == n
  {
    if n > 0 {
      TakeAll(polls[1..], if polls[0].Got? then n - 1 else n);
    }
  }

  function Header(classId: Byte, msgId: Byte, length: nat): seq<Byte>
    requires length < 65536
  {
    [SYNC1, SYNC2, classId, msgId, length % 256, length / 256]
  }

  /** From inside the header on, the rest of the header leads to the payload. */
  lemma {:induction false} HeaderThenPayload(before: seq<Poll>, rest: seq<Poll>, c: nat, need: nat, buffer: seq<Byte>,
                                             size: nat, classId: Byte, msgId: Byte, length: nat)
    requires c <= 5 && size <= |buffer| && length < 65536
    requires before != [] && before[|before| - 1].Got?
    requires Heard(before) == Header(classId, msgId, length)[c..]
    requires c == 5 ==> need == length % 256
    ensures Reply(before + rest, c, need, buffer, size, classId, msgId)
         == ReadPayload(rest, length, buffer, size, classId, msgId)
    decreases |before|
  {
    var header := Header(classId, msgId, length);
    assert (before + rest)[1..] == before[1..] + rest;
    if |before| > 1 {
      HeardLast(before[1..]);
      assert before[1..][|before| - 2] == before[|before| - 1];
    }
    if before[0].Got? {
      assert before[0].b == header[c..][0] == header[c];
      assert Heard(before[1..]) == header[c..][1..] == header[c + 1..];
      if c < 5 {
        HeaderThenPayload(before[1..], rest, c + 1, if c == 4 then before[0].b else need, buffer, size, classId, msgId,
                          length);
      } else {
        assert before[1..] + rest == rest;
      }
    } else {
      HeaderThenPayload(before[1..], rest, c, need, buffer, size, classId, msgId, length);
    }
  }

  lemma {:induction false} NoiseThenHeader(before: seq<Poll>, rest: seq<Poll>, need: nat, noise: seq<Byte>,
                                           buffer: seq<Byte>, size: nat, classId: Byte, msgId: Byte, length: nat)
    requires size <= |buffer| && length < 65536 && SYNC1 !in noise
    requires before != [] && before[|before| - 1].Got?
    requires Heard(before) == noise + Header(classId, msgId, length)
    ensures Reply(before + rest, 0, need, buffer, size, classId, msgId)
         == ReadPayload(rest, length, buffer, size, classId, msgId)
    decreases |before|
  {
    var header := Header(classId, msgId, length);
    if noise == [] {
      assert noise + header == header[0..];
      HeaderThenPayload(before, rest, 0, need, buffer, size, classId, msgId, length);
    } else {
      assert (before + rest)[1..] == before[1..] + rest;
      assert |before| > 1 ==> before[1..][|before| - 2] == before[|before| - 1];
      assert (noise + header)[1..] == noise[1..] + header;
      if before[0].Got? {
        assert before[0].b == (noise + header)[0] == noise[0];
        NoiseThenHeader(before[1..], rest, need, noise[1..], buffer, size, classId, msgId, length);
      } else {
        NoiseThenHeader(before[1..], rest, need, noise, buffer, size, classId, msgId, length);
      }
    }
  }

  lemma PayloadTaken(during: seq<Poll>, buffer: seq<Byte>, size: nat, classId: Byte, msgId: Byte, payload: seq<Byte>)
    requires |payload| < size <= |buffer| && Steady(during) && payload <= Heard(during)
    ensures ReadPayload(during, |payload|, buffer, size, classId, msgId) == (|payload|, Overwrite(buffer, payload))
  {
    TakeHears(during, |payload|);
    TakeAll(during, |payload|);
    assert Take(during, |payload|).0 == Heard(during)[..|payload|] == payload;
  }

  /** The reader gives back the payload of a built frame, after any bytes without the first sync byte and whatever
      pauses there are, as long as the port does not go silent inside the payload. */
  lemma PayloadRoundTrip(before: seq<Poll>, during: seq<Poll>, noise: seq<Byte>, buffer: seq<Byte>, size: nat,
                         classId: Byte, msgId: Byte, payload: seq<Byte>)
    requires 1 <= |payload| <= SCRATCH_SIZE - 8 && |payload| < size <= |buffer| && SYNC1 !in noise
    requires before != [] && before[|before| - 1].Got? && Steady(during)
    requires Heard(before) == noise + Frame(classId, msgId, payload)[..6]
    requires Frame(classId, msgId, payload)[6..] <= Heard(during)
    ensures Reply(before + during, 0, 0, buffer, size, classId, msgId) == (|payload|, Overwrite(buffer, payload))
  {
    var frame := Frame(classId, msgId, payload);
    assert frame[..6] == Header(classId, msgId, |payload|);
    assert frame[6..][..|payload|] == payload;
    NoiseThenHeader(before, during, 0, noise, buffer, size, classId, msgId, |payload|);
    PayloadTaken(during, buffer, size, classId, msgId, payload);
  }

  /** Whatever the two bytes are that stand where a frame has its checksum, the payload before them is returned; and the
      frame was intact exactly when they are its checksum. */
  lemma ChecksumUnread(before: seq<Poll>, during: seq<Poll>, noise: seq<Byte>, buffer: seq<Byte>, size: nat,
                       classId: Byte, msgId: Byte, payload: seq<Byte>, ckA: Byte, ckB: Byte)
    requires |payload| <= SCRATCH_SIZE - 8 && |payload| < size <= |buffer| && SYNC1 !in noise
    requires before != [] && before[|before| - 1].Got? && Steady(during)
    requires Heard(before) == noise + Header(classId, msgId, |payload|)
    requires payload + [ckA, ckB] <= Heard(during)
    ensures Reply(before + during, 0, 0, buffer, size, classId, msgId) == (|payload|, Overwrite(buffer, payload))
    ensures Header(classId, msgId, |payload|) + payload + [ckA, ckB] == Frame(classId, msgId, payload)
       <==> (ckA, ckB) == Checksum(Body(classId, msgId, payload))
  {
    assert (payload + [ckA, ckB])[..|payload|] == payload;
    NoiseThenHeader(before, during, 0, noise, buffer, size, classId, msgId, |payload|);
    PayloadTaken(during, buffer, size, classId, msgId, payload);
    FrameParts(classId, msgId, payload, ckA, ckB);
  }

  lemma FrameParts(classId: Byte, msgId: Byte, payload: seq<Byte>, ckA: Byte, ckB: Byte)
    requires |payload| < 256
    ensures Header(classId, msgId, |payload|) + payload + [ckA, ckB] == Frame(classId, msgId, payload)
       <==> (ckA, ckB) == Checksum(Body(classId, msgId, payload))
  {
    var start := Header(classId, msgId, |payload|) + payload;
    var sum := Checksum(Body(classId, msgId, payload));
    assert start == [SYNC1, SYNC2] + Body(classId, msgId, payload);
    assert Frame(classId, msgId, payload) == start + [sum.0, sum.1];
    assert (start + [ckA, ckB])[|start|..] == [ckA, ckB] && (start + [sum.0, sum.1])[|start|..] == [sum.0, sum.1];
  }

  /** Where no first sync byte is heard, nothing is returned. */
  lemma {:induction false} NothingSent(polls: seq<Poll>, need: nat, buffer: seq<Byte>, size: nat, classId: Byte,
                                       msgId: Byte)
    requires size <= |buffer| && SYNC1 !in Heard(polls)
    ensures Reply(polls, 0, need, buffer, size, classId, msgId) == (0, buffer)
    decreases |polls|
  {
    if polls != [] {
      if polls[0].Got? {
        assert polls[0].b == Heard(polls)[0];
        assert forall b :: b in Heard(polls[1..]) ==> b in Heard(polls);
      }
      NothingSent(polls[1..], need, buffer, size, classId, msgId);
    }
  }

  /** A length of zero is answered like silence, and so is one that does not fit. So for a frame that arrives whole, a
      result of zero means that none was sent exactly when its payload is not empty and fits the buffer. */
  lemma ZeroReplyIff(before: seq<Poll>, during: seq<Poll>, noise: seq<Byte>, buffer: seq<Byte>, size: nat,
                     classId: Byte, msgId: Byte, payload: seq<Byte>)
    requires size <= |buffer| && |payload| < 65536 && SYNC1 !in noise
    requires before != [] && before[|before| - 1].Got? && Steady(during)
    requires Heard(before) == noise + Header(classId, msgId, |payload|) && payload <= Heard(during)
    requires |payload| >= size ==> SYNC1 !in Heard(during)
    ensures var reply := Reply(before + during, 0, 0, buffer, size, classId, msgId);
            (reply.0 == 0 <==> payload == [] || |payload| >= size) && (reply.0 == 0 ==> reply == (0, buffer))
  {
    NoiseThenHeader(before, during, 0, noise, buffer, size, classId, msgId, |payload|);
    if |payload| < size {
      PayloadTaken(during, buffer, size, classId, msgId, payload);
      assert Overwrite(buffer, []) == buffer;
    } else {
      NothingSent(during, |payload|, buffer, size, classId, msgId);
    }
  }

  // ---- A stray start of a frame ----

  /** From inside a header, a first sync byte that does not belong there puts an end to it. */
  lemma {:induction false} SyncInsideHeader(polls: seq<Poll>, c: nat, need: nat, tail: seq<Byte>, buffer: seq<Byte>,
                                            size: nat, classId: Byte, msgId: Byte)
    requires 1 <= c <= 5 && size <= |buffer| && size <= 256 * SYNC2 + SYNC1
    requires Heard(polls) == [SYNC1, SYNC2] + tail && SYNC1 !in tail && classId != SYNC1 && msgId != SYNC1
    ensures Reply(polls, c, need, buffer, size, classId, msgId) == (0, buffer)
    decreases |polls|
  {
    if polls[0].Got? {
      var b := polls[0].b;
      assert b == Heard(polls)[0] == SYNC1;
      assert Heard(polls[1..]) == Heard(polls)[1..] == [SYNC2] + tail;
      if c == 4 {
        SyncAsLength(polls[1..], tail, buffer, size, classId, msgId);
      } else {
        NothingSent(polls[1..], if c == 5 then need + 256 * (b as int) else need, buffer, size, classId, msgId);
      }
    } else {
      SyncInsideHeader(polls[1..], c, need, tail, buffer, size, classId, msgId);
    }
  }

  lemma {:induction false} SyncAsLength(polls: seq<Poll>, tail: seq<Byte>, buffer: seq<Byte>, size: nat,
                                        classId: Byte, msgId: Byte)
    requires size <= |buffer| && size <= 256 * SYNC2 + SYNC1
    requires Heard(polls) == [SYNC2] + tail && SYNC1 !in tail
    ensures Reply(polls, 5, SYNC1, buffer, size, classId, msgId) == (0, buffer)
    decreases |polls|
  {
    if polls[0].Got? {
      assert polls[0].b == Heard(polls)[0] == SYNC2;
      assert Heard(polls[1..]) == Heard(polls)[1..] == tail;
      NothingSent(polls[1..], SYNC1 + 256 * SYNC2, buffer, size, classId, msgId);
    } else {
      SyncAsLength(polls[1..], tail, buffer, size, classId, msgId);
    }
  }

  /** Exactly when a reader that waits for a frame, or is inside a header, returns the payload of a frame that arrives:
      when it is not inside a header. That is for a frame with no other first sync byte in it, and a buffer too small
      for the length its sync bytes make. What a reader does that waits for a payload, UnfinishedPayloadTakesFrame
      says. */
  lemma FrameReadIff(before: seq<Poll>, during: seq<Poll>, c: nat, need: nat, buffer: seq<Byte>, size: nat,
                     classId: Byte, msgId: Byte, payload: seq<Byte>)
    requires c <= 5 && 1 <= |payload| < size <= |buffer| && size <= 256 * SYNC2 + SYNC1
    requires before != [] && before[|before| - 1].Got? && Steady(during) && payload <= Heard(during)
    requires Heard(before) == Header(classId, msgId, |payload|)
    requires SYNC1 !in Header(classId, msgId, |payload|)[2..] && SYNC1 !in Heard(during)
    ensures var reply := Reply(before + during, c, need, buffer, size, classId, msgId);
            (reply == (|payload|, Overwrite(buffer, payload)) <==> c == 0) && (c != 0 ==> reply == (0, buffer))
  {
    var header := Header(classId, msgId, |payload|);
    if c == 0 {
      assert Heard(before) == [] + header;
      NoiseThenHeader(before, during, need, [], buffer, size, classId, msgId, |payload|);
      PayloadTaken(during, buffer, size, classId, msgId, payload);
    } else {
      HeardConcat(before, during);
      var tail := header[2..] + Heard(during);
      assert Heard(before + during) == [SYNC1, SYNC2] + tail;
      assert classId == header[2..][0] && msgId == header[2..][1];
      SyncInsideHeader(before + during, c, need, tail, buffer, size, classId, msgId);
    }
  }

  /** Stray bytes of a frame's start leave the reader inside a header. */
  lemma {:induction false} StartRead(pre: seq<Poll>, rest: seq<Poll>, from: nat, c: nat, need: nat, len: Byte,
                                     buffer: seq<Byte>, size: nat, classId: Byte, msgId: Byte) returns (need': nat)
    requires from <= c <= 5 && size <= |buffer|
    requires Heard(pre) == HeaderSoFar(c, len, classId, msgId)[from..]
    ensures Reply(pre + rest, from, need, buffer, size, classId, msgId)
         == Reply(rest, c, need', buffer, size, classId, msgId)
    decreases |pre|
  {
    var header := HeaderSoFar(c, len, classId, msgId);
    if pre == [] {
      assert pre + rest == rest;
      assert header[from..] == [] && from == c;
      need' := need;
    } else {
      assert (pre + rest)[1..] == pre[1..] + rest;
      if pre[0].Got? {
        var b := pre[0].b;
        assert b == header[from..][0] == header[from];
        assert Heard(pre[1..]) == header[from..][1..] == header[from + 1..];
        var need := if from == 4 then b else need;
        need' := StartRead(pre[1..], rest, from + 1, c, need, len, buffer, size, classId, msgId);
      } else {
        need' := StartRead(pre[1..], rest, from, c, need, len, buffer, size, classId, msgId);
      }
    }
  }

  /** So a frame after c stray bytes of a frame's start, which nothing follows, is returned exactly when c is zero. */
  lemma StrayStartLosesPayload(pre: seq<Poll>, before: seq<Poll>, during: seq<Poll>, c: nat, len: Byte,
                               buffer: seq<Byte>, size: nat, classId: Byte, msgId: Byte, payload: seq<Byte>)
    requires c <= 5 && 1 <= |payload| < size <= |buffer| && size <= 256 * SYNC2 + SYNC1
    requires before != [] && before[|before| - 1].Got? && Steady(during) && payload <= Heard(during)
    requires Heard(pre) == HeaderSoFar(c, len, classId, msgId)
    requires Heard(before) == Header(classId, msgId, |payload|)
    requires SYNC1 !in Header(classId, msgId, |payload|)[2..] && SYNC1 !in Heard(during)
    ensures var reply := Reply(pre + (before + during), 0, 0, buffer, size, classId, msgId);
            (reply == (|payload|, Overwrite(buffer, payload)) <==> c == 0) && (c != 0 ==> reply == (0, buffer))
  {
    assert HeaderSoFar(c, len, classId, msgId)[0..] == HeaderSoFar(c, len, classId, msgId);
    var need := StartRead(pre, before + during, 0, c, 0, len, buffer, size, classId, msgId);
    FrameReadIff(before, during, c, need, buffer, size, classId, msgId, payload);
  }

  // ---- An unfinished payload ----

  /** A blocking read that asks for more than comes takes all of it. */
  lemma {:induction false} TakeShort(polls: seq<Poll>, n: nat)
    requires Steady(polls) && n > |Heard(polls)|
    ensures Take(polls, n) == (Heard(polls), |polls|)
  {
    if polls != [] {
      TakeShort(polls[1..], if polls[0].Got? then n - 1 else n);
    }
  }

  /** A reader that still waits for the payload of a frame that was cut off takes the bytes of the next frame for it.
      What it returns is that payload, or nothing; and never the payload of the frame that arrived, unless that is empty
      or has a first sync byte in it. */
  lemma UnfinishedPayloadTakesFrame(before: seq<Poll>, during: seq<Poll>, noise: seq<Byte>, length: nat,
                                    part: seq<Byte>, buffer: seq<Byte>, size: nat, classId: Byte, msgId: Byte,
                                    payload: seq<Byte>)
    requires |part| < length < size <= |buffer| && length < 65536 && SYNC1 !in noise
    requires |payload| < 256 && before != [] && before[|before| - 1].Got? && Steady(during)
    requires Heard(before) == noise + Header(classId, msgId, length)
    requires Heard(during) == part + Frame(classId, msgId, payload)
    ensures var all := part + Frame(classId, msgId, payload);
            var reply := Reply(before + during, 0, 0, buffer, size, classId, msgId);
            && reply == (if length <= |all| then (length, Overwrite(buffer, all[..length]))
                         else (0, Overwrite(buffer, all)))
            && (payload != [] && SYNC1 !in payload ==> reply.0 != |payload| || reply.1[..reply.0] != payload)
  {
    var all := part + Frame(classId, msgId, payload);
    NoiseThenHeader(before, during, 0, noise, buffer, size, classId, msgId, length);
    if length <= |all| {
      PayloadTaken(during, buffer, size, classId, msgId, all[..length]);
      assert Overwrite(buffer, all[..length])[..length][|part|] == all[|part|] == SYNC1;
    } else {
      TakeShort(during, length);
      assert during[|during|..] == [];
    }
  }

  ghost predicate At(bytes: seq<Byte>, k: int, piece: seq<Byte>) {
    0 <= k <= |bytes| - |piece| && bytes[k..k + |piece|] == piece
  }

  ghost predicate Sent(bytes: seq<Byte>, piece: seq<Byte>) {
    exists k :: At(bytes, k, piece)
  }

  function HeaderSoFar(c: nat, need: nat, classId: Byte, msgId: Byte): seq<Byte>
    requires c <= 5 && (c == 5 ==> need < 256)
  {
    [SYNC1, SYNC2, classId, msgId, if c == 5 then need else 0][..c]
  }

  lemma OneMoreOfHeader(seen: seq<Byte>, c: nat, need: nat, b: Byte, classId: Byte, msgId: Byte)
    requires c < 5 && EndsWith(seen, HeaderSoFar(c, need, classId, msgId))
    ensures var next := if c < 4 then NextCounter(c, b, classId, msgId) else 5;
            EndsWith(seen + [b], HeaderSoFar(next, b, classId, msgId))
  {
    var next := if c < 4 then NextCounter(c, b, classId, msgId) else 5;
    if next == c + 1 {
      HeaderGrows(c, need, next, b, classId, msgId);
      EndsWithOneMore(seen, HeaderSoFar(c, need, classId, msgId), b);
    } else {
      assert next == 0;
    }
  }

  lemma HeaderGrows(c: nat, need: nat, next: nat, b: Byte, classId: Byte, msgId: Byte)
    requires c < 5 && next == c + 1
    requires c == 4 || next == NextCounter(c, b, classId, msgId)
    ensures HeaderSoFar(next, b, classId, msgId) == HeaderSoFar(c, need, classId, msgId) + [b]
  {
    if c == 4 {
    } else if c == 3 {
    } else if c == 2 {
    } else if c == 1 {
    }
  }

  lemma EndsWithOneMore(seen: seq<Byte>, tail: seq<Byte>, b: Byte)
    requires EndsWith(seen, tail)
    ensures EndsWith(seen + [b], tail + [b])
  {
    assert (seen + [b])[|seen| - |tail|..] == seen[|seen| - |tail|..] + [b];
  }

  lemma PieceSent(seen: seq<Byte>, need: Byte, msb: Byte, got: seq<Byte>, after: seq<Byte>, classId: Byte, msgId: Byte)
    requires EndsWith(seen, HeaderSoFar(5, need, classId, msgId))
    requires |got| == need + 256 * (msb as int)
    ensures Sent(seen + [msb] + got + after, Header(classId, msgId, |got|) + got)
  {
    var all, k := seen + [msb] + got + after, |seen| - 5;
    var piece := Header(classId, msgId, |got|) + got;
    assert seen[k..] == [SYNC1, SYNC2, classId, msgId, need];
    assert all[k..k + |piece|] == seen[k..] + [msb] + got;
    assert |got| % 256 == need && |got| / 256 == msb;
    assert At(all, k, piece);
  }

  lemma {:induction false} ReplySentFrom(seen: seq<Byte>, polls: seq<Poll>, c: nat, need: nat, buffer: seq<Byte>,
                                         size: nat, classId: Byte, msgId: Byte)
    requires c <= 5 && size <= |buffer| && size < 65536
    requires c == 5 ==> need < 256
    requires EndsWith(seen, HeaderSoFar(c, need, classId, msgId))
    ensures var (n, buffer') := Reply(polls, c, need, buffer, size, classId, msgId);
            n > 0 ==> Sent(seen + Heard(polls), Header(classId, msgId, n) + buffer'[..n])
    decreases |polls|
  {
    if polls == [] {
    } else if !polls[0].Got? {
      ReplySentFrom(seen, polls[1..], c, need, buffer, size, classId, msgId);
    } else {
      var b: Byte := polls[0].b;
      assert seen + Heard(polls) == seen + [b] + Heard(polls[1..]);
      if c < 5 {
        OneMoreOfHeader(seen, c, need, b, classId, msgId);
        var next := if c < 4 then NextCounter(c, b, classId, msgId) else 5;
        assert next != 5 ==> HeaderSoFar(next, b, classId, msgId) == HeaderSoFar(next, need, classId, msgId);
        ReplySentFrom(seen + [b], polls[1..], next, if c == 4 then b else need, buffer, size, classId, msgId);
      } else {
        LengthRead(seen, polls, need, buffer, size, classId, msgId);
      }
    }
  }

  lemma HeardAround(seen: seq<Byte>, polls: seq<Poll>, n: nat)
    requires polls != [] && polls[0].Got?
    ensures var (got, used) := Take(polls[1..], n);
            seen + Heard(polls) == seen + [polls[0].b] + got + Heard(polls[1 + used..])
  {
    var (got, used) := Take(polls[1..], n);
    TakeHears(polls[1..], n);
    assert polls[1..][used..] == polls[1 + used..];
  }

  lemma {:induction false} LengthRead(seen: seq<Byte>, polls: seq<Poll>, need: nat, buffer: seq<Byte>, size: nat,
                                      classId: Byte, msgId: Byte)
    requires size <= |buffer| && size < 65536 && need < 256 && polls != [] && polls[0].Got?
    requires EndsWith(seen, HeaderSoFar(5, need, classId, msgId))
    ensures var (n, buffer') := Reply(polls, 5, need, buffer, size, classId, msgId);
            n > 0 ==> Sent(seen + Heard(polls), Header(classId, msgId, n) + buffer'[..n])
    decreases |polls|, 0
  {
    var b: Byte := polls[0].b;
    var n: int := need + 256 * (b as int);
    assert HeaderSoFar(0, n, classId, msgId) == [];
    if n >= size {
      assert seen + Heard(polls) == seen + [b] + Heard(polls[1..]);
      ReplySentFrom(seen + [b], polls[1..], 0, n, buffer, size, classId, msgId);
    } else {
      var (got, used) := Take(polls[1..], n);
      HeardAround(seen, polls, n);
      if |got| == n {
        PieceSent(seen, need, b, got, Heard(polls[1 + used..]), classId, msgId);
        assert Overwrite(buffer, got)[..n] == got;
      } else {
        ReplySentFrom(seen + [b] + got, polls[1 + used..], 0, n, Overwrite(buffer, got), size, classId, msgId);
      }
    }
  }

  /** A payload is returned only if it arrived in one piece behind a header with its class, id and length. */
  lemma PayloadWasSent(polls: seq<Poll>, buffer: seq<Byte>, size: nat, classId: Byte, msgId: Byte)
    requires size <= |buffer| && size < 65536
    ensures var (n, buffer') := Reply(polls, 0, 0, buffer, size, classId, msgId);
            n > 0 ==> Sent(Heard(polls), Header(classId, msgId, n) + buffer'[..n])
  {
    assert [] + Heard(polls) == Heard(polls);
    ReplySentFrom([], polls, 0, 0, buffer, size, classId, msgId);
  }
}
