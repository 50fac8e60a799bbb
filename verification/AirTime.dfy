/** Airtime accounting: short rings of counters that stand for sliding windows over everything logged. */
module AirTime {
  import opened Throttle

  type U32 = n: int | 0 <= n < TWO_TO_THE_32

  function Add32(a: U32, b: U32): U32 { (a + b) % TWO_TO_THE_32 }

  const CHANNEL_UTILIZATION_PERIODS := 6
  const SECONDS_PER_PERIOD := 3600
  const PERIODS_TO_LOG := 8
  const MINUTES_IN_HOUR := 60
  const MS_IN_HOUR := 3600000

  datatype ReportType = TX_LOG | RX_LOG | RX_ALL_LOG

  // ---- The log ----

  /** `ms` of airtime reported `at` so many seconds after boot. */
  datatype Event = Event(kind: ReportType, ms: U32, at: nat)

  const ALL: set<ReportType> := {TX_LOG, RX_LOG, RX_ALL_LOG}

  function Counted(e: Event, kinds: set<ReportType>, unit: nat, lo: int, hi: int): nat
    requires unit > 0
  {
    if e.kind in kinds && lo <= e.at / unit <= hi then e.ms else 0
  }

  /** All airtime of these kinds logged in the periods lo..hi, for periods of `unit` seconds. */
  function Logged(log: seq<Event>, kinds: set<ReportType>, unit: nat, lo: int, hi: int): nat
    requires unit > 0
  {
    if log == [] then 0
    else Logged(log[..|log| - 1], kinds, unit, lo, hi) + Counted(log[|log| - 1], kinds, unit, lo, hi)
  }

  function Wrapped(n: nat): U32 { n % TWO_TO_THE_32 }

  lemma WrappedSum(a: nat, b: nat)
    ensures Wrapped(a + b) == Add32(Wrapped(a), Wrapped(b))
  {}

  lemma WrappedSmall(a: U32)
    ensures Wrapped(a) == a
  {}

  lemma {:induction false} LoggedJoins(log: seq<Event>, kinds: set<ReportType>, unit: nat, lo: int, mid: int, hi: int)
    requires unit > 0 && lo <= mid + 1 <= hi + 1
    ensures Logged(log, kinds, unit, lo, hi)
         == Logged(log, kinds, unit, lo, mid) + Logged(log, kinds, unit, mid + 1, hi)
  {
    if log != [] { LoggedJoins(log[..|log| - 1], kinds, unit, lo, mid, hi); }
  }

  lemma {:induction false} LoggedNone(log: seq<Event>, kinds: set<ReportType>, unit: nat, lo: int, hi: int)
    requires unit > 0
    requires hi < lo || hi < 0 || forall e :: e in log ==> e.at / unit < lo
    ensures Logged(log, kinds, unit, lo, hi) == 0
  {
    if log != [] {
      assert log[|log| - 1] in log;
      LoggedNone(log[..|log| - 1], kinds, unit, lo, hi);
    }
  }

  // ---- Rings ----

  /** Which period slot j of a ring of n stands for, when the current period is `cur`. */
  function PeriodAt(cur: nat, j: nat, n: nat): int
    requires n > 0
  {
    if j <= cur % n then cur - cur % n + j else cur - cur % n + j - n
  }

  ghost predicate IsRing(ring: seq<U32>, log: seq<Event>, kinds: set<ReportType>, unit: nat, cur: nat)
    requires unit > 0
  {
    |ring| > 0 && forall j :: 0 <= j < |ring| ==> SlotRight(ring, j, log, kinds, unit, cur)
  }

  ghost predicate SlotRight(ring: seq<U32>, j: nat, log: seq<Event>, kinds: set<ReportType>, unit: nat, cur: nat)
    requires unit > 0 && j < |ring|
  {
    var k := PeriodAt(cur, j, |ring|);
    ring[j] == Wrapped(Logged(log, kinds, unit, k, k))
  }

  /** Logging adds to the slot of the current period. */
  lemma RingLogs(ring: seq<U32>, after: seq<U32>, log: seq<Event>, longer: seq<Event>, kinds: set<ReportType>,
                 unit: nat, cur: nat)
    requires longer != [] && log == longer[..|longer| - 1]
    requires unit > 0 && IsRing(ring, log, kinds, unit, cur) && longer[|longer| - 1].at / unit == cur
    requires var e, s := longer[|longer| - 1], cur % |ring|;
             after == if e.kind in kinds then ring[s := Add32(ring[s], e.ms)] else ring
    ensures IsRing(after, longer, kinds, unit, cur)
  {
    forall j | 0 <= j < |ring|
      ensures SlotRight(after, j, longer, kinds, unit, cur)
    {
      assert SlotRight(ring, j, log, kinds, unit, cur);
      AddLast(log, longer, kinds, unit, PeriodAt(cur, j, |ring|));
    }
  }

  lemma AddLast(log: seq<Event>, longer: seq<Event>, kinds: set<ReportType>, unit: nat, k: int)
    requires longer != [] && log == longer[..|longer| - 1] && unit > 0
    ensures var e := longer[|longer| - 1];
            Wrapped(Logged(longer, kinds, unit, k, k))
            == if e.kind in kinds && e.at / unit == k then Add32(Wrapped(Logged(log, kinds, unit, k, k)), e.ms)
               else Wrapped(Logged(log, kinds, unit, k, k))
  {
    WrappedSum(Logged(log, kinds, unit, k, k), longer[|longer| - 1].ms);
    WrappedSmall(longer[|longer| - 1].ms);
  }

  /** When a new period begins, its slot is cleared; all others keep their period. */
  lemma RingTurns(ring: seq<U32>, log: seq<Event>, kinds: set<ReportType>, unit: nat, cur: nat)
    requires unit > 0 && IsRing(ring, log, kinds, unit, cur)
    requires |ring| == CHANNEL_UTILIZATION_PERIODS || |ring| == MINUTES_IN_HOUR
    requires forall e :: e in log ==> e.at / unit <= cur
    ensures IsRing(ring[(cur + 1) % |ring| := 0], log, kinds, unit, cur + 1)
  {
    var n, s := |ring|, (cur + 1) % |ring|;
    var after, next := ring[s := 0], cur + 1;
    forall j | 0 <= j < n
      ensures SlotRight(after, j, log, kinds, unit, next)
    {
      PeriodTurns(cur, j, n);
      if j == s {
        LoggedNone(log, kinds, unit, cur + 1, cur + 1);
      } else {
        assert SlotRight(ring, j, log, kinds, unit, cur);
      }
    }
  }

  lemma PeriodTurns(cur: nat, j: nat, n: nat)
    requires j < n && (n == CHANNEL_UTILIZATION_PERIODS || n == MINUTES_IN_HOUR)
    ensures PeriodAt(cur + 1, j, n) == if j == (cur + 1) % n then cur + 1 else PeriodAt(cur, j, n)
  {
    if n == CHANNEL_UTILIZATION_PERIODS {
      assert (cur + 1) % 6 == if cur % 6 == 5 then 0 else cur % 6 + 1;
    } else {
      assert (cur + 1) % 60 == if cur % 60 == 59 then 0 else cur % 60 + 1;
    }
  }

  /** The periods that the first i slots stand for: from slot 0 on up to the current one, then the oldest. */
  function SumTo(log: seq<Event>, kinds: set<ReportType>, unit: nat, cur: nat, i: nat, n: nat): nat
    requires unit > 0 && n > 0 && i <= n
  {
    var s := cur % n;
    if i <= s + 1 then Logged(log, kinds, unit, cur - s, cur - s + i - 1)
    else Logged(log, kinds, unit, cur - s, cur) + Logged(log, kinds, unit, cur - n + 1, cur - s + i - 1 - n)
  }

  lemma SumNext(log: seq<Event>, kinds: set<ReportType>, unit: nat, cur: nat, i: nat, n: nat)
    requires unit > 0 && i < n
    ensures var k := PeriodAt(cur, i, n);
            SumTo(log, kinds, unit, cur, i + 1, n)
            == SumTo(log, kinds, unit, cur, i, n) + Logged(log, kinds, unit, k, k)
  {
    var s := cur % n;
    if i <= s {
      LoggedJoins(log, kinds, unit, cur - s, cur - s + i - 1, cur - s + i);
    } else {
      LoggedJoins(log, kinds, unit, cur - n + 1, cur - s + i - 1 - n, cur - s + i - n);
      if i == s + 1 { LoggedNone(log, kinds, unit, cur - n + 1, cur - n); }
    }
  }

  lemma SumAll(log: seq<Event>, kinds: set<ReportType>, unit: nat, cur: nat, n: nat)
    requires unit > 0 && n > 0
    ensures SumTo(log, kinds, unit, cur, n, n) == Logged(log, kinds, unit, cur - n + 1, cur)
  {
    var s := cur % n;
    LoggedJoins(log, kinds, unit, cur - n + 1, cur - s - 1, cur);
    if n == s + 1 { LoggedNone(log, kinds, unit, cur - n + 1, cur - s - 1); }
  }

  /** The sum of a ring is all that was logged in its window, both modulo 2^32. */
  method SumRing(ring: array<U32>, ghost log: seq<Event>, ghost kinds: set<ReportType>, ghost unit: nat,
                 ghost cur: nat) returns (sum: U32)
    requires unit > 0 && IsRing(ring[..], log, kinds, unit, cur)
    ensures sum == Wrapped(Logged(log, kinds, unit, cur - ring.Length + 1, cur))
  {
    sum := 0;
    LoggedNone(log, kinds, unit, cur - cur % ring.Length, cur - cur % ring.Length - 1);
    for i := 0 to ring.Length
      invariant sum == Wrapped(SumTo(log, kinds, unit, cur, i, ring.Length))
    {
      assert SlotRight(ring[..], i, log, kinds, unit, cur);
      var k := PeriodAt(cur, i, ring.Length);
      SumNext(log, kinds, unit, cur, i, ring.Length);
      WrappedSum(SumTo(log, kinds, unit, cur, i, ring.Length), Logged(log, kinds, unit, k, k));
      sum := Add32(sum, ring[i]);
    }
    SumAll(log, kinds, unit, cur, ring.Length);
  }

  // ---- Histories ----

  /** Entry k is what was logged k periods ago. */
  ghost predicate IsHistory(history: seq<U32>, log: seq<Event>, kind: ReportType, cur: nat) {
    |history| == PERIODS_TO_LOG && forall k :: 0 <= k < PERIODS_TO_LOG ==> EntryRight(history, k, log, kind, cur)
  }

  ghost predicate EntryRight(history: seq<U32>, k: nat, log: seq<Event>, kind: ReportType, cur: nat)
    requires k < |history|
  {
    history[k] == Wrapped(Logged(log, {kind}, SECONDS_PER_PERIOD, cur - k, cur - k))
  }

  lemma HistoryLogs(history: seq<U32>, after: seq<U32>, log: seq<Event>, longer: seq<Event>, kind: ReportType, cur: nat)
    requires longer != [] && log == longer[..|longer| - 1]
    requires IsHistory(history, log, kind, cur) && longer[|longer| - 1].at / SECONDS_PER_PERIOD == cur
    requires var e := longer[|longer| - 1];
             after == if e.kind == kind then history[0 := Add32(history[0], e.ms)] else history
    ensures IsHistory(after, longer, kind, cur)
  {
    forall k | 0 <= k < PERIODS_TO_LOG
      ensures EntryRight(after, k, longer, kind, cur)
    {
      assert EntryRight(history, k, log, kind, cur);
      AddLast(log, longer, {kind}, SECONDS_PER_PERIOD, cur - k);
    }
  }

  lemma HistoryRotates(history: seq<U32>, log: seq<Event>, kind: ReportType, cur: nat)
    requires IsHistory(history, log, kind, cur)
    requires forall e :: e in log ==> e.at / SECONDS_PER_PERIOD <= cur
    ensures IsHistory([0] + history[..PERIODS_TO_LOG - 1], log, kind, cur + 1)
  {
    var after, next := [0] + history[..PERIODS_TO_LOG - 1], cur + 1;
    forall k | 0 <= k < PERIODS_TO_LOG
      ensures EntryRight(after, k, log, kind, next)
    {
      if k == 0 {
        LoggedNone(log, {kind}, SECONDS_PER_PERIOD, cur + 1, cur + 1);
      } else {
        assert EntryRight(history, k - 1, log, kind, cur);
      }
    }
  }

  lemma EmptyRing(ring: seq<U32>, kinds: set<ReportType>, unit: nat, cur: nat)
    requires unit > 0 && |ring| > 0 && forall j :: 0 <= j < |ring| ==> ring[j] == 0
    ensures IsRing(ring, [], kinds, unit, cur)
  {}

  lemma EmptyHistory(history: seq<U32>, kind: ReportType, cur: nat)
    requires |history| == PERIODS_TO_LOG && forall k :: 0 <= k < PERIODS_TO_LOG ==> history[k] == 0
    ensures IsHistory(history, [], kind, cur)
  {}

  /** All counters at once. */
  datatype Counters = Counters(channel: seq<U32>, minutesTX: seq<U32>, tx: seq<U32>, rx: seq<U32>, rxAll: seq<U32>)

  ghost predicate Agree(c: Counters, log: seq<Event>, t: nat) {
    && |c.channel| == CHANNEL_UTILIZATION_PERIODS && |c.minutesTX| == MINUTES_IN_HOUR
    && (forall e :: e in log ==> e.at <= t)
    && IsRing(c.channel, log, ALL, 10, t / 10)
    && IsRing(c.minutesTX, log, {TX_LOG}, 60, t / 60)
    && IsHistory(c.tx, log, TX_LOG, t / SECONDS_PER_PERIOD)
    && IsHistory(c.rx, log, RX_LOG, t / SECONDS_PER_PERIOD)
    && IsHistory(c.rxAll, log, RX_ALL_LOG, t / SECONDS_PER_PERIOD)
  }

  /** What logging adds to. */
  function AfterLog(c: Counters, t: nat, kind: ReportType, ms: U32): Counters
    requires |c.channel| == CHANNEL_UTILIZATION_PERIODS && |c.minutesTX| == MINUTES_IN_HOUR
    requires |c.tx| == |c.rx| == |c.rxAll| == PERIODS_TO_LOG
  {
    var i, j := t / 10 % CHANNEL_UTILIZATION_PERIODS, t / 60 % MINUTES_IN_HOUR;
    Counters(
      c.channel[i := Add32(c.channel[i], ms)],
      if kind.TX_LOG? then c.minutesTX[j := Add32(c.minutesTX[j], ms)] else c.minutesTX,
      if kind.TX_LOG? then c.tx[0 := Add32(c.tx[0], ms)] else c.tx,
      if kind.RX_LOG? then c.rx[0 := Add32(c.rx[0], ms)] else c.rx,
      if kind.RX_ALL_LOG? then c.rxAll[0 := Add32(c.rxAll[0], ms)] else c.rxAll)
  }

  lemma LogAgrees(c: Counters, log: seq<Event>, t: nat, kind: ReportType, ms: U32)
    requires Agree(c, log, t)
    ensures Agree(AfterLog(c, t, kind, ms), log + [Event(kind, ms, t)], t)
  {
    var after, longer := AfterLog(c, t, kind, ms), log + [Event(kind, ms, t)];
    assert longer[..|longer| - 1] == log;
    RingLogs(c.channel, after.channel, log, longer, ALL, 10, t / 10);
    RingLogs(c.minutesTX, after.minutesTX, log, longer, {TX_LOG}, 60, t / 60);
    HistoryLogs(c.tx, after.tx, log, longer, TX_LOG, t / SECONDS_PER_PERIOD);
    HistoryLogs(c.rx, after.rx, log, longer, RX_LOG, t / SECONDS_PER_PERIOD);
    HistoryLogs(c.rxAll, after.rxAll, log, longer, RX_ALL_LOG, t / SECONDS_PER_PERIOD);
  }

  function Back(history: seq<U32>): seq<U32>
    requires |history| == PERIODS_TO_LOG
  {
    [0] + history[..PERIODS_TO_LOG - 1]
  }

  /** Every history moved back by one entry. */
  function HistoriesBack(c: Counters): Counters
    requires |c.tx| == |c.rx| == |c.rxAll| == PERIODS_TO_LOG
  {
    c.(tx := Back(c.tx), rx := Back(c.rx), rxAll := Back(c.rxAll))
  }

  /** What a tick to second t + 1 does. */
  function AfterTick(c: Counters, t: nat): Counters
    requires |c.channel| == CHANNEL_UTILIZATION_PERIODS && |c.minutesTX| == MINUTES_IN_HOUR
    requires |c.tx| == |c.rx| == |c.rxAll| == PERIODS_TO_LOG
  {
    (if (t + 1) / SECONDS_PER_PERIOD == t / SECONDS_PER_PERIOD then c else HistoriesBack(c))
    .(channel :=
        if (t + 1) / 10 == t / 10 then c.channel else c.channel[(t + 1) / 10 % CHANNEL_UTILIZATION_PERIODS := 0],
      minutesTX :=
        if (t + 1) / 60 == t / 60 then c.minutesTX else c.minutesTX[(t + 1) / 60 % MINUTES_IN_HOUR := 0])
  }

  lemma TickAgrees(c: Counters, log: seq<Event>, t: nat)
    requires Agree(c, log, t)
    ensures Agree(AfterTick(c, t), log, t + 1)
  {
    var after := AfterTick(c, t);
    RingTicks(c.channel, after.channel, log, ALL, 10, t);
    RingTicks(c.minutesTX, after.minutesTX, log, {TX_LOG}, 60, t);
    HistoryTicks(c.tx, after.tx, log, TX_LOG, t);
    HistoryTicks(c.rx, after.rx, log, RX_LOG, t);
    HistoryTicks(c.rxAll, after.rxAll, log, RX_ALL_LOG, t);
  }

  lemma NothingAgrees(c: Counters, t: nat)
    requires |c.channel| == CHANNEL_UTILIZATION_PERIODS && |c.minutesTX| == MINUTES_IN_HOUR
    requires |c.tx| == |c.rx| == |c.rxAll| == PERIODS_TO_LOG
    requires forall a, i :: a in [c.channel, c.minutesTX, c.tx, c.rx, c.rxAll] && 0 <= i < |a| ==> a[i] == 0
    ensures Agree(c, [], t)
  {
    assert forall a :: a in [c.channel, c.minutesTX, c.tx, c.rx, c.rxAll] <==>
      a == c.channel || a == c.minutesTX || a == c.tx || a == c.rx || a == c.rxAll;
    EmptyRing(c.channel, ALL, 10, t / 10);
    EmptyRing(c.minutesTX, {TX_LOG}, 60, t / 60);
    EmptyHistory(c.tx, TX_LOG, t / SECONDS_PER_PERIOD);
    EmptyHistory(c.rx, RX_LOG, t / SECONDS_PER_PERIOD);
    EmptyHistory(c.rxAll, RX_ALL_LOG, t / SECONDS_PER_PERIOD);
  }

  // ---- The object ----

  class AirTime {
    var secSinceBoot: U32
    var firstTime: bool
    var lastUtilPeriod: nat
    var lastUtilPeriodTX: nat
    var lastPeriodIndex: nat
    const channelUtilization: array<U32>
    const utilizationTX: array<U32>
    const periodTX: array<U32>
    const periodRX: array<U32>
    const periodRXAll: array<U32>
    const airPeriodTx: array<U32>
    const airPeriodRx: array<U32>

    ghost var log: seq<Event>    // what was logged since the first tick
    ghost var rotated: bool      // whether an hour has ended

    ghost predicate Separate() {
      && channelUtilization.Length == CHANNEL_UTILIZATION_PERIODS && utilizationTX.Length == MINUTES_IN_HOUR
      && periodTX.Length == PERIODS_TO_LOG && periodRX.Length == PERIODS_TO_LOG
      && periodRXAll.Length == PERIODS_TO_LOG && airPeriodTx.Length == PERIODS_TO_LOG
      && airPeriodRx.Length == PERIODS_TO_LOG
      && periodTX != periodRX && periodTX != periodRXAll && periodTX != airPeriodTx && periodTX != airPeriodRx
      && periodRX != periodRXAll && periodRX != airPeriodTx && periodRX != airPeriodRx
      && periodRXAll != airPeriodTx && periodRXAll != airPeriodRx && airPeriodTx != airPeriodRx
    }

    ghost function Values(): Counters
      reads channelUtilization, utilizationTX, periodTX, periodRX, periodRXAll
    {
      Counters(channelUtilization[..], utilizationTX[..], periodTX[..], periodRX[..], periodRXAll[..])
    }

    /** The counters agree with the log. */
    ghost predicate Valid()
      reads this, channelUtilization, utilizationTX, periodTX, periodRX, periodRXAll, airPeriodTx, airPeriodRx
    {
      && Separate()
      && Agree(Values(), log, secSinceBoot)
      && lastUtilPeriod == PeriodUtilMinute() && lastUtilPeriodTX == PeriodUtilHour()
      && lastPeriodIndex == CurrentPeriodIndex()
      && (firstTime ==> secSinceBoot == 0 && !rotated)
      && (secSinceBoot >= SECONDS_PER_PERIOD ==> rotated)
      && Copied()
    }

    /** Once an hour has ended, the public copies are the histories. */
    ghost predicate Copied()
      reads this, periodTX, periodRX, airPeriodTx, airPeriodRx
    {
      rotated ==> airPeriodTx[..] == periodTX[..] && airPeriodRx[..] == periodRX[..]
    }

    function CurrentPeriodIndex(): nat
      reads this
    {
      secSinceBoot / SECONDS_PER_PERIOD % PERIODS_TO_LOG
    }

    function PeriodUtilMinute(): nat
      reads this
    {
      secSinceBoot / 10 % CHANNEL_UTILIZATION_PERIODS
    }

    function PeriodUtilHour(): nat
      reads this
    {
      secSinceBoot / 60 % MINUTES_IN_HOUR
    }

    constructor ()
      ensures Valid() && firstTime && log == []
      ensures fresh(channelUtilization) && fresh(utilizationTX) && fresh(periodTX) && fresh(periodRX)
      ensures fresh(periodRXAll) && fresh(airPeriodTx) && fresh(airPeriodRx)
    {
      secSinceBoot, firstTime := 0, true;
      lastUtilPeriod, lastUtilPeriodTX, lastPeriodIndex := 0, 0, 0;
      channelUtilization := new U32[CHANNEL_UTILIZATION_PERIODS](i => 0);
      utilizationTX := new U32[MINUTES_IN_HOUR](i => 0);
      periodTX := new U32[PERIODS_TO_LOG](i => 0);
      periodRX := new U32[PERIODS_TO_LOG](i => 0);
      periodRXAll := new U32[PERIODS_TO_LOG](i => 0);
      airPeriodTx := new U32[PERIODS_TO_LOG](i => 0);
      airPeriodRx := new U32[PERIODS_TO_LOG](i => 0);
      log, rotated := [], false;
      new;
      NothingAgrees(Values(), secSinceBoot);
    }

    static method AddTo(a: array<U32>, i: nat, ms: U32)
      requires i < a.Length
      modifies a
      ensures a[..] == old(a[..])[i := Add32(old(a[i]), ms)]
    {
      a[i] := Add32(a[i], ms);
    }

    method LogAirtime(reportType: ReportType, ms: U32)
      requires Valid()
      modifies this`log, channelUtilization, utilizationTX, periodTX, periodRX, periodRXAll, airPeriodTx, airPeriodRx
      ensures Valid() && log == old(log) + [Event(reportType, ms, secSinceBoot)]
    {
      match reportType {
        case TX_LOG =>
          AddTo(periodTX, 0, ms);
          AddTo(airPeriodTx, 0, ms);
          AddTo(utilizationTX, PeriodUtilHour(), ms);
        case RX_LOG =>
          AddTo(periodRX, 0, ms);
          AddTo(airPeriodRx, 0, ms);
        case RX_ALL_LOG =>
          AddTo(periodRXAll, 0, ms);
      }
      AddTo(channelUtilization, PeriodUtilMinute(), ms);
      assert Values() == AfterLog(old(Values()), secSinceBoot, reportType, ms);
      LogAgrees(old(Values()), log, secSinceBoot, reportType, ms);
      log := log + [Event(reportType, ms, secSinceBoot)];
    }

    static method Clear(a: array<U32>)
      modifies a
      ensures forall i :: 0 <= i < a.Length ==> a[i] == 0
    {
      for i := 0 to a.Length
        invariant forall k :: 0 <= k < i ==> a[k] == 0
      {
        a[i] := 0;
      }
    }

    /** Each entry moves back by one, and a new one begins. */
    static method MoveBack(a: array<U32>)
      requires a.Length == PERIODS_TO_LOG
      modifies a
      ensures a[..] == [0] + old(a[..])[..PERIODS_TO_LOG - 1]
    {
      var i := PERIODS_TO_LOG - 2;
      while i >= 0
        invariant -1 <= i <= PERIODS_TO_LOG - 2
        invariant forall k :: i + 2 <= k < PERIODS_TO_LOG ==> a[k] == old(a[k - 1])
        invariant forall k :: 0 <= k <= i + 1 ==> a[k] == old(a[k])
      {
        a[i + 1] := a[i];
        i := i - 1;
      }
      a[0] := 0;
    }

    /** The same, with the public copy following entry by entry. */
    static method MoveBackBoth(a: array<U32>, copy: array<U32>)
      requires a != copy && a.Length == copy.Length == PERIODS_TO_LOG
      modifies a, copy
      ensures a[..] == [0] + old(a[..])[..PERIODS_TO_LOG - 1] && copy[..] == a[..]
    {
      var i := PERIODS_TO_LOG - 2;
      while i >= 0
        invariant -1 <= i <= PERIODS_TO_LOG - 2
        invariant forall k :: i + 2 <= k < PERIODS_TO_LOG ==> a[k] == old(a[k - 1])
        invariant forall k :: i + 2 <= k < PERIODS_TO_LOG ==> copy[k] == a[k]
        invariant forall k :: 0 <= k <= i + 1 ==> a[k] == old(a[k])
      {
        a[i + 1] := a[i];
        copy[i + 1] := a[i];
        i := i - 1;
      }
      a[0] := 0;
      copy[0] := 0;
    }

    /** The hour that begins takes the front place; each hour before moves back by one. */
    method AirtimeRotatePeriod()
      requires Separate()
      modifies periodTX, periodRX, periodRXAll, airPeriodTx, airPeriodRx, this`lastPeriodIndex, this`rotated
      ensures lastPeriodIndex == CurrentPeriodIndex()
      ensures Values() == if old(lastPeriodIndex) == CurrentPeriodIndex() then old(Values())
                          else HistoriesBack(old(Values()))
      ensures old(lastPeriodIndex) != CurrentPeriodIndex() ==> rotated
      ensures old(Copied() || lastPeriodIndex != CurrentPeriodIndex()) ==> Copied()
      ensures old(rotated) ==> rotated
    {
      if lastPeriodIndex != CurrentPeriodIndex() {
        MoveBackBoth(periodTX, airPeriodTx);
        MoveBackBoth(periodRX, airPeriodRx);
        MoveBack(periodRXAll);
        lastPeriodIndex := CurrentPeriodIndex();
        rotated := true;
      }
    }

    /** The first call only clears; before it, nothing counts as logged. */
    method FirstRun()
      requires Separate() && firstTime && secSinceBoot == 1 && lastUtilPeriodTX == 0 && lastPeriodIndex == 0 && !rotated
      modifies this, channelUtilization, utilizationTX, periodTX, periodRX, periodRXAll, airPeriodTx, airPeriodRx
      ensures Valid() && !firstTime && log == [] && secSinceBoot == 1
    {
      Clear(utilizationTX);
      Clear(channelUtilization);
      Clear(periodTX);
      Clear(periodRX);
      Clear(periodRXAll);
      firstTime := false;
      lastUtilPeriod := PeriodUtilMinute();
      log := [];
      NothingAgrees(Values(), secSinceBoot);
    }

    /** The slots of the windows that have just begun are cleared. */
    method TurnWindows()
      requires Separate()
      modifies this`lastUtilPeriod, this`lastUtilPeriodTX, channelUtilization, utilizationTX
      ensures lastUtilPeriod == PeriodUtilMinute() && lastUtilPeriodTX == PeriodUtilHour()
      ensures Values() == old(Values()).(
                            channel := if old(lastUtilPeriod) == PeriodUtilMinute() then old(channelUtilization[..])
                                       else old(channelUtilization[..])[PeriodUtilMinute() := 0],
                            minutesTX := if old(lastUtilPeriodTX) == PeriodUtilHour() then old(utilizationTX[..])
                                         else old(utilizationTX[..])[PeriodUtilHour() := 0])
      ensures Copied() == old(Copied())
    {
      if lastUtilPeriod != PeriodUtilMinute() {
        lastUtilPeriod := PeriodUtilMinute();
        channelUtilization[lastUtilPeriod] := 0;
      }
      if lastUtilPeriodTX != PeriodUtilHour() {
        lastUtilPeriodTX := PeriodUtilHour();
        utilizationTX[lastUtilPeriodTX] := 0;
      }
    }

    /** What has come to its end since second t is turned. */
    method LaterRun(ghost t: nat)
      requires Separate() && lastUtilPeriod == t / 10 % CHANNEL_UTILIZATION_PERIODS
      requires lastUtilPeriodTX == t / 60 % MINUTES_IN_HOUR
      requires lastPeriodIndex == t / SECONDS_PER_PERIOD % PERIODS_TO_LOG
      modifies this`lastUtilPeriod, this`lastUtilPeriodTX, this`lastPeriodIndex, this`rotated
      modifies channelUtilization, utilizationTX, periodTX, periodRX, periodRXAll, airPeriodTx, airPeriodRx
      ensures lastUtilPeriod == PeriodUtilMinute() && lastUtilPeriodTX == PeriodUtilHour()
      ensures lastPeriodIndex == CurrentPeriodIndex()
      ensures secSinceBoot == t + 1 ==> Values() == AfterTick(old(Values()), t)
      ensures old(Copied()) ==> Copied()
      ensures old(rotated) || secSinceBoot == t + 1 == SECONDS_PER_PERIOD ==> rotated
    {
      AirtimeRotatePeriod();
      TurnWindows();
      if secSinceBoot == t + 1 {
        Ticked(t);
      }
    }

    /** The clock wraps around after 136 years. */
    method CountSecond()
      modifies this`secSinceBoot
      ensures secSinceBoot == if old(secSinceBoot) + 1 < TWO_TO_THE_32 then old(secSinceBoot) + 1 else 0
    {
      secSinceBoot := (secSinceBoot + 1) % TWO_TO_THE_32;
    }

    /** Once a second. The first call clears everything; each later one turns what has come to its end. */
    method RunOnce()
      requires Valid()
      modifies this, channelUtilization, utilizationTX, periodTX, periodRX, periodRXAll, airPeriodTx, airPeriodRx
      ensures secSinceBoot == if old(secSinceBoot) + 1 < TWO_TO_THE_32 then old(secSinceBoot) + 1 else 0
      ensures !firstTime
      ensures log == if old(firstTime) then [] else old(log)
      ensures old(secSinceBoot) + 1 < TWO_TO_THE_32 ==> Valid()
      ensures old(rotated) ==> rotated
    {
      ghost var t: nat := secSinceBoot;
      CountSecond();
      if firstTime {
        FirstRun();
      } else {
        LaterRun(t);
        TickAgrees(old(Values()), log, t);
      }
    }

    // ---- What the windows are for ----

    /** The share of the last six ten-second periods, this one included, in which the channel was in use. */
    method ChannelUtilizationPercent() returns (percent: real)
      requires Valid()
      ensures var now := secSinceBoot / 10;
              percent == Wrapped(Logged(log, ALL, 10, now - 5, now)) as real / 60000.0 * 100.0
    {
      var sum := SumRing(channelUtilization, log, ALL, 10, secSinceBoot / 10);
      percent := sum as real / (CHANNEL_UTILIZATION_PERIODS * 10 * 1000) as real * 100.0;
    }

    /** The share of the last sixty minutes, this one included, in which this device transmitted. */
    method UtilizationTXPercent() returns (percent: real)
      requires Valid()
      ensures var now := secSinceBoot / 60;
              percent == Wrapped(Logged(log, {TX_LOG}, 60, now - 59, now)) as real / 3600000.0 * 100.0
    {
      var sum := SumRing(utilizationTX, log, {TX_LOG}, 60, secSinceBoot / 60);
      percent := sum as real / MS_IN_HOUR as real * 100.0;
    }

    /** Sending is allowed while less than a quarter (or, impolitely, two fifths) of the last minute was in use. */
    method IsTxAllowedChannelUtil(polite: bool) returns (allowed: bool)
      requires Valid()
      ensures var now := secSinceBoot / 10;
              allowed <==> Wrapped(Logged(log, ALL, 10, now - 5, now)) < if polite then 15000 else 24000
    {
      var percentage := if polite then 25 else 40;
      var used := ChannelUtilizationPercent();
      allowed := used < percentage as real;
    }
  }

  /** A second later the period is the same, or the next; its index tells which. */
  lemma Ticked(t: nat)
    ensures (t + 1) / 10 == t / 10
       <==> (t + 1) / 10 % CHANNEL_UTILIZATION_PERIODS == t / 10 % CHANNEL_UTILIZATION_PERIODS
    ensures (t + 1) / 60 == t / 60 <==> (t + 1) / 60 % MINUTES_IN_HOUR == t / 60 % MINUTES_IN_HOUR
    ensures (t + 1) / SECONDS_PER_PERIOD == t / SECONDS_PER_PERIOD
       <==> (t + 1) / SECONDS_PER_PERIOD % PERIODS_TO_LOG == t / SECONDS_PER_PERIOD % PERIODS_TO_LOG
  {
    NextPeriod(t, 10);
    NextPeriod(t, 60);
    NextPeriod(t, SECONDS_PER_PERIOD);
    IndexMoves(t / 10);
    IndexMoves(t / 60);
    IndexMoves(t / SECONDS_PER_PERIOD);
  }

  lemma IndexMoves(c: nat)
    ensures (c + 1) % CHANNEL_UTILIZATION_PERIODS != c % CHANNEL_UTILIZATION_PERIODS
    ensures (c + 1) % MINUTES_IN_HOUR != c % MINUTES_IN_HOUR
    ensures (c + 1) % PERIODS_TO_LOG != c % PERIODS_TO_LOG
  {}

  lemma NextPeriod(t: nat, unit: nat)
    requires unit == 10 || unit == 60 || unit == SECONDS_PER_PERIOD
    ensures (t + 1) / unit == t / unit || (t + 1) / unit == t / unit + 1
  {}

  lemma EarlierEvents(log: seq<Event>, unit: nat, t: nat)
    requires unit == 10 || unit == 60 || unit == SECONDS_PER_PERIOD
    requires forall e :: e in log ==> e.at <= t
    ensures forall e :: e in log ==> e.at / unit <= t / unit
  {}

  lemma RingTicks(ring: seq<U32>, after: seq<U32>, log: seq<Event>, kinds: set<ReportType>, unit: nat, t: nat)
    requires (unit == 10 && |ring| == CHANNEL_UTILIZATION_PERIODS) || (unit == 60 && |ring| == MINUTES_IN_HOUR)
    requires IsRing(ring, log, kinds, unit, t / unit) && forall e :: e in log ==> e.at <= t
    requires after == if (t + 1) / unit == t / unit then ring else ring[(t + 1) / unit % |ring| := 0]
    ensures IsRing(after, log, kinds, unit, (t + 1) / unit)
  {
    NextPeriod(t, unit);
    EarlierEvents(log, unit, t);
    if (t + 1) / unit != t / unit { RingTurns(ring, log, kinds, unit, t / unit); }
  }

  lemma HistoryTicks(history: seq<U32>, after: seq<U32>, log: seq<Event>, kind: ReportType, t: nat)
    requires IsHistory(history, log, kind, t / SECONDS_PER_PERIOD) && forall e :: e in log ==> e.at <= t
    requires after == if (t + 1) / SECONDS_PER_PERIOD == t / SECONDS_PER_PERIOD then history
                      else [0] + history[..PERIODS_TO_LOG - 1]
    ensures IsHistory(after, log, kind, (t + 1) / SECONDS_PER_PERIOD)
  {
    NextPeriod(t, SECONDS_PER_PERIOD);
    EarlierEvents(log, SECONDS_PER_PERIOD, t);
    if (t + 1) / SECONDS_PER_PERIOD != t / SECONDS_PER_PERIOD {
      HistoryRotates(history, log, kind, t / SECONDS_PER_PERIOD);
    }
  }
}
