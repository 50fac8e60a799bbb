/** Which source of time the system clock follows, and the time it serves. */
module ClockQuality {
  import Calendar
  import opened Throttle

  const SECONDS_WRAP := 0x1_0000_0000_0000_0000
  const NTP_INTERVAL_MS := 12 * 60 * 60 * 1000
  const FORTY_YEARS := 40 * 365 * 86400

  /** Where a time came from: nowhere, the device's own chip, the mesh, the phone or NTP, GPS. */
  type Quality = q: int | 0 <= q <= 4

  const NONE: Quality := 0
  const NTP: Quality := 3
  const GPS: Quality := 4

  datatype SetResult = NotSet | Success | InvalidTime

  /** The moment the firmware was built, when the build knows it. */
  datatype Build = NoEpoch | Epoch(secs: nat)

  datatype Clock = Clock(
    quality: Quality, lastSetMsec: nat, lastSetFromPhoneNtpOrGps: nat, timeStartMsec: nat, zeroOffsetSecs: nat)

  const BOOT := Clock(NONE, 0, 0, 0, 0)

  predicate Plausible(build: Build, tvSec: int) {
    build.Epoch? ==> build.secs <= tvSec <= build.secs + FORTY_YEARS
  }

  predicate ShouldSet(c: Clock, now: nat, q: Quality, forceUpdate: bool) {
    forceUpdate || q > c.quality || q == GPS || (q == NTP && Since(now, c.lastSetMsec) >= NTP_INTERVAL_MS)
  }

  function SetTo(c: Clock, now: nat, q: Quality, tvSec: int): Clock {
    Clock(q, now, if q >= NTP then now else c.lastSetFromPhoneNtpOrGps, now, tvSec % SECONDS_WRAP)
  }

  /** The clock after it was offered a time. */
  function Offered(c: Clock, now: nat, build: Build, q: Quality, tvSec: int, forceUpdate: bool): Clock {
    if Plausible(build, tvSec) && ShouldSet(c, now, q, forceUpdate) then SetTo(c, now, q, tvSec) else c
  }

  class SystemClock {
    var currentQuality: Quality
    var lastSetMsec: nat
    var lastSetFromPhoneNtpOrGps: nat
    var timeStartMsec: nat
    var zeroOffsetSecs: nat

    ghost function Value(): Clock
      reads this
    {
      Clock(currentQuality, lastSetMsec, lastSetFromPhoneNtpOrGps, timeStartMsec, zeroOffsetSecs)
    }

    constructor ()
      ensures Value() == BOOT
    {
      currentQuality, lastSetMsec, lastSetFromPhoneNtpOrGps := NONE, 0, 0;
      timeStartMsec, zeroOffsetSecs := 0, 0;
    }

    /** Takes an offered time if it is plausible and its source may set the clock now. */
    method PerhapsSetRTC(now: nat, build: Build, q: Quality, tvSec: int, forceUpdate: bool) returns (r: SetResult)
      modifies this
      ensures Value() == Offered(old(Value()), now, build, q, tvSec, forceUpdate)
      ensures r == if !Plausible(build, tvSec) then InvalidTime
                   else if ShouldSet(old(Value()), now, q, forceUpdate) then Success
                   else NotSet
    {
      if build.Epoch? {
        if tvSec < build.secs {
          return InvalidTime;
        } else if tvSec > build.secs + FORTY_YEARS {
          return InvalidTime;
        }
      }
      var shouldSet;
      if forceUpdate {
        shouldSet := true;
      } else if q > currentQuality {
        shouldSet := true;
      } else if q == GPS {
        shouldSet := true;
      } else if q == NTP && !IsWithinTimespanMs(now, lastSetMsec, NTP_INTERVAL_MS) {
        shouldSet := true;
      } else {
        shouldSet := false;
      }
      if shouldSet {
        currentQuality := q;
        lastSetMsec := now;
        if currentQuality >= NTP {
          lastSetFromPhoneNtpOrGps := now;
        }
        timeStartMsec := now;
        zeroOffsetSecs := tvSec % SECONDS_WRAP;
        return Success;
      } else {
        return NotSet;
      }
    }

    /** Offers a broken-down time, taken only for the years 1900 to 2199. */
    method PerhapsSetRTCFromTm(now: nat, build: Build, q: Quality, t: Calendar.Tm) returns (r: SetResult)
      requires t.tmMon < 12
      modifies this
      ensures Value() == if YearTaken(t) then Offered(old(Value()), now, build, q, Calendar.GmMktime(t), false)
                         else old(Value())
      ensures r == Success <==> YearTaken(t) && Plausible(build, Calendar.GmMktime(t))
                                && ShouldSet(old(Value()), now, q, false)
      ensures r == InvalidTime <==> !YearTaken(t) || !Plausible(build, Calendar.GmMktime(t))
    {
      var res := Calendar.GmMktime(t);
      if build.Epoch? {
        if res < build.secs {
          return InvalidTime;
        } else if res > build.secs + FORTY_YEARS {
          return InvalidTime;
        }
      }
      if t.tmYear < 0 || t.tmYear >= 300 {
        return InvalidTime;
      } else {
        r := PerhapsSetRTC(now, build, q, res, false);
      }
    }
  }

  predicate YearTaken(t: Calendar.Tm) { 0 <= t.tmYear < 300 }

  /** Whole seconds since the clock was set, as the counter shows them. */
  function Elapsed(c: Clock, now: nat): nat { Since(now, c.timeStartMsec) / 1000 }

  /** The time in seconds since 1970, in 32 bits. */
  function GetTime(c: Clock, now: nat): nat { (Elapsed(c, now) + c.zeroOffsetSecs) % TWO_TO_THE_32 }

  function GetValidTime(c: Clock, now: nat, minQuality: Quality): nat {
    if c.quality >= minQuality then GetTime(c, now) else 0
  }

  // ---- Runs ----

  /** A time offered at a moment, in milliseconds since boot, of which the counter keeps 32 bits. */
  datatype Offer = Offer(at: nat, q: Quality, tvSec: int, forceUpdate: bool)

  ghost predicate InOrder(offers: seq<Offer>) {
    forall i, j :: 0 <= i < j < |offers| ==> offers[i].at <= offers[j].at
  }

  ghost predicate Unforced(offers: seq<Offer>) {
    forall i :: 0 <= i < |offers| ==> !offers[i].forceUpdate
  }

  function After(c: Clock, build: Build, o: Offer): Clock {
    Offered(c, o.at % TWO_TO_THE_32, build, o.q, o.tvSec, o.forceUpdate)
  }

  function Run(build: Build, offers: seq<Offer>): Clock {
    if offers == [] then BOOT else After(Run(build, offers[..|offers| - 1]), build, offers[|offers| - 1])
  }

  predicate Taken(c: Clock, build: Build, o: Offer) {
    Plausible(build, o.tvSec) && ShouldSet(c, o.at % TWO_TO_THE_32, o.q, o.forceUpdate)
  }

  /** The last offer that set the clock, if any did. */
  function LastTaken(build: Build, offers: seq<Offer>): (k: int)
    ensures -1 <= k < |offers|
  {
    if offers == [] then -1
    else
      var n := |offers| - 1;
      if Taken(Run(build, offers[..n]), build, offers[n]) then n else LastTaken(build, offers[..n])
  }

  /** The highest quality among the plausible offers. */
  function Best(build: Build, offers: seq<Offer>): Quality {
    if offers == [] then NONE
    else
      var best, o := Best(build, offers[..|offers| - 1]), offers[|offers| - 1];
      if Plausible(build, o.tvSec) && o.q > best then o.q else best
  }

  /** The clock is the one its last taken offer set, whatever was offered since. */
  lemma {:induction false} RunIsLastTaken(build: Build, offers: seq<Offer>)
    ensures var k, c := LastTaken(build, offers), Run(build, offers);
            if k < 0 then c == BOOT
            else var o := offers[k];
                 c.quality == o.q && c.zeroOffsetSecs == o.tvSec % SECONDS_WRAP
                 && c.timeStartMsec == c.lastSetMsec == o.at % TWO_TO_THE_32
                 && (c.quality >= NTP ==> c.lastSetFromPhoneNtpOrGps == c.lastSetMsec)
  {
    if offers != [] {
      RunIsLastTaken(build, offers[..|offers| - 1]);
    }
  }

  /** Without forced updates the clock holds the best source offered, except that NTP may stand in for GPS. */
  lemma {:induction false} UnforcedQuality(build: Build, offers: seq<Offer>)
    requires Unforced(offers)
    ensures var q, best := Run(build, offers).quality, Best(build, offers);
            q == best || (q == NTP && best == GPS)
  {
    if offers != [] {
      UnforcedQuality(build, offers[..|offers| - 1]);
    }
  }

  /** Exactly when an offer lowers the quality: it is forced, or NTP replaces GPS after twelve hours on the counter. */
  lemma LowersIff(c: Clock, build: Build, o: Offer)
    ensures After(c, build, o).quality < c.quality
       <==> o.q < c.quality && Plausible(build, o.tvSec)
            && (o.forceUpdate || (o.q == NTP && c.quality == GPS
                                  && Since(o.at % TWO_TO_THE_32, c.lastSetMsec) >= NTP_INTERVAL_MS))
  {
  }

  /** The documented rule: exactly the times of higher quality set the clock. */
  ghost predicate ByRule(c: Clock, build: Build, o: Offer) { Taken(c, build, o) <==> o.q > c.quality }

  /** Exactly when an offer keeps the rule: a better one by being plausible, another by being neither forced, nor from
      GPS, nor from NTP after twelve hours on the counter. A GPS time reapplied over a GPS time breaks it too. */
  lemma ByRuleIff(c: Clock, build: Build, o: Offer)
    ensures ByRule(c, build, o)
       <==> if o.q > c.quality then Plausible(build, o.tvSec)
            else Plausible(build, o.tvSec) ==>
                   !o.forceUpdate && o.q != GPS
                   && (o.q == NTP ==> Since(o.at % TWO_TO_THE_32, c.lastSetMsec) < NTP_INTERVAL_MS)
  {
  }

  ghost predicate AllByRule(build: Build, offers: seq<Offer>) {
    forall i :: 0 <= i < |offers| ==> ByRule(Run(build, offers[..i]), build, offers[i])
  }

  /** Every plausible one of the first k offers is of a quality below q. */
  ghost predicate AllBelow(build: Build, offers: seq<Offer>, k: nat, q: Quality) {
    forall i :: 0 <= i < k <= |offers| && Plausible(build, offers[i].tvSec) ==> offers[i].q < q
  }

  /** If every offer keeps the rule, the clock is set by the first of the best quality. */
  lemma {:induction false} RunByRule(build: Build, offers: seq<Offer>)
    requires AllByRule(build, offers)
    ensures Run(build, offers).quality == Best(build, offers)
    ensures var k := LastTaken(build, offers);
            k >= 0 ==> offers[k].q == Best(build, offers) && AllBelow(build, offers, k, offers[k].q)
  {
    if offers != [] {
      var n := |offers| - 1;
      FrontByRule(build, offers);
      RunByRule(build, offers[..n]);
      if Taken(Run(build, offers[..n]), build, offers[n]) {
        BetterThanAll(build, offers, n);
      } else {
        BelowInFront(build, offers, n, LastTaken(build, offers));
      }
    }
  }

  lemma FrontByRule(build: Build, offers: seq<Offer>)
    requires offers != [] && AllByRule(build, offers)
    ensures var n := |offers| - 1;
            AllByRule(build, offers[..n]) && ByRule(Run(build, offers[..n]), build, offers[n])
  {
    var front := offers[..|offers| - 1];
    forall i | 0 <= i < |front| ensures ByRule(Run(build, front[..i]), build, front[i]) {
      assert offers[..i] == front[..i];
    }
  }

  lemma BetterThanAll(build: Build, offers: seq<Offer>, n: nat)
    requires n < |offers| && offers[n].q > Best(build, offers[..n])
    ensures AllBelow(build, offers, n, offers[n].q)
  {
    var front := offers[..n];
    forall i | 0 <= i < n && Plausible(build, offers[i].tvSec) ensures offers[i].q < offers[n].q {
      assert front[i] == offers[i];
      BestAtLeast(build, front, i);
    }
  }

  lemma BelowInFront(build: Build, offers: seq<Offer>, n: nat, k: int)
    requires n <= |offers| && 0 <= k < n ==> AllBelow(build, offers[..n], k, offers[k].q)
    ensures n <= |offers| && 0 <= k < n ==> AllBelow(build, offers, k, offers[k].q)
  {
    if n <= |offers| && 0 <= k < n {
      forall i | 0 <= i < k && Plausible(build, offers[i].tvSec) ensures offers[i].q < offers[k].q {
        assert offers[..n][i] == offers[i];
      }
    }
  }

  lemma {:induction false} BestAtLeast(build: Build, offers: seq<Offer>, i: nat)
    requires i < |offers| && Plausible(build, offers[i].tvSec)
    ensures offers[i].q <= Best(build, offers)
  {
    if i < |offers| - 1 {
      BestAtLeast(build, offers[..|offers| - 1], i);
    }
  }

  /** Some plausible GPS time was offered less than twelve hours before. */
  ghost predicate FreshGps(build: Build, offers: seq<Offer>, i: nat)
    requires i < |offers|
  {
    exists j :: 0 <= j < i && offers[j].q == GPS && Plausible(build, offers[j].tvSec)
                && offers[i].at - offers[j].at < NTP_INTERVAL_MS
  }

  lemma {:induction false} GpsAlwaysTaken(build: Build, offers: seq<Offer>, j: nat)
    requires j < |offers| && offers[j].q == GPS && Plausible(build, offers[j].tvSec)
    ensures LastTaken(build, offers) >= j
  {
    if j < |offers| - 1 {
      GpsAlwaysTaken(build, offers[..|offers| - 1], j);
    }
  }

  lemma SinceIsElapsed(earlier: nat, now: nat)
    requires earlier <= now
    ensures Since(now % TWO_TO_THE_32, earlier % TWO_TO_THE_32) == (now - earlier) % TWO_TO_THE_32
  {
    var a, b := now / TWO_TO_THE_32, earlier / TWO_TO_THE_32;
    assert now % TWO_TO_THE_32 - earlier % TWO_TO_THE_32 == now - earlier - TWO_TO_THE_32 * (a - b);
    ModShift(now - earlier, a - b);
  }

  lemma ModShift(x: int, k: int)
    ensures (x - TWO_TO_THE_32 * k) % TWO_TO_THE_32 == x % TWO_TO_THE_32
  {
  }

  lemma SoonAfter(earlier: nat, now: nat)
    requires earlier <= now < earlier + NTP_INTERVAL_MS
    ensures Since(now % TWO_TO_THE_32, earlier % TWO_TO_THE_32) < NTP_INTERVAL_MS
  {
    SinceIsElapsed(earlier, now);
  }

  lemma SetSince(build: Build, before: seq<Offer>, j: nat, now: nat)
    requires j < |before| && before[j].q == GPS && Plausible(build, before[j].tvSec)
    requires InOrder(before) && before[|before| - 1].at <= now < before[j].at + NTP_INTERVAL_MS
    ensures Since(now % TWO_TO_THE_32, Run(build, before).lastSetMsec) < NTP_INTERVAL_MS
  {
    GpsAlwaysTaken(build, before, j);
    RunIsLastTaken(build, before);
    var k := LastTaken(build, before);
    assert before[j].at <= before[k].at <= before[|before| - 1].at;
    SoonAfter(before[k].at, now);
  }

  lemma FreshGpsKept(build: Build, offers: seq<Offer>)
    requires offers != [] && InOrder(offers) && Unforced(offers)
    requires var n := |offers| - 1;
             Run(build, offers[..n]).quality == GPS && FreshGps(build, offers, n)
    ensures Run(build, offers).quality == GPS
  {
    var n := |offers| - 1;
    var j :| 0 <= j < n && offers[j].q == GPS && Plausible(build, offers[j].tvSec)
             && offers[n].at - offers[j].at < NTP_INTERVAL_MS;
    assert offers[n - 1].at <= offers[n].at;
    SetSince(build, offers[..n], j, offers[n].at);
  }

  /** As long as every NTP time comes within twelve hours of a GPS time, once there is one, the best source is kept. */
  lemma {:induction false} BestKept(build: Build, offers: seq<Offer>)
    requires InOrder(offers) && Unforced(offers)
    requires forall i :: 0 <= i < |offers| && offers[i].q == NTP && Best(build, offers[..i]) == GPS
                         ==> FreshGps(build, offers, i)
    ensures Run(build, offers).quality == Best(build, offers)
  {
    if offers != [] {
      var n := |offers| - 1;
      var before := offers[..n];
      forall i | 0 <= i < n && before[i].q == NTP && Best(build, before[..i]) == GPS
        ensures FreshGps(build, before, i)
      {
        assert before[..i] == offers[..i];
        assert FreshGps(build, offers, i);
        var j :| 0 <= j < i && offers[j].q == GPS && Plausible(build, offers[j].tvSec)
                 && offers[i].at - offers[j].at < NTP_INTERVAL_MS;
        assert before[j].q == GPS;
      }
      BestKept(build, before);
      if offers[n].q == NTP && Best(build, before) == GPS {
        FreshGpsKept(build, offers);
      }
    }
  }

  /** The documented rule, that only a source of higher quality sets the clock, does not hold. */
  lemma NtpReplacesGps()
    ensures var offers := [Offer(0, GPS, 1700000000, false), Offer(NTP_INTERVAL_MS, NTP, 1700000000, false)];
            Run(NoEpoch, offers).quality == NTP < Best(NoEpoch, offers) == GPS
  {
    var gps, ntp := Offer(0, GPS, 1700000000, false), Offer(NTP_INTERVAL_MS, NTP, 1700000000, false);
    assert [gps, ntp][..1] == [gps];
    assert [gps][..0] == [];
    assert Run(NoEpoch, []) == BOOT && Best(NoEpoch, []) == NONE;
    assert Run(NoEpoch, [gps]) == SetTo(BOOT, 0, GPS, 1700000000) && Best(NoEpoch, [gps]) == GPS;
  }

  // ---- The time served ----

  /** The seconds counted since the clock was set are right for just under fifty days. */
  lemma ElapsedRightIff(build: Build, offers: seq<Offer>, now: nat)
    requires var k := LastTaken(build, offers);
             k >= 0 && offers[k].at <= now
    ensures var since := now - offers[LastTaken(build, offers)].at;
            Elapsed(Run(build, offers), now % TWO_TO_THE_32) == since / 1000 <==> since < TWO_TO_THE_32
  {
    RunIsLastTaken(build, offers);
    var at := offers[LastTaken(build, offers)].at;
    SinceIsElapsed(at, now);
    WrapShortens(now - at);
  }

  lemma WrapShortens(since: nat)
    ensures since % TWO_TO_THE_32 / 1000 == since / 1000 <==> since < TWO_TO_THE_32
  {
  }

  /** A time counted from a broken-down time that was taken is the calendar's, and runs on with the counter. */
  lemma TmServed(c: Clock, at: nat, now: nat, build: Build, q: Quality, t: Calendar.Tm)
    requires t.tmMon < 12 && YearTaken(t) && at <= now < at + TWO_TO_THE_32
    requires Plausible(build, Calendar.GmMktime(t)) && ShouldSet(c, at % TWO_TO_THE_32, q, false)
    ensures var c' := Offered(c, at % TWO_TO_THE_32, build, q, Calendar.GmMktime(t), false);
            var seconds := 86400 * Calendar.DayNumber(Calendar.DateOf(t)) + Calendar.TimeOfDay(t) + (now - at) / 1000;
            0 <= seconds < TWO_TO_THE_32 ==>
              GetTime(c', now % TWO_TO_THE_32) == seconds == GetValidTime(c', now % TWO_TO_THE_32, q)
  {
    var value := Calendar.GmMktime(t);
    Calendar.MktimeCountsIff(t);
    SinceIsElapsed(at, now);
    ServedSum(value, (now - at) / 1000);
  }

  lemma ServedSum(value: int, elapsed: nat)
    ensures (elapsed + value % SECONDS_WRAP) % TWO_TO_THE_32 == (elapsed + value) % TWO_TO_THE_32
  {
    ModShift(elapsed + value, value / SECONDS_WRAP * TWO_TO_THE_32);
  }
}
