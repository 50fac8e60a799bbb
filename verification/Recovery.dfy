/** How the sensor fusion decides which accelerometer and magnetometer samples to ignore. */
module Recovery {
  import opened Wrappers

  const INITIAL_GAIN := 10.0
  const INITIALISATION_PERIOD := 3.0

  /** A limit, or none at all where the source stores the largest number. */
  type Limit = Option<real>

  predicate Exceeds(x: real, limit: Limit) { limit.Some? && x > limit.value }

  function Abs(x: real): real { if x < 0.0 then -x else x }

  // ---- One sensor ----

  /** A sensor's state: whether its last sample was ignored, and the two recovery counters. */
  datatype Channel = Channel(ignored: bool, trigger: int, timeout: int)

  /** A sample of a sensor: all zero, with its error within the threshold, or beyond it. */
  datatype Sample = Zero | Good | Bad

  function Clamp(value: int, min: int, max: int): (r: int)
    requires min <= max
    ensures min <= r <= max && (min <= value <= max ==> r == value)
  {
    if value < min then min else if value > max then max else value
  }

  function FreshChannel(period: nat): Channel { Channel(false, 0, period) }

  /** The sensor after one more sample. */
  function Step(period: nat, c: Channel, s: Sample): Channel {
    if s.Zero? then c.(ignored := true)
    else
      var trigger := if s.Good? then c.trigger - 9 else c.trigger + 1;
      var recovering := trigger > c.timeout;
      Channel(s.Bad? && !recovering, Clamp(trigger, 0, period), if recovering then 0 else period)
  }

  /** The flag that reports a recovery. */
  predicate Flag(c: Channel) { c.trigger > c.timeout }

  function RunFrom(period: nat, c: Channel, samples: seq<Sample>): Channel {
    if samples == [] then c
    else Step(period, RunFrom(period, c, samples[..|samples| - 1]), samples[|samples| - 1])
  }

  /** The samples since a reset. */
  function Run(period: nat, samples: seq<Sample>): Channel {
    RunFrom(period, FreshChannel(period), samples)
  }

  /** Whether the last sample was one that counts and was ignored. */
  predicate Ignores(period: nat, samples: seq<Sample>) {
    samples != [] && !samples[|samples| - 1].Zero? && Run(period, samples).ignored
  }

  /** How many samples that count were ignored since the last one that was not. */
  function Streak(period: nat, samples: seq<Sample>): nat {
    if samples == [] then 0
    else
      var before := samples[..|samples| - 1];
      if Ignores(period, samples) then Streak(period, before) + 1
      else if samples[|samples| - 1].Zero? then Streak(period, before)
      else 0
  }

  function IgnoredCount(period: nat, samples: seq<Sample>): nat {
    if samples == [] then 0
    else IgnoredCount(period, samples[..|samples| - 1]) + if Ignores(period, samples) then 1 else 0
  }

  function GoodCount(samples: seq<Sample>): nat {
    if samples == [] then 0
    else GoodCount(samples[..|samples| - 1]) + if samples[|samples| - 1].Good? then 1 else 0
  }

  /** The counters stay in range, and the timeout is down just while the trigger is up: then the flag says so. */
  ghost predicate InRange(period: nat, c: Channel) {
    && 0 <= c.trigger <= period
    && (c.timeout == period || (c.timeout == 0 && c.trigger >= 1))
  }

  /** A sample that counts brings the counters into range, whatever new settings have left of them. */
  lemma StepRestoresRange(period: nat, c: Channel, s: Sample)
    requires c.timeout >= 0 && !s.Zero?
    ensures InRange(period, Step(period, c, s))
  {
  }

  /** What holds over every run of samples: the counters' range, and how many samples can have been ignored. */
  lemma {:induction false} RunBounds(period: nat, samples: seq<Sample>)
    ensures var c := Run(period, samples);
            && InRange(period, c)
            && Streak(period, samples) <= (if c.timeout == period then c.trigger else 0) <= period
            && IgnoredCount(period, samples) <= c.trigger + 9 * GoodCount(samples) <= period + 9 * GoodCount(samples)
  {
    if samples != [] {
      RunBounds(period, samples[..|samples| - 1]);
    }
  }

  /** The flag shows a recovery, which is when the timeout is down. */
  lemma FlagIffRecovering(period: nat, samples: seq<Sample>)
    requires period > 0
    ensures Flag(Run(period, samples)) <==> Run(period, samples).timeout == 0
  {
    RunBounds(period, samples);
  }

  function Bads(n: nat): seq<Sample> { if n == 0 then [] else Bads(n - 1) + [Bad] }

  /** That many bad samples from a reset are all ignored, and the next starts a recovery that accepts it. */
  lemma {:induction false} BadsFromReset(period: nat, n: nat)
    requires n <= period
    ensures Run(period, Bads(n)) == Channel(n > 0, n, period) && Streak(period, Bads(n)) == n
  {
    if n > 0 {
      BadsFromReset(period, n - 1);
      assert Bads(n)[..|Bads(n)| - 1] == Bads(n - 1);
    }
  }

  lemma StreakReached(period: nat)
    ensures Streak(period, Bads(period)) == period && !Ignores(period, Bads(period) + [Bad])
  {
    BadsFromReset(period, period);
    assert (Bads(period) + [Bad])[..|Bads(period)|] == Bads(period);
  }

  /** Exactly which samples are ignored: bad ones outside a recovery that do not start one. */
  lemma IgnoresIff(period: nat, samples: seq<Sample>, s: Sample)
    requires !s.Zero?
    ensures var c := Run(period, samples);
            Ignores(period, samples + [s]) <==> s.Bad? && c.timeout == period && c.trigger < period
  {
    RunBounds(period, samples);
    assert (samples + [s])[..|samples|] == samples;
  }

  /** During a recovery no sample that counts is ignored, and it ends with a good sample just when that drains the
      trigger. */
  lemma RecoveryStep(period: nat, c: Channel, s: Sample)
    requires period > 0 && InRange(period, c) && c.timeout == 0
    ensures var c' := Step(period, c, s);
            && (!s.Zero? ==> !c'.ignored)
            && (c'.timeout == period <==> c'.trigger == 0)
            && (c'.trigger == 0 <==> s.Good? && c.trigger <= 9)
  {
  }

  /** Once a recovery has started, none of the samples that follow is ignored until the trigger has drained to zero. */
  lemma {:induction false} RecoveryHolds(period: nat, c: Channel, samples: seq<Sample>)
    requires period > 0 && InRange(period, c) && c.timeout == 0
    requires forall k :: 0 <= k < |samples| ==> RunFrom(period, c, samples[..k]).trigger > 0
    ensures var c' := RunFrom(period, c, samples);
            InRange(period, c') && (samples != [] && !samples[|samples| - 1].Zero? ==> !c'.ignored)
    ensures RunFrom(period, c, samples).timeout == 0 <==> RunFrom(period, c, samples).trigger > 0
  {
    if samples != [] {
      var n := |samples| - 1;
      var before := samples[..n];
      forall k | 0 <= k < n ensures RunFrom(period, c, before[..k]).trigger > 0 {
        assert before[..k] == samples[..k];
      }
      RecoveryHolds(period, c, before);
      RecoveryStep(period, RunFrom(period, c, before), samples[n]);
    }
  }

  /** Only a period of zero rules out that samples are ignored. */
  lemma IgnoringPossibleIff(period: nat)
    ensures (exists samples :: Ignores(period, samples)) <==> period > 0
  {
    if period > 0 {
      BadsFromReset(period, 1);
      assert Bads(1)[|Bads(1)| - 1] == Bad;
      assert Ignores(period, Bads(1));
    } else {
      forall samples ensures !Ignores(period, samples) {
        RunBounds(period, samples);
        if samples != [] {
          RunBounds(period, samples[..|samples| - 1]);
        }
      }
    }
  }

  // ---- The algorithm's state ----

  datatype Flags = Flags(
    initialising: bool, angularRateRecovery: bool, accelerationRecovery: bool, magneticRecovery: bool)

  datatype Settings = Settings(
    gain: real, gyroscopeRange: Limit, accelerationRejection: Limit, magneticRejection: Limit,
    recoveryTriggerPeriod: nat)

  datatype Ahrs = Ahrs(
    settings: Settings, initialising: bool, rampedGain: real, rampedGainStep: real, angularRateRecovery: bool,
    acceleration: Channel, magnetic: Channel)

  /** A reading: the rates of turn, and for the other sensors the squared half error, none when they read zero. */
  datatype Reading = Reading(
    gyroscope: (real, real, real), accelerationError: Option<real>, magneticError: Option<real>, deltaTime: real)

  predicate OverRange(s: Settings, gyroscope: (real, real, real)) {
    || Exceeds(Abs(gyroscope.0), s.gyroscopeRange)
    || Exceeds(Abs(gyroscope.1), s.gyroscopeRange)
    || Exceeds(Abs(gyroscope.2), s.gyroscopeRange)
  }

  /** Rejection is off without a gain or a recovery period. */
  function Effective(s: Settings): Settings {
    if s.gain == 0.0 || s.recoveryTriggerPeriod == 0
    then s.(accelerationRejection := None, magneticRejection := None)
    else s
  }

  function WasReset(a: Ahrs): Ahrs {
    var restarted := FreshChannel(a.settings.recoveryTriggerPeriod);
    a.(initialising := true, rampedGain := INITIAL_GAIN, angularRateRecovery := false,
       acceleration := restarted, magnetic := restarted)
  }

  function WithSettings(a: Ahrs, s: Settings): Ahrs {
    a.(settings := Effective(s),
       acceleration := a.acceleration.(timeout := s.recoveryTriggerPeriod),
       magnetic := a.magnetic.(timeout := s.recoveryTriggerPeriod),
       rampedGain := if a.initialising then a.rampedGain else s.gain,
       rampedGainStep := (INITIAL_GAIN - s.gain) / INITIALISATION_PERIOD)
  }

  function Ramped(a: Ahrs, deltaTime: real): Ahrs {
    if !a.initialising then a
    else
      var gain := a.rampedGain - a.rampedGainStep * deltaTime;
      if gain < a.settings.gain || a.settings.gain == 0.0
      then a.(rampedGain := a.settings.gain, initialising := false, angularRateRecovery := false)
      else a.(rampedGain := gain)
  }

  function SampleOf(initialising: bool, error: Option<real>, limit: Limit): Sample {
    if error.None? then Zero
    else if initialising || !Exceeds(error.value, limit) then Good
    else Bad
  }

  function Updated(a: Ahrs, r: Reading): Ahrs {
    var b := if OverRange(a.settings, r.gyroscope) then WasReset(a).(angularRateRecovery := true) else a;
    var c := Ramped(b, r.deltaTime);
    var p := c.settings.recoveryTriggerPeriod;
    c.(acceleration :=
         Step(p, c.acceleration, SampleOf(c.initialising, r.accelerationError, c.settings.accelerationRejection)),
       magnetic := Step(p, c.magnetic, SampleOf(c.initialising, r.magneticError, c.settings.magneticRejection)))
  }

  lemma SamplesRestoreRange(a: Ahrs, r: Reading)
    ensures var s := SampleOf(a.initialising, r.accelerationError, a.settings.accelerationRejection);
            r.accelerationError.Some? && a.acceleration.timeout >= 0 ==>
              InRange(a.settings.recoveryTriggerPeriod, Step(a.settings.recoveryTriggerPeriod, a.acceleration, s))
    ensures var s := SampleOf(a.initialising, r.magneticError, a.settings.magneticRejection);
            r.magneticError.Some? && a.magnetic.timeout >= 0 ==>
              InRange(a.settings.recoveryTriggerPeriod, Step(a.settings.recoveryTriggerPeriod, a.magnetic, s))
  {
  }

  class FusionAhrs {
    var settings: Settings
    var initialising: bool
    var rampedGain: real
    var rampedGainStep: real
    var angularRateRecovery: bool
    var accelerometerIgnored: bool
    var accelerationRecoveryTrigger: int
    var accelerationRecoveryTimeout: int
    var magnetometerIgnored: bool
    var magneticRecoveryTrigger: int
    var magneticRecoveryTimeout: int

    ghost function Value(): Ahrs
      reads this
    {
      Ahrs(settings, initialising, rampedGain, rampedGainStep, angularRateRecovery,
           Channel(accelerometerIgnored, accelerationRecoveryTrigger, accelerationRecoveryTimeout),
           Channel(magnetometerIgnored, magneticRecoveryTrigger, magneticRecoveryTimeout))
    }

    method Reset()
      modifies this
      ensures Value() == WasReset(old(Value()))
    {
      initialising := true;
      rampedGain := INITIAL_GAIN;
      angularRateRecovery := false;
      accelerometerIgnored, accelerationRecoveryTrigger := false, 0;
      accelerationRecoveryTimeout := settings.recoveryTriggerPeriod;
      magnetometerIgnored, magneticRecoveryTrigger := false, 0;
      magneticRecoveryTimeout := settings.recoveryTriggerPeriod;
    }

    method SetSettings(s: Settings)
      modifies this
      ensures Value() == WithSettings(old(Value()), s)
    {
      settings := s;
      accelerationRecoveryTimeout := settings.recoveryTriggerPeriod;
      magneticRecoveryTimeout := settings.recoveryTriggerPeriod;
      if s.gain == 0.0 || s.recoveryTriggerPeriod == 0 {
        settings := settings.(accelerationRejection := None, magneticRejection := None);
      }
      if !initialising {
        rampedGain := settings.gain;
      }
      rampedGainStep := (INITIAL_GAIN - settings.gain) / INITIALISATION_PERIOD;
    }

    method RampDown(deltaTime: real)
      modifies this`rampedGain, this`initialising, this`angularRateRecovery
      ensures Value() == Ramped(old(Value()), deltaTime)
    {
      if initialising {
        rampedGain := rampedGain - rampedGainStep * deltaTime;
        if rampedGain < settings.gain || settings.gain == 0.0 {
          rampedGain := settings.gain;
          initialising := false;
          angularRateRecovery := false;
        }
      }
    }

    method UpdateAcceleration(error: Option<real>)
      modifies this`accelerometerIgnored, this`accelerationRecoveryTrigger, this`accelerationRecoveryTimeout
      ensures Value().acceleration == Step(settings.recoveryTriggerPeriod, old(Value().acceleration),
                                       SampleOf(initialising, error, settings.accelerationRejection))
    {
      accelerometerIgnored := true;
      if error.Some? {
        if initialising || !Exceeds(error.value, settings.accelerationRejection) {
          accelerometerIgnored := false;
          accelerationRecoveryTrigger := accelerationRecoveryTrigger - 9;
        } else {
          accelerationRecoveryTrigger := accelerationRecoveryTrigger + 1;
        }
        if accelerationRecoveryTrigger > accelerationRecoveryTimeout {
          accelerationRecoveryTimeout := 0;
          accelerometerIgnored := false;
        } else {
          accelerationRecoveryTimeout := settings.recoveryTriggerPeriod;
        }
        accelerationRecoveryTrigger := Clamp(accelerationRecoveryTrigger, 0, settings.recoveryTriggerPeriod);
      }
    }

    method UpdateMagnetic(error: Option<real>)
      modifies this`magnetometerIgnored, this`magneticRecoveryTrigger, this`magneticRecoveryTimeout
      ensures Value().magnetic == Step(settings.recoveryTriggerPeriod, old(Value().magnetic),
                                       SampleOf(initialising, error, settings.magneticRejection))
    {
      magnetometerIgnored := true;
      if error.Some? {
        if initialising || !Exceeds(error.value, settings.magneticRejection) {
          magnetometerIgnored := false;
          magneticRecoveryTrigger := magneticRecoveryTrigger - 9;
        } else {
          magneticRecoveryTrigger := magneticRecoveryTrigger + 1;
        }
        if magneticRecoveryTrigger > magneticRecoveryTimeout {
          magneticRecoveryTimeout := 0;
          magnetometerIgnored := false;
        } else {
          magneticRecoveryTimeout := settings.recoveryTriggerPeriod;
        }
        magneticRecoveryTrigger := Clamp(magneticRecoveryTrigger, 0, settings.recoveryTriggerPeriod);
      }
    }

    method Update(r: Reading)
      modifies this
      ensures Value() == Updated(old(Value()), r)
      ensures r.accelerationError.Some? && old(accelerationRecoveryTimeout) >= 0 ==>
                InRange(settings.recoveryTriggerPeriod, Value().acceleration)
      ensures r.magneticError.Some? && old(magneticRecoveryTimeout) >= 0 ==>
                InRange(settings.recoveryTriggerPeriod, Value().magnetic)
    {
      if OverRange(settings, r.gyroscope) {
        Reset();
        angularRateRecovery := true;
      }
      RampDown(r.deltaTime);
      ghost var ramped := Value();
      UpdateAcceleration(r.accelerationError);
      UpdateMagnetic(r.magneticError);
      SamplesRestoreRange(ramped, r);
    }

    method GetFlags() returns (flags: Flags)
      ensures flags == Flags(initialising, angularRateRecovery, Flag(Value().acceleration), Flag(Value().magnetic))
    {
      flags := Flags(initialising, angularRateRecovery,
                     accelerationRecoveryTrigger > accelerationRecoveryTimeout,
                     magneticRecoveryTrigger > magneticRecoveryTimeout);
    }
  }

  // ---- Runs of the whole algorithm ----

  function RunAhrs(a: Ahrs, readings: seq<Reading>): Ahrs {
    if readings == [] then a else Updated(RunAhrs(a, readings[..|readings| - 1]), readings[|readings| - 1])
  }

  function TimePassed(readings: seq<Reading>): real {
    if readings == [] then 0.0
    else TimePassed(readings[..|readings| - 1]) + readings[|readings| - 1].deltaTime
  }

  /** No reading exceeds the range of the gyroscope, and time does not run backwards. */
  ghost predicate Steady(s: Settings, readings: seq<Reading>) {
    forall i :: 0 <= i < |readings| ==> !OverRange(s, readings[i].gyroscope) && readings[i].deltaTime >= 0.0
  }

  lemma RampDue(gain: real, step: real, time: real)
    requires step == (INITIAL_GAIN - gain) / INITIALISATION_PERIOD
    ensures gain < INITIAL_GAIN ==> (INITIAL_GAIN - step * time < gain <==> time > INITIALISATION_PERIOD)
    ensures gain == INITIAL_GAIN ==> INITIAL_GAIN - step * time == gain
    ensures gain > INITIAL_GAIN ==> (INITIAL_GAIN - step * time < gain <==> time < INITIALISATION_PERIOD)
  {
    assert step * INITIALISATION_PERIOD == INITIAL_GAIN - gain;
    assert step * (time - INITIALISATION_PERIOD) == step * time - (INITIAL_GAIN - gain);
    SignOfProduct(step, time - INITIALISATION_PERIOD);
  }

  lemma SignOfProduct(x: real, y: real)
    ensures x > 0.0 ==> (x * y > 0.0 <==> y > 0.0)
    ensures x < 0.0 ==> (x * y > 0.0 <==> y < 0.0)
    ensures x == 0.0 ==> x * y == 0.0
  {
  }

  /** Whether the algorithm still initialises: for any gain below the initial one that is not zero, for three seconds;
      without a gain, until the first reading; at the initial gain, forever; above it, until the first reading or, if
      that took three seconds, forever. */
  predicate StillInitialising(gain: real, readings: seq<Reading>) {
    || readings == []
    || (gain != 0.0
        && (gain < INITIAL_GAIN ==> TimePassed(readings) <= INITIALISATION_PERIOD)
        && (gain > INITIAL_GAIN ==> readings[0].deltaTime >= INITIALISATION_PERIOD))
  }

  /** The gain some time after a reset, and whether the algorithm still initialises. */
  ghost predicate RampedFor(settings: Settings, still: bool, time: real, b: Ahrs) {
    && b.settings == settings && b.rampedGainStep == (INITIAL_GAIN - settings.gain) / INITIALISATION_PERIOD
    && b.initialising == still
    && b.rampedGain == if still then INITIAL_GAIN - b.rampedGainStep * time else settings.gain
  }

  lemma RampOnce(settings: Settings, still: bool, time: real, b: Ahrs, deltaTime: real, next: bool)
    requires RampedFor(settings, still, time, b)
    requires next <==> still && settings.gain != 0.0
                       && (settings.gain < INITIAL_GAIN ==> time + deltaTime <= INITIALISATION_PERIOD)
                       && (settings.gain > INITIAL_GAIN ==> time + deltaTime >= INITIALISATION_PERIOD)
    ensures RampedFor(settings, next, time + deltaTime, Ramped(b, deltaTime))
  {
    RampStep(b.rampedGainStep, time, deltaTime);
    RampDue(settings.gain, b.rampedGainStep, time + deltaTime);
  }

  lemma {:induction false} FirstWithinTotal(s: Settings, readings: seq<Reading>)
    requires Steady(s, readings) && readings != []
    ensures TimePassed(readings) >= readings[0].deltaTime >= 0.0
  {
    var before := readings[..|readings| - 1];
    if before == [] {
      assert TimePassed(before) == 0.0;
    } else {
      FirstWithinTotal(s, before);
    }
  }

  /** One more reading, when the algorithm still initialises after it. */
  lemma StillAfter(s: Settings, readings: seq<Reading>)
    requires Steady(s, readings) && readings != []
    ensures StillInitialising(s.gain, readings)
       <==> StillInitialising(s.gain, readings[..|readings| - 1]) && s.gain != 0.0
            && (s.gain < INITIAL_GAIN ==> TimePassed(readings) <= INITIALISATION_PERIOD)
            && (s.gain > INITIAL_GAIN ==> TimePassed(readings) >= INITIALISATION_PERIOD)
  {
    var before := readings[..|readings| - 1];
    FirstWithinTotal(s, readings);
    if before == [] {
      assert TimePassed(before) == 0.0;
    }
  }

  /** From a reset, for every gain: exactly when the algorithm still initialises, and its gain, which falls or rises
      evenly until then and is its setting afterwards. */
  lemma {:induction false} InitialisationLasts(a: Ahrs, readings: seq<Reading>)
    requires a == WasReset(a) && Steady(a.settings, readings)
    requires a.rampedGainStep == (INITIAL_GAIN - a.settings.gain) / INITIALISATION_PERIOD
    ensures RampedFor(a.settings, StillInitialising(a.settings.gain, readings), TimePassed(readings),
                      RunAhrs(a, readings))
  {
    if readings != [] {
      var before, r := readings[..|readings| - 1], readings[|readings| - 1];
      InitialisationLasts(a, before);
      StillAfter(a.settings, readings);
      var b, still := RunAhrs(a, before), StillInitialising(a.settings.gain, readings);
      RampOnce(a.settings, StillInitialising(a.settings.gain, before), TimePassed(before), b, r.deltaTime, still);
      UpdateRamps(b, r);
      SameRamp(a.settings, still, TimePassed(readings), Ramped(b, r.deltaTime), Updated(b, r));
    }
  }

  lemma SameRamp(settings: Settings, still: bool, time: real, c: Ahrs, b: Ahrs)
    requires RampedFor(settings, still, time, c)
    requires b.settings == c.settings && b.rampedGainStep == c.rampedGainStep
    requires b.initialising == c.initialising && b.rampedGain == c.rampedGain
    ensures RampedFor(settings, still, time, b)
  {
  }

  lemma UpdateRamps(a: Ahrs, r: Reading)
    requires !OverRange(a.settings, r.gyroscope)
    ensures var b, c := Updated(a, r), Ramped(a, r.deltaTime);
            b.settings == c.settings && b.rampedGainStep == c.rampedGainStep
            && b.initialising == c.initialising && b.rampedGain == c.rampedGain
  {
  }

  lemma RampStep(step: real, time: real, deltaTime: real)
    ensures INITIAL_GAIN - step * time - step * deltaTime == INITIAL_GAIN - step * (time + deltaTime)
  {
  }

  /** What the two sensors of a run amount to: zero, good or bad samples. */
  function AccelerationSamples(a: Ahrs, readings: seq<Reading>): (samples: seq<Sample>)
    ensures |samples| == |readings|
  {
    if readings == [] then []
    else
      var n := |readings| - 1;
      var after := RunAhrs(a, readings);
      AccelerationSamples(a, readings[..n])
      + [SampleOf(after.initialising, readings[n].accelerationError, after.settings.accelerationRejection)]
  }

  function MagneticSamples(a: Ahrs, readings: seq<Reading>): (samples: seq<Sample>)
    ensures |samples| == |readings|
  {
    if readings == [] then []
    else
      var n := |readings| - 1;
      var after := RunAhrs(a, readings);
      MagneticSamples(a, readings[..n])
      + [SampleOf(after.initialising, readings[n].magneticError, after.settings.magneticRejection)]
  }

  lemma UpdateSteps(a: Ahrs, r: Reading)
    requires !OverRange(a.settings, r.gyroscope)
    ensures var b, s := Updated(a, r), a.settings;
            b.settings == s
            && b.acceleration == Step(s.recoveryTriggerPeriod, a.acceleration,
                                      SampleOf(b.initialising, r.accelerationError, s.accelerationRejection))
            && b.magnetic == Step(s.recoveryTriggerPeriod, a.magnetic,
                                  SampleOf(b.initialising, r.magneticError, s.magneticRejection))
  {
  }

  lemma RunOneMore(period: nat, c: Channel, samples: seq<Sample>, s: Sample)
    ensures RunFrom(period, c, samples + [s]) == Step(period, RunFrom(period, c, samples), s)
  {
    assert (samples + [s])[..|samples|] == samples;
  }

  /** Both sensors of a run that is not interrupted go through runs of their own samples, so all bounds hold of them. */
  lemma {:induction false} SensorsRunApart(a: Ahrs, readings: seq<Reading>)
    requires Steady(a.settings, readings)
    ensures var b, p := RunAhrs(a, readings), a.settings.recoveryTriggerPeriod;
            && b.settings == a.settings
            && b.acceleration == RunFrom(p, a.acceleration, AccelerationSamples(a, readings))
            && b.magnetic == RunFrom(p, a.magnetic, MagneticSamples(a, readings))
  {
    if readings != [] {
      var n := |readings| - 1;
      var p := a.settings.recoveryTriggerPeriod;
      SensorsRunApart(a, readings[..n]);
      UpdateSteps(RunAhrs(a, readings[..n]), readings[n]);
      RunOneMore(p, a.acceleration, AccelerationSamples(a, readings[..n]), AccelerationSamples(a, readings)[n]);
      RunOneMore(p, a.magnetic, MagneticSamples(a, readings[..n]), MagneticSamples(a, readings)[n]);
    }
  }

  // ---- New settings ----

  /** New settings end a recovery exactly when their period is not below the trigger; and the next bad sample is
      ignored exactly when it is above it. */
  lemma SettingsEndRecoveryIff(a: Ahrs, s: Settings)
    ensures var b := WithSettings(a, s);
            && (Flag(b.acceleration) <==> a.acceleration.trigger > s.recoveryTriggerPeriod)
            && (Flag(b.magnetic) <==> a.magnetic.trigger > s.recoveryTriggerPeriod)
            && (Step(s.recoveryTriggerPeriod, b.acceleration, Bad).ignored
                <==> a.acceleration.trigger < s.recoveryTriggerPeriod)
            && (Step(s.recoveryTriggerPeriod, b.magnetic, Bad).ignored
                <==> a.magnetic.trigger < s.recoveryTriggerPeriod)
  {
  }

  lemma SettingsKept(a: Ahrs, r: Reading)
    ensures Updated(a, r).settings == a.settings
  {
  }

  lemma NothingRejected(a: Ahrs, r: Reading)
    requires a.settings.accelerationRejection.None? && a.settings.magneticRejection.None?
    ensures r.accelerationError.Some? ==> !Updated(a, r).acceleration.ignored
    ensures r.magneticError.Some? ==> !Updated(a, r).magnetic.ignored
  {
  }

  /** With settings without a gain or a recovery period, whatever the state before and the readings since, resets
      included: no sample that counts is ignored. */
  lemma {:induction false} SettingsWithoutRejection(a: Ahrs, s: Settings, readings: seq<Reading>)
    requires s.gain == 0.0 || s.recoveryTriggerPeriod == 0
    ensures var b := RunAhrs(WithSettings(a, s), readings);
            && b.settings == s.(accelerationRejection := None, magneticRejection := None)
            && (readings != [] && readings[|readings| - 1].accelerationError.Some? ==> !b.acceleration.ignored)
            && (readings != [] && readings[|readings| - 1].magneticError.Some? ==> !b.magnetic.ignored)
  {
    if readings != [] {
      var n := |readings| - 1;
      SettingsWithoutRejection(a, s, readings[..n]);
      SettingsKept(RunAhrs(WithSettings(a, s), readings[..n]), readings[n]);
      NothingRejected(RunAhrs(WithSettings(a, s), readings[..n]), readings[n]);
    }
  }
}
