/** What the refresh scheduler keeps over whole runs of frames. */
module EInkRuns {
  import opened EInk
  import opened Throttle

  /** Flags added for the next frame, a frame shown in the background or at once, a look at the running refresh, a wait
      for it. */
  datatype Event =
    | AddFlag(flags: Flags)
    | DisableUnlimited
    | Background(frame: Frame)
    | Force(frame: Frame)
    | Poll(busy: bool)
    | Join

  predicate IsFrame(e: Event) { e.Background? || e.Force? }

  /** The display as a frame finds it. */
  function Asked(d: Display, e: Event): Display {
    if e.Force? then Flagged(d, RESPONSIVE) else d
  }

  function Next(cfg: Config, d: Display, e: Event): Display {
    match e
    case AddFlag(flags) => Flagged(d, flags)
    case DisableUnlimited => d.(frameFlags := d.frameFlags.(unlimitedFast := false))
    case Background(f) => Shown(cfg, d, f)
    case Force(f) => Shown(cfg, Asked(d, e), f)
    case Poll(busy) => Polled(d, busy)
    case Join => Polled(d, false)
  }

  function Run(cfg: Config, events: seq<Event>): Display {
    if events == [] then POWER_ON else Next(cfg, Run(cfg, events[..|events| - 1]), events[|events| - 1])
  }

  // ---- A frame that was turned away is owed ----

  /** How urgent a frame is: background, responsive, cosmetic or demanded fast. */
  function Rank(flags: Flags): nat {
    if flags.demandFast then 3 else if flags.cosmetic then 2 else if flags.responsive then 1 else 0
  }

  function Owed(reason: Reason): nat { Rank(Promotion(reason)) }

  predicate TurnedAway(cfg: Config, d: Display, e: Event)
    requires IsFrame(e)
  {
    GateReason(cfg, Asked(d, e), e.frame).Some?
  }

  function RankAt(cfg: Config, events: seq<Event>, i: nat): nat
    requires i < |events|
  {
    Rank(FrameFlags(Asked(Run(cfg, events[..i]), events[i])))
  }

  /** The reason a frame is turned away for records just how urgent it was. */
  lemma TurnedAwayOwes(cfg: Config, d: Display, f: Frame)
    requires GateReason(cfg, d, f).Some?
    ensures Owed(GateReason(cfg, d, f).value) == Rank(FrameFlags(d))
  {
  }

  lemma PromotionCarries(d: Display)
    ensures Rank(FrameFlags(d)) >= Owed(d.previousReason)
  {
  }

  /** From a frame that was turned away until one is let through, every frame is at least as urgent as it. */
  lemma {:induction false} TurnedAwayIsOwed(cfg: Config, events: seq<Event>, i: nat, j: nat)
    requires i < j < |events| && IsFrame(events[i]) && IsFrame(events[j])
    requires forall k :: i <= k < j && IsFrame(events[k]) ==> TurnedAway(cfg, Run(cfg, events[..k]), events[k])
    ensures RankAt(cfg, events, j) >= RankAt(cfg, events, i)
  {
    OwedUntilLetThrough(cfg, events, i, j);
    PromotionCarries(Asked(Run(cfg, events[..j]), events[j]));
  }

  lemma {:induction false} OwedUntilLetThrough(cfg: Config, events: seq<Event>, i: nat, j: nat)
    requires i < j < |events| && IsFrame(events[i])
    requires forall k :: i <= k < j && IsFrame(events[k]) ==> TurnedAway(cfg, Run(cfg, events[..k]), events[k])
    ensures Owed(Run(cfg, events[..j]).previousReason) >= RankAt(cfg, events, i)
    decreases j
  {
    var n := j - 1;
    var d, e := Run(cfg, events[..n]), events[n];
    RunNext(cfg, events, n);
    OwedAfter(cfg, d, e);
    if i < n {
      OwedUntilLetThrough(cfg, events, i, n);
      if IsFrame(e) {
        PromotionCarries(Asked(d, e));
      }
    }
  }

  lemma RunNext(cfg: Config, events: seq<Event>, n: nat)
    requires n < |events|
    ensures Run(cfg, events[..n + 1]) == Next(cfg, Run(cfg, events[..n]), events[n])
  {
    assert events[..n + 1][..n] == events[..n];
  }

  lemma OwedAfter(cfg: Config, d: Display, e: Event)
    requires IsFrame(e) ==> TurnedAway(cfg, d, e)
    ensures Owed(Next(cfg, d, e).previousReason)
         == if IsFrame(e) then Rank(FrameFlags(Asked(d, e))) else Owed(d.previousReason)
  {
    if IsFrame(e) {
      TurnedAwayOwes(cfg, Asked(d, e), e.frame);
    }
  }

  /** The parts of the display that a frame leaves behind. */
  lemma ShownParts(cfg: Config, d: Display, f: Frame)
    ensures var d', gate := Shown(cfg, d, f), GateReason(cfg, d, f);
            d'.frameFlags == BACKGROUND
            && d'.previousRefresh == (if gate.Some? then SKIPPED else DecisionFor(cfg, d, f).0)
            && d'.previousReason == (if gate.Some? then gate.value else DecisionFor(cfg, d, f).1)
            && d'.fastRefreshCount == if gate.Some? then d.fastRefreshCount
                                      else if DecisionFor(cfg, d, f).0 == FAST then d.fastRefreshCount + 1
                                      else if DecisionFor(cfg, d, f).0 == FULL then 0 else d.fastRefreshCount
  {
    assert AtGate(cfg, d, f).fastRefreshCount == d.fastRefreshCount;
  }

  lemma UrgentDecision(cfg: Config, flags: Flags, count: nat, same: bool, ghosting: bool, stale: Reason)
    requires Rank(flags) >= 1
    ensures var (refresh, reason) := Decision(cfg, flags, count, same, ghosting, stale);
            && (refresh in {FULL, FAST} || (refresh == SKIPPED && same && Rank(flags) == 1))
            && Owed(reason) == 0
  {
  }

  /** A frame that is let through and was at least responsive is drawn, unless the panel shows it already. */
  lemma UrgentIsDrawn(cfg: Config, d: Display, f: Frame)
    requires GateReason(cfg, d, f).None? && Rank(FrameFlags(d)) >= 1
    ensures var d' := Shown(cfg, d, f);
            d'.previousRefresh in {FULL, FAST} || (d'.previousRefresh == SKIPPED && f.hash == d.previousImageHash)
    ensures Rank(FrameFlags(d)) >= 2 ==> Shown(cfg, d, f).previousRefresh in {FULL, FAST}
    ensures Owed(Shown(cfg, d, f).previousReason) == 0
  {
    ShownParts(cfg, d, f);
    UrgentDecision(cfg, FrameFlags(d), d.fastRefreshCount, f.hash == d.previousImageHash, f.ghosting, d.reason);
  }

  /** Whether a plain frame is drawn again in full although the panel shows it, to clear what fast refreshes left. */
  predicate Redrawn(cfg: Config, d: Display) {
    !cfg.backgroundUsesFast && FrameFlags(d) == BACKGROUND && d.fastRefreshCount > 0
  }

  /** Exactly which frames are refreshed fast, refreshed in full, and skipped. */
  lemma OutcomeIff(cfg: Config, d: Display, f: Frame)
    ensures var flags, due, changed := FrameFlags(d), GateReason(cfg, d, f).None?, f.hash != d.previousImageHash;
            var limited := d.fastRefreshCount >= cfg.limit || f.ghosting;
            var outcome := Shown(cfg, d, f).previousRefresh;
            && (outcome == FAST <==>
                  due && !flags.cosmetic
                  && (flags.demandFast
                      || (changed && (flags.unlimitedFast
                                      || (!limited && (flags.responsive
                                                       || (flags == BACKGROUND && cfg.backgroundUsesFast)))))))
            && (outcome == FULL <==>
                  due && (flags.cosmetic
                          || (!flags.demandFast
                              && if changed
                                 then !flags.unlimitedFast
                                      && (limited || (flags == BACKGROUND && !cfg.backgroundUsesFast))
                                 else Redrawn(cfg, d))))
            && (outcome == SKIPPED <==>
                  !due || (!changed && !flags.cosmetic && !flags.demandFast && !Redrawn(cfg, d)))
  {
  }

  /** Exactly which frames no rule decides: new ones whose only flag is the blocking one, with no limit hit. */
  lemma UndecidedIff(cfg: Config, d: Display, f: Frame)
    ensures Shown(cfg, d, f).previousRefresh == UNSPECIFIED
       <==> GateReason(cfg, d, f).None? && FrameFlags(d) == BACKGROUND.(blocking := true)
            && f.hash != d.previousImageHash && d.fastRefreshCount < cfg.limit && !f.ghosting
  {
  }

  // ---- What the panel was told ----

  /** A reading of the panel's operations: the window set, whether a refresh was begun and not ended, whether one was
      begun over another, the kind of the last one, whether one came after one that no rule had decided, how many fast
      ones came since a full one, whether each had the window for its kind. */
  datatype Track = Track(
    window: RefreshType, open: bool, clash: bool, last: RefreshType, overtaken: bool, fast: nat, fitting: bool)

  const FRESH := Track(UNSPECIFIED, false, false, SKIPPED, false, 0, true)

  function StepOp(t: Track, op: PanelOp): Track {
    match op
    case FullWindow => t.(window := FULL)
    case PartialWindow => t.(window := FAST)
    case ClearScreen => t
    case EndRefresh => t.(open := false)
    case Refresh(kind) =>
      Track(t.window, true, t.clash || t.open, kind, t.overtaken || t.last == UNSPECIFIED,
            if kind == FAST then t.fast + 1 else if kind == FULL then 0 else t.fast,
            t.fitting && (kind in {FULL, FAST} ==> t.window == kind))
  }

  function Read(panel: seq<PanelOp>): Track {
    if panel == [] then FRESH else StepOp(Read(panel[..|panel| - 1]), panel[|panel| - 1])
  }

  lemma ReadOne(panel: seq<PanelOp>, op: PanelOp)
    ensures Read(panel + [op]) == StepOp(Read(panel), op)
  {
    assert (panel + [op])[..|panel|] == panel;
  }

  lemma ReadTwo(panel: seq<PanelOp>, a: PanelOp, b: PanelOp)
    ensures Read(panel + [a, b]) == StepOp(StepOp(Read(panel), a), b)
  {
    ReadOne(panel, a);
    ReadOne(panel + [a], b);
    assert panel + [a, b] == panel + [a] + [b];
  }

  /** What holds of the panel between events. */
  ghost predicate PanelOk(cfg: Config, d: Display) {
    var t := Read(d.panel);
    && d.currentConfig in {FULL, FAST}
    && (d.asyncRefreshRunning ==> cfg.asyncFull && t.last == FULL)
    && (t.open <==> cfg.asyncFull && (d.asyncRefreshRunning || t.last == UNSPECIFIED))
    && (t.clash <==> cfg.asyncFull && t.overtaken)
    && t.fast == d.fastRefreshCount && t.fitting
    && (if d.initialized then t.window == d.currentConfig else d.currentConfig == FULL)
  }

  ghost predicate BetweenFrames(d: Display) {
    && d.reason == d.previousReason
    && (!d.initialized ==> d == POWER_ON.(frameFlags := d.frameFlags))
  }

  lemma SettledOk(cfg: Config, d: Display)
    requires PanelOk(cfg, d)
    ensures PanelOk(cfg, Settled(d))
  {
    if !d.initialized {
      ReadTwo(d.panel, FullWindow, ClearScreen);
    }
  }

  lemma PolledOk(cfg: Config, d: Display, busy: bool)
    requires PanelOk(cfg, d)
    ensures PanelOk(cfg, Polled(d, busy))
  {
    ReadOne(d.panel, EndRefresh);
  }

  /** The window is set for a decision before the refresh. */
  lemma WindowTracked(cfg: Config, g: Display, f: Frame, refresh: RefreshType, reason: Reason)
    requires PanelOk(cfg, g) && g.initialized && !g.asyncRefreshRunning
    ensures var t, t' := Read(g.panel), Read(Decided(g, f, refresh, reason).panel);
            t' == t.(window := if refresh == FAST || refresh == FULL then refresh else t.window)
  {
    if g.currentConfig == FULL && refresh == FAST {
      ReadOne(g.panel, PartialWindow);
    } else if g.currentConfig == FAST && refresh == FULL {
      ReadOne(g.panel, FullWindow);
    } else {
      assert g.panel + [] == g.panel;
    }
  }

  lemma ReadRefresh(cfg: Config, panel: seq<PanelOp>, refresh: RefreshType, blocking: bool)
    ensures Read(AfterRefresh(cfg, panel, refresh, blocking))
         == StepOp(Read(panel), Refresh(refresh))
              .(open := cfg.asyncFull && !EndsAtOnce(cfg, refresh, blocking))
  {
    ReadOne(panel, Refresh(refresh));
    var begun := panel + [Refresh(refresh)];
    var drawn := begun + if cfg.asyncFull then [] else [EndRefresh];
    if cfg.asyncFull {
      assert drawn == begun;
    } else {
      ReadOne(begun, EndRefresh);
    }
    ReadOne(drawn, EndRefresh);
    assert drawn + [] == drawn;
  }

  lemma DecidedOk(cfg: Config, g: Display, f: Frame, refresh: RefreshType, reason: Reason)
    requires PanelOk(cfg, g) && g.initialized && !g.asyncRefreshRunning
    ensures var t := Decided(g, f, refresh, reason);
            if refresh == SKIPPED then PanelOk(cfg, Stored(t, SKIPPED)) else PanelOk(cfg, Refreshed(cfg, t, refresh))
  {
    var t := Decided(g, f, refresh, reason);
    WindowTracked(cfg, g, f, refresh, reason);
    if refresh != SKIPPED {
      RefreshedOk(cfg, t, refresh);
    }
  }

  lemma RefreshedOk(cfg: Config, t: Display, refresh: RefreshType)
    requires refresh != SKIPPED && t.currentConfig in {FULL, FAST} && t.initialized && !t.asyncRefreshRunning
    requires refresh in {FULL, FAST} ==> t.currentConfig == refresh
    requires var r := Read(t.panel);
             (r.open <==> cfg.asyncFull && r.last == UNSPECIFIED) && (r.clash <==> cfg.asyncFull && r.overtaken)
             && r.fitting && r.window == t.currentConfig
             && t.fastRefreshCount == if refresh == FAST then r.fast + 1 else if refresh == FULL then 0 else r.fast
    ensures PanelOk(cfg, Refreshed(cfg, t, refresh))
  {
    ReadRefresh(cfg, t.panel, refresh, t.frameFlags.blocking);
  }

  lemma ShownOk(cfg: Config, d: Display, f: Frame)
    requires PanelOk(cfg, d)
    ensures PanelOk(cfg, Shown(cfg, d, f))
  {
    SettledOk(cfg, d);
    PolledOk(cfg, Settled(d), f.busy);
    var g := AtGate(cfg, d, f);
    if GateReason(cfg, d, f).None? {
      var (refresh, reason) := DecisionFor(cfg, d, f);
      DecidedOk(cfg, g, f, refresh, reason);
    }
  }

  lemma {:induction false} RunPanelOk(cfg: Config, events: seq<Event>)
    ensures PanelOk(cfg, Run(cfg, events))
  {
    if events != [] {
      var before, e := events[..|events| - 1], events[|events| - 1];
      RunPanelOk(cfg, before);
      var d := Run(cfg, before);
      match e {
        case Background(f) => ShownOk(cfg, d, f);
        case Force(f) => ShownOk(cfg, Asked(d, e), f);
        case Poll(busy) => PolledOk(cfg, d, busy);
        case Join => PolledOk(cfg, d, false);
        case _ =>
      }
    }
  }

  lemma {:induction false} RunBetweenFrames(cfg: Config, events: seq<Event>)
    ensures BetweenFrames(Run(cfg, events))
  {
    if events != [] {
      var before, e := events[..|events| - 1], events[|events| - 1];
      RunBetweenFrames(cfg, before);
      if IsFrame(e) {
        ShownBetweenFrames(cfg, Asked(Run(cfg, before), e), e.frame);
      } else {
        QuietBetweenFrames(cfg, Run(cfg, before), e);
      }
    }
  }

  lemma ShownBetweenFrames(cfg: Config, d: Display, f: Frame)
    ensures BetweenFrames(Shown(cfg, d, f))
  {
    assert Settled(d).initialized && AtGate(cfg, d, f).initialized;
  }

  lemma QuietBetweenFrames(cfg: Config, d: Display, e: Event)
    requires BetweenFrames(d) && !IsFrame(e)
    ensures BetweenFrames(Next(cfg, d, e))
  {
  }

  /** Over every run, a fast or full refresh is drawn in the window of its kind. */
  lemma WindowFits(cfg: Config, events: seq<Event>)
    ensures Read(Run(cfg, events).panel).fitting
  {
    RunPanelOk(cfg, events);
  }

  /** How an event ends: no refresh for one that shows no frame or whose frame is turned away, else the decision. */
  function OutcomeOf(cfg: Config, d: Display, e: Event): RefreshType {
    if !IsFrame(e) || TurnedAway(cfg, d, e) then SKIPPED else DecisionFor(cfg, Asked(d, e), e.frame).0
  }

  function Outcomes(cfg: Config, events: seq<Event>): (outcomes: seq<RefreshType>)
    ensures |outcomes| == |events|
  {
    if events == [] then []
    else
      var front := events[..|events| - 1];
      Outcomes(cfg, front) + [OutcomeOf(cfg, Run(cfg, front), events[|events| - 1])]
  }

  /** A frame that no rule decided was shown, and one was drawn after it. */
  ghost predicate UndecidedThenDrawn(outcomes: seq<RefreshType>) {
    exists i, j :: 0 <= i < j < |outcomes| && outcomes[i] == UNSPECIFIED && outcomes[j] != SKIPPED
  }

  function LastDrawn(outcomes: seq<RefreshType>): RefreshType {
    if outcomes == [] then SKIPPED
    else
      var last := outcomes[|outcomes| - 1];
      if last != SKIPPED then last else LastDrawn(outcomes[..|outcomes| - 1])
  }

  lemma {:induction false} UndecidedIsLastOrFollowed(outcomes: seq<RefreshType>)
    ensures UNSPECIFIED in outcomes <==> LastDrawn(outcomes) == UNSPECIFIED || UndecidedThenDrawn(outcomes)
  {
    if outcomes != [] {
      var n := |outcomes| - 1;
      var front, last := outcomes[..n], outcomes[n];
      UndecidedIsLastOrFollowed(front);
      FollowedBy(front, last);
      assert outcomes == front + [last];
    }
  }

  lemma FollowedBy(front: seq<RefreshType>, last: RefreshType)
    ensures UndecidedThenDrawn(front + [last])
       <==> UndecidedThenDrawn(front) || (UNSPECIFIED in front && last != SKIPPED)
  {
    var all := front + [last];
    if UndecidedThenDrawn(front) {
      var i, j :| 0 <= i < j < |front| && front[i] == UNSPECIFIED && front[j] != SKIPPED;
      assert all[i] == UNSPECIFIED && all[j] != SKIPPED;
    } else if UNSPECIFIED in front && last != SKIPPED {
      var i :| 0 <= i < |front| && front[i] == UNSPECIFIED;
      assert all[i] == UNSPECIFIED && all[|front|] != SKIPPED;
    }
  }

  /** What an event adds to the reading of the panel. */
  ghost predicate Advanced(t: Track, t': Track, outcome: RefreshType) {
    && t'.last == (if outcome == SKIPPED then t.last else outcome)
    && (t'.overtaken <==> t.overtaken || (outcome != SKIPPED && t.last == UNSPECIFIED))
  }

  lemma GateAdvances(cfg: Config, d: Display, f: Frame)
    requires PanelOk(cfg, d)
    ensures Advanced(Read(d.panel), Read(AtGate(cfg, d, f).panel), SKIPPED)
  {
    if !d.initialized {
      ReadTwo(d.panel, FullWindow, ClearScreen);
    }
    ReadOne(Settled(d).panel, EndRefresh);
  }

  lemma RefreshAdvances(cfg: Config, r: Track, t: Display, refresh: RefreshType)
    requires refresh != SKIPPED && Read(t.panel).last == r.last && Read(t.panel).overtaken == r.overtaken
    ensures Advanced(r, Read(Refreshed(cfg, t, refresh).panel), refresh)
  {
    ReadRefresh(cfg, t.panel, refresh, t.frameFlags.blocking);
  }

  lemma DecisionAdvances(cfg: Config, g: Display, f: Frame, refresh: RefreshType, reason: Reason)
    requires PanelOk(cfg, g) && g.initialized && !g.asyncRefreshRunning
    ensures var t := Decided(g, f, refresh, reason);
            var after := if refresh == SKIPPED then Stored(t, SKIPPED) else Refreshed(cfg, t, refresh);
            Advanced(Read(g.panel), Read(after.panel), refresh)
  {
    WindowTracked(cfg, g, f, refresh, reason);
    if refresh != SKIPPED {
      RefreshAdvances(cfg, Read(g.panel), Decided(g, f, refresh, reason), refresh);
    }
  }

  lemma ShownAdvances(cfg: Config, d: Display, f: Frame)
    requires PanelOk(cfg, d)
    ensures var outcome := if GateReason(cfg, d, f).Some? then SKIPPED else DecisionFor(cfg, d, f).0;
            Advanced(Read(d.panel), Read(Shown(cfg, d, f).panel), outcome)
  {
    GateAdvances(cfg, d, f);
    if GateReason(cfg, d, f).None? {
      SettledOk(cfg, d);
      PolledOk(cfg, Settled(d), f.busy);
      var (refresh, reason) := DecisionFor(cfg, d, f);
      DecisionAdvances(cfg, AtGate(cfg, d, f), f, refresh, reason);
    }
  }

  lemma NextAdvances(cfg: Config, d: Display, e: Event)
    requires PanelOk(cfg, d)
    ensures Advanced(Read(d.panel), Read(Next(cfg, d, e).panel), OutcomeOf(cfg, d, e))
  {
    if IsFrame(e) {
      ShownAdvances(cfg, Asked(d, e), e.frame);
    } else {
      ReadOne(d.panel, EndRefresh);
    }
  }

  lemma {:induction false} OutcomesRead(cfg: Config, events: seq<Event>)
    ensures var t, outcomes := Read(Run(cfg, events).panel), Outcomes(cfg, events);
            t.last == LastDrawn(outcomes) && (t.overtaken <==> UndecidedThenDrawn(outcomes))
  {
    if events != [] {
      var n := |events| - 1;
      var front, e := events[..n], events[n];
      OutcomesRead(cfg, front);
      RunPanelOk(cfg, front);
      NextAdvances(cfg, Run(cfg, front), e);
      UndecidedIsLastOrFollowed(Outcomes(cfg, front));
      FollowedBy(Outcomes(cfg, front), OutcomeOf(cfg, Run(cfg, front), e));
      assert Outcomes(cfg, events)[..n] == Outcomes(cfg, front);
    }
  }

  /** Over every run, a refresh is begun over an unfinished one exactly when full refreshes run in the background and a
      frame that no rule decides is followed by one that is drawn; which frames those are, UndecidedIff and the decision
      table say. */
  lemma ClashIff(cfg: Config, events: seq<Event>)
    ensures Read(Run(cfg, events).panel).clash
       <==> cfg.asyncFull && exists i, j :: 0 <= i < j < |events|
                               && Outcomes(cfg, events)[i] == UNSPECIFIED && Outcomes(cfg, events)[j] != SKIPPED
  {
    RunPanelOk(cfg, events);
    OutcomesRead(cfg, events);
  }

  const PLAIN_BLOCKING := BACKGROUND.(blocking := true)

  lemma RunLast(cfg: Config, before: seq<Event>, e: Event)
    ensures Run(cfg, before + [e]) == Next(cfg, Run(cfg, before), e)
  {
    assert (before + [e])[..|before|] == before;
  }

  lemma RunThree(cfg: Config, before: seq<Event>, a: Event, b: Event, c: Event)
    ensures Run(cfg, before + [a, b, c]) == Next(cfg, Next(cfg, Next(cfg, Run(cfg, before), a), b), c)
  {
    RunLast(cfg, before, a);
    RunLast(cfg, before + [a], b);
    RunLast(cfg, before + [a] + [b], c);
    assert before + [a, b, c] == before + [a] + [b] + [c];
  }

  /** Nothing is asked for, owed or running, and one more fast refresh is within the limit. */
  ghost predicate AtEase(cfg: Config, d: Display) {
    && d.initialized && d.frameFlags == BACKGROUND && Owed(d.previousReason) == Owed(d.reason) == 0
    && !d.asyncRefreshRunning && d.fastRefreshCount < cfg.limit
  }

  /** Two new frames, a plain one that is to block and one that is to be shown at once. */
  function BlockingThenForced(blocking: Frame, next: Frame): seq<Event> {
    [AddFlag(PLAIN_BLOCKING), Background(blocking), Force(next)]
  }

  ghost predicate NewFrames(d: Display, blocking: Frame, next: Frame) {
    && blocking.hash != d.previousImageHash && next.hash != blocking.hash && !blocking.ghosting && !next.ghosting
    && blocking.now + 1000 <= next.now < TWO_TO_THE_32
  }

  /** A blocking flag on a plain frame is enough for it: it is drawn, no rule decides how, and it is not ended. */
  lemma PlainBlockingFrameClashes(cfg: Config, before: seq<Event>, blocking: Frame, next: Frame)
    requires cfg.asyncFull && AtEase(cfg, Run(cfg, before)) && NewFrames(Run(cfg, before), blocking, next)
    ensures Read(Run(cfg, before + BlockingThenForced(blocking, next)).panel).clash
  {
    RunPanelOk(cfg, before);
    RunThree(cfg, before, AddFlag(PLAIN_BLOCKING), Background(blocking), Force(next));
    var flagged := Flagged(Run(cfg, before), PLAIN_BLOCKING);
    OthersClash(cfg, flagged, blocking, next);
  }

  /** A first frame may be drawn in full, so that no fast refresh has been counted after it. */
  function FullFrame(first: Frame): seq<Event> { [AddFlag(COSMETIC.(blocking := true)), Background(first)] }

  lemma FullFrameAtEase(cfg: Config, first: Frame)
    requires cfg.limit >= 1 && first.now < TWO_TO_THE_32 - 1
    ensures AtEase(cfg, Run(cfg, FullFrame(first))) && Run(cfg, FullFrame(first)).previousImageHash == first.hash
  {
    var flagged := [] + [AddFlag(COSMETIC.(blocking := true))];
    RunLast(cfg, [], AddFlag(COSMETIC.(blocking := true)));
    RunLast(cfg, flagged, Background(first));
    assert FullFrame(first) == flagged + [Background(first)];
    FirstFull(cfg, Run(cfg, flagged), first);
  }

  lemma FirstFull(cfg: Config, d: Display, f: Frame)
    requires d == Flagged(POWER_ON, COSMETIC.(blocking := true)) && f.now < TWO_TO_THE_32 - 1 && cfg.limit >= 1
    ensures AtEase(cfg, Shown(cfg, d, f)) && Shown(cfg, d, f).previousImageHash == f.hash
  {
    assert FrameFlags(d).cosmetic && FrameFlags(d).blocking && GateReason(cfg, d, f).None?;
    assert DecisionFor(cfg, d, f) == (FULL, FLAGGED_COSMETIC);
  }

  lemma {:induction false} UndecidedBelowLimit(cfg: Config, events: seq<Event>)
    requires UNSPECIFIED in Outcomes(cfg, events)
    ensures cfg.limit >= 1
  {
    var front, e := events[..|events| - 1], events[|events| - 1];
    if UNSPECIFIED in Outcomes(cfg, front) {
      UndecidedBelowLimit(cfg, front);
    } else {
      assert OutcomeOf(cfg, Run(cfg, front), e) == UNSPECIFIED;
    }
  }

  /** Some run begins a refresh over an unfinished one exactly in a build that refreshes in the background and has a
      limit of fast refreshes other than 0. */
  lemma ClashPossibleIff(cfg: Config)
    ensures (exists events :: Read(Run(cfg, events).panel).clash) <==> cfg.asyncFull && cfg.limit >= 1
  {
    if events :| Read(Run(cfg, events).panel).clash {
      ClashIff(cfg, events);
      UndecidedBelowLimit(cfg, events);
    }
    if cfg.asyncFull && cfg.limit >= 1 {
      var first, blocking, next := Frame(0, 1, false, false), Frame(1, 2, false, false), Frame(1001, 3, false, false);
      FullFrameAtEase(cfg, first);
      PlainBlockingFrameClashes(cfg, FullFrame(first), blocking, next);
    }
  }

  lemma OthersClash(cfg: Config, d: Display, blocking: Frame, next: Frame)
    requires cfg.asyncFull && PanelOk(cfg, d) && d.initialized && d.frameFlags == PLAIN_BLOCKING
    requires Owed(d.previousReason) == Owed(d.reason) == 0 && !d.asyncRefreshRunning && d.fastRefreshCount < cfg.limit
    requires blocking.hash != d.previousImageHash && next.hash != blocking.hash && !blocking.ghosting && !next.ghosting
    requires blocking.now + 1000 <= next.now < TWO_TO_THE_32
    ensures Read(Shown(cfg, Flagged(Shown(cfg, d, blocking), RESPONSIVE), next).panel).clash
  {
    PlainBlockingUndecided(cfg, d, blocking);
    ShownOk(cfg, d, blocking);
    ResponsiveClashes(cfg, Flagged(Shown(cfg, d, blocking), RESPONSIVE), next);
  }

  lemma ResponsiveClashes(cfg: Config, d: Display, f: Frame)
    requires d.initialized && d.frameFlags == RESPONSIVE && Owed(d.previousReason) == 0
    requires !d.asyncRefreshRunning && f.hash != d.previousImageHash && d.fastRefreshCount < cfg.limit && !f.ghosting
    requires d.previousRunMs + 1000 <= f.now < TWO_TO_THE_32 && Read(d.panel).last == UNSPECIFIED
    requires cfg.asyncFull && PanelOk(cfg, d)
    ensures Read(Shown(cfg, d, f).panel).clash
  {
    ResponsiveDrawn(cfg, d, f);
    ShownOk(cfg, d, f);
  }

  lemma PlainBlockingPasses(cfg: Config, d: Display, f: Frame)
    requires d.initialized && d.frameFlags == PLAIN_BLOCKING && Owed(d.previousReason) == 0 && !d.asyncRefreshRunning
    requires f.hash != d.previousImageHash && d.fastRefreshCount < cfg.limit && !f.ghosting
    ensures GateReason(cfg, d, f).None? && DecisionFor(cfg, d, f) == (UNSPECIFIED, d.reason)
    ensures AtGate(cfg, d, f) == d
  {
    assert FrameFlags(d) == d.frameFlags;
  }

  lemma PlainBlockingUndecided(cfg: Config, d: Display, f: Frame)
    requires d.initialized && d.frameFlags == PLAIN_BLOCKING && Owed(d.previousReason) == 0 && !d.asyncRefreshRunning
    requires f.hash != d.previousImageHash && d.fastRefreshCount < cfg.limit && !f.ghosting
    ensures var d' := Shown(cfg, d, f);
            Read(d'.panel).last == UNSPECIFIED && d'.initialized && !d'.asyncRefreshRunning
            && d'.frameFlags == BACKGROUND && d'.previousReason == d.reason
            && d'.previousRunMs == f.now && d'.previousImageHash == f.hash && d'.fastRefreshCount == d.fastRefreshCount
  {
    PlainBlockingPasses(cfg, d, f);
    assert d.panel + [] == d.panel;
    assert Shown(cfg, d, f) == Refreshed(cfg, Decided(d, f, UNSPECIFIED, d.reason), UNSPECIFIED);
    ReadRefresh(cfg, d.panel, UNSPECIFIED, true);
  }

  lemma ResponsiveDrawn(cfg: Config, d: Display, f: Frame)
    requires d.initialized && d.frameFlags == RESPONSIVE && Owed(d.previousReason) == 0
    requires !d.asyncRefreshRunning && f.hash != d.previousImageHash && d.fastRefreshCount < cfg.limit && !f.ghosting
    requires d.previousRunMs + 1000 <= f.now < TWO_TO_THE_32 && Read(d.panel).last == UNSPECIFIED
    ensures Read(Shown(cfg, d, f).panel).overtaken
  {
    assert FrameFlags(d) == d.frameFlags;
    assert GateReason(cfg, d, f).None?;
    assert DecisionFor(cfg, d, f) == (FAST, NO_OBJECTIONS);
    DrawnFast(cfg, d, f);
    FastOvertakes(cfg, d.panel, d.currentConfig);
  }

  lemma DrawnFast(cfg: Config, d: Display, f: Frame)
    requires d.initialized && !d.asyncRefreshRunning && GateReason(cfg, d, f).None?
    requires DecisionFor(cfg, d, f).0 == FAST
    ensures Shown(cfg, d, f).panel
         == AfterRefresh(cfg, d.panel + WindowOps(d.currentConfig, FAST), FAST, FrameFlags(d).blocking)
  {
  }

  lemma FastOvertakes(cfg: Config, panel: seq<PanelOp>, currentConfig: RefreshType)
    requires Read(panel).last == UNSPECIFIED
    ensures forall blocking ::
              Read(AfterRefresh(cfg, panel + WindowOps(currentConfig, FAST), FAST, blocking)).overtaken
  {
    var drawn := panel + WindowOps(currentConfig, FAST);
    if currentConfig == FULL {
      ReadOne(panel, PartialWindow);
    } else {
      assert drawn == panel;
    }
    ReadRefresh(cfg, drawn, FAST, false);
    ReadRefresh(cfg, drawn, FAST, true);
  }

  // ---- The limit of fast refreshes ----

  /** No caller asks for fast refreshes outside the limit. */
  ghost predicate Calm(events: seq<Event>) {
    forall i :: 0 <= i < |events| && events[i].AddFlag? ==>
      !events[i].flags.demandFast && !events[i].flags.unlimitedFast
  }

  ghost predicate WithinLimit(cfg: Config, d: Display) {
    && !d.frameFlags.demandFast && !d.frameFlags.unlimitedFast && Owed(d.previousReason) < 3
    && d.fastRefreshCount <= cfg.limit
  }

  lemma FirstFrameWithinLimit(cfg: Config, d: Display, f: Frame)
    requires cfg.limit >= 1 && WithinLimit(cfg, d) && BetweenFrames(d) && !d.initialized
    ensures WithinLimit(cfg, Shown(cfg, d, f))
  {
    assert FrameFlags(d).demandFast && GateReason(cfg, d, f).None?;
    assert Shown(cfg, d, f).fastRefreshCount <= 1;
  }

  lemma DecisionWithinLimit(cfg: Config, flags: Flags, count: nat, same: bool, ghosting: bool, stale: Reason)
    requires !flags.demandFast && !flags.unlimitedFast && count <= cfg.limit && Owed(stale) < 3
    ensures var (refresh, reason) := Decision(cfg, flags, count, same, ghosting, stale);
            Owed(reason) < 3 && (refresh == FAST ==> count < cfg.limit)
  {
  }

  lemma CalmFlags(d: Display)
    requires d.initialized && !d.frameFlags.demandFast && !d.frameFlags.unlimitedFast && Owed(d.previousReason) < 3
    ensures !FrameFlags(d).demandFast && !FrameFlags(d).unlimitedFast
  {
  }

  lemma LaterFrameWithinLimit(cfg: Config, d: Display, f: Frame)
    requires WithinLimit(cfg, d) && BetweenFrames(d) && d.initialized
    ensures WithinLimit(cfg, Shown(cfg, d, f))
  {
    CalmFlags(d);
    ShownParts(cfg, d, f);
    if GateReason(cfg, d, f).Some? {
      TurnedAwayOwes(cfg, d, f);
    } else {
      DecisionWithinLimit(cfg, FrameFlags(d), d.fastRefreshCount, f.hash == d.previousImageHash, f.ghosting, d.reason);
    }
  }

  lemma {:induction false} CalmRunWithinLimit(cfg: Config, events: seq<Event>)
    requires cfg.limit >= 1 && Calm(events)
    ensures WithinLimit(cfg, Run(cfg, events))
  {
    if events != [] {
      var before, e := events[..|events| - 1], events[|events| - 1];
      CalmRunWithinLimit(cfg, before);
      RunBetweenFrames(cfg, before);
      var d := Run(cfg, before);
      if IsFrame(e) {
        if d.initialized {
          LaterFrameWithinLimit(cfg, Asked(d, e), e.frame);
        } else {
          FirstFrameWithinLimit(cfg, Asked(d, e), e.frame);
        }
      }
    }
  }

  /** With a limit of none the very first frame already breaks it. */
  lemma FirstFrameIsFast(cfg: Config)
    ensures Run(cfg, [Background(Frame(0, 1, false, false))]).fastRefreshCount == 1
  {
    var e := Background(Frame(0, 1, false, false));
    assert [e][..0] == [];
    assert Run(cfg, []) == POWER_ON;
    assert FrameFlags(POWER_ON) == DEMAND_FAST;
  }

  /** The fast refreshes since a full one stay within the limit over all runs of calm callers just when it is not 0. */
  lemma FastRefreshLimitIff(cfg: Config)
    ensures (forall events :: Calm(events) ==> Read(Run(cfg, events).panel).fast <= cfg.limit) <==> cfg.limit >= 1
  {
    forall events | Calm(events) && cfg.limit >= 1 ensures Read(Run(cfg, events).panel).fast <= cfg.limit {
      CalmRunWithinLimit(cfg, events);
      RunPanelOk(cfg, events);
    }
    var first := [Background(Frame(0, 1, false, false))];
    FirstFrameIsFast(cfg);
    RunPanelOk(cfg, first);
    assert Calm(first);
  }
}
