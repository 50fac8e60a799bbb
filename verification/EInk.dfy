/** The scheduler that picks a refresh for every frame an e-ink panel is asked to show. */
module EInk {

  import opened Throttle
  import opened Wrappers

  datatype RefreshType = UNSPECIFIED | FULL | FAST | SKIPPED

  datatype Reason =
    | NO_OBJECTIONS
    | ASYNC_REFRESH_BLOCKED_DEMANDFAST | ASYNC_REFRESH_BLOCKED_COSMETIC
    | ASYNC_REFRESH_BLOCKED_RESPONSIVE | ASYNC_REFRESH_BLOCKED_BACKGROUND
    | EXCEEDED_RATELIMIT_FAST | EXCEEDED_RATELIMIT_FULL
    | FLAGGED_COSMETIC | FLAGGED_DEMAND_FAST
    | EXCEEDED_LIMIT_FASTREFRESH | EXCEEDED_GHOSTINGLIMIT
    | FRAME_MATCHED_PREVIOUS | BACKGROUND_USES_FAST | FLAGGED_BACKGROUND | REDRAW_WITH_FULL

  /** The flags of a frame beside BACKGROUND, which every frame carries. */
  datatype Flags = Flags(responsive: bool, cosmetic: bool, demandFast: bool, blocking: bool, unlimitedFast: bool)

  const BACKGROUND := Flags(false, false, false, false, false)
  const RESPONSIVE := BACKGROUND.(responsive := true)
  const COSMETIC := BACKGROUND.(cosmetic := true)
  const DEMAND_FAST := BACKGROUND.(demandFast := true)

  function Or(f: Flags, g: Flags): Flags {
    Flags(f.responsive || g.responsive, f.cosmetic || g.cosmetic, f.demandFast || g.demandFast,
          f.blocking || g.blocking, f.unlimitedFast || g.unlimitedFast)
  }

  /** What the build sets: the limit of fast refreshes, whether background frames may be fast, whether full refreshes
      run in the background. */
  datatype Config = Config(limit: nat, backgroundUsesFast: bool, asyncFull: bool)

  /** A frame to show: when, the hash of its image, whether the panel is busy and whether it would ghost too much. */
  datatype Frame = Frame(now: nat, hash: nat, busy: bool, ghosting: bool)

  /** What the panel is told to do. */
  datatype PanelOp = FullWindow | PartialWindow | ClearScreen | Refresh(kind: RefreshType) | EndRefresh

  datatype Display = Display(
    frameFlags: Flags, reason: Reason,
    previousFrameFlags: Flags, previousRefresh: RefreshType, previousReason: Reason,
    initialized: bool, previousRunMs: nat, imageHash: nat, previousImageHash: nat,
    fastRefreshCount: nat, currentConfig: RefreshType, asyncRefreshRunning: bool, panel: seq<PanelOp>)

  const POWER_ON := Display(
    BACKGROUND, NO_OBJECTIONS, BACKGROUND, UNSPECIFIED, NO_OBJECTIONS,
    false, TWO_TO_THE_32 - 1, 0, 0, 0, FULL, false, [])

  function Flagged(d: Display, flags: Flags): Display { d.(frameFlags := Or(d.frameFlags, flags)) }

  // ---- One frame ----

  /** The flag a frame inherits from one that was skipped. */
  function Promotion(previousReason: Reason): Flags {
    match previousReason
    case ASYNC_REFRESH_BLOCKED_DEMANDFAST => DEMAND_FAST
    case ASYNC_REFRESH_BLOCKED_COSMETIC => COSMETIC
    case ASYNC_REFRESH_BLOCKED_RESPONSIVE => RESPONSIVE
    case EXCEEDED_RATELIMIT_FAST => RESPONSIVE
    case _ => BACKGROUND
  }

  /** The flags a frame is judged by. */
  function FrameFlags(d: Display): Flags {
    var own := if d.initialized then d.frameFlags else Or(d.frameFlags, DEMAND_FAST);
    Or(own, Promotion(d.previousReason))
  }

  function BlockedReason(flags: Flags): Reason {
    if flags.demandFast then ASYNC_REFRESH_BLOCKED_DEMANDFAST
    else if flags.cosmetic then ASYNC_REFRESH_BLOCKED_COSMETIC
    else if flags.responsive then ASYNC_REFRESH_BLOCKED_RESPONSIVE
    else ASYNC_REFRESH_BLOCKED_BACKGROUND
  }

  function RateReason(previousRunMs: nat, flags: Flags, now: nat): Option<Reason> {
    if previousRunMs > now then None
    else if flags == BACKGROUND && IsWithinTimespanMs(now, previousRunMs, 30000) then Some(EXCEEDED_RATELIMIT_FULL)
    else if flags.cosmetic || flags.demandFast then None
    else if flags.responsive && IsWithinTimespanMs(now, previousRunMs, 1000) then Some(EXCEEDED_RATELIMIT_FAST)
    else None
  }

  predicate Busy(cfg: Config, d: Display, f: Frame) { cfg.asyncFull && d.asyncRefreshRunning && f.busy }

  /** Why a frame is turned away before it is looked at, if it is: the rate limit's reason hides the busy panel's. */
  function GateReason(cfg: Config, d: Display, f: Frame): Option<Reason> {
    var flags := FrameFlags(d);
    var rate := RateReason(d.previousRunMs, flags, f.now);
    if rate.Some? then rate
    else if Busy(cfg, d, f) then Some(BlockedReason(flags))
    else None
  }

  /** The decision for a frame that is due; one that no rule decides keeps the reason of the frame before. */
  function Decision(cfg: Config, flags: Flags, count: nat, same: bool, ghosting: bool, stale: Reason)
    : (RefreshType, Reason)
  {
    if flags.cosmetic then (FULL, FLAGGED_COSMETIC)
    else if flags.demandFast then (FAST, FLAGGED_DEMAND_FAST)
    else if same then
      if !cfg.backgroundUsesFast && flags == BACKGROUND && count > 0 then (FULL, REDRAW_WITH_FULL)
      else (SKIPPED, FRAME_MATCHED_PREVIOUS)
    else if flags.unlimitedFast then (FAST, NO_OBJECTIONS)
    else if count >= cfg.limit then (FULL, EXCEEDED_LIMIT_FASTREFRESH)
    else if ghosting then (FULL, EXCEEDED_GHOSTINGLIMIT)
    else if flags == BACKGROUND then
      if cfg.backgroundUsesFast then (FAST, BACKGROUND_USES_FAST) else (FULL, FLAGGED_BACKGROUND)
    else if flags.responsive then (FAST, NO_OBJECTIONS)
    else (UNSPECIFIED, stale)
  }

  function DecisionFor(cfg: Config, d: Display, f: Frame): (RefreshType, Reason) {
    Decision(cfg, FrameFlags(d), d.fastRefreshCount, f.hash == d.previousImageHash, f.ghosting, d.reason)
  }

  /** The display when the flags of its frame are settled. */
  function Settled(d: Display): Display {
    var g := d.(frameFlags := FrameFlags(d), initialized := true);
    if d.initialized then g else g.(panel := d.panel + [FullWindow, ClearScreen])
  }

  /** The end of a refresh that runs in the background, when the panel is found idle. */
  function Polled(d: Display, busy: bool): Display {
    if d.asyncRefreshRunning && !busy then d.(asyncRefreshRunning := false, panel := d.panel + [EndRefresh]) else d
  }

  /** The display when its flags are settled and a refresh that has run out is ended. */
  function AtGate(cfg: Config, d: Display, f: Frame): Display {
    if cfg.asyncFull then Polled(Settled(d), f.busy) else Settled(d)
  }

  function WindowOps(currentConfig: RefreshType, refresh: RefreshType): seq<PanelOp> {
    if currentConfig == FULL && refresh == FAST then [PartialWindow]
    else if currentConfig == FAST && refresh == FULL then [FullWindow]
    else []
  }

  /** Whether a refresh is ended as soon as it was begun. */
  predicate EndsAtOnce(cfg: Config, refresh: RefreshType, blocking: bool) {
    refresh == FAST || (refresh == FULL && (!cfg.asyncFull || blocking))
  }

  /** What the panel was told once a refresh is begun, and ended or left running. */
  function AfterRefresh(cfg: Config, panel: seq<PanelOp>, refresh: RefreshType, blocking: bool): seq<PanelOp> {
    panel + [Refresh(refresh)] + (if cfg.asyncFull then [] else [EndRefresh])
    + if EndsAtOnce(cfg, refresh, blocking) then [EndRefresh] else []
  }

  /** The display with its window set for a refresh. */
  function WindowSet(g: Display, refresh: RefreshType): Display {
    g.(currentConfig := if refresh == FAST || refresh == FULL then refresh else g.currentConfig,
       panel := g.panel + WindowOps(g.currentConfig, refresh))
  }

  /** The display with a refresh counted. */
  function Counted(g: Display, refresh: RefreshType): Display {
    g.(fastRefreshCount := if refresh == FAST then g.fastRefreshCount + 1
                           else if refresh == FULL then 0 else g.fastRefreshCount)
  }

  /** The display when the decision for a frame was reached. */
  function Decided(g: Display, f: Frame, refresh: RefreshType, reason: Reason): Display {
    Counted(WindowSet(g.(reason := reason, previousRunMs := f.now, imageHash := f.hash), refresh), refresh)
  }

  /** The display when the outcome for a frame is kept for the next one. */
  function Stored(t: Display, refresh: RefreshType): Display {
    t.(frameFlags := BACKGROUND, previousFrameFlags := t.frameFlags, previousRefresh := refresh,
       previousReason := t.reason,
       previousImageHash := if refresh == SKIPPED then t.previousImageHash else t.imageHash)
  }

  /** The display when the panel was refreshed as decided. */
  function Refreshed(cfg: Config, t: Display, refresh: RefreshType): Display {
    Stored(t, refresh).(
      asyncRefreshRunning := if cfg.asyncFull && refresh == FULL then !t.frameFlags.blocking else t.asyncRefreshRunning,
      panel := AfterRefresh(cfg, t.panel, refresh, t.frameFlags.blocking))
  }

  /** The display after a frame. */
  function Shown(cfg: Config, d: Display, f: Frame): Display {
    var g, gate := AtGate(cfg, d, f), GateReason(cfg, d, f);
    if gate.Some? then Stored(g.(reason := gate.value), SKIPPED)
    else
      var (refresh, reason) := DecisionFor(cfg, d, f);
      var t := Decided(g, f, refresh, reason);
      if refresh == SKIPPED then Stored(t, SKIPPED) else Refreshed(cfg, t, refresh)
  }

  class EInkDynamicDisplay {
    const cfg: Config
    var frameFlags: Flags
    var refresh: RefreshType
    var reason: Reason
    var previousFrameFlags: Flags
    var previousRefresh: RefreshType
    var previousReason: Reason
    var initialized: bool
    var previousRunMs: nat
    var imageHash: nat
    var previousImageHash: nat
    var fastRefreshCount: nat
    var currentConfig: RefreshType
    var asyncRefreshRunning: bool
    var panel: seq<PanelOp>

    ghost function Value(): Display
      reads this
    {
      Display(frameFlags, reason, previousFrameFlags, previousRefresh, previousReason, initialized, previousRunMs,
              imageHash, previousImageHash, fastRefreshCount, currentConfig, asyncRefreshRunning, panel)
    }

    /** Between frames no decision is pending. */
    ghost predicate Idle()
      reads this
    {
      refresh == UNSPECIFIED && currentConfig in {FULL, FAST} && (asyncRefreshRunning ==> cfg.asyncFull)
    }

    constructor (config: Config)
      ensures cfg == config && Idle() && Value() == POWER_ON
    {
      cfg := config;
      frameFlags, refresh, reason := BACKGROUND, UNSPECIFIED, NO_OBJECTIONS;
      previousFrameFlags, previousRefresh, previousReason := BACKGROUND, UNSPECIFIED, NO_OBJECTIONS;
      initialized, previousRunMs, imageHash, previousImageHash := false, TWO_TO_THE_32 - 1, 0, 0;
      fastRefreshCount, currentConfig, asyncRefreshRunning, panel := 0, FULL, false, [];
    }

    method AddFrameFlag(flags: Flags)
      modifies this`frameFlags
      ensures frameFlags == Or(old(frameFlags), flags)
    {
      frameFlags := Or(frameFlags, flags);
    }

    method DisableUnlimitedFastMode()
      modifies this`frameFlags
      ensures frameFlags == old(frameFlags).(unlimitedFast := false)
    {
      frameFlags := frameFlags.(unlimitedFast := false);
    }

    /** Settles the flags of the frame: the very first one demands a fast refresh, a skipped one promotes the next. */
    method SettleFlags()
      modifies this`frameFlags, this`initialized, this`panel
      ensures Value() == Settled(old(Value()))
    {
      if !initialized {
        panel := panel + [FullWindow, ClearScreen];
        initialized := true;
        AddFrameFlag(DEMAND_FAST);
      }
      match previousReason {
        case ASYNC_REFRESH_BLOCKED_DEMANDFAST => AddFrameFlag(DEMAND_FAST);
        case ASYNC_REFRESH_BLOCKED_COSMETIC => AddFrameFlag(COSMETIC);
        case ASYNC_REFRESH_BLOCKED_RESPONSIVE => AddFrameFlag(RESPONSIVE);
        case EXCEEDED_RATELIMIT_FAST => AddFrameFlag(RESPONSIVE);
        case _ =>
      }
    }

    method PollAsyncRefresh(busy: bool)
      modifies this`asyncRefreshRunning, this`panel
      ensures Value() == Polled(old(Value()), busy)
    {
      if asyncRefreshRunning && !busy {
        panel := panel + [EndRefresh];
        asyncRefreshRunning := false;
      }
    }

    /** Waits for a refresh that runs in the background, and ends it. */
    method JoinAsyncRefresh()
      modifies this`asyncRefreshRunning, this`panel
      ensures Value() == Polled(old(Value()), false)
    {
      PollAsyncRefresh(false);
    }

    method CheckBusyAsyncRefresh(busy: bool)
      requires Idle()
      modifies this`refresh, this`reason, this`asyncRefreshRunning, this`panel
      ensures var blocked := old(asyncRefreshRunning) && busy;
              refresh == (if blocked then SKIPPED else UNSPECIFIED)
              && Value() == Polled(old(Value()), busy)
                              .(reason := if blocked then BlockedReason(frameFlags) else old(reason))
    {
      if !asyncRefreshRunning {
        return;
      }
      if busy {
        refresh := SKIPPED;
        if frameFlags.demandFast {
          reason := ASYNC_REFRESH_BLOCKED_DEMANDFAST;
        } else if frameFlags.cosmetic {
          reason := ASYNC_REFRESH_BLOCKED_COSMETIC;
        } else if frameFlags.responsive {
          reason := ASYNC_REFRESH_BLOCKED_RESPONSIVE;
        } else {
          reason := ASYNC_REFRESH_BLOCKED_BACKGROUND;
        }
      } else {
        PollAsyncRefresh(busy);
      }
    }

    method CheckRateLimiting(now: nat)
      modifies this`refresh, this`reason
      ensures var rate := RateReason(previousRunMs, frameFlags, now);
              if rate.Some? then refresh == SKIPPED && reason == rate.value
              else refresh == old(refresh) && reason == old(reason)
    {
      if previousRunMs > now {
        return;
      }
      if frameFlags == BACKGROUND {
        if IsWithinTimespanMs(now, previousRunMs, 30000) {
          refresh, reason := SKIPPED, EXCEEDED_RATELIMIT_FULL;
          return;
        }
      }
      if frameFlags.cosmetic || frameFlags.demandFast {
        return;
      }
      if frameFlags.responsive {
        if IsWithinTimespanMs(now, previousRunMs, 1000) {
          refresh, reason := SKIPPED, EXCEEDED_RATELIMIT_FAST;
        }
      }
    }

    /** Runs the checks of a frame that is due, each of which leaves a decision already reached alone. */
    method Decide(ghosting: bool)
      requires refresh == UNSPECIFIED
      modifies this`refresh, this`reason
      ensures (refresh, reason)
           == Decision(cfg, frameFlags, fastRefreshCount, imageHash == previousImageHash, ghosting, old(reason))
    {
      if frameFlags.cosmetic {
        refresh, reason := FULL, FLAGGED_COSMETIC;
      }
      if refresh == UNSPECIFIED && frameFlags.demandFast {
        refresh, reason := FAST, FLAGGED_DEMAND_FAST;
      }
      if refresh == UNSPECIFIED && imageHash == previousImageHash {
        if !cfg.backgroundUsesFast && frameFlags == BACKGROUND && fastRefreshCount > 0 {
          refresh, reason := FULL, REDRAW_WITH_FULL;
        } else {
          refresh, reason := SKIPPED, FRAME_MATCHED_PREVIOUS;
        }
      }
      if refresh == UNSPECIFIED {
        if frameFlags.unlimitedFast {
          refresh, reason := FAST, NO_OBJECTIONS;
        } else if fastRefreshCount >= cfg.limit {
          refresh, reason := FULL, EXCEEDED_LIMIT_FASTREFRESH;
        }
      }
      if refresh == UNSPECIFIED && ghosting {
        refresh, reason := FULL, EXCEEDED_GHOSTINGLIMIT;
      }
      if refresh == UNSPECIFIED {
        if frameFlags == BACKGROUND {
          if cfg.backgroundUsesFast {
            refresh, reason := FAST, BACKGROUND_USES_FAST;
          } else {
            refresh, reason := FULL, FLAGGED_BACKGROUND;
          }
        }
        if frameFlags.responsive {
          refresh, reason := FAST, NO_OBJECTIONS;
        }
      }
    }

    method ApplyRefreshMode()
      requires currentConfig in {FULL, FAST}
      modifies this`currentConfig, this`panel
      ensures currentConfig in {FULL, FAST} && Value() == WindowSet(old(Value()), refresh)
    {
      if currentConfig == FULL && refresh == FAST {
        panel := panel + [PartialWindow];
        currentConfig := FAST;
      } else if currentConfig == FAST && refresh == FULL {
        panel := panel + [FullWindow];
        currentConfig := FULL;
      }
    }

    method AdjustRefreshCounters()
      modifies this`fastRefreshCount
      ensures Value() == Counted(old(Value()), refresh)
    {
      if refresh == FAST {
        fastRefreshCount := fastRefreshCount + 1;
      } else if refresh == FULL {
        fastRefreshCount := 0;
      }
    }

    /** Keeps the outcome for the next frame and clears the decision. */
    method StoreAndReset()
      modifies this`previousFrameFlags, this`previousRefresh, this`previousReason, this`previousImageHash,
               this`frameFlags, this`refresh
      ensures Value() == Stored(old(Value()), old(refresh)) && refresh == UNSPECIFIED
    {
      previousFrameFlags, previousRefresh, previousReason := frameFlags, refresh, reason;
      if refresh != SKIPPED {
        previousImageHash := imageHash;
      }
      frameFlags, refresh := BACKGROUND, UNSPECIFIED;
    }

    /** Begins the refresh decided on, and ends it or leaves a full one running in the background. */
    method RefreshPanel()
      requires currentConfig in {FULL, FAST} && refresh != SKIPPED
      modifies this
      ensures Value() == Refreshed(cfg, old(Value()), old(refresh)) && refresh == UNSPECIFIED
    {
      panel := panel + [Refresh(refresh)] + if cfg.asyncFull then [] else [EndRefresh];
      StoreAndReset();
      if cfg.asyncFull {
        if previousRefresh == FULL {
          asyncRefreshRunning := true;
          if previousFrameFlags.blocking {
            PollAsyncRefresh(false);
          }
        } else if previousRefresh == FAST {
          panel := panel + [EndRefresh];
        }
      } else if previousRefresh == FULL || previousRefresh == FAST {
        panel := panel + [EndRefresh];
      }
    }

    /** Runs the checks that can turn a frame away before it is looked at. */
    method PassGate(f: Frame)
      requires Idle()
      modifies this`frameFlags, this`initialized, this`panel, this`refresh, this`reason, this`asyncRefreshRunning
      ensures var d := old(Value());
              var g, gate := AtGate(cfg, d, f), GateReason(cfg, d, f);
              if gate.Some? then refresh == SKIPPED && Value() == g.(reason := gate.value)
              else refresh == UNSPECIFIED && Value() == g
    {
      SettleFlags();
      if cfg.asyncFull {
        CheckBusyAsyncRefresh(f.busy);
      }
      CheckRateLimiting(f.now);
    }

    /** Decides how to show a frame that is due, and sets the panel's window for it. */
    method Resolve(f: Frame)
      requires refresh == UNSPECIFIED && currentConfig in {FULL, FAST}
      modifies this
      ensures currentConfig in {FULL, FAST} && Value() == Decided(old(Value()), f, refresh, reason)
      ensures (refresh, reason) == Decision(cfg, old(frameFlags), old(fastRefreshCount),
                                            f.hash == old(previousImageHash), f.ghosting, old(reason))
    {
      previousRunMs, imageHash := f.now, f.hash;
      Decide(f.ghosting);
      ApplyRefreshMode();
      AdjustRefreshCounters();
    }

    method DetermineMode(f: Frame) returns (approved: bool)
      requires Idle()
      modifies this
      ensures currentConfig in {FULL, FAST} && approved == (refresh != SKIPPED)
      ensures var d := old(Value());
              var g, gate := AtGate(cfg, d, f), GateReason(cfg, d, f);
              if gate.Some? then !approved && Value() == g.(reason := gate.value)
              else var decision := DecisionFor(cfg, d, f);
                   refresh == decision.0 && Value() == Decided(g, f, decision.0, decision.1)
    {
      PassGate(f);
      if refresh == SKIPPED {
        return false;
      }
      Resolve(f);
      return refresh != SKIPPED;
    }

    /** Shows a frame, or skips it. */
    method Update(f: Frame) returns (approved: bool)
      requires Idle()
      modifies this
      ensures Idle() && Value() == Shown(cfg, old(Value()), f)
      ensures approved == (previousRefresh != SKIPPED)
    {
      approved := DetermineMode(f);
      if approved {
        RefreshPanel();
      } else {
        StoreAndReset();
      }
    }

    /** Shows a background frame. */
    method ShowBackground(f: Frame) returns (approved: bool)
      requires Idle()
      modifies this
      ensures Idle() && Value() == Shown(cfg, old(Value()), f)
    {
      AddFrameFlag(BACKGROUND);
      approved := Update(f);
    }

    /** Shows a responsive frame. */
    method ForceDisplay(f: Frame) returns (approved: bool)
      requires Idle()
      modifies this
      ensures Idle() && Value() == Shown(cfg, Flagged(old(Value()), RESPONSIVE), f)
    {
      AddFrameFlag(RESPONSIVE);
      approved := Update(f);
    }
  }
}
