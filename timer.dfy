/** The session timer object. Its methods update the fields step by step as
    the app's timer does, and each is proved to land in the state the pure
    transition of module TimerModel describes. The periodic ticker and the
    wake / clock-change notifications are replaced by explicit calls to
    UpdateRemaining; completion events are returned instead of published. */
module Timer {
  import opened Common
  import M = TimerModel

  class TimerManager {
    var phase: M.Phase
    var isPaused: bool
    var remainingSeconds: int
    var completedPomosInCycle: int
    var sessionType: EntryType
    var sessionNotes: string
    var targetEndDate: Option<int>
    var focusStartedAt: Option<int>
    var focusDurationUsed: int
    var storedRemaining: int

    /** The object's fields as a value. */
    function State(): M.TimerState
      reads this
    {
      M.TimerState(phase, isPaused, remainingSeconds, completedPomosInCycle,
                   sessionType, sessionNotes, targetEndDate, focusStartedAt,
                   focusDurationUsed, storedRemaining)
    }

    /** True when a refresh at `now` would run the expiry. */
    predicate WouldExpire(now: int)
      reads this
    {
      targetEndDate.Some? && !isPaused && targetEndDate.value <= now
    }

    constructor ()
      ensures State() == M.Initial
      ensures M.Valid(State())
    {
      phase := M.Idle;
      isPaused := false;
      remainingSeconds := 0;
      completedPomosInCycle := 0;
      sessionType := FocusType;
      sessionNotes := "";
      targetEndDate := None;
      focusStartedAt := None;
      focusDurationUsed := 0;
      storedRemaining := 0;
    }

    method StartFocus(now: int, cfg: M.Config, durationMinutes: Option<int>, entryType: Option<EntryType>)
      modifies this
      decreases 1
      requires M.Valid(State())
      ensures State() == M.StartFocus(old(State()), now, cfg, durationMinutes, entryType)
      ensures M.Valid(State())
    {
      var minutes := durationMinutes.GetOr(cfg.focusDuration);
      var duration := (if minutes > 0 then minutes else M.DefaultFocusMinutes) * 60;
      phase := M.Focus;
      isPaused := false;
      sessionType := entryType.GetOr(FocusType);
      sessionNotes := "";
      focusStartedAt := Some(now);
      focusDurationUsed := duration;
      targetEndDate := Some(now + duration);
      var _ := UpdateRemaining(now, cfg);
    }

    method StartBreak(now: int, cfg: M.Config)
      modifies this
      decreases 1
      requires M.Valid(State())
      ensures State() == M.StartBreak(old(State()), now, cfg)
      ensures M.Valid(State())
    {
      var longInterval := cfg.longBreakInterval;
      var interval := if longInterval > 0 then longInterval else M.DefaultLongBreakInterval;
      var isLong := completedPomosInCycle > 0 && completedPomosInCycle % interval == 0;
      var minutes := if isLong then cfg.longBreakDuration else cfg.shortBreakDuration;
      var defaultMinutes := if isLong then M.DefaultLongBreakMinutes else M.DefaultShortBreakMinutes;
      var duration := (if minutes > 0 then minutes else defaultMinutes) * 60;
      phase := if isLong then M.LongBreak else M.ShortBreak;
      isPaused := false;
      targetEndDate := Some(now + duration);
      var _ := UpdateRemaining(now, cfg);
    }

    method Pause(now: int)
      modifies this
      requires M.Valid(State())
      ensures State() == M.Pause(old(State()), now)
      ensures M.Valid(State())
    {
      if isPaused || phase == M.Idle || targetEndDate.None? {
        return;
      }
      isPaused := true;
      var remaining := targetEndDate.value - now;
      storedRemaining := if remaining > 0 then remaining else 0;
    }

    method Resume(now: int, cfg: M.Config) returns (event: Option<TimerEvent>)
      modifies this
      requires M.Valid(State())
      ensures (State(), event) == M.Resume(old(State()), now, cfg)
      ensures M.Valid(State())
    {
      if !isPaused || phase == M.Idle {
        return None;
      }
      isPaused := false;
      targetEndDate := Some(now + storedRemaining);
      event := UpdateRemaining(now, cfg);
    }

    method CancelTimer()
      modifies this
      requires M.Valid(State())
      ensures State() == M.CancelTimer(old(State()))
      ensures M.Valid(State())
    {
      phase := M.Idle;
      isPaused := false;
      sessionType := FocusType;
      sessionNotes := "";
      targetEndDate := None;
      focusStartedAt := None;
      focusDurationUsed := 0;
      storedRemaining := 0;
      remainingSeconds := 0;
    }

    method Snooze(now: int, cfg: M.Config)
      modifies this
      requires M.Valid(State())
      ensures State() == M.Snooze(old(State()), now)
      ensures M.Valid(State())
    {
      phase := M.ShortBreak;
      isPaused := false;
      targetEndDate := Some(now + M.SnoozeSeconds);
      var _ := UpdateRemaining(now, cfg);
    }

    /** The tick: recompute the remaining time from the deadline, and run
        the expiry once it has passed. */
    method UpdateRemaining(now: int, cfg: M.Config) returns (event: Option<TimerEvent>)
      modifies this
      decreases if WouldExpire(now) then 3 else 0
      requires M.Valid(State())
      ensures (State(), event) == M.UpdateRemaining(old(State()), now, cfg)
      ensures M.Valid(State())
    {
      if targetEndDate.None? || isPaused {
        return None;
      }
      var remaining := targetEndDate.value - now;
      if remaining <= 0 {
        remainingSeconds := 0;
        event := HandleTimerExpiry(now, cfg);
      } else {
        remainingSeconds := remaining;
        event := None;
      }
    }

    method HandleTimerExpiry(now: int, cfg: M.Config) returns (event: Option<TimerEvent>)
      modifies this
      decreases 2
      requires M.Valid(State()) && !isPaused
      ensures (State(), event) == M.HandleTimerExpiry(old(State()), now, cfg)
      ensures M.Valid(State())
    {
      match phase {
        case Focus =>
          var startedAt := focusStartedAt.GetOr(now);
          var duration := focusDurationUsed;
          var entryType := sessionType;
          completedPomosInCycle := completedPomosInCycle + 1;
          StartBreak(now, cfg);
          event := Some(FocusCompleted(startedAt, duration, entryType));
        case ShortBreak | LongBreak =>
          if cfg.autoStartFocus {
            StartFocus(now, cfg, None, None);
          } else {
            phase := M.Idle;
            targetEndDate := None;
            remainingSeconds := 0;
          }
          event := Some(BreakCompleted);
        case Idle =>
          event := None;
      }
    }
  }
}
