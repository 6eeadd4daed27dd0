/** The session timer's state machine as pure transitions over a snapshot of
    its fields. The clock reading `now` (whole seconds) and the user
    settings are parameters of every transition. The class in module Timer
    performs the same steps in place and is proved to agree with these. */
module TimerModel {
  import opened Common

  datatype Phase = Idle | Focus | ShortBreak | LongBreak

  /** The user settings the timer reads at the moment of each call; an
      absent integer setting reads as 0. */
  datatype Config = Config(
    focusDuration: int,
    shortBreakDuration: int,
    longBreakDuration: int,
    longBreakInterval: int,
    autoStartFocus: bool)

  datatype TimerState = TimerState(
    phase: Phase,
    isPaused: bool,
    remainingSeconds: int,
    completedPomosInCycle: int,
    sessionType: EntryType,
    sessionNotes: string,
    targetEndDate: Option<int>,
    focusStartedAt: Option<int>,
    focusDurationUsed: int,
    storedRemaining: int)

  const Initial: TimerState :=
    TimerState(Idle, false, 0, 0, FocusType, "", None, None, 0, 0)

  const DefaultFocusMinutes: int := 25
  const DefaultShortBreakMinutes: int := 5
  const DefaultLongBreakMinutes: int := 15
  const DefaultLongBreakInterval: int := 4
  const SnoozeSeconds: int := 5 * 60

  /** The state every reachable timer is in. */
  predicate Valid(s: TimerState) {
    && s.remainingSeconds >= 0
    && s.storedRemaining >= 0
    && s.completedPomosInCycle >= 0
    && s.focusDurationUsed >= 0
    && (s.phase == Idle <==> s.targetEndDate.None?)
    && (s.phase == Idle ==> !s.isPaused)
  }

  // ---------------------------------------------------------------------
  // Durations chosen from the settings

  /** Focus length in seconds: the requested or configured minutes, or 25
      minutes when that is not positive. */
  function FocusSeconds(durationMinutes: Option<int>, cfg: Config): (r: int)
    ensures r >= 60 && r % 60 == 0
    ensures durationMinutes.Some? && durationMinutes.value > 0 ==> r == durationMinutes.value * 60
    ensures durationMinutes.None? && cfg.focusDuration > 0 ==> r == cfg.focusDuration * 60
    ensures durationMinutes.GetOr(cfg.focusDuration) <= 0 ==> r == DefaultFocusMinutes * 60
  {
    var minutes := durationMinutes.GetOr(cfg.focusDuration);
    (if minutes > 0 then minutes else DefaultFocusMinutes) * 60
  }

  function LongBreakInterval(cfg: Config): (r: int)
    ensures r >= 1
    ensures cfg.longBreakInterval > 0 ==> r == cfg.longBreakInterval
    ensures cfg.longBreakInterval <= 0 ==> r == DefaultLongBreakInterval
  {
    if cfg.longBreakInterval > 0 then cfg.longBreakInterval else DefaultLongBreakInterval
  }

  /** A long break is due after every interval-th completed pomodoro. */
  predicate IsLongBreak(completed: int, cfg: Config) {
    completed > 0 && completed % LongBreakInterval(cfg) == 0
  }

  function BreakSeconds(isLong: bool, cfg: Config): (r: int)
    ensures r >= 60 && r % 60 == 0
    ensures isLong && cfg.longBreakDuration > 0 ==> r == cfg.longBreakDuration * 60
    ensures isLong && cfg.longBreakDuration <= 0 ==> r == DefaultLongBreakMinutes * 60
    ensures !isLong && cfg.shortBreakDuration > 0 ==> r == cfg.shortBreakDuration * 60
    ensures !isLong && cfg.shortBreakDuration <= 0 ==> r == DefaultShortBreakMinutes * 60
  {
    var minutes := if isLong then cfg.longBreakDuration else cfg.shortBreakDuration;
    var default := if isLong then DefaultLongBreakMinutes else DefaultShortBreakMinutes;
    (if minutes > 0 then minutes else default) * 60
  }

  // ---------------------------------------------------------------------
  // Transitions. Starting an interval immediately refreshes the displayed
  // remaining time from the new deadline; the deadline lies in the future,
  // so that refresh yields the full length and cannot expire.

  function StartFocus(s: TimerState, now: int, cfg: Config,
                      durationMinutes: Option<int>, entryType: Option<EntryType>): TimerState
  {
    var duration := FocusSeconds(durationMinutes, cfg);
    s.(phase := Focus, isPaused := false,
       sessionType := entryType.GetOr(FocusType), sessionNotes := "",
       focusStartedAt := Some(now), focusDurationUsed := duration,
       targetEndDate := Some(now + duration), remainingSeconds := duration)
  }

  function StartBreak(s: TimerState, now: int, cfg: Config): TimerState {
    var isLong := IsLongBreak(s.completedPomosInCycle, cfg);
    var duration := BreakSeconds(isLong, cfg);
    s.(phase := if isLong then LongBreak else ShortBreak, isPaused := false,
       targetEndDate := Some(now + duration), remainingSeconds := duration)
  }

  function Pause(s: TimerState, now: int): TimerState {
    if s.isPaused || s.phase == Idle || s.targetEndDate.None? then s
    else
      var remaining := s.targetEndDate.value - now;
      s.(isPaused := true, storedRemaining := if remaining > 0 then remaining else 0)
  }

  /** Resuming sets a fresh deadline and refreshes at once; a timer paused
      with nothing left therefore expires inside the resume. */
  function Resume(s: TimerState, now: int, cfg: Config): (TimerState, Option<TimerEvent>) {
    if !s.isPaused || s.phase == Idle then (s, None)
    else UpdateRemaining(s.(isPaused := false, targetEndDate := Some(now + s.storedRemaining)), now, cfg)
  }

  function CancelTimer(s: TimerState): TimerState {
    s.(phase := Idle, isPaused := false, sessionType := FocusType, sessionNotes := "",
       targetEndDate := None, focusStartedAt := None, focusDurationUsed := 0,
       storedRemaining := 0, remainingSeconds := 0)
  }

  function Snooze(s: TimerState, now: int): TimerState {
    s.(phase := ShortBreak, isPaused := false,
       targetEndDate := Some(now + SnoozeSeconds), remainingSeconds := SnoozeSeconds)
  }

  /** One refresh (a tick, a wake from sleep, or a clock change): the
      remaining time is always recomputed from the absolute deadline. */
  function UpdateRemaining(s: TimerState, now: int, cfg: Config): (TimerState, Option<TimerEvent>) {
    if s.targetEndDate.None? || s.isPaused then (s, None)
    else
      var remaining := s.targetEndDate.value - now;
      if remaining <= 0 then HandleTimerExpiry(s.(remainingSeconds := 0), now, cfg)
      else (s.(remainingSeconds := remaining), None)
  }

  /** Expiry: a focus interval counts as completed and its break starts
      before the completion event is reported; a break ends in a new focus
      interval or in idle. */
  function HandleTimerExpiry(s: TimerState, now: int, cfg: Config): (TimerState, Option<TimerEvent>) {
    match s.phase
    case Focus =>
      var startedAt := s.focusStartedAt.GetOr(now);
      var counted := s.(completedPomosInCycle := s.completedPomosInCycle + 1);
      (StartBreak(counted, now, cfg),
       Some(FocusCompleted(startedAt, s.focusDurationUsed, s.sessionType)))
    case ShortBreak | LongBreak =>
      var next := if cfg.autoStartFocus then StartFocus(s, now, cfg, None, None)
                  else s.(phase := Idle, targetEndDate := None, remainingSeconds := 0);
      (next, Some(BreakCompleted))
    case Idle => (s, None)
  }

  // ---------------------------------------------------------------------
  // Properties of single transitions

  lemma StartFocusEffect(s: TimerState, now: int, cfg: Config,
                         durationMinutes: Option<int>, entryType: Option<EntryType>)
    ensures var r := StartFocus(s, now, cfg, durationMinutes, entryType);
      var minutes := durationMinutes.GetOr(cfg.focusDuration);
      && r.phase == Focus && !r.isPaused
      && r.sessionType == entryType.GetOr(FocusType) && r.sessionNotes == ""
      && r.focusStartedAt == Some(now)
      && r.targetEndDate == Some(now + (if minutes > 0 then minutes else 25) * 60)
      && r.remainingSeconds == r.focusDurationUsed == (if minutes > 0 then minutes else 25) * 60
      && r.completedPomosInCycle == s.completedPomosInCycle
  {
  }

  /** The break is long exactly when the completed count is a positive
      multiple of the interval (4 unless configured); it lasts the configured
      long or short minutes (15 or 5 when not positive), and the session
      fields are left as they were. */
  lemma StartBreakChoice(s: TimerState, now: int, cfg: Config)
    ensures var r := StartBreak(s, now, cfg);
      var n := if cfg.longBreakInterval > 0 then cfg.longBreakInterval else 4;
      var isLong := s.completedPomosInCycle > 0 && s.completedPomosInCycle % n == 0;
      var minutes := if isLong then cfg.longBreakDuration else cfg.shortBreakDuration;
      && (r.phase == LongBreak <==> isLong)
      && (r.phase == ShortBreak <==> !isLong)
      && !r.isPaused
      && r.remainingSeconds == (if minutes > 0 then minutes else if isLong then 15 else 5) * 60
      && r.remainingSeconds == BreakSeconds(IsLongBreak(s.completedPomosInCycle, cfg), cfg)
      && r.targetEndDate == Some(now + r.remainingSeconds)
      && r.completedPomosInCycle == s.completedPomosInCycle
      && r.sessionType == s.sessionType && r.sessionNotes == s.sessionNotes
      && r.focusStartedAt == s.focusStartedAt && r.focusDurationUsed == s.focusDurationUsed
      && r.storedRemaining == s.storedRemaining
  {
  }

  lemma BreakChoiceExamples(cfg: Config)
    requires cfg.longBreakInterval == 4
    ensures !IsLongBreak(0, cfg) && !IsLongBreak(1, cfg) && !IsLongBreak(2, cfg) && !IsLongBreak(3, cfg)
    ensures IsLongBreak(4, cfg) && IsLongBreak(8, cfg)
  {
  }

  lemma PauseEffect(s: TimerState, now: int)
    ensures var r := Pause(s, now);
      && (s.isPaused || s.phase == Idle || s.targetEndDate.None? ==> r == s)
      && (!s.isPaused && s.phase != Idle && s.targetEndDate.Some? ==>
            && r.isPaused && r.phase == s.phase
            && r.targetEndDate == s.targetEndDate
            && r.storedRemaining >= 0
            && r.storedRemaining == (if s.targetEndDate.value > now then s.targetEndDate.value - now else 0)
            && r == s.(isPaused := true, storedRemaining := r.storedRemaining))
  {
  }

  /** Resume does nothing unless the timer is paused in a non-idle phase; in
      particular a running timer's remaining time is unchanged. */
  lemma ResumeWhenRunningIsNoOp(s: TimerState, now: int, cfg: Config)
    requires !s.isPaused || s.phase == Idle
    ensures Resume(s, now, cfg) == (s, None)
  {
  }

  /** Resuming a pause with time left sets the deadline to the resume
      instant plus the stored time, so time spent paused does not count;
      the refresh that follows shows the stored time and reports nothing. */
  lemma ResumeEffect(s: TimerState, now: int, cfg: Config)
    requires s.isPaused && s.phase != Idle && s.storedRemaining > 0
    ensures Resume(s, now, cfg) ==
      (s.(isPaused := false, targetEndDate := Some(now + s.storedRemaining),
          remainingSeconds := s.storedRemaining), None)
  {
  }

  /** A pause at t1 followed by a resume at t2 moves the deadline later by
      exactly the paused time t2 - t1, and keeps the time left. */
  lemma {:induction false} PauseResumeShiftsDeadline(s: TimerState, t1: int, t2: int, cfg: Config)
    requires !s.isPaused && s.phase != Idle
    requires s.targetEndDate.Some? && s.targetEndDate.value > t1
    ensures var (r, ev) := Resume(Pause(s, t1), t2, cfg);
      && ev == None && !r.isPaused && r.phase == s.phase
      && r.targetEndDate == Some(s.targetEndDate.value + (t2 - t1))
      && r.remainingSeconds == s.targetEndDate.value - t1
      && r == s.(targetEndDate := r.targetEndDate, remainingSeconds := r.remainingSeconds,
                 storedRemaining := r.remainingSeconds)
  {
    var p := Pause(s, t1);
    assert p == s.(isPaused := true, storedRemaining := s.targetEndDate.value - t1);
    ResumeEffect(p, t2, cfg);
  }

  /** Pausing and resuming at the same instant gives back the same deadline
      and the up-to-date remaining time, and reports nothing. */
  lemma PauseResumeSameInstant(s: TimerState, now: int, cfg: Config)
    requires !s.isPaused && s.phase != Idle
    requires s.targetEndDate.Some? && s.targetEndDate.value > now
    ensures var p := Pause(s, now);
      Resume(p, now, cfg) == (p.(isPaused := false, remainingSeconds := s.targetEndDate.value - now), None)
    ensures Resume(Pause(s, now), now, cfg).0.targetEndDate == s.targetEndDate
  {
  }

  lemma CancelTimerEffect(s: TimerState)
    ensures var r := CancelTimer(s);
      && r.phase == Idle && !r.isPaused && r.remainingSeconds == 0
      && r.targetEndDate == None && r.storedRemaining == 0
      && r.sessionType == FocusType && r.sessionNotes == ""
      && r.completedPomosInCycle == s.completedPomosInCycle
      && Valid(r) == (s.completedPomosInCycle >= 0)
  {
  }

  lemma SnoozeEffect(s: TimerState, now: int)
    ensures var r := Snooze(s, now);
      && r.phase == ShortBreak && !r.isPaused
      && r.targetEndDate == Some(now + 300) && r.remainingSeconds == 300
      && r.completedPomosInCycle == s.completedPomosInCycle
  {
  }

  /** A refresh does nothing while paused or without a deadline; otherwise it
      shows the whole seconds left, or 0 and runs the expiry. */
  lemma UpdateRemainingEffect(s: TimerState, now: int, cfg: Config)
    ensures s.isPaused || s.targetEndDate.None? ==> UpdateRemaining(s, now, cfg) == (s, None)
    ensures !s.isPaused && s.targetEndDate.Some? && s.targetEndDate.value > now ==>
      UpdateRemaining(s, now, cfg) == (s.(remainingSeconds := s.targetEndDate.value - now), None)
    ensures !s.isPaused && s.targetEndDate.Some? && s.targetEndDate.value <= now ==>
      UpdateRemaining(s, now, cfg) == HandleTimerExpiry(s.(remainingSeconds := 0), now, cfg)
  {
  }

  /** Drift freedom: the remaining time at an instant does not depend on
      how many refreshes happened before it. */
  lemma RefreshesDoNotDrift(s: TimerState, t1: int, t2: int, cfg: Config)
    requires s.targetEndDate.Some? && t1 < s.targetEndDate.value && t2 < s.targetEndDate.value
    ensures UpdateRemaining(UpdateRemaining(s, t1, cfg).0, t2, cfg) == UpdateRemaining(s, t2, cfg)
  {
  }

  /** Focus expiry counts exactly one more pomodoro, is already in the
      break chosen from the new count (with that break's length), keeps the
      session fields, and reports the interval's original start, length and
      type. */
  lemma FocusExpiry(s: TimerState, now: int, cfg: Config)
    requires s.phase == Focus
    ensures HandleTimerExpiry(s, now, cfg).0 ==
      StartBreak(s.(completedPomosInCycle := s.completedPomosInCycle + 1), now, cfg)
    ensures var (r, ev) := HandleTimerExpiry(s, now, cfg);
      var isLong := IsLongBreak(s.completedPomosInCycle + 1, cfg);
      && r.completedPomosInCycle == s.completedPomosInCycle + 1
      && r.phase == (if isLong then LongBreak else ShortBreak)
      && r.remainingSeconds == BreakSeconds(isLong, cfg)
      && !r.isPaused && r.targetEndDate == Some(now + r.remainingSeconds)
      && r.sessionType == s.sessionType && r.sessionNotes == s.sessionNotes
      && r.focusStartedAt == s.focusStartedAt && r.focusDurationUsed == s.focusDurationUsed
      && r.storedRemaining == s.storedRemaining
      && ev == Some(FocusCompleted(s.focusStartedAt.GetOr(now), s.focusDurationUsed, s.sessionType))
  {
  }

  lemma BreakExpiry(s: TimerState, now: int, cfg: Config)
    requires s.phase == ShortBreak || s.phase == LongBreak
    ensures var (r, ev) := HandleTimerExpiry(s, now, cfg);
      && ev == Some(BreakCompleted)
      && r.completedPomosInCycle == s.completedPomosInCycle
      && (cfg.autoStartFocus ==> r == StartFocus(s, now, cfg, None, None))
      && (!cfg.autoStartFocus ==> r.phase == Idle && r.targetEndDate.None? && r.remainingSeconds == 0)
  {
  }

  lemma IdleExpiry(s: TimerState, now: int, cfg: Config)
    requires s.phase == Idle
    ensures HandleTimerExpiry(s, now, cfg) == (s, None)
  {
  }

  /** A paused timer whose deadline had already passed expires the moment it
      is resumed. */
  lemma ResumeWithNothingLeftExpires(s: TimerState, now: int, cfg: Config)
    requires s.isPaused && s.phase != Idle && s.storedRemaining == 0
    ensures Resume(s, now, cfg).1.Some?
  {
  }

  // ---------------------------------------------------------------------
  // The invariant

  lemma InitialIsValid()
    ensures Valid(Initial)
  {
  }

  /** Expiry is only reached from a refresh of a running timer. */
  lemma ExpiryPreservesValid(s: TimerState, now: int, cfg: Config)
    requires Valid(s) && !s.isPaused
    ensures Valid(HandleTimerExpiry(s, now, cfg).0)
  {
  }

  /** Every operation keeps the timer valid: the remaining time, the stored
      remaining time and the counter never go negative, and a deadline
      exists exactly when the phase is not idle. */
  lemma OperationsPreserveValid(s: TimerState, now: int, cfg: Config,
                                durationMinutes: Option<int>, entryType: Option<EntryType>)
    requires Valid(s)
    ensures Valid(StartFocus(s, now, cfg, durationMinutes, entryType))
    ensures Valid(StartBreak(s, now, cfg))
    ensures Valid(Pause(s, now))
    ensures Valid(Resume(s, now, cfg).0)
    ensures Valid(CancelTimer(s))
    ensures Valid(Snooze(s, now))
    ensures Valid(UpdateRemaining(s, now, cfg).0)
  {
    if !s.isPaused {
      ExpiryPreservesValid(s.(remainingSeconds := 0), now, cfg);
    }
    if s.isPaused && s.phase != Idle {
      var s' := s.(isPaused := false, targetEndDate := Some(now + s.storedRemaining));
      ExpiryPreservesValid(s'.(remainingSeconds := 0), now, cfg);
    }
  }

  /** In a valid state the pause guard on a missing deadline never fires. */
  lemma ValidRunningHasDeadline(s: TimerState)
    requires Valid(s) && s.phase != Idle
    ensures s.targetEndDate.Some?
  {
  }

  /** Only a completed focus interval changes the pomodoro counter. */
  lemma CounterChangesOnlyOnFocusExpiry(s: TimerState, now: int, cfg: Config,
                                        durationMinutes: Option<int>, entryType: Option<EntryType>)
    ensures StartFocus(s, now, cfg, durationMinutes, entryType).completedPomosInCycle == s.completedPomosInCycle
    ensures StartBreak(s, now, cfg).completedPomosInCycle == s.completedPomosInCycle
    ensures Pause(s, now).completedPomosInCycle == s.completedPomosInCycle
    ensures CancelTimer(s).completedPomosInCycle == s.completedPomosInCycle
    ensures Snooze(s, now).completedPomosInCycle == s.completedPomosInCycle
    ensures HandleTimerExpiry(s, now, cfg).0.completedPomosInCycle
            == s.completedPomosInCycle + (if s.phase == Focus then 1 else 0)
  {
  }
}
