/** One timed phase of an arena (the Java `GameState`): lifecycle flags, a
    start time, a duration budget and the three hooks a concrete phase
    supplies. Time is an integer count of nanoseconds, the resolution of
    `java.time.Duration`; every operation that reads the clock receives the
    reading as `now`. */
module States {
  import opened Wrappers

  const NanosPerSecond: nat := 1_000_000_000
  /** The two-argument constructor's budget, `Duration.ofHours(1)`. */
  const DefaultDuration: nat := 3600 * NanosPerSecond
  /** The three-argument constructor's name. */
  const DefaultName: string := "Event"

  /** The abstract hooks. Their exceptions are caught and printed, so a hook
      is only an event in the trace and never changes a flag. */
  datatype Hook = StateStart | StateUpdate | StateEnd

  /** The fields of a phase. `listening` is the Bukkit listener
      registration; `startTime` is `None` while the Java field is null. */
  datatype Phase = Phase(
    started: bool,
    ended: bool,
    frozen: bool,
    skipped: bool,
    startTime: Option<int>,
    duration: nat,
    listening: bool)

  /** The state after an operation together with the hooks it ran, in order. */
  datatype Step = Step(phase: Phase, hooks: seq<Hook>)

  /** The flags every constructor leaves behind. */
  function Fresh(duration: nat): Phase {
    Phase(false, false, false, false, None, duration, false)
  }

  /** `started` implies a recorded start time; every operation keeps this. */
  predicate Consistent(p: Phase) {
    p.started ==> p.startTime.Some?
  }

  function StartStep(p: Phase, now: int): Step {
    Step(p.(started := true, startTime := Some(now), listening := true), [StateStart])
  }

  function EndStep(p: Phase): Step {
    if p.frozen then Step(p, [])
    else Step(p.(ended := true, listening := false), [StateEnd])
  }

  function RestartStep(p: Phase, now: int): Step {
    StartStep(p.(ended := false), now)
  }

  function SkipStep(p: Phase): Phase {
    p.(skipped := true)
  }

  /** The budget left at `now` for a phase started at `start`, clamped at zero. */
  function Remaining(start: int, duration: nat, now: int): (r: nat)
    ensures r == 0 <==> duration <= now - start
    ensures start <= now ==> r <= duration
    ensures now - start <= duration ==> r + (now - start) == duration
  {
    var left := duration - (now - start);
    if left < 0 then 0 else left
  }

  /** `getRemaining`: a phase without a start time is given `now` as one first. */
  function RemainingStep(p: Phase, now: int): (Phase, nat) {
    var q := if p.startTime.None? then p.(startTime := Some(now)) else p;
    (q, Remaining(q.startTime.value, q.duration, now))
  }

  /** `isAbleToEnd`: `ended || getRemaining() == 0`, short-circuiting. */
  function AbleToEndStep(p: Phase, now: int): (Phase, bool) {
    if p.ended then (p, true)
    else
      var (q, left) := RemainingStep(p, now);
      (q, left == 0)
  }

  function UpdateStep(p: Phase, now: int): Step {
    var s := if p.started then Step(p, []) else StartStep(p, now);
    var (q, able) := AbleToEndStep(s.phase, now);
    if able || q.skipped then
      var e := EndStep(q);
      Step(e.phase, s.hooks + e.hooks)
    else
      Step(q, s.hooks + [StateUpdate])
  }

  /** One `update` per clock reading in `nows`, as the scheduler's tick drives it. */
  function Run(p: Phase, nows: seq<int>): Step
    decreases |nows|
  {
    if nows == [] then Step(p, [])
    else
      var s := UpdateStep(p, nows[0]);
      var t := Run(s.phase, nows[1..]);
      Step(t.phase, s.hooks + t.hooks)
  }

  /** `getRemainingTime`: `toMinutesPart()` and `toSecondsPart()` of a
      non-negative span. */
  function RemainingParts(r: nat): (parts: (int, int))
    ensures 0 <= parts.0 < 60 && 0 <= parts.1 < 60
  {
    var seconds := r / NanosPerSecond;
    ((seconds / 60) % 60, seconds % 60)
  }

  /** Whole hours, the minutes part and the seconds part add up to the whole
      seconds of the span. */
  lemma PartsReassemble(r: nat)
    ensures var seconds := r / NanosPerSecond;
            seconds == (seconds / 60 / 60) * 3600 + RemainingParts(r).0 * 60 + RemainingParts(r).1
  {
    var seconds := r / NanosPerSecond;
    var minutes := seconds / 60;
    assert seconds == minutes * 60 + seconds % 60;
    assert minutes == (minutes / 60) * 60 + minutes % 60;
    calc {
      seconds;
      minutes * 60 + seconds % 60;
      ((minutes / 60) * 60 + minutes % 60) * 60 + seconds % 60;
      { assert ((minutes / 60) * 60 + minutes % 60) * 60 == (minutes / 60) * 3600 + (minutes % 60) * 60; }
      (minutes / 60) * 3600 + (minutes % 60) * 60 + seconds % 60;
    }
  }

  /** Under an hour, the two parts are the whole remaining time in seconds. */
  lemma PartsUnderAnHour(r: nat)
    requires r < DefaultDuration
    ensures RemainingParts(r).0 * 60 + RemainingParts(r).1 == r / NanosPerSecond
  {
    PartsReassemble(r);
    var seconds := r / NanosPerSecond;
    assert seconds < 3600;
    assert seconds / 60 < 60;
    assert seconds / 60 / 60 == 0;
  }

  /** A phase queried before any start time is set reports its full budget,
      and so does one queried at the instant it started. */
  lemma RemainingFullAtStart(p: Phase, now: int)
    ensures p.startTime.None? ==> RemainingStep(p, now).1 == p.duration
    ensures RemainingStep(p, now).0.startTime ==
            (if p.startTime.None? then Some(now) else p.startTime)
    ensures RemainingStep(StartStep(p, now).phase, now).1 == p.duration
  {
  }

  /** What one `update` does: start a never-started phase, then end it when it
      has ended, run out of time or been skipped (unless frozen), and otherwise
      run the per-tick hook with every flag unchanged. */
  lemma UpdateDecides(p: Phase, now: int)
    requires Consistent(p)
    ensures var start := if p.started then p.startTime.value else now;
            var prefix := if p.started then [] else [StateStart];
            var halts := p.ended || Remaining(start, p.duration, now) == 0 || p.skipped;
            var s := UpdateStep(p, now);
            && Consistent(s.phase)
            && s.phase.started
            && s.phase.startTime == Some(start)
            && s.phase.frozen == p.frozen && s.phase.skipped == p.skipped
            && s.phase.duration == p.duration
            && (halts && p.frozen ==>
                  s.hooks == prefix && s.phase.ended == p.ended
                  && s.phase.listening == (p.listening || !p.started))
            && (halts && !p.frozen ==>
                  s.hooks == prefix + [StateEnd] && s.phase.ended && !s.phase.listening)
            && (!halts ==>
                  s.hooks == prefix + [StateUpdate] && s.phase.ended == p.ended
                  && s.phase.listening == (p.listening || !p.started))
  {
  }

  /** An unfrozen, unskipped, running phase ends on an `update` exactly when its
      budget is used up at that reading. */
  lemma UpdateEndsIffExpired(p: Phase, now: int)
    requires p.started && p.startTime.Some?
    requires !p.frozen && !p.skipped && !p.ended
    ensures UpdateStep(p, now).phase.ended <==> p.startTime.value + p.duration <= now
    ensures UpdateStep(p, now).hooks ==
            if p.startTime.value + p.duration <= now then [StateEnd] else [StateUpdate]
  {
  }

  /** A skip survives `restart`: `restart` clears `ended` and records a new
      start, yet the next unfrozen `update` ends the phase again at once. */
  lemma SkipSurvivesRestart(p: Phase, t0: int, t1: int)
    requires !p.frozen
    ensures var q := RestartStep(SkipStep(p), t0).phase;
            && q.skipped && !q.ended && q.started && q.startTime == Some(t0)
            && UpdateStep(q, t1).phase.ended
            && UpdateStep(q, t1).hooks == [StateEnd]
  {
  }

  /** Running a sequence of readings split in two is running the halves in turn. */
  lemma {:induction false} RunConcat(p: Phase, a: seq<int>, b: seq<int>)
    ensures Run(p, a + b) ==
            Step(Run(Run(p, a).phase, b).phase, Run(p, a).hooks + Run(Run(p, a).phase, b).hooks)
    decreases |a|
  {
    if a == [] {
      assert a + b == b;
    } else {
      var first := UpdateStep(p, a[0]);
      var q := first.phase;
      assert (a + b)[0] == a[0];
      assert (a + b)[1..] == a[1..] + b;
      var whole := Run(q, a[1..] + b);
      assert Run(p, a + b) == Step(whole.phase, first.hooks + whole.hooks);
      var mid := Run(q, a[1..]);
      assert Run(p, a) == Step(mid.phase, first.hooks + mid.hooks);
      RunConcat(q, a[1..], b);
      var tail := Run(mid.phase, b);
      assert whole == Step(tail.phase, mid.hooks + tail.hooks);
      assert first.hooks + (mid.hooks + tail.hooks) == (first.hooks + mid.hooks) + tail.hooks;
    }
  }

  /** Neither `update` nor a run of them ever clears `started`, `ended` or
      `skipped`, or touches `frozen` or the budget. */
  lemma {:induction false} RunKeepsLatches(p: Phase, nows: seq<int>)
    requires Consistent(p)
    ensures var q := Run(p, nows).phase;
            && Consistent(q)
            && q.frozen == p.frozen && q.duration == p.duration
            && (p.started ==> q.started)
            && (p.ended ==> q.ended)
            && (p.skipped ==> q.skipped)
    decreases |nows|
  {
    if nows != [] {
      UpdateDecides(p, nows[0]);
      RunKeepsLatches(UpdateStep(p, nows[0]).phase, nows[1..]);
    }
  }

  /** A frozen running phase that is due to end (ended, skipped, or out of
      time at every reading) is left exactly as it is by any number of
      updates: it never ends and never runs a hook. */
  lemma {:induction false} FrozenDueRunIsInert(p: Phase, nows: seq<int>)
    requires p.frozen && p.started && p.startTime.Some?
    requires p.ended || p.skipped ||
             forall i :: 0 <= i < |nows| ==> p.startTime.value + p.duration <= nows[i]
    ensures Run(p, nows) == Step(p, [])
    decreases |nows|
  {
    if nows != [] {
      assert UpdateStep(p, nows[0]) == Step(p, []);
      var rest := nows[1..];
      assert forall i :: 0 <= i < |rest| ==> rest[i] == nows[i + 1];
      FrozenDueRunIsInert(p, rest);
    }
  }

  /** A running phase that is not frozen, skipped or ended and whose budget
      outlasts every reading only runs its per-tick hook, once per update. */
  lemma {:induction false} UnexpiredRunOnlyTicks(p: Phase, nows: seq<int>)
    requires p.started && p.startTime.Some?
    requires !p.frozen && !p.skipped && !p.ended
    requires forall i :: 0 <= i < |nows| ==> nows[i] < p.startTime.value + p.duration
    ensures Run(p, nows) == Step(p, seq(|nows|, i => StateUpdate))
    decreases |nows|
  {
    if nows != [] {
      assert UpdateStep(p, nows[0]) == Step(p, [StateUpdate]);
      var rest := nows[1..];
      assert forall i :: 0 <= i < |rest| ==> rest[i] == nows[i + 1];
      UnexpiredRunOnlyTicks(p, rest);
      assert [StateUpdate] + seq(|rest|, i => StateUpdate) == seq(|nows|, i => StateUpdate);
    }
  }

  /** A five-second phase ticked once a second from `t0`: the first tick
      starts it, five ticks run the per-tick hook, and it ends at the tick
      five seconds after the start, never earlier. */
  lemma FiveSecondPhase(t0: int)
    ensures var early := [t0, t0 + NanosPerSecond, t0 + 2 * NanosPerSecond,
                          t0 + 3 * NanosPerSecond, t0 + 4 * NanosPerSecond];
            var r := Run(Fresh(5 * NanosPerSecond), early);
            && !r.phase.ended
            && r.hooks == [StateStart, StateUpdate, StateUpdate, StateUpdate, StateUpdate, StateUpdate]
            && UpdateStep(r.phase, t0 + 5 * NanosPerSecond).phase.ended
            && UpdateStep(r.phase, t0 + 5 * NanosPerSecond).hooks == [StateEnd]
  {
    var d := 5 * NanosPerSecond;
    var early := [t0, t0 + NanosPerSecond, t0 + 2 * NanosPerSecond,
                  t0 + 3 * NanosPerSecond, t0 + 4 * NanosPerSecond];
    var first := UpdateStep(Fresh(d), t0);
    assert first.hooks == [StateStart, StateUpdate];
    assert early == [t0] + early[1..];
    UnexpiredRunOnlyTicks(first.phase, early[1..]);
    assert seq(4, i => StateUpdate) == [StateUpdate, StateUpdate, StateUpdate, StateUpdate];
  }

  /** A phase, as the Java class holds it. The getters `isStarted`, `isEnded`,
      `isFrozen`, `getStartTime`, `getStateDuration` and `getFriendlyName` are
      reads of these fields. */
  class GameState {
    var startTime: Option<int>
    var stateDuration: nat
    var friendlyName: string
    var started: bool
    var ended: bool
    var frozen: bool
    var skipped: bool
    var listening: bool
    /** The hooks run so far, in order. */
    ghost var trace: seq<Hook>

    function Snapshot(): Phase
      reads this
    {
      Phase(started, ended, frozen, skipped, startTime, stateDuration, listening)
    }

    constructor (duration: nat, name: string)
      ensures Snapshot() == Fresh(duration) && friendlyName == name && trace == []
    {
      startTime, stateDuration, friendlyName := None, duration, name;
      started, ended, frozen, skipped, listening := false, false, false, false, false;
      trace := [];
    }

    constructor WithDuration(duration: nat)
      ensures Snapshot() == Fresh(duration) && friendlyName == DefaultName && trace == []
    {
      startTime, stateDuration, friendlyName := None, duration, DefaultName;
      started, ended, frozen, skipped, listening := false, false, false, false, false;
      trace := [];
    }

    constructor Default()
      ensures Snapshot() == Fresh(DefaultDuration) && friendlyName == DefaultName && trace == []
    {
      startTime, stateDuration, friendlyName := None, DefaultDuration, DefaultName;
      started, ended, frozen, skipped, listening := false, false, false, false, false;
      trace := [];
    }

    method Start(now: int)
      modifies this
      ensures started && startTime == Some(now) && listening
      ensures ended == old(ended) && frozen == old(frozen) && skipped == old(skipped)
      ensures stateDuration == old(stateDuration) && friendlyName == old(friendlyName)
      ensures trace == old(trace) + [StateStart]
      ensures Snapshot() == StartStep(old(Snapshot()), now).phase
    {
      started := true;
      startTime := Some(now);
      listening := true;
      trace := trace + [StateStart];
    }

    method End()
      modifies this
      ensures old(frozen) ==> Snapshot() == old(Snapshot()) && trace == old(trace)
      ensures !old(frozen) ==> ended && !listening && trace == old(trace) + [StateEnd]
      ensures !old(frozen) ==>
                started == old(started) && frozen == old(frozen) && skipped == old(skipped)
                && startTime == old(startTime) && stateDuration == old(stateDuration)
      ensures friendlyName == old(friendlyName)
      ensures Snapshot() == EndStep(old(Snapshot())).phase
      ensures trace == old(trace) + EndStep(old(Snapshot())).hooks
    {
      if frozen {
        return;
      }
      ended := true;
      listening := false;
      trace := trace + [StateEnd];
    }

    /** `restart` ignores `frozen` and leaves `skipped` as it is. */
    method Restart(now: int)
      modifies this
      ensures !ended && started && startTime == Some(now) && listening
      ensures frozen == old(frozen) && skipped == old(skipped)
      ensures stateDuration == old(stateDuration) && friendlyName == old(friendlyName)
      ensures trace == old(trace) + [StateStart]
      ensures Snapshot() == RestartStep(old(Snapshot()), now).phase
    {
      ended := false;
      Start(now);
    }

    method GetRemaining(now: int) returns (r: nat)
      modifies this
      ensures (Snapshot(), r) == RemainingStep(old(Snapshot()), now)
      ensures friendlyName == old(friendlyName) && trace == old(trace)
    {
      if startTime.None? {
        startTime := Some(now);
      }
      var left := stateDuration - (now - startTime.value);
      if left < 0 {
        return 0;
      }
      return left;
    }

    /** Minutes part and seconds part of the remaining time. */
    method GetRemainingTime(now: int) returns (minutes: int, seconds: int)
      modifies this
      ensures 0 <= minutes < 60 && 0 <= seconds < 60
      ensures Snapshot() == RemainingStep(old(Snapshot()), now).0
      ensures (minutes, seconds) == RemainingParts(RemainingStep(old(Snapshot()), now).1)
      ensures friendlyName == old(friendlyName) && trace == old(trace)
    {
      var r := GetRemaining(now);
      var secs := r / NanosPerSecond;
      minutes, seconds := (secs / 60) % 60, secs % 60;
    }

    method IsAbleToEnd(now: int) returns (able: bool)
      modifies this
      ensures (Snapshot(), able) == AbleToEndStep(old(Snapshot()), now)
      ensures friendlyName == old(friendlyName) && trace == old(trace)
    {
      if ended {
        return true;
      }
      var r := GetRemaining(now);
      able := r == 0;
    }

    method Update(now: int)
      modifies this
      ensures Snapshot() == UpdateStep(old(Snapshot()), now).phase
      ensures trace == old(trace) + UpdateStep(old(Snapshot()), now).hooks
      ensures friendlyName == old(friendlyName)
    {
      if !started {
        Start(now);
      }
      var able := IsAbleToEnd(now);
      if able || skipped {
        End();
        return;
      }
      trace := trace + [StateUpdate];
    }

    method Skip()
      modifies this`skipped
      ensures skipped
      ensures Snapshot() == SkipStep(old(Snapshot()))
    {
      skipped := true;
    }

    method SetFrozen(frozen: bool)
      modifies this`frozen
      ensures this.frozen == frozen
      ensures Snapshot() == old(Snapshot()).(frozen := frozen)
    {
      this.frozen := frozen;
    }

    method SetStateDuration(duration: nat)
      modifies this`stateDuration
      ensures stateDuration == duration
      ensures Snapshot() == old(Snapshot()).(duration := duration)
    {
      stateDuration := duration;
    }

    method SetFriendlyName(name: string)
      modifies this`friendlyName
      ensures friendlyName == name
      ensures Snapshot() == old(Snapshot())
    {
      friendlyName := name;
    }
  }
}
