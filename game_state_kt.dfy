/** The Kotlin rewrite's phase (`cc.lynzie.gamemanager.state.GameState`):
    `started` and `ended` have private setters that nothing assigns, `frozen`
    is the one public variable, and `startTime` is a `lateinit` property with
    a private setter. Its end predicate is a pure function of those fields
    and the clock reading `now`, in nanoseconds. */
module KotlinStates {
  import opened Wrappers

  datatype KtGameState = KtGameState(
    duration: nat,
    friendlyName: string,
    started: bool,
    ended: bool,
    frozen: bool,
    startTime: Option<int>)

  /** A call either returns a value or reads the unset `lateinit` property,
      which throws `UninitializedPropertyAccessException`. */
  datatype Checked = Returns(value: bool) | Uninitialized

  /** The state as the constructor leaves it. */
  function Create(duration: nat, friendlyName: string): KtGameState {
    KtGameState(duration, friendlyName, false, false, false, None)
  }

  /** Assigning the public `frozen` property. */
  function SetFrozen(s: KtGameState, frozen: bool): KtGameState {
    s.(frozen := frozen)
  }

  /** Every state reachable from `Create`: a sequence of assignments to `frozen`. */
  function AfterAssignments(s: KtGameState, assignments: seq<bool>): KtGameState
    decreases |assignments|
  {
    if assignments == [] then s
    else AfterAssignments(SetFrozen(s, assignments[0]), assignments[1..])
  }

  /** The `when` on lines 30-35, over `frozen` and `elapsed - duration`. */
  function WhenArms(frozen: bool, remaining: int): bool {
    if frozen then false
    else if remaining == 0 then true
    else if remaining < 0 then true
    else false
  }

  /** `isAbleToEnd` as written. */
  function IsAbleToEnd(s: KtGameState, now: int): (r: Checked)
    ensures s.frozen ==> r == Returns(false)
    ensures !s.frozen ==> (r == Uninitialized <==> s.startTime.None?)
    ensures !s.frozen && s.startTime.Some? ==>
              (r == Returns(true) <==> now - s.startTime.value <= s.duration)
  {
    if s.frozen then Returns(false)
    else
      match s.startTime
      case None => Uninitialized
      case Some(start) =>
        var elapsed := now - start;
        var remaining := elapsed - s.duration;
        Returns(WhenArms(s.frozen, remaining))
  }

  /** What the doc comment promises: not frozen, and the time since the start
      meets or exceeds the duration. */
  function IsAbleToEndAsDocumented(s: KtGameState, now: int): (r: Checked)
    ensures s.frozen ==> r == Returns(false)
    ensures !s.frozen && s.startTime.Some? ==>
              (r == Returns(true) <==> now - s.startTime.value >= s.duration)
  {
    if s.frozen then Returns(false)
    else
      match s.startTime
      case None => Uninitialized
      case Some(start) => Returns(now - start >= s.duration)
  }

  /** The `when` is only reached with `frozen` false, so its `frozen` arm
      never decides the result. */
  lemma FrozenArmUnreachable(s: KtGameState, now: int)
    requires s.startTime.Some?
    ensures IsAbleToEnd(s, now) ==
            if s.frozen then Returns(false)
            else Returns(WhenArms(false, now - s.startTime.value - s.duration))
  {
  }

  /** As written the predicate is the documented one inverted, except at the
      exact deadline, where both hold. */
  lemma AsWrittenInvertsDocumented(s: KtGameState, now: int)
    requires !s.frozen && s.startTime.Some?
    ensures now - s.startTime.value != s.duration ==>
              IsAbleToEnd(s, now).value == !IsAbleToEndAsDocumented(s, now).value
    ensures now - s.startTime.value == s.duration ==>
              IsAbleToEnd(s, now) == IsAbleToEndAsDocumented(s, now) == Returns(true)
  {
  }

  /** A five-second phase six seconds in: the doc comment says it may end,
      the code says it may not; at its start the code already says it may. */
  lemma AsWrittenCounterexample()
    ensures var s := KtGameState(5_000_000_000, "Round", false, false, false, Some(0));
            && IsAbleToEnd(s, 6_000_000_000) == Returns(false)
            && IsAbleToEndAsDocumented(s, 6_000_000_000) == Returns(true)
            && IsAbleToEnd(s, 0) == Returns(true)
            && IsAbleToEndAsDocumented(s, 0) == Returns(false)
  {
  }

  /** The documented predicate, once true, stays true as time goes on; the
      written one, once false, stays false. */
  lemma Monotonicity(s: KtGameState, earlier: int, later: int)
    requires earlier <= later
    ensures IsAbleToEndAsDocumented(s, earlier) == Returns(true) ==>
              IsAbleToEndAsDocumented(s, later) == Returns(true)
    ensures IsAbleToEnd(s, earlier) == Returns(false) ==>
              IsAbleToEnd(s, later) == Returns(false)
  {
  }

  /** Nothing in the class assigns `started`, `ended` or `startTime`, so in
      every reachable state the first two are false and the third unset. */
  lemma {:induction false} AssignmentsKeepInitialFields(s: KtGameState, assignments: seq<bool>)
    ensures var t := AfterAssignments(s, assignments);
            && t.started == s.started && t.ended == s.ended && t.startTime == s.startTime
            && t.duration == s.duration && t.friendlyName == s.friendlyName
            && (assignments != [] ==> t.frozen == assignments[|assignments| - 1])
            && (assignments == [] ==> t.frozen == s.frozen)
    decreases |assignments|
  {
    if assignments != [] {
      var rest := assignments[1..];
      AssignmentsKeepInitialFields(SetFrozen(s, assignments[0]), rest);
      if rest != [] {
        assert rest[|rest| - 1] == assignments[|assignments| - 1];
      }
    }
  }

  /** Hence on every reachable state the predicate either answers false
      (frozen) or throws for the unset start time (not frozen); it never
      answers true. */
  lemma ReachableNeverEnds(duration: nat, name: string, assignments: seq<bool>, now: int)
    ensures var t := AfterAssignments(Create(duration, name), assignments);
            && !t.started && !t.ended
            && IsAbleToEnd(t, now) == (if t.frozen then Returns(false) else Uninitialized)
  {
    AssignmentsKeepInitialFields(Create(duration, name), assignments);
  }
}
