/**
 * The whole life of a star under repeated calls of `live`: a closed-form
 * schedule of what the star looks like after any number of calls, and the
 * durations of each state that follow from it.
 */
module Timeline {
  import opened Lifecycle

  /** Calls spent from Born to the end of Oldf: five growth states of MAX_STAR_TICKS calls each. */
  const GROWTH_CALLS: nat := 5 * MAX_STAR_TICKS

  /** The star after `n` calls of `live`: its position and colour never change, and a dead star stays as it is. */
  function Run(s: StarValue, n: nat): (r: StarValue)
    ensures r.x == s.x && r.y == s.y && r.clr == s.clr
    ensures !s.isAlive ==> r == s
    ensures r.isAlive ==> s.isAlive
    decreases n
  {
    if n == 0 then s else LiveStep(Run(s, n - 1))
  }

  /**
   * The life of a star that starts unborn with gestation length g, written out
   * call by call: an embryo aged n for the first g calls; after call g + 1 + j
   * (j < GROWTH_CALLS) in growth state number 1 + j / MAX_STAR_TICKS aged
   * j % MAX_STAR_TICKS; dead from call g + 1 + GROWTH_CALLS on.
   */
  function Schedule(s0: StarValue, n: nat): (r: StarValue)
    requires Unborn(s0)
    ensures Valid(r)
    ensures r.x == s0.x && r.y == s0.y && r.clr == s0.clr
  {
    var g := s0.gestage;
    if n <= g then s0.(lifetime := n)
    else if n <= g + GROWTH_CALLS then
      var j := n - g - 1;
      s0.(lifetime := j % MAX_STAR_TICKS, gestage := 0, state := FromOrdinal(1 + j / MAX_STAR_TICKS))
    else s0.(lifetime := 0, gestage := 0, state := Oldf, isAlive := false)
  }

  /** `live` takes the schedule one call forward. */
  lemma ScheduleStep(s0: StarValue, n: nat)
    requires Unborn(s0)
    ensures LiveStep(Schedule(s0, n)) == Schedule(s0, n + 1)
  {
  }

  /** Repeated calls of `live` on an unborn star follow the schedule exactly. */
  lemma {:induction false} RunFollowsSchedule(s0: StarValue, n: nat)
    requires Unborn(s0)
    ensures Run(s0, n) == Schedule(s0, n)
  {
    if n > 0 {
      RunFollowsSchedule(s0, n - 1);
      ScheduleStep(s0, n - 1);
    }
  }

  /** A star stays an embryo for exactly its gestation length in calls. */
  lemma EmbrionDuration(s0: StarValue, n: nat)
    requires Unborn(s0)
    ensures Run(s0, n).state == Embrion <==> n <= s0.gestage
    ensures n <= s0.gestage ==> Run(s0, n).lifetime == n && Run(s0, n).lifetime <= Run(s0, n).gestage
  {
    RunFollowsSchedule(s0, n);
  }

  /**
   * Growth state number k (Born = 1, ..., Oldf = 5) is the state of the alive star
   * for exactly the MAX_STAR_TICKS calls g + 1 + (k - 1) * MAX_STAR_TICKS to
   * g + k * MAX_STAR_TICKS.
   */
  lemma GrowthStateDuration(s0: StarValue, k: nat, n: nat)
    requires Unborn(s0) && 1 <= k <= Ordinal(Oldf)
    ensures (Run(s0, n).isAlive && Ordinal(Run(s0, n).state) == k) <==>
              s0.gestage + (k - 1) * MAX_STAR_TICKS + 1 <= n <= s0.gestage + k * MAX_STAR_TICKS
  {
    RunFollowsSchedule(s0, n);
  }

  /** The star is alive for its first g + GROWTH_CALLS calls and dead from call g + GROWTH_CALLS + 1 on. */
  lemma DeathCall(s0: StarValue, n: nat)
    requires Unborn(s0)
    ensures Run(s0, n).isAlive <==> n <= s0.gestage + GROWTH_CALLS
    ensures !Run(s0, n).isAlive ==> Run(s0, n).state == Oldf && Run(s0, n).lifetime == 0
  {
    RunFollowsSchedule(s0, n);
  }

  /** Every call of `live` on a valid star keeps it valid. */
  lemma {:induction false} RunKeepsValid(s: StarValue, n: nat)
    requires Valid(s)
    ensures Valid(Run(s, n))
  {
    if n > 0 {
      RunKeepsValid(s, n - 1);
      LiveStepKeepsValid(Run(s, n - 1));
    }
  }

  /** Over any number of calls the state of a valid star never goes back. */
  lemma {:induction false} RunStateMonotone(s: StarValue, m: nat, n: nat)
    requires Valid(s) && m <= n
    ensures Ordinal(Run(s, m).state) <= Ordinal(Run(s, n).state)
    decreases n
  {
    if m < n {
      RunStateMonotone(s, m, n - 1);
      RunKeepsValid(s, n - 1);
      LiveStepStateChange(Run(s, n - 1));
    }
  }

  /**
   * The timeline of a star with the shortest gestation (20): an embryo through
   * call 20, born on call 21, teen on 41, adult on 61, old on 81, oldf on 101,
   * alive through call 120 and dead on call 121.
   */
  lemma ShortestGestationTimeline(s0: StarValue, n: nat)
    requires Unborn(s0) && s0.gestage == MIN_GESTAGE
    ensures n == 20 ==> Run(s0, n).state == Embrion
    ensures n == 21 ==> Run(s0, n).state == Born
    ensures n == 41 ==> Run(s0, n).state == Teen
    ensures n == 61 ==> Run(s0, n).state == Adult
    ensures n == 81 ==> Run(s0, n).state == Old
    ensures n == 101 ==> Run(s0, n).state == Oldf
    ensures n == 120 ==> Run(s0, n).isAlive
    ensures n == 121 ==> !Run(s0, n).isAlive
  {
    RunFollowsSchedule(s0, n);
  }
}
