/** Runs of wake-ups over time: how late a full pass can be, how many are skipped, and how close together they come. */
module ScheduleRuns {
  import opened Text
  import opened Schedule

  /** How far the status writes of one reconcile got: after the check, after a child update, at the end. */
  datatype Persisted = Nothing | CheckOnly | CheckAndChild | Everything

  datatype Outcome = NoConnection | QueryFailed | WithErrors | Success(stamp: Time)

  /** One reconcile: when it decides, what it reads and sees, how its pass ends, and what of its status is stored. */
  datatype Wake = Wake(
    now: Time, generation: nat, visible: Visible, checkStamp: Time, outcome: Outcome,
    childStamp: Option<Time>, end: Time, persisted: Persisted)

  /** Stored times carry whole seconds. */
  function Floor(t: Time): (f: Time)
    ensures f <= t < f + SECOND
  {
    t - t % SECOND
  }

  function Full(parse: Parser, spec: Spec, s: Stamps, w: Wake): bool
    requires parse(spec.pollInterval).Some?
  {
    Decide(parse, spec, w.generation, s, w.now, w.visible).full
  }

  /** The stored stamps after a reconcile; only a pass without errors moves the poll time. */
  function After(parse: Parser, spec: Spec, s: Stamps, w: Wake): Stamps
    requires parse(spec.pollInterval).Some?
  {
    var d := Decide(parse, spec, w.generation, s, w.now, w.visible);
    var checked := if d.checked then s.(lastCheck := Some(Floor(w.checkStamp))) else s;
    var child :=
      if !d.full && w.childStamp.Some? then checked.(lastReconcile := Some(Floor(w.childStamp.value))) else checked;
    match w.persisted
    case Nothing => s
    case CheckOnly => checked
    case CheckAndChild => child
    case Everything =>
      if d.full && w.outcome.Success? then
        Stamps(w.generation, Some(Floor(w.outcome.stamp)), child.lastCheck, Some(Floor(w.outcome.stamp)))
      else child.(observed := w.generation)
  }

  /** The delay after a full attempt; a template that does not parse parks the resource. */
  function AttemptDelay(parse: Parser, spec: Spec, outcome: Outcome): Duration
    requires parse(spec.pollInterval).Some?
  {
    var p := PollInterval(parse, spec);
    match outcome
    case NoConnection => Min(p, CONNECTION_RETRY)
    case QueryFailed => p
    case _ => if spec.templateParses then NextRequeueInterval(parse, spec, p) else 0
  }

  /** The delay a reconcile asks for. */
  function Delay(parse: Parser, spec: Spec, s: Stamps, w: Wake): Duration
    requires parse(spec.pollInterval).Some?
  {
    var d := Decide(parse, spec, w.generation, s, w.now, w.visible);
    if d.full then AttemptDelay(parse, spec, w.outcome) else d.delay
  }

  /** The longest delay the intervals of an admitted spec allow. */
  function Longest(parse: Parser, spec: Spec): Duration
    requires parse(spec.pollInterval).Some?
  {
    if DetectionEnabled(spec) then Max(PollInterval(parse, spec), DetectionInterval(parse, spec.detection.value))
    else PollInterval(parse, spec)
  }

  function AfterAll(parse: Parser, spec: Spec, s: Stamps, wakes: seq<Wake>): Stamps
    requires parse(spec.pollInterval).Some?
  {
    if wakes == [] then s
    else After(parse, spec, AfterAll(parse, spec, s, wakes[..|wakes| - 1]), wakes[|wakes| - 1])
  }

  function Before(parse: Parser, spec: Spec, s: Stamps, wakes: seq<Wake>, i: nat): Stamps
    requires parse(spec.pollInterval).Some? && i <= |wakes|
  {
    AfterAll(parse, spec, s, wakes[..i])
  }

  lemma BeforeNext(parse: Parser, spec: Spec, s: Stamps, wakes: seq<Wake>, i: nat)
    requires parse(spec.pollInterval).Some? && i < |wakes|
    ensures Before(parse, spec, s, wakes, i + 1) == After(parse, spec, Before(parse, spec, s, wakes, i), wakes[i])
  {
    assert wakes[..i + 1][..i] == wakes[..i];
  }

  /** The clock does not run backwards within a reconcile. */
  predicate Ordered(w: Wake)
  {
    && w.now <= w.checkStamp <= w.end
    && (w.outcome.Success? ==> w.now <= w.outcome.stamp <= w.end)
  }

  /** Wake-up `i` is followed by the next no later than it asked for. */
  ghost predicate SoonEnough(parse: Parser, spec: Spec, s: Stamps, wakes: seq<Wake>, i: nat)
    requires parse(spec.pollInterval).Some? && i + 1 < |wakes|
  {
    wakes[i].end <= wakes[i + 1].now <= wakes[i].end + Delay(parse, spec, Before(parse, spec, s, wakes, i), wakes[i])
  }

  /** Every wake-up comes no later than the previous reconcile asked for. */
  ghost predicate InTime(parse: Parser, spec: Spec, s: Stamps, wakes: seq<Wake>)
    requires parse(spec.pollInterval).Some?
  {
    && (forall i :: 0 <= i < |wakes| ==> Ordered(wakes[i]))
    && forall i :: 0 <= i < |wakes| - 1 ==> SoonEnough(parse, spec, s, wakes, i)
  }

  /** The first `n` wake-ups all skip the full pass. */
  ghost predicate AllSkip(parse: Parser, spec: Spec, s: Stamps, wakes: seq<Wake>, n: nat)
    requires parse(spec.pollInterval).Some? && n <= |wakes|
  {
    forall i :: 0 <= i < n ==> !Full(parse, spec, Before(parse, spec, s, wakes, i), wakes[i])
  }

  /** The poll time moves only when a full pass ends without errors and its status is stored. */
  lemma {:induction false} PollTimeMovesOnlyOnSuccess(parse: Parser, spec: Spec, s: Stamps, wakes: seq<Wake>, i: nat)
    requires parse(spec.pollInterval).Some? && i <= |wakes|
    requires forall j :: 0 <= j < i ==>
               !(wakes[j].outcome.Success? && Full(parse, spec, Before(parse, spec, s, wakes, j), wakes[j]))
    ensures Before(parse, spec, s, wakes, i).lastPoll == s.lastPoll
  {
    if i > 0 {
      PollTimeMovesOnlyOnSuccess(parse, spec, s, wakes, i - 1);
      BeforeNext(parse, spec, s, wakes, i - 1);
    }
  }

  /** Once the poll interval has elapsed every wake-up attempts a full pass, until one ends without errors. */
  lemma OverdueUntilSuccess(parse: Parser, spec: Spec, s: Stamps, wakes: seq<Wake>, i: nat, t: Time)
    requires parse(spec.pollInterval).Some? && i < |wakes| && s.lastPoll == Some(t)
    requires forall j :: 0 <= j < i ==>
               !(wakes[j].outcome.Success? && Full(parse, spec, Before(parse, spec, s, wakes, j), wakes[j]))
    requires wakes[i].now >= t + PollInterval(parse, spec)
    ensures Full(parse, spec, Before(parse, spec, s, wakes, i), wakes[i])
  {
    PollTimeMovesOnlyOnSuccess(parse, spec, s, wakes, i);
  }

  lemma SkipsKeepPollTime(parse: Parser, spec: Spec, s: Stamps, wakes: seq<Wake>, i: nat)
    requires parse(spec.pollInterval).Some? && i <= |wakes| && AllSkip(parse, spec, s, wakes, i)
    ensures Before(parse, spec, s, wakes, i).lastPoll == s.lastPoll
  {
    PollTimeMovesOnlyOnSuccess(parse, spec, s, wakes, i);
  }

  /** The stored stamps never lie in the future. */
  ghost predicate StampsBy(s: Stamps, t: Time)
  {
    (s.lastPoll.Some? ==> s.lastPoll.value <= t) && (s.lastCheck.Some? ==> s.lastCheck.value <= t)
  }

  lemma StampsStayPast(parse: Parser, spec: Spec, s: Stamps, w: Wake)
    requires parse(spec.pollInterval).Some? && Ordered(w) && StampsBy(s, w.now)
    ensures StampsBy(After(parse, spec, s, w), w.end)
  {
  }

  lemma {:induction false} StampsStayPastAlways(parse: Parser, spec: Spec, s: Stamps, wakes: seq<Wake>, i: nat)
    requires parse(spec.pollInterval).Some? && i < |wakes| && StampsBy(s, wakes[0].now)
    requires InTime(parse, spec, s, wakes)
    ensures StampsBy(Before(parse, spec, s, wakes, i), wakes[i].now)
  {
    if i > 0 {
      StampsStayPastAlways(parse, spec, s, wakes, i - 1);
      BeforeNext(parse, spec, s, wakes, i - 1);
      StampsStayPast(parse, spec, Before(parse, spec, s, wakes, i - 1), wakes[i - 1]);
      assert SoonEnough(parse, spec, s, wakes, i - 1);
    }
  }

  /**
   Bounded staleness. After a pass that ended without errors at `done`, every wake-up up to and
   including the next full attempt comes before done + p + c + D, where D bounds the running time of
   the reconciles that skip and of what remains after `done`.
   */
  lemma BoundedStaleness(parse: Parser, spec: Spec, s: Stamps, wakes: seq<Wake>, i: nat, done: Time, slack: Duration)
    requires Admitted(parse, spec) && DetectionEnabled(spec) && InTime(parse, spec, s, wakes) && i < |wakes|
    requires s.lastPoll == Some(Floor(done)) && StampsBy(s, wakes[0].now)
    requires wakes[0].now <= done + slack + NextRequeueInterval(parse, spec, PollInterval(parse, spec))
    requires AllSkip(parse, spec, s, wakes, i)
    requires forall j :: 0 <= j < i ==> wakes[j].end <= wakes[j].now + slack
    ensures wakes[i].now < done + PollInterval(parse, spec) + DetectionInterval(parse, spec.detection.value) + slack
  {
    CopiesAgree(parse, spec);
    if i > 0 {
      var before := Before(parse, spec, s, wakes, i - 1);
      SkipsKeepPollTime(parse, spec, s, wakes, i - 1);
      StampsStayPastAlways(parse, spec, s, wakes, i - 1);
      SkipDelay(parse, spec, wakes[i - 1].generation, before, wakes[i - 1].now, wakes[i - 1].visible);
      assert SoonEnough(parse, spec, s, wakes, i - 1);
    }
  }

  /** Wake-up `i` is followed by the next no earlier than it asked for. */
  ghost predicate LateEnough(parse: Parser, spec: Spec, s: Stamps, wakes: seq<Wake>, i: nat)
    requires parse(spec.pollInterval).Some? && i + 1 < |wakes|
  {
    wakes[i + 1].now >= wakes[i].end + Delay(parse, spec, Before(parse, spec, s, wakes, i), wakes[i])
  }

  /** Only the timer wakes the operator: never earlier than the previous reconcile asked for. */
  ghost predicate TimerOnly(parse: Parser, spec: Spec, s: Stamps, wakes: seq<Wake>)
    requires parse(spec.pollInterval).Some?
  {
    && (forall i :: 0 <= i < |wakes| ==> Ordered(wakes[i]))
    && forall i :: 0 <= i < |wakes| - 1 ==> LateEnough(parse, spec, s, wakes, i)
  }

  /** The shorter of the intervals in use. */
  function Shorter(parse: Parser, spec: Spec): Duration
    requires parse(spec.pollInterval).Some?
  {
    if DetectionEnabled(spec) then Min(PollInterval(parse, spec), DetectionInterval(parse, spec.detection.value))
    else PollInterval(parse, spec)
  }

  /**
   Met no sooner than the shorter interval after its stamps, a reconcile asks for no less; a skip for
   the change interval.
   */
  lemma DelayAtLeast(parse: Parser, spec: Spec, s: Stamps, w: Wake)
    requires Admitted(parse, spec) && w.outcome != NoConnection
    requires StampsBy(s, w.now - Shorter(parse, spec))
    ensures Delay(parse, spec, s, w) >= Shorter(parse, spec) > 0
    ensures !Full(parse, spec, s, w) ==> Delay(parse, spec, s, w) == DetectionInterval(parse, spec.detection.value)
  {
    CopiesAgree(parse, spec);
  }

  lemma TimerStep(parse: Parser, spec: Spec, s: Stamps, wakes: seq<Wake>, i: nat)
    requires parse(spec.pollInterval).Some? && TimerOnly(parse, spec, s, wakes) && i + 1 < |wakes|
    ensures Ordered(wakes[i])
    ensures wakes[i + 1].now >= wakes[i].end + Delay(parse, spec, Before(parse, spec, s, wakes, i), wakes[i])
  {
    assert LateEnough(parse, spec, s, wakes, i);
  }

  /**
   No hot loop. When only the timer wakes the operator and the database can be reached, every delay
   is at least the shorter interval, and so is every distance between reconciles.
   */
  lemma {:induction false} NoHotLoop(parse: Parser, spec: Spec, s: Stamps, wakes: seq<Wake>, i: nat, last: Time)
    requires Admitted(parse, spec) && TimerOnly(parse, spec, s, wakes) && i < |wakes|
    requires forall j :: 0 <= j < |wakes| ==> wakes[j].outcome != NoConnection
    requires StampsBy(s, last) && wakes[0].now >= last + Shorter(parse, spec)
    ensures Delay(parse, spec, Before(parse, spec, s, wakes, i), wakes[i]) >= Shorter(parse, spec) > 0
    ensures StampsBy(Before(parse, spec, s, wakes, i), wakes[i].now - Shorter(parse, spec))
    ensures i > 0 ==> wakes[i].now >= wakes[i - 1].end + Shorter(parse, spec)
  {
    if i > 0 {
      var before := Before(parse, spec, s, wakes, i - 1);
      NoHotLoop(parse, spec, s, wakes, i - 1, last);
      BeforeNext(parse, spec, s, wakes, i - 1);
      TimerStep(parse, spec, s, wakes, i - 1);
      StampsEarlier(before, wakes[i - 1].now - Shorter(parse, spec), wakes[i - 1].now);
      StampsStayPast(parse, spec, before, wakes[i - 1]);
      StampsEarlier(After(parse, spec, before, wakes[i - 1]), wakes[i - 1].end, wakes[i].now - Shorter(parse, spec));
    } else {
      StampsEarlier(s, last, wakes[0].now - Shorter(parse, spec));
    }
    DelayAtLeast(parse, spec, Before(parse, spec, s, wakes, i), wakes[i]);
  }

  /** The shorter interval, or the retry interval of a lost connection if that is shorter still. */
  function Soonest(parse: Parser, spec: Spec): Duration
    requires parse(spec.pollInterval).Some?
  {
    Min(Shorter(parse, spec), CONNECTION_RETRY)
  }

  /**
   A delay is shorter than that exactly when a reconcile skips without a check, because the last one is
   less than the change interval ago, but so much of the interval has passed that little of it remains.
   */
  lemma ShortDelayExactly(parse: Parser, spec: Spec, s: Stamps, w: Wake)
    requires Admitted(parse, spec) && StampsBy(s, w.now)
    ensures Delay(parse, spec, s, w) < Soonest(parse, spec) <==>
            && !Full(parse, spec, s, w) && s.lastCheck.Some?
            && var c := DetectionInterval(parse, spec.detection.value);
               c - Soonest(parse, spec) < w.now - s.lastCheck.value < c
  {
    CopiesAgree(parse, spec);
  }

  /** Never twice in a row: the wake-up after a short delay asks for no short one. */
  lemma ShortDelaysAreAlone(parse: Parser, spec: Spec, s: Stamps, w: Wake, v: Wake)
    requires Admitted(parse, spec) && Ordered(w) && v.now >= w.end + Delay(parse, spec, s, w)
    requires Delay(parse, spec, s, w) < Soonest(parse, spec)
    ensures Delay(parse, spec, After(parse, spec, s, w), v) >= Soonest(parse, spec)
  {
    CopiesAgree(parse, spec);
  }

  lemma StampsEarlier(s: Stamps, t: Time, u: Time)
    requires StampsBy(s, t) && t <= u
    ensures StampsBy(s, u)
  {
  }

  lemma Multiples(n: nat, c: int)
    requires n > 0 && c > 0
    ensures n * c == (n - 1) * c + c && n * c >= c
  {
  }

  /**
   The n-th wake-up after a pass that ended at `done` comes no earlier than done + n * c when it and
   all those before it skip; so with only the timer, n skips in a row take n * c < p.
   */
  lemma {:induction false} SkipsAreBounded(parse: Parser, spec: Spec, s: Stamps, wakes: seq<Wake>, n: nat, done: Time)
    requires Admitted(parse, spec) && DetectionEnabled(spec) && TimerOnly(parse, spec, s, wakes) && 0 < n <= |wakes|
    requires forall j :: 0 <= j < |wakes| ==> wakes[j].outcome != NoConnection
    requires s.lastPoll == Some(Floor(done)) && StampsBy(s, done)
    requires wakes[0].now >= done + Shorter(parse, spec)
    requires AllSkip(parse, spec, s, wakes, n)
    ensures wakes[n - 1].now >= done + n * DetectionInterval(parse, spec.detection.value)
    ensures n * DetectionInterval(parse, spec.detection.value) < PollInterval(parse, spec)
  {
    var c, p := DetectionInterval(parse, spec.detection.value), PollInterval(parse, spec);
    CopiesAgree(parse, spec);
    Multiples(n, c);
    if n > 1 {
      SkipsAreBounded(parse, spec, s, wakes, n - 1, done);
      NoHotLoop(parse, spec, s, wakes, n - 2, done);
      DelayAtLeast(parse, spec, Before(parse, spec, s, wakes, n - 2), wakes[n - 2]);
      TimerStep(parse, spec, s, wakes, n - 2);
    }
    SkipMeansEarly(parse, spec, s, wakes, n - 1, done);
    Multiples(1, c);
  }

  lemma SkipMeansEarly(parse: Parser, spec: Spec, s: Stamps, wakes: seq<Wake>, i: nat, done: Time)
    requires parse(spec.pollInterval).Some? && i < |wakes| && AllSkip(parse, spec, s, wakes, i + 1)
    requires s.lastPoll == Some(Floor(done))
    ensures wakes[i].now < done + PollInterval(parse, spec)
  {
    SkipsKeepPollTime(parse, spec, s, wakes, i);
    assert !Full(parse, spec, Before(parse, spec, s, wakes, i), wakes[i]);
  }

  /**
   A reconcile asks for no wake-up if and only if it skips with a change interval that is not positive,
   or attempts a pass with such a poll interval or, having the rows, with a template that does not parse.
   */
  lemma StallsExactly(parse: Parser, spec: Spec, s: Stamps, w: Wake)
    requires parse(spec.pollInterval).Some? && StampsBy(s, w.now)
    ensures Delay(parse, spec, s, w) <= 0 <==>
            if Full(parse, spec, s, w) then
              PollInterval(parse, spec) <= 0 || (!spec.templateParses && (w.outcome.WithErrors? || w.outcome.Success?))
            else DetectionInterval(parse, spec.detection.value) <= 0
  {
  }

  /** Every reconcile asks for a wake-up, after a positive delay of at most the longer interval. */
  lemma NeverStalls(parse: Parser, spec: Spec, s: Stamps, w: Wake)
    requires Admitted(parse, spec) && StampsBy(s, w.now)
    ensures 0 < Delay(parse, spec, s, w) <= Longest(parse, spec)
  {
    CopiesAgree(parse, spec);
    if !Full(parse, spec, s, w) {
      SkipDelay(parse, spec, w.generation, s, w.now, w.visible);
    }
  }
}
