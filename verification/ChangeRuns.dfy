/**
 What becomes of database changes and spec edits over runs of wake-ups: when they are queried, and when
 they are retried.
 */
module ChangeRuns {
  import opened Text
  import opened Schedule
  import opened ScheduleRuns

  // ---- database changes ----

  /** The poll interval, and the change interval on top of it when change detection is on. */
  function Horizon(parse: Parser, spec: Spec): Duration
    requires parse(spec.pollInterval).Some?
  {
    PollInterval(parse, spec) + if DetectionEnabled(spec) then DetectionInterval(parse, spec.detection.value) else 0
  }

  /** Reconciles `from` to `to`, the latter not included, take no longer than `slack`. */
  ghost predicate Brief(wakes: seq<Wake>, from: nat, to: nat, slack: Duration)
    requires to <= |wakes|
  {
    forall x :: from <= x < to ==> wakes[x].end <= wakes[x].now + slack
  }

  ghost predicate SkipsFrom(parse: Parser, spec: Spec, s: Stamps, wakes: seq<Wake>, from: nat, to: nat)
    requires parse(spec.pollInterval).Some? && to <= |wakes|
  {
    forall x :: from <= x < to ==> !Full(parse, spec, Before(parse, spec, s, wakes, x), wakes[x])
  }

  lemma {:induction false} SkippingKeepsPollTime(parse: Parser, spec: Spec, s: Stamps, wakes: seq<Wake>, k: nat, j: nat)
    requires parse(spec.pollInterval).Some? && k <= j <= |wakes| && SkipsFrom(parse, spec, s, wakes, k, j)
    ensures Before(parse, spec, s, wakes, j).lastPoll == Before(parse, spec, s, wakes, k).lastPoll
  {
    if k < j {
      SkippingKeepsPollTime(parse, spec, s, wakes, k, j - 1);
      BeforeNext(parse, spec, s, wakes, j - 1);
    }
  }

  /** A wake-up comes within the longest delay of the one before it. */
  lemma NextWakeBy(parse: Parser, spec: Spec, s: Stamps, wakes: seq<Wake>, k: nat)
    requires Admitted(parse, spec) && InTime(parse, spec, s, wakes) && 0 < k < |wakes| && StampsBy(s, wakes[0].now)
    ensures wakes[k].now <= wakes[k - 1].end + Longest(parse, spec)
    ensures !Full(parse, spec, Before(parse, spec, s, wakes, k - 1), wakes[k - 1]) ==>
              wakes[k].now <= wakes[k - 1].end + DetectionInterval(parse, spec.detection.value)
  {
    var before := Before(parse, spec, s, wakes, k - 1);
    StampsStayPastAlways(parse, spec, s, wakes, k - 1);
    NeverStalls(parse, spec, before, wakes[k - 1]);
    assert SoonEnough(parse, spec, s, wakes, k - 1);
    if !Full(parse, spec, before, wakes[k - 1]) {
      SkipDelay(parse, spec, wakes[k - 1].generation, before, wakes[k - 1].now, wakes[k - 1].visible);
    }
  }

  /** A stored poll time is no later than the end of the reconcile before. */
  lemma PollTimePast(parse: Parser, spec: Spec, s: Stamps, wakes: seq<Wake>, k: nat)
    requires parse(spec.pollInterval).Some? && InTime(parse, spec, s, wakes)
    requires 0 < k < |wakes| && StampsBy(s, wakes[0].now)
    ensures StampsBy(Before(parse, spec, s, wakes, k), wakes[k - 1].end)
  {
    StampsStayPastAlways(parse, spec, s, wakes, k - 1);
    BeforeNext(parse, spec, s, wakes, k - 1);
    StampsStayPast(parse, spec, Before(parse, spec, s, wakes, k - 1), wakes[k - 1]);
  }

  /** A wake-up that skips comes within a poll interval of the stored poll time. */
  lemma SkipIsEarly(parse: Parser, spec: Spec, s: Stamps, wakes: seq<Wake>, k: nat, x: nat)
    requires parse(spec.pollInterval).Some? && 0 < k <= x < |wakes|
    requires InTime(parse, spec, s, wakes) && StampsBy(s, wakes[0].now) && SkipsFrom(parse, spec, s, wakes, k, x + 1)
    ensures DetectionEnabled(spec) && wakes[x].now < wakes[k - 1].end + PollInterval(parse, spec)
  {
    var before := Before(parse, spec, s, wakes, x);
    SkippingKeepsPollTime(parse, spec, s, wakes, k, x);
    PollTimePast(parse, spec, s, wakes, k);
    SkippedExactly(parse, spec, wakes[x].generation, before, wakes[x].now, wakes[x].visible);
    assert !Full(parse, spec, before, wakes[x]);
  }

  /**
   No committed change goes unqueried for long, whatever became of the attempts before it and whether a
   detection query has seen it or not. For a change at time v, after the wake-up k - 1 began, every
   wake-up up to and including the next attempt comes before v + p + c, up to twice the running time
   of a reconcile.
   */
  lemma ChangesAreQueried(parse: Parser, spec: Spec, s: Stamps, wakes: seq<Wake>, k: nat, j: nat, v: Time,
                          slack: Duration)
    requires Admitted(parse, spec) && InTime(parse, spec, s, wakes) && 0 < k <= j < |wakes| && StampsBy(s, wakes[0].now)
    requires wakes[k - 1].now < v && SkipsFrom(parse, spec, s, wakes, k, j) && Brief(wakes, k - 1, j, slack)
    ensures wakes[j].now < v + Horizon(parse, spec) + 2 * slack
  {
    CopiesAgree(parse, spec);
    assert Brief(wakes, k - 1, j, slack) ==> wakes[k - 1].end <= wakes[k - 1].now + slack;
    if k == j {
      NextWakeBy(parse, spec, s, wakes, k);
      BriefIsNotNegative(parse, spec, s, wakes, k - 1, slack);
    } else {
      NextWakeBy(parse, spec, s, wakes, j);
      SkipIsEarly(parse, spec, s, wakes, k, j - 1);
      assert wakes[j - 1].end <= wakes[j - 1].now + slack;
    }
  }

  lemma BriefIsNotNegative(parse: Parser, spec: Spec, s: Stamps, wakes: seq<Wake>, x: nat, slack: Duration)
    requires parse(spec.pollInterval).Some? && InTime(parse, spec, s, wakes) && x < |wakes|
    requires wakes[x].end <= wakes[x].now + slack
    ensures slack >= 0
  {
    assert Ordered(wakes[x]);
  }

  /** A successful detection query whose time is stored. */
  ghost predicate Records(parse: Parser, spec: Spec, s: Stamps, wakes: seq<Wake>, x: nat)
    requires parse(spec.pollInterval).Some? && x < |wakes|
  {
    var w := wakes[x];
    && w.persisted != Nothing
    && Decide(parse, spec, w.generation, Before(parse, spec, s, wakes, x), w.now, w.visible).checked
  }

  /** The last of the wake-ups `i` to `m`, the latter not included, that recorded a check. */
  ghost function LastRecorder(parse: Parser, spec: Spec, s: Stamps, wakes: seq<Wake>, i: nat, m: nat): (r: Option<nat>)
    requires parse(spec.pollInterval).Some? && i <= m <= |wakes|
    ensures r.Some? ==> i <= r.value < m && Records(parse, spec, s, wakes, r.value)
    ensures forall x :: (if r.Some? then r.value + 1 else i) <= x < m ==> !Records(parse, spec, s, wakes, x)
    decreases m
  {
    if m == i then None
    else if Records(parse, spec, s, wakes, m - 1) then Some(m - 1)
    else LastRecorder(parse, spec, s, wakes, i, m - 1)
  }

  /**
   The check time stored before wake-up `m`: that of the last recorded check since `i`, or else the one
   from before.
   */
  ghost function StoredCheck(parse: Parser, spec: Spec, s: Stamps, wakes: seq<Wake>, i: nat, m: nat): Option<Time>
    requires parse(spec.pollInterval).Some? && i <= m <= |wakes|
  {
    match LastRecorder(parse, spec, s, wakes, i, m)
    case Some(x) => Some(Floor(wakes[x].checkStamp))
    case None => Before(parse, spec, s, wakes, i).lastCheck
  }

  lemma {:induction false} CheckTimeStays(parse: Parser, spec: Spec, s: Stamps, wakes: seq<Wake>, i: nat, m: nat)
    requires parse(spec.pollInterval).Some? && i <= m <= |wakes|
    ensures Before(parse, spec, s, wakes, m).lastCheck == StoredCheck(parse, spec, s, wakes, i, m)
    decreases m
  {
    if i < m {
      BeforeNext(parse, spec, s, wakes, m - 1);
      CheckTimeStays(parse, spec, s, wakes, i, m - 1);
    }
  }

  /** Detection fails, or a visible row is stamped later than the given check, or than the epoch before any check. */
  ghost predicate SeesLater(visible: Visible, check: Option<Time>)
  {
    visible.DetectionFails? ||
    exists k :: 0 <= k < |visible.stamps| && visible.stamps[k] > (if check.Some? then check.value else EPOCH)
  }

  /**
   Over any run, a due check leads to a full pass if and only if detection fails or some visible row is
   stamped after the whole second in which the last recorded check ended. So a change that lands
   between that check's query and its stamp is seen by the next check exactly when it is stamped later
   than that second.
   */
  lemma DetectionIsSound(parse: Parser, spec: Spec, s: Stamps, wakes: seq<Wake>, i: nat, m: nat)
    requires parse(spec.pollInterval).Some? && i <= m < |wakes|
    requires CheckDue(parse, spec, wakes[m].generation, Before(parse, spec, s, wakes, m), wakes[m].now)
    ensures Full(parse, spec, Before(parse, spec, s, wakes, m), wakes[m]) <==>
            SeesLater(wakes[m].visible, StoredCheck(parse, spec, s, wakes, i, m))
  {
    CheckTimeStays(parse, spec, s, wakes, i, m);
    DueCheckDecides(parse, spec, wakes[m].generation, Before(parse, spec, s, wakes, m), wakes[m].now, wakes[m].visible);
  }

  /** From wake-up `i` on the generation stays the same, and no pass succeeds. */
  ghost predicate Unsuccessful(wakes: seq<Wake>, i: nat, m: nat)
    requires i < m < |wakes|
  {
    forall x :: i <= x < m ==> !wakes[x].outcome.Success? && wakes[x].generation == wakes[m].generation
  }

  lemma {:induction false} NothingSucceeds(parse: Parser, spec: Spec, s: Stamps, wakes: seq<Wake>, i: nat, m: nat,
                                           n: nat)
    requires parse(spec.pollInterval).Some? && i <= n <= m && i < m < |wakes| && Unsuccessful(wakes, i, m)
    ensures Before(parse, spec, s, wakes, n).lastPoll == Before(parse, spec, s, wakes, i).lastPoll
    ensures var o, g := Before(parse, spec, s, wakes, n).observed, wakes[m].generation;
            o == Before(parse, spec, s, wakes, i).observed || o == g
    decreases n
  {
    if i < n {
      NothingSucceeds(parse, spec, s, wakes, i, m, n - 1);
      BeforeNext(parse, spec, s, wakes, n - 1);
    }
  }

  /**
   A detected change whose pass failed. Before the poll interval has elapsed, a later wake-up attempts a
   pass again if and only if the change interval has elapsed since the check time that is really stored
   and a visible row is stamped after it, or detection fails then. So the failed attempt has used up its
   trigger if and only if one of its status writes, or of a later check, was stored.
   */
  lemma DetectedChangeRetriedExactly(parse: Parser, spec: Spec, s: Stamps, wakes: seq<Wake>, i: nat, m: nat)
    requires parse(spec.pollInterval).Some? && i < m < |wakes|
    requires var before := Before(parse, spec, s, wakes, i);
             CheckDue(parse, spec, wakes[i].generation, before, wakes[i].now) && Full(parse, spec, before, wakes[i])
    requires Unsuccessful(wakes, i, m)
    requires wakes[m].now - Before(parse, spec, s, wakes, i).lastPoll.value < PollInterval(parse, spec)
    ensures var check := StoredCheck(parse, spec, s, wakes, i, m);
            Full(parse, spec, Before(parse, spec, s, wakes, m), wakes[m]) <==>
            && (check.Some? ==> wakes[m].now - check.value >= DetectionInterval(parse, spec.detection.value))
            && SeesLater(wakes[m].visible, check)
  {
    NothingSucceeds(parse, spec, s, wakes, i, m, m);
    CheckTimeStays(parse, spec, s, wakes, i, m);
    SkippedExactly(parse, spec, wakes[m].generation, Before(parse, spec, s, wakes, m), wakes[m].now, wakes[m].visible);
  }

  // ---- spec edits ----

  /** A skip at `now`, as far as the intervals go: nothing overdue, and no due check that objects. */
  ghost predicate NothingDue(parse: Parser, spec: Spec, s: Stamps, now: Time, visible: Visible)
    requires parse(spec.pollInterval).Some?
  {
    && DetectionEnabled(spec) && s.lastPoll.Some? && now - s.lastPoll.value < PollInterval(parse, spec)
    && (s.lastCheck == None || now - s.lastCheck.value >= DetectionInterval(parse, spec.detection.value) ==>
          DetectionResult(s.lastCheck, visible) == Some(false))
  }

  /**
   A spec edit forces an attempt. When that fails, the next wake-up that reads the same generation
   attempts it again, unless the final status write of the first was stored and nothing else is due.
   */
  lemma FailedEditRetriedExactly(parse: Parser, spec: Spec, s: Stamps, w: Wake, v: Wake)
    requires parse(spec.pollInterval).Some? && s.observed < w.generation == v.generation && !w.outcome.Success?
    ensures Full(parse, spec, s, w)
    ensures !Full(parse, spec, After(parse, spec, s, w), v) <==>
            w.persisted == Everything && NothingDue(parse, spec, s, v.now, v.visible)
  {
    SkippedExactly(parse, spec, v.generation, After(parse, spec, s, w), v.now, v.visible);
  }

  // ---- short delays ----

  /**
   With only the timer, the stored stamps never lie in the future, and a wake-up comes after the one
   before has ended.
   */
  lemma {:induction false} TimedStampsArePast(parse: Parser, spec: Spec, s: Stamps, wakes: seq<Wake>, i: nat)
    requires Admitted(parse, spec) && TimerOnly(parse, spec, s, wakes) && i < |wakes| && StampsBy(s, wakes[0].now)
    ensures StampsBy(Before(parse, spec, s, wakes, i), wakes[i].now)
    ensures i > 0 ==> StampsBy(Before(parse, spec, s, wakes, i), wakes[i - 1].end) && wakes[i - 1].end < wakes[i].now
  {
    if i > 0 {
      var before := Before(parse, spec, s, wakes, i - 1);
      TimedStampsArePast(parse, spec, s, wakes, i - 1);
      BeforeNext(parse, spec, s, wakes, i - 1);
      TimerStep(parse, spec, s, wakes, i - 1);
      NeverStalls(parse, spec, before, wakes[i - 1]);
      StampsStayPast(parse, spec, before, wakes[i - 1]);
    }
  }

  /** The wake-ups `i` to `m`, the latter not included, attempt a pass and lose the connection. */
  ghost predicate ConnectionsLost(parse: Parser, spec: Spec, s: Stamps, wakes: seq<Wake>, i: nat, m: nat)
    requires parse(spec.pollInterval).Some? && m <= |wakes|
  {
    forall x :: i <= x < m ==>
      Full(parse, spec, Before(parse, spec, s, wakes, x), wakes[x]) && wakes[x].outcome == NoConnection
  }

  lemma {:induction false} LostConnectionsKeepPollTime(parse: Parser, spec: Spec, s: Stamps, wakes: seq<Wake>, i: nat,
                                                       m: nat)
    requires parse(spec.pollInterval).Some? && i <= m <= |wakes| && ConnectionsLost(parse, spec, s, wakes, i, m)
    ensures Before(parse, spec, s, wakes, m).lastPoll == Before(parse, spec, s, wakes, i).lastPoll
    decreases m
  {
    if i < m {
      LostConnectionsKeepPollTime(parse, spec, s, wakes, i, m - 1);
      BeforeNext(parse, spec, s, wakes, m - 1);
      assert wakes[m - 1].outcome == NoConnection;
    }
  }

  lemma {:induction false} ComesAfter(parse: Parser, spec: Spec, s: Stamps, wakes: seq<Wake>, x: nat, m: nat)
    requires Admitted(parse, spec) && TimerOnly(parse, spec, s, wakes) && x < m < |wakes| && StampsBy(s, wakes[0].now)
    ensures wakes[m].now >= wakes[x].end + Delay(parse, spec, Before(parse, spec, s, wakes, x), wakes[x])
    decreases m
  {
    TimerStep(parse, spec, s, wakes, m - 1);
    if x < m - 1 {
      ComesAfter(parse, spec, s, wakes, x, m - 1);
      TimedStampsArePast(parse, spec, s, wakes, m);
    }
  }

  /** When nothing later has recorded a check, wake-up `x` made the one that counts at `m`, or found it stored. */
  lemma CheckMadeOrFound(parse: Parser, spec: Spec, s: Stamps, wakes: seq<Wake>, x: nat, m: nat)
    requires parse(spec.pollInterval).Some? && x < m <= |wakes| && Ordered(wakes[x])
    requires StampsBy(Before(parse, spec, s, wakes, x), wakes[x].now)
    requires forall y :: x < y < m ==> !Records(parse, spec, s, wakes, y)
    ensures var check, before := Before(parse, spec, s, wakes, m).lastCheck, Before(parse, spec, s, wakes, x);
      && (check.Some? ==> check.value <= wakes[x].end)
      && (before.lastCheck == check ||
          Decide(parse, spec, wakes[x].generation, before, wakes[x].now, wakes[x].visible).checked)
  {
    CheckTimeStays(parse, spec, s, wakes, x, m);
  }

  /**
   When the change interval has not passed at `now` since the check `l`, nor the poll interval since the
   last poll, and both came before `w` ended, then `w` has woken the operator so early by losing its
   connection.
   */
  lemma LostBeforeShort(parse: Parser, spec: Spec, s: Stamps, w: Wake, poll: Time, l: Time, now: Time)
    requires Admitted(parse, spec) && DetectionEnabled(spec) && Ordered(w) && StampsBy(s, w.now)
    requires now >= w.end + Delay(parse, spec, s, w) && l <= w.end
    requires now - l < DetectionInterval(parse, spec.detection.value)
    requires poll <= w.end && now - poll < PollInterval(parse, spec)
    requires Decide(parse, spec, w.generation, s, w.now, w.visible).checked || s.lastCheck == Some(l)
    ensures Full(parse, spec, s, w) && w.outcome == NoConnection
  {
    CopiesAgree(parse, spec);
  }

  /**
   With only the timer, the delay gets short only by lost connections: every wake-up from the last
   recorded check on, that one included, attempted a pass and lost its connection.
   */
  lemma ShortDelaysFollowLostConnections(parse: Parser, spec: Spec, s: Stamps, wakes: seq<Wake>, m: nat)
    requires Admitted(parse, spec) && TimerOnly(parse, spec, s, wakes) && m < |wakes| && StampsBy(s, wakes[0].now)
    requires Delay(parse, spec, Before(parse, spec, s, wakes, m), wakes[m]) < Soonest(parse, spec)
    ensures var last := LastRecorder(parse, spec, s, wakes, 0, m);
            ConnectionsLost(parse, spec, s, wakes, if last.Some? then last.value else 0, m)
  {
    var last := LastRecorder(parse, spec, s, wakes, 0, m);
    LostBackTo(parse, spec, s, wakes, if last.Some? then last.value else 0, m);
  }

  lemma {:induction false} LostBackTo(parse: Parser, spec: Spec, s: Stamps, wakes: seq<Wake>, x: nat, m: nat)
    requires Admitted(parse, spec) && TimerOnly(parse, spec, s, wakes) && x <= m < |wakes| && StampsBy(s, wakes[0].now)
    requires Delay(parse, spec, Before(parse, spec, s, wakes, m), wakes[m]) < Soonest(parse, spec)
    requires var last := LastRecorder(parse, spec, s, wakes, 0, m); last.Some? ==> last.value <= x
    ensures ConnectionsLost(parse, spec, s, wakes, x, m)
    decreases m - x
  {
    if x < m {
      LostBackTo(parse, spec, s, wakes, x + 1, m);
      LostConnectionsKeepPollTime(parse, spec, s, wakes, x + 1, m);
      TimedStampsArePast(parse, spec, s, wakes, x + 1);
      hide ConnectionsLost, Before, Delay, Soonest, StampsBy;
      LostOneEarlier(parse, spec, s, wakes, x, m);
      LostFrom(parse, spec, s, wakes, x, m);
    }
  }

  lemma LostFrom(parse: Parser, spec: Spec, s: Stamps, wakes: seq<Wake>, x: nat, m: nat)
    requires parse(spec.pollInterval).Some? && x < m <= |wakes| && ConnectionsLost(parse, spec, s, wakes, x + 1, m)
    requires Full(parse, spec, Before(parse, spec, s, wakes, x), wakes[x]) && wakes[x].outcome == NoConnection
    ensures ConnectionsLost(parse, spec, s, wakes, x, m)
  {
    hide Full, Before;
  }

  lemma LostOneEarlier(parse: Parser, spec: Spec, s: Stamps, wakes: seq<Wake>, x: nat, m: nat)
    requires Admitted(parse, spec) && TimerOnly(parse, spec, s, wakes) && x < m < |wakes| && StampsBy(s, wakes[0].now)
    requires Delay(parse, spec, Before(parse, spec, s, wakes, m), wakes[m]) < Soonest(parse, spec)
    requires forall y :: x < y < m ==> !Records(parse, spec, s, wakes, y)
    requires Before(parse, spec, s, wakes, m).lastPoll == Before(parse, spec, s, wakes, x + 1).lastPoll
    requires StampsBy(Before(parse, spec, s, wakes, x + 1), wakes[x].end)
    ensures Full(parse, spec, Before(parse, spec, s, wakes, x), wakes[x]) && wakes[x].outcome == NoConnection
  {
    var before, now := Before(parse, spec, s, wakes, m), wakes[m].now;
    TimedStampsArePast(parse, spec, s, wakes, m);
    ShortDelayExactly(parse, spec, before, wakes[m]);
    SkippedExactly(parse, spec, wakes[m].generation, before, now, wakes[m].visible);
    TimedStampsArePast(parse, spec, s, wakes, x);
    TimerStep(parse, spec, s, wakes, x);
    ComesAfter(parse, spec, s, wakes, x, m);
    CheckMadeOrFound(parse, spec, s, wakes, x, m);
    hide Before, Delay, Soonest;
    LostBeforeShort(parse, spec, Before(parse, spec, s, wakes, x), wakes[x], before.lastPoll.value,
                    before.lastCheck.value, now);
  }

  // ---- concrete runs ----

  const HOURLY: Parser := text =>
    if text == "1h" then Some(3600 * SECOND) else if text == "45s" then Some(45 * SECOND) else None

  /** Poll every hour, look for changes every 45 seconds. */
  const WATCHING: Spec := Spec("1h", "database", "SELECT * FROM resources", "kind: ConfigMap", true, NoStatusTemplate,
                               Some(Detection(true, "45s")), true)

  /** Polled and checked at time 0, generation 1 observed. */
  const SETTLED: Stamps := Stamps(1, Some(0), Some(0), None)

  /** An edit whose query fails: the next wake-up, a minute later, skips the edited spec. */
  lemma EditForgotten()
    ensures var edited := Wake(20 * SECOND, 2, Rows([]), 20 * SECOND, QueryFailed, None, 21 * SECOND, Everything);
            var next := Wake(80 * SECOND, 2, Rows([]), 81 * SECOND, WithErrors, None, 82 * SECOND, Everything);
            && Full(HOURLY, WATCHING, SETTLED, edited)
            && !Full(HOURLY, WATCHING, After(HOURLY, WATCHING, SETTLED, edited), next)
  {
    var edited := Wake(20 * SECOND, 2, Rows([]), 20 * SECOND, QueryFailed, None, 21 * SECOND, Everything);
    var next := Wake(80 * SECOND, 2, Rows([]), 81 * SECOND, WithErrors, None, 82 * SECOND, Everything);
    FailedEditRetriedExactly(HOURLY, WATCHING, SETTLED, edited, next);
  }

  /** A change that was detected, but whose query failed: a minute later the same row no longer counts. */
  lemma DetectedChangeForgotten()
    ensures var found := Wake(50 * SECOND, 1, Rows([40 * SECOND]), 51 * SECOND,
                              QueryFailed, None, 52 * SECOND, Everything);
            var next := Wake(110 * SECOND, 1, Rows([40 * SECOND]), 111 * SECOND,
                             WithErrors, None, 112 * SECOND, Everything);
            && Full(HOURLY, WATCHING, SETTLED, found)
            && !Full(HOURLY, WATCHING, After(HOURLY, WATCHING, SETTLED, found), next)
  {
    assert Rows([40 * SECOND]).stamps[0] > 0;
    assert Floor(51 * SECOND) == 51 * SECOND;
  }

  /** A connection lost right after a check: the retry finds the next check only 15 seconds away. */
  lemma ShortDelay()
    ensures var lost := Wake(50 * SECOND, 1, Rows([40 * SECOND]), 50 * SECOND,
                             NoConnection, None, 50 * SECOND, Everything);
            var retry := Wake(80 * SECOND, 1, Rows([]), 80 * SECOND, WithErrors, None, 80 * SECOND, Everything);
            && Delay(HOURLY, WATCHING, SETTLED, lost) == 30 * SECOND
            && Delay(HOURLY, WATCHING, After(HOURLY, WATCHING, SETTLED, lost), retry) == 15 * SECOND
            && Soonest(HOURLY, WATCHING) == 30 * SECOND
  {
    assert Rows([40 * SECOND]).stamps[0] > 0;
    assert Floor(50 * SECOND) == 50 * SECOND;
  }
}
