/** Runs of reconciles over time: the bounds on wake-ups, carried over to calls of `Reconcile` whose reads are fresh. */
module TimedRuns {
  import opened Text
  import opened Cluster
  import opened Rows
  import opened StatusLedger
  import opened Schedule
  import opened ScheduleRuns
  import opened ChangeRuns
  import opened ResourceStore
  import opened Reconciler

  /** One call of `Reconcile` on an active resource: what it did, to the store as well, and the revision it read. */
  datatype Timed = Timed(active: Active, result: Result, s: StoreSpan, read: nat)
  {
    function Reads(): Stamps
    {
      active.cr.status.stamps
    }
  }

  /** The stamps that a call has left in the store, unless the resource was gone by then. */
  function Left(c: Timed): Option<Stamps>
  {
    if c.s.after != [] && c.s.after[|c.s.after| - 1].cr.Some?
    then Some(c.s.after[|c.s.after| - 1].cr.value.status.stamps)
    else None
  }

  /** A call that finds its resource, in a revision no older than the one that stood when it began. */
  ghost predicate Fresh(parse: Parser, env: nat -> StoreTurn, c: Timed)
  {
    && c.active.OnSchedule(parse, c.result) && Kept(Reconciled(c.active), parse, env, c.s, c.read)
    && Chained(c.s.after) && c.s.after != [] && c.s.after[|c.s.after| - 1].cr.Some?
    && c.read + 1 >= |c.s.before| > 0
  }

  /** A call of `Reconcile` with a fresh read is one of these, by what it ensures. */
  lemma FreshCall(owner: Owner, parse: Parser, a: Active, o: Occasion, result: Result, seen0: nat, seen: nat,
                  env: nat -> Turn, span: Span, talk: Talk, storeEnv: nat -> StoreTurn, s: StoreSpan, read: nat)
    requires Handled(Reconciled(a), owner, parse, o, result, seen0, seen, env, span, talk)
    requires Kept(Reconciled(a), parse, storeEnv, s, read) && HistoryOk(s.after, seen)
    requires read + 1 >= |s.before| > 0 && s.after[|s.after| - 1].cr.Some?
    ensures Fresh(parse, storeEnv, Timed(a, result, s, read))
  {
    hide Kept;
  }

  /** Calls one after the other under one spec; in between, others change the resource as they like, but no status. */
  ghost predicate FreshRun(parse: Parser, spec: Spec, env: nat -> StoreTurn, run: seq<Timed>)
  {
    && (forall i :: 0 <= i < |run| ==> Fresh(parse, env, run[i]) && run[i].active.cr.spec == spec)
    && forall i :: 0 <= i < |run| - 1 ==> ComesNext(run, i)
  }

  ghost predicate ComesNext(run: seq<Timed>, i: nat)
    requires i + 1 < |run|
  {
    OnlyOthers(run[i].s.after, run[i + 1].s.before)
  }

  /** The clock never runs backwards, and each call comes no later than the one before it asked for. */
  ghost predicate OnTime(run: seq<Timed>)
  {
    && (forall i :: 0 <= i < |run| ==> Clocked(run[i].active.o))
    && forall i :: 0 <= i < |run| - 1 ==> Prompt(run, i)
  }

  predicate Clocked(o: Occasion)
  {
    o.now <= o.checkStamp <= o.done
  }

  ghost predicate Prompt(run: seq<Timed>, i: nat)
    requires i + 1 < |run|
  {
    var end := run[i].active.o.done;
    end <= run[i + 1].active.o.now <= end + run[i].result.requeueAfter
  }

  /** The status moves by the operator's calls alone, so a fresh read gets the one that the call before left. */
  lemma ReadsWhatStands(parse: Parser, env: nat -> StoreTurn, rs: seq<Revision>, d: Timed)
    requires Fresh(parse, env, d) && rs != [] && OnlyOthers(rs, d.s.before)
    ensures rs[|rs| - 1].cr.Some? && d.active.cr.status == rs[|rs| - 1].cr.value.status
  {
    assert d.s.before <= d.s.after;
    var read := d.s.after[..d.read + 1];
    assert OwnWrites(rs, read, {});
    StatusMovesByOwnWrites(rs, read, {}, d.read);
  }

  /** A fresh call is a wake-up of the run model, for some extent of persistence. */
  lemma FreshWake(parse: Parser, env: nat -> StoreTurn, c: Timed) returns (w: Wake)
    requires Fresh(parse, env, c) && parse(c.active.cr.spec.pollInterval).Some?
    ensures w == c.active.Wake(w.persisted) && Left(c) == Some(After(parse, c.active.cr.spec, c.Reads(), w))
  {
    ReadsWhatStands(parse, env, c.s.before, c);
    ReconcileRefinesWake(c.active, parse, c.result, env, c.s);
    var p: Persisted :| Left(c) == Some(After(parse, c.active.cr.spec, c.Reads(), c.active.Wake(p)));
    w := c.active.Wake(p);
  }

  /** The wake-ups of the run model that the calls amount to. */
  ghost predicate WakesOf(parse: Parser, spec: Spec, run: seq<Timed>, wakes: seq<Wake>)
    requires parse(spec.pollInterval).Some?
  {
    && |wakes| == |run|
    && forall i :: 0 <= i < |run| ==> WakeIs(parse, spec, run, wakes, i)
  }

  ghost predicate WakeIs(parse: Parser, spec: Spec, run: seq<Timed>, wakes: seq<Wake>, i: nat)
    requires parse(spec.pollInterval).Some? && i < |run| == |wakes|
  {
    && wakes[i] == run[i].active.Wake(wakes[i].persisted)
    && Before(parse, spec, run[0].Reads(), wakes, i) == run[i].Reads()
  }

  /** A run of calls with fresh reads is a run of wake-ups, for some extent of persistence of each. */
  lemma {:induction false} RunRefinesWakes(parse: Parser, spec: Spec, env: nat -> StoreTurn, run: seq<Timed>)
    returns (wakes: seq<Wake>)
    requires parse(spec.pollInterval).Some? && FreshRun(parse, spec, env, run)
    ensures WakesOf(parse, spec, run, wakes)
    ensures run != [] ==> Left(run[|run| - 1]) == Some(AfterAll(parse, spec, run[0].Reads(), wakes))
  {
    if run == [] {
      return [];
    }
    hide FreshRun, Fresh, After, WakesOf, Left, Kept, Reconciler.Stored;
    var n := |run| - 1;
    var front, last := run[..n], run[n];
    RunSoFar(parse, spec, env, run);
    var earlier := RunRefinesWakes(parse, spec, env, front);
    var w := FreshWake(parse, env, last);
    wakes := earlier + [w];
    if n > 0 {
      NextReads(parse, spec, env, run, n - 1);
    } else {
      assert AfterAll(parse, spec, run[0].Reads(), []) == run[0].Reads();
    }
    OneMoreWake(parse, spec, run, earlier, w);
  }

  lemma OneMoreWake(parse: Parser, spec: Spec, run: seq<Timed>, earlier: seq<Wake>, w: Wake)
    requires parse(spec.pollInterval).Some? && run != [] && WakesOf(parse, spec, run[..|run| - 1], earlier)
    requires w == run[|run| - 1].active.Wake(w.persisted)
    requires AfterAll(parse, spec, run[0].Reads(), earlier) == run[|run| - 1].Reads()
    ensures WakesOf(parse, spec, run, earlier + [w])
    ensures AfterAll(parse, spec, run[0].Reads(), earlier + [w]) == After(parse, spec, run[|run| - 1].Reads(), w)
  {
    var wakes, n := earlier + [w], |run| - 1;
    assert wakes[..n] == earlier;
    forall i | 0 <= i < |run|
      ensures WakeIs(parse, spec, run, wakes, i)
    {
      if i < n {
        assert WakeIs(parse, spec, run[..n], earlier, i);
        assert wakes[..i] == earlier[..i];
      }
    }
  }

  lemma RunSoFar(parse: Parser, spec: Spec, env: nat -> StoreTurn, run: seq<Timed>)
    requires FreshRun(parse, spec, env, run) && run != []
    ensures FreshRun(parse, spec, env, run[..|run| - 1])
    ensures Fresh(parse, env, run[|run| - 1]) && run[|run| - 1].active.cr.spec == spec
  {
    hide Fresh;
    var front := run[..|run| - 1];
    forall i | 0 <= i < |front| - 1
      ensures ComesNext(front, i)
    {
      assert ComesNext(run, i);
    }
  }

  lemma NextReads(parse: Parser, spec: Spec, env: nat -> StoreTurn, run: seq<Timed>, i: nat)
    requires FreshRun(parse, spec, env, run) && i + 1 < |run|
    ensures Left(run[i]) == Some(run[i + 1].Reads())
  {
    assert ComesNext(run, i) && Fresh(parse, env, run[i]);
    ReadsWhatStands(parse, env, run[i].s.after, run[i + 1]);
  }

  lemma WakesInTime(parse: Parser, spec: Spec, env: nat -> StoreTurn, run: seq<Timed>, wakes: seq<Wake>)
    requires parse(spec.pollInterval).Some? && FreshRun(parse, spec, env, run) && OnTime(run) && run != []
    requires WakesOf(parse, spec, run, wakes)
    ensures InTime(parse, spec, run[0].Reads(), wakes)
  {
    forall i | 0 <= i < |wakes|
      ensures Ordered(wakes[i])
    {
      assert WakeIs(parse, spec, run, wakes, i) && Fresh(parse, env, run[i]);
    }
    forall i | 0 <= i < |wakes| - 1
      ensures SoonEnough(parse, spec, run[0].Reads(), wakes, i)
    {
      assert WakeIs(parse, spec, run, wakes, i) && WakeIs(parse, spec, run, wakes, i + 1) && Prompt(run, i);
      assert Fresh(parse, env, run[i]);
    }
  }

  /** The calls `from` to `to`, the latter not included, skip the full pass, and each takes no longer than `slack`. */
  ghost predicate SkipBriefly(run: seq<Timed>, from: nat, to: nat, slack: Duration)
    requires to <= |run|
  {
    forall x :: from <= x < to ==> !run[x].active.attempted && TakesAtMost(run[x], slack)
  }

  predicate TakesAtMost(c: Timed, slack: Duration)
  {
    c.active.o.done <= c.active.o.now + slack
  }

  lemma SkipsCarryOver(parse: Parser, spec: Spec, env: nat -> StoreTurn, run: seq<Timed>, wakes: seq<Wake>, from: nat,
                       to: nat, slack: Duration)
    requires parse(spec.pollInterval).Some? && FreshRun(parse, spec, env, run) && WakesOf(parse, spec, run, wakes)
    requires from <= to <= |run| && run != [] && SkipBriefly(run, from, to, slack)
    ensures SkipsFrom(parse, spec, run[0].Reads(), wakes, from, to) && Brief(wakes, from, to, slack)
  {
    forall x | from <= x < to
      ensures !Full(parse, spec, Before(parse, spec, run[0].Reads(), wakes, x), wakes[x])
      ensures wakes[x].end <= wakes[x].now + slack
    {
      assert WakeIs(parse, spec, run, wakes, x) && Fresh(parse, env, run[x]);
    }
  }

  lemma WakeTimes(parse: Parser, spec: Spec, run: seq<Timed>, wakes: seq<Wake>, i: nat)
    requires parse(spec.pollInterval).Some? && WakesOf(parse, spec, run, wakes) && i < |run|
    ensures |wakes| == |run| && wakes[i].now == run[i].active.o.now && wakes[i].end == run[i].active.o.done
  {
    assert WakeIs(parse, spec, run, wakes, i);
  }

  lemma BriefBefore(parse: Parser, spec: Spec, run: seq<Timed>, wakes: seq<Wake>, k: nat, j: nat, slack: Duration)
    requires parse(spec.pollInterval).Some? && WakesOf(parse, spec, run, wakes) && 0 < k <= j < |run|
    requires Brief(wakes, k, j, slack) && TakesAtMost(run[k - 1], slack)
    ensures Brief(wakes, k - 1, j, slack)
  {
    WakeTimes(parse, spec, run, wakes, k - 1);
  }

  /**
   No committed change goes unqueried for long. For a change at time v, after call k - 1 began, every
   call up to and including the next that attempts a full pass comes before v + p + c, up to twice the
   running time of a call, whatever fails in the calls.
   */
  lemma CallsQueryChanges(parse: Parser, spec: Spec, env: nat -> StoreTurn, run: seq<Timed>, k: nat, j: nat, v: Time,
                          slack: Duration)
    requires Admitted(parse, spec) && FreshRun(parse, spec, env, run) && OnTime(run) && 0 < k <= j < |run|
    requires StampsBy(run[0].Reads(), run[0].active.o.now)
    requires run[k - 1].active.o.now < v && TakesAtMost(run[k - 1], slack) && SkipBriefly(run, k, j, slack)
    ensures run[j].active.o.now < v + Horizon(parse, spec) + 2 * slack
  {
    hide FreshRun, Fresh, OnTime, WakesOf, SkipBriefly, InTime, SkipsFrom, Brief, TrimSpace;
    var wakes := RunRefinesWakes(parse, spec, env, run);
    WakesInTime(parse, spec, env, run, wakes);
    SkipsCarryOver(parse, spec, env, run, wakes, k, j, slack);
    WakeTimes(parse, spec, run, wakes, 0);
    WakeTimes(parse, spec, run, wakes, k - 1);
    WakeTimes(parse, spec, run, wakes, j);
    BriefBefore(parse, spec, run, wakes, k, j, slack);
    ChangesAreQueried(parse, spec, run[0].Reads(), wakes, k, j, v, slack);
  }

  /**
   Bounded staleness. After a call whose pass succeeded and whose final status write was stored, every
   call up to and including the next that attempts a full pass comes before p + c have gone by, up to
   the running time of a call.
   */
  lemma CallsBoundStaleness(parse: Parser, spec: Spec, env: nat -> StoreTurn, run: seq<Timed>, j: nat, slack: Duration)
    requires Admitted(parse, spec) && DetectionEnabled(spec) && FreshRun(parse, spec, env, run) && OnTime(run)
    requires 0 < j < |run| && run[0].active.outcome.Success? && StampsBy(run[0].Reads(), run[0].active.o.now)
    requires Left(run[0]) == Some(run[0].active.status.stamps)
    requires slack >= 0 && SkipBriefly(run, 1, j, slack)
    ensures run[j].active.o.now <
            run[0].active.o.done + PollInterval(parse, spec) + DetectionInterval(parse, spec.detection.value) + slack
  {
    var done, rest := run[0].active.o.done, run[1..];
    RestIsRun(parse, spec, env, run);
    FirstTwo(parse, spec, env, run);
    SuccessStored(parse, run[0]);
    var wakes := RunRefinesWakes(parse, spec, env, rest);
    WakesInTime(parse, spec, env, rest, wakes);
    SkipsCarryOver(parse, spec, env, rest, wakes, 0, j - 1, slack);
    assert WakeIs(parse, spec, rest, wakes, 0) && WakeIs(parse, spec, rest, wakes, j - 1);
    hide FreshRun, OnTime, WakesOf;
    BoundedStaleness(parse, spec, rest[0].Reads(), wakes, j - 1, done, slack);
  }

  lemma FirstTwo(parse: Parser, spec: Spec, env: nat -> StoreTurn, run: seq<Timed>)
    requires FreshRun(parse, spec, env, run) && OnTime(run) && |run| > 1
    ensures run[0].active.OnSchedule(parse, run[0].result) && run[0].active.cr.spec == spec
    ensures Clocked(run[0].active.o) && Prompt(run, 0) && Left(run[0]) == Some(run[1].Reads())
  {
    NextReads(parse, spec, env, run, 0);
    hide Kept, Chained, Left;
    assert Fresh(parse, env, run[0]);
  }

  lemma SuccessStored(parse: Parser, c: Timed)
    requires c.active.OnSchedule(parse, c.result) && Admitted(parse, c.active.cr.spec) && c.active.outcome.Success?
    requires Clocked(c.active.o) && StampsBy(c.Reads(), c.active.o.now)
    ensures var spec, done, stamps := c.active.cr.spec, c.active.o.done, c.active.status.stamps;
      && stamps.lastPoll == Some(Floor(done)) && StampsBy(stamps, done)
      && c.result.requeueAfter == NextRequeueInterval(parse, spec, PollInterval(parse, spec)) > 0
  {
    CopiesAgree(parse, c.active.cr.spec);
    StampsStayPast(parse, c.active.cr.spec, c.Reads(), c.active.Wake(Everything));
  }

  lemma RestIsRun(parse: Parser, spec: Spec, env: nat -> StoreTurn, run: seq<Timed>)
    requires FreshRun(parse, spec, env, run) && OnTime(run) && run != []
    ensures FreshRun(parse, spec, env, run[1..]) && OnTime(run[1..])
  {
    var rest := run[1..];
    forall i | 0 <= i < |rest| - 1
      ensures ComesNext(rest, i) && Prompt(rest, i)
    {
      assert ComesNext(run, i + 1) && Prompt(run, i + 1);
    }
  }
}
