/**
 Runs of whole reconciles, full, failing and skipping ones mixed: which children are alive, and what
 has been reported.
 */
module ReconcileRuns {
  import opened Text
  import opened Manifests
  import opened ObjectKeys
  import opened Cleanup
  import opened Cluster
  import opened Rows
  import opened StatusLedger
  import opened Pass
  import opened PassLaws
  import opened Schedule
  import opened ResourceStore
  import opened Reconciler

  /** One reconcile of a run, with the history of the cluster before and after it. */
  datatype Link = Link(active: Active, before: History, after: History)

  const NEW: Status := Status(Stamps(0, None, None, None), [], map[])

  /** Where a run has got to: the history, and the status as stored. */
  function HistoryAfter(start: History, run: seq<Link>): History
  {
    if run == [] then start else run[|run| - 1].after
  }

  function StatusAfter(run: seq<Link>): Status
  {
    if run == [] then NEW else run[|run| - 1].active.status
  }

  /** Every reconcile starts from the cluster and the status that the one before it left, and pruning is on. */
  ghost predicate Undisturbed(owner: Owner, parse: Parser, start: History, run: seq<Link>)
  {
    forall i :: 0 <= i < |run| ==> Continues(owner, parse, start, run[..i], run[i])
  }

  ghost predicate Continues(owner: Owner, parse: Parser, start: History, run: seq<Link>, next: Link)
  {
    && next.before == HistoryAfter(start, run) && next.active.cr.status == StatusAfter(run)
    && next.active.cr.spec.prune
    && next.active.Safe(owner, next.before, next.after)
    && exists willing :: next.active.Exact(owner, parse, next.before, next.after, willing)
  }

  /** What stands in the store is the status that the run has left. */
  predicate Stands(rs: seq<Revision>, run: seq<Link>)
  {
    rs != [] && rs[|rs| - 1].cr.Some? && rs[|rs| - 1].cr.value.status == StatusAfter(run)
  }

  /** A call of `Reconcile` that nothing disturbs, and that reads the resource as it stands, continues the run. */
  lemma UndisturbedGrows(owner: Owner, parse: Parser, start: History, run: seq<Link>, a: Active, o: Occasion,
                         result: Result, seen0: nat, seen: nat, env: nat -> Turn, span: Span, talk: Talk,
                         storeEnv: nat -> StoreTurn, s: StoreSpan, read: nat)
    requires Undisturbed(owner, parse, start, run) && Stands(s.before, run) && span.before == HistoryAfter(start, run)
    requires Handled(Reconciled(a), owner, parse, o, result, seen0, seen, env, span, talk)
    requires Kept(Reconciled(a), parse, storeEnv, s, read) && s.before[|s.before| - 1].cr == Some(a.cr)
    requires Calm(env, span.from, span.to) && CalmStore(storeEnv, s.from, s.to) && a.cr.spec.prune
    ensures var run' := run + [Link(a, span.before, span.after)];
      && Undisturbed(owner, parse, start, run') && Stands(s.after, run') && span.after == HistoryAfter(start, run')
  {
    hide Handled, Kept, Undisturbed, Continues;
    UndisturbedContinues(owner, parse, start, run, a, o, result, seen0, seen, env, span, talk);
    OneMoreLink(owner, parse, start, run, Link(a, span.before, span.after));
    StandsAfter(parse, run, a, span, storeEnv, s, read);
  }

  lemma UndisturbedContinues(owner: Owner, parse: Parser, start: History, run: seq<Link>, a: Active, o: Occasion,
                             result: Result, seen0: nat, seen: nat, env: nat -> Turn, span: Span, talk: Talk)
    requires Handled(Reconciled(a), owner, parse, o, result, seen0, seen, env, span, talk)
    requires Calm(env, span.from, span.to) && a.cr.spec.prune
    requires span.before == HistoryAfter(start, run) && a.cr.status == StatusAfter(run)
    ensures Continues(owner, parse, start, run, Link(a, span.before, span.after))
  {
    assert a.Exact(owner, parse, span.before, span.after, AllAccepted(talk.New()));
  }

  lemma StandsAfter(parse: Parser, run: seq<Link>, a: Active, span: Span, storeEnv: nat -> StoreTurn, s: StoreSpan,
                    read: nat)
    requires Kept(Reconciled(a), parse, storeEnv, s, read) && CalmStore(storeEnv, s.from, s.to)
    requires s.before != [] && s.before[|s.before| - 1].cr == Some(a.cr)
    ensures Stands(s.after, run + [Link(a, span.before, span.after)])
  {
  }

  lemma OneMoreLink(owner: Owner, parse: Parser, start: History, run: seq<Link>, next: Link)
    requires Undisturbed(owner, parse, start, run) && Continues(owner, parse, start, run, next)
    ensures Undisturbed(owner, parse, start, run + [next])
  {
    hide Continues;
    var run' := run + [next];
    forall i | 0 <= i < |run'|
      ensures Continues(owner, parse, start, run'[..i], run'[i])
    {
      if i < |run| {
        assert run'[..i] == run[..i] && run'[i] == run[i];
      } else {
        assert run'[..i] == run;
      }
    }
  }

  lemma UndisturbedSoFar(owner: Owner, parse: Parser, start: History, run: seq<Link>)
    requires Undisturbed(owner, parse, start, run) && run != []
    ensures Undisturbed(owner, parse, start, run[..|run| - 1])
    ensures Continues(owner, parse, start, run[..|run| - 1], run[|run| - 1])
  {
    var front := run[..|run| - 1];
    forall i | 0 <= i < |front|
      ensures Continues(owner, parse, start, front[..i], front[i])
    {
      assert front[..i] == run[..i];
    }
  }

  ghost function WorldAfter(start: History, run: seq<Link>): World
  {
    World(HistoryAfter(start, run), StatusAfter(run).managed)
  }

  ghost function WorldOf(next: Link): World
  {
    World(next.after, next.active.status.managed)
  }

  /** A reconcile moves the children as one pass of the set specification does, or not at all. */
  lemma LinkIsAPassOrNothing(owner: Owner, parse: Parser, start: History, run: seq<Link>, next: Link)
    requires Continues(owner, parse, start, run, next)
    ensures WorldOf(next) ==
            if next.active.Reached() then AfterPass(WorldAfter(start, run), Asked(owner, next.active.o.query.value))
            else WorldAfter(start, run)
  {
    var willing :| next.active.Exact(owner, parse, next.before, next.after, willing);
  }

  lemma LinkKeepsOwnership(owner: Owner, parse: Parser, start: History, run: seq<Link>, next: Link)
    requires Continues(owner, parse, start, run, next) && OwnsItsChildren(World(start, []), WorldAfter(start, run))
    ensures OwnsItsChildren(World(start, []), WorldOf(next))
  {
    LinkIsAPassOrNothing(owner, parse, start, run, next);
    if next.active.Reached() {
      PassKeepsOwnership(World(start, []), WorldAfter(start, run), Asked(owner, next.active.o.query.value));
    }
  }

  /**
   Over any run of undisturbed reconciles, whether they skip, fail on the way or run into failing rows,
   the managed objects are alive, and nothing else has changed since the start: the operator's
   children that are alive are exactly the managed ones.
   */
  lemma {:induction false} RunsOwnTheirChildren(owner: Owner, parse: Parser, start: History, run: seq<Link>)
    requires Undisturbed(owner, parse, start, run)
    ensures OwnsItsChildren(World(start, []), WorldAfter(start, run))
    decreases |run|
  {
    if run != [] {
      UndisturbedSoFar(owner, parse, start, run);
      RunsOwnTheirChildren(owner, parse, start, run[..|run| - 1]);
      LinkKeepsOwnership(owner, parse, start, run[..|run| - 1], run[|run| - 1]);
    }
  }

  /** What the rows of a link leave managed. */
  ghost predicate Decides(owner: Owner, link: Link, w: World)
  {
    && link.active.Reached() && w.history == link.after
    && w.managed == Sorted(RowsKeys(link.before, Asked(owner, link.active.o.query.value)))
    && (link.active.outcome.Success? ==> KeySet(w.managed) == KeysAsked(Asked(owner, link.active.o.query.value)))
  }

  lemma ReachedDecides(owner: Owner, parse: Parser, start: History, run: seq<Link>, next: Link)
    requires Continues(owner, parse, start, run, next) && next.active.Reached()
    ensures Decides(owner, next, WorldOf(next))
  {
    var willing :| next.active.Exact(owner, parse, next.before, next.after, willing);
  }

  /**
   The last reconcile that reached the rows decides: the managed keys are those its rows left, all
   those its query asked for if it succeeded, until the next one that reaches the rows.
   */
  lemma {:induction false} LastPassDecides(owner: Owner, parse: Parser, start: History, run: seq<Link>, i: nat)
    requires Undisturbed(owner, parse, start, run) && i < |run| && run[i].active.Reached()
    requires forall j :: i < j < |run| ==> !run[j].active.Reached()
    ensures Decides(owner, run[i], WorldAfter(start, run))
    decreases |run|
  {
    UndisturbedSoFar(owner, parse, start, run);
    if i < |run| - 1 {
      LastPassDecides(owner, parse, start, run[..|run| - 1], i);
      LinkIsAPassOrNothing(owner, parse, start, run[..|run| - 1], run[|run| - 1]);
    } else {
      ReachedDecides(owner, parse, start, run[..|run| - 1], run[|run| - 1]);
    }
  }

  // ---- under any disturbance, as long as status writes persist ----

  /** Every reconcile starts from the status that the one before it left; the cluster may do what it likes. */
  ghost predicate StatusesPersist(owner: Owner, run: seq<Link>)
  {
    forall i :: 0 <= i < |run| ==> StartsFrom(owner, StatusAfter(run[..i]), run[i])
  }

  ghost predicate StartsFrom(owner: Owner, status: Status, next: Link)
  {
    next.active.cr.status == status && next.active.Safe(owner, next.before, next.after)
  }

  /** Whatever disturbs it, a call of `Reconcile` that reads the status the run has left continues it. */
  lemma PersistGrows(owner: Owner, parse: Parser, run: seq<Link>, a: Active, o: Occasion, result: Result, seen0: nat,
                     seen: nat, env: nat -> Turn, span: Span, talk: Talk)
    requires StatusesPersist(owner, run) && a.cr.status == StatusAfter(run)
    requires Handled(Reconciled(a), owner, parse, o, result, seen0, seen, env, span, talk)
    ensures StatusesPersist(owner, run + [Link(a, span.before, span.after)])
  {
    var run' := run + [Link(a, span.before, span.after)];
    assert StartsFrom(owner, StatusAfter(run), Link(a, span.before, span.after));
    hide StartsFrom, Handled;
    forall i | 0 <= i < |run'|
      ensures StartsFrom(owner, StatusAfter(run'[..i]), run'[i])
    {
      if i < |run| {
        assert run'[..i] == run[..i] && run'[i] == run[i];
      } else {
        assert run'[..i] == run;
      }
    }
  }

  lemma PersistSoFar(owner: Owner, run: seq<Link>)
    requires StatusesPersist(owner, run) && run != []
    ensures StatusesPersist(owner, run[..|run| - 1])
    ensures StartsFrom(owner, StatusAfter(run[..|run| - 1]), run[|run| - 1])
  {
    var front := run[..|run| - 1];
    forall i | 0 <= i < |front|
      ensures StartsFrom(owner, StatusAfter(front[..i]), front[i])
    {
      assert front[..i] == run[..i];
    }
  }

  function Ledgers(run: seq<Link>): seq<Event>
  {
    if run == [] then [] else Ledgers(run[..|run| - 1]) + run[|run| - 1].active.ledger
  }

  /**
   The recorded versions are what all the reports and drops of the run leave, and no version is
   reported while it is recorded: between two accepted reports of one version its entry has changed.
   */
  lemma {:induction false} RunsNeverRepeatReports(owner: Owner, run: seq<Link>)
    requires StatusesPersist(owner, run)
    ensures Accounts(map[], Ledgers(run), StatusAfter(run).versions)
    decreases |run|
  {
    if run != [] {
      var front, last := run[..|run| - 1], run[|run| - 1];
      PersistSoFar(owner, run);
      RunsNeverRepeatReports(owner, front);
      PassesChain(map[], Ledgers(front), last.active.ledger);
    }
  }

  // ---- under any disturbance, lost status writes, conflicts and stale reads included ----

  /**
   One call of `Reconcile`: what it did, the history of the cluster before and after it, the number of
   revisions in the store before and after it, and the revision it has read.
   */
  datatype Call = Call(report: Report, before: History, after: History, from: nat, to: nat, read: nat)

  /** What every call promises of the children, whatever happens around it. */
  ghost predicate ChildrenSafe(owner: Owner, call: Call)
  {
    match call.report
    case Reconciled(a) => a.Safe(owner, call.before, call.after)
    case Deleting(cr, _) => OnlyManagedRemoved(call.before, call.after, cr.status.managed)
    case _ => call.after == call.before
  }

  /** What it promises of the store, whose revisions are `rs` in the end. */
  ghost predicate StoreSafe(parse: Parser, rs: seq<Revision>, call: Call)
  {
    && call.from <= call.to <= |rs|
    && match call.report
       case Reconciled(a) =>
         && ReadAt(rs, call.from, call.read, a.cr) && call.read < call.to
         && StatusesAmong(rs, call.from, call.to, a.Statuses(parse) + {a.status})
       case Deleting(cr, _) =>
         ReadAt(rs, call.from, call.read, cr) && call.read < call.to && StatusesAmong(rs, call.from, call.to, {})
       case _ => StatusesAmong(rs, call.from, call.to, {})
  }

  /** The status writes in this range are of the given statuses. */
  ghost predicate StatusesAmong(rs: seq<Revision>, from: nat, to: nat, statuses: set<Status>)
    requires from <= to <= |rs|
  {
    forall i :: from <= i < to && rs[i].writer.OperatorStatus? ==> rs[i].cr.Some? && rs[i].cr.value.status in statuses
  }

  function CallOf(report: Report, span: Span, s: StoreSpan, read: nat): Call
  {
    Call(report, span.before, span.after, |s.before|, |s.after|, read)
  }

  /** Both hold of every call, because `Reconcile` ensures what they follow from. */
  lemma EveryCallIsSafe(report: Report, owner: Owner, parse: Parser, o: Occasion, result: Result, seen0: nat, seen: nat,
                        env: nat -> Turn, span: Span, talk: Talk, storeEnv: nat -> StoreTurn, s: StoreSpan,
                        read: nat)
    requires Handled(report, owner, parse, o, result, seen0, seen, env, span, talk)
    requires Kept(report, parse, storeEnv, s, read)
    ensures ChildrenSafe(owner, CallOf(report, span, s, read))
    ensures StoreSafe(parse, s.after, CallOf(report, span, s, read))
  {
  }

  /** Calls one after the other; between them others do to the cluster and the resource what they like. */
  ghost predicate RunOf(owner: Owner, parse: Parser, rs: seq<Revision>, calls: seq<Call>)
  {
    && Chained(rs) && rs != [] && rs[0].cr.Some? && rs[0].cr.value.status == NEW
    && (forall i :: 0 <= i < |calls| ==> ChildrenSafe(owner, calls[i]) && StoreSafe(parse, rs, calls[i]))
    && (forall i, j :: 0 <= i < j < |calls| ==> calls[i].to <= calls[j].from)
    && forall m :: 0 < m < |rs| && rs[m].writer.OperatorStatus? ==> exists j :: 0 <= j < |calls| && Wrote(calls[j], m)
  }

  predicate Wrote(call: Call, m: nat)
  {
    call.from <= m < call.to
  }

  lemma StoreSafeLater(parse: Parser, rs: seq<Revision>, rs': seq<Revision>, call: Call)
    requires StoreSafe(parse, rs, call) && rs <= rs'
    ensures StoreSafe(parse, rs', call)
  {
  }

  /** A store starts with a run of no calls ... */
  lemma RunStarts(owner: Owner, parse: Parser, cr: Cr)
    requires cr.status == NEW
    ensures RunOf(owner, parse, [Revision(Elsewhere(Touch), Some(cr))], [])
  {
  }

  /** ... and each call of `Reconcile` on it adds one to the run, by what it ensures alone. */
  lemma RunGrows(owner: Owner, parse: Parser, calls: seq<Call>, later: nat, report: Report, o: Occasion, result: Result,
                 seen0: nat, seen: nat, env: nat -> Turn, span: Span, talk: Talk, storeEnv: nat -> StoreTurn,
                 s: StoreSpan, read: nat)
    requires RunOf(owner, parse, s.before, calls) && HistoryOk(s.after, later)
    requires Handled(report, owner, parse, o, result, seen0, seen, env, span, talk)
    requires Kept(report, parse, storeEnv, s, read)
    ensures RunOf(owner, parse, s.after, calls + [CallOf(report, span, s, read)])
  {
    var call := CallOf(report, span, s, read);
    var calls' := calls + [call];
    EveryCallIsSafe(report, owner, parse, o, result, seen0, seen, env, span, talk, storeEnv, s, read);
    KeptExtends(report, parse, storeEnv, s, read);
    hide Handled, Kept;
    forall i | 0 <= i < |calls'|
      ensures ChildrenSafe(owner, calls'[i]) && StoreSafe(parse, s.after, calls'[i])
    {
      if i < |calls| {
        assert calls'[i] == calls[i];
        StoreSafeLater(parse, s.before, s.after, calls[i]);
      }
    }
    WritersKnown(owner, parse, s.before, calls, s.after, call);
    forall i, j | 0 <= i < j < |calls'|
      ensures calls'[i].to <= calls'[j].from
    {
      assert StoreSafe(parse, s.before, calls[i]);
    }
  }

  lemma KeptExtends(report: Report, parse: Parser, env: nat -> StoreTurn, s: StoreSpan, read: nat)
    requires Kept(report, parse, env, s, read)
    ensures s.before <= s.after
  {
  }

  lemma WritersKnown(owner: Owner, parse: Parser, rs: seq<Revision>, calls: seq<Call>, rs': seq<Revision>, call: Call)
    requires RunOf(owner, parse, rs, calls) && rs <= rs' && call.from == |rs| && call.to == |rs'|
    ensures forall m :: 0 < m < |rs'| && rs'[m].writer.OperatorStatus? ==>
              exists j :: 0 <= j < |calls + [call]| && Wrote((calls + [call])[j], m)
  {
    var calls' := calls + [call];
    forall m | 0 < m < |rs'| && rs'[m].writer.OperatorStatus?
      ensures exists j :: 0 <= j < |calls'| && Wrote(calls'[j], m)
    {
      if m < |rs| {
        assert rs'[m] == rs[m];
        var j :| 0 <= j < |calls| && Wrote(calls[j], m);
        assert Wrote(calls'[j], m);
      } else {
        assert Wrote(calls'[|calls|], m);
      }
    }
  }

  /** The rows of this call asked for the key. */
  ghost predicate AskedFor(owner: Owner, call: Call, key: string)
  {
    call.report.Reconciled? && call.report.active.Reached() && key in KeysAsked(AskedOn(owner, call.report.active.o))
  }

  /** The operator has written nothing since call `i` began, as far as revision `m`. */
  ghost predicate NotSince(rs: seq<Revision>, calls: seq<Call>, i: nat, m: nat)
    requires i <= |calls| && m < |rs|
  {
    i < |calls| ==> forall x :: calls[i].from <= x <= m ==> rs[x].writer.Elsewhere?
  }

  /** What a status names as managed has been asked for by a row of an earlier call. */
  lemma {:induction false} ManagedWasAskedFor(owner: Owner, parse: Parser, rs: seq<Revision>, calls: seq<Call>, i: nat,
                                              m: nat, key: string)
    requires RunOf(owner, parse, rs, calls) && i <= |calls| && m < |rs| && NotSince(rs, calls, i, m)
    requires rs[m].cr.Some? && key in rs[m].cr.value.status.managed
    ensures exists j :: 0 <= j < i && AskedFor(owner, calls[j], key)
    decreases m
  {
    assert m > 0;
    if rs[m].writer.OperatorStatus? {
      var j :| 0 <= j < |calls| && Wrote(calls[j], m);
      EarlierWriter(owner, parse, rs, calls, i, m, j);
      var a := calls[j].report.active;
      if !AskedFor(owner, calls[j], key) {
        WrittenManaged(owner, parse, rs, calls[j], m, key);
        ManagedWasAskedFor(owner, parse, rs, calls, j, calls[j].read, key);
      }
    } else {
      assert Follows(rs[m - 1], rs[m]);
      ManagedWasAskedFor(owner, parse, rs, calls, i, m - 1, key);
    }
  }

  lemma EarlierWriter(owner: Owner, parse: Parser, rs: seq<Revision>, calls: seq<Call>, i: nat, m: nat, j: nat)
    requires RunOf(owner, parse, rs, calls) && i <= |calls| && m < |rs| && NotSince(rs, calls, i, m)
    requires j < |calls| && Wrote(calls[j], m) && rs[m].writer.OperatorStatus?
    ensures j < i && calls[j].report.Reconciled? && calls[j].read < m && NotSince(rs, calls, j, calls[j].read)
  {
    assert StoreSafe(parse, rs, calls[j]);
  }

  /** A key in a written status was in the status that was read, or the rows asked for it. */
  lemma WrittenManaged(owner: Owner, parse: Parser, rs: seq<Revision>, call: Call, m: nat, key: string)
    requires ChildrenSafe(owner, call) && StoreSafe(parse, rs, call) && Wrote(call, m) && rs[m].writer.OperatorStatus?
    requires call.report.Reconciled? && rs[m].cr.Some? && key in rs[m].cr.value.status.managed
    requires !AskedFor(owner, call, key)
    ensures key in call.report.active.cr.status.managed
    ensures rs[call.read].cr.Some? && key in rs[call.read].cr.value.status.managed
  {
    var a := call.report.active;
    assert rs[m].cr.value.status in a.Statuses(parse) + {a.status};
    assert key in a.status.managed ==> key in KeySet(a.status.managed);
  }

  /** An operator's write, number `n` of the history, made during call `i`. */
  ghost predicate OwnWrite(calls: seq<Call>, i: nat, n: nat)
  {
    && i < |calls| && |calls[i].before| <= n < |calls[i].after| && calls[i].after[n].author == Operator
  }

  /**
   Over every run, whatever fails or interferes: each write of the operator's applies an object that a row of
   that very call asked for to what stood there just before, or removes one that a row of an earlier
   call asked for; a pass removes only with pruning on and only what it does not manage any more.
   */
  lemma EveryWriteWasAskedFor(owner: Owner, parse: Parser, rs: seq<Revision>, calls: seq<Call>, i: nat, n: nat)
    requires RunOf(owner, parse, rs, calls) && OwnWrite(calls, i, n)
    ensures var e, report := calls[i].after[n], calls[i].report;
      && e.id.Valid() && (report.Reconciled? || report.Deleting?)
      && (e.change.Put? ==> AskedFor(owner, calls[i], GetObjectKey(e.id)) &&
                            AppliesOne(calls[i].after, n, AskedOn(owner, report.active.o)))
      && (e.change.Remove? ==> exists j :: 0 <= j < i && AskedFor(owner, calls[j], GetObjectKey(e.id)))
      && (e.change.Remove? && report.Reconciled? ==>
            report.active.cr.spec.prune && GetObjectKey(e.id) !in report.active.status.managed)
  {
    var e := calls[i].after[n];
    var key := GetObjectKey(e.id);
    assert ChildrenSafe(owner, calls[i]) && StoreSafe(parse, rs, calls[i]);
    if calls[i].report.Reconciled? {
      PassWriteMeans(owner, calls[i], n);
    }
    if e.change.Remove? {
      assert NotSince(rs, calls, i, calls[i].read);
      ManagedWasAskedFor(owner, parse, rs, calls, i, calls[i].read, key);
    }
  }

  lemma PassWriteMeans(owner: Owner, call: Call, n: nat)
    requires call.report.Reconciled? && call.report.active.Safe(owner, call.before, call.after)
    requires |call.before| <= n < |call.after| && call.after[n].author == Operator
    ensures var e, a := call.after[n], call.report.active;
      && a.Reached() && e.id.Valid()
      && (e.change.Put? ==> AskedFor(owner, call, GetObjectKey(e.id)) && AppliesOne(call.after, n, AskedOn(owner, a.o)))
      && (e.change.Remove? ==>
            && a.cr.spec.prune && GetObjectKey(e.id) in a.cr.status.managed
            && GetObjectKey(e.id) !in a.status.managed)
  {
    var a, e := call.report.active, call.after[n];
    assert PassWrite(call.after, n, AskedOn(owner, a.o), a.cr.status.managed, KeySet(a.status.managed),
                     a.cr.spec.prune);
    assert GetObjectKey(e.id) in KeySet(a.status.managed) <==> GetObjectKey(e.id) in a.status.managed;
  }

  /** No annotation and no field that the rows do not name is lost to a pass, however others write in between. */
  lemma ForeignContentSurvives(owner: Owner, call: Call, n: nat, k: string)
    requires call.report.Reconciled? && ChildrenSafe(owner, call)
    requires |call.before| <= n < |call.after| && call.after[n].author == Operator && call.after[n].change.Put?
    requires var before := Current(call.after[..n], call.after[n].id); before.Some?
    requires k != LAST_APPLIED
    requires forall d :: d in AskedOn(owner, call.report.active.o) && d.id == call.after[n].id ==>
               k !in d.manifest.annotations && k !in d.manifest.rest
    ensures var before, put := Current(call.after[..n], call.after[n].id).value.manifest, call.after[n].change.manifest;
      && (k in before.annotations ==> k in put.annotations && put.annotations[k] == before.annotations[k])
      && (k in before.rest ==> k in put.rest && put.rest[k] == before.rest[k])
  {
    PassWriteMeans(owner, call, n);
    var d :| d in AskedOn(owner, call.report.active.o) && Applies(call.after, n, d);
    ApplyingKeepsTheRest(call.after, n, d);
  }

  /**
   From call `i` on no read is staler than the revision that stood when that call began, and no row asks
   for the key.
   */
  ghost predicate Forgotten(owner: Owner, calls: seq<Call>, i: nat, key: string)
    requires i < |calls|
  {
    forall j :: i <= j < |calls| ==>
      && (calls[j].report.Reconciled? || calls[j].report.Deleting? ==> calls[j].read + 1 >= calls[i].from)
      && !AskedFor(owner, calls[j], key)
  }

  lemma WriterSince(owner: Owner, parse: Parser, rs: seq<Revision>, calls: seq<Call>, i: nat, m: nat, key: string)
    returns (j: nat)
    requires RunOf(owner, parse, rs, calls) && i < |calls| && Forgotten(owner, calls, i, key)
    requires 0 < m < |rs| && calls[i].from <= m && rs[m].writer.OperatorStatus?
    ensures j < |calls| && Wrote(calls[j], m) && calls[j].report.Reconciled? && !AskedFor(owner, calls[j], key)
    ensures calls[i].from <= calls[j].read + 1 && calls[j].read < m && rs[calls[j].read].cr.Some?
    ensures ChildrenSafe(owner, calls[j]) && StoreSafe(parse, rs, calls[j])
  {
    j :| 0 <= j < |calls| && Wrote(calls[j], m);
    EarlierWriter(owner, parse, rs, calls, |calls|, m, j);
    assert j >= i;
  }

  /** Then no later status names it. */
  lemma {:induction false} StaysForgotten(owner: Owner, parse: Parser, rs: seq<Revision>, calls: seq<Call>, i: nat,
                                          m: nat, key: string)
    requires RunOf(owner, parse, rs, calls) && i < |calls| && Forgotten(owner, calls, i, key)
    requires 0 < calls[i].from <= m + 1 <= |rs| && rs[m].cr.Some?
    requires rs[calls[i].from - 1].cr.Some? ==> key !in rs[calls[i].from - 1].cr.value.status.managed
    ensures key !in rs[m].cr.value.status.managed
    decreases m
  {
    if m >= calls[i].from {
      if rs[m].writer.OperatorStatus? {
        var j := WriterSince(owner, parse, rs, calls, i, m, key);
        StaysForgotten(owner, parse, rs, calls, i, calls[j].read, key);
        if key in rs[m].cr.value.status.managed { WrittenManaged(owner, parse, rs, calls[j], m, key); }
      } else {
        assert Follows(rs[m - 1], rs[m]);
        StaysForgotten(owner, parse, rs, calls, i, m - 1, key);
      }
    }
  }

  /**
   An object that is not managed when call `i` begins, as one that pruning failed to remove, is not written
   or removed by that call or any later one, whatever fails or interferes, unless a row asks for it
   again or a read of the resource is staler than that.
   */
  lemma OrphansStay(owner: Owner, parse: Parser, rs: seq<Revision>, calls: seq<Call>, i: nat, j: nat, n: nat,
                    id: ObjectId)
    requires RunOf(owner, parse, rs, calls) && i <= j && OwnWrite(calls, j, n)
    requires 0 < calls[i].from && Forgotten(owner, calls, i, GetObjectKey(id))
    requires rs[calls[i].from - 1].cr.Some? ==> GetObjectKey(id) !in rs[calls[i].from - 1].cr.value.status.managed
    ensures calls[j].after[n].id != id
  {
    EveryWriteWasAskedFor(owner, parse, rs, calls, j, n);
    assert ChildrenSafe(owner, calls[j]) && StoreSafe(parse, rs, calls[j]);
    StaysForgotten(owner, parse, rs, calls, i, calls[j].read, GetObjectKey(id));
    if calls[j].report.Reconciled? { PassWriteMeans(owner, calls[j], n); }
  }
}
