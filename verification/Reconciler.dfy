/** The reconcile loop of one custom resource, put together. */
module Reconciler {
  import opened Text
  import opened ObjectKeys
  import opened Cluster
  import opened Rows
  import opened Children
  import opened Cleanup
  import opened Deletions
  import opened StatusLedger
  import opened Pass
  import opened Schedule
  import opened ScheduleRuns
  import opened ResourceStore

  /** What the surroundings answer during one reconcile. */
  datatype Occasion = Occasion(
    now: Time,              // the clock when the decision is taken
    visible: Visible,       // what the detection query sees
    checkStamp: Time,       // the clock after that query
    childConfig: bool,      // whether a skipping reconcile gets the database configuration
    childStamp: Time,       // the clock after status updates of children
    connected: bool,        // whether a full pass gets configuration and connection
    query: Option<seq<Row>>, // the rows, unless the query fails
    done: Time)             // the clock at the end

  /** `ctrl.Result`: a delay after which to come back, 0 for none, and whether an error is returned. */
  datatype Result = Result(requeueAfter: Duration, failed: bool)

  /** The resource as one reconcile holds it in memory. */
  class LocalCr {
    const generation: nat
    const spec: Spec
    var version: nat
    var status: Status

    constructor (cr: Cr, version: nat)
      ensures generation == cr.generation && spec == cr.spec && this.version == version && status == cr.status
    {
      generation, spec, this.version, status := cr.generation, cr.spec, version, cr.status;
    }

    /**
     `r.Status().Update(ctx, dbqr)`: on success the copy takes over what the server stored; errors are
     only logged.
     */
    method WriteStatus(store: CrStore)
      requires store.Valid() && status.stamps.observed <= store.seen && StatusOk(status)
      modifies this, store`revisions, store`calls
      ensures store.Valid() && store.calls >= old(store.calls)
      ensures Moves(store.env, Point(old(store.revisions), old(store.calls), old(version)),
                    Some(StoredStatus(old(status))), Point(store.revisions, store.calls, version))
      ensures OwnWrites(old(store.revisions), store.revisions, {StoredStatus(old(status))})
      ensures status == old(status) || status == StoredStatus(old(status))
      ensures CalmStore(store.env, old(store.calls), store.calls) ==>
                SameButStatus(old(store.revisions), store.revisions)
    {
      NotEmpty(store.revisions, store.seen);
      hide OneWrite, OnlyOthers, OwnWrites, ResourceStore.Written, WriteError, TakeSteps, StoreMet, Moves,
           SameButStatus, CalmStore, HistoryOk, StatusOk, StoredStamps;
      ghost var rs, n, status0, version0 := store.revisions, store.calls, status, version;
      var e := store.UpdateStatus(version, status);
      if e == None {
        version := |store.revisions| - 1;
        status := StoredStatus(status);
      }
      StatusWritten(store.env, rs, n, version0, StoredStatus(status0), store.revisions, store.calls, version, e);
    }
  }

  lemma StatusWritten(env: nat -> StoreTurn, rs: seq<Revision>, n: nat, version: nat, status: Status,
                      rs': seq<Revision>, to: nat, version': nat, e: Option<CallError>)
    requires rs != [] && to == n + 1 && e == WriteError(TakeSteps(rs, env(n).steps), version, env(n))
    requires rs' == var met := TakeSteps(rs, env(n).steps);
                    if e == None then ResourceStore.Written(met, status) else met
    requires if e == None then OneWrite(rs, rs', status) && version' == |rs'| - 1
             else OnlyOthers(rs, rs') && version' == version
    ensures Moves(env, Point(rs, n, version), Some(status), Point(rs', to, version'))
    ensures OwnWrites(rs, rs', {status}) && (CalmStore(env, n, to) ==> SameButStatus(rs, rs'))
  {
    StoreMetFirst(env, rs, n);
    if CalmStore(env, n, to) {
      assert env(n) == StoreTurn([], None, 0);
    }
    hide WriteError, StoreMet;
  }

  /** The last revisions differ in the status at most. */
  predicate SameButStatus(rs0: seq<Revision>, rs: seq<Revision>)
  {
    && rs0 != [] && rs != []
    && match (rs0[|rs0| - 1].cr, rs[|rs| - 1].cr)
       case (Some(a), Some(b)) => b == a.(status := b.status)
       case (None, None) => true
       case _ => false
  }

  /** The stamps with a detection query at `stamp` recorded. */
  function Checked(s: Stamps, d: Decision, stamp: Time): Stamps
  {
    if d.checked then s.(lastCheck := Some(stamp)) else s
  }

  /** Decides between a full pass and a skip, recording a successful detection query on the way. */
  method ShouldReconcile(store: CrStore, local: LocalCr, parse: Parser, o: Occasion)
    returns (full: bool, delay: Duration)
    requires store.Valid() && local.status.stamps.observed <= store.seen && StatusOk(local.status)
    requires parse(local.spec.pollInterval).Some? && StoredStamps(local.status.stamps) == local.status.stamps
    modifies local, store`revisions, store`calls
    ensures var d := Decide(parse, local.spec, local.generation, old(local.status.stamps), o.now, o.visible);
      && full == d.full && delay == d.delay
      && StoredStatus(local.status) ==
         StoredStatus(old(local.status).(stamps := Checked(old(local.status.stamps), d, o.checkStamp)))
    ensures store.Valid() && StatusOk(local.status) && local.status.stamps.observed == old(local.status.stamps.observed)
    ensures StoreKept(store.env, StoreSpan(old(store.revisions), old(store.calls), store.revisions, store.calls),
                      {StoredStatus(local.status)})
    // A successful check is written at once, and nothing else is.
    ensures var d := Decide(parse, local.spec, local.generation, old(local.status.stamps), o.now, o.visible);
            Moves(store.env, Point(old(store.revisions), old(store.calls), old(local.version)),
                  if d.checked then Some(StoredStatus(local.status)) else None,
                  Point(store.revisions, store.calls, local.version))
  {
    var stamps := local.status.stamps;
    var pollInterval := parse(local.spec.pollInterval).value;
    if stamps.observed < local.generation {
      return true, pollInterval;
    }
    if local.spec.detection == None || !local.spec.detection.value.enabled {
      return true, pollInterval;
    }
    var changePollInterval := DetectionInterval(parse, local.spec.detection.value);
    if stamps.lastPoll.Some? {
      if o.now - stamps.lastPoll.value >= pollInterval {
        return true, pollInterval;
      }
    } else {
      return true, pollInterval;
    }
    if stamps.lastCheck.Some? {
      var timeSinceLastCheck := o.now - stamps.lastCheck.value;
      if timeSinceLastCheck < changePollInterval {
        return false, changePollInterval - timeSinceLastCheck;
      }
    }
    var hasChanges := DetectChanges(stamps.lastCheck, o.visible);
    if hasChanges == None {
      return true, pollInterval;
    }
    local.status := local.status.(stamps := stamps.(lastCheck := Some(o.checkStamp)));
    StoringIsIdempotent(local.status.stamps);
    local.WriteStatus(store);
    if hasChanges.value {
      return true, pollInterval;
    }
    return false, changePollInterval;
  }

  /**
   What a part of a reconcile does to the store: status writes from the given ones; undisturbed,
   nothing but the status changes.
   */
  ghost predicate StoreKept(env: nat -> StoreTurn, s: StoreSpan, statuses: set<Status>)
  {
    && s.from <= s.to && OwnWrites(s.before, s.after, statuses)
    && (CalmStore(env, s.from, s.to) ==> SameButStatus(s.before, s.after))
  }

  lemma StoreKeptChains(env: nat -> StoreTurn, s: StoreSpan, t: StoreSpan, status: Status, statuses: set<Status>)
    requires t.before == s.after && t.from == s.to
    requires StoreKept(env, s, {status}) && status in statuses && StoreKept(env, t, statuses)
    ensures StoreKept(env, StoreSpan(s.before, s.from, t.after, t.to), statuses)
  {
    if CalmStore(env, s.from, t.to) {
      assert CalmStore(env, s.from, s.to) && CalmStore(env, t.from, t.to);
    }
  }

  /** Every managed object that is alive has its version recorded. */
  ghost predicate ChildrenReported(h: History, s: Status)
  {
    AllReported(h, s.managed, KeySet(s.managed), s.versions)
  }

  function KeySet(keys: seq<string>): set<string>
  {
    set k | k in keys
  }

  /** Reports collected children and records their versions in the status. */
  method ReportCollected(db: Database, local: LocalCr, children: seq<Child>)
    returns (updated: nat, ghost ledger: seq<Event>)
    requires StatusOk(local.status) && KeysOf(children) <= KeySet(local.status.managed)
    modifies local, db
    ensures StatusOk(local.status) && local.version == old(local.version) && old(db.log) <= db.log
    ensures local.status == old(local.status).(versions := local.status.versions)
    ensures Accounts(old(local.status.versions), ledger, local.status.versions)
    ensures ReportsOf([], ledger, children) && |ledger| == updated
    ensures Told(db.accepts, old(db.log), db.log, local.spec.StatusTemplateSet(), old(local.status.versions), children)
    ensures ledger == AcceptedReports(Since(old(db.log), db.log))
    ensures local.status.versions == AfterAnswers(old(local.status.versions), Since(old(db.log), db.log))
    ensures local.spec.StatusTemplateSet() && AllAccepted(Since(old(db.log), db.log)) ==>
              local.status.versions == AllVersions(old(local.status.versions), children)
  {
    var book := new VersionBook(local.status.versions);
    updated := book.UpdateStatusForChildResources(db, local.spec.StatusTemplateSet(), children);
    ledger := book.ledger;
    local.status := local.status.(versions := book.versions);
  }

  /** What reporting without a pass does, whatever the surroundings do: exactly what was accepted is recorded. */
  ghost predicate ChildrenTold(env: nat -> Turn, span: Span, before: Status, after: Status, ledger: seq<Event>,
                               told: bool, talk: Talk)
  {
    && Asks(env, span, before.managed, told, talk, before.versions)
    && ledger == AcceptedReports(talk.New()) && after.versions == AfterAnswers(before.versions, talk.New())
  }

  /** What reporting without a pass promises; `told` says whether there is a database to tell and something to say. */
  ghost predicate ChildrenDone(env: nat -> Turn, span: Span, before: Status, after: Status, ledger: seq<Event>,
                               told: bool, talk: Talk)
  {
    && StatusOk(after) && after == before.(versions := after.versions)
    && OthersOnly(span.before, span.after) && span.from <= span.to
    && Accounts(before.versions, ledger, after.versions) && RealReports(span.after, [], ledger)
    && ChildrenTold(env, span, before, after, ledger, told, talk)
    && (Calm(env, span.from, span.to) ==> span.after == span.before)
    && (Calm(env, span.from, span.to) && told && AllAccepted(talk.New()) ==> ChildrenReported(span.after, after))
  }

  /** Collects the managed children and reports those whose version moved. */
  method ReportChildren(server: ApiServer, db: Database, local: LocalCr, o: Occasion)
    returns (updated: nat, ghost ledger: seq<Event>)
    requires StatusOk(local.status)
    modifies local, server, db
    ensures local.version == old(local.version) && |ledger| == updated && old(db.log) <= db.log
    ensures ChildrenDone(server.env, Span(old(server.history), |old(server.calls)|, server.history, |server.calls|),
                         old(local.status), local.status, ledger, o.childConfig && local.spec.StatusTemplateSet(),
                         Talk(db.accepts, old(db.log), db.log))
  {
    updated, ledger := 0, [];
    ghost var h0, n0, status0, log0 := server.history, |server.calls|, local.status, db.log;
    NothingSince(log0);
    AccountsForNothing(status0.versions);
    if |local.status.managed| == 0 {
      NothingToRead(server.env, Span(h0, n0, h0, n0), status0, o.childConfig && local.spec.StatusTemplateSet(),
                    Talk(db.accepts, log0, log0));
      return;
    }
    var children := CollectChildren(server, ReadForStatus, local.status.managed);
    ghost var span := Span(h0, n0, server.history, |server.calls|);
    CollectedMeans(server.env, span, status0, children);
    if |children| == 0 || !o.childConfig {
      ToldNothing(server.env, span, status0, children, o.childConfig && local.spec.StatusTemplateSet(),
                  Talk(db.accepts, log0, log0));
      return;
    }
    hide ChildrenReported, AllVersions, Accounts, ReportsOf, RealReports, KeysOf, AfterAnswers, AcceptedReports, Told,
         AllAccepted, Found, Met, Readable, OthersOnly;
    updated, ledger := ReportCollected(db, local, children);
    CollectedReportsAreReal(server.history, [], ledger, children);
  }

  lemma AccountsForNothing(versions: map<string, nat>)
    ensures Accounts(versions, [], versions)
  {
  }

  lemma NothingToRead(env: nat -> Turn, span: Span, s: Status, told: bool, talk: Talk)
    requires span.after == span.before && span.to == span.from && s.managed == [] && talk.after == talk.before
    ensures ChildrenTold(env, span, s, s, [], told, talk)
  {
    NothingSince(talk.before);
  }

  lemma ToldNothing(env: nat -> Turn, span: Span, s: Status, children: seq<Child>, told: bool, talk: Talk)
    requires Collected(env, span.before, span.from, span.after, span.to, Readable(ReadForStatus, s.managed), children)
    requires (children == [] || !told) && talk.after == talk.before
    ensures ChildrenTold(env, span, s, s, [], told, talk)
  {
    NothingSince(talk.before);
    hide Readable, Met, Found, Served;
  }

  /** Recording the versions of what was collected reports every child, if nothing disturbed the collection. */
  lemma CollectedMeans(env: nat -> Turn, span: Span, s: Status, children: seq<Child>)
    requires StatusOk(s)
    requires Collected(env, span.before, span.from, span.after, span.to, Readable(ReadForStatus, s.managed), children)
    ensures KeysOf(children) <= KeySet(s.managed) && OthersOnly(span.before, span.after) && span.from <= span.to
    ensures forall c :: c in children ==> IsVersion(span.after, c.id, c.stored)
    ensures Calm(env, span.from, span.to) ==>
              && span.after == span.before
              && ChildrenReported(span.after, s.(versions := AllVersions(s.versions, children)))
              && (children == [] ==> ChildrenReported(span.after, s))
  {
    ChildKeysAreManaged(children, s.managed);
    if Calm(env, span.from, span.to) {
      assert Steady(env, span.from, span.to);
      ReportsAll(span.before, env, span.from, s.managed, KeySet(s.managed), s.versions);
      assert AllVersions(s.versions, []) == s.versions;
    }
  }

  /**
   What a skipping reconcile does: it reports children, and only the reconcile time may move, exactly
   when something was reported.
   */
  ghost predicate Skipped(env: nat -> Turn, span: Span, o: Occasion, before: Status, after: Status,
                          childStamp: Option<Time>, ledger: seq<Event>, templateSet: bool, talk: Talk)
  {
    && ChildrenDone(env, span, before.(stamps := after.stamps), after, ledger, o.childConfig && templateSet, talk)
    && StoredStamps(after.stamps) ==
       StoredStamps(if childStamp.Some? then before.stamps.(lastReconcile := childStamp) else before.stamps)
    && childStamp == (if ledger == [] then None else Some(o.childStamp))
  }

  /** A reconcile that skips the full pass still reports children whose version moved. */
  method UpdateChildrenOnly(store: CrStore, server: ApiServer, db: Database, local: LocalCr, o: Occasion)
    returns (ghost childStamp: Option<Time>, ghost ledger: seq<Event>)
    requires store.Valid() && local.status.stamps.observed <= store.seen && StatusOk(local.status)
    modifies local, store`revisions, store`calls, server, db
    ensures store.Valid() && old(db.log) <= db.log
    ensures Skipped(server.env, Span(old(server.history), |old(server.calls)|, server.history, |server.calls|),
                    o, old(local.status), local.status, childStamp, ledger,
                    local.spec.StatusTemplateSet(), Talk(db.accepts, old(db.log), db.log))
    ensures StoreKept(store.env, StoreSpan(old(store.revisions), old(store.calls), store.revisions, store.calls),
                      {StoredStatus(local.status)})
    ensures Moves(store.env, Point(old(store.revisions), old(store.calls), old(local.version)),
                  if ledger == [] then None else Some(StoredStatus(local.status)),
                  Point(store.revisions, store.calls, local.version))
  {
    childStamp := None;
    var updated;
    updated, ledger := ReportChildren(server, db, local, o);
    if updated > 0 {
      childStamp := Some(o.childStamp);
      local.status := local.status.(stamps := local.status.stamps.(lastReconcile := Some(o.childStamp)));
      StoringIsIdempotent(local.status.stamps);
      local.WriteStatus(store);
    }
  }

  lemma ChildKeysAreManaged(children: seq<Child>, managed: seq<string>)
    requires forall c :: c in children ==> c.id in Readable(ReadForStatus, managed)
    requires forall k :: k in managed ==> ReadForDeletion(k).Some?
    ensures KeysOf(children) <= set k | k in managed
  {
    ReadersAgree(managed);
    forall k | k in KeysOf(children)
      ensures k in managed
    {
      var c :| c in children && GetObjectKey(c.id) == k;
      ReadableMembers(managed, c.id);
    }
  }

  /** What the run model knows of a reconcile. */
  function WakeOf(o: Occasion, generation: nat, outcome: Outcome, childStamp: Option<Time>, persisted: Persisted): Wake
  {
    Wake(o.now, generation, o.visible, o.checkStamp, outcome, childStamp, o.done, persisted)
  }

  /** Whether an attempted pass gets as far as the rows. */
  predicate Reaches(o: Occasion, spec: Spec)
  {
    o.connected && o.query.Some? && spec.templateParses
  }

  /** What the rows of an occasion ask for. */
  function AskedOn(owner: Owner, o: Occasion): seq<Desired>
  {
    if o.query.Some? then Asked(owner, o.query.value) else []
  }

  /**
   What a reconcile may do to the children, whatever happens around it: a pass that reaches the rows
   applies asked objects that end up managed, and removes only what was managed and no longer is.
   */
  ghost predicate ChildWrites(h0: History, h: History, ds: seq<Desired>, before: seq<string>, after: seq<string>,
                              prune: bool, reached: bool)
  {
    if reached then PassWrites(h0, h, ds, before, KeySet(after), prune)
    else OthersOnly(h0, h) && after == before
  }

  /** No row fails on an undisturbed cluster. */
  predicate AllRowsGood(owner: Owner, rows: seq<Row>, h: History)
  {
    |Asked(owner, rows)| == |rows| && RowFailures(h, Asked(owner, rows)) == 0
  }

  /** What an undisturbed pass over these rows leaves. */
  ghost predicate PassDone(owner: Owner, rows: seq<Row>, h0: History, h: History, before: seq<string>,
                           after: seq<string>, prune: bool, success: bool)
  {
    && h == PassHistory(h0, Asked(owner, rows), before, prune)
    && after == Sorted(RowsKeys(h0, Asked(owner, rows)))
    && (success <==> AllRowsGood(owner, rows, h0))
  }

  /**
   What a pass that reaches its rows promises, with its records: the managed keys are those of the
   rows that succeeded, it succeeds exactly when no row and no deletion failed, and the records say
   what each row and pruning did.
   */
  ghost predicate PassKept(env: nat -> Turn, owner: Owner, rows: seq<Row>, prune: bool, span: Span, before: seq<string>,
                           after: seq<string>, success: bool, t: PassTrace)
  {
    && (success <==> PassErrors(env, prune, before, t) == 0)
    && PassTraced(env, owner, rows, prune, span, before, KeySet(after), PassErrors(env, prune, before, t), t)
    && (Calm(env, span.from, span.to) ==>
          PassDone(owner, rows, span.before, span.after, before, after, prune, success))
  }

  lemma PassMeans(env: nat -> Turn, owner: Owner, rows: seq<Row>, prune: bool, span: Span, before: seq<string>,
                  after: seq<string>, keys: set<string>, errors: nat, t: PassTrace)
    requires PassResult(env, owner, rows, prune, span, before, keys, errors, t) && after == Sorted(keys)
    ensures KeySet(after) == keys
    ensures ChildWrites(span.before, span.after, Asked(owner, rows), before, after, prune, true)
    ensures PassKept(env, owner, rows, prune, span, before, after, errors == 0, t)
    ensures KeySet(after) <= KeysAsked(Asked(owner, rows))
    ensures errors == 0 ==> KeySet(after) == KeysAsked(Asked(owner, rows))
  {
    hide Traced, Pruned, PassWrites, PassHistory, RowsKeys, RowFailures, Asked, KeysAsked, TraceKeys,
         TraceFailures, Faults;
    AskedAtMost(owner, rows);
    assert KeySet(after) == keys;
  }

  method RunFullPass(server: ApiServer, db: Database, local: LocalCr, owner: Owner, rows: seq<Row>)
    returns (errors: nat, ghost ledger: seq<Event>, ghost t: PassTrace)
    requires StatusOk(local.status)
    modifies local, server, db
    ensures StatusOk(local.status) && local.status.stamps == old(local.status.stamps)
    ensures local.version == old(local.version) && old(db.log) <= db.log
    ensures Accounts(old(local.status.versions), ledger, local.status.versions)
    ensures RealReports(server.history, [], ledger) && |server.calls| >= |old(server.calls)|
    ensures ChildWrites(old(server.history), server.history, Asked(owner, rows), old(local.status.managed),
                        local.status.managed, local.spec.prune, true)
    ensures PassKept(server.env, owner, rows, local.spec.prune,
                     Span(old(server.history), |old(server.calls)|, server.history, |server.calls|),
                     old(local.status.managed), local.status.managed, errors == 0, t)
    ensures PassLogged(server.calls, owner, local.spec.prune, old(local.status.managed), t)
    ensures PassTold(server.env, Span(old(server.history), |old(server.calls)|, server.history, |server.calls|),
                     local.spec.prune, old(local.status.managed), KeySet(local.status.managed),
                     local.spec.StatusTemplateSet(), Talk(db.accepts, old(db.log), db.log), t,
                     old(local.status.versions), local.status.versions, [], ledger)
    ensures KeySet(local.status.managed) <= KeysAsked(Asked(owner, rows))
    ensures errors == 0 ==> KeySet(local.status.managed) == KeysAsked(Asked(owner, rows))
    ensures Calm(server.env, |old(server.calls)|, |server.calls|) && local.spec.StatusTemplateSet()
            && AllAccepted(Since(old(db.log), db.log)) ==>
              AllReported(server.history, old(local.status.managed), KeySet(local.status.managed),
                          local.status.versions)
  {
    ghost var h0, n0, status0 := server.history, |server.calls|, local.status;
    var cr := new Resource(owner, local.status.managed, local.status.versions);
    ghost var keys;
    errors, keys, t := FullPass(server, cr, db, rows, local.spec.prune, local.spec.StatusTemplateSet());
    ledger := cr.book.ledger;
    local.status := local.status.(managed := cr.managed, versions := cr.book.versions);
    assert |server.calls| >= n0;
    hide PassResult, PassLogged, PassTold, PassKept, ChildWrites, AllReported, RealReports, AllAccepted;
    PassMeans(server.env, owner, rows, local.spec.prune, Span(h0, n0, server.history, |server.calls|), status0.managed,
              local.status.managed, keys, errors, t);
  }

  /** How an attempted pass ends. */
  predicate Ended(owner: Owner, o: Occasion, spec: Spec, outcome: Outcome, after: Status)
  {
    && (outcome.NoConnection? <==> !o.connected)
    && (outcome.QueryFailed? <==> o.connected && o.query == None)
    && (outcome.Success? ==> Reaches(o, spec) && outcome.stamp == o.done &&
                             KeySet(after.managed) == KeysAsked(Asked(owner, o.query.value)))
    && (Reaches(o, spec) ==> KeySet(after.managed) <= KeysAsked(Asked(owner, o.query.value)))
  }

  /** What an attempted pass reports and records: that of the pass, or nothing if it does not reach the rows. */
  ghost predicate AttemptTold(env: nat -> Turn, span: Span, spec: Spec, before: Status, after: Status,
                              trace: Option<PassTrace>, ledger: seq<Event>, talk: Talk)
  {
    match trace
    case Some(t) =>
      PassTold(env, span, spec.prune, before.managed, KeySet(after.managed), spec.StatusTemplateSet(), talk, t,
               before.versions, after.versions, [], ledger)
    case None => talk.after == talk.before && ledger == [] && after.versions == before.versions
  }

  /** What an attempted pass does to the children, with its records if it reaches the rows. */
  ghost predicate ChildrenAfter(env: nat -> Turn, span: Span, owner: Owner, o: Occasion, spec: Spec, before: Status,
                                after: Status, success: bool, trace: Option<PassTrace>, ledger: seq<Event>, talk: Talk)
  {
    && span.from <= span.to
    && ChildWrites(span.before, span.after, AskedOn(owner, o), before.managed, after.managed, spec.prune,
                   Reaches(o, spec))
    && (trace.Some? <==> Reaches(o, spec))
    && (if Reaches(o, spec)
        then PassKept(env, owner, o.query.value, spec.prune, span, before.managed, after.managed, success, trace.value)
        else span.after == span.before && !success)
    && AttemptTold(env, span, spec, before, after, trace, ledger, talk)
    && (Reaches(o, spec) && Calm(env, span.from, span.to) && spec.StatusTemplateSet() && AllAccepted(talk.New()) ==>
          AllReported(span.after, before.managed, KeySet(after.managed), after.versions))
  }

  /** What an attempted pass does, whatever happens around it and, further, on an undisturbed cluster. */
  ghost predicate Attempted(env: nat -> Turn, span: Span, owner: Owner, parse: Parser, o: Occasion, spec: Spec,
                            before: Status, after: Status, result: Result, outcome: Outcome, ledger: seq<Event>,
                            trace: Option<PassTrace>, talk: Talk)
  {
    && StatusOk(after) && Ended(owner, o, spec, outcome, after)
    && parse(spec.pollInterval).Some? && result == Result(AttemptDelay(parse, spec, outcome), false)
    && after.stamps == (if outcome.Success? then before.stamps.(lastPoll := Some(o.done), lastReconcile := Some(o.done))
                        else before.stamps)
    && Accounts(before.versions, ledger, after.versions) && RealReports(span.after, [], ledger)
    && ChildrenAfter(env, span, owner, o, spec, before, after, outcome.Success?, trace, ledger, talk)
  }

  /** The attempt of a full pass: connect, query, parse the template, run. */
  method AttemptPass(server: ApiServer, db: Database, local: LocalCr, owner: Owner, parse: Parser, o: Occasion)
    returns (result: Result, ghost outcome: Outcome, ghost ledger: seq<Event>, ghost trace: Option<PassTrace>)
    requires StatusOk(local.status) && parse(local.spec.pollInterval).Some?
    modifies local, server, db
    ensures old(db.log) <= db.log
    ensures local.version == old(local.version)
    ensures Attempted(server.env, Span(old(server.history), |old(server.calls)|, server.history, |server.calls|),
                      owner, parse, o, local.spec, old(local.status), local.status, result, outcome, ledger, trace,
                      Talk(db.accepts, old(db.log), db.log))
    ensures trace.Some? ==>
              PassLogged(server.calls, owner, local.spec.prune, old(local.status.managed), trace.value)
  {
    hide PassLogged, PassTold, AllAccepted, Asked, KeysAsked, PassKept, PassWrites, AllReported, StoredStamps;
    outcome, ledger, trace := WithErrors, [], None;
    var pollInterval := parse(local.spec.pollInterval).value;
    if !o.connected {
      outcome := NoConnection;
      return Result(Min(pollInterval, CONNECTION_RETRY), false), outcome, ledger, trace;
    }
    if o.query == None {
      outcome := QueryFailed;
      return Result(pollInterval, false), outcome, ledger, trace;
    }
    if !local.spec.templateParses {
      return Result(0, false), outcome, ledger, trace;
    }
    hide RealReports, Accounts;
    var errors;
    ghost var t;
    errors, ledger, t := RunFullPass(server, db, local, owner, o.query.value);
    trace := Some(t);
    if errors == 0 {
      outcome := Success(o.done);
      var stamps := local.status.stamps.(lastPoll := Some(o.done), lastReconcile := Some(o.done));
      local.status := local.status.(stamps := stamps);
    }
    result := Result(NextRequeueInterval(parse, local.spec, pollInterval), false);
  }

  /**
   What one reconcile of an active resource did, for the statements about it: `memory` is the status it has come
   to, `status` what the server keeps of that.
   */
  datatype Active = Active(cr: Cr, o: Occasion, attempted: bool, outcome: Outcome, childStamp: Option<Time>,
                           memory: Status, status: Status, ledger: seq<Event>, trace: Option<PassTrace>)
  {
    function Wake(persisted: Persisted): Wake
    {
      WakeOf(o, cr.generation, outcome, childStamp, persisted)
    }

    predicate Reached()
    {
      attempted && Reaches(o, cr.spec)
    }

    /** The statuses that it may have written on the way: after the check, after reporting children. */
    function Statuses(parse: Parser): set<Status>
    {
      (if parse(cr.spec.pollInterval) == None then {}
       else {cr.status.(stamps := After(parse, cr.spec, cr.status.stamps, Wake(CheckOnly)))} +
            (if attempted then {}
             else {status.(stamps := After(parse, cr.spec, cr.status.stamps, Wake(CheckAndChild)))}))
    }

    /** What it writes at once after a successful check, and after reporting children without a pass. */
    function CheckWrite(parse: Parser): Option<Status>
    {
      if parse(cr.spec.pollInterval).Some? &&
         Decide(parse, cr.spec, cr.generation, cr.status.stamps, o.now, o.visible).checked
      then Some(cr.status.(stamps := After(parse, cr.spec, cr.status.stamps, Wake(CheckOnly))))
      else None
    }

    function ChildWrite(parse: Parser): Option<Status>
    {
      if !attempted && parse(cr.spec.pollInterval).Some? && ledger != []
      then Some(status.(stamps := After(parse, cr.spec, cr.status.stamps, Wake(CheckAndChild))))
      else None
    }

    /** The schedule is that of the run model: the decision, the delay and the stamps. */
    ghost predicate OnSchedule(parse: Parser, result: Result)
    {
      && (outcome.Success? ==> attempted && outcome.stamp == o.done)
      && match parse(cr.spec.pollInterval)
         case None => !attempted && result == Result(0, false) && status == Observed(cr.generation, cr.status)
         case Some(_) =>
           && attempted == Full(parse, cr.spec, cr.status.stamps, Wake(Everything))
           && result == Result(Delay(parse, cr.spec, cr.status.stamps, Wake(Everything)), false)
           && status.stamps == After(parse, cr.spec, cr.status.stamps, Wake(Everything))
    }

    /**
     Whatever happened around it, these hold of the children and of the recorded versions; a version
     that was reported is one its object once had.
     */
    ghost predicate Safe(owner: Owner, h0: History, h: History)
    {
      && ChildWrites(h0, h, AskedOn(owner, o), cr.status.managed, status.managed, cr.spec.prune, Reached())
      && Accounts(cr.status.versions, ledger, status.versions) && RealReports(h, [], ledger)
      && (attempted ==> Ended(owner, o, cr.spec, outcome, status))
      && (!attempted ==> childStamp == if ledger == [] then None else Some(o.childStamp))
    }

    /** A pass has records that tell what each row did, and what pruning did, whatever happened around it. */
    ghost predicate Recorded(owner: Owner, env: nat -> Turn, span: Span)
    {
      && (trace.Some? <==> Reached())
      && (Reached() ==>
            PassKept(env, owner, o.query.value, cr.spec.prune, span, cr.status.managed, status.managed,
                     outcome.Success?, trace.value))
    }

    /** The API server's log of calls bears these records out. */
    ghost predicate Logged(owner: Owner, calls: seq<Call>)
    {
      trace.Some? ==> PassLogged(calls, owner, cr.spec.prune, cr.status.managed, trace.value)
    }

    /**
     What the database was asked, whatever happened around it, and that exactly what it accepted has been
     recorded.
     */
    ghost predicate Reports(parse: Parser, env: nat -> Turn, span: Span, talk: Talk)
    {
      if attempted || parse(cr.spec.pollInterval) == None
      then AttemptTold(env, span, cr.spec, cr.status, status, trace, ledger, talk)
      else ChildrenTold(env, span, cr.status, status, ledger, o.childConfig && cr.spec.StatusTemplateSet(), talk)
    }

    /** What it did on an undisturbed cluster; `willing` tells that the database accepted every report. */
    ghost predicate Exact(owner: Owner, parse: Parser, h0: History, h: History, willing: bool)
    {
      && (Reached() ==>
            && PassDone(owner, o.query.value, h0, h, cr.status.managed, status.managed, cr.spec.prune, outcome.Success?)
            && (cr.spec.StatusTemplateSet() && willing ==>
                  AllReported(h, cr.status.managed, KeySet(status.managed), status.versions)))
      && (!Reached() ==> h == h0)
      && (!attempted && parse(cr.spec.pollInterval).Some? && o.childConfig && cr.spec.StatusTemplateSet() && willing ==>
            ChildrenReported(h, status))
    }
  }

  /** All of it: on schedule, safe and recorded under any disturbance, exact without. */
  ghost predicate Correct(a: Active, owner: Owner, parse: Parser, result: Result, env: nat -> Turn, span: Span,
                          talk: Talk)
  {
    && span.from <= span.to && a.OnSchedule(parse, result)
    && a.Safe(owner, span.before, span.after) && a.Recorded(owner, env, span) && a.Reports(parse, env, span, talk)
    && (Calm(env, span.from, span.to) ==> a.Exact(owner, parse, span.before, span.after, AllAccepted(talk.New())))
  }

  /** A status with the generation that was read noted as observed. */
  function Noted(generation: nat, status: Status): Status
  {
    status.(stamps := status.stamps.(observed := generation))
  }

  /** The status held in memory at the end, once stored with the generation that was read, is the one of the report. */
  ghost predicate Mirrors(a: Active, local: LocalCr)
    reads local
  {
    && a.memory == Noted(local.generation, local.status) && a.status == StoredStatus(a.memory)
    && a.cr.generation == local.generation && a.cr.spec == local.spec
  }

  /** The decision has been taken, and a successful detection query recorded. */
  ghost predicate Decided(cr: Cr, parse: Parser, o: Occasion, checked: Status, full: bool, delay: Duration)
  {
    && parse(cr.spec.pollInterval).Some? && StoredStamps(cr.status.stamps) == cr.status.stamps
    && var d := Decide(parse, cr.spec, cr.generation, cr.status.stamps, o.now, o.visible);
       && full == d.full && delay == d.delay
       && StoredStatus(checked) == StoredStatus(cr.status.(stamps := Checked(cr.status.stamps, d, o.checkStamp)))
  }

  lemma SkipIsCorrect(cr: Cr, owner: Owner, parse: Parser, o: Occasion, checked: Status, after: Status, delay: Duration,
                      childStamp: Option<Time>, ledger: seq<Event>, env: nat -> Turn, span: Span, talk: Talk)
    returns (a: Active)
    requires Decided(cr, parse, o, checked, false, delay)
    requires Skipped(env, span, o, checked, after, childStamp, ledger, cr.spec.StatusTemplateSet(), talk)
    ensures a == Active(cr, o, false, WithErrors, childStamp, Noted(cr.generation, after),
                        Observed(cr.generation, after), ledger, None)
    ensures Correct(a, owner, parse, Result(delay, false), env, span, talk)
    ensures StoredStatus(checked) in a.Statuses(parse) && StoredStatus(after) in a.Statuses(parse)
  {
    hide Accounts, RealReports, AllReported, Asks, AcceptedReports, AfterAnswers, OthersOnly, StatusOk, AllAccepted;
    a := Active(cr, o, false, WithErrors, childStamp, Noted(cr.generation, after), Observed(cr.generation, after),
                ledger, None);
  }

  /** What a skipping reconcile writes on the way: the check that succeeded, and the reports. */
  lemma SkipWrites(a: Active, cr: Cr, parse: Parser, o: Occasion, checked: Status, after: Status, delay: Duration,
                   childStamp: Option<Time>, ledger: seq<Event>, env: nat -> Turn, span: Span, talk: Talk)
    requires Decided(cr, parse, o, checked, false, delay)
    requires Skipped(env, span, o, checked, after, childStamp, ledger, cr.spec.StatusTemplateSet(), talk)
    requires a == Active(cr, o, false, WithErrors, childStamp, Noted(cr.generation, after),
                         Observed(cr.generation, after), ledger, None)
    ensures a.CheckWrite(parse) == CheckedStatus(cr, parse, o, checked)
    ensures a.ChildWrite(parse) == if ledger == [] then None else Some(StoredStatus(after))
  {
    hide Accounts, RealReports, AllReported, ChildrenTold, ChildrenReported, OthersOnly;
  }

  lemma AttemptWrites(a: Active, cr: Cr, parse: Parser, o: Occasion, checked: Status, delay: Duration)
    requires Decided(cr, parse, o, checked, true, delay) && a.cr == cr && a.o == o && a.attempted
    ensures a.CheckWrite(parse) == CheckedStatus(cr, parse, o, checked) && a.ChildWrite(parse) == None
  {
  }

  lemma AttemptIsCorrect(cr: Cr, owner: Owner, parse: Parser, o: Occasion, checked: Status, after: Status,
                         delay: Duration, result: Result, outcome: Outcome, ledger: seq<Event>,
                         trace: Option<PassTrace>, env: nat -> Turn, span: Span, talk: Talk)
    returns (a: Active)
    requires Decided(cr, parse, o, checked, true, delay)
    requires Attempted(env, span, owner, parse, o, cr.spec, checked, after, result, outcome, ledger, trace,
                       talk)
    ensures a == Active(cr, o, true, outcome, None, Noted(cr.generation, after), Observed(cr.generation, after),
                        ledger, trace)
    ensures Correct(a, owner, parse, result, env, span, talk)
    ensures StoredStatus(checked) in a.Statuses(parse)
  {
    hide Accounts, RealReports, AllReported, PassTraced, PassErrors, PassDone, Asked, KeysAsked, PassWrites;
    a := Active(cr, o, true, outcome, None, Noted(cr.generation, after), Observed(cr.generation, after), ledger, trace);
  }

  /** The writes on the way, each at most once, whatever the surroundings do. */
  ghost predicate WritesOnTheWay(a: Active, parse: Parser, env: nat -> StoreTurn, p: Point, q: Point)
  {
    exists mid: Point :: Moves(env, p, a.CheckWrite(parse), mid) && Moves(env, mid, a.ChildWrite(parse), q)
  }

  lemma TwoWrites(a: Active, parse: Parser, env: nat -> StoreTurn, p: Point, mid: Point, q: Point)
    requires Moves(env, p, a.CheckWrite(parse), mid) && Moves(env, mid, a.ChildWrite(parse), q)
    ensures WritesOnTheWay(a, parse, env, p, q)
  {
  }

  /** What is written after the check, given the status in memory. */
  function CheckedStatus(cr: Cr, parse: Parser, o: Occasion, checked: Status): Option<Status>
    requires parse(cr.spec.pollInterval).Some?
  {
    if Decide(parse, cr.spec, cr.generation, cr.status.stamps, o.now, o.visible).checked
    then Some(StoredStatus(checked)) else None
  }

  /** After the decision: skip or attempt. */
  method Proceed(store: CrStore, server: ApiServer, db: Database, local: LocalCr, ghost cr: Cr, owner: Owner,
                 parse: Parser, o: Occasion, full: bool, delay: Duration)
    returns (result: Result, ghost a: Active)
    requires store.Valid() && local.status.stamps.observed <= store.seen && StatusOk(local.status)
    requires local.generation == cr.generation && local.spec == cr.spec
    requires Decided(cr, parse, o, local.status, full, delay)
    modifies local, store`revisions, store`calls, server, db
    ensures store.Valid() && StatusOk(local.status) && Mirrors(a, local) && a.cr == cr && a.o == o
    ensures old(db.log) <= db.log
    ensures Correct(a, owner, parse, result, server.env,
                    Span(old(server.history), |old(server.calls)|, server.history, |server.calls|),
                    Talk(db.accepts, old(db.log), db.log))
    ensures a.Logged(owner, server.calls)
    ensures StoredStatus(old(local.status)) in a.Statuses(parse)
    ensures a.CheckWrite(parse) == CheckedStatus(cr, parse, o, old(local.status))
    ensures Moves(store.env, Point(old(store.revisions), old(store.calls), old(local.version)), a.ChildWrite(parse),
                  Point(store.revisions, store.calls, local.version))
    ensures StoreKept(store.env, StoreSpan(old(store.revisions), old(store.calls), store.revisions, store.calls),
                      a.Statuses(parse))
  {
    ghost var h0, n0, log0, status0 := server.history, |server.calls|, db.log, local.status;
    if full {
      ghost var outcome, ledger, trace;
      result, outcome, ledger, trace := AttemptPass(server, db, local, owner, parse, o);
      a := AttemptIsCorrect(cr, owner, parse, o, status0, local.status, delay, result, outcome, ledger, trace,
                            server.env, Span(h0, n0, server.history, |server.calls|),
                            Talk(db.accepts, log0, db.log));
      AttemptWrites(a, cr, parse, o, status0, delay);
      hide Correct, Decided;
    } else {
      ghost var childStamp, ledger;
      childStamp, ledger := UpdateChildrenOnly(store, server, db, local, o);
      result := Result(delay, false);
      a := SkipIsCorrect(cr, owner, parse, o, status0, local.status, delay, childStamp, ledger, server.env,
                         Span(h0, n0, server.history, |server.calls|), Talk(db.accepts, log0, db.log));
      SkipWrites(a, cr, parse, o, status0, local.status, delay, childStamp, ledger, server.env,
                 Span(h0, n0, server.history, |server.calls|), Talk(db.accepts, log0, db.log));
      hide Correct, Decided, Skipped, Moves;
    }
  }

  /** A reconcile of a resource that is not being deleted, up to the final status write. */
  method ReconcileActive(store: CrStore, server: ApiServer, db: Database, local: LocalCr, cr: Cr, owner: Owner,
                         parse: Parser, o: Occasion)
    returns (result: Result, ghost a: Active)
    requires store.Valid() && CrOk(cr, store.seen)
    requires local.generation == cr.generation && local.spec == cr.spec && local.status == cr.status
    modifies local, store`revisions, store`calls, server, db
    ensures store.Valid() && StatusOk(local.status) && Mirrors(a, local) && a.cr == cr && a.o == o
    ensures old(db.log) <= db.log
    ensures Correct(a, owner, parse, result, server.env,
                    Span(old(server.history), |old(server.calls)|, server.history, |server.calls|),
                    Talk(db.accepts, old(db.log), db.log))
    ensures a.Logged(owner, server.calls)
    ensures WritesOnTheWay(a, parse, store.env, Point(old(store.revisions), old(store.calls), old(local.version)),
                           Point(store.revisions, store.calls, local.version))
    ensures StoreKept(store.env, StoreSpan(old(store.revisions), old(store.calls), store.revisions, store.calls),
                      a.Statuses(parse))
  {
    if parse(local.spec.pollInterval) == None {
      a := Active(cr, o, false, WithErrors, None, Noted(cr.generation, cr.status),
                  Observed(cr.generation, cr.status), [], None);
      ghost var here := Point(store.revisions, store.calls, local.version);
      TwoWrites(a, parse, store.env, here, here, here);
      return Result(0, false), a;
    }
    ghost var c0, rs0, version0 := store.calls, store.revisions, local.version;
    var full, nextCheckInterval := ShouldReconcile(store, local, parse, o);
    ghost var c1, rs1, status1 := store.calls, store.revisions, local.status;
    ghost var mid := Point(rs1, c1, local.version);
    result, a := Proceed(store, server, db, local, cr, owner, parse, o, full, nextCheckInterval);
    hide Correct, StoreKept, Moves, Decided;
    TwoWrites(a, parse, store.env, Point(rs0, c0, version0), mid, Point(store.revisions, store.calls, local.version));
    StoreKeptChains(store.env, StoreSpan(rs0, c0, rs1, c1), StoreSpan(rs1, c1, store.revisions, store.calls),
                    StoredStatus(status1), a.Statuses(parse));
  }

  /** `controllerutil.RemoveFinalizer`. */
  function Without(finalizers: seq<string>, f: string): (rest: seq<string>)
    ensures f !in rest
  {
    if finalizers == [] then []
    else (if finalizers[0] == f then [] else [finalizers[0]]) + Without(finalizers[1..], f)
  }

  /** The finalizers of others stay, in number and, by `WithoutInOrder`, in order. */
  lemma {:induction false} OthersFinalizersStay(finalizers: seq<string>, f: string)
    ensures multiset(Without(finalizers, f)) == multiset(finalizers)[f := 0]
    ensures forall g :: g != f ==> (g in Without(finalizers, f) <==> g in finalizers)
    ensures f !in finalizers ==> Without(finalizers, f) == finalizers
  {
    if finalizers != [] {
      var first, rest := finalizers[0], finalizers[1..];
      assert finalizers == [first] + rest;
      OthersFinalizersStay(rest, f);
    }
  }

  lemma {:induction false} WithoutInOrder(a: seq<string>, b: seq<string>, f: string)
    ensures Without(a + b, f) == Without(a, f) + Without(b, f)
  {
    if a == [] {
      assert a + b == b;
    } else {
      var first, rest := a[0], a[1..];
      WithoutInOrder(rest, b, f);
      hide Without;
      assert a == [first] + rest && a + b == [first] + (rest + b);
      WithoutStep(first, rest, f);
      WithoutStep(first, rest + b, f);
      Regrouped(if first == f then [] else [first], Without(rest, f), Without(b, f));
    }
  }

  lemma WithoutStep(first: string, rest: seq<string>, f: string)
    ensures Without([first] + rest, f) == (if first == f then [] else [first]) + Without(rest, f)
  {
    assert ([first] + rest)[1..] == rest;
  }

  lemma Regrouped(a: seq<string>, b: seq<string>, c: seq<string>)
    ensures a + (b + c) == a + b + c
  {
  }

  /**
   The resource goes exactly as it was read: the last revision is the operator's, without its
   finalizer, and the one before it is the one that was read, managed keys included.
   */
  predicate LetGo(rs0: seq<Revision>, rs: seq<Revision>, cr: Cr)
  {
    && |rs| >= 2 && |rs0| < |rs| && rs[|rs| - 2].cr == Some(cr)
    && rs[|rs| - 1] == Revision(OperatorFinalizers, Some(cr.(finalizers := Without(cr.finalizers, FINALIZER))))
  }

  /** Whatever the surroundings do: the finalizer goes exactly when the server accepts the write. */
  ghost predicate ReleaseEnds(env: nat -> StoreTurn, p: Point, cr: Cr, released: bool, rs: seq<Revision>, to: nat)
    requires p.rs != []
  {
    var met := StoreMet(env, p.rs, p.n, 1);
    && to == p.n + 1 && (released <==> WriteError(met, p.version, env(p.n)) == None)
    && rs == met + if released
                   then [Revision(OperatorFinalizers, Some(cr.(finalizers := Without(cr.finalizers, FINALIZER))))]
                   else []
  }

  /**
   How a reconcile of a resource that is being deleted ends, whatever the surroundings do: without the
   finalizer it does nothing; otherwise it cleans up, and takes the finalizer off if that succeeded.
   */
  ghost predicate DeletionEnds(cr: Cr, released: bool, env: nat -> Turn, span: Span, storeEnv: nat -> StoreTurn,
                               p: Point, rs: seq<Revision>, to: nat)
    requires p.rs != []
  {
    if FINALIZER !in cr.finalizers
    then !released && span.after == span.before && span.to == span.from && rs == p.rs && to == p.n
    else exists cleaned: bool ::
           && CleanedAmid(env, span.from, span.to, span.before, span.after, cr.status.managed, cleaned)
           && if cleaned then ReleaseEnds(storeEnv, p, cr, released, rs, to)
              else !released && rs == p.rs && to == p.n
  }

  /** Takes the finalizer off the resource, if it still is as it was read. */
  method Release(store: CrStore, cr: Cr, version: nat) returns (ok: bool)
    requires store.Valid() && version < |store.revisions| && store.revisions[version].cr == Some(cr)
    modifies store`revisions, store`calls
    ensures store.Valid() && StatusUntouched(old(store.revisions), store.revisions)
    ensures if ok then LetGo(old(store.revisions), store.revisions, cr)
            else OnlyOthers(old(store.revisions), store.revisions)
    ensures version == |old(store.revisions)| - 1 && CalmStore(store.env, old(store.calls), store.calls) ==> ok
    ensures ReleaseEnds(store.env, Point(old(store.revisions), old(store.calls), version), cr, ok, store.revisions,
                        store.calls)
  {
    if CalmStore(store.env, store.calls, store.calls + 1) { CalmTurns(store.env, store.calls, store.revisions); }
    var e := store.UpdateFinalizers(version, Without(cr.finalizers, FINALIZER));
    ok := e == None;
  }

  /** Cleans up after a resource that is being deleted, and lets it go when that succeeded. */
  method ReconcileDeleted(store: CrStore, server: ApiServer, cr: Cr, version: nat)
    returns (result: Result, ghost released: bool)
    requires store.Valid() && version < |store.revisions| && store.revisions[version].cr == Some(cr)
    modifies store`revisions, store`calls, server
    ensures store.Valid() && StatusUntouched(old(store.revisions), store.revisions)
    ensures released || OnlyOthers(old(store.revisions), store.revisions)
    ensures Deletion(cr, released, result, server.env,
                     Span(old(server.history), |old(server.calls)|, server.history, |server.calls|))
    ensures released ==> LetGo(old(store.revisions), store.revisions, cr)
    // Left alone, and from a version that is not stale, it goes at once.
    ensures FINALIZER in cr.finalizers && version == |old(store.revisions)| - 1 ==>
              Calm(server.env, |old(server.calls)|, |server.calls|) ==>
                CalmStore(store.env, old(store.calls), store.calls) ==> released
    ensures DeletionEnds(cr, released, server.env,
                         Span(old(server.history), |old(server.calls)|, server.history, |server.calls|), store.env,
                         Point(old(store.revisions), old(store.calls), version), store.revisions, store.calls)
  {
    released := false;
    if FINALIZER !in cr.finalizers {
      return Result(0, false), released;
    }
    var err := CleanUp(server, cr.status.managed);
    if err != None {
      return Result(0, true), released;
    }
    hide LetGo, OnlyOthers, StatusUntouched, ReleaseEnds, CleanedAmid;
    var ok := Release(store, cr, version);
    if !ok {
      return Result(0, true), released;
    }
    released := true;
    return Result(0, false), released;
  }

  /** What a reconcile of a resource that is being deleted does to the children. */
  ghost predicate Deletion(cr: Cr, released: bool, result: Result, env: nat -> Turn, s: Span)
  {
    && s.from <= s.to && OnlyManagedRemoved(s.before, s.after, cr.status.managed)
    // The finalizer only goes when every managed child that could be read is gone.
    && (released ==>
          && FINALIZER in cr.finalizers
          && (Steady(env, s.from, s.to) ==> CleanedUp(s.before, s.after, env, s.from, cr.status.managed)))
    // Otherwise an error asks for another attempt, and the one before it has made progress or changed nothing.
    && (FINALIZER in cr.finalizers ==>
          && result.failed == !released
          && (Steady(env, s.from, s.to) ==> DeletedPrefix(s.before, s.after, env, s.from, cr.status.managed)))
    && (FINALIZER !in cr.finalizers ==> s.after == s.before && !result.failed)
  }

  /**
   What one reconcile of an active resource leaves in the store; undisturbed, the resource with exactly
   the status of the report.
   */
  ghost predicate Stored(a: Active, parse: Parser, env: nat -> StoreTurn, s: StoreSpan)
  {
    && OwnWrites(s.before, s.after, a.Statuses(parse) + {a.status}) && s.from <= s.to
    && (s.before != [] && CalmStore(env, s.from, s.to) && s.before[|s.before| - 1].cr == Some(a.cr) ==>
          s.after != [] && s.after[|s.after| - 1].cr == Some(a.cr.(status := a.status)))
  }

  /** A generation that no reconcile has read before makes this one attempt a full pass. */
  ghost predicate EditForcesPass(a: Active, parse: Parser, seen: nat)
  {
    a.cr.generation > seen && parse(a.cr.spec.pollInterval).Some? ==> a.attempted
  }

  /** From the resource that was read to the final status write. */
  method ReconcileRead(store: CrStore, server: ApiServer, db: Database, cr: Cr, version: nat, owner: Owner,
                       parse: Parser, o: Occasion)
    returns (result: Result, ghost a: Active)
    requires store.Valid() && version < |store.revisions| && store.revisions[version].cr == Some(cr)
    modifies store, server, db
    ensures store.Valid() && store.seen == Max(cr.generation, old(store.seen)) && a.cr == cr && a.o == o
    ensures Correct(a, owner, parse, result, server.env,
                    Span(old(server.history), |old(server.calls)|, server.history, |server.calls|),
                    Talk(db.accepts, old(db.log), db.log))
    ensures a.Logged(owner, server.calls)
    ensures Stored(a, parse, store.env, StoreSpan(old(store.revisions), old(store.calls), store.revisions, store.calls))
    ensures EditForcesPass(a, parse, old(store.seen))
    ensures StoreCourse(a, parse, store.env, Point(old(store.revisions), old(store.calls), version), store.revisions,
                        store.calls)
  {
    ghost var c0, rs0 := store.calls, store.revisions;
    var local := Begin(store, cr, version);
    result, a := ReconcileActive(store, server, db, local, cr, owner, parse, o);
    NewGenerationDecides(old(store.seen), a, parse, result);
    hide Correct, WritesOnTheWay;
    Finish(store, local, parse, a, c0, rs0, version);
  }

  /** The deferred status write. */
  method Finish(store: CrStore, local: LocalCr, ghost parse: Parser, ghost a: Active, ghost c0: nat,
                ghost rs0: seq<Revision>, ghost version: nat)
    requires store.Valid() && local.generation <= store.seen && StatusOk(local.status) && Mirrors(a, local)
    requires StoreKept(store.env, StoreSpan(rs0, c0, store.revisions, store.calls), a.Statuses(parse))
    modifies store`revisions, store`calls
    requires WritesOnTheWay(a, parse, store.env, Point(rs0, c0, version),
                            Point(store.revisions, store.calls, local.version))
    ensures store.Valid() && Stored(a, parse, store.env, StoreSpan(rs0, c0, store.revisions, store.calls))
    ensures StoreCourse(a, parse, store.env, Point(rs0, c0, version), store.revisions, store.calls)
  {
    hide WritesOnTheWay, PersistEnds;
    ghost var c1, rs1 := store.calls, store.revisions;
    NotEmpty(store.revisions, store.seen);
    ghost var here := Point(rs1, c1, local.version);
    store.PersistStatus(local.generation, local.status);
    CourseIs(a, parse, store.env, Point(rs0, c0, version), here, store.revisions, store.calls);
    StoredMeans(a, parse, store.env, StoreSpan(rs0, c0, rs1, c1), StoreSpan(rs1, c1, store.revisions, store.calls));
  }

  /**
   What one reconcile of an active resource does to the store from the read on, whatever the surroundings do:
   the writes on the way, each at most once, and at the end the final status, compared and retried.
   */
  ghost predicate StoreCourse(a: Active, parse: Parser, env: nat -> StoreTurn, p: Point, rs: seq<Revision>, to: nat)
  {
    exists q: Point ::
      a.status == StoredStatus(a.memory) && WritesOnTheWay(a, parse, env, p, q) && q.rs != [] &&
      PersistEnds(env, q.n, q.rs, a.memory, rs, to)
  }

  lemma CourseIs(a: Active, parse: Parser, env: nat -> StoreTurn, p: Point, q: Point, rs: seq<Revision>, to: nat)
    requires a.status == StoredStatus(a.memory) && WritesOnTheWay(a, parse, env, p, q) && q.rs != []
    requires PersistEnds(env, q.n, q.rs, a.memory, rs, to)
    ensures StoreCourse(a, parse, env, p, rs, to)
  {
    hide WritesOnTheWay, PersistEnds;
  }

  /** The copy in memory of the resource that was read. */
  method Begin(store: CrStore, cr: Cr, version: nat) returns (local: LocalCr)
    requires store.Valid() && version < |store.revisions| && store.revisions[version].cr == Some(cr)
    modifies store`seen
    ensures store.Valid() && store.seen == Max(cr.generation, old(store.seen)) && CrOk(cr, store.seen)
    ensures fresh(local) && local.generation == cr.generation && local.spec == cr.spec && local.status == cr.status
    ensures local.version == version
    ensures cr.status.stamps.observed <= old(store.seen)
  {
    assert CrOk(store.revisions[version].cr.value, store.seen);
    store.NoteRead(cr, version);
    local := new LocalCr(cr, version);
  }

  lemma NewGenerationDecides(seen: nat, a: Active, parse: Parser, result: Result)
    requires a.cr.status.stamps.observed <= seen && a.OnSchedule(parse, result)
    ensures EditForcesPass(a, parse, seen)
  {
  }

  lemma StoredMeans(a: Active, parse: Parser, env: nat -> StoreTurn, s: StoreSpan, last: StoreSpan)
    requires StoreKept(env, s, a.Statuses(parse)) && last.before == s.after && last.from == s.to < last.to
    requires OnlyOthers(last.before, last.after) || OneWrite(last.before, last.after, a.status)
    requires CalmStore(env, last.from, last.to) && last.before != [] && last.before[|last.before| - 1].cr.Some? ==>
               last.after != [] && last.after[|last.after| - 1].cr ==
                                   Some(last.before[|last.before| - 1].cr.value.(status := a.status))
    ensures Stored(a, parse, env, StoreSpan(s.before, s.from, last.after, last.to))
  {
    WritesOf(s.before, s.after, last.after, a.Statuses(parse), a.status);
    if CalmStore(env, s.from, last.to) {
      assert CalmStore(env, s.from, s.to) && CalmStore(env, last.from, last.to);
    }
  }

  lemma WritesOf(rs0: seq<Revision>, rs1: seq<Revision>, rs2: seq<Revision>, statuses: set<Status>, last: Status)
    requires OwnWrites(rs0, rs1, statuses)
    requires OnlyOthers(rs1, rs2) || OneWrite(rs1, rs2, last)
    ensures OwnWrites(rs0, rs2, statuses + {last})
  {
  }

  /** What one reconcile did, for the statements about it. */
  datatype Report = Missing | ReadFailed | Deleting(deleted: Cr, released: bool) | Reconciled(active: Active)

  /** What a reconcile does to the children, what it asks for, and which generations it has seen. */
  ghost predicate Handled(report: Report, owner: Owner, parse: Parser, o: Occasion, result: Result, seen0: nat,
                          seen: nat, env: nat -> Turn, span: Span, talk: Talk)
  {
    match report
    case Deleting(cr, released) =>
      && cr.deleting.Some? && seen == seen0 && talk.after == talk.before
      && Deletion(cr, released, result, env, span)
    case Reconciled(a) =>
      && a.cr.deleting == None && a.o == o && seen == Max(a.cr.generation, seen0)
      && Correct(a, owner, parse, result, env, span, talk) && EditForcesPass(a, parse, seen0)
    case _ =>
      && span.after == span.before && talk.after == talk.before && seen == seen0
      && result == Result(0, report.ReadFailed?)
  }

  /** What it does to the store, and which revision it has read. */
  ghost predicate Kept(report: Report, parse: Parser, env: nat -> StoreTurn, s: StoreSpan, read: nat)
  {
    match report
    case Deleting(cr, released) =>
      && StatusUntouched(s.before, s.after) && ReadAt(s.after, |s.before|, read, cr)
      && (released ==> LetGo(s.before, s.after, cr))
    case Reconciled(a) => Stored(a, parse, env, s) && ReadAt(s.after, |s.before|, read, a.cr)
    case _ => StatusUntouched(s.before, s.after)
  }

  lemma KeptSince(report: Report, parse: Parser, env: nat -> StoreTurn, first: StoreSpan, s: StoreSpan, read: nat)
    requires first.from < first.to == s.from && first.after == s.before && OnlyOthers(first.before, first.after)
    requires CalmStore(env, first.from, first.to) ==> first.after == first.before
    requires read < |s.before| && Kept(report, parse, env, s, read)
    ensures Kept(report, parse, env, StoreSpan(first.before, first.from, s.after, s.to), read)
  {
    match report
    case Deleting(cr, _) => ReadBeforeWriting(first.before, first.after, s.after, read, cr);
    case Reconciled(a) =>
      StoredSince(a, parse, env, first, s);
      ReadBeforeWriting(first.before, first.after, s.after, read, a.cr);
    case _ =>
  }

  lemma StoredSince(a: Active, parse: Parser, env: nat -> StoreTurn, first: StoreSpan, s: StoreSpan)
    requires first.from < first.to == s.from && first.after == s.before && OnlyOthers(first.before, first.after)
    requires CalmStore(env, first.from, first.to) ==> first.after == first.before
    requires Stored(a, parse, env, s)
    ensures Stored(a, parse, env, StoreSpan(first.before, first.from, s.after, s.to))
  {
    if CalmStore(env, first.from, s.to) {
      assert CalmStore(env, first.from, first.to) && CalmStore(env, s.from, s.to);
    }
  }

  /** How a reconcile that has found its resource ends for the store, whatever the surroundings do. */
  ghost predicate HandleEnds(report: Report, parse: Parser, cr: Cr, env: nat -> Turn, span: Span,
                             storeEnv: nat -> StoreTurn, p: Point, rs: seq<Revision>, to: nat)
    requires p.rs != []
  {
    if cr.deleting.Some?
    then report.Deleting? && report.deleted == cr && DeletionEnds(cr, report.released, env, span, storeEnv, p, rs, to)
    else report.Reconciled? && report.active.cr == cr && StoreCourse(report.active, parse, storeEnv, p, rs, to)
  }

  /**
   How a reconcile ends for the store, whatever the surroundings do: it acts on what its first read returns,
   and on nothing if that fails or finds no resource.
   */
  ghost predicate ReconcileEnds(report: Report, parse: Parser, env: nat -> Turn, span: Span,
                                storeEnv: nat -> StoreTurn, s: StoreSpan, read: nat)
  {
    s.before != [] &&
    var met := StoreMet(storeEnv, s.before, s.from, 1);
    match GetResult(met, storeEnv(s.from))
    case Err(NotFound) => report.Missing? && s.after == met && s.to == s.from + 1
    case Err(_) => report.ReadFailed? && s.after == met && s.to == s.from + 1
    case Ok((cr, version)) =>
      && read == version
      && HandleEnds(report, parse, cr, env, span, storeEnv, Point(met, s.from + 1, version), s.after, s.to)
  }

  /** `Reconcile`, once the resource has been found. */
  method Handle(store: CrStore, server: ApiServer, db: Database, cr: Cr, version: nat, owner: Owner, parse: Parser,
                o: Occasion)
    returns (result: Result, ghost report: Report)
    requires store.Valid() && version < |store.revisions| && store.revisions[version].cr == Some(cr)
    modifies store, server, db
    ensures store.Valid()
    ensures Handled(report, owner, parse, o, result, old(store.seen), store.seen, server.env,
                    Span(old(server.history), |old(server.calls)|, server.history, |server.calls|),
                    Talk(db.accepts, old(db.log), db.log))
    ensures report.Reconciled? ==> report.active.Logged(owner, server.calls)
    ensures Kept(report, parse, store.env,
                 StoreSpan(old(store.revisions), old(store.calls), store.revisions, store.calls), version)
    ensures HandleEnds(report, parse, cr, server.env,
                       Span(old(server.history), |old(server.calls)|, server.history, |server.calls|), store.env,
                       Point(old(store.revisions), old(store.calls), version), store.revisions, store.calls)
  {
    hide Correct, Deletion, Stored, DeletionEnds, StoreCourse;
    if cr.deleting.Some? {
      ghost var released;
      result, released := ReconcileDeleted(store, server, cr, version);
      report := Deleting(cr, released);
    } else {
      ghost var rs0, c0, a := store.revisions, store.calls, *;
      result, a := ReconcileRead(store, server, db, cr, version, owner, parse, o);
      report := Reconciled(a);
      StoredExtends(a, parse, store.env, StoreSpan(rs0, c0, store.revisions, store.calls));
    }
  }

  lemma StoredExtends(a: Active, parse: Parser, env: nat -> StoreTurn, s: StoreSpan)
    requires Stored(a, parse, env, s)
    ensures s.before <= s.after
  {
  }

  /** `Reconcile`. */
  method Reconcile(store: CrStore, server: ApiServer, db: Database, owner: Owner, parse: Parser, o: Occasion)
    returns (result: Result, ghost report: Report, ghost read: nat)
    requires store.Valid()
    modifies store, server, db
    ensures store.Valid()
    ensures Handled(report, owner, parse, o, result, old(store.seen), store.seen, server.env,
                    Span(old(server.history), |old(server.calls)|, server.history, |server.calls|),
                    Talk(db.accepts, old(db.log), db.log))
    ensures report.Reconciled? ==> report.active.Logged(owner, server.calls)
    ensures Kept(report, parse, store.env,
                 StoreSpan(old(store.revisions), old(store.calls), store.revisions, store.calls), read)
    ensures ReconcileEnds(report, parse, server.env,
                          Span(old(server.history), |old(server.calls)|, server.history, |server.calls|), store.env,
                          StoreSpan(old(store.revisions), old(store.calls), store.revisions, store.calls), read)
  {
    ghost var rs0, c0, h0, n0, log0 := store.revisions, store.calls, server.history, |server.calls|, db.log;
    NotEmpty(store.revisions, store.seen);
    StoreMetFirst(store.env, rs0, c0);
    hide *;
    read := 0;
    var reply := store.Get();
    if reply.Err? {
      result := Result(0, reply.error != NotFound);
      report := if reply.error == NotFound then Missing else ReadFailed;
      NothingRead(report, owner, parse, o, result, store.seen, server.env, Span(h0, n0, h0, n0),
                  Talk(db.accepts, log0, log0), store.env, StoreSpan(rs0, c0, store.revisions, store.calls), reply,
                  read);
      return;
    }
    var cr, version := reply.value.0, reply.value.1;
    read := version;
    ghost var rs1, c1 := store.revisions, store.calls;
    result, report := Handle(store, server, db, cr, version, owner, parse, o);
    KeptSince(report, parse, store.env, StoreSpan(rs0, c0, rs1, c1),
              StoreSpan(rs1, c1, store.revisions, store.calls), version);
    ResourceRead(report, parse, cr, server.env, Span(h0, n0, server.history, |server.calls|), store.env,
                 StoreSpan(rs0, c0, store.revisions, store.calls), rs1, c1, reply, version);
  }

  lemma NothingRead(report: Report, owner: Owner, parse: Parser, o: Occasion, result: Result, seen: nat,
                    env: nat -> Turn, span: Span, talk: Talk, storeEnv: nat -> StoreTurn, s: StoreSpan,
                    reply: Reply<(Cr, nat)>, read: nat)
    requires s.before != [] && s.after == TakeSteps(s.before, storeEnv(s.from).steps) && s.to == s.from + 1
    requires reply == GetResult(s.after, storeEnv(s.from)) && reply.Err? && OnlyOthers(s.before, s.after)
    requires report == if reply.error == NotFound then Missing else ReadFailed
    requires result == Result(0, report.ReadFailed?) && span.after == span.before && talk.after == talk.before
    ensures Handled(report, owner, parse, o, result, seen, seen, env, span, talk)
    ensures Kept(report, parse, storeEnv, s, read)
    ensures ReconcileEnds(report, parse, env, span, storeEnv, s, read)
  {
    StoreMetFirst(storeEnv, s.before, s.from);
    hide TakeSteps, GetResult, StoreMet;
  }

  lemma ResourceRead(report: Report, parse: Parser, cr: Cr, env: nat -> Turn, span: Span, storeEnv: nat -> StoreTurn,
                     s: StoreSpan, met: seq<Revision>, n: nat, reply: Reply<(Cr, nat)>, version: nat)
    requires s.before != [] && met == TakeSteps(s.before, storeEnv(s.from).steps)
    requires reply == GetResult(met, storeEnv(s.from)) && reply.Ok? && cr == reply.value.0 && version == reply.value.1
    requires n == s.from + 1
    requires HandleEnds(report, parse, cr, env, span, storeEnv, Point(met, n, version), s.after, s.to)
    ensures ReconcileEnds(report, parse, env, span, storeEnv, s, version)
  {
    StoreMetFirst(storeEnv, s.before, s.from);
    hide TakeSteps, GetResult, StoreMet, HandleEnds;
  }

  /** When nothing disturbs its first read, a reconcile works on the resource as it stands. */
  lemma CalmReadsLatest(report: Report, parse: Parser, env: nat -> Turn, span: Span, storeEnv: nat -> StoreTurn,
                        s: StoreSpan, read: nat)
    requires ReconcileEnds(report, parse, env, span, storeEnv, s, read) && storeEnv(s.from) == StoreTurn([], None, 0)
    ensures var now := s.before[|s.before| - 1].cr;
            match report
            case Deleting(cr, _) => now == Some(cr) && read == |s.before| - 1
            case Reconciled(a) => now == Some(a.cr) && read == |s.before| - 1
            case Missing => now == None
            case ReadFailed => false
  {
    StoreMetFirst(storeEnv, s.before, s.from);
    CalmTurns(storeEnv, s.from, s.before);
    hide TakeSteps, GetResult, StoreMet, DeletionEnds, StoreCourse;
  }

  /** Revision `v` is the one that was read, by a reconcile that started at `from`, before it wrote anything itself. */
  ghost predicate ReadAt(rs: seq<Revision>, from: nat, v: nat, cr: Cr)
  {
    v < |rs| && rs[v].cr == Some(cr) && forall i :: from <= i <= v ==> rs[i].writer.Elsewhere?
  }

  lemma ReadBeforeWriting(rs0: seq<Revision>, rs1: seq<Revision>, rs: seq<Revision>, v: nat, cr: Cr)
    requires OnlyOthers(rs0, rs1) && rs1 <= rs && v < |rs1| && rs1[v].cr == Some(cr)
    ensures ReadAt(rs, |rs0|, v, cr)
  {
  }

  /** A released resource keeps the finalizers of others: it goes only once they have let it go as well. */
  lemma ForeignFinalizersStay(cr: Cr, parse: Parser, env: nat -> StoreTurn, s: StoreSpan, read: nat, g: string)
    requires Kept(Deleting(cr, true), parse, env, s, read) && g != FINALIZER
    ensures var before, after := s.after[|s.after| - 2].cr.value, s.after[|s.after| - 1].cr.value;
      && before == cr && multiset(after.finalizers)[g] == multiset(before.finalizers)[g]
      && (g in before.finalizers ==> g in after.finalizers)
  {
    OthersFinalizersStay(cr.finalizers, FINALIZER);
  }

  /**
   How the stamps move, by what happened: the generation that was read is observed; the poll time and the
   reconcile time become the end of a pass exactly when it succeeds; a successful check moves the check time;
   and without a pass the reconcile time moves exactly when a report was accepted.
   */
  lemma StampsMoveExactly(a: Active, parse: Parser, result: Result)
    requires a.OnSchedule(parse, result) && parse(a.cr.spec.pollInterval).Some?
    requires !a.attempted ==> a.childStamp == if a.ledger == [] then None else Some(a.o.childStamp)
    ensures var before, after := a.cr.status.stamps, a.status.stamps;
            var checked := CheckDue(parse, a.cr.spec, a.cr.generation, before, a.o.now) && a.o.visible.Rows?;
      && after.observed == a.cr.generation
      && after.lastPoll == (if a.outcome.Success? then Some(Floor(a.o.done)) else before.lastPoll)
      && after.lastReconcile == (if a.outcome.Success? then Some(Floor(a.o.done))
                                 else if !a.attempted && a.ledger != [] then Some(Floor(a.o.childStamp))
                                 else before.lastReconcile)
      && after.lastCheck == (if checked then Some(Floor(a.o.checkStamp)) else before.lastCheck)
  {
    RecordedExactly(parse, a.cr.spec, a.cr.generation, a.cr.status.stamps, a.o.now, a.o.visible);
  }

  /**
   The status that a reconcile has come to is what the resource stands with at the end, unless the resource
   could not be read for the comparison, a write was refused or found it gone, it could not be read again
   after a conflict, or three writes in a row were overtaken.
   */
  lemma FinalStatusStands(a: Active, parse: Parser, env: nat -> StoreTurn, p: Point, rs: seq<Revision>, to: nat)
    requires StoreCourse(a, parse, env, p, rs, to)
    ensures exists q: Point ::
              && WritesOnTheWay(a, parse, env, p, q) && q.rs != []
              && (StandsWith(rs, a.status) || NothingStored(env, q, a.memory, rs))
  {
    hide WritesOnTheWay, PersistEnds, StatusLoss, StandsWith, StoreMet, GetResult, StoredStatus;
    var q: Point :|
      WritesOnTheWay(a, parse, env, p, q) && q.rs != [] && PersistEnds(env, q.n, q.rs, a.memory, rs, to);
    PersistLostForCause(env, q.n, q.rs, a.memory, rs, to);
  }

  /** Why the final status need not stand: it could not be compared, a stale read had it already, or it was lost. */
  ghost predicate NothingStored(env: nat -> StoreTurn, q: Point, status: Status, rs: seq<Revision>)
    requires q.rs != []
  {
    var met := StoreMet(env, q.rs, q.n, 1);
    var reply := GetResult(met, env(q.n));
    || reply.Err?
    || (reply.value.0.status == status && rs == met)
    || StatusLoss(StatusWrite(env, met, q.n + 1, reply.value.1))
  }

  /**
   The finalizer cleanup as a whole: on a steady cluster, when the finalizer goes, nothing that the
   released resource names as managed is left, if and only if every such child alive could be read.
   */
  lemma ReleaseLeavesNothingExactly(cr: Cr, result: Result, env: nat -> Turn, span: Span, parse: Parser,
                                    storeEnv: nat -> StoreTurn, s: StoreSpan, read: nat)
    requires Deletion(cr, true, result, env, span) && Kept(Deleting(cr, true), parse, storeEnv, s, read)
    requires Steady(env, span.from, span.to)
    ensures var gone := s.after[|s.after| - 1].cr.value;
      && FINALIZER !in gone.finalizers
      && (NothingManaged(span.after, gone.status.managed) <==>
          forall id: ObjectId ::
            id.Valid() && GetObjectKey(id) in gone.status.managed && Current(span.before, id).Some? ==>
              AnyServed(env, span.from, Readable(ReadForDeletion, gone.status.managed), id))
  {
    NothingLeftExactly(span.before, span.after, env, span.from, cr.status.managed);
  }

  /**
   A reconcile that reads the status as it stands is a wake-up of the run model: whatever fails on the
   way, what is stored afterwards and the delay are those of the model, for some extent of persistence.
   */
  lemma ReconcileRefinesWake(a: Active, parse: Parser, result: Result, env: nat -> StoreTurn, s: StoreSpan)
    requires a.OnSchedule(parse, result) && parse(a.cr.spec.pollInterval).Some?
    requires Stored(a, parse, env, s) && Chained(s.after)
    requires s.before != [] && s.before[|s.before| - 1].cr.Some?
    requires s.before[|s.before| - 1].cr.value.status == a.cr.status && s.after[|s.after| - 1].cr.Some?
    ensures exists p: Persisted ::
              && s.after[|s.after| - 1].cr.value.status.stamps == After(parse, a.cr.spec, a.cr.status.stamps, a.Wake(p))
              && result.requeueAfter == Delay(parse, a.cr.spec, a.cr.status.stamps, a.Wake(p))
  {
    StatusMovesByOwnWrites(s.before, s.after, a.Statuses(parse) + {a.status}, |s.after| - 1);
    var stamps, after := a.cr.status.stamps, s.after[|s.after| - 1].cr.value.status.stamps;
    var p := if after == stamps then Nothing
             else if after == After(parse, a.cr.spec, stamps, a.Wake(CheckOnly)) then CheckOnly
             else if after == After(parse, a.cr.spec, stamps, a.Wake(CheckAndChild)) then CheckAndChild
             else Everything;
    assert after == After(parse, a.cr.spec, stamps, a.Wake(p));
  }

  /**
   Exactly when a live resource is parked, with no wake-up asked for: its poll interval does not parse;
   or it skips with a change interval that is not positive; or it attempts a pass with such a poll
   interval or, having connected and queried, with a template that does not parse.
   */
  lemma ParkedExactly(a: Active, owner: Owner, parse: Parser, result: Result)
    requires a.OnSchedule(parse, result) && (a.attempted ==> Ended(owner, a.o, a.cr.spec, a.outcome, a.status))
    requires StampsBy(a.cr.status.stamps, a.o.now)
    ensures result.requeueAfter <= 0 <==>
            match parse(a.cr.spec.pollInterval)
            case None => true
            case Some(p) =>
              if a.attempted then p <= 0 || (a.o.connected && a.o.query.Some? && !a.cr.spec.templateParses)
              else DetectionInterval(parse, a.cr.spec.detection.value) <= 0
  {
    if parse(a.cr.spec.pollInterval).Some? {
      StallsExactly(parse, a.cr.spec, a.cr.status.stamps, a.Wake(Everything));
    }
  }

  /** An admitted resource is never parked. */
  lemma AdmittedIsNeverParked(a: Active, parse: Parser, result: Result)
    requires a.OnSchedule(parse, result)
    requires Admitted(parse, a.cr.spec) && StampsBy(a.cr.status.stamps, a.o.now)
    ensures !result.failed && 0 < result.requeueAfter <= Longest(parse, a.cr.spec)
  {
    NeverStalls(parse, a.cr.spec, a.cr.status.stamps, a.Wake(Everything));
  }
}
