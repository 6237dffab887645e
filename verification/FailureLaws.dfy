/**
 What failures and interference do to a pass: which rows fail, what is removed, and what is kept, each
 for its cause.
 */
module FailureLaws {
  import opened Text
  import opened ObjectKeys
  import opened Manifests
  import opened Cluster
  import opened ConflictRetry
  import opened Rows
  import opened Children
  import opened Deletions
  import opened Pass
  import opened PassLaws
  import opened StatusLedger
  import opened Schedule
  import opened ScheduleRuns
  import opened ResourceStore
  import opened Reconciler

  // ---- the records are no matter of opinion ----

  lemma RowCallIsOwn(before: seq<Call>, calls: seq<Call>, owner: Owner, row: Row, n: nat)
    requires RowCalls(before, calls, owner, row) && |before| <= n < |calls|
    ensures Prepare(owner, row).Some? && calls[n].id == Prepare(owner, row).value.id
  {
    var d := Prepare(owner, row).value;
    var check := before + [GetCall(d.id)];
    if calls != check {
      var start := check + [GetCall(d.id)];
      if n >= |start| && calls != start + [ApplyCall(d.id)] {
        assert calls[|start| + (n - |start|)] == NthCall(d.id, n - |start|);
      }
    }
  }

  /** The row asks for this object. */
  predicate AsksFor(owner: Owner, row: Row, id: ObjectId)
  {
    Prepare(owner, row).Some? && Prepare(owner, row).value.id == id
  }

  lemma {:induction false} CallsBefore(env: nat -> Turn, calls: seq<Call>, owner: Owner, rows: seq<Row>, span: Span,
                                       trace: seq<RowRun>, j: nat, id: ObjectId, n: nat)
    requires Traced(env, owner, rows, span, trace) && RowsLogged(calls, owner, trace) && j < |trace|
    requires forall k :: 0 <= k < j ==> !AsksFor(owner, rows[k], id)
    requires span.from <= n < trace[j].span.from
    ensures n < |calls| && calls[n].id != id
    decreases j
  {
    hide RowSound, RowCalls;
    assert StartsAt(span, trace, j);
    var r := trace[j - 1];
    assert RowLogged(calls, owner, r);
    if n >= r.span.from {
      RowCallIsOwn(calls[..r.span.from], calls[..r.span.to], owner, r.row, n);
      assert !AsksFor(owner, rows[j - 1], id);
    } else {
      CallsBefore(env, calls, owner, rows, span, trace, j - 1, id, n);
    }
  }

  lemma StartsWithOwnCall(calls: seq<Call>, owner: Owner, r: RowRun, id: ObjectId)
    requires RowLogged(calls, owner, r) && AsksFor(owner, r.row, id)
    ensures r.span.from < |calls| && calls[r.span.from].id == id
  {
    assert calls[..r.span.to][r.span.from] == GetCall(id);
  }

  /**
   The log of calls determines the records: two of them that tell of the same rows, and that the log bears
   out, agree on where each row begins, if it is the first to ask for its object. No row can be charged with
   what disturbed the calls of another.
   */
  lemma RecordsAreDetermined(env: nat -> Turn, calls: seq<Call>, owner: Owner, rows: seq<Row>, span: Span,
                             t: seq<RowRun>, span': Span, t': seq<RowRun>, i: nat, id: ObjectId)
    requires Traced(env, owner, rows, span, t) && RowsLogged(calls, owner, t)
    requires Traced(env, owner, rows, span', t') && RowsLogged(calls, owner, t') && span'.from == span.from
    requires i < |rows| && AsksFor(owner, rows[i], id)
    requires forall k :: 0 <= k < i ==> !AsksFor(owner, rows[k], id)
    ensures t[i].span.from == t'[i].span.from
  {
    hide RowSound, RowCalls;
    assert StartsAt(span, t, i) && StartsAt(span', t', i);
    assert RowLogged(calls, owner, t[i]) && RowLogged(calls, owner, t'[i]);
    StartsWithOwnCall(calls, owner, t[i], id);
    StartsWithOwnCall(calls, owner, t'[i], id);
    if t[i].span.from < t'[i].span.from {
      CallsBefore(env, calls, owner, rows, span', t', i, id, t[i].span.from);
    }
    if t'[i].span.from < t[i].span.from {
      CallsBefore(env, calls, owner, rows, span, t, i, id, t'[i].span.from);
    }
  }

  // ---- causes ----

  /** Some call of this stretch met a fault. */
  ghost predicate SomeFault(env: nat -> Turn, span: Span)
  {
    exists n: nat :: span.from <= n < span.to && env(n).fault.Some?
  }

  /** The row names no object, or one that the check refuses, as the cluster stood when the row was reached. */
  predicate RowIsBad(owner: Owner, r: RowRun)
  {
    match Prepare(owner, r.row) case None => true case Some(d) => RowFails(r.span.before, d)
  }

  /**
   A row that fails is bad, or one of its own calls was disturbed; with failures only, one of its own
   calls met a fault. What happens to other calls, earlier or later, is no cause.
   */
  lemma RowsFailForCause(env: nat -> Turn, owner: Owner, r: RowRun)
    requires RowSound(env, owner, r) && r.key == None
    ensures RowIsBad(owner, r) || !Calm(env, r.span.from, r.span.to)
    ensures Steady(env, r.span.from, r.span.to) ==> RowIsBad(owner, r) || SomeFault(env, r.span)
  {
    if Steady(env, r.span.from, r.span.to) && !SomeFault(env, r.span) {
      assert Calm(env, r.span.from, r.span.to);
    }
  }

  /** A bad row fails, unless something disturbed its own calls. */
  lemma BadRowsFail(env: nat -> Turn, owner: Owner, r: RowRun)
    requires RowSound(env, owner, r) && RowIsBad(owner, r) && Calm(env, r.span.from, r.span.to)
    ensures r.key == None
  {
  }

  lemma {:induction false} AllAsked(owner: Owner, rows: seq<Row>)
    ensures |Asked(owner, rows)| <= |rows|
    ensures |Asked(owner, rows)| == |rows| <==> forall row :: row in rows ==> Prepare(owner, row).Some?
    ensures forall d :: d in Asked(owner, rows) <==> exists row :: row in rows && Prepare(owner, row) == Some(d)
  {
    if rows != [] {
      var front, last := rows[..|rows| - 1], rows[|rows| - 1];
      AllAsked(owner, front);
      assert rows == front + [last];
      forall d
        ensures d in Asked(owner, rows) <==> exists row :: row in rows && Prepare(owner, row) == Some(d)
      {
        if row :| row in front && Prepare(owner, row) == Some(d) { assert row in rows; }
      }
    }
  }

  /**
   A pass over rows that nothing disturbs succeeds if and only if every row names an object, with a possible
   name, whose record, if it has one, can be read. Objects that are absent or have no record yet are no reason to
   fail: they are written.
   */
  lemma UndisturbedPassSucceedsExactly(a: Active, owner: Owner, parse: Parser, result: Result, env: nat -> Turn,
                                       span: Span, talk: Talk)
    requires Correct(a, owner, parse, result, env, span, talk) && a.Reached() && Calm(env, span.from, span.to)
    ensures a.outcome.Success? <==>
            forall row :: row in a.o.query.value ==>
              Prepare(owner, row).Some? && !Bad(span.before, Prepare(owner, row).value)
  {
    var rows := a.o.query.value;
    AllAsked(owner, rows);
    RowsFailExactly(span.before, Asked(owner, rows));
    SuccessIsAllGood(a, owner, parse, result, env, span, talk);
    hide Correct, RowFailures, Asked, Bad;
  }

  lemma SuccessIsAllGood(a: Active, owner: Owner, parse: Parser, result: Result, env: nat -> Turn, span: Span,
                         talk: Talk)
    requires Correct(a, owner, parse, result, env, span, talk) && a.Reached() && Calm(env, span.from, span.to)
    ensures a.outcome.Success? <==> AllRowsGood(owner, a.o.query.value, span.before)
  {
    hide PassKept, RealReports, Accounts, ChildWrites, Ended, PassHistory, AllRowsGood, RowsKeys, AllReported, PassTold;
  }

  /** The delay after an attempt, by where it ended: no connection, no rows, a template that does not parse, or done. */
  lemma AttemptDelaysExactly(a: Active, owner: Owner, parse: Parser, result: Result, env: nat -> Turn, span: Span,
                             talk: Talk)
    requires Correct(a, owner, parse, result, env, span, talk) && a.attempted && Admitted(parse, a.cr.spec)
    ensures var spec := a.cr.spec;
            var p := PollInterval(parse, spec);
            result == Result(if !a.o.connected then Min(p, 30 * SECOND)
                             else if a.o.query == None || !DetectionEnabled(spec) then p
                             else Min(p, DetectionInterval(parse, spec.detection.value)), false)
  {
    CopiesAgree(parse, a.cr.spec);
    hide PassKept, RealReports, Accounts, ChildWrites, PassTold, AllReported, Admitted, KeysAsked, Asked;
  }

  /** The rows that ask for the key have all failed, each for a cause of its own. */
  ghost predicate AllFailedForCause(env: nat -> Turn, owner: Owner, trace: seq<RowRun>, key: string)
  {
    forall j :: 0 <= j < |trace| && Keyed(owner, trace[j].row, key) ==>
      trace[j].key == None && (RowIsBad(owner, trace[j]) || !Calm(env, trace[j].span.from, trace[j].span.to))
  }

  lemma UnkeptRowsFailed(env: nat -> Turn, owner: Owner, rows: seq<Row>, span: Span, trace: seq<RowRun>, key: string)
    requires Traced(env, owner, rows, span, trace) && key !in TraceKeys(trace)
    ensures AllFailedForCause(env, owner, trace, key)
  {
    forall j | 0 <= j < |trace| && Keyed(owner, trace[j].row, key)
      ensures trace[j].key == None && (RowIsBad(owner, trace[j]) || !Calm(env, trace[j].span.from, trace[j].span.to))
    {
      RunKeysAreKept(trace, j);
      RowsFailForCause(env, owner, trace[j]);
    }
  }

  lemma RunKeysAreKept(trace: seq<RowRun>, j: nat)
    requires j < |trace|
    ensures trace[j].key.Some? ==> trace[j].key.value in TraceKeys(trace)
  {
  }

  /**
   Prune safety under arbitrary failures and interference. A pass removes an object only when pruning is
   on, the object was managed, and every row of the pass that asked for it failed for a cause of its
   own: no row that was good and undisturbed has its object removed, whatever happens elsewhere.
   */
  lemma RemovedForCause(a: Active, owner: Owner, parse: Parser, result: Result, env: nat -> Turn, span: Span,
                        talk: Talk, i: nat)
    requires Correct(a, owner, parse, result, env, span, talk)
    requires |span.before| <= i < |span.after| && span.after[i].author == Operator && span.after[i].change.Remove?
    ensures a.Reached() && a.trace.Some? && a.cr.spec.prune && span.after[i].id.Valid()
    ensures GetObjectKey(span.after[i].id) in a.cr.status.managed
    ensures AllFailedForCause(env, owner, a.trace.value.rows, GetObjectKey(span.after[i].id))
  {
    assert a.Reached();
    var key, t := GetObjectKey(span.after[i].id), a.trace.value;
    RemovalIsStale(a, owner, span, i);
    assert Traced(env, owner, a.o.query.value, t.rowsSpan, t.rows) && KeySet(a.status.managed) == TraceKeys(t.rows);
    UnkeptRowsFailed(env, owner, a.o.query.value, t.rowsSpan, t.rows, key);
  }

  lemma RemovalIsStale(a: Active, owner: Owner, span: Span, i: nat)
    requires a.Safe(owner, span.before, span.after) && a.Reached()
    requires |span.before| <= i < |span.after| && span.after[i].author == Operator && span.after[i].change.Remove?
    ensures a.cr.spec.prune && span.after[i].id.Valid() && GetObjectKey(span.after[i].id) in a.cr.status.managed
    ensures GetObjectKey(span.after[i].id) !in KeySet(a.status.managed)
  {
    assert PassWrite(span.after, i, AskedOn(owner, a.o), a.cr.status.managed, KeySet(a.status.managed),
                     a.cr.spec.prune);
  }

  /**
   The managed keys after a pass are exactly those of the rows that succeeded, and a good, undisturbed
   row is one of them.
   */
  lemma ManagedExactly(a: Active, owner: Owner, parse: Parser, result: Result, env: nat -> Turn, span: Span,
                       talk: Talk, key: string)
    requires Correct(a, owner, parse, result, env, span, talk) && a.Reached()
    ensures var trace := a.trace.value.rows;
      && (key in a.status.managed <==> exists r :: r in trace && r.key == Some(key))
      && (forall r :: r in trace && Keyed(owner, r.row, key) ==>
            !RowIsBad(owner, r) && Calm(env, r.span.from, r.span.to) ==> key in a.status.managed)
  {
    var t := a.trace.value;
    assert Traced(env, owner, a.o.query.value, t.rowsSpan, t.rows) && KeySet(a.status.managed) == TraceKeys(t.rows);
    assert key in a.status.managed <==> key in KeySet(a.status.managed);
    if key !in a.status.managed {
      UnkeptRowsFailed(env, owner, a.o.query.value, t.rowsSpan, t.rows, key);
      forall r | r in t.rows && Keyed(owner, r.row, key)
        ensures RowIsBad(owner, r) || !Calm(env, r.span.from, r.span.to)
      {
        var j :| 0 <= j < |t.rows| && t.rows[j] == r;
      }
    }
  }

  lemma {:induction false} NoFailuresExactly(trace: seq<RowRun>)
    ensures TraceFailures(trace) == 0 <==> forall r :: r in trace ==> r.key.Some?
  {
    if trace != [] {
      var front, last := trace[..|trace| - 1], trace[|trace| - 1];
      NoFailuresExactly(front);
      assert trace == front + [last];
    }
  }

  /** The deletion calls of a pass. */
  ghost predicate DeletionsServed(a: Active, env: nat -> Turn)
    requires a.trace.Some?
  {
    var s := a.trace.value.pruneSpan;
    var first := s.from + |Readable(ReadForDeletion, a.cr.status.managed)|;
    s.to >= first ==> NoFaults(env, first, s.to - first)
  }

  /** A pass succeeds, and the poll time moves, exactly when every row succeeded and every deletion call was served. */
  lemma SucceedsExactly(a: Active, owner: Owner, parse: Parser, result: Result, env: nat -> Turn, span: Span,
                        talk: Talk)
    requires Correct(a, owner, parse, result, env, span, talk) && a.Reached()
    ensures a.outcome.Success? <==>
            && (forall r :: r in a.trace.value.rows ==> r.key.Some?)
            && (a.cr.spec.prune ==> DeletionsServed(a, env))
  {
    NoFailuresExactly(a.trace.value.rows);
  }

  /**
   What pruning leaves, object by object, when its calls met failures only: a child goes if and only if it
   was managed and is not any more, and a read of it and a deletion of it were served.
   */
  lemma PrunedExactly(a: Active, owner: Owner, parse: Parser, result: Result, env: nat -> Turn, span: Span,
                      talk: Talk, id: ObjectId)
    requires Correct(a, owner, parse, result, env, span, talk) && a.Reached() && a.cr.spec.prune && id.Valid()
    requires Steady(env, a.trace.value.pruneSpan.from, a.trace.value.pruneSpan.to)
    ensures var s := a.trace.value.pruneSpan;
            Current(s.after, id) ==
              if PrunedAway(s.before, env, s.from, a.cr.status.managed, KeySet(a.status.managed), id) then None
              else Current(s.before, id)
  {
    var s := a.trace.value.pruneSpan;
    assert Pruned(env, true, s, a.cr.status.managed, KeySet(a.status.managed));
    PruneExactly(s.before, env, s.from, a.cr.status.managed, KeySet(a.status.managed), id);
  }

  /** The rows come first and pruning after them; nothing of the operator's follows. */
  lemma PassInOrder(a: Active, owner: Owner, parse: Parser, result: Result, env: nat -> Turn, span: Span, talk: Talk)
    requires Correct(a, owner, parse, result, env, span, talk) && a.Reached()
    ensures var t := a.trace.value;
      && Traced(env, owner, a.o.query.value, t.rowsSpan, t.rows)
      && t.rowsSpan.before == span.before && t.pruneSpan.before == t.rowsSpan.after
      && OthersOnly(t.pruneSpan.after, span.after)
      && (!a.cr.spec.prune ==> t.pruneSpan.after == t.rowsSpan.after)
  {
  }
}
