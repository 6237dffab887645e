/** A full reconciliation pass over the children: apply every row, prune, report child status, remember the keys. */
module Pass {
  import opened Text
  import opened ObjectKeys
  import opened Manifests
  import opened Cluster
  import opened Rows
  import opened Children
  import opened Deletions
  import opened StatusLedger

  /** The objects the rows ask for; rows that fail before any cluster access ask for nothing. */
  function Asked(owner: Owner, rows: seq<Row>): seq<Desired>
  {
    if rows == [] then []
    else
      var front := Asked(owner, rows[..|rows| - 1]);
      match Prepare(owner, rows[|rows| - 1]) case None => front case Some(d) => front + [d]
  }

  function KeysAsked(ds: seq<Desired>): set<string>
  {
    set d | d in ds :: GetObjectKey(d.id)
  }

  /** What the rows leave on an undisturbed cluster. */
  function RowsHistory(h: History, ds: seq<Desired>): History
  {
    if ds == [] then h else RowStep(RowsHistory(h, ds[..|ds| - 1]), ds[|ds| - 1])
  }

  /** The keys of the rows that succeed there. */
  function RowsKeys(h: History, ds: seq<Desired>): set<string>
  {
    if ds == [] then {}
    else
      var front, last := ds[..|ds| - 1], ds[|ds| - 1];
      RowsKeys(h, front) + if RowFails(RowsHistory(h, front), last) then {} else {GetObjectKey(last.id)}
  }

  function RowFailures(h: History, ds: seq<Desired>): nat
  {
    if ds == [] then 0
    else
      var front, last := ds[..|ds| - 1], ds[|ds| - 1];
      RowFailures(h, front) + if RowFails(RowsHistory(h, front), last) then 1 else 0
  }

  /** The operator's own writes put objects with these keys, and nothing else. */
  ghost predicate OnlyPuts(h0: History, h: History, keys: set<string>)
  {
    && h0 <= h
    && forall i :: |h0| <= i < |h| && h[i].author == Operator ==>
         h[i].change.Put? && h[i].id.Valid() && GetObjectKey(h[i].id) in keys
  }

  /** Every object the operator has put is one of `ds`, applied to what stood there just before. */
  ghost predicate PutsApply(h0: History, h: History, ds: seq<Desired>)
  {
    && h0 <= h
    && forall i :: |h0| <= i < |h| && h[i].author == Operator && h[i].change.Put? ==> AppliesOne(h, i, ds)
  }

  // ---- what happened to each row ----

  /** One record for every row, each starting where the one before it ended. */
  ghost predicate Traced(env: nat -> Turn, owner: Owner, rows: seq<Row>, span: Span, trace: seq<RowRun>)
  {
    && |trace| == |rows| && span.from <= span.to
    && (forall i :: 0 <= i < |trace| ==> trace[i].row == rows[i] && RowSound(env, owner, trace[i]))
    && (forall i :: 0 <= i < |trace| ==> StartsAt(span, trace, i))
    && (if trace == [] then span.after == span.before && span.to == span.from
        else trace[|trace| - 1].span.after == span.after && trace[|trace| - 1].span.to == span.to)
  }

  ghost predicate StartsAt(span: Span, trace: seq<RowRun>, i: nat)
    requires i < |trace|
  {
    && span.from <= trace[i].span.from && trace[i].span.to <= span.to
    && (if i == 0 then trace[i].span.before == span.before && trace[i].span.from == span.from
        else trace[i].span.before == trace[i - 1].span.after && trace[i].span.from == trace[i - 1].span.to)
  }

  lemma TraceOneMore(env: nat -> Turn, owner: Owner, rows: seq<Row>, span: Span, trace: seq<RowRun>, r: RowRun)
    requires Traced(env, owner, rows, span, trace) && RowSound(env, owner, r)
    requires r.span.before == span.after && r.span.from == span.to
    ensures Traced(env, owner, rows + [r.row], Span(span.before, span.from, r.span.after, r.span.to), trace + [r])
  {
    var span', trace' := Span(span.before, span.from, r.span.after, r.span.to), trace + [r];
    hide RowSound;
    SoundRowWrites(env, owner, r);
    forall i | 0 <= i < |trace'|
      ensures StartsAt(span', trace', i)
    {
      if i < |trace| { assert StartsAt(span, trace, i); }
    }
  }

  /** The call log bears the record of a row out: the calls that it claims are for the row's own object. */
  ghost predicate RowLogged(calls: seq<Call>, owner: Owner, r: RowRun)
  {
    r.span.from <= r.span.to <= |calls| && RowCalls(calls[..r.span.from], calls[..r.span.to], owner, r.row)
  }

  ghost predicate RowsLogged(calls: seq<Call>, owner: Owner, trace: seq<RowRun>)
  {
    forall i :: 0 <= i < |trace| ==> RowLogged(calls, owner, trace[i])
  }

  lemma LoggedLater(calls: seq<Call>, calls': seq<Call>, owner: Owner, trace: seq<RowRun>)
    requires RowsLogged(calls, owner, trace) && calls <= calls'
    ensures RowsLogged(calls', owner, trace)
  {
    hide RowCalls;
    forall i | 0 <= i < |trace|
      ensures RowLogged(calls', owner, trace[i])
    {
      assert RowLogged(calls, owner, trace[i]);
      SamePrefix(calls, calls', trace[i].span.from);
      SamePrefix(calls, calls', trace[i].span.to);
    }
  }

  lemma SamePrefix(calls: seq<Call>, calls': seq<Call>, n: nat)
    requires calls <= calls' && n <= |calls|
    ensures calls'[..n] == calls[..n]
  {
  }

  lemma LogOneMore(calls: seq<Call>, calls': seq<Call>, owner: Owner, trace: seq<RowRun>, r: RowRun)
    requires RowsLogged(calls, owner, trace) && RowCalls(calls, calls', owner, r.row)
    requires r.span.from == |calls| && r.span.to == |calls'|
    ensures calls <= calls' && RowsLogged(calls', owner, trace + [r])
  {
    RowCallsExtend(calls, calls', owner, r.row);
    LoggedLater(calls, calls', owner, trace);
    assert calls'[..|calls|] == calls && calls'[..|calls'|] == calls';
    hide RowCalls;
    assert RowLogged(calls', owner, r);
    hide RowLogged;
  }

  lemma RowCallsExtend(calls: seq<Call>, calls': seq<Call>, owner: Owner, row: Row)
    requires RowCalls(calls, calls', owner, row)
    ensures calls <= calls'
  {
  }

  /** The keys of the rows that succeeded. */
  function TraceKeys(trace: seq<RowRun>): set<string>
  {
    set r | r in trace && r.key.Some? :: r.key.value
  }

  /** How many rows failed. */
  function TraceFailures(trace: seq<RowRun>): nat
  {
    if trace == [] then 0
    else TraceFailures(trace[..|trace| - 1]) + if trace[|trace| - 1].key == None then 1 else 0
  }

  lemma TraceCounts(trace: seq<RowRun>, r: RowRun)
    ensures TraceKeys(trace + [r]) == TraceKeys(trace) + if r.key.Some? then {r.key.value} else {}
    ensures TraceFailures(trace + [r]) == TraceFailures(trace) + if r.key.Some? then 0 else 1
  {
    assert (trace + [r])[..|trace|] == trace;
    assert forall x :: x in trace + [r] <==> x in trace || x == r;
  }

  /**
   `rows` have been processed: these keys succeeded, that many rows failed. Whatever happened, the trace
   tells of each row; where nothing disturbed them, the outcome is that of the row functions.
   */
  ghost predicate Processed(env: nat -> Turn, owner: Owner, rows: seq<Row>, span: Span, trace: seq<RowRun>,
                            keys: set<string>, failed: nat)
  {
    && span.from <= span.to
    && Traced(env, owner, rows, span, trace) && keys == TraceKeys(trace) && failed == TraceFailures(trace)
    && OnlyPuts(span.before, span.after, keys) && PutsApply(span.before, span.after, Asked(owner, rows))
    && keys <= KeysAsked(Asked(owner, rows)) && failed <= |rows|
    && (forall k :: k in keys ==> ReadForDeletion(k).Some?)
    && (failed == 0 ==> keys == KeysAsked(Asked(owner, rows)) && |Asked(owner, rows)| == |rows|)
    && (Calm(env, span.from, span.to) ==> ProcessedCalmly(owner, span.before, span.after, rows, keys, failed))
  }

  /** The outcome is that of the row functions. */
  ghost predicate ProcessedCalmly(owner: Owner, h0: History, h: History, rows: seq<Row>, keys: set<string>, failed: nat)
  {
    var ds := Asked(owner, rows);
    h == RowsHistory(h0, ds) && keys == RowsKeys(h0, ds) && failed == |rows| - |ds| + RowFailures(h0, ds)
  }

  lemma {:induction false} AskedAtMost(owner: Owner, rows: seq<Row>)
    ensures |Asked(owner, rows)| <= |rows|
  {
    if rows != [] {
      AskedAtMost(owner, rows[..|rows| - 1]);
    }
  }

  lemma AskedOneMore(owner: Owner, rows: seq<Row>, row: Row)
    ensures Asked(owner, rows + [row]) ==
            Asked(owner, rows) + (match Prepare(owner, row) case None => [] case Some(d) => [d])
    ensures Prepare(owner, row).Some? ==>
              KeysAsked(Asked(owner, rows + [row])) ==
              KeysAsked(Asked(owner, rows)) + {GetObjectKey(Prepare(owner, row).value.id)}
  {
    assert (rows + [row])[..|rows|] == rows;
    if Prepare(owner, row).Some? {
      var ds, d := Asked(owner, rows), Prepare(owner, row).value;
      assert forall x :: x in ds + [d] <==> x in ds || x == d;
    }
  }

  lemma HistoryOneMore(h: History, ds: seq<Desired>, d: Desired)
    ensures RowsHistory(h, ds + [d]) == RowStep(RowsHistory(h, ds), d)
    ensures RowsKeys(h, ds + [d]) ==
            RowsKeys(h, ds) + if RowFails(RowsHistory(h, ds), d) then {} else {GetObjectKey(d.id)}
    ensures RowFailures(h, ds + [d]) == RowFailures(h, ds) + if RowFails(RowsHistory(h, ds), d) then 1 else 0
  {
    assert (ds + [d])[..|ds|] == ds;
  }

  /** What a row may do to the history, given the key it succeeded with. */
  ghost predicate RowWrites(owner: Owner, row: Row, h: History, h1: History, key: Option<string>)
  {
    OthersOnly(h, h1) || (key.Some? && Prepare(owner, row).Some? && AppliedOnce(h, h1, Prepare(owner, row).value))
  }

  lemma PutsOneMore(h0: History, h: History, keys: set<string>, owner: Owner, row: Row, h1: History,
                    key: Option<string>)
    requires OnlyPuts(h0, h, keys) && RowWrites(owner, row, h, h1, key)
    requires key.Some? ==> Keyed(owner, row, key.value)
    ensures OnlyPuts(h0, h1, keys + if key.Some? then {key.value} else {})
  {
  }

  lemma PutsApplyOneMore(owner: Owner, rows: seq<Row>, row: Row, h0: History, h: History, h1: History,
                         key: Option<string>)
    requires PutsApply(h0, h, Asked(owner, rows)) && RowWrites(owner, row, h, h1, key)
    ensures PutsApply(h0, h1, Asked(owner, rows + [row]))
  {
    AskedOneMore(owner, rows, row);
    forall i | |h0| <= i < |h1| && h1[i].author == Operator && h1[i].change.Put?
      ensures AppliesOne(h1, i, Asked(owner, rows + [row]))
    {
      if i < |h| {
        assert h1[i] == h[i];
        AppliesOneLater(h, h1, i, Asked(owner, rows), Asked(owner, rows + [row]));
      } else {
        var d := Prepare(owner, row).value;
        AppliedOnceApplies(h, h1, d);
        assert i == |h1| - 1 && d in Asked(owner, rows + [row]);
      }
    }
  }

  lemma ProcessOneCalmly(owner: Owner, h0: History, h: History, rows: seq<Row>, keys: set<string>, failed: nat,
                         row: Row, h1: History, key: Option<string>)
    requires ProcessedCalmly(owner, h0, h, rows, keys, failed) && RowDone(owner, row, h, h1, key)
    requires key.Some? ==> Keyed(owner, row, key.value)
    ensures ProcessedCalmly(owner, h0, h1, rows + [row], keys + (if key.Some? then {key.value} else {}),
                            failed + if key.Some? then 0 else 1)
  {
    AskedOneMore(owner, rows, row);
    if Prepare(owner, row).Some? {
      HistoryOneMore(h0, Asked(owner, rows), Prepare(owner, row).value);
    }
  }

  lemma SoundRowWrites(env: nat -> Turn, owner: Owner, r: RowRun)
    requires RowSound(env, owner, r)
    ensures RowWrites(owner, r.row, r.span.before, r.span.after, r.key)
    ensures (r.key.Some? ==> Keyed(owner, r.row, r.key.value)) && r.span.from <= r.span.to
  {
  }

  lemma ProcessOne(env: nat -> Turn, owner: Owner, rows: seq<Row>, span: Span, trace: seq<RowRun>, keys: set<string>,
                   failed: nat, r: RowRun)
    requires Processed(env, owner, rows, span, trace, keys, failed) && RowSound(env, owner, r)
    requires r.span.before == span.after && r.span.from == span.to
    ensures Processed(env, owner, rows + [r.row], Span(span.before, span.from, r.span.after, r.span.to), trace + [r],
                      keys + (if r.key.Some? then {r.key.value} else {}), failed + if r.key.Some? then 0 else 1)
  {
    hide RowSound, RowDone, TraceKeys, TraceFailures, OnlyPuts, PutsApply, Traced, Prepare;
    TraceOneMore(env, owner, rows, span, trace, r);
    TraceCounts(trace, r);
    SoundRowWrites(env, owner, r);
    PutsOneMore(span.before, span.after, keys, owner, r.row, r.span.after, r.key);
    PutsApplyOneMore(owner, rows, r.row, span.before, span.after, r.span.after, r.key);
    AskedOneMore(owner, rows, r.row);
    AskedAtMost(owner, rows);
    if Prepare(owner, r.row).Some? && Prepare(owner, r.row).value.id.Valid() {
      ReadersRecover(Prepare(owner, r.row).value.id);
    }
    CalmRow(env, owner, span, r);
    if Calm(env, span.from, r.span.to) {
      ProcessOneCalmly(owner, span.before, span.after, rows, keys, failed, r.row, r.span.after, r.key);
    }
  }

  lemma CalmRow(env: nat -> Turn, owner: Owner, span: Span, r: RowRun)
    requires RowSound(env, owner, r) && r.span.before == span.after && r.span.from == span.to && span.from <= span.to
    ensures Calm(env, span.from, r.span.to) ==>
              Calm(env, span.from, span.to) && RowDone(owner, r.row, span.after, r.span.after, r.key)
  {
    if Calm(env, span.from, r.span.to) {
      assert Calm(env, r.span.from, r.span.to);
    }
  }

  lemma NothingProcessed(env: nat -> Turn, owner: Owner, h: History, n: nat)
    ensures Processed(env, owner, [], Span(h, n, h, n), [], {}, 0)
  {
    assert KeysAsked([]) == {};
    assert TraceKeys([]) == {};
  }

  method ProcessRows(server: ApiServer, owner: Owner, rows: seq<Row>)
    returns (keys: set<string>, failed: nat, ghost trace: seq<RowRun>)
    modifies server
    ensures Processed(server.env, owner, rows,
                      Span(old(server.history), |old(server.calls)|, server.history, |server.calls|),
                      trace, keys, failed)
    ensures old(server.calls) <= server.calls && RowsLogged(server.calls, owner, trace)
  {
    hide Processed, RowSound, RowLogged, RowCalls;
    keys, failed, trace := {}, 0, [];
    ghost var h0, n0 := server.history, |server.calls|;
    NothingProcessed(server.env, owner, h0, n0);
    for k := 0 to |rows|
      invariant Processed(server.env, owner, rows[..k], Span(h0, n0, server.history, |server.calls|), trace, keys,
                          failed)
      invariant old(server.calls) <= server.calls && RowsLogged(server.calls, owner, trace)
    {
      ghost var h, n, calls := server.history, |server.calls|, server.calls;
      var key := ProcessRow(server, owner, rows[k]);
      ghost var run := RowRun(rows[k], Span(h, n, server.history, |server.calls|), key);
      ProcessOne(server.env, owner, rows[..k], Span(h0, n0, h, n), trace, keys, failed, run);
      LogOneMore(calls, server.calls, owner, trace, run);
      assert rows[..k + 1] == rows[..k] + [rows[k]];
      keys := keys + if key.Some? then {key.value} else {};
      failed := failed + if key.Some? then 0 else 1;
      trace := trace + [run];
    }
    assert rows[..|rows|] == rows;
  }

  /** The keys in increasing order. */
  method SortKeys(keys: set<string>) returns (list: seq<string>)
    ensures list == Sorted(keys)
  {
    list := [];
    var rest := keys;
    while rest != {}
      invariant rest <= keys && StrictlySorted(list)
      invariant forall k :: k in list <==> k in keys - rest
      invariant forall k, l :: k in list && l in rest ==> Less(k, l)
      decreases rest
    {
      ghost var _ := LeastExists(rest);
      var least :| least in rest && forall k :: k in rest && k != least ==> Less(least, k);
      list := list + [least];
      rest := rest - {least};
    }
    SortedIsUnique(list, Sorted(keys));
  }

  /** The custom resource's part that a pass works on. */
  class Resource {
    const owner: Owner
    var managed: seq<string>
    const book: VersionBook

    /** What holds even while keys are being replaced. */
    ghost predicate Consistent()
      reads this, book
    {
      book.Valid() && forall k :: k in managed ==> ReadForDeletion(k).Some?
    }

    ghost predicate Valid()
      reads this, book
    {
      Consistent() && book.versions.Keys <= (set k | k in managed)
    }

    constructor (owner: Owner, managed: seq<string>, versions: map<string, nat>)
      requires versions.Keys <= (set k | k in managed) && forall k :: k in managed ==> ReadForDeletion(k).Some?
      ensures Valid() && this.owner == owner && this.managed == managed
      ensures book.versions == versions == book.base && book.ledger == [] && fresh(book)
    {
      this.owner, this.managed := owner, managed;
      book := new VersionBook(versions);
    }
  }

  /**
   What a pass may have written, whatever the surroundings did: an asked object applied to what stood
   there just before, its key among the processed ones; or, when pruning, the removal of a stale one.
   */
  ghost predicate PassWrites(h0: History, h: History, ds: seq<Desired>, managed: seq<string>, keys: set<string>,
                             prune: bool)
  {
    && h0 <= h
    && forall i :: |h0| <= i < |h| && h[i].author == Operator ==>
         h[i].id.Valid() && PassWrite(h, i, ds, managed, keys, prune)
  }

  ghost predicate PassWrite(h: History, i: nat, ds: seq<Desired>, managed: seq<string>, keys: set<string>, prune: bool)
    requires i < |h|
  {
    var key := GetObjectKey(h[i].id);
    if h[i].change.Put? then key in keys && AppliesOne(h, i, ds) else prune && key in managed && key !in keys
  }

  lemma PrunedAfterRows(h0: History, h1: History, h2: History, ds: seq<Desired>, managed: seq<string>,
                        keys: set<string>)
    requires OnlyPuts(h0, h1, keys) && PutsApply(h0, h1, ds) && OnlyStaleRemoved(h1, h2, managed, keys)
    ensures PassWrites(h0, h2, ds, managed, keys, true)
  {
    forall i | |h0| <= i < |h2| && h2[i].author == Operator
      ensures h2[i].id.Valid() && PassWrite(h2, i, ds, managed, keys, true)
    {
      if i < |h1| {
        assert h2[i] == h1[i];
        AppliesOneLater(h1, h2, i, ds, ds);
      }
    }
  }

  lemma WrittenBeforeReports(h0: History, h1: History, h2: History, ds: seq<Desired>, managed: seq<string>,
                             keys: set<string>, prune: bool)
    requires PassWrites(h0, h1, ds, managed, keys, prune) && OthersOnly(h1, h2)
    ensures PassWrites(h0, h2, ds, managed, keys, prune)
  {
    forall i | |h0| <= i < |h2| && h2[i].author == Operator
      ensures h2[i].id.Valid() && PassWrite(h2, i, ds, managed, keys, prune)
    {
      assert h2[i] == h1[i] && PassWrite(h1, i, ds, managed, keys, prune);
      if h1[i].change.Put? { AppliesOneLater(h1, h2, i, ds, ds); }
    }
  }

  const CALM: nat -> Turn := n => Turn([], None, 0)

  /** What a pass leaves on an undisturbed cluster. */
  function PassHistory(h: History, ds: seq<Desired>, managed: seq<string>, prune: bool): History
  {
    var rowsDone := RowsHistory(h, ds);
    if prune then PruneHistory(rowsDone, CALM, 0, Readable(ReadForDeletion, managed), RowsKeys(h, ds)) else rowsDone
  }

  lemma {:induction false} CalmServed(h: History, env: nat -> Turn, n: nat, ids: seq<ObjectId>, m: nat)
    requires Calm(env, n, n + |ids|)
    ensures Served(h, env, n, ids) == Served(h, CALM, m, ids)
    decreases |ids|
  {
    if ids != [] {
      assert CalmTurn(env(n)) && Calm(env, n + 1, n + 1 + |ids[1..]|);
      CalmServed(h, env, n + 1, ids[1..], m + 1);
    }
  }

  lemma {:induction false} CalmDeleted(h: History, env: nat -> Turn, n: nat, ids: seq<ObjectId>, m: nat)
    requires Calm(env, n, n + |ids|)
    ensures Deleted(h, env, n, ids) == Deleted(h, CALM, m, ids)
    decreases |ids|
  {
    if ids != [] {
      assert CalmTurn(env(n)) && Calm(env, n + 1, n + 1 + |ids[1..]|);
      CalmDeleted(DeleteStep(h, env(n), ids[0]), env, n + 1, ids[1..], m + 1);
    }
  }

  lemma CalmPrune(h: History, env: nat -> Turn, n: nat, ids: seq<ObjectId>, keys: set<string>, to: nat)
    requires Calm(env, n, to) && to == PruneCalls(h, env, n, ids, keys)
    ensures PruneHistory(h, env, n, ids, keys) == PruneHistory(h, CALM, 0, ids, keys)
  {
    assert Calm(env, n, n + |ids|) && Calm(env, n + |ids|, to);
    CalmServed(h, env, n, ids, 0);
    CalmDeleted(h, env, n + |ids|, StaleAmong(Served(h, CALM, 0, ids), keys), 0 + |ids|);
  }

  /** Every managed object that is alive has its version recorded, as far as its key is kept. */
  ghost predicate AllReported(h: History, managed: seq<string>, keys: set<string>, versions: map<string, nat>)
  {
    forall id: ObjectId ::
      id.Valid() && GetObjectKey(id) in managed && GetObjectKey(id) in keys && Current(h, id).Some? ==>
      Holds(versions, GetObjectKey(id), Current(h, id).value.version)
  }

  lemma ReportsAll(h: History, env: nat -> Turn, n: nat, managed: seq<string>, keys: set<string>,
                   before: map<string, nat>)
    requires Calm(env, n, n + |Readable(ReadForStatus, managed)|)
    requires forall e :: e in managed ==> ReadForDeletion(e).Some?
    ensures AllReported(h, managed, keys, AllVersions(before, Served(h, env, n, Readable(ReadForStatus, managed))))
  {
    ReadersAgree(managed);
    var ids := Readable(ReadForDeletion, managed);
    var children := Served(h, env, n, ids);
    forall id: ObjectId | id.Valid() && GetObjectKey(id) in managed && Current(h, id).Some?
      ensures Holds(AllVersions(before, children), GetObjectKey(id), Current(h, id).value.version)
    {
      ReadableMembers(managed, id);
      var j :| 0 <= j < |ids| && ids[j] == id;
      assert CalmTurn(env(n + j));
      ServedMembers(h, env, n, ids, id);
      AllVersionsOf(before, children, GetObjectKey(id));
      var c :| c in children && GetObjectKey(c.id) == GetObjectKey(id) &&
               Holds(AllVersions(before, children), GetObjectKey(id), c.stored.version);
      ServedMembers(h, env, n, ids, c.id);
      KeysAreInjective(c.id, id);
      ServedCurrent(h, env, n, ids, c);
    }
  }

  lemma {:induction false} ServedCurrent(h: History, env: nat -> Turn, n: nat, ids: seq<ObjectId>, c: Child)
    requires c in Served(h, env, n, ids)
    ensures Current(h, c.id) == Some(c.stored)
    decreases |ids|
  {
    if c in Served(h, env, n + 1, ids[1..]) {
      ServedCurrent(h, env, n + 1, ids[1..], c);
    }
  }

  /** Whatever the surroundings do: the managed children that could be read are reported, each in its turn. */
  ghost predicate Asks(env: nat -> Turn, span: Span, managed: seq<string>, templateSet: bool, talk: Talk,
                       versions: map<string, nat>)
  {
    var ids := Readable(ReadForStatus, managed);
    && span.after == Met(env, span.before, span.from, |ids|) && span.to == span.from + |ids|
    && Told(talk.accepts, talk.before, talk.after, templateSet, versions, Found(env, span.before, span.from, ids))
  }

  /** What the reports leave recorded: exactly the accepted ones, as far as their keys are kept. */
  ghost predicate Remembered(talk: Talk, keys: set<string>, before: map<string, nat>, after: map<string, nat>,
                       ledger0: seq<Event>, ledger: seq<Event>)
  {
    && after == (map k | k in AfterAnswers(before, talk.New()) && k in keys :: AfterAnswers(before, talk.New())[k])
    && ReportsIn(ledger) == ReportsIn(ledger0) + AcceptedReports(talk.New())
  }

  /** What reporting promises: no writes, real versions, and where nothing disturbed it every child's version. */
  ghost predicate Reporting(env: nat -> Turn, span: Span, managed: seq<string>, keys: set<string>, templateSet: bool,
                            talk: Talk, before: map<string, nat>, after: map<string, nat>, ledger0: seq<Event>,
                            ledger: seq<Event>)
  {
    && OthersOnly(span.before, span.after) && span.from <= span.to
    && RealReports(span.after, ledger0, ledger)
    && Asks(env, span, managed, templateSet, talk, before) && Remembered(talk, keys, before, after, ledger0, ledger)
    && (Steady(env, span.from, span.to) ==> span.after == span.before)
    && (Calm(env, span.from, span.to) && templateSet && AllAccepted(talk.New()) ==>
          AllReported(span.after, managed, keys, after))
  }

  /** Reports the status of the children managed so far, then takes over the new keys. */
  method ReportAndRemember(server: ApiServer, cr: Resource, db: Database, templateSet: bool, keys: set<string>)
    requires cr.Consistent() && forall k :: k in keys ==> ReadForDeletion(k).Some?
    modifies server, cr, cr.book, db
    ensures Reporting(server.env, Span(old(server.history), |old(server.calls)|, server.history, |server.calls|),
                      old(cr.managed), keys, templateSet, Talk(db.accepts, old(db.log), db.log), old(cr.book.versions),
                      cr.book.versions, old(cr.book.ledger), cr.book.ledger)
    ensures cr.Valid() && cr.managed == Sorted(keys) && old(db.log) <= db.log
    ensures old(server.calls) <= server.calls && Gets(server.calls, |old(server.calls)|, |server.calls|)
  {
    hide Collected, Told, ReportsOf, OnlyDrops, Reporting, Accounts, AfterAnswers, AcceptedReports, Sorted, AllVersions;
    ghost var h0, n0, managed, log0 := server.history, |server.calls|, cr.managed, db.log;
    ghost var v0, ledger0 := cr.book.versions, cr.book.ledger;
    var children := CollectChildren(server, ReadForStatus, cr.managed);
    var _ := cr.book.UpdateStatusForChildResources(db, templateSet, children);
    ghost var v1, ledger1 := cr.book.versions, cr.book.ledger;
    var list := SortKeys(keys);
    cr.managed := list;
    cr.book.Retain(keys);
    ReportingMeans(server.env, Span(h0, n0, server.history, |server.calls|), managed, keys, templateSet,
                   Talk(db.accepts, log0, db.log), children, v0, v1, cr.book.versions, ledger0, ledger1,
                   cr.book.ledger);
  }

  lemma ReportingMeans(env: nat -> Turn, span: Span, managed: seq<string>, keys: set<string>, templateSet: bool,
                       talk: Talk, children: seq<Child>, v0: map<string, nat>, v1: map<string, nat>,
                       v2: map<string, nat>, ledger0: seq<Event>, ledger1: seq<Event>, ledger2: seq<Event>)
    requires Collected(env, span.before, span.from, span.after, span.to, Readable(ReadForStatus, managed), children)
    requires forall e :: e in managed ==> ReadForDeletion(e).Some?
    requires Told(talk.accepts, talk.before, talk.after, templateSet, v0, children)
    requires v1 == AfterAnswers(v0, talk.New()) && ledger1 == ledger0 + AcceptedReports(talk.New())
    requires templateSet && AllAccepted(talk.New()) ==> v1 == AllVersions(v0, children)
    requires ReportsOf(ledger0, ledger1, children) && OnlyDrops(ledger1, ledger2)
    requires v2 == map k | k in v1 && k in keys :: v1[k]
    ensures Reporting(env, span, managed, keys, templateSet, talk, v0, v2, ledger0, ledger2)
    ensures talk.before <= talk.after
  {
    hide AllVersions, AfterAnswers, AcceptedReports, Readable, ReportsOf, OnlyDrops, RealReports, AllReported, Found,
         Met, ReportLog, Served;
    CollectedAll(env, span.before, span.from, span.after, span.to, managed, keys, v0, children);
    CollectedReportsAreReal(span.after, ledger0, ledger1, children);
    AcceptedAreReports(ledger0, talk.New());
    DropsAreReal(span.after, ledger0, ledger1, ledger2);
    DropsReportNothing(ledger1, ledger2);
    if Calm(env, span.from, span.to) && templateSet && AllAccepted(talk.New()) {
      ReportedIfKept(span.after, managed, keys, v1, v2);
    }
  }

  lemma ReportedIfKept(h: History, managed: seq<string>, keys: set<string>, v1: map<string, nat>, v2: map<string, nat>)
    requires AllReported(h, managed, keys, v1) && v2 == map k | k in v1 && k in keys :: v1[k]
    ensures AllReported(h, managed, keys, v2)
  {
  }

  lemma CollectedAll(env: nat -> Turn, h0: History, n0: nat, h: History, n: nat, managed: seq<string>,
                     keys: set<string>, versions: map<string, nat>, children: seq<Child>)
    requires Collected(env, h0, n0, h, n, Readable(ReadForStatus, managed), children)
    requires forall e :: e in managed ==> ReadForDeletion(e).Some?
    ensures Calm(env, n0, n) ==> h == h0 && AllReported(h, managed, keys, AllVersions(versions, children))
  {
    if Calm(env, n0, n) {
      assert Steady(env, n0, n);
      ReportsAll(h0, env, n0, managed, keys, versions);
    }
  }

  // ---- the pass ----

  /** The records of a pass: of every row, of the rows together, and of pruning after them. */
  datatype PassTrace = PassTrace(rows: seq<RowRun>, rowsSpan: Span, pruneSpan: Span)

  /**
   The call log bears the records of a pass out: each row's calls are for its own object, pruning first
   reads all that is managed and then deletes, and nothing but reads follows.
   */
  ghost predicate PassLogged(calls: seq<Call>, owner: Owner, prune: bool, managed: seq<string>, t: PassTrace)
  {
    RowsLogged(calls, owner, t.rows) && PruneLogged(calls, prune, managed, t.pruneSpan)
  }

  lemma PassLoggedLater(calls: seq<Call>, calls': seq<Call>, owner: Owner, prune: bool, managed: seq<string>,
                        t: PassTrace)
    requires PassLogged(calls, owner, prune, managed, t) && calls <= calls' && Gets(calls', |calls|, |calls'|)
    ensures PassLogged(calls', owner, prune, managed, t)
  {
    hide RowsLogged, Readable;
    LoggedLater(calls, calls', owner, t.rows);
  }

  /**
   What pruning does after the rows, whatever the surroundings do: it deletes the stale ones among the
   managed children that it found. With failures only, that is what `PruneHistory` says.
   */
  ghost predicate Pruned(env: nat -> Turn, prune: bool, s: Span, managed: seq<string>, keys: set<string>)
  {
    var ids := Readable(ReadForDeletion, managed);
    if !prune then s.after == s.before && s.to == s.from
    else
      && OnlyStaleRemoved(s.before, s.after, managed, keys) && s.to >= s.from + |ids|
      && s.after == PrunedAmid(env, s.before, s.from, ids, keys)
      && s.to == PruneCallsAmid(env, s.before, s.from, ids, keys)
      && (Steady(env, s.from, s.to) ==>
            && s.after == PruneHistory(s.before, env, s.from, ids, keys)
            && s.to == PruneCalls(s.before, env, s.from, ids, keys))
  }

  /** The deletion calls that met a fault; the calls that read the managed children come before them. */
  function PruneErrors(env: nat -> Turn, prune: bool, managed: seq<string>, s: Span): nat
  {
    var first := s.from + |Readable(ReadForDeletion, managed)|;
    if prune && s.to >= first then Faults(env, first, s.to - first) else 0
  }

  /** The errors of a pass: failed rows and failed deletions. */
  function PassErrors(env: nat -> Turn, prune: bool, managed: seq<string>, t: PassTrace): nat
  {
    TraceFailures(t.rows) + PruneErrors(env, prune, managed, t.pruneSpan)
  }

  /** The records account for the processed keys, for the errors and for what was pruned. */
  ghost predicate PassTraced(env: nat -> Turn, owner: Owner, rows: seq<Row>, prune: bool, span: Span,
                             managed: seq<string>, keys: set<string>, errors: nat, t: PassTrace)
  {
    && Traced(env, owner, rows, t.rowsSpan, t.rows) && keys == TraceKeys(t.rows)
    && t.rowsSpan.before == span.before && t.rowsSpan.from == span.from
    && t.pruneSpan.before == t.rowsSpan.after && t.pruneSpan.from == t.rowsSpan.to
    && t.pruneSpan.from <= t.pruneSpan.to <= span.to && OthersOnly(t.pruneSpan.after, span.after)
    && errors == PassErrors(env, prune, managed, t) && Pruned(env, prune, t.pruneSpan, managed, keys)
  }

  /**
   What a pass promises. Whatever happens around it, each of its writes applies an asked object or removes
   a stale one, it ends with exactly the processed keys as managed resources, and its records tell
   which those are. Undisturbed, it leaves what `PassHistory` says, and fails exactly when a row does.
   */
  ghost predicate PassResult(env: nat -> Turn, owner: Owner, rows: seq<Row>, prune: bool, span: Span,
                             managed: seq<string>, keys: set<string>, errors: nat, t: PassTrace)
  {
    && span.from <= span.to
    && keys <= KeysAsked(Asked(owner, rows)) && (errors == 0 ==> keys == KeysAsked(Asked(owner, rows)))
    && PassWrites(span.before, span.after, Asked(owner, rows), managed, keys, prune)
    && PassTraced(env, owner, rows, prune, span, managed, keys, errors, t)
    && (Calm(env, span.from, span.to) ==> PassCalm(owner, rows, prune, span.before, span.after, managed, keys, errors))
  }

  ghost predicate PassCalm(owner: Owner, rows: seq<Row>, prune: bool, h0: History, h: History, managed: seq<string>,
                           keys: set<string>, errors: nat)
  {
    var ds := Asked(owner, rows);
    && h == PassHistory(h0, ds, managed, prune) && keys == RowsKeys(h0, ds)
    && errors == |rows| - |ds| + RowFailures(h0, ds)
  }

  lemma PassMade(env: nat -> Turn, owner: Owner, rows: seq<Row>, prune: bool, rowsSpan: Span, pruneSpan: Span,
                 managed: seq<string>, keys: set<string>, failed: nat, pruneErrors: nat, trace: seq<RowRun>)
    requires Processed(env, owner, rows, rowsSpan, trace, keys, failed)
    requires pruneSpan.before == rowsSpan.after && pruneSpan.from == rowsSpan.to
    requires Pruned(env, prune, pruneSpan, managed, keys) && pruneErrors == PruneErrors(env, prune, managed, pruneSpan)
    ensures PassResult(env, owner, rows, prune,
                       Span(rowsSpan.before, rowsSpan.from, pruneSpan.after, pruneSpan.to), managed, keys,
                       failed + pruneErrors, PassTrace(trace, rowsSpan, pruneSpan))
  {
    hide Traced, RowsHistory, RowsKeys, RowFailures, Asked, OnlyPuts, PutsApply, PruneHistory, Readable, PassWrites,
         OnlyStaleRemoved, TraceKeys, TraceFailures;
    var ids := Readable(ReadForDeletion, managed);
    PassSpans(env, owner, rows, rowsSpan, trace, keys, failed);
    if prune {
      PrunedAfterRows(rowsSpan.before, rowsSpan.after, pruneSpan.after, Asked(owner, rows), managed, keys);
    } else {
      RowsOnly(rowsSpan.before, rowsSpan.after, Asked(owner, rows), managed, keys);
    }
    if Calm(env, rowsSpan.from, pruneSpan.to) {
      assert Calm(env, rowsSpan.from, rowsSpan.to) && Calm(env, pruneSpan.from, pruneSpan.to);
      if prune {
        assert Steady(env, pruneSpan.from, pruneSpan.to);
        CalmPrune(pruneSpan.before, env, pruneSpan.from, ids, keys, pruneSpan.to);
        assert NoFaults(env, pruneSpan.from + |ids|, pruneSpan.to - (pruneSpan.from + |ids|));
      }
    }
  }

  lemma PassSpans(env: nat -> Turn, owner: Owner, rows: seq<Row>, span: Span, trace: seq<RowRun>, keys: set<string>,
                  failed: nat)
    requires Processed(env, owner, rows, span, trace, keys, failed)
    ensures span.from <= span.to
  {
  }

  lemma KeysReadable(env: nat -> Turn, owner: Owner, rows: seq<Row>, span: Span, trace: seq<RowRun>,
                     keys: set<string>, failed: nat)
    requires Processed(env, owner, rows, span, trace, keys, failed)
    ensures forall k :: k in keys ==> ReadForDeletion(k).Some?
  {
  }

  lemma RowsOnly(h0: History, h: History, ds: seq<Desired>, managed: seq<string>, keys: set<string>)
    requires OnlyPuts(h0, h, keys) && PutsApply(h0, h, ds)
    ensures PassWrites(h0, h, ds, managed, keys, false)
  {
  }

  /** The keys whose objects pruning found gone, or has removed. */
  function GoneFor(env: nat -> Turn, prune: bool, t: PassTrace, managed: seq<string>, keys: set<string>): set<string>
  {
    if prune then GonePruned(env, t.pruneSpan.before, t.pruneSpan.from, managed, keys) else {}
  }

  /** What a pass reports and records, whatever the surroundings do. */
  ghost predicate PassTold(env: nat -> Turn, span: Span, prune: bool, managed: seq<string>, keys: set<string>,
                           templateSet: bool, talk: Talk, t: PassTrace, before: map<string, nat>,
                           after: map<string, nat>, ledger0: seq<Event>, ledger: seq<Event>)
  {
    var versions := before - GoneFor(env, prune, t, managed, keys);
    && Asks(env, Span(t.pruneSpan.after, t.pruneSpan.to, span.after, span.to), managed, templateSet, talk, versions)
    && Remembered(talk, keys, versions, after, ledger0, ledger)
  }

  /** The writing half of a pass. */
  method ApplyAndPrune(server: ApiServer, cr: Resource, rows: seq<Row>, prune: bool)
    returns (keys: set<string>, errors: nat, ghost t: PassTrace)
    requires cr.book.Valid()
    modifies server, cr.book
    ensures cr.book.Valid() && OnlyDrops(old(cr.book.ledger), cr.book.ledger)
    ensures cr.book.versions == old(cr.book.versions) - GoneFor(server.env, prune, t, cr.managed, keys)
    ensures forall k :: k in keys ==> ReadForDeletion(k).Some?
    ensures PassResult(server.env, cr.owner, rows, prune,
                       Span(old(server.history), |old(server.calls)|, server.history, |server.calls|),
                       cr.managed, keys, errors, t)
    ensures old(server.calls) <= server.calls && PassLogged(server.calls, cr.owner, prune, cr.managed, t)
    ensures t.pruneSpan.after == server.history && t.pruneSpan.to == |server.calls|
  {
    hide Processed, Pruned, PassResult, RowsLogged, GonePruned, PruneErrors, OnlyDrops, Readable, PruneLogged;
    ghost var h0, n0 := server.history, |server.calls|;
    ghost var trace;
    keys, errors, trace := ProcessRows(server, cr.owner, rows);
    KeysReadable(server.env, cr.owner, rows, Span(h0, n0, server.history, |server.calls|), trace, keys, errors);
    ghost var h1, n1, calls := server.history, |server.calls|, server.calls;
    var pruneErrors := PruneIfWanted(server, cr, prune, keys);
    LoggedLater(calls, server.calls, cr.owner, trace);
    PassMade(server.env, cr.owner, rows, prune, Span(h0, n0, h1, n1), Span(h1, n1, server.history, |server.calls|),
             cr.managed, keys, errors, pruneErrors, trace);
    t := PassTrace(trace, Span(h0, n0, h1, n1), Span(h1, n1, server.history, |server.calls|));
    errors := errors + pruneErrors;
  }

  /** What pruning does to the log of calls: it reads all that is managed, and then deletes. */
  ghost predicate PruneLogged(calls: seq<Call>, prune: bool, managed: seq<string>, s: Span)
  {
    var first := s.from + |Readable(ReadForDeletion, managed)|;
    && Gets(calls, s.to, |calls|)
    && (prune ==> Gets(calls, s.from, first) && Deletes(calls, first, s.to))
  }

  /** What pruning promises, if it is wanted. */
  ghost predicate PruningDone(env: nat -> Turn, prune: bool, s: Span, managed: seq<string>, keys: set<string>,
                              errors: nat, calls: seq<Call>)
  {
    && Pruned(env, prune, s, managed, keys) && errors == PruneErrors(env, prune, managed, s)
    && PruneLogged(calls, prune, managed, s)
  }

  method PruneIfWanted(server: ApiServer, cr: Resource, prune: bool, keys: set<string>) returns (errors: nat)
    requires cr.book.Valid()
    modifies server, cr.book
    ensures cr.book.Valid() && OnlyDrops(old(cr.book.ledger), cr.book.ledger) && old(server.calls) <= server.calls
    ensures PruningDone(server.env, prune,
                        Span(old(server.history), |old(server.calls)|, server.history, |server.calls|),
                        cr.managed, keys, errors, server.calls)
    ensures cr.book.versions == old(cr.book.versions) -
              if prune then GonePruned(server.env, old(server.history), |old(server.calls)|, cr.managed, keys) else {}
  {
    assert OnlyDrops(cr.book.ledger, cr.book.ledger) && cr.book.versions - {} == cr.book.versions;
    hide *;
    ghost var h, n, calls := server.history, |server.calls|, server.calls;
    if !prune {
      NothingToPrune(server.env, Span(h, n, h, n), cr.managed, keys, server.calls);
      return 0;
    }
    errors := Prune(server, cr.book, cr.managed, keys);
    PruningIs(server.env, Span(h, n, server.history, |server.calls|), cr.managed, keys, errors, server.calls);
  }

  lemma PruningIs(env: nat -> Turn, s: Span, managed: seq<string>, keys: set<string>, errors: nat, calls: seq<Call>)
    requires PruneDone(env, s, managed, keys, errors, calls)
    ensures PruningDone(env, true, s, managed, keys, errors, calls)
  {
    hide Readable, Faults, PrunedAmid, PruneCallsAmid, PruneHistory, PruneCalls, OnlyStaleRemoved;
  }

  lemma NothingToPrune(env: nat -> Turn, s: Span, managed: seq<string>, keys: set<string>, calls: seq<Call>)
    requires s.after == s.before && s.from == s.to == |calls|
    ensures PruningDone(env, false, s, managed, keys, 0, calls)
  {
  }

  lemma PassThenReports(env: nat -> Turn, owner: Owner, rows: seq<Row>, prune: bool, s: Span, r: Span,
                        managed: seq<string>, keys: set<string>, errors: nat, t: PassTrace, templateSet: bool,
                        talk: Talk, v0: map<string, nat>, v1: map<string, nat>, v2: map<string, nat>,
                        ledger0: seq<Event>, ledger1: seq<Event>, ledger2: seq<Event>)
    requires PassResult(env, owner, rows, prune, s, managed, keys, errors, t) && r.before == s.after && r.from == s.to
    requires t.pruneSpan.after == r.before && t.pruneSpan.to == r.from
    requires v1 == v0 - GoneFor(env, prune, t, managed, keys) && OnlyDrops(ledger0, ledger1)
    requires Reporting(env, r, managed, keys, templateSet, talk, v1, v2, ledger1, ledger2)
    ensures var span := Span(s.before, s.from, r.after, r.to);
      && PassResult(env, owner, rows, prune, span, managed, keys, errors, t)
      && PassTold(env, span, prune, managed, keys, templateSet, talk, t, v0, v2, ledger0, ledger2)
      && RealReports(r.after, ledger0, ledger2)
      && (Calm(env, span.from, span.to) && templateSet && AllAccepted(talk.New()) ==>
            AllReported(r.after, managed, keys, v2))
  {
    hide PassCalm, PassWrites, Traced, Pruned, AllReported, Asked, KeysAsked, TraceKeys, TraceFailures, Told, Met,
         Found, GoneFor, AfterAnswers, AcceptedReports, ReportsIn;
    WrittenBeforeReports(s.before, s.after, r.after, Asked(owner, rows), managed, keys, prune);
    RealSince(r.after, ledger0, ledger1, ledger2);
    DropsReportNothing(ledger0, ledger1);
    if Calm(env, s.from, r.to) {
      assert Calm(env, s.from, s.to) && Calm(env, r.from, r.to) && Steady(env, r.from, r.to);
    }
  }

  lemma RealSince(h: History, ledger0: seq<Event>, ledger1: seq<Event>, ledger2: seq<Event>)
    requires OnlyDrops(ledger0, ledger1) && RealReports(h, ledger1, ledger2)
    ensures RealReports(h, ledger0, ledger2)
  {
    forall i | |ledger0| <= i < |ledger2| && ledger2[i].Reported?
      ensures RealReport(h, ledger2[i])
    {
      assert ledger1 <= ledger2 && forall j :: |ledger0| <= j < |ledger1| ==> ledger1[j].Dropped?;
    }
  }

  method FullPass(server: ApiServer, cr: Resource, db: Database, rows: seq<Row>, prune: bool, templateSet: bool)
    returns (errors: nat, ghost keys: set<string>, ghost t: PassTrace)
    requires cr.Valid()
    modifies server, cr, cr.book, db
    ensures cr.Valid() && RealReports(server.history, old(cr.book.ledger), cr.book.ledger)
    ensures cr.managed == Sorted(keys) && old(db.log) <= db.log
    ensures PassResult(server.env, cr.owner, rows, prune,
                       Span(old(server.history), |old(server.calls)|, server.history, |server.calls|),
                       old(cr.managed), keys, errors, t)
    ensures PassTold(server.env, Span(old(server.history), |old(server.calls)|, server.history, |server.calls|), prune,
                     old(cr.managed), keys, templateSet, Talk(db.accepts, old(db.log), db.log), t,
                     old(cr.book.versions), cr.book.versions, old(cr.book.ledger), cr.book.ledger)
    ensures old(server.calls) <= server.calls && PassLogged(server.calls, cr.owner, prune, old(cr.managed), t)
    ensures Calm(server.env, |old(server.calls)|, |server.calls|) && templateSet
            && AllAccepted(Since(old(db.log), db.log)) ==>
              AllReported(server.history, old(cr.managed), keys, cr.book.versions)
  {
    hide PassResult, PassLogged, PassTold, Reporting, AllReported, AllAccepted, RealReports, OnlyDrops, GoneFor;
    ghost var h0, n0, managed := server.history, |server.calls|, cr.managed;
    ghost var v0, ledger0, log0 := cr.book.versions, cr.book.ledger, db.log;
    var processed;
    processed, errors, t := ApplyAndPrune(server, cr, rows, prune);
    keys := processed;
    ghost var h1, n1, calls := server.history, |server.calls|, server.calls;
    ghost var ledger1, v1 := cr.book.ledger, cr.book.versions;
    ReportAndRemember(server, cr, db, templateSet, processed);
    PassLoggedLater(calls, server.calls, cr.owner, prune, managed, t);
    PassThenReports(server.env, cr.owner, rows, prune, Span(h0, n0, h1, n1),
                    Span(h1, n1, server.history, |server.calls|), managed, keys, errors, t, templateSet,
                    Talk(db.accepts, log0, db.log), v0, v1, cr.book.versions, ledger0, ledger1, cr.book.ledger);
  }
}
