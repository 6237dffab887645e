/**
 What passes achieve: the set of children asked for, convergence, and exactly which failures leave
 something behind.
 */
module PassLaws {
  import opened Text
  import opened Json
  import opened ObjectKeys
  import opened Manifests
  import opened Cluster
  import opened Rows
  import opened Children
  import opened Deletions
  import opened Pass
  import opened StatusLedger

  // ---- rows ----

  lemma RowStepTouchesOnlyItsObject(h: History, d: Desired, id: ObjectId)
    ensures h <= RowStep(h, d)
    ensures Current(RowStep(h, d), id) ==
            if RowStep(h, d) != h && id == d.id then Some(Stored(Written(h, d), |h| + 1)) else Current(h, id)
  {
    CurrentAfter(h, Entry(Operator, d.id, Put(Written(h, d))), id);
  }

  /** The row that has the last word about an object. */
  function LastAsk(ds: seq<Desired>, id: ObjectId): Option<Desired>
  {
    if ds == [] then None
    else if ds[|ds| - 1].id == id then Some(ds[|ds| - 1]) else LastAsk(ds[..|ds| - 1], id)
  }

  lemma {:induction false} AskedExactly(ds: seq<Desired>, id: ObjectId)
    ensures LastAsk(ds, id).Some? <==> exists d :: d in ds && d.id == id
    ensures LastAsk(ds, id).Some? ==> LastAsk(ds, id).value in ds && LastAsk(ds, id).value.id == id
  {
    if ds != [] {
      AskedExactly(ds[..|ds| - 1], id);
      assert ds == ds[..|ds| - 1] + [ds[|ds| - 1]];
    }
  }

  /** An object nobody asks for stays as it is; the history only grows. */
  lemma {:induction false} RowsLeaveOthersAlone(h: History, ds: seq<Desired>, id: ObjectId)
    ensures h <= RowsHistory(h, ds)
    ensures LastAsk(ds, id) == None ==> Current(RowsHistory(h, ds), id) == Current(h, id)
  {
    if ds != [] {
      RowsLeaveOthersAlone(h, ds[..|ds| - 1], id);
      RowStepTouchesOnlyItsObject(RowsHistory(h, ds[..|ds| - 1]), ds[|ds| - 1], id);
    }
  }

  /** After the rows an object exists if it did before or a row for it succeeded. */
  lemma {:induction false} RowsMakeExist(h: History, ds: seq<Desired>, id: ObjectId)
    requires id.Valid()
    ensures Current(RowsHistory(h, ds), id).Some? <==> Current(h, id).Some? || GetObjectKey(id) in RowsKeys(h, ds)
  {
    if ds != [] {
      var front, last := ds[..|ds| - 1], ds[|ds| - 1];
      RowsMakeExist(h, front, id);
      RowStepTouchesOnlyItsObject(RowsHistory(h, front), last, id);
      if last.id.Valid() && GetObjectKey(last.id) == GetObjectKey(id) {
        KeysAreInjective(last.id, id);
      }
    }
  }

  /** The row asks for an impossible name, or for an object whose record nobody can read. */
  predicate Bad(h: History, d: Desired)
  {
    !d.id.Valid() || (Live(h, d.id).Some? && UnreadableRecord(Live(h, d.id).value))
  }

  /** What the operator has written has a readable record, and it writes no object without one. */
  lemma {:induction false} UnreadableStays(h: History, ds: seq<Desired>, id: ObjectId)
    ensures var before, after := Live(h, id), Live(RowsHistory(h, ds), id);
            before.Some? && UnreadableRecord(before.value) <==> after.Some? && UnreadableRecord(after.value)
  {
    if ds != [] {
      var front, last := ds[..|ds| - 1], ds[|ds| - 1];
      UnreadableStays(h, front, id);
      RowStepTouchesOnlyItsObject(RowsHistory(h, front), last, id);
    }
  }

  /**
   Which rows of an undisturbed pass fail: exactly the bad ones, as the cluster stood when the pass
   began. The keys of all the others are kept.
   */
  lemma {:induction false} RowsFailExactly(h: History, ds: seq<Desired>)
    ensures RowFailures(h, ds) == 0 <==> AllGood(h, ds)
    ensures RowsKeys(h, ds) == GoodKeys(h, ds)
  {
    if ds != [] {
      var front, last := ds[..|ds| - 1], ds[|ds| - 1];
      RowsFailExactly(h, front);
      UnreadableStays(h, front, last.id);
      CheckFailsExactly(Live(RowsHistory(h, front), last.id), last.manifest);
      assert ds == front + [last];
      GoodSplit(h, front, last);
      hide Bad, Live, RowsHistory, ShouldUpdate;
    }
  }

  /** The keys of the rows that are not bad. */
  ghost function GoodKeys(h: History, ds: seq<Desired>): set<string>
  {
    set d | d in ds && !Bad(h, d) :: GetObjectKey(d.id)
  }

  ghost predicate AllGood(h: History, ds: seq<Desired>)
  {
    forall d :: d in ds ==> !Bad(h, d)
  }

  lemma GoodSplit(h: History, front: seq<Desired>, last: Desired)
    ensures GoodKeys(h, front + [last]) == GoodKeys(h, front) + if Bad(h, last) then {} else {GetObjectKey(last.id)}
    ensures AllGood(h, front + [last]) <==> AllGood(h, front) && !Bad(h, last)
  {
    hide Bad;
    assert forall d :: d in front + [last] <==> d in front || d == last;
  }

  /**
   A row that is not bad succeeds: an object that was absent, or that had no record yet, is written and
   holds the desired content afterwards; any other exists as well.
   */
  lemma GoodRowSucceeds(h: History, d: Desired)
    requires !Bad(h, d)
    ensures !RowFails(h, d) && Live(RowStep(h, d), d.id).Some?
    ensures Live(h, d.id) == None || LAST_APPLIED !in Live(h, d.id).value.annotations ==>
              RowStep(h, d) != h && HoldsContent(Live(RowStep(h, d), d.id).value, d.manifest)
  {
    CheckFailsExactly(Live(h, d.id), d.manifest);
    RowStepTouchesOnlyItsObject(h, d, d.id);
    WrittenHolds(h, d);
  }

  /** The live object has the content its own record tells, other annotations aside. */
  predicate Faithful(m: Manifest)
  {
    LAST_APPLIED in m.annotations && m.annotations[LAST_APPLIED].Recorded? ==>
      var c := m.annotations[LAST_APPLIED].config;
      && SameContent(c.spec, m.spec) && SameContent(c.data, m.data) && c.labels == m.labels
      && forall k :: k in c.annotations ==> k in m.annotations && m.annotations[k] == c.annotations[k]
  }

  /** The live object has the managed content of a desired one; an empty desired annotation is empty or absent. */
  predicate HoldsContent(m: Manifest, desired: Manifest)
  {
    && SameContent(m.spec, desired.spec) && SameContent(m.data, desired.data) && m.labels == desired.labels
    && forall k :: k in desired.annotations && k != LAST_APPLIED ==>
         if k in m.annotations then m.annotations[k] == desired.annotations[k] else desired.annotations[k] == Plain("")
  }

  lemma ContentTransitive(a: Json, b: Json, c: Json)
    requires SameContent(a, b) && SameContent(a, c)
    ensures SameContent(b, c)
  {
    CanonDecidesContent(a, b);
    CanonDecidesContent(a, c);
    CanonDecidesContent(b, c);
  }

  lemma ContentReflexive(a: Json)
    ensures SameContent(a, a)
  {
    CanonDecidesContent(a, a);
  }

  /** What is written is faithful and holds the desired content. */
  lemma WrittenHolds(h: History, d: Desired)
    ensures Faithful(Written(h, d)) && HoldsContent(Written(h, d), d.manifest)
  {
    ContentReflexive(d.manifest.spec);
    ContentReflexive(d.manifest.data);
  }

  /** An up-to-date object holds the desired content if it is faithful: only drift can hide a difference. */
  lemma UpToDateHolds(m: Manifest, desired: Manifest)
    requires ShouldUpdate(Some(m), desired) == UpToDate && Faithful(m)
    ensures HoldsContent(m, desired)
  {
    UpToDateExactly(m, desired);
    var c := m.annotations[LAST_APPLIED].config;
    ContentTransitive(c.spec, m.spec, desired.spec);
    ContentTransitive(c.data, m.data, desired.data);
    assert forall k :: k in desired.annotations && k != LAST_APPLIED ==> k in ConfigOf(desired).annotations;
  }

  /** A row that succeeds leaves the desired content, if and only if it does not meet drift its check cannot see. */
  lemma RowHoldsExactly(h: History, d: Desired)
    requires !RowFails(h, d)
    ensures Live(RowStep(h, d), d.id).Some?
    ensures HoldsContent(Live(RowStep(h, d), d.id).value, d.manifest) <==>
            (Live(h, d.id).Some? && ShouldUpdate(Live(h, d.id), d.manifest) == UpToDate ==>
               HoldsContent(Live(h, d.id).value, d.manifest))
  {
    RowStepTouchesOnlyItsObject(h, d, d.id);
    WrittenHolds(h, d);
  }

  /** Every row that asks for `id` takes the object `m` to be up to date. */
  ghost predicate AllUpToDate(ds: seq<Desired>, id: ObjectId, m: Manifest)
  {
    forall d :: d in ds && d.id == id ==> ShouldUpdate(Some(m), d.manifest) == UpToDate
  }

  lemma AllUpToDateOneMore(ds: seq<Desired>, d: Desired, id: ObjectId, m: Manifest)
    ensures AllUpToDate(ds + [d], id, m) <==>
            AllUpToDate(ds, id, m) && (d.id == id ==> ShouldUpdate(Some(m), d.manifest) == UpToDate)
  {
    assert forall e :: e in ds + [d] <==> e in ds || e == d;
  }

  /** The rows leave the object alone: none asks for it, or all of them take it to be up to date. */
  ghost predicate LeftAlone(h: History, ds: seq<Desired>, id: ObjectId)
  {
    LastAsk(ds, id) == None || (Live(h, id).Some? && AllUpToDate(ds, id, Live(h, id).value))
  }

  /**
   An object that the rows do not leave alone ends up faithful, with the content of the last row that
   asked for it.
   */
  lemma {:induction false} LeftAloneOrHolding(h: History, ds: seq<Desired>, id: ObjectId)
    requires RowFailures(h, ds) == 0
    ensures var m := Live(RowsHistory(h, ds), id);
            if LeftAlone(h, ds, id) then m == Live(h, id)
            else m.Some? && Faithful(m.value) && HoldsContent(m.value, LastAsk(ds, id).value.manifest)
  {
    if ds != [] {
      var front, last := ds[..|ds| - 1], ds[|ds| - 1];
      LeftAloneOrHolding(h, front, id);
      AskedExactly(front, id);
      assert ds == front + [last];
      if Live(h, id).Some? { AllUpToDateOneMore(front, last, id, Live(h, id).value); }
      RowStepTouchesOnlyItsObject(RowsHistory(h, front), last, id);
      if last.id == id {
        RowLeavesAloneOrHolds(RowsHistory(h, front), last);
      }
    }
  }

  lemma RowLeavesAloneOrHolds(h: History, d: Desired)
    requires !RowFails(h, d)
    ensures var m := Live(RowStep(h, d), d.id);
            if ShouldUpdate(Live(h, d.id), d.manifest) == UpToDate
            then m == Live(h, d.id) && m.Some? && (Faithful(m.value) ==> HoldsContent(m.value, d.manifest))
            else m.Some? && Faithful(m.value) && HoldsContent(m.value, d.manifest)
  {
    RowStepTouchesOnlyItsObject(h, d, d.id);
    WrittenHolds(h, d);
    if Live(h, d.id).Some? && ShouldUpdate(Live(h, d.id), d.manifest) == UpToDate && Faithful(Live(h, d.id).value) {
      UpToDateHolds(Live(h, d.id).value, d.manifest);
    }
  }

  /** The object has drifted from what the last row asks for, and its record hides that from every row. */
  ghost predicate DriftHidden(h: History, ds: seq<Desired>, id: ObjectId)
  {
    && Live(h, id).Some? && LastAsk(ds, id).Some? && AllUpToDate(ds, id, Live(h, id).value)
    && !HoldsContent(Live(h, id).value, LastAsk(ds, id).value.manifest)
  }

  /**
   The rows leave, under an asked name, the content of the last row that asked for it, if and only if no
   drift is hidden.
   */
  lemma RowsHoldExactly(h: History, ds: seq<Desired>, id: ObjectId)
    requires RowFailures(h, ds) == 0 && LastAsk(ds, id).Some?
    ensures var m := Live(RowsHistory(h, ds), id);
            m.Some? && (HoldsContent(m.value, LastAsk(ds, id).value.manifest) <==> !DriftHidden(h, ds, id))
  {
    LeftAloneOrHolding(h, ds, id);
  }

  ghost predicate FaithfulCluster(h: History, ds: seq<Desired>)
  {
    forall d :: d in ds && Live(h, d.id).Some? ==> Faithful(Live(h, d.id).value)
  }

  /** Where every object is as its record tells, no drift is hidden. */
  lemma FaithfulHidesNothing(h: History, ds: seq<Desired>, id: ObjectId)
    requires FaithfulCluster(h, ds)
    ensures !DriftHidden(h, ds, id)
  {
    AskedExactly(ds, id);
    if LastAsk(ds, id).Some? && Live(h, id).Some? && AllUpToDate(ds, id, Live(h, id).value) {
      UpToDateHolds(Live(h, id).value, LastAsk(ds, id).value.manifest);
    }
  }

  /** Whatever someone else puts into the spec of a created object, the row that created it leaves it there. */
  lemma DriftStays(h: History, d: Desired, other: Json)
    requires !SameContent(other, d.manifest.spec)
    requires Live(h, d.id) == Some(WithRecord(d.manifest).(spec := other))
    ensures DriftHidden(h, [d], d.id) && RowStep(h, d) == h
  {
    var m := WithRecord(d.manifest).(spec := other);
    ConvergesAfterCreate(d.manifest);
    DriftIsInvisible(m, WithRecord(d.manifest), d.manifest);
  }

  lemma {:induction false} NoFailureMeansAllKeys(h: History, ds: seq<Desired>)
    requires RowFailures(h, ds) == 0
    ensures RowsKeys(h, ds) == KeysAsked(ds)
    ensures forall d :: d in ds ==> d.id.Valid()
  {
    if ds != [] {
      var front, last := ds[..|ds| - 1], ds[|ds| - 1];
      NoFailureMeansAllKeys(h, front);
      KeysAskedSplit(front, last);
      assert ds == front + [last];
    }
  }

  lemma KeysAskedSplit(front: seq<Desired>, last: Desired)
    ensures KeysAsked(front + [last]) == KeysAsked(front) + {GetObjectKey(last.id)}
    ensures forall d :: d in front + [last] <==> d in front || d == last
  {
    assert forall d :: d in front + [last] <==> d in front || d == last;
  }

  // ---- the whole pass ----

  /** Managed and stale, and both a read of it and a deletion of it are served. */
  predicate PrunedAway(h: History, env: nat -> Turn, n: nat, managed: seq<string>, keys: set<string>, id: ObjectId)
  {
    var ids := Readable(ReadForDeletion, managed);
    && GetObjectKey(id) in managed && GetObjectKey(id) !in keys
    && AnyServed(env, n, ids, id) && AnyServed(env, n + |ids|, StaleAmong(Served(h, env, n, ids), keys), id)
  }

  /** With faults, pruning removes a stale child if and only if a read of it and a deletion of it were both served. */
  lemma PruneExactly(h: History, env: nat -> Turn, n: nat, managed: seq<string>, keys: set<string>, id: ObjectId)
    requires id.Valid()
    ensures Current(PruneHistory(h, env, n, Readable(ReadForDeletion, managed), keys), id) ==
            if PrunedAway(h, env, n, managed, keys, id) then None else Current(h, id)
  {
    hide Readable, Served, StaleAmong, Deleted, Current, AnyServed, PrunedAway;
    var ids := Readable(ReadForDeletion, managed);
    StaleIsServed(h, env, n, managed, keys, id);
    DeletedExactly(h, env, n + |ids|, StaleAmong(Served(h, env, n, ids), keys), id);
  }

  lemma AnyServedIsListed(env: nat -> Turn, n: nat, ids: seq<ObjectId>, id: ObjectId)
    requires AnyServed(env, n, ids, id)
    ensures id in ids
  {
  }

  lemma StaleIsServed(h: History, env: nat -> Turn, n: nat, managed: seq<string>, keys: set<string>, id: ObjectId)
    ensures var ids := Readable(ReadForDeletion, managed);
            AnyServed(env, n + |ids|, StaleAmong(Served(h, env, n, ids), keys), id) <==>
            PrunedAway(h, env, n, managed, keys, id)
  {
    hide Readable, Served, StaleAmong, Current;
    var ids := Readable(ReadForDeletion, managed);
    var stale := StaleAmong(Served(h, env, n, ids), keys);
    if AnyServed(env, n + |ids|, stale, id) {
      AnyServedIsListed(env, n + |ids|, stale, id);
      StaleMeans(h, env, n, managed, ids, Served(h, env, n, ids), keys, id);
    }
  }

  lemma StaleMeans(h: History, env: nat -> Turn, n: nat, managed: seq<string>, ids: seq<ObjectId>, served: seq<Child>,
                   keys: set<string>, id: ObjectId)
    requires ids == Readable(ReadForDeletion, managed) && served == Served(h, env, n, ids)
    requires id in StaleAmong(served, keys)
    ensures GetObjectKey(id) in managed && GetObjectKey(id) !in keys && AnyServed(env, n, ids, id)
  {
    StaleMembers(served, keys, id);
    ServedMembers(h, env, n, ids, id);
    AnyServedIsListed(env, n, ids, id);
    ReadableMembers(managed, id);
  }

  /**
   An undisturbed pass, object by object: what is managed but was not successfully rendered goes,
   a failing row's object included; everything else is as the rows left it.
   */
  lemma PassExactly(h: History, ds: seq<Desired>, managed: seq<string>, prune: bool, id: ObjectId)
    requires id.Valid()
    ensures Current(PassHistory(h, ds, managed, prune), id) ==
            if prune && GetObjectKey(id) in managed && GetObjectKey(id) !in RowsKeys(h, ds) then None
            else Current(RowsHistory(h, ds), id)
  {
    if prune {
      CalmPruneExactly(RowsHistory(h, ds), managed, RowsKeys(h, ds), id);
    }
  }

  lemma CalmPruneExactly(h: History, managed: seq<string>, keys: set<string>, id: ObjectId)
    requires id.Valid()
    ensures Current(PruneHistory(h, CALM, 0, Readable(ReadForDeletion, managed), keys), id) ==
            if GetObjectKey(id) in managed && GetObjectKey(id) !in keys then None else Current(h, id)
  {
    var ids := Readable(ReadForDeletion, managed);
    PruneExactly(h, CALM, 0, managed, keys, id);
    ReadableMembers(managed, id);
    CalmServesAll(0, ids, id);
    var served := Served(h, CALM, 0, ids);
    StaleMembers(served, keys, id);
    ServedMembers(h, CALM, 0, ids, id);
    CalmServesAll(0 + |ids|, StaleAmong(served, keys), id);
  }

  lemma CalmServesAll(n: nat, ids: seq<ObjectId>, id: ObjectId)
    ensures AnyServed(CALM, n, ids, id) <==> id in ids
  {
    if id in ids {
      var j :| 0 <= j < |ids| && ids[j] == id;
      assert CALM(n + j).fault == None;
    }
  }

  /**
   The pass as a set operation, when nothing fails: every managed object not asked for is gone, every
   other one not asked for is unchanged, and an asked one holds the content of the last row that asked
   for it, if and only if no drift of it is hidden.
   */
  lemma PassRefinesSetSpec(h: History, ds: seq<Desired>, managed: seq<string>, id: ObjectId)
    requires id.Valid() && RowFailures(h, ds) == 0
    ensures var after := PassHistory(h, ds, managed, true);
            match LastAsk(ds, id)
            case Some(d) => Live(after, id).Some? &&
                            (HoldsContent(Live(after, id).value, d.manifest) <==> !DriftHidden(h, ds, id))
            case None => Current(after, id) == if GetObjectKey(id) in managed then None else Current(h, id)
  {
    PassExactly(h, ds, managed, true, id);
    NoFailureMeansAllKeys(h, ds);
    AskedExactly(ds, id);
    if LastAsk(ds, id).Some? { RowsHoldExactly(h, ds, id); }
    RowsLeaveOthersAlone(h, ds, id);
    if GetObjectKey(id) in KeysAsked(ds) {
      var d :| d in ds && GetObjectKey(d.id) == GetObjectKey(id);
      KeysAreInjective(d.id, id);
    }
  }

  /**
   What is applied carries the owner's name, and otherwise the content the row rendered, under the name
   it rendered.
   */
  lemma {:induction false} AskedCarryTheOwner(owner: Owner, rows: seq<Row>, d: Desired)
    requires d in Asked(owner, rows)
    ensures MANAGED_BY in d.manifest.labels && d.manifest.labels[MANAGED_BY] == owner.name
    ensures exists row :: row in rows && row.Rendered? && Renders(owner, row, d)
  {
    var front, last := rows[..|rows| - 1], rows[|rows| - 1];
    assert rows == front + [last];
    if Prepare(owner, last) == Some(d) {
      assert last in rows && Renders(owner, last, d);
    } else {
      AskedCarryTheOwner(owner, front, d);
      var row :| row in front && row.Rendered? && Renders(owner, row, d);
      assert row in rows;
    }
  }

  /** `d` is what the row rendered, up to the default namespace and the managed-by label. */
  predicate Renders(owner: Owner, row: Row, d: Desired)
    requires row.Rendered?
  {
    && d.id.group == row.id.group && d.id.version == row.id.version
    && d.id.kind == row.id.kind && d.id.name == row.id.name
    && d.id.namespace ==
       (if row.scope == Namespaced && row.id.namespace == "" then owner.namespace else row.id.namespace)
    && d.manifest.(labels := map[]) == row.manifest.(labels := map[])
    && d.manifest.labels - {MANAGED_BY} == row.manifest.labels - {MANAGED_BY}
    // An object in the owner's namespace is refused when another controller owns it.
    && (row.taken ==> row.scope == ClusterWide || d.id.namespace != owner.namespace)
  }

  /**
   Which rows name an object to apply, and which one: all that render, but for those of another
   controller's objects in the owner's namespace; and what is applied is the rendered object, in its
   default namespace, with the owner's label.
   */
  lemma PreparedExactly(owner: Owner, row: Row, d: Desired)
    ensures Prepare(owner, row) == Some(d) <==>
            row.Rendered? && Renders(owner, row, d) && MANAGED_BY in d.manifest.labels &&
            d.manifest.labels[MANAGED_BY] == owner.name
    ensures Prepare(owner, row) == None <==>
            row.Rendered? ==>
              && row.scope == Namespaced && row.taken
              && (row.id.namespace == "" || row.id.namespace == owner.namespace)
  {
    if row.Rendered? && Renders(owner, row, d) && MANAGED_BY in d.manifest.labels &&
       d.manifest.labels[MANAGED_BY] == owner.name {
      LabelledIs(row.manifest.labels, d.manifest.labels, owner.name);
      var m := d.manifest.(labels := map[]);
      assert d.manifest == m.(labels := d.manifest.labels);
    }
  }

  lemma LabelledIs(rendered: map<string, string>, labels: map<string, string>, name: string)
    requires labels - {MANAGED_BY} == rendered - {MANAGED_BY} && MANAGED_BY in labels && labels[MANAGED_BY] == name
    ensures labels == rendered[MANAGED_BY := name]
  {
    forall k | k in labels && k != MANAGED_BY
      ensures k in rendered && labels[k] == rendered[k]
    {
      assert k in labels - {MANAGED_BY};
    }
    forall k | k in rendered && k != MANAGED_BY
      ensures k in labels
    {
      assert k in rendered - {MANAGED_BY};
    }
  }

  /**
   After a pass in which nothing fails, every child that no hidden drift has taken elsewhere carries the
   owner's name.
   */
  lemma ChildrenCarryTheOwner(h: History, owner: Owner, rows: seq<Row>, managed: seq<string>, id: ObjectId)
    requires var ds := Asked(owner, rows); id.Valid() && RowFailures(h, ds) == 0 && !DriftHidden(h, ds, id)
    requires GetObjectKey(id) in RowsKeys(h, Asked(owner, rows))
    ensures var m := Live(PassHistory(h, Asked(owner, rows), managed, true), id);
            m.Some? && MANAGED_BY in m.value.labels && m.value.labels[MANAGED_BY] == owner.name
  {
    var ds := Asked(owner, rows);
    PassRefinesSetSpec(h, ds, managed, id);
    AskedExactly(ds, id);
    KeysWereAsked(h, ds);
    var d :| d in ds && GetObjectKey(d.id) == GetObjectKey(id);
    NoFailureMeansAllKeys(h, ds);
    KeysAreInjective(d.id, id);
    AskedCarryTheOwner(owner, rows, LastAsk(ds, id).value);
  }

  // ---- runs ----

  datatype World = World(history: History, managed: seq<string>)

  ghost function AfterPass(w: World, ds: seq<Desired>): World
  {
    World(PassHistory(w.history, ds, w.managed, true), Sorted(RowsKeys(w.history, ds)))
  }

  /** Managed objects are alive; what else is alive has not changed since the start. */
  ghost predicate OwnsItsChildren(start: World, w: World)
  {
    forall id: ObjectId :: id.Valid() ==>
      && (GetObjectKey(id) in w.managed ==> Current(w.history, id).Some?)
      && (GetObjectKey(id) !in w.managed && Current(w.history, id).Some? ==>
            Current(w.history, id) == Current(start.history, id))
  }

  lemma PassKeepsOwnership(start: World, w: World, ds: seq<Desired>)
    requires OwnsItsChildren(start, w)
    ensures OwnsItsChildren(start, AfterPass(w, ds))
  {
    var after := AfterPass(w, ds);
    forall id: ObjectId | id.Valid()
      ensures GetObjectKey(id) in after.managed ==> Current(after.history, id).Some?
      ensures GetObjectKey(id) !in after.managed && Current(after.history, id).Some? ==>
                Current(after.history, id) == Current(start.history, id)
    {
      PassExactly(w.history, ds, w.managed, true, id);
      RowsMakeExist(w.history, ds, id);
      if GetObjectKey(id) !in after.managed && Current(after.history, id).Some? {
        assert GetObjectKey(id) !in w.managed;
        FailedRowsChangeNothing(w.history, ds, id);
      }
    }
  }

  lemma {:induction false} FailedRowsChangeNothing(h: History, ds: seq<Desired>, id: ObjectId)
    requires id.Valid() && GetObjectKey(id) !in RowsKeys(h, ds)
    ensures Current(RowsHistory(h, ds), id) == Current(h, id)
  {
    if ds != [] {
      var front, last := ds[..|ds| - 1], ds[|ds| - 1];
      FailedRowsChangeNothing(h, front, id);
      RowStepTouchesOnlyItsObject(RowsHistory(h, front), last, id);
    }
  }

  lemma {:induction false} KeysWereAsked(h: History, ds: seq<Desired>)
    ensures RowsKeys(h, ds) <= KeysAsked(ds)
  {
    if ds != [] {
      KeysWereAsked(h, ds[..|ds| - 1]);
      assert ds == ds[..|ds| - 1] + [ds[|ds| - 1]];
    }
  }

  // ---- convergence ----

  ghost predicate DistinctIds(ds: seq<Desired>)
  {
    forall i, j :: 0 <= i < j < |ds| ==> ds[i].id != ds[j].id
  }

  /** Whether a row, met with this live object, leaves an object it will not write again. */
  predicate Converges(live: Option<Manifest>, desired: Manifest)
  {
    live == None || ShouldUpdate(live, desired) == UpToDate || Settled(live.value, desired)
  }

  lemma RowConvergesExactly(h: History, d: Desired)
    requires !RowFails(h, d)
    ensures ShouldUpdate(Live(RowStep(h, d), d.id), d.manifest) ==
            if Converges(Live(h, d.id), d.manifest) then UpToDate else UpdateNeeded
  {
    RowStepTouchesOnlyItsObject(h, d, d.id);
    ConvergesAfterCreate(d.manifest);
    if Live(h, d.id).Some? {
      ConvergesAfterUpdateExactly(Live(h, d.id).value, d.manifest);
    }
  }

  /** With distinct names each row meets the object the pass started with, and its own result is what remains. */
  lemma {:induction false} DistinctRowsAreIndependent(h: History, ds: seq<Desired>, i: nat)
    requires DistinctIds(ds) && i < |ds| && RowFailures(h, ds) == 0
    ensures !RowFails(h, ds[i])
    ensures ShouldUpdate(Live(RowsHistory(h, ds), ds[i].id), ds[i].manifest) ==
            if Converges(Live(h, ds[i].id), ds[i].manifest) then UpToDate else UpdateNeeded
  {
    var front, last := ds[..|ds| - 1], ds[|ds| - 1];
    AskedExactly(front, last.id);
    RowsLeaveOthersAlone(h, front, last.id);
    if i == |ds| - 1 {
      RowConvergesExactly(RowsHistory(h, front), last);
    } else {
      DistinctRowsAreIndependent(h, front, i);
      RowStepTouchesOnlyItsObject(RowsHistory(h, front), last, ds[i].id);
    }
  }

  ghost predicate NothingToWrite(h: History, ds: seq<Desired>)
  {
    forall d :: d in ds ==> d.id.Valid() && ShouldUpdate(Live(h, d.id), d.manifest) == UpToDate
  }

  /** Rows write nothing if and only if every object is up to date. */
  lemma {:induction false} QuietRowsExactly(h: History, ds: seq<Desired>)
    requires forall d :: d in ds ==> d.id.Valid() && ShouldUpdate(Live(h, d.id), d.manifest) != CheckFailed
    ensures RowsHistory(h, ds) == h <==> NothingToWrite(h, ds)
    ensures NothingToWrite(h, ds) ==> RowsKeys(h, ds) == KeysAsked(ds)
  {
    if ds != [] {
      var front, last := ds[..|ds| - 1], ds[|ds| - 1];
      assert ds == front + [last];
      QuietRowsExactly(h, front);
      RowsLeaveOthersAlone(h, front, last.id);
      RowStepTouchesOnlyItsObject(RowsHistory(h, front), last, last.id);
      assert NothingToWrite(h, ds) <==>
             NothingToWrite(h, front) && ShouldUpdate(Live(h, last.id), last.manifest) == UpToDate;
      if RowsHistory(h, front) != h {
        assert |RowsHistory(h, front)| > |h|;
      }
    }
  }

  lemma {:induction false} DeletionsGrow(h: History, env: nat -> Turn, n: nat, ids: seq<ObjectId>)
    ensures h <= Deleted(h, env, n, ids)
    decreases |ids|
  {
    if ids != [] {
      DeletionsGrow(DeleteStep(h, env(n), ids[0]), env, n + 1, ids[1..]);
    }
  }

  lemma {:induction false} NothingStale(children: seq<Child>, keys: set<string>)
    requires KeysOf(children) <= keys
    ensures StaleAmong(children, keys) == []
  {
    if children != [] {
      var front := children[..|children| - 1];
      assert KeysOf(front) <= KeysOf(children);
      assert GetObjectKey(children[|children| - 1].id) in KeysOf(children);
      NothingStale(front, keys);
    }
  }

  lemma FirstPassLeaves(h: History, ds: seq<Desired>, managed: seq<string>, d: Desired)
    requires DistinctIds(ds) && RowFailures(h, ds) == 0 && d in ds
    ensures d.id.Valid()
    ensures ShouldUpdate(Live(PassHistory(h, ds, managed, true), d.id), d.manifest) ==
            if Converges(Live(h, d.id), d.manifest) then UpToDate else UpdateNeeded
  {
    NoFailureMeansAllKeys(h, ds);
    var i :| 0 <= i < |ds| && ds[i] == d;
    DistinctRowsAreIndependent(h, ds, i);
    PassExactly(h, ds, managed, true, d.id);
  }

  /**
   A pass over rows none of which fails, with only asked keys managed, writes nothing exactly when all
   is up to date.
   */
  lemma QuietPassExactly(h: History, ds: seq<Desired>, managed: seq<string>)
    requires forall d :: d in ds ==> d.id.Valid() && ShouldUpdate(Live(h, d.id), d.manifest) != CheckFailed
    requires forall k :: k in managed ==> k in KeysAsked(ds)
    ensures PassHistory(h, ds, managed, true) == h <==> NothingToWrite(h, ds)
  {
    QuietRowsExactly(h, ds);
    var again, keys := RowsHistory(h, ds), RowsKeys(h, ds);
    var ids := Readable(ReadForDeletion, managed);
    var served := Served(again, CALM, 0, ids);
    DeletionsGrow(again, CALM, 0 + |ids|, StaleAmong(served, keys));
    RowsOnlyGrow(h, ds);
    if NothingToWrite(h, ds) {
      ServedKeys(again, CALM, 0, managed);
      NothingStale(served, keys);
    }
  }

  /**
   A second pass over unchanged rows with distinct names writes nothing at all, neither children nor
   deletions, if and only if each object was absent, up to date or settled when the first pass met it.
   */
  lemma SecondPassIsQuietExactly(h: History, ds: seq<Desired>, managed: seq<string>)
    requires DistinctIds(ds) && RowFailures(h, ds) == 0
    ensures var first := PassHistory(h, ds, managed, true);
            PassHistory(first, ds, Sorted(RowsKeys(h, ds)), true) == first <==>
            forall d :: d in ds ==> Converges(Live(h, d.id), d.manifest)
  {
    var first := PassHistory(h, ds, managed, true);
    NoFailureMeansAllKeys(h, ds);
    forall d | d in ds
      ensures d.id.Valid()
      ensures ShouldUpdate(Live(first, d.id), d.manifest) ==
              if Converges(Live(h, d.id), d.manifest) then UpToDate else UpdateNeeded
    {
      FirstPassLeaves(h, ds, managed, d);
    }
    QuietPassExactly(first, ds, Sorted(RowsKeys(h, ds)));
  }

  lemma {:induction false} RowsOnlyGrow(h: History, ds: seq<Desired>)
    ensures h <= RowsHistory(h, ds)
  {
    if ds != [] {
      RowsOnlyGrow(h, ds[..|ds| - 1]);
    }
  }

  lemma ServedKeys(h: History, env: nat -> Turn, n: nat, managed: seq<string>)
    ensures KeysOf(Served(h, env, n, Readable(ReadForDeletion, managed))) <= set k | k in managed
  {
    var served := Served(h, env, n, Readable(ReadForDeletion, managed));
    forall k | k in KeysOf(served)
      ensures k in managed
    {
      var c :| c in served && GetObjectKey(c.id) == k;
      ServedMembers(h, env, n, Readable(ReadForDeletion, managed), c.id);
      ReadableMembers(managed, c.id);
      var ids := Readable(ReadForDeletion, managed);
      var j :| 0 <= j < |ids| && ids[j] == c.id;
    }
  }
}
