/** One query row after another: rendered, prepared, compared with the cluster, created or updated. */
module Rows {
  import opened Text
  import opened ObjectKeys
  import opened Manifests
  import opened Cluster
  import opened ConflictRetry

  const MANAGED_BY := "konnektr.io/managed-by"

  datatype Owner = Owner(name: string, namespace: string)
  datatype Scope = Namespaced | ClusterWide

  /**
   What becomes of a row: the template or its output fails, the kind is unknown to the REST mapper,
   or there is an object. `taken` tells that another controller already owns it.
   */
  datatype AnyRow = Unrendered | Unmapped | Rendered(id: ObjectId, scope: Scope, manifest: Manifest, taken: bool)

  /** A cluster-wide object that is rendered with a namespace all the same is not part of the model. */
  type Row = r: AnyRow | r.Rendered? && r.scope == ClusterWide ==> r.id.namespace == "" witness Unrendered

  datatype Desired = Desired(id: ObjectId, manifest: Manifest)

  /** The object to apply: default namespace and managed-by label set, owner reference possible. */
  function Prepare(owner: Owner, row: Row): Option<Desired>
  {
    if !row.Rendered? then None
    else
      var id :=
        if row.scope == Namespaced && row.id.namespace == "" then row.id.(namespace := owner.namespace) else row.id;
      if row.scope == Namespaced && id.namespace == owner.namespace && row.taken then None
      else Some(Desired(id, row.manifest.(labels := row.manifest.labels[MANAGED_BY := owner.name])))
  }

  function Live(h: History, id: ObjectId): Option<Manifest>
  {
    match Current(h, id)
    case None => None
    case Some(s) => Some(s.manifest)
  }

  /** What a row does to an undisturbed cluster. */
  function Written(h: History, d: Desired): Manifest
  {
    match Live(h, d.id)
    case None => WithRecord(d.manifest)
    case Some(m) => Updated(m, d.manifest)
  }

  function RowStep(h: History, d: Desired): History
  {
    if d.id.Valid() && ShouldUpdate(Live(h, d.id), d.manifest) == UpdateNeeded
    then h + [Entry(Operator, d.id, Put(Written(h, d)))]
    else h
  }

  predicate RowFails(h: History, d: Desired)
  {
    !d.id.Valid() || ShouldUpdate(Live(h, d.id), d.manifest) == CheckFailed
  }

  /** The last entry is the operator's only one, and applies `d` to the object as it stood then. */
  predicate AppliedOnce(before: History, after: History, d: Desired)
  {
    && before <= after && |before| < |after| && Quiet(after, |before|, |after| - 1)
    && var front := after[..|after| - 1];
       after[|after| - 1] == Entry(Operator, d.id, Put(ServerApplied(Current(front, d.id), WithRecord(d.manifest))))
       || LandedOnCurrent(after, d.id, d.manifest)
  }

  /** Write number `i` puts `d` onto the object exactly as it stood then. */
  predicate Applies(h: History, i: nat, d: Desired)
    requires i < |h|
  {
    var before := Current(h[..i], d.id);
    && h[i].id == d.id
    && ( || h[i].change == Put(ServerApplied(before, WithRecord(d.manifest)))
         || (before.Some? && h[i].change == Put(Updated(before.value.manifest, d.manifest))))
  }

  ghost predicate AppliesOne(h: History, i: nat, ds: seq<Desired>)
    requires i < |h|
  {
    exists d :: d in ds && Applies(h, i, d)
  }

  lemma AppliesOneLater(h: History, h': History, i: nat, ds: seq<Desired>, ds': seq<Desired>)
    requires i < |h| && h <= h' && AppliesOne(h, i, ds) && forall d :: d in ds ==> d in ds'
    ensures AppliesOne(h', i, ds')
  {
    var d :| d in ds && Applies(h, i, d);
    assert h'[..i] == h[..i];
    assert Applies(h', i, d);
  }

  lemma AppliedOnceApplies(before: History, after: History, d: Desired)
    requires AppliedOnce(before, after, d)
    ensures Applies(after, |after| - 1, d)
  {
  }

  /** Whoever owns it, an annotation or an unmanaged field that `d` does not name survives its application. */
  lemma ApplyingKeepsTheRest(h: History, i: nat, d: Desired)
    requires i < |h| && Applies(h, i, d) && Current(h[..i], d.id).Some?
    ensures var before, after := Current(h[..i], d.id).value.manifest, h[i].change.manifest;
      && (forall k :: k in before.annotations && k !in d.manifest.annotations && k != LAST_APPLIED ==>
            k in after.annotations && after.annotations[k] == before.annotations[k])
      && (forall k :: k in before.rest && k !in d.manifest.rest ==>
            k in after.rest && after.rest[k] == before.rest[k])
  {
  }

  /** `key` is the key of the valid object that the row asks for. */
  predicate Keyed(owner: Owner, row: Row, key: string)
  {
    match Prepare(owner, row)
    case None => false
    case Some(d) => d.id.Valid() && key == GetObjectKey(d.id)
  }

  /** Some version of the object, current or read late, was up to date. */
  ghost predicate SeenUpToDate(h: History, d: Desired)
  {
    exists s: Stored :: IsVersion(h, d.id, s) && ShouldUpdate(Some(s.manifest), d.manifest) == UpToDate
  }

  /** What a row that succeeds has done. */
  ghost predicate Succeeded(h: History, h1: History, d: Desired)
  {
    AppliedOnce(h, h1, d) || (OthersOnly(h, h1) && SeenUpToDate(h1, d))
  }

  /** What an undisturbed row does. */
  ghost predicate RowDone(owner: Owner, row: Row, h: History, h1: History, key: Option<string>)
  {
    match Prepare(owner, row)
    case None => key == None && h1 == h
    case Some(d) => (key == None <==> RowFails(h, d)) && h1 == RowStep(h, d)
  }

  /** The work on one row: from which history and call to which, and the key it succeeded with, if it did. */
  datatype RowRun = RowRun(row: Row, span: Span, key: Option<string>)

  /** What the check makes of what it reads. */
  function VerdictOn(reply: Reply<Stored>, d: Desired): Verdict
  {
    match reply
    case Err(NotFound) => ShouldUpdate(None, d.manifest)
    case Err(_) => CheckFailed
    case Ok(s) => ShouldUpdate(Some(s.manifest), d.manifest)
  }

  /**
   How a write ends, decided by the surroundings alone: an absent object is applied, an existing one
   replaced with retries, one that cannot be read left alone.
   */
  ghost predicate WriteEnds(env: nat -> Turn, n: nat, h: History, d: Desired, h': History, to: nat, ok: bool)
  {
    var h1, h2 := Met(env, h, n, 1), Met(env, h, n, 2);
    match GetReply(h1, d.id, env(n))
    case Err(NotFound) =>
      && to == n + 2 && (ok <==> env(n + 1).fault == None)
      && h' == (if ok then h2 + [Entry(Operator, d.id, Put(ServerApplied(Current(h2, d.id), WithRecord(d.manifest))))]
                else h2)
    case Err(_) => !ok && to == n + 1 && h' == h1
    case Ok(s) => RetryDone(Contest(env, h1, n + 1, d.id, s), d.manifest, h', to, ok)
  }

  /**
   How a row ends, decided by the surroundings alone: which calls it makes, what it writes, and whether
   it succeeds.
   */
  ghost predicate RowEnds(env: nat -> Turn, owner: Owner, r: RowRun)
  {
    var n, h, h', to := r.span.from, r.span.before, r.span.after, r.span.to;
    match Prepare(owner, r.row)
    case None => r.key == None && h' == h && to == n
    case Some(d) =>
      && (r.key.Some? ==> r.key.value == GetObjectKey(d.id))
      && match VerdictOn(GetReply(Met(env, h, n, 1), d.id, env(n)), d)
         case CheckFailed => r.key == None && h' == Met(env, h, n, 1) && to == n + 1
         case UpToDate => r.key.Some? && h' == Met(env, h, n, 1) && to == n + 1
         case UpdateNeeded => WriteEnds(env, n + 1, Met(env, h, n, 1), d, h', to, r.key.Some?)
  }

  /** A read, then one apply, or updates and re-reads in turn, five of them at most. */
  ghost predicate WriteCalls(before: seq<Call>, calls: seq<Call>, id: ObjectId)
  {
    var start := before + [GetCall(id)];
    start <= calls && (calls == start + [ApplyCall(id)] || Made(start, calls, id, |calls| - |start|))
  }

  /** All the calls of a row are for its object: the check, then those of a write if there is one. */
  ghost predicate RowCalls(before: seq<Call>, calls: seq<Call>, owner: Owner, row: Row)
  {
    match Prepare(owner, row)
    case None => calls == before
    case Some(d) =>
      var check := before + [GetCall(d.id)];
      calls == check || WriteCalls(check, calls, d.id)
  }

  /**
   What holds of every row. A success has applied the object or seen it up to date, a failure has written
   nothing; and a row none of whose own calls was disturbed does exactly what it should.
   */
  ghost predicate RowSound(env: nat -> Turn, owner: Owner, r: RowRun)
  {
    && r.span.from <= r.span.to
    && (if r.key.Some? then Keyed(owner, r.row, r.key.value) &&
                            Succeeded(r.span.before, r.span.after, Prepare(owner, r.row).value)
        else OthersOnly(r.span.before, r.span.after))
    && RowEnds(env, owner, r)
    && (Calm(env, r.span.from, r.span.to) ==> RowDone(owner, r.row, r.span.before, r.span.after, r.key))
  }

  lemma ArrivingIsOthers(h: History, t: Turn)
    ensures OthersOnly(h, h + OthersEntries(t.others))
    ensures CalmTurn(t) ==> h + OthersEntries(t.others) == h
  {
  }

  lemma ChainApplied(a: History, b: History, c: History, d: Desired)
    requires OthersOnly(a, b) && AppliedOnce(b, c, d)
    ensures AppliedOnce(a, c, d)
  {
  }

  lemma CalmGet(h: History, id: ObjectId, t: Turn)
    requires CalmTurn(t) && id.Valid()
    ensures GetReply(h, id, t) == match Current(h, id) case None => Err(NotFound) case Some(s) => Ok(s)
  {
    assert h[..|h|] == h;
  }

  /** Reads whether the object has to be written. */
  method ShouldUpdateResource(server: ApiServer, d: Desired) returns (verdict: Verdict)
    modifies server
    ensures OthersOnly(old(server.history), server.history) && server.calls == old(server.calls) + [GetCall(d.id)]
    ensures !d.id.Valid() ==> verdict == CheckFailed
    ensures old(CalmTurn(server.Next())) ==> server.history == old(server.history)
    ensures old(CalmTurn(server.Next())) && d.id.Valid() ==>
              verdict == ShouldUpdate(Live(server.history, d.id), d.manifest)
    ensures verdict == UpToDate ==> SeenUpToDate(server.history, d)
    // Whatever the surroundings do, it judges what it reads.
    ensures server.history == Met(server.env, old(server.history), |old(server.calls)|, 1)
    ensures verdict == VerdictOn(GetReply(server.history, d.id, server.env(|old(server.calls)|)), d)
  {
    ArrivingIsOthers(server.history, server.Next());
    if d.id.Valid() { CalmGet(server.history, d.id, Turn([], None, 0)); }
    var reply := server.Get(d.id);
    match reply {
      case Err(NotFound) => verdict := UpdateNeeded;
      case Err(_) => verdict := CheckFailed;
      case Ok(existing) => verdict := ShouldUpdate(Some(existing.manifest), d.manifest);
    }
  }

  /** Applied on the server's side, with the record of what is applied. */
  method Create(server: ApiServer, d: Desired) returns (ok: bool)
    modifies server
    ensures if ok then AppliedOnce(old(server.history), server.history, d)
            else OthersOnly(old(server.history), server.history)
    ensures server.calls == old(server.calls) + [ApplyCall(d.id)]
    ensures ok <==> old(server.Next()).fault == None
    ensures var arriving := Met(server.env, old(server.history), |old(server.calls)|, 1);
            server.history == arriving + if ok then [Entry(Operator, d.id, Put(ServerApplied(Current(arriving, d.id),
                                                                                             WithRecord(d.manifest))))]
                                         else []
    ensures old(CalmTurn(server.Next())) && Current(old(server.history), d.id) == None ==>
              ok && server.history == old(server.history) + [Entry(Operator, d.id, Put(WithRecord(d.manifest)))]
  {
    ArrivingIsOthers(server.history, server.Next());
    ghost var arriving := server.Arriving();
    var e := server.ServerSideApply(d.id, WithRecord(d.manifest));
    ok := e == None;
    assert ok ==> server.history[..|server.history| - 1] == arriving;
  }

  /** Overlaid on what has been fetched, and written with retries. */
  method Replace(server: ApiServer, d: Desired, fetched: Stored) returns (ok: bool)
    requires IsVersion(server.history, d.id, fetched)
    modifies server
    ensures if ok then AppliedOnce(old(server.history), server.history, d)
            else OthersOnly(old(server.history), server.history)
    ensures RetryDone(Contest(server.env, old(server.history), |old(server.calls)|, d.id, fetched), d.manifest,
                      server.history, |server.calls|, ok)
    ensures |server.calls| > |old(server.calls)|
    ensures Made(old(server.calls), server.calls, d.id, |server.calls| - |old(server.calls)|)
    ensures old(CalmTurn(server.Next())) && Current(old(server.history), d.id) == Some(fetched) ==>
              && ok
              && server.history ==
                 old(server.history) + [Entry(Operator, d.id, Put(Updated(fetched.manifest, d.manifest)))]
  {
    ghost var before, n := server.history, |server.calls|;
    var existing := new LiveObject(fetched.manifest, fetched.version);
    existing.ApplyDesiredState(d.manifest);
    var e := UpdateWithConflictRetry(server, existing, d.id, d.manifest, fetched);
    ok := e == None;
    ghost var c := Contest(server.env, before, n, d.id, fetched);
    if CalmTurn(c.env(n)) && Current(before, d.id) == Some(fetched) {
      AloneReplaces(c, d.manifest, server.history, |server.calls|, ok);
    }
  }

  lemma AloneReplaces(c: Contest, desired: Manifest, h: History, to: nat, ok: bool)
    requires RetryDone(c, desired, h, to, ok) && CalmTurn(c.env(c.from)) && Current(c.before, c.id) == Some(c.read)
    ensures ok && h == c.before + [Entry(Operator, c.id, Put(Updated(c.read.manifest, desired)))]
  {
    var k: nat, err: Option<CallError> :| RetryEnds(c, desired, k, h, to, err) && ok == (err == None);
    AloneLands(c, desired, k, h, to, err);
  }

  /** What writing promises. */
  ghost predicate WriteDone(env: nat -> Turn, h: History, calls: seq<Call>, d: Desired, h': History, calls': seq<Call>,
                            ok: bool)
  {
    && (if ok then AppliedOnce(h, h', d) else OthersOnly(h, h'))
    && WriteCalls(calls, calls', d.id) && WriteEnds(env, |calls|, h, d, h', |calls'|, ok)
    && (Calm(env, |calls|, |calls'|) ==> ok && h' == h + [Entry(Operator, d.id, Put(Written(h, d)))])
  }

  /** Creates or updates the object; tells whether that succeeded. */
  method Write(server: ApiServer, d: Desired) returns (ok: bool)
    requires d.id.Valid()
    modifies server
    ensures WriteDone(server.env, old(server.history), old(server.calls), d, server.history, server.calls, ok)
  {
    hide AppliedOnce, RetryDone, Made, GetReply, ServerApplied, WithRecord, Updated, WriteDone, Current, IsVersion;
    ghost var before, calls := server.history, server.calls;
    var reply := server.Get(d.id);
    ghost var h, middle := server.history, server.calls;
    match reply {
      case Err(NotFound) =>
        ok := Create(server, d);
        WrittenByCreating(server.env, before, calls, d, reply, h, server.history, server.calls, ok);
      case Err(_) =>
        ok := false;
        NotWritten(server.env, before, calls, d, reply, h);
      case Ok(fetched) =>
        ok := Replace(server, d, fetched);
        WrittenByReplacing(server.env, before, calls, d, fetched, h, middle, server.history, server.calls, ok);
    }
  }

  lemma NotWritten(env: nat -> Turn, before: History, calls: seq<Call>, d: Desired, reply: Reply<Stored>, h: History)
    requires d.id.Valid() && h == before + OthersEntries(env(|calls|).others)
    requires reply == GetReply(h, d.id, env(|calls|))
    requires reply.Err? && reply.error != NotFound
    ensures WriteDone(env, before, calls, d, h, calls + [GetCall(d.id)], false)
  {
    CalmGet(before, d.id, Turn([], None, 0));
    assert h == Met(env, before, |calls|, 1);
    assert Calm(env, |calls|, |calls| + 1) ==> CalmTurn(env(|calls|));
  }

  lemma WrittenByCreating(env: nat -> Turn, before: History, calls: seq<Call>, d: Desired, reply: Reply<Stored>,
                          h: History, h': History, calls': seq<Call>, ok: bool)
    requires d.id.Valid() && h == before + OthersEntries(env(|calls|).others)
    requires reply == GetReply(h, d.id, env(|calls|))
    requires reply == Err(NotFound) && calls' == calls + [GetCall(d.id)] + [ApplyCall(d.id)]
    requires ok <==> env(|calls| + 1).fault == None
    requires var arriving := Met(env, h, |calls| + 1, 1);
             h' == arriving + if ok then [Entry(Operator, d.id, Put(ServerApplied(Current(arriving, d.id),
                                                                                  WithRecord(d.manifest))))]
                              else []
    requires if ok then AppliedOnce(h, h', d) else OthersOnly(h, h')
    ensures WriteDone(env, before, calls, d, h', calls', ok)
  {
    hide *;
    AppliedSince(env, |calls|, before, h, h', d, ok);
    CreatingCalls(calls, calls', d);
    EndsByCreating(env, |calls|, |calls| + 1, before, d, h, h', |calls'|, ok);
    CalmlyCreated(env, |calls|, |calls'|, before, d, h, h', ok);
    IsDone(env, before, calls, d, h', calls', ok);
  }

  lemma IsDone(env: nat -> Turn, h: History, calls: seq<Call>, d: Desired, h': History, calls': seq<Call>, ok: bool)
    requires if ok then AppliedOnce(h, h', d) else OthersOnly(h, h')
    requires WriteCalls(calls, calls', d.id) && WriteEnds(env, |calls|, h, d, h', |calls'|, ok)
    requires Calm(env, |calls|, |calls'|) ==> ok && h' == h + [Entry(Operator, d.id, Put(Written(h, d)))]
    ensures WriteDone(env, h, calls, d, h', calls', ok)
  {
    hide AppliedOnce, OthersOnly, WriteCalls, WriteEnds, Calm;
  }

  lemma AppliedSince(env: nat -> Turn, n: nat, before: History, h: History, h': History, d: Desired, ok: bool)
    requires h == before + OthersEntries(env(n).others) && if ok then AppliedOnce(h, h', d) else OthersOnly(h, h')
    ensures if ok then AppliedOnce(before, h', d) else OthersOnly(before, h')
  {
    if ok { ChainApplied(before, h, h', d); }
    hide AppliedOnce;
  }

  lemma CreatingCalls(calls: seq<Call>, calls': seq<Call>, d: Desired)
    requires calls' == calls + [GetCall(d.id)] + [ApplyCall(d.id)]
    ensures WriteCalls(calls, calls', d.id) && |calls'| == |calls| + 2
  {
    hide Made;
  }

  lemma EndsByCreating(env: nat -> Turn, n: nat, m: nat, before: History, d: Desired, h: History, h': History, to: nat,
                       ok: bool)
    requires m == n + 1 && to == n + 2 && h == before + OthersEntries(env(n).others)
    requires GetReply(h, d.id, env(n)) == Err(NotFound) && (ok <==> env(m).fault == None)
    requires var arriving := Met(env, h, m, 1);
             h' == arriving + if ok then [Entry(Operator, d.id, Put(ServerApplied(Current(arriving, d.id),
                                                                                  WithRecord(d.manifest))))]
                              else []
    ensures WriteEnds(env, n, before, d, h', to, ok)
  {
    assert h == Met(env, before, n, 1);
    assert Met(env, before, n, 2) == Met(env, h, m, 1);
    hide Met, GetReply, ServerApplied, WithRecord, RetryDone;
  }

  lemma CalmlyCreated(env: nat -> Turn, n: nat, to: nat, before: History, d: Desired, h: History, h': History, ok: bool)
    requires to == n + 2 && d.id.Valid() && h == before + OthersEntries(env(n).others)
    requires GetReply(h, d.id, env(n)) == Err(NotFound) && (ok <==> env(n + 1).fault == None)
    requires var arriving := Met(env, h, n + 1, 1);
             h' == arriving + if ok then [Entry(Operator, d.id, Put(ServerApplied(Current(arriving, d.id),
                                                                                  WithRecord(d.manifest))))]
                              else []
    ensures Calm(env, n, to) ==> ok && h' == before + [Entry(Operator, d.id, Put(Written(before, d)))]
  {
    if Calm(env, n, to) {
      assert CalmTurn(env(n)) && CalmTurn(env(n + 1));
      assert h == before && Met(env, h, n + 1, 1) == h;
      CalmGet(before, d.id, env(n));
    }
  }

  lemma WrittenByReplacing(env: nat -> Turn, before: History, calls: seq<Call>, d: Desired, fetched: Stored, h: History,
                           middle: seq<Call>, h': History, calls': seq<Call>, ok: bool)
    requires d.id.Valid() && h == before + OthersEntries(env(|calls|).others)
    requires GetReply(h, d.id, env(|calls|)) == Ok(fetched) && middle == calls + [GetCall(d.id)]
    requires RetryDone(Contest(env, h, |middle|, d.id, fetched), d.manifest, h', |calls'|, ok)
    requires |calls'| > |middle| && Made(middle, calls', d.id, |calls'| - |middle|)
    requires if ok then AppliedOnce(h, h', d) else OthersOnly(h, h')
    requires CalmTurn(env(|middle|)) && Current(h, d.id) == Some(fetched) ==>
               ok && h' == h + [Entry(Operator, d.id, Put(Updated(fetched.manifest, d.manifest)))]
    ensures WriteDone(env, before, calls, d, h', calls', ok)
  {
    hide *;
    AppliedSince(env, |calls|, before, h, h', d, ok);
    ReplacingCalls(calls, middle, calls', d);
    EndsByReplacing(env, |calls|, |middle|, before, d, fetched, h, h', |calls'|, ok);
    CalmlyReplaced(env, |calls|, |middle|, |calls'|, before, d, fetched, h, h', ok);
    IsDone(env, before, calls, d, h', calls', ok);
  }

  lemma ReplacingCalls(calls: seq<Call>, middle: seq<Call>, calls': seq<Call>, d: Desired)
    requires middle == calls + [GetCall(d.id)] && |calls'| > |middle|
    requires Made(middle, calls', d.id, |calls'| - |middle|)
    ensures WriteCalls(calls, calls', d.id) && |middle| == |calls| + 1
  {
  }

  lemma EndsByReplacing(env: nat -> Turn, n: nat, m: nat, before: History, d: Desired, fetched: Stored, h: History,
                        h': History, to: nat, ok: bool)
    requires m == n + 1 && h == before + OthersEntries(env(n).others) && GetReply(h, d.id, env(n)) == Ok(fetched)
    requires RetryDone(Contest(env, h, m, d.id, fetched), d.manifest, h', to, ok)
    ensures WriteEnds(env, n, before, d, h', to, ok)
  {
    assert h == Met(env, before, n, 1);
    hide Met, GetReply, ServerApplied, WithRecord, RetryDone;
  }

  lemma CalmlyReplaced(env: nat -> Turn, n: nat, m: nat, to: nat, before: History, d: Desired, fetched: Stored,
                       h: History, h': History, ok: bool)
    requires m == n + 1 && m < to && d.id.Valid() && h == before + OthersEntries(env(n).others)
    requires GetReply(h, d.id, env(n)) == Ok(fetched)
    requires CalmTurn(env(m)) && Current(h, d.id) == Some(fetched) ==>
               ok && h' == h + [Entry(Operator, d.id, Put(Updated(fetched.manifest, d.manifest)))]
    ensures Calm(env, n, to) ==> ok && h' == before + [Entry(Operator, d.id, Put(Written(before, d)))]
  {
    if Calm(env, n, to) {
      assert CalmTurn(env(n)) && CalmTurn(env(m));
      assert h == before;
      CalmGet(before, d.id, env(n));
    }
  }

  /** One row; on success the key under which its object is managed from now on. */
  method ProcessRow(server: ApiServer, owner: Owner, row: Row) returns (key: Option<string>)
    modifies server
    ensures RowSound(server.env, owner,
                     RowRun(row, Span(old(server.history), |old(server.calls)|, server.history, |server.calls|), key))
    ensures RowCalls(old(server.calls), server.calls, owner, row)
  {
    hide SeenUpToDate, AppliedOnce, WriteEnds, GetReply, ShouldUpdate, Updated, Current, IsVersion, ServerApplied, Made;
    var prepared := Prepare(owner, row);
    if prepared == None {
      return None;
    }
    var d := prepared.value;
    ghost var before := server.history;
    var verdict := ShouldUpdateResource(server, d);
    if verdict == CheckFailed {
      return None;
    }
    if verdict == UpdateNeeded {
      ghost var middle := server.history;
      var ok := Write(server, d);
      if !ok {
        return None;
      }
      ChainApplied(before, middle, server.history, d);
    }
    key := Some(GetObjectKey(d.id));
  }

  // ---- what a row survives, and what it does not ----

  /** A check that is refused fails the row, and nothing more is done about it. */
  lemma RefusedCheckFails(env: nat -> Turn, owner: Owner, r: RowRun)
    requires RowSound(env, owner, r) && Prepare(owner, r.row).Some? && env(r.span.from).fault.Some?
    ensures r.key == None && r.span.to == r.span.from + 1 && OthersOnly(r.span.before, r.span.after)
  {
    hide RowDone, WriteEnds, Succeeded;
  }

  /** What the calls of a row meet, up to attempt `j` of its update: the object in place, and served reads. */
  ghost predicate MetInPlace(env: nat -> Turn, r: RowRun, d: Desired, j: nat)
  {
    var n, h := r.span.from, r.span.before;
    var check, read := Met(env, h, n, 1), Met(env, h, n, 2);
    && d.id.Valid()
    && ReadIn(env, n, check, d.id) && !UnreadableRecord(Current(check, d.id).value.manifest)
    && ReadIn(env, n + 1, read, d.id)
    && InPlace(ContestOf(env, r, d), j) && Unhindered(ContestOf(env, r, d), j)
  }

  /** The read is served and current, and finds the object. */
  predicate ReadIn(env: nat -> Turn, n: nat, h: History, id: ObjectId)
  {
    env(n).fault == None && env(n).lag == 0 && Current(h, id).Some?
  }

  /** The update that a row makes after its check and its read. */
  function ContestOf(env: nat -> Turn, r: RowRun, d: Desired): Contest
  {
    var read := Met(env, r.span.before, r.span.from, 2);
    Contest(env, read, r.span.from + 2, d.id,
            match Current(read, d.id) case Some(s) => s case None => Stored(d.manifest, 0))
  }

  /**
   A row survives up to two conflicts: when its check and its read are served, the object stays in place,
   no call fails but for conflicts, and one of the three attempts at the update is unhindered, it succeeds;
   whatever others write to the object and elsewhere before that attempt.
   */
  lemma RowSurvivesConflicts(env: nat -> Turn, owner: Owner, r: RowRun, d: Desired, j: nat)
    requires RowSound(env, owner, r) && Prepare(owner, r.row) == Some(d) && j < MAX_RETRIES
    requires MetInPlace(env, r, d, j)
    ensures r.key == Some(GetObjectKey(d.id))
  {
    RowGoesOn(env, owner, r, d, j);
    assert InPlace(ContestOf(env, r, d), j) && Unhindered(ContestOf(env, r, d), j);
    hide *;
    if r.key == None {
      TwoConflictsAreSurvived(ContestOf(env, r, d), d.manifest, j, r.span.after, r.span.to, false);
    }
  }

  lemma RowGoesOn(env: nat -> Turn, owner: Owner, r: RowRun, d: Desired, j: nat)
    requires RowSound(env, owner, r) && Prepare(owner, r.row) == Some(d) && MetInPlace(env, r, d, j)
    ensures r.key.Some? ==> r.key.value == GetObjectKey(d.id)
    ensures r.key == None ==> RetryDone(ContestOf(env, r, d), d.manifest, r.span.after, r.span.to, false)
  {
    SoundEnds(env, owner, r);
    var c := ContestOf(env, r, d);
    var check := Met(env, r.span.before, r.span.from, 1);
    hide Met, GetReply, RetryDone, InPlace, Unhindered, Current, RowSound, RowEnds, UnreadableRecord, Prepare;
    ServedRead(env, r.span.from, check, d.id);
    ServedRead(env, r.span.from + 1, c.before, d.id);
    RowUpdates(env, owner, r, d, Current(check, d.id).value, check, c);
  }

  lemma SoundEnds(env: nat -> Turn, owner: Owner, r: RowRun)
    requires RowSound(env, owner, r)
    ensures RowEnds(env, owner, r)
  {
    hide RowEnds, RowDone, Succeeded, Keyed;
  }

  /** A row whose check reads a readable object, and whose second read reads it again, succeeds or is an update. */
  lemma RowUpdates(env: nat -> Turn, owner: Owner, r: RowRun, d: Desired, s: Stored, check: History, c: Contest)
    requires RowEnds(env, owner, r) && Prepare(owner, r.row) == Some(d) && !UnreadableRecord(s.manifest)
    requires check == Met(env, r.span.before, r.span.from, 1) && GetReply(check, d.id, env(r.span.from)) == Ok(s)
    requires c.env == env && c.id == d.id && c.from == r.span.from + 2
    requires c.before == Met(env, r.span.before, r.span.from, 2)
    requires GetReply(c.before, d.id, env(r.span.from + 1)) == Ok(c.read)
    ensures r.key.Some? ==> r.key.value == GetObjectKey(d.id)
    ensures r.key == None ==> RetryDone(c, d.manifest, r.span.after, r.span.to, false)
  {
    CheckFailsExactly(Some(s.manifest), d.manifest);
    MetChains(env, r.span.before, r.span.from, 1, 1);
    assert c == Contest(env, c.before, c.from, d.id, c.read);
    hide Met, GetReply, ShouldUpdate, RetryDone, UnreadableRecord;
  }

  lemma CreatesIfAbsent(env: nat -> Turn, owner: Owner, r: RowRun, d: Desired, check: History, read: History,
                        arriving: History)
    requires RowEnds(env, owner, r) && Prepare(owner, r.row) == Some(d)
    requires ShouldUpdate(None, d.manifest) == UpdateNeeded
    requires check == Met(env, r.span.before, r.span.from, 1)
    requires read == Met(env, check, r.span.from + 1, 1) && arriving == Met(env, check, r.span.from + 1, 2)
    requires GetReply(check, d.id, env(r.span.from)) == Err(NotFound)
    requires GetReply(read, d.id, env(r.span.from + 1)) == Err(NotFound) && env(r.span.from + 2).fault == None
    ensures r.key == Some(GetObjectKey(d.id)) && Current(r.span.after, d.id).Some?
    ensures Current(arriving, d.id) == None ==> Live(r.span.after, d.id) == Some(WithRecord(d.manifest))
  {
    hide Met, ShouldUpdate, RetryDone, GetReply, Current, ServerApplied, WithRecord;
    AppliedOnNothing(arriving, d);
    var applied := ServerApplied(Current(arriving, d.id), WithRecord(d.manifest));
    CurrentAfter(arriving, Entry(Operator, d.id, Put(applied)), d.id);
  }

  lemma AppliedOnNothing(h: History, d: Desired)
    ensures Current(h, d.id) == None ==>
              ServerApplied(Current(h, d.id), WithRecord(d.manifest)) == WithRecord(d.manifest)
  {
  }

  lemma ServedRead(env: nat -> Turn, n: nat, h: History, id: ObjectId)
    requires ReadIn(env, n, h, id) && id.Valid()
    ensures GetReply(h, id, env(n)) == Ok(Current(h, id).value)
  {
    assert h[..|h|] == h;
  }

  /**
   A row for an absent object creates it: when the object is not there for its check and its read, and the
   apply is served, the row succeeds, and the object is what was rendered, with its record, unless somebody
   else has created it just before the apply.
   */
  lemma AbsentIsCreated(env: nat -> Turn, owner: Owner, r: RowRun, d: Desired)
    requires RowSound(env, owner, r) && Prepare(owner, r.row) == Some(d) && d.id.Valid()
    requires var n, h := r.span.from, r.span.before;
      && env(n).fault == None && Current(Lagging(Met(env, h, n, 1), env(n).lag), d.id) == None
      && env(n + 1).fault == None && Current(Lagging(Met(env, h, n, 2), env(n + 1).lag), d.id) == None
      && env(n + 2).fault == None
    ensures r.key == Some(GetObjectKey(d.id)) && Current(r.span.after, d.id).Some?
    ensures var arriving := Met(env, r.span.before, r.span.from, 3);
            Current(arriving, d.id) == None ==> Live(r.span.after, d.id) == Some(WithRecord(d.manifest))
  {
    SoundEnds(env, owner, r);
    var n, h := r.span.from, r.span.before;
    CheckFailsExactly(None, d.manifest);
    MetChains(env, h, n, 1, 1);
    MetChains(env, h, n, 1, 2);
    hide Met, ShouldUpdate, RetryDone, Current, RowSound, Prepare, ServerApplied, WithRecord;
    CreatesIfAbsent(env, owner, r, d, Met(env, h, n, 1), Met(env, h, n, 2), Met(env, h, n, 3));
  }
}
