/**
 The custom resource on the API server: its revisions, who wrote them, and the operator's status
 writes among them.
 */
module ResourceStore {
  import opened Text
  import opened ObjectKeys
  import opened Schedule
  import opened ScheduleRuns
  import opened Cluster

  const FINALIZER := "konnektr.io/databasequeryresource-finalizer"

  datatype Status = Status(stamps: Stamps, managed: seq<string>, versions: map<string, nat>)

  datatype Cr = Cr(generation: nat, spec: Spec, finalizers: seq<string>, deleting: Option<Time>, status: Status)

  /** What others do to the resource; the generation counts changes of the spec and the start of deletion. */
  datatype Step = EditSpec(spec: Spec) | SetFinalizers(finalizers: seq<string>) | MarkDeleted(at: Time) | Touch | Vanish

  function Take(cr: Cr, step: Step): Option<Cr>
  {
    match step
    case EditSpec(spec) => Some(cr.(spec := spec, generation := cr.generation + 1))
    case SetFinalizers(fs) => Some(cr.(finalizers := fs))
    case MarkDeleted(at) =>
      if cr.deleting.Some? then Some(cr) else Some(cr.(deleting := Some(at), generation := cr.generation + 1))
    case Touch => Some(cr)
    case Vanish => None
  }

  datatype Writer = OperatorStatus | OperatorFinalizers | Elsewhere(step: Step)

  /** A revision: who made it, and the resource after it, if it still exists. */
  datatype Revision = Revision(writer: Writer, cr: Option<Cr>)

  function FloorTime(t: Option<Time>): Option<Time>
  {
    if t.Some? then Some(Floor(t.value)) else None
  }

  function StoredStamps(s: Stamps): Stamps
  {
    Stamps(s.observed, FloorTime(s.lastPoll), FloorTime(s.lastCheck), FloorTime(s.lastReconcile))
  }

  /** A status as the server keeps it. */
  function StoredStatus(s: Status): Status
  {
    s.(stamps := StoredStamps(s.stamps))
  }

  lemma FloorIsIdempotent(t: Time)
    ensures Floor(Floor(t)) == Floor(t)
  {
    assert (t - t % SECOND) % SECOND == 0;
  }

  lemma StoringIsIdempotent(s: Stamps)
    ensures StoredStamps(StoredStamps(s)) == StoredStamps(s)
  {
    if s.lastPoll.Some? { FloorIsIdempotent(s.lastPoll.value); }
    if s.lastCheck.Some? { FloorIsIdempotent(s.lastCheck.value); }
    if s.lastReconcile.Some? { FloorIsIdempotent(s.lastReconcile.value); }
  }

  /** The recorded versions belong to managed resources, and every managed key can be read back. */
  predicate StatusOk(s: Status)
  {
    && s.versions.Keys <= (set k | k in s.managed)
    && forall k :: k in s.managed ==> ReadForDeletion(k).Some?
  }

  /** One revision follows another: a step of others, or a write of the operator's that leaves everything else alone. */
  predicate Follows(before: Revision, after: Revision)
  {
    match before.cr
    case None => after.cr == None
    case Some(cr) =>
      match after.writer
      case Elsewhere(step) => after.cr == Take(cr, step)
      case OperatorStatus => after.cr.Some? && after.cr.value == cr.(status := after.cr.value.status)
      case OperatorFinalizers => after.cr.Some? && after.cr.value == cr.(finalizers := after.cr.value.finalizers)
  }

  // ---- the event filter of the primary watch ----

  predicate PassesFilter(before: Cr, after: Cr)
  {
    before.generation != after.generation || before.finalizers != after.finalizers || before.deleting != after.deleting
  }

  /** A status write never wakes the operator; an edit, or the start of deletion, always does. */
  lemma FilterExactly(before: Revision, after: Revision)
    requires Follows(before, after) && before.cr.Some? && after.cr.Some?
    ensures PassesFilter(before.cr.value, after.cr.value) <==>
            match after.writer
            case OperatorStatus => false
            case OperatorFinalizers => after.cr.value.finalizers != before.cr.value.finalizers
            case Elsewhere(step) =>
              || step.EditSpec?
              || (step.MarkDeleted? && before.cr.value.deleting == None)
              || (step.SetFinalizers? && step.finalizers != before.cr.value.finalizers)
  {
  }

  // ---- histories ----

  ghost predicate Chained(rs: seq<Revision>)
  {
    forall i :: 0 < i < |rs| ==> Follows(rs[i - 1], rs[i])
  }

  /** Generations never fall, and a resource that is gone stays gone. */
  lemma {:induction false} GenerationsRise(rs: seq<Revision>, i: nat, j: nat)
    requires Chained(rs) && i <= j < |rs| && rs[j].cr.Some?
    ensures rs[i].cr.Some? && rs[i].cr.value.generation <= rs[j].cr.value.generation
    decreases j - i
  {
    if i < j {
      assert Follows(rs[j - 1], rs[j]);
      GenerationsRise(rs, i, j - 1);
    }
  }

  /** However many events the watch merges into one, an edit among them still passes the filter. */
  lemma {:induction false} MergedEditsPass(rs: seq<Revision>, i: nat, k: nat, j: nat)
    requires Chained(rs) && i < k <= j < |rs| && rs[j].cr.Some?
    requires rs[k].writer.Elsewhere? && rs[k].writer.step.EditSpec?
    ensures rs[i].cr.Some? && PassesFilter(rs[i].cr.value, rs[j].cr.value)
  {
    GenerationsRise(rs, k, j);
    GenerationsRise(rs, k - 1, k);
    GenerationsRise(rs, i, k - 1);
    assert Follows(rs[k - 1], rs[k]);
  }

  function TakeSteps(rs: seq<Revision>, steps: seq<Step>): (out: seq<Revision>)
    requires rs != []
    ensures rs <= out && |out| == |rs| + |steps|
    decreases |steps|
  {
    if steps == [] then rs
    else
      var last := rs[|rs| - 1];
      var next := if last.cr.Some? then Take(last.cr.value, steps[0]) else None;
      TakeSteps(rs + [Revision(Elsewhere(steps[0]), next)], steps[1..])
  }

  datatype StoreTurn = StoreTurn(steps: seq<Step>, fault: Option<Fault>, lag: nat)

  /**
   What every revision keeps: the observed generation is one that a reconcile has read, and no newer
   than the resource.
   */
  predicate CrOk(cr: Cr, seen: nat)
  {
    && cr.status.stamps.observed <= seen && cr.status.stamps.observed <= cr.generation
    && StatusOk(cr.status) && StoredStamps(cr.status.stamps) == cr.status.stamps
  }

  ghost predicate HistoryOk(rs: seq<Revision>, seen: nat)
  {
    && rs != [] && Chained(rs)
    && (forall i :: 0 <= i < |rs| && rs[i].cr.Some? ==> CrOk(rs[i].cr.value, seen))
    && (rs[|rs| - 1].cr.Some? ==> seen <= rs[|rs| - 1].cr.value.generation)
  }

  lemma {:induction false} StepsKeepHistoryOk(rs: seq<Revision>, seen: nat, steps: seq<Step>)
    requires HistoryOk(rs, seen)
    ensures HistoryOk(TakeSteps(rs, steps), seen)
    ensures forall i :: |rs| <= i < |TakeSteps(rs, steps)| ==> TakeSteps(rs, steps)[i].writer.Elsewhere?
    decreases |steps|
  {
    if steps != [] {
      var last := rs[|rs| - 1];
      var next := Revision(Elsewhere(steps[0]), if last.cr.Some? then Take(last.cr.value, steps[0]) else None);
      assert Follows(last, next);
      StepsKeepHistoryOk(rs + [next], seen, steps[1..]);
    }
  }

  /** Steps of others only. */
  ghost predicate OnlyOthers(rs0: seq<Revision>, rs: seq<Revision>)
  {
    rs0 <= rs && forall i :: |rs0| <= i < |rs| ==> rs[i].writer.Elsewhere?
  }

  /** No status write of the operator's. */
  ghost predicate StatusUntouched(rs0: seq<Revision>, rs: seq<Revision>)
  {
    rs0 <= rs && forall i :: |rs0| <= i < |rs| ==> !rs[i].writer.OperatorStatus?
  }

  /** Steps of others, then one write of the operator's, of this status. */
  ghost predicate OneWrite(rs0: seq<Revision>, rs: seq<Revision>, status: Status)
  {
    && rs0 <= rs && |rs0| < |rs|
    && (forall i :: |rs0| <= i < |rs| - 1 ==> rs[i].writer.Elsewhere?)
    && rs[|rs| - 1].writer == OperatorStatus && rs[|rs| - 1].cr.Some? && rs[|rs| - 1].cr.value.status == status
  }

  /** New revisions come from others, or are status writes of the operator's with one of the given statuses. */
  ghost predicate OwnWrites(rs0: seq<Revision>, rs: seq<Revision>, statuses: set<Status>)
  {
    && rs0 <= rs
    && forall i :: |rs0| <= i < |rs| ==>
         || rs[i].writer.Elsewhere?
         || (rs[i].writer.OperatorStatus? && rs[i].cr.Some? && rs[i].cr.value.status in statuses)
  }

  /** Only the operator's own writes move the status. */
  lemma {:induction false} StatusMovesByOwnWrites(rs0: seq<Revision>, rs: seq<Revision>, statuses: set<Status>, i: nat)
    requires Chained(rs) && OwnWrites(rs0, rs, statuses) && rs0 != [] && |rs0| - 1 <= i < |rs| && rs[i].cr.Some?
    ensures rs0[|rs0| - 1].cr.Some?
    ensures rs[i].cr.value.status == rs0[|rs0| - 1].cr.value.status || rs[i].cr.value.status in statuses
  {
    if i >= |rs0| {
      assert Follows(rs[i - 1], rs[i]);
      StatusMovesByOwnWrites(rs0, rs, statuses, i - 1);
    } else {
      assert rs[i] == rs0[i];
    }
  }

  function GetResult(rs: seq<Revision>, turn: StoreTurn): Reply<(Cr, nat)>
    requires rs != []
  {
    var version := if turn.lag < |rs| then |rs| - 1 - turn.lag else 0;
    if turn.fault.Some? then Err(Failed)
    else match rs[version].cr
      case None => Err(NotFound)
      case Some(cr) => Ok((cr, version))
  }

  /** The last revision, as a read that nothing disturbs gives it. */
  function Latest(rs: seq<Revision>): Reply<(Cr, nat)>
    requires rs != []
  {
    match rs[|rs| - 1].cr case None => Err(NotFound) case Some(cr) => Ok((cr, |rs| - 1))
  }

  function WriteError(rs: seq<Revision>, version: nat, turn: StoreTurn): Option<CallError>
    requires rs != []
  {
    if turn.fault.Some? then Some(FaultError(turn.fault.value))
    else if rs[|rs| - 1].cr == None then Some(NotFound)
    else if version != |rs| - 1 then Some(Conflict) else None
  }

  /** No other writer, no failure and no stale read at the calls number `from` to `to`, the latter not included. */
  ghost predicate CalmStore(env: nat -> StoreTurn, from: nat, to: nat)
  {
    forall n: nat :: from <= n < to ==> env(n) == StoreTurn([], None, 0)
  }

  /** A stretch of work: the revisions and the number of calls made, before and after it. */
  datatype StoreSpan = StoreSpan(before: seq<Revision>, from: nat, after: seq<Revision>, to: nat)

  // ---- writing a status with retries ----

  /** The revisions when the last of the `k` calls from number `n` on is served, if none of them writes. */
  function StoreMet(env: nat -> StoreTurn, rs: seq<Revision>, n: nat, k: nat): (met: seq<Revision>)
    requires rs != []
    ensures rs <= met
  {
    if k == 0 then rs else TakeSteps(StoreMet(env, rs, n, k - 1), env(n + (k - 1)).steps)
  }

  /**
   A status write with retries, as far as the surroundings decide it: where and when it starts, from
   which version.
   */
  datatype StatusWrite = StatusWrite(env: nat -> StoreTurn, before: seq<Revision>, from: nat, first: nat)
  {
    /** The revisions when call number `from + j` is served, as long as no write has landed. */
    function Arrives(j: nat): (met: seq<Revision>)
      requires before != []
      ensures before <= met
    {
      StoreMet(env, before, from, j + 1)
    }

    /** The version that attempt `k` goes by. */
    function Seen(k: nat): Option<nat>
      requires before != []
    {
      if k == 0 then Some(first)
      else match GetResult(Arrives(2 * k - 1), env(from + (2 * k - 1)))
        case Ok((_, version)) => Some(version)
        case Err(_) => None
    }

    function Answer(k: nat): Option<CallError>
      requires before != [] && Seen(k).Some?
    {
      WriteError(Arrives(2 * k), Seen(k).value, env(from + 2 * k))
    }

    /** Attempt `k` meets a conflict, and the re-read after it succeeds. */
    predicate Retries(k: nat)
      requires before != []
    {
      Seen(k).Some? && Answer(k) == Some(Conflict) && Seen(k + 1).Some?
    }

    ghost predicate Reaches(k: nat)
      requires before != []
    {
      forall j: nat :: j < k ==> Retries(j)
    }
  }

  const STATUS_RETRIES := 3

  /**
   How it ends, decided by the surroundings alone: attempt `k` is the last, or the three have all met
   conflicts. It stores the status, fails for good, or cannot be followed by a re-read.
   */
  ghost predicate StatusEnds(w: StatusWrite, status: Status, k: nat, rs: seq<Revision>, to: nat)
    requires w.before != []
  {
    && k <= STATUS_RETRIES && w.Reaches(k) && w.Seen(k).Some?
    && if k == STATUS_RETRIES then rs == w.Arrives(5) && to == w.from + 6
       else match w.Answer(k)
         case None => rs == Written(w.Arrives(2 * k), status) && to == w.from + 2 * k + 1
         case Some(Conflict) => w.Seen(k + 1) == None && rs == w.Arrives(2 * k + 1) && to == w.from + 2 * k + 2
         case Some(_) => rs == w.Arrives(2 * k) && to == w.from + 2 * k + 1
  }

  ghost predicate StatusTried(w: StatusWrite, status: Status, rs: seq<Revision>, to: nat)
    requires w.before != []
  {
    exists k: nat :: StatusEnds(w, status, k, rs, to)
  }

  lemma EarlierIsRetried(w: StatusWrite, k: nat, j: nat)
    requires w.before != [] && w.Reaches(k)
    ensures j < k ==> w.Retries(j)
  {
  }

  lemma LastIsNotRetried(w: StatusWrite, status: Status, k: nat, rs: seq<Revision>, to: nat)
    requires w.before != [] && StatusEnds(w, status, k, rs, to)
    ensures k < STATUS_RETRIES ==> !w.Retries(k)
  {
    hide StoreMet, GetResult, WriteError, Written, StatusWrite.Reaches;
  }

  /** Attempt `k` was overtaken: the server reported a conflict, or the last revision is not the one it goes by. */
  ghost predicate StatusOvertaken(w: StatusWrite, k: nat)
    requires w.before != []
  {
    || w.env(w.from + 2 * k).fault == Some(Conflicted)
    || w.Seen(k) != Some(|w.Arrives(2 * k)| - 1)
  }

  /** The re-read after attempt `k` returns nothing: the call failed, or the resource was gone in what it reads. */
  ghost predicate StatusUnreadable(w: StatusWrite, k: nat)
    requires w.before != []
  {
    GetResult(w.Arrives(2 * k + 1), w.env(w.from + (2 * k + 1))).Err?
  }

  lemma StatusConflictMeans(w: StatusWrite, k: nat)
    requires w.before != [] && w.Seen(k).Some?
    ensures w.Answer(k) == Some(Conflict) ==> StatusOvertaken(w, k)
    ensures w.Answer(k).Some? && w.Answer(k) != Some(Conflict) ==>
              || w.env(w.from + 2 * k).fault == Some(Refused)
              || w.Arrives(2 * k)[|w.Arrives(2 * k)| - 1].cr == None
  {
    hide StoreMet, GetResult, StatusWrite.Seen;
  }

  lemma StatusRereadMeans(w: StatusWrite, k: nat)
    requires w.before != []
    ensures w.Seen(k + 1) == None <==> StatusUnreadable(w, k)
  {
    hide StoreMet;
    assert 2 * (k + 1) - 1 == 2 * k + 1;
  }

  /**
   When a status is lost: a write was refused or found the resource gone; a re-read after a conflict
   returned nothing; or three attempts in a row were overtaken. Otherwise it is stored.
   */
  lemma StatusLostForCause(w: StatusWrite, status: Status, k: nat, rs: seq<Revision>, to: nat)
    requires w.before != [] && StatusEnds(w, status, k, rs, to)
    ensures || (k < STATUS_RETRIES && w.Answer(k) == None && rs == Written(w.Arrives(2 * k), status))
            || (k < STATUS_RETRIES && w.env(w.from + 2 * k).fault == Some(Refused))
            || (k < STATUS_RETRIES && w.Arrives(2 * k)[|w.Arrives(2 * k)| - 1].cr == None)
            || (k < STATUS_RETRIES && StatusOvertaken(w, k) && StatusUnreadable(w, k))
            || (StatusOvertaken(w, 0) && StatusOvertaken(w, 1) && StatusOvertaken(w, 2))
  {
    StatusConflictMeans(w, k);
    StatusRereadMeans(w, k);
    hide StoreMet, GetResult, Written, StatusOvertaken, StatusUnreadable, StatusWrite.Seen, StatusWrite.Arrives;
    if k == STATUS_RETRIES {
      EarlierIsRetried(w, k, 0);
      EarlierIsRetried(w, k, 1);
      EarlierIsRetried(w, k, 2);
      StatusConflictMeans(w, 0);
      StatusConflictMeans(w, 1);
      StatusConflictMeans(w, 2);
    }
  }

  lemma StatusLandsAt(w: StatusWrite, status: Status, j: nat, k: nat, rs: seq<Revision>, to: nat)
    requires w.before != [] && StatusEnds(w, status, k, rs, to) && j < STATUS_RETRIES && w.Reaches(j)
    requires w.Seen(j).Some? && w.Answer(j) == None
    ensures k == j && rs == Written(w.Arrives(2 * j), status) && to == w.from + 2 * j + 1
  {
    EarlierIsRetried(w, j, k);
    EarlierIsRetried(w, k, j);
    LastIsNotRetried(w, status, k, rs, to);
    hide StoreMet, GetResult, Written, WriteError, StatusWrite.Reaches, StatusWrite.Seen, StatusWrite.Answer;
  }

  /** A re-read that is served and current sees the last revision, and if none follows the next write is accepted. */
  lemma CurrentRereadLands(w: StatusWrite, j: nat)
    requires w.before != [] && w.Reaches(j) && w.Seen(j).Some? && w.Answer(j) == Some(Conflict)
    requires var read, write := w.env(w.from + (2 * j + 1)), w.env(w.from + 2 * (j + 1));
             read.fault == None && read.lag == 0 && write.fault == None && write.steps == []
    requires var met := w.Arrives(2 * j + 1); met[|met| - 1].cr.Some?
    ensures w.Arrives(2 * (j + 1)) == w.Arrives(2 * j + 1)
    ensures w.Reaches(j + 1) && w.Seen(j + 1).Some? && w.Answer(j + 1) == None
  {
    assert 2 * (j + 1) - 1 == 2 * j + 1;
    assert w.Arrives(2 * (j + 1)) == TakeSteps(w.Arrives(2 * j + 1), []);
    assert w.Retries(j);
  }

  /**
   What retrying is for: when one of the first two attempts met a conflict, the next re-read is served and
   current, the resource is still there and nobody writes before the next attempt, the status is stored.
   */
  lemma StatusRetryLands(w: StatusWrite, status: Status, j: nat, k: nat, rs: seq<Revision>, to: nat)
    requires w.before != [] && StatusEnds(w, status, k, rs, to) && j < STATUS_RETRIES - 1
    requires w.Reaches(j) && w.Seen(j).Some? && w.Answer(j) == Some(Conflict)
    requires var read, write := w.env(w.from + (2 * j + 1)), w.env(w.from + 2 * (j + 1));
             read.fault == None && read.lag == 0 && write.fault == None && write.steps == []
    requires var met := w.Arrives(2 * j + 1); met[|met| - 1].cr.Some?
    ensures k == j + 1 && rs == Written(w.Arrives(2 * j + 1), status)
  {
    CurrentRereadLands(w, j);
    hide *;
    StatusLandsAt(w, status, j + 1, k, rs, to);
  }

  /** What one attempt settles. */
  lemma StatusAttemptSettles(w: StatusWrite, status: Status, k: nat, version: nat, rs: seq<Revision>,
                             e: Option<CallError>)
    requires w.before != [] && k < STATUS_RETRIES && w.Reaches(k) && w.Seen(k) == Some(version)
    requires e == WriteError(w.Arrives(2 * k), version, w.env(w.from + 2 * k))
    requires rs == if e == None then Written(w.Arrives(2 * k), status) else w.Arrives(2 * k)
    ensures e == w.Answer(k)
    ensures e != Some(Conflict) ==> StatusEnds(w, status, k, rs, w.from + 2 * k + 1)
  {
    hide StoreMet, Written, WriteError, StatusWrite.Reaches, StatusWrite.Seen, StatusWrite.Arrives;
  }

  /** What the re-read after a conflict settles. */
  lemma StatusRereadSettles(w: StatusWrite, status: Status, k: nat, reply: Reply<(Cr, nat)>)
    requires w.before != [] && k < STATUS_RETRIES && w.Reaches(k) && w.Seen(k).Some? && w.Answer(k) == Some(Conflict)
    requires reply == GetResult(w.Arrives(2 * k + 1), w.env(w.from + (2 * k + 1)))
    ensures if reply.Err? then StatusEnds(w, status, k, w.Arrives(2 * k + 1), w.from + 2 * k + 2)
            else w.Reaches(k + 1) && w.Seen(k + 1) == Some(reply.value.1)
    ensures k + 1 == STATUS_RETRIES && reply.Ok? ==> StatusEnds(w, status, k + 1, w.Arrives(5), w.from + 6)
  {
    hide StoreMet, Written, WriteError;
    assert 2 * (k + 1) - 1 == 2 * k + 1;
    assert reply.Ok? ==> w.Retries(k);
  }

  /** Where a reconcile stands with the store: the revisions, the number of calls made, the version it goes by. */
  datatype Point = Point(rs: seq<Revision>, n: nat, version: nat)

  /**
   One status write without a retry, or none: it lands exactly when the surroundings let it, and then the
   reconcile goes by the version it has written.
   */
  ghost predicate Moves(env: nat -> StoreTurn, p: Point, write: Option<Status>, q: Point)
  {
    match write
    case None => q == p
    case Some(status) =>
      p.rs != [] &&
      var met := StoreMet(env, p.rs, p.n, 1);
      q == if WriteError(met, p.version, env(p.n)) == None
           then Point(Written(met, status), p.n + 1, |met|) else Point(met, p.n + 1, p.version)
  }

  /**
   How the deferred status write ends: nothing is written when the resource cannot be read or holds the
   status already, to the nanosecond; otherwise it is written with retries.
   */
  ghost predicate PersistEnds(env: nat -> StoreTurn, n: nat, rs: seq<Revision>, status: Status, rs': seq<Revision>,
                              to: nat)
    requires rs != []
  {
    var met := StoreMet(env, rs, n, 1);
    match GetResult(met, env(n))
    case Err(_) => rs' == met && to == n + 1
    case Ok((latest, version)) =>
      if latest.status == status then rs' == met && to == n + 1
      else StatusTried(StatusWrite(env, met, n + 1, version), StoredStatus(status), rs', to)
  }

  /** What the deferred status write promises; undisturbed, the resource ends up with exactly this status. */
  ghost predicate PersistDone(env: nat -> StoreTurn, n: nat, rs: seq<Revision>, generation: nat, status: Status,
                              rs': seq<Revision>, to: nat)
  {
    && rs != [] && (OnlyOthers(rs, rs') || OneWrite(rs, rs', Observed(generation, status)))
    && PersistEnds(env, n, rs, status.(stamps := status.stamps.(observed := generation)), rs', to)
    && (CalmStore(env, n, to) && rs[|rs| - 1].cr.Some? ==>
          && rs' != [] && rs'[|rs'| - 1].cr.Some?
          && rs'[|rs'| - 1].cr.value == rs[|rs| - 1].cr.value.(status := Observed(generation, status)))
  }

  lemma NotCompared(env: nat -> StoreTurn, n: nat, rs: seq<Revision>, generation: nat, status: Status,
                    met: seq<Revision>, reply: Reply<(Cr, nat)>)
    requires rs != [] && met == TakeSteps(rs, env(n).steps) && reply == GetResult(met, env(n)) && reply.Err?
    requires OnlyOthers(rs, met)
    ensures PersistDone(env, n, rs, generation, status, met, n + 1)
  {
    StoreMetFirst(env, rs, n);
    if CalmStore(env, n, n + 1) && rs[|rs| - 1].cr.Some? {
      CalmTurns(env, n, rs);
    }
    hide StoreMet, TakeSteps, OnlyOthers;
  }

  lemma HeldAlready(env: nat -> StoreTurn, n: nat, rs: seq<Revision>, generation: nat, status: Status,
                    met: seq<Revision>, reply: Reply<(Cr, nat)>)
    requires rs != [] && met == TakeSteps(rs, env(n).steps) && reply == GetResult(met, env(n)) && reply.Ok?
    requires reply.value.0.status == status.(stamps := status.stamps.(observed := generation))
    requires StoredStamps(reply.value.0.status.stamps) == reply.value.0.status.stamps && OnlyOthers(rs, met)
    ensures PersistDone(env, n, rs, generation, status, met, n + 1)
  {
    StoreMetFirst(env, rs, n);
    if CalmStore(env, n, n + 1) && rs[|rs| - 1].cr.Some? {
      CalmTurns(env, n, rs);
    }
    hide StoreMet, TakeSteps, OnlyOthers, StatusTried;
  }

  lemma PersistedSo(env: nat -> StoreTurn, n: nat, m: nat, rs: seq<Revision>, generation: nat, status: Status,
                    met: seq<Revision>, reply: Reply<(Cr, nat)>, rs': seq<Revision>, to: nat)
    requires rs != [] && met == TakeSteps(rs, env(n).steps) && reply == GetResult(met, env(n)) && reply.Ok?
    requires reply.value.0.status != status.(stamps := status.stamps.(observed := generation))
    requires m == n + 1 && to > m && OnlyOthers(rs, met)
    requires OnlyOthers(met, rs') || OneWrite(met, rs', Observed(generation, status))
    requires StatusTried(StatusWrite(env, met, m, reply.value.1), Observed(generation, status), rs', to)
    ensures PersistDone(env, n, rs, generation, status, rs', to)
  {
    hide StoreMet, TakeSteps, OnlyOthers, OneWrite, StatusTried, GetResult, StoredStamps, CalmStore;
    StoreMetFirst(env, rs, n);
    LaterWrite(rs, met, rs', Observed(generation, status));
    PersistCalmly(env, n, m, rs, met, reply, Observed(generation, status), rs', to);
    assert StatusWrite(env, met, n + 1, reply.value.1) == StatusWrite(env, met, m, reply.value.1);
  }

  class CrStore {
    const env: nat -> StoreTurn
    var revisions: seq<Revision>
    var calls: nat
    ghost var seen: nat

    ghost predicate Valid()
      reads this
    {
      HistoryOk(revisions, seen)
    }

    constructor (env: nat -> StoreTurn, cr: Cr)
      requires cr.status == Status(Stamps(0, None, None, None), [], map[])
      ensures Valid() && this.env == env && revisions == [Revision(Elsewhere(Touch), Some(cr))]
    {
      this.env, revisions, calls, seen := env, [Revision(Elsewhere(Touch), Some(cr))], 0, 0;
    }

    /** The steps of others that arrive before the next call. */
    method Arrive() returns (turn: StoreTurn)
      requires Valid()
      modifies this`revisions, this`calls
      ensures Valid() && calls == old(calls) + 1 && turn == env(old(calls))
      ensures revisions == old(Arrived()) && OnlyOthers(old(revisions), revisions)
    {
      turn := env(calls);
      StepsKeepHistoryOk(revisions, seen, turn.steps);
      calls := calls + 1;
      revisions := TakeSteps(revisions, turn.steps);
    }

    /** The revisions once the steps before the next call have arrived. */
    function Arrived(): seq<Revision>
      requires revisions != []
      reads this
    {
      TakeSteps(revisions, env(calls).steps)
    }

    /** Reads the resource, possibly a revision that is not the last, with its version. */
    method Get() returns (r: Reply<(Cr, nat)>)
      requires Valid()
      modifies this`revisions, this`calls
      ensures Valid() && revisions == old(Arrived()) && calls == old(calls) + 1 && OnlyOthers(old(revisions), revisions)
      ensures r == GetResult(revisions, env(old(calls)))
      ensures r.Ok? ==> r.value.1 < |revisions| && revisions[r.value.1].cr == Some(r.value.0)
      ensures CalmStore(env, old(calls), calls) ==> revisions == old(revisions) && r == Latest(revisions)
    {
      if CalmStore(env, calls, calls + 1) { CalmTurns(env, calls, revisions); }
      var turn := Arrive();
      if turn.fault.Some? {
        return Err(Failed);
      }
      var version := if turn.lag < |revisions| then |revisions| - 1 - turn.lag else 0;
      r := if revisions[version].cr == None then Err(NotFound) else Ok((revisions[version].cr.value, version));
    }

    /** A reconcile starts from the generation it has read. */
    ghost method NoteRead(cr: Cr, version: nat)
      requires Valid() && version < |revisions| && revisions[version].cr == Some(cr)
      modifies this`seen
      ensures Valid() && seen == if cr.generation > old(seen) then cr.generation else old(seen)
    {
      if revisions[|revisions| - 1].cr.Some? {
        GenerationsRise(revisions, version, |revisions| - 1);
      }
      seen := if cr.generation > seen then cr.generation else seen;
    }

    method UpdateStatus(version: nat, status: Status) returns (e: Option<CallError>)
      requires Valid() && status.stamps.observed <= seen && StatusOk(status)
      modifies this`revisions, this`calls
      ensures Valid() && calls == old(calls) + 1
      ensures e == WriteError(old(Arrived()), version, env(old(calls)))
      ensures if e == None then OneWrite(old(revisions), revisions, StoredStatus(status))
              else OnlyOthers(old(revisions), revisions)
      ensures revisions == if e == None then Written(old(Arrived()), StoredStatus(status)) else old(Arrived())
    {
      var turn := Arrive();
      if turn.fault.Some? {
        return Some(FaultError(turn.fault.value));
      }
      var last := revisions[|revisions| - 1];
      if last.cr == None {
        return Some(NotFound);
      }
      if version != |revisions| - 1 {
        return Some(Conflict);
      }
      WriteKeepsHistoryOk(revisions, seen, status);
      revisions := Written(revisions, StoredStatus(status));
      e := None;
    }

    method UpdateFinalizers(version: nat, finalizers: seq<string>) returns (e: Option<CallError>)
      requires Valid()
      modifies this`revisions, this`calls
      ensures Valid() && calls == old(calls) + 1 && StatusUntouched(old(revisions), revisions)
      ensures e == WriteError(old(Arrived()), version, env(old(calls)))
      ensures e != None ==> revisions == old(Arrived()) && OnlyOthers(old(revisions), revisions)
      ensures e == None ==> var last := old(Arrived()[|Arrived()| - 1].cr);
                last.Some? &&
                revisions ==
                old(Arrived()) + [Revision(OperatorFinalizers, Some(last.value.(finalizers := finalizers)))]
    {
      var turn := Arrive();
      if turn.fault.Some? {
        return Some(FaultError(turn.fault.value));
      }
      var last := revisions[|revisions| - 1];
      if last.cr == None {
        return Some(NotFound);
      }
      if version != |revisions| - 1 {
        return Some(Conflict);
      }
      revisions := revisions + [Revision(OperatorFinalizers, Some(last.cr.value.(finalizers := finalizers)))];
      e := None;
    }

    /**
     The status write at the end of a reconcile: compares with the latest status, and retries
     conflicts. At most one write lands, and it carries the generation that was read at the start.
     Undisturbed, the resource ends up with exactly this status.
     */
    method PersistStatus(generation: nat, status: Status)
      requires Valid() && generation <= seen && StatusOk(status)
      modifies this`revisions, this`calls
      ensures Valid() && calls > old(calls)
      ensures PersistDone(env, old(calls), old(revisions), generation, status, revisions, calls)
    {
      ghost var c0, rs0 := calls, revisions;
      NotEmpty(revisions, seen);
      hide PersistDone, Chained, StatusTried, OnlyOthers, OneWrite, TakeSteps, GetResult, Latest, CalmStore, Observed;
      var reply := Get();
      ghost var met := revisions;
      if reply.Err? {
        NotCompared(env, c0, rs0, generation, status, met, reply);
        return;
      }
      var latest, version := reply.value.0, reply.value.1;
      var desired := status.(stamps := status.stamps.(observed := generation));
      assert CrOk(revisions[version].cr.value, seen);
      if latest.status == desired {
        HeldAlready(env, c0, rs0, generation, status, met, reply);
        return;
      }
      ghost var c1 := calls;
      RetryStatus(version, desired);
      PersistedSo(env, c0, c1, rs0, generation, status, met, reply, revisions, calls);
    }

    /** Up to three attempts to write a status; only a conflict is tried again, on a fresh version. */
    method RetryStatus(first: nat, status: Status)
      requires Valid() && status.stamps.observed <= seen && StatusOk(status)
      modifies this`revisions, this`calls
      ensures Valid() && calls > old(calls)
      ensures OnlyOthers(old(revisions), revisions) || OneWrite(old(revisions), revisions, StoredStatus(status))
      // How often it tries and how it ends, whatever the surroundings do.
      ensures StatusTried(StatusWrite(env, old(revisions), old(calls), first), StoredStatus(status), revisions, calls)
    {
      NotEmpty(revisions, seen);
      ghost var w := StatusWrite(env, revisions, calls, first);
      TryingStarts(w);
      hide *;
      var version := first;
      var attempt := 0;
      while attempt < STATUS_RETRIES
        invariant Valid() && 0 <= attempt <= STATUS_RETRIES && Trying(w, attempt, version, revisions, calls)
        invariant attempt == STATUS_RETRIES ==> StatusEnds(w, StoredStatus(status), attempt, revisions, calls)
        invariant w.before != []
      {
        var conflict;
        conflict, version := WriteOrReread(w, attempt, version, status);
        if !conflict {
          TriedMeans(w, StoredStatus(status), attempt, revisions, calls);
          return;
        }
        attempt := attempt + 1;
      }
      TriedMeans(w, StoredStatus(status), attempt, revisions, calls);
    }

    /** One attempt: on a conflict the resource is read again, for its version. */
    method WriteOrReread(ghost w: StatusWrite, ghost k: nat, version: nat, status: Status)
      returns (conflict: bool, next: nat)
      requires Valid() && status.stamps.observed <= seen && StatusOk(status)
      requires k < STATUS_RETRIES && Trying(w, k, version, revisions, calls) && w.env == env && w.before != []
      modifies this`revisions, this`calls
      ensures Valid()
      ensures !conflict ==> StatusEnds(w, StoredStatus(status), k, revisions, calls)
      ensures conflict ==> Trying(w, k + 1, next, revisions, calls)
      ensures conflict && k + 1 == STATUS_RETRIES ==> StatusEnds(w, StoredStatus(status), k + 1, revisions, calls)
    {
      hide Trying, MetConflict, StatusEnds, OneWrite, OnlyOthers, Written, GetResult, WriteError, StatusOk, CalmStore,
           Latest, TakeSteps, Chained, CrOk;
      ghost var rs, to := revisions, calls;
      var e := UpdateStatus(version, status);
      AfterWrite(w, StoredStatus(status), k, version, rs, to, e, revisions);
      if e != Some(Conflict) {
        return false, version;
      }
      rs, to := revisions, calls;
      var reply := Get();
      AfterReread(w, StoredStatus(status), k, rs, to, reply, revisions);
      if reply.Err? {
        return false, version;
      }
      return true, reply.value.1;
    }
  }

  /** The attempts before number `k` have met conflicts, and it goes by `version`. */
  ghost predicate Trying(w: StatusWrite, k: nat, version: nat, rs: seq<Revision>, to: nat)
  {
    && w.before != [] && w.Reaches(k) && w.Seen(k) == Some(version)
    && rs == StoreMet(w.env, w.before, w.from, 2 * k) && to == w.from + 2 * k
  }

  /** Attempt `k` has met a conflict too. */
  ghost predicate MetConflict(w: StatusWrite, k: nat, rs: seq<Revision>, to: nat)
  {
    && w.before != [] && w.Reaches(k) && w.Seen(k).Some? && w.Answer(k) == Some(Conflict)
    && rs == w.Arrives(2 * k) && to == w.from + 2 * k + 1
  }

  lemma TryingStarts(w: StatusWrite)
    requires w.before != []
    ensures Trying(w, 0, w.first, w.before, w.from)
  {
  }

  lemma AfterWrite(w: StatusWrite, status: Status, k: nat, version: nat, rs: seq<Revision>, to: nat,
                   e: Option<CallError>, rs': seq<Revision>)
    requires k < STATUS_RETRIES && Trying(w, k, version, rs, to) && rs != []
    requires e == WriteError(TakeSteps(rs, w.env(to).steps), version, w.env(to))
    requires rs' == var met := TakeSteps(rs, w.env(to).steps); if e == None then Written(met, status) else met
    ensures if e == Some(Conflict) then MetConflict(w, k, rs', to + 1) else StatusEnds(w, status, k, rs', to + 1)
    ensures w.before != []
  {
    hide TakeSteps, Written, WriteError, StatusWrite.Reaches, StatusWrite.Seen;
    StoreMetNext(w.env, w.before, w.from, 2 * k);
    StatusAttemptSettles(w, status, k, version, rs', e);
  }

  lemma AfterReread(w: StatusWrite, status: Status, k: nat, rs: seq<Revision>, to: nat, reply: Reply<(Cr, nat)>,
                    rs': seq<Revision>)
    requires k < STATUS_RETRIES && MetConflict(w, k, rs, to) && rs != []
    requires rs' == TakeSteps(rs, w.env(to).steps) && reply == GetResult(rs', w.env(to))
    ensures if reply.Err? then StatusEnds(w, status, k, rs', to + 1) else Trying(w, k + 1, reply.value.1, rs', to + 1)
    ensures k + 1 == STATUS_RETRIES && reply.Ok? ==> StatusEnds(w, status, k + 1, rs', to + 1)
    ensures w.before != []
  {
    hide TakeSteps, GetResult, StatusWrite.Reaches, StatusWrite.Seen, StatusWrite.Answer, StatusEnds;
    StoreMetNext(w.env, w.before, w.from, 2 * k + 1);
    StatusRereadSettles(w, status, k, reply);
  }

  lemma StatusStarts(w: StatusWrite)
    requires w.before != []
    ensures w.Reaches(0) && w.Seen(0) == Some(w.first)
  {
  }

  lemma StoreMetNext(env: nat -> StoreTurn, rs: seq<Revision>, n: nat, k: nat)
    requires rs != []
    ensures StoreMet(env, rs, n, k + 1) == TakeSteps(StoreMet(env, rs, n, k), env(n + k).steps)
  {
  }

  lemma StoreMetFirst(env: nat -> StoreTurn, rs: seq<Revision>, n: nat)
    requires rs != []
    ensures StoreMet(env, rs, n, 1) == TakeSteps(rs, env(n).steps)
  {
    assert StoreMet(env, rs, n, 0) == rs;
  }

  lemma NotEmpty(rs: seq<Revision>, seen: nat)
    requires HistoryOk(rs, seen)
    ensures rs != []
  {
  }

  lemma {:induction false} StepsAreOthers(rs: seq<Revision>, steps: seq<Step>)
    requires rs != []
    ensures OnlyOthers(rs, TakeSteps(rs, steps))
    decreases |steps|
  {
    if steps != [] {
      var last := rs[|rs| - 1];
      var next := Revision(Elsewhere(steps[0]), if last.cr.Some? then Take(last.cr.value, steps[0]) else None);
      StepsAreOthers(rs + [next], steps[1..]);
    }
  }

  lemma {:induction false} StoreMetIsOthers(env: nat -> StoreTurn, rs: seq<Revision>, n: nat, k: nat)
    requires rs != []
    ensures OnlyOthers(rs, StoreMet(env, rs, n, k))
  {
    if k > 0 {
      StoreMetIsOthers(env, rs, n, k - 1);
      StepsAreOthers(StoreMet(env, rs, n, k - 1), env(n + (k - 1)).steps);
    }
  }

  /** Attempt `k` fails for good: the write is refused, the resource is gone, or it cannot be read after a conflict. */
  ghost predicate StatusFailsAt(w: StatusWrite, k: nat)
    requires w.before != []
  {
    || w.env(w.from + 2 * k).fault == Some(Refused)
    || w.Arrives(2 * k)[|w.Arrives(2 * k)| - 1].cr == None
    || (StatusOvertaken(w, k) && StatusUnreadable(w, k))
  }

  ghost predicate StatusLoss(w: StatusWrite)
    requires w.before != []
  {
    || (exists k: nat :: k < STATUS_RETRIES && w.Reaches(k) && StatusFailsAt(w, k))
    || (StatusOvertaken(w, 0) && StatusOvertaken(w, 1) && StatusOvertaken(w, 2))
  }

  /** The resource stands with this status. */
  predicate StandsWith(rs: seq<Revision>, status: Status)
  {
    rs != [] && rs[|rs| - 1].cr.Some? && rs[|rs| - 1].cr.value.status == status
  }

  /**
   The status a reconcile has come to is what the resource stands with in the end, unless the resource could
   not be read for the comparison, an attempt failed for good, or three were overtaken.
   */
  lemma PersistLostForCause(env: nat -> StoreTurn, n: nat, rs: seq<Revision>, status: Status, rs': seq<Revision>,
                            to: nat)
    requires rs != [] && PersistEnds(env, n, rs, status, rs', to)
    ensures var met := StoreMet(env, rs, n, 1);
            var reply := GetResult(met, env(n));
      || StandsWith(rs', StoredStatus(status)) || reply.Err?
      || (reply.value.0.status == status && rs' == met)
      || StatusLoss(StatusWrite(env, met, n + 1, reply.value.1))
  {
    var met := StoreMet(env, rs, n, 1);
    var reply := GetResult(met, env(n));
    if reply.Ok? && !(reply.value.0.status == status && rs' == met) {
      LossMeans(StatusWrite(env, met, n + 1, reply.value.1), StoredStatus(status), rs', to);
    }
  }

  lemma LossMeans(w: StatusWrite, status: Status, rs: seq<Revision>, to: nat)
    requires w.before != [] && StatusTried(w, status, rs, to)
    ensures StandsWith(rs, status) || StatusLoss(w)
  {
    hide StatusOvertaken, StatusUnreadable, StoreMet, GetResult, StatusWrite.Reaches, StatusWrite.Seen;
    var k: nat :| StatusEnds(w, status, k, rs, to);
    StatusLostForCause(w, status, k, rs, to);
    assert k < STATUS_RETRIES && StatusFailsAt(w, k) ==> StatusLoss(w);
  }

  /** However it ends, the status has been written once, or not at all. */
  lemma TriedMeans(w: StatusWrite, status: Status, k: nat, rs: seq<Revision>, to: nat)
    requires w.before != [] && StatusEnds(w, status, k, rs, to)
    ensures OnlyOthers(w.before, rs) || OneWrite(w.before, rs, status)
    ensures StatusTried(w, status, rs, to) && to > w.from
  {
    StoreMetIsOthers(w.env, w.before, w.from, 2 * k + 1);
    StoreMetIsOthers(w.env, w.before, w.from, 2 * k + 2);
    StoreMetIsOthers(w.env, w.before, w.from, 6);
    hide StoreMet, GetResult, WriteError, StatusWrite.Reaches, StatusWrite.Seen, OnlyOthers, OneWrite, Written;
    if k < STATUS_RETRIES && w.Answer(k) == None {
      AcceptedIsThere(w, k);
      WrittenOnce(w.before, w.Arrives(2 * k), status);
    }
    hide StatusWrite.Answer;
  }

  lemma AcceptedIsThere(w: StatusWrite, k: nat)
    requires w.before != [] && w.Seen(k).Some? && w.Answer(k) == None
    ensures w.Arrives(2 * k)[|w.Arrives(2 * k)| - 1].cr.Some?
  {
    hide StoreMet, GetResult, StatusWrite.Seen;
  }

  lemma WrittenOnce(rs0: seq<Revision>, rs: seq<Revision>, status: Status)
    requires rs != [] && rs[|rs| - 1].cr.Some? && OnlyOthers(rs0, rs)
    ensures OneWrite(rs0, Written(rs, status), status)
  {
  }

  lemma OthersChain(a: seq<Revision>, b: seq<Revision>, c: seq<Revision>)
    requires OnlyOthers(a, b) && OnlyOthers(b, c)
    ensures OnlyOthers(a, c)
  {
  }

  lemma LaterWrite(a: seq<Revision>, b: seq<Revision>, c: seq<Revision>, status: Status)
    requires OnlyOthers(a, b)
    ensures OnlyOthers(b, c) ==> OnlyOthers(a, c)
    ensures OneWrite(b, c, status) ==> OneWrite(a, c, status)
  {
  }

  lemma PersistCalmly(env: nat -> StoreTurn, n: nat, m: nat, rs: seq<Revision>, met: seq<Revision>,
                      reply: Reply<(Cr, nat)>, status: Status, rs': seq<Revision>, to: nat)
    requires rs != [] && met == TakeSteps(rs, env(n).steps) && m == n + 1 && to > m
    requires reply == GetResult(met, env(n)) && reply.Ok?
    requires StatusTried(StatusWrite(env, met, m, reply.value.1), status, rs', to)
    ensures CalmStore(env, n, to) && rs[|rs| - 1].cr.Some? ==> rs' == Written(rs, status)
  {
    if CalmStore(env, n, to) && rs[|rs| - 1].cr.Some? {
      assert env(n) == env(m) == StoreTurn([], None, 0);
      CalmTurns(env, n, rs);
      hide TakeSteps, GetResult, StatusTried, Written;
      CalmLands(StatusWrite(env, met, m, reply.value.1), status, rs', to);
    }
  }

  /** On a calm store the first attempt lands. */
  lemma CalmLands(w: StatusWrite, status: Status, rs: seq<Revision>, to: nat)
    requires w.before != [] && StatusTried(w, status, rs, to) && w.env(w.from) == StoreTurn([], None, 0)
    requires w.before[|w.before| - 1].cr.Some? && w.first == |w.before| - 1
    ensures rs == Written(w.before, status)
  {
    StatusStarts(w);
    CalmFirst(w);
    hide *;
    var k: nat :| StatusEnds(w, status, k, rs, to);
    StatusLandsAt(w, status, 0, k, rs, to);
  }

  lemma CalmFirst(w: StatusWrite)
    requires w.before != [] && w.env(w.from) == StoreTurn([], None, 0)
    requires w.before[|w.before| - 1].cr.Some? && w.first == |w.before| - 1
    ensures w.Arrives(0) == w.before && w.Answer(0) == None
  {
    assert StoreMet(w.env, w.before, w.from, 0) == w.before;
    CalmTurns(w.env, w.from, w.before);
  }

  /** The status as the server keeps it once a reconcile of `generation` has written it. */
  function Observed(generation: nat, status: Status): Status
  {
    StoredStatus(status.(stamps := status.stamps.(observed := generation)))
  }

  /** One more revision, a status write of the operator's. */
  function Written(rs: seq<Revision>, status: Status): (out: seq<Revision>)
    requires rs != []
    ensures |out| == |rs| + 1 && rs <= out
  {
    var last := rs[|rs| - 1];
    rs + [Revision(OperatorStatus, if last.cr.Some? then Some(last.cr.value.(status := status)) else None)]
  }

  lemma WriteKeepsHistoryOk(rs: seq<Revision>, seen: nat, status: Status)
    requires HistoryOk(rs, seen) && rs[|rs| - 1].cr.Some?
    requires status.stamps.observed <= seen && StatusOk(status)
    ensures HistoryOk(Written(rs, StoredStatus(status)), seen)
  {
    StoringIsIdempotent(status.stamps);
  }

  /** On a calm store nothing arrives, reads give the last revision, and writing back to it succeeds. */
  lemma CalmTurns(env: nat -> StoreTurn, n: nat, rs: seq<Revision>)
    requires env(n) == StoreTurn([], None, 0) && rs != []
    ensures TakeSteps(rs, env(n).steps) == rs && GetResult(rs, env(n)) == Latest(rs)
    ensures rs[|rs| - 1].cr.Some? ==> WriteError(rs, |rs| - 1, env(n)) == None
  {
  }

  /**
   Spec edits are not lost: as long as no reconcile has read the generation of an edit, however the
   edit interleaves with a pass, the next one that reads the resource attempts a full pass.
   */
  lemma EditsAreNotLost(rs: seq<Revision>, seen: nat, version: nat, cr: Cr, parse: Parser, now: Time, visible: Visible)
    requires HistoryOk(rs, seen) && version < |rs| && rs[version].cr == Some(cr)
    requires cr.generation > seen && parse(cr.spec.pollInterval).Some?
    ensures Decide(parse, cr.spec, cr.generation, cr.status.stamps, now, visible).full
  {
    assert CrOk(rs[version].cr.value, seen);
  }
}
