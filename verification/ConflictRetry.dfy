/** Writing the desired state onto one child under optimistic concurrency, with at most three attempts. */
module ConflictRetry {
  import opened Text
  import opened ObjectKeys
  import opened Manifests
  import opened Cluster

  const MAX_RETRIES := 3

  /** Updates, each but the first after a fresh read. */
  function NthCall(id: ObjectId, k: nat): Call
  {
    if k % 2 == 0 then UpdateCall(id) else GetCall(id)
  }

  /** The first `n` of them have been made, of five at most. */
  ghost predicate Made(before: seq<Call>, calls: seq<Call>, id: ObjectId, n: nat)
  {
    && n <= 5 && before <= calls && |calls| == |before| + n
    && forall k: nat :: k < n ==> calls[|before| + k] == NthCall(id, k)
  }

  lemma MadeOneMore(before: seq<Call>, calls: seq<Call>, id: ObjectId, n: nat, call: Call)
    requires Made(before, calls, id, n) && n < 5 && call == NthCall(id, n)
    ensures Made(before, calls + [call], id, n + 1)
  {
  }

  /** The last write is the operator's, and puts the desired state onto the object as it stood just before. */
  predicate LandedOnCurrent(h: History, id: ObjectId, desired: Manifest)
  {
    && h != []
    && var before := Current(h[..|h| - 1], id);
       before.Some? && h[|h| - 1] == Entry(Operator, id, Put(Updated(before.value.manifest, desired)))
  }

  /** An accepted update was made from the content it replaces. */
  lemma AcceptedUpdateLands(h: History, id: ObjectId, base: Stored, desired: Manifest, t: Turn)
    requires IsVersion(h, id, base) && UpdateError(h, id, base.version, t) == None
    ensures LandedOnCurrent(h + [Entry(Operator, id, Put(Updated(base.manifest, desired)))], id, desired)
  {
    VersionFixesContent(h, id, base);
    assert (h + [Entry(Operator, id, Put(Updated(base.manifest, desired)))])[..|h|] == h;
  }

  /** `existing` has been read as `base`, and overlaid at most once since. */
  ghost predicate Overlays(existing: LiveObject, h: History, id: ObjectId, base: Stored, desired: Manifest)
    reads existing
  {
    && IsVersion(h, id, base) && existing.version == base.version
    && (existing.Value() == base.manifest || existing.Value() == Overlaid(base.manifest, desired))
  }

  /** One write of the operator's, after writes of others only, onto the object exactly as they left it. */
  predicate Landed(before: History, after: History, id: ObjectId, desired: Manifest)
  {
    && LandedOnCurrent(after, id, desired) && before <= after && |before| < |after|
    && Quiet(after, |before|, |after| - 1)
  }

  /** What an attempt does: one landed write on success, nothing of the operator's otherwise. */
  predicate Tried(before: History, after: History, id: ObjectId, desired: Manifest, ok: bool)
  {
    if ok then Landed(before, after, id, desired) else OthersOnly(before, after)
  }

  /** An update with retries, as far as the surroundings decide it: where and when it starts, and from what. */
  datatype Contest = Contest(env: nat -> Turn, before: History, from: nat, id: ObjectId, read: Stored)
  {
    /** The history when call number `from + j` is served, as long as no update has landed. */
    function Arrives(j: nat): History
    {
      Met(env, before, from, j + 1)
    }

    /** What attempt `k` starts from: what the caller has read, or what the re-read before it returns. */
    function Seen(k: nat): Reply<Stored>
    {
      if k == 0 then Ok(read) else GetReply(Arrives(2 * k - 1), id, env(from + (2 * k - 1)))
    }

    /** What the server answers to the update of attempt `k`. */
    function Answer(k: nat): Option<CallError>
      requires Seen(k).Ok?
    {
      UpdateError(Arrives(2 * k), id, Seen(k).value.version, env(from + 2 * k))
    }

    /** Attempt `k` meets a conflict, and the re-read after it succeeds. */
    predicate Retries(k: nat)
    {
      Seen(k).Ok? && Answer(k) == Some(Conflict) && Seen(k + 1).Ok?
    }

    ghost predicate Reaches(k: nat)
    {
      forall j: nat :: j < k ==> Retries(j)
    }
  }

  /**
   How an update with retries ends, decided by the surroundings alone: attempt `k` is the last; it lands on
   what was seen just before, or fails for good, or cannot be followed by a re-read, or is the third conflict.
   */
  ghost predicate RetryEnds(c: Contest, desired: Manifest, k: nat, h: History, to: nat, err: Option<CallError>)
  {
    && k < MAX_RETRIES && c.Reaches(k) && c.Seen(k).Ok?
    && match c.Answer(k)
       case None =>
         && err == None && to == c.from + 2 * k + 1
         && h == c.Arrives(2 * k) + [Entry(Operator, c.id, Put(Updated(c.Seen(k).value.manifest, desired)))]
       case Some(Conflict) =>
         if k == MAX_RETRIES - 1 then err == Some(Conflict) && to == c.from + 5 && h == c.Arrives(4)
         else
           && c.Seen(k + 1).Err? && err == Some(c.Seen(k + 1).error)
           && to == c.from + 2 * k + 2 && h == c.Arrives(2 * k + 1)
       case Some(e) => err == Some(e) && to == c.from + 2 * k + 1 && h == c.Arrives(2 * k)
  }

  ghost predicate RetryDone(c: Contest, desired: Manifest, h: History, to: nat, ok: bool)
  {
    exists k: nat, err: Option<CallError> :: RetryEnds(c, desired, k, h, to, err) && ok == (err == None)
  }

  lemma EarlierIsRetried(c: Contest, k: nat, j: nat)
    requires c.Reaches(k)
    ensures j < k ==> c.Retries(j)
  {
  }

  lemma LastIsNotRetried(c: Contest, desired: Manifest, k: nat, h: History, to: nat, err: Option<CallError>)
    requires RetryEnds(c, desired, k, h, to, err)
    ensures k < MAX_RETRIES - 1 ==> !c.Retries(k)
  {
    hide Met, GetReply, UpdateError, Updated, Contest.Reaches;
  }

  /** There is one such end. */
  lemma EndsOnce(c: Contest, desired: Manifest, k: nat, h: History, to: nat, err: Option<CallError>, k': nat,
                 h': History, to': nat, err': Option<CallError>)
    requires RetryEnds(c, desired, k, h, to, err) && RetryEnds(c, desired, k', h', to', err')
    ensures k == k' && h == h' && to == to' && err == err'
  {
    hide Met, GetReply, UpdateError, Updated, Contest.Reaches, Contest.Retries, Contest.Seen, Contest.Answer;
    EarlierIsRetried(c, k', k);
    EarlierIsRetried(c, k, k');
    LastIsNotRetried(c, desired, k, h, to, err);
    LastIsNotRetried(c, desired, k', h', to', err');
  }

  /** The update of attempt `k` met a conflict because the server said so, or because the object is not the one seen. */
  ghost predicate Overtaken(c: Contest, k: nat)
  {
    || c.env(c.from + 2 * k).fault == Some(Conflicted)
    || (c.Seen(k).Ok? && Current(c.Arrives(2 * k), c.id) != Some(c.Seen(k).value))
  }

  /** The re-read after attempt `k` returns nothing: the call failed, or the object was not there. */
  ghost predicate CannotBeReread(c: Contest, k: nat)
  {
    var turn := c.env(c.from + (2 * k + 1));
    turn.fault.Some? || !c.id.Valid() || Current(Lagging(c.Arrives(2 * k + 1), turn.lag), c.id) == None
  }

  lemma ConflictMeansOvertaken(c: Contest, k: nat)
    requires c.Seen(k).Ok?
    ensures c.Answer(k) == Some(Conflict) ==> Overtaken(c, k)
  {
    hide Met, Contest.Seen, GetReply;
  }

  lemma NoReplyMeansNothingThere(c: Contest, k: nat)
    ensures c.Seen(k + 1).Err? ==> CannotBeReread(c, k)
  {
    hide Met;
    assert 2 * (k + 1) - 1 == 2 * k + 1;
  }

  /**
   When it gives up: an update was refused or found the object gone; a re-read after a conflict returned
   nothing; or three attempts in a row were overtaken. Nothing else makes it fail.
   */
  lemma GivesUpForCause(c: Contest, desired: Manifest, k: nat, h: History, to: nat, err: Option<CallError>)
    requires RetryEnds(c, desired, k, h, to, err) && err.Some?
    ensures || c.env(c.from + 2 * k).fault == Some(Refused)
            || Current(c.Arrives(2 * k), c.id) == None
            || (Overtaken(c, k) && CannotBeReread(c, k))
            || (k == 2 && Overtaken(c, 0) && Overtaken(c, 1) && Overtaken(c, 2))
  {
    ConflictMeansOvertaken(c, k);
    NoReplyMeansNothingThere(c, k);
    hide Met, GetReply, Updated, Overtaken, CannotBeReread, Contest.Seen, Contest.Arrives;
    if k == 2 {
      EarlierIsRetried(c, k, 0);
      EarlierIsRetried(c, k, 1);
      ConflictMeansOvertaken(c, 0);
      ConflictMeansOvertaken(c, 1);
    }
  }

  /** Attempt `k` is served: the object is there as it was seen, and the server reports neither refusal nor conflict. */
  ghost predicate CanLand(c: Contest, k: nat)
  {
    && c.env(c.from + 2 * k).fault == None
    && c.Seen(k).Ok? && Current(c.Arrives(2 * k), c.id) == Some(c.Seen(k).value)
  }

  lemma CanLandIsAccepted(c: Contest, k: nat)
    requires CanLand(c, k)
    ensures c.Answer(k) == None && !c.Retries(k)
  {
    hide Met, GetReply, Contest.Seen, Contest.Arrives;
  }

  lemma LandsAt(c: Contest, desired: Manifest, j: nat, k: nat, h: History, to: nat, err: Option<CallError>)
    requires RetryEnds(c, desired, k, h, to, err) && j < MAX_RETRIES && c.Reaches(j) && CanLand(c, j)
    ensures k == j && err == None && to == c.from + 2 * j + 1
    ensures h == c.Arrives(2 * j) +
                 [Entry(Operator, c.id, Put(Updated(Current(c.Arrives(2 * j), c.id).value.manifest, desired)))]
  {
    CanLandIsAccepted(c, j);
    EarlierIsRetried(c, j, k);
    EarlierIsRetried(c, k, j);
    LastIsNotRetried(c, desired, k, h, to, err);
    hide Met, GetReply, Updated, UpdateError, Contest.Reaches, Contest.Retries, Contest.Seen, Contest.Answer;
  }

  /** A re-read that is served and current sees the object, and if nobody changes it the next update lands. */
  lemma CurrentRereadCanLand(c: Contest, j: nat)
    requires c.id.Valid() && Current(c.Arrives(2 * j + 1), c.id).Some?
    requires c.env(c.from + (2 * j + 1)).fault == None && c.env(c.from + (2 * j + 1)).lag == 0
    requires c.env(c.from + 2 * (j + 1)).fault == None
    requires Current(c.Arrives(2 * (j + 1)), c.id) == Current(c.Arrives(2 * j + 1), c.id)
    ensures c.Seen(j + 1).Ok? && CanLand(c, j + 1)
  {
    hide Met, Contest.Arrives;
    var met := c.Arrives(2 * j + 1);
    assert met[..|met|] == met && 2 * (j + 1) - 1 == 2 * j + 1;
  }

  /**
   What retrying is for: when one of the first two attempts met a conflict, and the next re-read is served
   and current and the object does not change before the next update, that update lands on the object as
   re-read, whatever else is written meanwhile.
   */
  lemma RetryLands(c: Contest, desired: Manifest, j: nat, k: nat, h: History, to: nat, err: Option<CallError>)
    requires RetryEnds(c, desired, k, h, to, err) && j < MAX_RETRIES - 1 && c.id.Valid()
    requires c.Reaches(j) && c.Seen(j).Ok? && c.Answer(j) == Some(Conflict)
    requires c.env(c.from + (2 * j + 1)).fault == None && c.env(c.from + (2 * j + 1)).lag == 0
    requires c.env(c.from + 2 * (j + 1)).fault == None
    requires Current(c.Arrives(2 * j + 1), c.id).Some?
    requires Current(c.Arrives(2 * (j + 1)), c.id) == Current(c.Arrives(2 * j + 1), c.id)
    ensures k == j + 1 && err == None && to == c.from + 2 * (j + 1) + 1
    ensures h == c.Arrives(2 * (j + 1)) +
                 [Entry(Operator, c.id, Put(Updated(Current(c.Arrives(2 * j + 1), c.id).value.manifest, desired)))]
  {
    CurrentRereadCanLand(c, j);
    assert c.Retries(j);
    ReachesNext(c, j);
    hide *;
    LandsAt(c, desired, j + 1, k, h, to, err);
  }

  /**
   The object is there whenever one of the calls up to attempt `j` is served, and none of them fails but
   for conflicts.
   */
  ghost predicate InPlace(c: Contest, j: nat)
  {
    && c.id.Valid()
    && (forall k: nat :: k <= j ==>
          c.env(c.from + 2 * k).fault != Some(Refused) && Current(c.Arrives(2 * k), c.id).Some?)
    && (forall k: nat :: k < j ==> RereadServed(c, k))
  }

  ghost predicate RereadServed(c: Contest, k: nat)
  {
    && c.env(c.from + (2 * k + 1)).fault == None && c.env(c.from + (2 * k + 1)).lag == 0
    && Current(c.Arrives(2 * k + 1), c.id).Some?
  }

  /** Nobody touches the object between what attempt `j` goes by and its update, and the server reports no conflict. */
  ghost predicate Unhindered(c: Contest, j: nat)
  {
    && c.env(c.from + 2 * j).fault == None
    && Current(c.Arrives(2 * j), c.id) ==
       if j == 0 then Some(c.read) else Current(c.Arrives(2 * (j - 1) + 1), c.id)
  }

  /**
   Up to two conflicts are survived: when one of the three attempts is unhindered, and nothing but conflicts
   goes wrong before it, the update succeeds.
   */
  lemma TwoConflictsAreSurvived(c: Contest, desired: Manifest, j: nat, h: History, to: nat, ok: bool)
    requires RetryDone(c, desired, h, to, ok) && j < MAX_RETRIES && InPlace(c, j) && Unhindered(c, j)
    ensures ok
  {
    var k: nat, err: Option<CallError> :| RetryEnds(c, desired, k, h, to, err) && ok == (err == None);
    LandsOrRetries(c, desired, j, k, h, to, err);
  }

  lemma LandsOrRetries(c: Contest, desired: Manifest, j: nat, k: nat, h: History, to: nat, err: Option<CallError>)
    requires RetryEnds(c, desired, k, h, to, err) && j < MAX_RETRIES && InPlace(c, j) && Unhindered(c, j)
    ensures err == None
  {
    hide *;
    EndMeans(c, desired, k, h, to, err, j);
    UnhinderedCanLand(c, j);
    if k <= j { FailsOnlyInConflict(c, j, k); }
  }

  lemma EndMeans(c: Contest, desired: Manifest, k: nat, h: History, to: nat, err: Option<CallError>, j: nat)
    requires RetryEnds(c, desired, k, h, to, err)
    ensures k < MAX_RETRIES && c.Seen(k).Ok? && (c.Answer(k) == None ==> err == None)
    ensures c.Answer(k) == Some(Conflict) && k < MAX_RETRIES - 1 ==> c.Seen(k + 1).Err?
    ensures j < k ==> c.Retries(j)
  {
    hide Met, GetReply, UpdateError, Updated, Contest.Retries, Contest.Arrives;
  }

  lemma UnhinderedCanLand(c: Contest, j: nat)
    requires InPlace(c, j) && Unhindered(c, j)
    ensures c.Seen(j).Ok? ==> c.Answer(j) == None
    ensures !c.Retries(j)
  {
    hide Met;
    if j == 0 {
      Starts(c);
    } else {
      assert RereadServed(c, j - 1);
      CurrentRereadCanLand(c, j - 1);
    }
    if c.Seen(j).Ok? { CanLandIsAccepted(c, j); }
  }

  /** In place, an attempt that does not land is followed by another. */
  lemma FailsOnlyInConflict(c: Contest, j: nat, k: nat)
    requires InPlace(c, j) && k <= j && c.Seen(k).Ok?
    ensures c.Answer(k) == None || c.Answer(k) == Some(Conflict)
    ensures k < j ==> c.Seen(k + 1).Ok?
  {
    hide Met;
    if k < j {
      assert RereadServed(c, k);
      assert 2 * (k + 1) - 1 == 2 * k + 1;
      var met := c.Arrives(2 * k + 1);
      assert met[..|met|] == met;
    }
  }

  lemma ReachesNext(c: Contest, k: nat)
    requires c.Reaches(k) && c.Retries(k)
    ensures c.Reaches(k + 1)
  {
    hide Contest.Retries;
  }

  /** What one attempt settles. */
  lemma AttemptSettles(c: Contest, desired: Manifest, k: nat, base: Stored, h: History, err: Option<CallError>)
    requires k < MAX_RETRIES && c.Reaches(k) && c.Seen(k) == Ok(base)
    requires err == UpdateError(c.Arrives(2 * k), c.id, base.version, c.env(c.from + 2 * k))
    requires h == c.Arrives(2 * k) +
                  if err == None then [Entry(Operator, c.id, Put(Updated(base.manifest, desired)))] else []
    ensures err == c.Answer(k) && (err.Some? ==> h == c.Arrives(2 * k))
    ensures err != Some(Conflict) || k == MAX_RETRIES - 1 ==> RetryEnds(c, desired, k, h, c.from + 2 * k + 1, err)
  {
    hide Met, Updated, UpdateError, Contest.Reaches, Contest.Seen, Contest.Arrives;
  }

  /** What the re-read after it settles. */
  lemma RereadSettles(c: Contest, desired: Manifest, k: nat, reply: Reply<Stored>)
    requires k < MAX_RETRIES - 1 && c.Reaches(k) && c.Seen(k).Ok? && c.Answer(k) == Some(Conflict)
    requires reply == GetReply(c.Arrives(2 * k + 1), c.id, c.env(c.from + (2 * k + 1)))
    ensures c.Seen(k + 1) == reply
    ensures if reply.Err? then RetryEnds(c, desired, k, c.Arrives(2 * k + 1), c.from + 2 * k + 2, Some(reply.error))
            else c.Reaches(k + 1)
  {
    assert 2 * (k + 1) - 1 == 2 * k + 1;
    if reply.Ok? {
      assert c.Retries(k);
      ReachesNext(c, k);
    }
  }

  /** One attempt: overlay, record, write. */
  method Attempt(server: ApiServer, existing: LiveObject, id: ObjectId, desired: Manifest, ghost base: Stored)
    returns (err: Option<CallError>)
    requires Overlays(existing, server.history, id, base, desired)
    modifies server, existing
    ensures server.calls == old(server.calls) + [UpdateCall(id)]
    ensures Tried(old(server.history), server.history, id, desired, err == None)
    ensures err == UpdateError(old(server.Arriving()), id, base.version, old(server.Next()))
    ensures server.history == old(server.Arriving()) +
                              if err == None then [Entry(Operator, id, Put(Updated(base.manifest, desired)))] else []
  {
    ghost var turn, arriving := server.Next(), server.Arriving();
    existing.ApplyDesiredState(desired);
    OverlayIsIdempotent(base.manifest, desired);
    existing.SetLastAppliedConfig();
    err := server.Update(id, existing.Value(), existing.version);
    if err == None {
      AcceptedUpdateLands(arriving, id, base, desired, turn);
    }
  }

  /** Reads the object afresh. */
  method Refetch(server: ApiServer, id: ObjectId) returns (r: Reply<Stored>)
    modifies server
    ensures server.calls == old(server.calls) + [GetCall(id)]
    ensures OthersOnly(old(server.history), server.history)
    ensures r.Ok? ==> IsVersion(server.history, id, r.value)
    ensures r.Err? ==> r.error != Conflict
    ensures server.history == old(server.Arriving()) && r == GetReply(server.history, id, old(server.Next()))
  {
    r := server.Get(id);
  }

  method UpdateWithConflictRetry(server: ApiServer, fetched: LiveObject, id: ObjectId, desired: Manifest,
                                 ghost read: Stored)
    returns (err: Option<CallError>)
    requires Overlays(fetched, server.history, id, read, desired)
    modifies server, fetched
    // On success one write landed, on top of everything written before it; on failure none did. At most three
    // updates and two re-reads; only three conflicts in a row are reported as a conflict. How often it tries and
    // how it ends follow from the surroundings.
    ensures Concluded(Contest(server.env, old(server.history), |old(server.calls)|, id, read), desired, server.history,
                    old(server.calls), server.calls, err)
  {
    ghost var c, calls0 := Contest(server.env, server.history, |server.calls|, id, read), server.calls;
    ContendingStarts(c, calls0);
    hide *;
    var existing := fetched;
    ghost var base := read;
    var attempt := 0;
    while true
      invariant 0 <= attempt < MAX_RETRIES
      invariant existing == fetched || fresh(existing)
      invariant Contending(c, attempt, base, server.history, calls0, server.calls)
      invariant Overlays(existing, server.history, id, base, desired)
      decreases MAX_RETRIES - attempt
    {
      var again;
      err, again, existing, base := TryOnce(server, existing, id, desired, attempt, base, c, calls0);
      if !again {
        return;
      }
      attempt := attempt + 1;
    }
  }

  /** One round of the loop: an attempt and, after a conflict that is not the last, a re-read to start again from. */
  method TryOnce(server: ApiServer, existing: LiveObject, id: ObjectId, desired: Manifest, attempt: nat,
                 ghost base: Stored, ghost c: Contest, ghost calls0: seq<Call>)
    returns (err: Option<CallError>, again: bool, next: LiveObject, ghost seen: Stored)
    requires attempt < MAX_RETRIES && c.env == server.env && c.id == id
    requires Contending(c, attempt, base, server.history, calls0, server.calls)
    requires Overlays(existing, server.history, id, base, desired)
    modifies server, existing
    ensures !again ==> next == existing && Concluded(c, desired, server.history, calls0, server.calls, err)
    ensures again ==>
              && attempt < MAX_RETRIES - 1 && fresh(next) && Overlays(next, server.history, id, seen, desired)
              && Contending(c, attempt + 1, seen, server.history, calls0, server.calls)
  {
    hide RetryEnds, RetryDone, Tried, Made, Updated, UpdateError, GetReply, Contending, MetConflict, OthersOnly,
         Concluded;
    next, seen := existing, base;
    ghost var h, calls := server.history, server.calls;
    err := Attempt(server, existing, id, desired, base);
    AfterAttempt(c, desired, attempt, base, h, calls0, calls, server.history, server.calls, err);
    if err != Some(Conflict) || attempt == MAX_RETRIES - 1 {
      return err, false, next, seen;
    }
    h, calls := server.history, server.calls;
    var reply := Refetch(server, id);
    AfterReread(c, desired, attempt, h, calls0, calls, reply, server.history, server.calls);
    if reply.Err? {
      return Some(reply.error), false, next, seen;
    }
    next := new LiveObject(reply.value.manifest, reply.value.version);
    return err, true, next, reply.value;
  }

  /** The attempts before number `k` have met conflicts, and it starts from `base`. */
  ghost predicate Contending(c: Contest, k: nat, base: Stored, h: History, calls0: seq<Call>, calls: seq<Call>)
  {
    && c.Reaches(k) && c.Seen(k) == Ok(base) && h == Met(c.env, c.before, c.from, 2 * k)
    && IsVersion(c.before, c.id, c.read) && |calls0| == c.from && Made(calls0, calls, c.id, 2 * k)
  }

  /** Attempt `k` has met a conflict too. */
  ghost predicate MetConflict(c: Contest, k: nat, h: History, calls0: seq<Call>, calls: seq<Call>)
  {
    && c.Reaches(k) && c.Seen(k).Ok? && c.Answer(k) == Some(Conflict) && h == c.Arrives(2 * k)
    && IsVersion(c.before, c.id, c.read) && |calls0| == c.from && Made(calls0, calls, c.id, 2 * k + 1)
  }

  /** What an update with retries promises in the end. */
  ghost predicate Concluded(c: Contest, desired: Manifest, h: History, calls0: seq<Call>, calls: seq<Call>,
                          err: Option<CallError>)
  {
    && Tried(c.before, h, c.id, desired, err == None)
    && (exists n: nat :: n > 0 && Made(calls0, calls, c.id, n))
    && (err == Some(Conflict) ==> Made(calls0, calls, c.id, 5))
    && RetryDone(c, desired, h, |calls|, err == None)
  }

  lemma ContendingStarts(c: Contest, calls: seq<Call>)
    requires IsVersion(c.before, c.id, c.read) && |calls| == c.from
    ensures Contending(c, 0, c.read, c.before, calls, calls)
  {
    Starts(c);
    NothingMade(calls, c.id);
  }

  lemma SettledBy(c: Contest, desired: Manifest, k: nat, h: History, calls0: seq<Call>, calls: seq<Call>,
                  err: Option<CallError>, n: nat)
    requires RetryEnds(c, desired, k, h, |calls|, err) && IsVersion(c.before, c.id, c.read)
    requires n > 0 && Made(calls0, calls, c.id, n) && (err == Some(Conflict) ==> n == 5)
    ensures Concluded(c, desired, h, calls0, calls, err)
  {
    hide RetryEnds, Tried, Made;
    RetryTried(c, desired, k, h, |calls|, err);
  }

  lemma AfterAttempt(c: Contest, desired: Manifest, k: nat, base: Stored, h: History, calls0: seq<Call>,
                     calls: seq<Call>, h': History, calls': seq<Call>, err: Option<CallError>)
    requires k < MAX_RETRIES && Contending(c, k, base, h, calls0, calls) && calls' == calls + [UpdateCall(c.id)]
    requires var arriving, turn := h + OthersEntries(c.env(|calls|).others), c.env(|calls|);
      && err == UpdateError(arriving, c.id, base.version, turn)
      && h' == arriving + if err == None then [Entry(Operator, c.id, Put(Updated(base.manifest, desired)))] else []
    ensures if err == Some(Conflict) && k < MAX_RETRIES - 1 then MetConflict(c, k, h', calls0, calls')
            else Concluded(c, desired, h', calls0, calls', err)
  {
    hide UpdateError, Updated, Contest.Reaches, Contest.Seen, RetryEnds, Concluded;
    MadeOneMore(calls0, calls, c.id, 2 * k, UpdateCall(c.id));
    AttemptSettles(c, desired, k, base, h', err);
    if !(err == Some(Conflict) && k < MAX_RETRIES - 1) {
      LastConflictIsFifth(c, desired, k, h', |calls'|, err);
      SettledBy(c, desired, k, h', calls0, calls', err, 2 * k + 1);
    }
  }

  lemma LastConflictIsFifth(c: Contest, desired: Manifest, k: nat, h: History, to: nat, err: Option<CallError>)
    requires k < MAX_RETRIES && c.Seen(k).Ok? && err == c.Answer(k) && (err == Some(Conflict) ==> k == MAX_RETRIES - 1)
    ensures err == Some(Conflict) ==> 2 * k + 1 == 5
  {
  }

  lemma AfterReread(c: Contest, desired: Manifest, k: nat, h: History, calls0: seq<Call>, calls: seq<Call>,
                    reply: Reply<Stored>, h': History, calls': seq<Call>)
    requires k < MAX_RETRIES - 1 && MetConflict(c, k, h, calls0, calls) && calls' == calls + [GetCall(c.id)]
    requires h' == h + OthersEntries(c.env(|calls|).others) && reply == GetReply(h', c.id, c.env(|calls|))
    requires reply.Err? ==> reply.error != Conflict
    ensures if reply.Err? then Concluded(c, desired, h', calls0, calls', Some(reply.error))
            else Contending(c, k + 1, reply.value, h', calls0, calls')
  {
    hide UpdateError, Updated, GetReply, Contest.Reaches, Contest.Seen, Contest.Answer, RetryEnds, Concluded;
    MadeOneMore(calls0, calls, c.id, 2 * k + 1, GetCall(c.id));
    RereadSettles(c, desired, k, reply);
    if reply.Err? {
      SettledBy(c, desired, k, h', calls0, calls', Some(reply.error), 2 * k + 2);
    }
  }

  /** What is seen has been a version of the object. */
  lemma SeenIsVersion(c: Contest, k: nat)
    requires c.Seen(k).Ok? && IsVersion(c.before, c.id, c.read)
    ensures IsVersion(c.Arrives(2 * k), c.id, c.Seen(k).value)
  {
    hide Met;
    MetIsOthers(c.env, c.before, c.from, 2 * k + 1);
    if k > 0 {
      var met := c.Arrives(2 * k - 1);
      CurrentIsVersion(Lagging(met, c.env(c.from + (2 * k - 1)).lag), c.id);
      MetChains(c.env, c.before, c.from, 2 * k, 1);
      MetIsOthers(c.env, met, c.from + 2 * k, 1);
    }
  }

  /** However it ends, one write has landed on what stood there, or none has. */
  lemma RetryTried(c: Contest, desired: Manifest, k: nat, h: History, to: nat, err: Option<CallError>)
    requires RetryEnds(c, desired, k, h, to, err) && IsVersion(c.before, c.id, c.read)
    ensures Tried(c.before, h, c.id, desired, err == None)
  {
    SeenIsVersion(c, k);
    MetIsOthers(c.env, c.before, c.from, 2 * k + 1);
    MetIsOthers(c.env, c.before, c.from, 2 * k + 2);
    hide Met, Contest.Seen, Contest.Reaches, GetReply, Updated, OthersOnly, Landed;
    if err == None {
      var arriving := c.Arrives(2 * k);
      AcceptedUpdateLands(arriving, c.id, c.Seen(k).value, desired, c.env(c.from + 2 * k));
      LandsAfterOthers(c.before, arriving, h, c.id, desired);
    }
  }

  lemma LandsAfterOthers(before: History, arriving: History, h: History, id: ObjectId, desired: Manifest)
    requires OthersOnly(before, arriving) && LandedOnCurrent(h, id, desired)
    requires arriving < h && |h| == |arriving| + 1
    ensures Landed(before, h, id, desired)
  {
    assert h[..|h| - 1] == arriving;
  }

  /** Left alone, the first attempt lands. */
  lemma AloneLands(c: Contest, desired: Manifest, k: nat, h: History, to: nat, err: Option<CallError>)
    requires RetryEnds(c, desired, k, h, to, err)
    requires CalmTurn(c.env(c.from)) && Current(c.before, c.id) == Some(c.read)
    ensures err == None && to == c.from + 1
    ensures h == c.before + [Entry(Operator, c.id, Put(Updated(c.read.manifest, desired)))]
  {
    Starts(c);
    hide RetryEnds;
    assert Met(c.env, c.before, c.from, 1) == c.before;
    assert c.Arrives(0) == c.before;
    LandsAt(c, desired, 0, k, h, to, err);
  }

  lemma Starts(c: Contest)
    ensures c.Reaches(0) && c.Seen(0) == Ok(c.read)
  {
  }

  lemma NothingMade(calls: seq<Call>, id: ObjectId)
    ensures Made(calls, calls, id, 0)
  {
  }
}
