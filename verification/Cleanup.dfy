/**
 What the finalizer does before it lets the resource go: delete the managed children, over as many
 attempts as it takes.
 */
module Cleanup {
  import opened Text
  import opened ObjectKeys
  import opened Cluster
  import opened Children
  import opened Deletions
  import opened StatusLedger

  function ManagedIds(managed: seq<string>): set<ObjectId>
  {
    set id | id in Readable(ReadForDeletion, managed)
  }

  /** Every managed child that was alive and whose read was served is gone; the others are as they were. */
  ghost predicate CleanedUp(h0: History, h: History, env: nat -> Turn, n0: nat, managed: seq<string>)
  {
    forall id: ObjectId :: id.Valid() && GetObjectKey(id) in managed ==>
      Current(h, id) == if AnyServed(env, n0, Readable(ReadForDeletion, managed), id) then None else Current(h0, id)
  }

  lemma {:induction false} IdsOfChildren(children: seq<Child>, id: ObjectId)
    ensures id in IdsOf(children) <==> exists c :: c in children && c.id == id
  {
    if children != [] {
      IdsOfChildren(children[..|children| - 1], id);
      assert children == children[..|children| - 1] + [children[|children| - 1]];
    }
  }

  /** A child that was read is deleted when all deletion calls go through. */
  lemma ServedIsDeleted(h: History, env: nat -> Turn, n: nat, ids: seq<ObjectId>, m: nat, served: seq<Child>,
                        id: ObjectId)
    requires served == Served(h, env, n, ids) && NoFaults(env, m, |served|)
    ensures AnyServed(env, m, IdsOf(served), id) <==> id.Valid() && Current(h, id).Some? && AnyServed(env, n, ids, id)
  {
    ServedMembers(h, env, n, ids, id);
    IdsOfChildren(served, id);
    if id in IdsOf(served) {
      var j :| 0 <= j < |served| && IdsOf(served)[j] == id;
      assert env(m + j).fault == None;
    }
  }

  /** When all deletions go through, made from call number `m` on, exactly the children whose read failed are left. */
  lemma CleanupExactly(h: History, env: nat -> Turn, n: nat, ids: seq<ObjectId>, m: nat, managed: seq<string>)
    requires ids == Readable(ReadForDeletion, managed) && NoFaults(env, m, |Served(h, env, n, ids)|)
    ensures CleanedUp(h, Deleted(h, env, m, IdsOf(Served(h, env, n, ids))), env, n, managed)
  {
    forall id: ObjectId | id.Valid() && GetObjectKey(id) in managed
      ensures Current(Deleted(h, env, m, IdsOf(Served(h, env, n, ids))), id) ==
              if AnyServed(env, n, ids, id) then None else Current(h, id)
    {
      DeletedExactly(h, env, m, IdsOf(Served(h, env, n, ids)), id);
      ServedIsDeleted(h, env, n, ids, m, Served(h, env, n, ids), id);
    }
  }

  /** Nothing managed is left behind if and only if every managed child that was alive could be read. */
  lemma NothingLeftExactly(h0: History, h: History, env: nat -> Turn, n0: nat, managed: seq<string>)
    requires CleanedUp(h0, h, env, n0, managed)
    ensures NothingManaged(h, managed) <==>
            forall id: ObjectId :: id.Valid() && GetObjectKey(id) in managed && Current(h0, id).Some? ==>
              AnyServed(env, n0, Readable(ReadForDeletion, managed), id)
  {
  }

  ghost predicate NothingManaged(h: History, managed: seq<string>)
  {
    forall id: ObjectId :: id.Valid() && GetObjectKey(id) in managed ==> Current(h, id) == None
  }

  /** With reads that fail only because the object is gone, every managed child is gone. */
  lemma NothingLeft(h0: History, h: History, env: nat -> Turn, n0: nat, managed: seq<string>)
    requires CleanedUp(h0, h, env, n0, managed) && NoFaults(env, n0, |Readable(ReadForDeletion, managed)|)
    ensures NothingManaged(h, managed)
  {
    var ids := Readable(ReadForDeletion, managed);
    forall id: ObjectId | id.Valid() && GetObjectKey(id) in managed
      ensures AnyServed(env, n0, ids, id)
    {
      ReadableMembers(managed, id);
      var j :| 0 <= j < |ids| && ids[j] == id;
      assert env(n0 + j).fault == None;
    }
    NothingLeftExactly(h0, h, env, n0, managed);
  }

  /** The operator only removes managed objects: nothing is created or updated while cleaning up. */
  ghost predicate OnlyManagedRemoved(h0: History, h: History, managed: seq<string>)
  {
    && h0 <= h
    && forall i :: |h0| <= i < |h| && h[i].author == Operator ==>
         h[i].change == Remove && h[i].id.Valid() && GetObjectKey(h[i].id) in managed
  }

  /** An attempt deletes a prefix of what it read; each of its writes is one live child less. */
  ghost predicate DeletedPrefix(h0: History, h: History, env: nat -> Turn, n0: nat, managed: seq<string>)
  {
    && (exists k: nat :: k <= |Served(h0, env, n0, Readable(ReadForDeletion, managed))| &&
          h == PrefixDeleted(h0, env, n0, managed, k))
    && h0 <= h && |LiveAmong(h, ManagedIds(managed))| + |h| == |LiveAmong(h0, ManagedIds(managed))| + |h0|
  }

  lemma PrefixCounts(h0: History, h: History, env: nat -> Turn, n0: nat, managed: seq<string>, ids: seq<ObjectId>,
                     served: seq<Child>, k: nat)
    requires ids == Readable(ReadForDeletion, managed) && served == Served(h0, env, n0, ids) && k <= |served|
    requires h == Deleted(h0, env, n0 + |ids|, IdsOf(served[..k]))
    ensures DeletedPrefix(h0, h, env, n0, managed)
  {
    hide Deleted, Served, IdsOf, Readable, LiveAmong, ManagedIds;
    assert h == PrefixDeleted(h0, env, n0, managed, k);
    PrefixIds(h0, env, n0, managed, ids, served, k);
    DeletionsCount(h0, env, n0 + |ids|, IdsOf(served[..k]), ManagedIds(managed));
  }

  /** Attempt after attempt on a steady cluster, each starting from what the one before it left. */
  ghost predicate Attempts(env: nat -> Turn, managed: seq<string>, histories: seq<History>, starts: seq<nat>)
  {
    && |histories| == |starts| + 1
    && forall i :: 0 <= i < |starts| ==> DeletedPrefix(histories[i], histories[i + 1], env, starts[i], managed)
  }

  /**
   Over any number of attempts each removal is one living child less: together they never remove more
   than there were, and an attempt that has removed anything is nearer to the end.
   */
  lemma {:induction false} AttemptsMakeProgress(env: nat -> Turn, managed: seq<string>, histories: seq<History>,
                                                starts: seq<nat>, n: nat)
    requires Attempts(env, managed, histories, starts) && n <= |starts|
    ensures var first, now := histories[0], histories[n];
      && |now| - |first| == |LiveAmong(first, ManagedIds(managed))| - |LiveAmong(now, ManagedIds(managed))|
      && 0 <= |now| - |first| <= |LiveAmong(first, ManagedIds(managed))|
  {
    if n > 0 {
      AttemptsMakeProgress(env, managed, histories, starts, n - 1);
      assert DeletedPrefix(histories[n - 1], histories[n - 1 + 1], env, starts[n - 1], managed);
    }
  }

  /**
   Whatever the surroundings do: the managed children that could be read are deleted in order, up to the
   first deletion call that met a fault, and it succeeds exactly when none did.
   */
  ghost predicate CleanedAmid(env: nat -> Turn, n0: nat, n: nat, h0: History, h: History, managed: seq<string>,
                              ok: bool)
  {
    exists k: nat :: CleanedUpTo(env, n0, n, h0, h, managed, ok, k)
  }

  /** The first `k` children that were found have been dealt with. */
  ghost predicate CleanedUpTo(env: nat -> Turn, n0: nat, n: nat, h0: History, h: History, managed: seq<string>,
                              ok: bool, k: nat)
  {
    var ids := Readable(ReadForDeletion, managed);
    DeletedUpTo(env, Met(env, h0, n0, |ids|), n0 + |ids|, h, n, Found(env, h0, n0, ids), ok, k)
  }

  /**
   What cleaning up promises: only removals of managed objects; on a steady server, a prefix, and on
   success all of it.
   */
  ghost predicate Cleaned(env: nat -> Turn, n0: nat, n: nat, h0: History, h: History, managed: seq<string>, ok: bool)
  {
    && OnlyManagedRemoved(h0, h, managed) && CleanedAmid(env, n0, n, h0, h, managed, ok)
    && (Steady(env, n0, n) ==> DeletedPrefix(h0, h, env, n0, managed) && (ok ==> CleanedUp(h0, h, env, n0, managed)))
    && (Calm(env, n0, n) ==> ok)
  }

  /** Reads and deletes the managed children; an error leaves the rest for the next attempt. */
  method CleanUp(server: ApiServer, managed: seq<string>) returns (err: Option<CallError>)
    modifies server
    ensures |server.calls| >= |old(server.calls)|
    ensures Cleaned(server.env, |old(server.calls)|, |server.calls|, old(server.history), server.history, managed,
                    err == None)
  {
    ghost var h0, n0 := server.history, |server.calls|;
    var children := CollectChildren(server, ReadForDeletion, managed);
    ghost var h1, n1 := server.history, |server.calls|;
    ghost var k;
    err, k := DeleteAll(server, children);
    CleanUpMeans(server.env, h0, n0, h1, n1, server.history, |server.calls|, managed, children, err == None, k);
  }

  lemma CleanUpMeans(env: nat -> Turn, h0: History, n0: nat, h1: History, n1: nat, h: History, n: nat,
                     managed: seq<string>, children: seq<Child>, finished: bool, k: nat)
    requires Collected(env, h0, n0, h1, n1, Readable(ReadForDeletion, managed), children)
    requires DeletedUpTo(env, h1, n1, h, n, children, finished, k)
    ensures Cleaned(env, n0, n, h0, h, managed, finished)
  {
    hide DeletedUpTo, Collected, CleanedAmid, OnlyManagedRemoved, DeletedPrefix, CleanedUp, Readable;
    AmidMeans(env, h0, n0, h1, n1, h, n, managed, children, finished, k);
    OnlyReadRemoved(env, h0, n0, h1, n1, h, n, managed, children, finished, k);
    CalmFinishes(env, h0, n0, h1, n1, Readable(ReadForDeletion, managed), children, h, n, finished, k);
    if Steady(env, n0, n) {
      SteadyFrom(env, h0, n0, h1, n1, Readable(ReadForDeletion, managed), children, h, n, finished, k);
      SteadyCleanUp(h0, h, env, n0, managed, Readable(ReadForDeletion, managed), children, k);
    }
  }

  lemma AmidMeans(env: nat -> Turn, h0: History, n0: nat, h1: History, n1: nat, h: History, n: nat,
                  managed: seq<string>, children: seq<Child>, finished: bool, k: nat)
    requires Collected(env, h0, n0, h1, n1, Readable(ReadForDeletion, managed), children)
    requires DeletedUpTo(env, h1, n1, h, n, children, finished, k)
    ensures CleanedAmid(env, n0, n, h0, h, managed, finished)
  {
    hide DeletedUpTo, Found, Met, Readable;
    assert CleanedUpTo(env, n0, n, h0, h, managed, finished, k);
  }

  lemma CalmFinishes(env: nat -> Turn, h0: History, n0: nat, h1: History, n1: nat, ids: seq<ObjectId>,
                     children: seq<Child>, h: History, n: nat, finished: bool, k: nat)
    requires Collected(env, h0, n0, h1, n1, ids, children) && DeletedUpTo(env, h1, n1, h, n, children, finished, k)
    ensures Calm(env, n0, n) ==> finished
  {
    assert !finished ==> n0 <= n1 + k < n && !CalmTurn(env(n1 + k));
  }

  lemma SteadyFrom(env: nat -> Turn, h0: History, n0: nat, h1: History, n1: nat, ids: seq<ObjectId>,
                   children: seq<Child>, h: History, n: nat, finished: bool, k: nat)
    requires Collected(env, h0, n0, h1, n1, ids, children) && DeletedUpTo(env, h1, n1, h, n, children, finished, k)
    requires Steady(env, n0, n)
    ensures children == Served(h0, env, n0, ids) && k <= |children| && (finished <==> k == |children|)
    ensures h == Deleted(h0, env, n0 + |ids|, IdsOf(children[..k])) && NoFaults(env, n0 + |ids|, k)
  {
    hide Found, DeletedAmid, Served, Deleted, Met, Listed, OnlyRemoves, IdsOf;
    assert Steady(env, n0, n1) && Steady(env, n1, n);
  }

  lemma SteadyCleanUp(h0: History, h: History, env: nat -> Turn, n0: nat, managed: seq<string>, ids: seq<ObjectId>,
                      children: seq<Child>, k: nat)
    requires ids == Readable(ReadForDeletion, managed) && children == Served(h0, env, n0, ids) && k <= |children|
    requires h == Deleted(h0, env, n0 + |ids|, IdsOf(children[..k])) && NoFaults(env, n0 + |ids|, k)
    ensures DeletedPrefix(h0, h, env, n0, managed)
    ensures k == |children| ==> CleanedUp(h0, h, env, n0, managed)
  {
    hide *;
    PrefixCounts(h0, h, env, n0, managed, ids, children, k);
    if k == |children| {
      assert children[..k] == children;
      CleanupExactly(h0, env, n0, ids, n0 + |ids|, managed);
    }
  }

  function PrefixDeleted(h: History, env: nat -> Turn, n: nat, managed: seq<string>, k: nat): History
    requires k <= |Served(h, env, n, Readable(ReadForDeletion, managed))|
  {
    var ids := Readable(ReadForDeletion, managed);
    Deleted(h, env, n + |ids|, IdsOf(Served(h, env, n, ids)[..k]))
  }

  lemma PrefixIds(h: History, env: nat -> Turn, n: nat, managed: seq<string>, ids: seq<ObjectId>, served: seq<Child>,
                  k: nat)
    requires ids == Readable(ReadForDeletion, managed) && served == Served(h, env, n, ids) && k <= |served|
    ensures forall id :: id in IdsOf(served[..k]) ==> id in ManagedIds(managed)
  {
    forall id | id in IdsOf(served[..k])
      ensures id in ManagedIds(managed)
    {
      IdsOfChildren(served[..k], id);
      var c :| c in served[..k] && c.id == id;
      assert c in served;
      ServedMembers(h, env, n, ids, id);
      var i :| 0 <= i < |ids| && ids[i] == id;
    }
  }

  lemma OnlyReadRemoved(env: nat -> Turn, h0: History, n0: nat, h1: History, n1: nat, h: History, n: nat,
                        managed: seq<string>, children: seq<Child>, finished: bool, k: nat)
    requires Collected(env, h0, n0, h1, n1, Readable(ReadForDeletion, managed), children)
    requires DeletedUpTo(env, h1, n1, h, n, children, finished, k)
    ensures OnlyManagedRemoved(h0, h, managed)
  {
    hide Found, DeletedAmid, Served, Deleted, Met;
    forall i | |h0| <= i < |h| && h[i].author == Operator
      ensures h[i].change == Remove && h[i].id.Valid() && GetObjectKey(h[i].id) in managed
    {
      IdsOfChildren(children[..k], h[i].id);
      ReadableMembers(managed, h[i].id);
    }
  }
}
