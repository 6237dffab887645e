/** Deleting children: the stale ones when pruning, all of them when the resource goes away. */
module Deletions {
  import opened Text
  import opened ObjectKeys
  import opened Cluster
  import opened Children
  import opened StatusLedger

  function DeleteStep(h: History, t: Turn, id: ObjectId): History
  {
    if DeleteError(h, id, t) == None then h + [Entry(Operator, id, Remove)] else h
  }

  /** What deleting `ids` one by one leaves on a steady server. */
  function Deleted(h: History, env: nat -> Turn, n: nat, ids: seq<ObjectId>): History
    decreases |ids|
  {
    if ids == [] then h else Deleted(DeleteStep(h, env(n), ids[0]), env, n + 1, ids[1..])
  }

  lemma {:induction false} DeletedOneMore(h: History, env: nat -> Turn, n: nat, ids: seq<ObjectId>, id: ObjectId)
    ensures Deleted(h, env, n, ids + [id]) == DeleteStep(Deleted(h, env, n, ids), env(n + |ids|), id)
    decreases |ids|
  {
    if ids == [] {
      assert [] + [id] == [id] && [id][1..] == [];
    } else {
      DeletedOneMore(DeleteStep(h, env(n), ids[0]), env, n + 1, ids[1..], id);
      assert (ids + [id])[1..] == ids[1..] + [id];
    }
  }

  /** Some call for `id` among those made for `ids`, numbered n, n + 1, ..., met no fault. */
  predicate AnyServed(env: nat -> Turn, n: nat, ids: seq<ObjectId>, id: ObjectId)
  {
    exists j :: 0 <= j < |ids| && ids[j] == id && env(n + j).fault == None
  }

  lemma ServedCons(env: nat -> Turn, n: nat, ids: seq<ObjectId>, id: ObjectId)
    requires ids != []
    ensures AnyServed(env, n, ids, id) <==>
            (ids[0] == id && env(n).fault == None) || AnyServed(env, n + 1, ids[1..], id)
  {
    if AnyServed(env, n + 1, ids[1..], id) {
      var j :| 0 <= j < |ids[1..]| && ids[1..][j] == id && env(n + 1 + j).fault == None;
      assert ids[j + 1] == id && env(n + (j + 1)).fault == None;
    }
    if AnyServed(env, n, ids, id) && !(ids[0] == id && env(n).fault == None) {
      var j :| 0 <= j < |ids| && ids[j] == id && env(n + j).fault == None;
      assert ids[1..][j - 1] == id && env(n + 1 + (j - 1)).fault == None;
    }
  }

  /** On a steady server exactly the objects whose deletion was served are gone; all others are as they were. */
  lemma {:induction false} DeletedExactly(h: History, env: nat -> Turn, n: nat, ids: seq<ObjectId>, id: ObjectId)
    ensures Current(Deleted(h, env, n, ids), id) == if AnyServed(env, n, ids, id) then None else Current(h, id)
    decreases |ids|
  {
    if ids != [] {
      var h1 := DeleteStep(h, env(n), ids[0]);
      DeletedExactly(h1, env, n + 1, ids[1..], id);
      CurrentAfter(h, Entry(Operator, ids[0], Remove), id);
      ServedCons(env, n, ids, id);
    }
  }

  function LiveAmong(h: History, ids: set<ObjectId>): set<ObjectId>
  {
    set id | id in ids && Current(h, id).Some?
  }

  /** Every write of a deletion run takes one live object away: the count of live children falls by the writes made. */
  lemma {:induction false} DeletionsCount(h: History, env: nat -> Turn, n: nat, ids: seq<ObjectId>, all: set<ObjectId>)
    requires forall id :: id in ids ==> id in all
    ensures var h' := Deleted(h, env, n, ids);
      && h <= h' && LiveAmong(h', all) <= LiveAmong(h, all)
      && |LiveAmong(h', all)| + |h'| == |LiveAmong(h, all)| + |h|
    decreases |ids|
  {
    if ids != [] {
      var h1 := DeleteStep(h, env(n), ids[0]);
      assert ids[0] in ids && forall id :: id in ids[1..] ==> id in ids;
      DeletionsCount(h1, env, n + 1, ids[1..], all);
      forall id
        ensures h1 != h ==> Current(h1, id) == if id == ids[0] then None else Current(h, id)
      {
        CurrentAfter(h, Entry(Operator, ids[0], Remove), id);
      }
      if h1 != h {
        assert LiveAmong(h1, all) == LiveAmong(h, all) - {ids[0]};
      }
    }
  }

  /** The operator's own writes between two histories are removals of `ids` only. */
  ghost predicate OnlyRemoves(h0: History, h: History, ids: seq<ObjectId>)
  {
    && h0 <= h
    && forall i :: |h0| <= i < |h| && h[i].author == Operator ==> h[i].change == Remove && h[i].id in ids
  }

  ghost predicate NoFaults(env: nat -> Turn, n0: nat, count: nat)
  {
    forall n: nat :: n0 <= n < n0 + count ==> env(n).fault == None
  }

  /** How many of `count` calls met a fault. */
  function Faults(env: nat -> Turn, n0: nat, count: nat): (f: nat)
    ensures f == 0 <==> NoFaults(env, n0, count)
  {
    if count == 0 then 0 else Faults(env, n0, count - 1) + if env(n0 + (count - 1)).fault.Some? then 1 else 0
  }

  /** What deleting `ids` one by one leaves, whatever the surroundings do. */
  function DeletedAmid(env: nat -> Turn, h: History, n: nat, ids: seq<ObjectId>): History
  {
    if ids == [] then h
    else
      var k := |ids| - 1;
      DeleteStep(DeletedAmid(env, h, n, ids[..k]) + OthersEntries(env(n + k).others), env(n + k), ids[k])
  }

  lemma DeletedAmidOneMore(env: nat -> Turn, h: History, n: nat, ids: seq<ObjectId>, id: ObjectId)
    ensures DeletedAmid(env, h, n, ids + [id]) ==
            DeleteStep(DeletedAmid(env, h, n, ids) + OthersEntries(env(n + |ids|).others), env(n + |ids|), id)
  {
    assert (ids + [id])[..|ids|] == ids;
  }

  /** At once after a deletion call that met no fault its object is gone; one that met a fault changes nothing. */
  lemma DeletedAmidExactly(env: nat -> Turn, h: History, n: nat, ids: seq<ObjectId>, k: nat)
    requires k < |ids|
    ensures var before, after := DeletedAmid(env, h, n, ids[..k]), DeletedAmid(env, h, n, ids[..k + 1]);
            var arriving := before + OthersEntries(env(n + k).others);
      && (env(n + k).fault == None ==> Current(after, ids[k]) == None)
      && (env(n + k).fault.Some? || Current(arriving, ids[k]) == None ==> after == arriving)
      && forall id :: id != ids[k] ==> Current(after, id) == Current(arriving, id)
  {
    DeletedAmidOneMore(env, h, n, ids[..k], ids[k]);
    assert ids[..k + 1] == ids[..k] + [ids[k]];
    var arriving := DeletedAmid(env, h, n, ids[..k]) + OthersEntries(env(n + k).others);
    forall id
      ensures Current(arriving + [Entry(Operator, ids[k], Remove)], id) ==
              if id == ids[k] then None else Current(arriving, id)
    {
      CurrentAfter(arriving, Entry(Operator, ids[k], Remove), id);
    }
  }

  /** The keys whose objects are gone once these deletion calls are made: the call went through, or found nothing. */
  function GoneKeys(env: nat -> Turn, n: nat, ids: seq<ObjectId>): set<string>
  {
    set j | 0 <= j < |ids| && env(n + j).fault == None :: GetObjectKey(ids[j])
  }

  lemma GoneKeysOneMore(env: nat -> Turn, n: nat, ids: seq<ObjectId>, id: ObjectId)
    ensures GoneKeys(env, n, ids + [id]) ==
            GoneKeys(env, n, ids) + if env(n + |ids|).fault == None then {GetObjectKey(id)} else {}
  {
    var longer := ids + [id];
    forall key | key in GoneKeys(env, n, ids)
      ensures key in GoneKeys(env, n, longer)
    {
      var j :| 0 <= j < |ids| && env(n + j).fault == None && GetObjectKey(ids[j]) == key;
      assert longer[j] == ids[j];
    }
    if env(n + |ids|).fault == None { assert longer[|ids|] == id; }
    forall key | key in GoneKeys(env, n, longer)
      ensures key in GoneKeys(env, n, ids) || (env(n + |ids|).fault == None && key == GetObjectKey(id))
    {
      var j :| 0 <= j < |longer| && env(n + j).fault == None && GetObjectKey(longer[j]) == key;
      if j < |ids| { assert longer[j] == ids[j]; }
    }
  }

  /** Deletion calls for `ids` have been made, with these effects and that many failures. */
  ghost predicate Deleting(env: nat -> Turn, h0: History, n0: nat, h: History, n: nat, ids: seq<ObjectId>,
                           failures: nat)
  {
    && OnlyRemoves(h0, h, ids) && n == n0 + |ids| && h == DeletedAmid(env, h0, n0, ids)
    && (Steady(env, n0, n) ==> h == Deleted(h0, env, n0, ids))
    && failures == Faults(env, n0, |ids|)
  }

  /** One more deletion call, for `id`, which left the history `h'`. */
  lemma DeleteOne(env: nat -> Turn, h0: History, n0: nat, h: History, n: nat, ids: seq<ObjectId>, failures: nat,
                  id: ObjectId, h': History, e: Option<CallError>)
    requires Deleting(env, h0, n0, h, n, ids, failures)
    requires var others := h + OthersEntries(env(n).others);
      && e == DeleteError(others, id, env(n))
      && h' == others + if e == None then [Entry(Operator, id, Remove)] else []
    ensures Deleting(env, h0, n0, h', n + 1, ids + [id],
                     if e == None || e == Some(NotFound) then failures else failures + 1)
  {
    hide OnlyRemoves, DeletedAmid, Deleted, Steady, Faults;
    DeletedAmidOneMore(env, h0, n0, ids, id);
    RemovesOneMore(h0, h, ids, id, OthersEntries(env(n).others), h');
    SteadilyOneMore(env, h0, n0, h, n, ids, id, h');
    FaultsOneMore(env, n0, |ids|);
  }

  lemma SteadilyOneMore(env: nat -> Turn, h0: History, n0: nat, h: History, n: nat, ids: seq<ObjectId>, id: ObjectId,
                        h': History)
    requires n == n0 + |ids| && (Steady(env, n0, n) ==> h == Deleted(h0, env, n0, ids))
    requires h' == DeleteStep(h + OthersEntries(env(n).others), env(n), id)
    ensures Steady(env, n0, n + 1) ==> h' == Deleted(h0, env, n0, ids + [id])
  {
    hide Deleted, DeleteStep;
    if Steady(env, n0, n + 1) {
      assert Steady(env, n0, n);
      DeletedOneMore(h0, env, n0, ids, id);
      SteadyTurn(h, id, env(n));
    }
  }

  lemma FaultsOneMore(env: nat -> Turn, n: nat, count: nat)
    ensures Faults(env, n, count + 1) == Faults(env, n, count) + if env(n + count).fault.Some? then 1 else 0
  {
  }

  lemma RemovesOneMore(h0: History, h: History, ids: seq<ObjectId>, id: ObjectId, others: History, h': History)
    requires OnlyRemoves(h0, h, ids) && forall i :: 0 <= i < |others| ==> others[i].author == Other
    requires h' == h + others || h' == h + others + [Entry(Operator, id, Remove)]
    ensures OnlyRemoves(h0, h', ids + [id])
  {
  }

  lemma NothingDeleted(env: nat -> Turn, h: History, n: nat)
    ensures Deleting(env, h, n, h, n, [], 0)
  {
  }

  function StaleAmong(children: seq<Child>, currentKeys: set<string>): seq<ObjectId>
  {
    if children == [] then []
    else
      var rest := StaleAmong(children[..|children| - 1], currentKeys);
      var c := children[|children| - 1];
      if GetObjectKey(c.id) in currentKeys then rest else rest + [c.id]
  }

  /** The entries dropped from the book belong to keys that are not current. */
  ghost predicate KeepsCurrent(before: map<string, nat>, after: map<string, nat>, currentKeys: set<string>)
  {
    && after.Keys <= before.Keys && (forall k :: k in after ==> after[k] == before[k])
    && forall k :: k in before && k in currentKeys ==> k in after
  }

  lemma DropsOneMore(before: seq<Event>, after: seq<Event>, key: string)
    requires OnlyDrops(before, after)
    ensures OnlyDrops(before, after + [Dropped(key)])
  {
  }

  /** Deletes the collected children whose key is not current; returns the number of failed deletions. */
  method PruneStaleResources(server: ApiServer, book: VersionBook, currentKeys: set<string>, children: seq<Child>)
    returns (errors: nat)
    requires book.Valid()
    modifies server, book
    ensures Deleting(server.env, old(server.history), |old(server.calls)|, server.history, |server.calls|,
                     StaleAmong(children, currentKeys), errors)
    ensures old(server.calls) <= server.calls && Deletes(server.calls, |old(server.calls)|, |server.calls|)
    ensures book.Valid() && KeepsCurrent(old(book.versions), book.versions, currentKeys)
    ensures book.versions ==
            old(book.versions) - GoneKeys(server.env, |old(server.calls)|, StaleAmong(children, currentKeys))
    ensures OnlyDrops(old(book.ledger), book.ledger)
  {
    errors := 0;
    ghost var start := PruneState(server.history, server.calls, 0, book.versions, book.ledger);
    NothingPruned(server.env, start);
    StaleOfNone(currentKeys);
    hide Pruning, Accounts, StaleAmong;
    for k := 0 to |children|
      invariant book.Valid()
      invariant Pruning(server.env, start,
                        PruneState(server.history, server.calls, errors, book.versions, book.ledger),
                        StaleAmong(children[..k], currentKeys))
    {
      var item := children[k];
      StaleOneMore(children, k, currentKeys);
      var objKey := GetObjectKey(item.id);
      if objKey !in currentKeys {
        ghost var now := PruneState(server.history, server.calls, errors, book.versions, book.ledger);
        var e := server.Delete(item.id);
        if e == None || e == Some(NotFound) {
          book.Drop(objKey);
        } else {
          errors := errors + 1;
        }
        PruneOne(server.env, start, now,
                 PruneState(server.history, server.calls, errors, book.versions, book.ledger),
                 StaleAmong(children[..k], currentKeys), item.id, e);
      }
    }
    assert children[..|children|] == children;
    PruningMeans(server.env, start, PruneState(server.history, server.calls, errors, book.versions, book.ledger),
                 children, currentKeys);
  }

  lemma StaleOfNone(currentKeys: set<string>)
    ensures StaleAmong([], currentKeys) == []
  {
  }

  lemma StaleOneMore(children: seq<Child>, k: nat, currentKeys: set<string>)
    requires k < |children|
    ensures StaleAmong(children[..k + 1], currentKeys) ==
            if GetObjectKey(children[k].id) in currentKeys then StaleAmong(children[..k], currentKeys)
            else StaleAmong(children[..k], currentKeys) + [children[k].id]
  {
    assert children[..k + 1][..k] == children[..k];
  }

  /** Where pruning stands: history, log of calls, failed deletions, recorded versions and their ledger. */
  datatype PruneState = PruneState(h: History, calls: seq<Call>, errors: nat, versions: map<string, nat>,
                                   ledger: seq<Event>)

  /** These stale children have been dealt with, and the entries of those that are gone dropped. */
  ghost predicate Pruning(env: nat -> Turn, start: PruneState, now: PruneState, ids: seq<ObjectId>)
  {
    && Deleting(env, start.h, |start.calls|, now.h, |now.calls|, ids, now.errors)
    && now.versions == start.versions - GoneKeys(env, |start.calls|, ids) && OnlyDrops(start.ledger, now.ledger)
    && start.calls <= now.calls && Deletes(now.calls, |start.calls|, |now.calls|)
  }

  lemma NothingPruned(env: nat -> Turn, start: PruneState)
    requires start.errors == 0
    ensures Pruning(env, start, start, [])
  {
    NothingDeleted(env, start.h, |start.calls|);
    assert GoneKeys(env, |start.calls|, []) == {};
  }

  lemma PruneOne(env: nat -> Turn, start: PruneState, now: PruneState, next: PruneState, ids: seq<ObjectId>,
                 id: ObjectId, e: Option<CallError>)
    requires Pruning(env, start, now, ids) && next.calls == now.calls + [DeleteCall(id)]
    requires var others := now.h + OthersEntries(env(|now.calls|).others);
      && e == DeleteError(others, id, env(|now.calls|))
      && next.h == others + if e == None then [Entry(Operator, id, Remove)] else []
    requires if e == None || e == Some(NotFound)
             then && next.versions == now.versions - {GetObjectKey(id)} && next.errors == now.errors
                  && next.ledger == now.ledger + [Dropped(GetObjectKey(id))]
             else next.versions == now.versions && next.errors == now.errors + 1 && next.ledger == now.ledger
    ensures Pruning(env, start, next, ids + [id])
  {
    hide Deleting, GoneKeys, OnlyDrops;
    var n0, n := |start.calls|, |now.calls|;
    DeleteOne(env, start.h, n0, now.h, n, ids, now.errors, id, next.h, e);
    DeletingCounts(env, start.h, n0, now.h, n, ids, now.errors);
    GoneKeysOneMore(env, n0, ids, id);
    DropsOneMore(start.ledger, now.ledger, GetObjectKey(id));
  }

  lemma DeletingCounts(env: nat -> Turn, h0: History, n0: nat, h: History, n: nat, ids: seq<ObjectId>, errors: nat)
    requires Deleting(env, h0, n0, h, n, ids, errors)
    ensures n == n0 + |ids|
  {
  }

  lemma PruningMeans(env: nat -> Turn, start: PruneState, now: PruneState, children: seq<Child>,
                     currentKeys: set<string>)
    requires Pruning(env, start, now, StaleAmong(children, currentKeys))
    ensures var ids := StaleAmong(children, currentKeys);
      && Deleting(env, start.h, |start.calls|, now.h, |now.calls|, ids, now.errors)
      && now.versions == start.versions - GoneKeys(env, |start.calls|, ids) && OnlyDrops(start.ledger, now.ledger)
      && KeepsCurrent(start.versions, now.versions, currentKeys)
      && start.calls <= now.calls && Deletes(now.calls, |start.calls|, |now.calls|)
  {
    hide Deleting, OnlyDrops, StaleAmong;
    var ids := StaleAmong(children, currentKeys);
    forall j | 0 <= j < |ids|
      ensures GetObjectKey(ids[j]) !in currentKeys
    {
      assert ids[j] in ids;
      StaleMembers(children, currentKeys, ids[j]);
    }
  }

  function IdsOf(children: seq<Child>): (ids: seq<ObjectId>)
    ensures |ids| == |children| && forall i :: 0 <= i < |ids| ==> ids[i] == children[i].id
  {
    if children == [] then [] else IdsOf(children[..|children| - 1]) + [children[|children| - 1].id]
  }

  /** The first `k` children have been dealt with without a fault; unless those are all, the next call met one. */
  ghost predicate DeletedUpTo(env: nat -> Turn, h0: History, n0: nat, h: History, n: nat, children: seq<Child>,
                              finished: bool, k: nat)
  {
    && k <= |children| && (finished <==> k == |children|) && n == n0 + k + (if finished then 0 else 1)
    && NoFaults(env, n0, k) && (!finished ==> env(n0 + k).fault.Some?)
    && OnlyRemoves(h0, h, IdsOf(children[..k]))
    && h == DeletedAmid(env, h0, n0, IdsOf(children[..k])) +
            (if finished then [] else OthersEntries(env(n0 + k).others))
    && (Steady(env, n0, n) ==> h == Deleted(h0, env, n0, IdsOf(children[..k])))
  }

  /** Deletes the collected children in order and stops at the first failure; `k` of them have been dealt with. */
  method DeleteAll(server: ApiServer, children: seq<Child>) returns (err: Option<CallError>, ghost k: nat)
    modifies server
    ensures DeletedUpTo(server.env, old(server.history), |old(server.calls)|, server.history, |server.calls|, children,
                        err == None, k)
  {
    hide Deleting, DeletedUpTo, IdsOf;
    ghost var h0, n0 := server.history, |server.calls|;
    NothingDeleted(server.env, h0, n0);
    assert IdsOf(children[..0]) == [] by { IdsOfNone(); }
    k := 0;
    for i := 0 to |children|
      invariant k == i
      invariant Deleting(server.env, h0, n0, server.history, |server.calls|, IdsOf(children[..i]), 0)
    {
      ghost var h, n := server.history, |server.calls|;
      var e := server.Delete(children[i].id);
      if e != None && e != Some(NotFound) {
        StopsHere(server.env, h0, n0, h, n, children, i, server.history, e);
        return e, k;
      }
      IdsOfOneMore(children, i);
      DeleteOne(server.env, h0, n0, h, n, IdsOf(children[..i]), 0, children[i].id, server.history, e);
      k := k + 1;
    }
    AllDeleted(server.env, h0, n0, server.history, |server.calls|, children);
    err := None;
  }

  lemma IdsOfNone()
    ensures IdsOf([]) == []
  {
  }

  lemma IdsOfOneMore(children: seq<Child>, i: nat)
    requires i < |children|
    ensures IdsOf(children[..i + 1]) == IdsOf(children[..i]) + [children[i].id]
  {
    assert children[..i + 1][..i] == children[..i];
  }

  lemma StopsHere(env: nat -> Turn, h0: History, n0: nat, h: History, n: nat, children: seq<Child>, k: nat,
                  h': History, e: Option<CallError>)
    requires k < |children| && Deleting(env, h0, n0, h, n, IdsOf(children[..k]), 0)
    requires h' == h + OthersEntries(env(n).others) && e == DeleteError(h', children[k].id, env(n))
    requires e != None && e != Some(NotFound)
    ensures DeletedUpTo(env, h0, n0, h', n + 1, children, false, k)
  {
    SteadyTurnIfSo(env, n0, h, children[k].id, n);
    hide Deleted, DeletedAmid, IdsOf, Steady;
  }

  lemma AllDeleted(env: nat -> Turn, h0: History, n0: nat, h: History, n: nat, children: seq<Child>)
    requires Deleting(env, h0, n0, h, n, IdsOf(children[..|children|]), 0)
    ensures DeletedUpTo(env, h0, n0, h, n, children, true, |children|)
  {
    hide Deleted, DeletedAmid, IdsOf, Steady;
  }

  lemma SteadyTurnIfSo(env: nat -> Turn, n0: nat, h: History, id: ObjectId, n: nat)
    requires n0 <= n
    ensures Steady(env, n0, n + 1) ==> Steady(env, n0, n) && h + OthersEntries(env(n).others) == h
  {
  }

  lemma {:induction false} ServedMembers(h: History, env: nat -> Turn, n: nat, ids: seq<ObjectId>, id: ObjectId)
    ensures (exists c :: c in Served(h, env, n, ids) && c.id == id) <==>
            id.Valid() && Current(h, id).Some? && AnyServed(env, n, ids, id)
    decreases |ids|
  {
    if ids != [] {
      var rest := Served(h, env, n + 1, ids[1..]);
      ServedMembers(h, env, n + 1, ids[1..], id);
      ServedCons(env, n, ids, id);
      var all := Served(h, env, n, ids);
      if c :| c in all && c.id == id {
        assert c in rest || (ids[0] == id && env(n).fault == None);
      }
      if id.Valid() && Current(h, id).Some? && ids[0] == id && env(n).fault == None {
        assert all[0] in all && all[0].id == id;
      }
      if c :| c in rest && c.id == id {
        assert c in all;
      }
    }
  }

  /** What pruning leaves on a steady server: the stale ones among the children that could be read are deleted. */
  function PruneHistory(h: History, env: nat -> Turn, n: nat, ids: seq<ObjectId>, currentKeys: set<string>): History
  {
    Deleted(h, env, n + |ids|, StaleAmong(Served(h, env, n, ids), currentKeys))
  }

  function PruneCalls(h: History, env: nat -> Turn, n: nat, ids: seq<ObjectId>, currentKeys: set<string>): nat
  {
    n + |ids| + |StaleAmong(Served(h, env, n, ids), currentKeys)|
  }

  /** What pruning leaves, and how many calls it makes, whatever the surroundings do. */
  function PrunedAmid(env: nat -> Turn, h: History, n: nat, ids: seq<ObjectId>, currentKeys: set<string>): History
  {
    DeletedAmid(env, Met(env, h, n, |ids|), n + |ids|, StaleAmong(Found(env, h, n, ids), currentKeys))
  }

  function PruneCallsAmid(env: nat -> Turn, h: History, n: nat, ids: seq<ObjectId>, currentKeys: set<string>): nat
  {
    n + |ids| + |StaleAmong(Found(env, h, n, ids), currentKeys)|
  }

  /** The keys whose objects are gone once pruning is done with them. */
  function GonePruned(env: nat -> Turn, h: History, n: nat, managed: seq<string>, currentKeys: set<string>): set<string>
  {
    var ids := Readable(ReadForDeletion, managed);
    GoneKeys(env, n + |ids|, StaleAmong(Found(env, h, n, ids), currentKeys))
  }

  /**
   What pruning does: whatever the surroundings do, it reads all that is managed, deletes the stale ones of
   the children it found, and counts the deletion calls that met a fault. With failures only, that is what
   `PruneHistory` says.
   */
  ghost predicate PruneDone(env: nat -> Turn, s: Span, managed: seq<string>, currentKeys: set<string>, errors: nat,
                            calls: seq<Call>)
  {
    var ids := Readable(ReadForDeletion, managed);
    var first := s.from + |ids|;
    && OnlyStaleRemoved(s.before, s.after, managed, currentKeys)
    && s.after == PrunedAmid(env, s.before, s.from, ids, currentKeys)
    && s.to == PruneCallsAmid(env, s.before, s.from, ids, currentKeys) == |calls| >= first
    && errors == Faults(env, first, s.to - first)
    && Gets(calls, s.from, first) && Deletes(calls, first, s.to)
    && (Steady(env, s.from, s.to) ==>
          && s.after == PruneHistory(s.before, env, s.from, ids, currentKeys)
          && s.to == PruneCalls(s.before, env, s.from, ids, currentKeys))
  }

  /** The reads come first, the deletions of what was read and is stale after them. */
  method Prune(server: ApiServer, book: VersionBook, managed: seq<string>, currentKeys: set<string>)
    returns (errors: nat)
    requires book.Valid()
    modifies server, book
    ensures PruneDone(server.env, Span(old(server.history), |old(server.calls)|, server.history, |server.calls|),
                      managed, currentKeys, errors, server.calls)
    ensures old(server.calls) <= server.calls
    ensures book.Valid() && KeepsCurrent(old(book.versions), book.versions, currentKeys)
    ensures book.versions == old(book.versions) -
              GonePruned(server.env, old(server.history), |old(server.calls)|, managed, currentKeys)
    ensures OnlyDrops(old(book.ledger), book.ledger)
  {
    hide Collected, Deleting, OnlyDrops, KeepsCurrent, StaleAmong, Found, GoneKeys, Readable, Accounts, PruneDone, Gets,
         Deletes;
    ghost var h0, n0 := server.history, |server.calls|;
    var children := CollectChildren(server, ReadForDeletion, managed);
    ghost var h1, n1, calls := server.history, |server.calls|, server.calls;
    errors := PruneStaleResources(server, book, currentKeys, children);
    PruneMeans(server.env, Span(h0, n0, h1, n1), Span(h1, n1, server.history, |server.calls|), managed, currentKeys,
               children, errors, calls, server.calls);
  }

  lemma PruneMeans(env: nat -> Turn, r: Span, s: Span, managed: seq<string>, currentKeys: set<string>,
                   children: seq<Child>, errors: nat, calls: seq<Call>, calls': seq<Call>)
    requires r.to == s.from && r.after == s.before && |calls| == r.to && |calls'| == s.to && calls <= calls'
    requires Collected(env, r.before, r.from, r.after, r.to, Readable(ReadForDeletion, managed), children)
    requires Deleting(env, s.before, s.from, s.after, s.to, StaleAmong(children, currentKeys), errors)
    requires Gets(calls, r.from, r.to) && Deletes(calls', s.from, s.to)
    ensures PruneDone(env, Span(r.before, r.from, s.after, s.to), managed, currentKeys, errors, calls')
    ensures children == Found(env, r.before, r.from, Readable(ReadForDeletion, managed))
    ensures s.from == r.from + |Readable(ReadForDeletion, managed)|
  {
    hide Deleted, DeletedAmid, Found, Met, Served, StaleAmong, Faults, Readable, GoneKeys;
    OnlyStaleGone(r.before, r.after, s.after, managed, currentKeys, children);
    if Steady(env, r.from, s.to) {
      assert Steady(env, r.from, r.to) && Steady(env, s.from, s.to);
    }
  }

  lemma OnlyStaleGone(h0: History, h1: History, h: History, managed: seq<string>, currentKeys: set<string>,
                      children: seq<Child>)
    requires OthersOnly(h0, h1) && OnlyRemoves(h1, h, StaleAmong(children, currentKeys))
    requires forall c :: c in children ==> c.id in Readable(ReadForDeletion, managed)
    ensures OnlyStaleRemoved(h0, h, managed, currentKeys)
  {
    hide Readable, StaleAmong;
    forall i | |h0| <= i < |h| && h[i].author == Operator
      ensures h[i].change == Remove && h[i].id.Valid()
      ensures GetObjectKey(h[i].id) in managed && GetObjectKey(h[i].id) !in currentKeys
    {
      StaleMembers(children, currentKeys, h[i].id);
      ReadableMembers(managed, h[i].id);
    }
  }

  lemma {:induction false} StaleMembers(children: seq<Child>, currentKeys: set<string>, id: ObjectId)
    ensures id in StaleAmong(children, currentKeys) <==>
            GetObjectKey(id) !in currentKeys && exists c :: c in children && c.id == id
  {
    if children != [] {
      var front, last := children[..|children| - 1], children[|children| - 1];
      StaleMembers(front, currentKeys, id);
      assert children == front + [last];
    }
  }

  /** The operator's own writes are removals of objects that were managed and are not current. */
  ghost predicate OnlyStaleRemoved(h0: History, h: History, managed: seq<string>, currentKeys: set<string>)
  {
    && h0 <= h
    && forall i :: |h0| <= i < |h| && h[i].author == Operator ==>
         && h[i].change == Remove && h[i].id.Valid()
         && GetObjectKey(h[i].id) in managed && GetObjectKey(h[i].id) !in currentKeys
  }
}
