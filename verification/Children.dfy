/** Finding the managed children again, from the keys in the status. */
module Children {
  import opened Text
  import opened ObjectKeys
  import opened Manifests
  import opened Cluster
  import opened StatusLedger

  /** One of the readers of managed keys. */
  type Reader = string -> Option<ObjectId>

  /** The objects that a list of managed keys names, for one reader. */
  function Readable(read: Reader, managed: seq<string>): seq<ObjectId>
  {
    if managed == [] then []
    else (match read(managed[0]) case Some(id) => [id] case None => []) + Readable(read, managed[1..])
  }

  lemma {:induction false} ReadableOneMore(read: Reader, managed: seq<string>, k: nat)
    requires k < |managed|
    ensures Readable(read, managed[..k + 1]) ==
            Readable(read, managed[..k]) + (match read(managed[k]) case Some(id) => [id] case None => [])
  {
    if k > 0 {
      ReadableOneMore(read, managed[1..], k - 1);
      assert managed[..k + 1][1..] == managed[1..][..k] && managed[..k][1..] == managed[1..][..k - 1];
    } else {
      assert managed[..1] == [managed[0]] && [managed[0]][1..] == [];
    }
  }

  /** The deletion reader names exactly the valid objects whose keys are listed. */
  lemma {:induction false} ReadableMembers(managed: seq<string>, id: ObjectId)
    ensures id in Readable(ReadForDeletion, managed) <==> id.Valid() && GetObjectKey(id) in managed
  {
    if managed != [] {
      ReadableMembers(managed[1..], id);
      ReadableIsKey(managed[0]);
      if id.Valid() && GetObjectKey(id) == managed[0] {
        ReadersRecover(id);
      }
    }
  }

  /** Lists of keys of valid objects, as every pass leaves them, read alike for deletion and for status updates. */
  lemma {:induction false} ReadersAgree(managed: seq<string>)
    requires forall e :: e in managed ==> ReadForDeletion(e).Some?
    ensures Readable(ReadForStatus, managed) == Readable(ReadForDeletion, managed)
  {
    if managed != [] {
      assert managed[0] in managed;
      ReadersAgree(managed[1..]);
    }
  }

  /** Only failures at these calls: no other writer and no stale read. */
  ghost predicate Steady(env: nat -> Turn, from: nat, to: nat)
  {
    forall n: nat :: from <= n < to ==> env(n).others == [] && env(n).lag == 0
  }

  lemma SteadyTurn(h: History, id: ObjectId, t: Turn)
    requires t.others == [] && t.lag == 0
    ensures h + OthersEntries(t.others) == h
    ensures GetReply(h, id, t) == if t.fault.Some? || !id.Valid() then Err(Failed)
                                  else match Current(h, id) case None => Err(NotFound) case Some(s) => Ok(s)
  {
    assert h[..|h|] == h;
  }

  /** What a Get of this object returns in this turn, if anything. */
  function ServedAt(h: History, t: Turn, id: ObjectId): seq<Child>
  {
    if id.Valid() && t.fault == None && Current(h, id).Some? then [Child(id, Current(h, id).value)] else []
  }

  /** The children a steady server serves: those that exist and whose Get does not fail. */
  function Served(h: History, env: nat -> Turn, n: nat, ids: seq<ObjectId>): seq<Child>
    decreases |ids|
  {
    if ids == [] then [] else ServedAt(h, env(n), ids[0]) + Served(h, env, n + 1, ids[1..])
  }

  lemma {:induction false} ServedOneMore(h: History, env: nat -> Turn, n: nat, ids: seq<ObjectId>, id: ObjectId)
    ensures Served(h, env, n, ids + [id]) == Served(h, env, n, ids) + ServedAt(h, env(n + |ids|), id)
    decreases |ids|
  {
    hide ServedAt;
    if ids == [] {
      assert ([id])[1..] == [] && [] + [id] == [id];
    } else {
      ServedOneMore(h, env, n + 1, ids[1..], id);
      assert (ids + [id])[1..] == ids[1..] + [id];
    }
  }

  /** What the `k`-th of these reads returns, whatever the surroundings do. */
  function ReplyAt(env: nat -> Turn, h: History, n: nat, ids: seq<ObjectId>, k: nat): Reply<Stored>
    requires k < |ids|
  {
    GetReply(Met(env, h, n, k + 1), ids[k], env(n + k))
  }

  /** The children found by reading `ids` one by one: those whose read returns an object, in order. */
  function Found(env: nat -> Turn, h: History, n: nat, ids: seq<ObjectId>): seq<Child>
  {
    if ids == [] then []
    else
      var k := |ids| - 1;
      Found(env, h, n, ids[..k]) +
      (match ReplyAt(env, h, n, ids, k) case Ok(s) => [Child(ids[k], s)] case Err(_) => [])
  }

  lemma FoundOneMore(env: nat -> Turn, h: History, n: nat, ids: seq<ObjectId>, id: ObjectId)
    ensures Found(env, h, n, ids + [id]) == Found(env, h, n, ids) +
            (match GetReply(Met(env, h, n, |ids| + 1), id, env(n + |ids|))
             case Ok(s) => [Child(id, s)] case Err(_) => [])
  {
    assert (ids + [id])[..|ids|] == ids;
  }

  /** The `k`-th read is one of this child, and returns it as it is. */
  predicate ReadAs(env: nat -> Turn, h: History, n: nat, ids: seq<ObjectId>, c: Child, k: nat)
    requires k < |ids|
  {
    ids[k] == c.id && ReplyAt(env, h, n, ids, k) == Ok(c.stored)
  }

  /** A child is found exactly when one of the reads for it returns it as it is listed. */
  lemma {:induction false} FoundExactly(env: nat -> Turn, h: History, n: nat, ids: seq<ObjectId>, c: Child)
    ensures c in Found(env, h, n, ids) <==> exists k :: 0 <= k < |ids| && ReadAs(env, h, n, ids, c, k)
  {
    if ids != [] {
      var k := |ids| - 1;
      FoundExactly(env, h, n, ids[..k], c);
      FoundLast(env, h, n, ids, c);
      SameReads(env, h, n, ids, k, c);
      hide Found, ReadAs, ReplyAt;
    }
  }

  lemma FoundLast(env: nat -> Turn, h: History, n: nat, ids: seq<ObjectId>, c: Child)
    requires ids != []
    ensures c in Found(env, h, n, ids) <==>
            c in Found(env, h, n, ids[..|ids| - 1]) || ReadAs(env, h, n, ids, c, |ids| - 1)
  {
    hide GetReply, Met;
  }

  lemma SameReads(env: nat -> Turn, h: History, n: nat, ids: seq<ObjectId>, k: nat, c: Child)
    requires k <= |ids|
    ensures forall j :: 0 <= j < k ==> (ReadAs(env, h, n, ids[..k], c, j) <==> ReadAs(env, h, n, ids, c, j))
  {
  }

  /** What has been read for `ids` between the call numbers n0 and n, while the history grew from h0 to h. */
  ghost predicate Collected(env: nat -> Turn, h0: History, n0: nat, h: History, n: nat, ids: seq<ObjectId>,
                            children: seq<Child>)
  {
    && OthersOnly(h0, h) && n == n0 + |ids|
    && h == Met(env, h0, n0, |ids|) && children == Found(env, h0, n0, ids)
    && Listed(h, ids, children)
    && (Steady(env, n0, n) ==> h == h0 && children == Served(h0, env, n0, ids))
  }

  lemma CollectStep(env: nat -> Turn, h0: History, n0: nat, h: History, n: nat, ids: seq<ObjectId>,
                    children: seq<Child>, id: ObjectId, h': History, reply: Reply<Stored>)
    requires Collected(env, h0, n0, h, n, ids, children)
    requires h' == h + OthersEntries(env(n).others) && reply == GetReply(h', id, env(n))
    requires reply.Ok? ==> IsVersion(h', id, reply.value)
    ensures Collected(env, h0, n0, h', n + 1, ids + [id],
                      if reply.Ok? then children + [Child(id, reply.value)] else children)
  {
    FoundOneMore(env, h0, n0, ids, id);
    ListedOneMore(h, ids, children, id, h', reply);
    hide Found, Served, IsVersion;
    if Steady(env, n0, n + 1) {
      assert Steady(env, n0, n);
      SteadyTurn(h, id, env(n));
      ServedOneMore(h, env, n0, ids, id);
      hide GetReply;
    }
  }

  /** The children listed are among the objects that were read, with versions these once had. */
  ghost predicate Listed(h: History, ids: seq<ObjectId>, children: seq<Child>)
  {
    forall c :: c in children ==> c.id in ids && IsVersion(h, c.id, c.stored)
  }

  lemma ListedOneMore(h: History, ids: seq<ObjectId>, children: seq<Child>, id: ObjectId, h': History,
                      reply: Reply<Stored>)
    requires Listed(h, ids, children) && h <= h' && (reply.Ok? ==> IsVersion(h', id, reply.value))
    ensures Listed(h', ids + [id], if reply.Ok? then children + [Child(id, reply.value)] else children)
  {
  }

  /** Reads every managed child that can be read; failures are skipped. */
  method CollectChildren(server: ApiServer, read: Reader, managed: seq<string>) returns (children: seq<Child>)
    modifies server
    ensures Collected(server.env, old(server.history), |old(server.calls)|, server.history, |server.calls|,
                      Readable(read, managed), children)
    ensures old(server.calls) <= server.calls && Gets(server.calls, |old(server.calls)|, |server.calls|)
  {
    children := [];
    ghost var h0, n0 := server.history, |server.calls|;
    assert Collected(server.env, h0, n0, h0, n0, Readable(read, managed[..0]), children);
    hide Collected, Readable, Served, IsVersion, Current, Found, Met, GetReply;
    for k := 0 to |managed|
      invariant Collected(server.env, h0, n0, server.history, |server.calls|, Readable(read, managed[..k]), children)
      invariant old(server.calls) <= server.calls && Gets(server.calls, n0, |server.calls|)
    {
      ReadableOneMore(read, managed, k);
      var found := read(managed[k]);
      if found == None {
        assert Readable(read, managed[..k]) + [] == Readable(read, managed[..k]);
        continue;
      }
      var id := found.value;
      ghost var h, n := server.history, |server.calls|;
      var reply := server.Get(id);
      CollectStep(server.env, h0, n0, h, n, Readable(read, managed[..k]), children, id, server.history, reply);
      if reply.Err? {
        continue;
      }
      children := children + [Child(id, reply.value)];
    }
    assert managed[..|managed|] == managed;
  }
}
