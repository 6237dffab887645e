/**
 The API server as the operator sees it: a history of writes, its own and other actors'. The number
 of writes so far is the resource version, so a version names one write and one content.
 */
module Cluster {
  import opened Text
  import opened Json
  import opened ObjectKeys
  import opened Manifests

  datatype Author = Operator | Other
  datatype Change = Put(manifest: Manifest) | Remove
  datatype Entry = Entry(author: Author, id: ObjectId, change: Change)
  type History = seq<Entry>

  datatype Stored = Stored(manifest: Manifest, version: nat)

  /** The object that a history leaves under `id`. */
  function Current(h: History, id: ObjectId): Option<Stored>
  {
    if h == [] then None
    else
      var last := h[|h| - 1];
      if last.id != id then Current(h[..|h| - 1], id)
      else match last.change
        case Put(m) => Some(Stored(m, |h|))
        case Remove => None
  }

  /** `s` was at some time what the history held under `id`. */
  predicate IsVersion(h: History, id: ObjectId, s: Stored)
  {
    1 <= s.version <= |h| && h[s.version - 1].id == id && h[s.version - 1].change == Put(s.manifest)
  }

  lemma {:induction false} CurrentIsVersion(h: History, id: ObjectId)
    requires Current(h, id).Some?
    ensures IsVersion(h, id, Current(h, id).value)
  {
    if h[|h| - 1].id != id {
      CurrentIsVersion(h[..|h| - 1], id);
    }
  }

  /** Optimistic concurrency: a version that is still current still has the content it was read with. */
  lemma VersionFixesContent(h: History, id: ObjectId, s: Stored)
    requires IsVersion(h, id, s)
    requires Current(h, id).Some? && Current(h, id).value.version == s.version
    ensures Current(h, id).value == s
  {
    CurrentIsVersion(h, id);
  }

  lemma CurrentAfter(h: History, e: Entry, id: ObjectId)
    ensures Current(h + [e], id) ==
            if e.id != id then Current(h, id)
            else if e.change.Put? then Some(Stored(e.change.manifest, |h| + 1)) else None
  {
    assert (h + [e])[..|h|] == h;
  }

  /** No write of the operator's between two points of a history. */
  predicate Quiet(h: History, from: nat, to: nat)
  {
    to <= |h| && forall i :: from <= i < to ==> h[i].author == Other
  }

  /** Writes of others only. */
  predicate OthersOnly(before: History, after: History)
  {
    before <= after && Quiet(after, |before|, |after|)
  }

  datatype Fault = Conflicted | Refused

  /** What surrounds one API call: writes of others just before it, whether it fails, how far its read lags behind. */
  datatype Turn = Turn(others: seq<(ObjectId, Change)>, fault: Option<Fault>, lag: nat)

  function OthersEntries(others: seq<(ObjectId, Change)>): (es: seq<Entry>)
    ensures |es| == |others|
    ensures forall i :: 0 <= i < |es| ==> es[i].author == Other
  {
    if others == [] then [] else [Entry(Other, others[0].0, others[0].1)] + OthersEntries(others[1..])
  }

  predicate CalmTurn(t: Turn)
  {
    t == Turn([], None, 0)
  }

  /** No other writer, no failure and no stale read at the calls number `from` to `to`, the latter not included. */
  ghost predicate Calm(env: nat -> Turn, from: nat, to: nat)
  {
    forall n: nat :: from <= n < to ==> CalmTurn(env(n))
  }

  /** A stretch of work: the history and the number of calls made, before and after it. */
  datatype Span = Span(before: History, from: nat, after: History, to: nat)

  /** The history when the last of the `k` calls from number `n` on is served, if none of them writes. */
  function Met(env: nat -> Turn, h: History, n: nat, k: nat): History
  {
    if k == 0 then h else Met(env, h, n, k - 1) + OthersEntries(env(n + (k - 1)).others)
  }

  lemma {:induction false} MetIsOthers(env: nat -> Turn, h: History, n: nat, k: nat)
    ensures OthersOnly(h, Met(env, h, n, k))
  {
    if k > 0 {
      MetIsOthers(env, h, n, k - 1);
    }
  }

  lemma {:induction false} MetChains(env: nat -> Turn, h: History, n: nat, j: nat, k: nat)
    ensures Met(env, Met(env, h, n, j), n + j, k) == Met(env, h, n, j + k)
    decreases k
  {
    if k > 0 {
      MetChains(env, h, n, j, k - 1);
    }
  }

  datatype CallError = NotFound | Conflict | Failed
  datatype Reply<+T> = Ok(value: T) | Err(error: CallError)

  datatype Call = GetCall(id: ObjectId) | UpdateCall(id: ObjectId) | ApplyCall(id: ObjectId) | DeleteCall(id: ObjectId)

  /** The calls number `from` to `to`, the latter not included, are reads. */
  predicate Gets(calls: seq<Call>, from: nat, to: nat)
  {
    from <= to <= |calls| && forall n :: from <= n < to ==> calls[n].GetCall?
  }

  predicate Deletes(calls: seq<Call>, from: nat, to: nat)
  {
    from <= to <= |calls| && forall n :: from <= n < to ==> calls[n].DeleteCall?
  }

  function Lagging(h: History, lag: nat): History
  {
    if lag <= |h| then h[..|h| - lag] else []
  }

  /** A request that names no possible object, with a slash in a name or without one, is refused. */
  function GetReply(h: History, id: ObjectId, t: Turn): Reply<Stored>
  {
    if t.fault.Some? || !id.Valid() then Err(Failed)
    else match Current(Lagging(h, t.lag), id)
      case None => Err(NotFound)
      case Some(s) => Ok(s)
  }

  function FaultError(f: Fault): CallError
  {
    match f case Conflicted => Conflict case Refused => Failed
  }

  function UpdateError(h: History, id: ObjectId, version: nat, t: Turn): Option<CallError>
  {
    if t.fault.Some? then Some(FaultError(t.fault.value))
    else match Current(h, id)
      case None => Some(NotFound)
      case Some(s) => if s.version == version then None else Some(Conflict)
  }

  function DeleteError(h: History, id: ObjectId, t: Turn): Option<CallError>
  {
    if t.fault.Some? then Some(FaultError(t.fault.value))
    else if Current(h, id) == None then Some(NotFound) else None
  }

  /** Server-side apply over an object that appeared meanwhile: maps are merged, everything else is replaced. */
  function OverlayJson(live: Json, applied: Json): Json
  {
    match (live, applied)
    case (_, Null) => live
    case (Obj(f), Obj(g)) => Obj(map k | k in f.Keys + g.Keys ::
                                   if k !in g then f[k] else if k !in f then g[k] else OverlayJson(f[k], g[k]))
    case _ => applied
  }

  function ServerApplied(live: Option<Stored>, m: Manifest): Manifest
  {
    match live
    case None => m
    case Some(s) => Manifest(OverlayJson(s.manifest.spec, m.spec), OverlayJson(s.manifest.data, m.data),
                             s.manifest.labels + m.labels, s.manifest.annotations + m.annotations,
                              s.manifest.rest + m.rest)
  }

  class ApiServer {
    const env: nat -> Turn
    var history: History
    var calls: seq<Call>

    constructor (env: nat -> Turn)
      ensures this.env == env && history == [] && calls == []
    {
      this.env, history, calls := env, [], [];
    }

    /** The surroundings of the next call, and the history when that call is served. */
    function Next(): Turn
      reads this
    {
      env(|calls|)
    }

    function Arriving(): History
      reads this
    {
      history + OthersEntries(Next().others)
    }

    method Get(id: ObjectId) returns (r: Reply<Stored>)
      modifies this
      ensures history == old(Arriving()) && calls == old(calls) + [GetCall(id)]
      ensures r == GetReply(history, id, old(Next()))
      ensures r.Ok? ==> IsVersion(history, id, r.value)
    {
      var turn := Next();
      history := Arriving();
      calls := calls + [GetCall(id)];
      r := GetReply(history, id, turn);
      if r.Ok? {
        CurrentIsVersion(Lagging(history, turn.lag), id);
      }
    }

    method Update(id: ObjectId, m: Manifest, version: nat) returns (e: Option<CallError>)
      modifies this
      ensures e == UpdateError(old(Arriving()), id, version, old(Next())) && calls == old(calls) + [UpdateCall(id)]
      ensures history == old(Arriving()) + if e == None then [Entry(Operator, id, Put(m))] else []
    {
      var turn := Next();
      history := Arriving();
      calls := calls + [UpdateCall(id)];
      e := UpdateError(history, id, version, turn);
      if e == None {
        history := history + [Entry(Operator, id, Put(m))];
      }
    }

    method ServerSideApply(id: ObjectId, m: Manifest) returns (e: Option<CallError>)
      modifies this
      ensures e == (if old(Next()).fault.Some? then Some(FaultError(old(Next()).fault.value)) else None)
      ensures calls == old(calls) + [ApplyCall(id)]
      ensures history == old(Arriving()) +
                (if e == None then [Entry(Operator, id, Put(ServerApplied(Current(old(Arriving()), id), m)))] else [])
    {
      var turn := Next();
      history := Arriving();
      calls := calls + [ApplyCall(id)];
      if turn.fault.Some? {
        return Some(FaultError(turn.fault.value));
      }
      history := history + [Entry(Operator, id, Put(ServerApplied(Current(history, id), m)))];
      e := None;
    }

    method Delete(id: ObjectId) returns (e: Option<CallError>)
      modifies this
      ensures e == DeleteError(old(Arriving()), id, old(Next())) && calls == old(calls) + [DeleteCall(id)]
      ensures history == old(Arriving()) + if e == None then [Entry(Operator, id, Remove)] else []
    {
      var turn := Next();
      history := Arriving();
      calls := calls + [DeleteCall(id)];
      e := DeleteError(history, id, turn);
      if e == None {
        history := history + [Entry(Operator, id, Remove)];
      }
    }
  }
}
