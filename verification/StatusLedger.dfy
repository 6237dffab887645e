/** Which version of which child has been reported to the database, and that nothing is reported twice. */
module StatusLedger {
  import opened Text
  import opened ObjectKeys
  import opened Cluster

  /** What happens to the recorded versions: a report that the database accepted, or an entry dropped. */
  datatype Event = Reported(key: string, version: nat) | Dropped(key: string)

  function Apply(versions: map<string, nat>, e: Event): map<string, nat>
  {
    match e
    case Reported(k, v) => versions[k := v]
    case Dropped(k) => versions - {k}
  }

  /** The recorded versions after a ledger of events, starting from those that were read. */
  function Replay(base: map<string, nat>, ledger: seq<Event>): map<string, nat>
  {
    if ledger == [] then base else Apply(Replay(base, ledger[..|ledger| - 1]), ledger[|ledger| - 1])
  }

  predicate Holds(versions: map<string, nat>, key: string, version: nat)
  {
    key in versions && versions[key] == version
  }

  /** Nothing is reported whose version is already recorded. */
  predicate NoRepeats(base: map<string, nat>, ledger: seq<Event>)
  {
    forall i :: 0 <= i < |ledger| && ledger[i].Reported? ==>
      !Holds(Replay(base, ledger[..i]), ledger[i].key, ledger[i].version)
  }

  /** The ledger accounts for how `versions` came about. */
  predicate Accounts(base: map<string, nat>, ledger: seq<Event>, versions: map<string, nat>)
  {
    versions == Replay(base, ledger) && NoRepeats(base, ledger)
  }

  lemma OneMore(base: map<string, nat>, ledger: seq<Event>, e: Event)
    ensures Replay(base, ledger + [e]) == Apply(Replay(base, ledger), e)
    ensures NoRepeats(base, ledger) && (e.Reported? ==> !Holds(Replay(base, ledger), e.key, e.version)) ==>
              NoRepeats(base, ledger + [e])
  {
    var longer := ledger + [e];
    assert longer[..|ledger|] == ledger;
    if NoRepeats(base, ledger) && (e.Reported? ==> !Holds(Replay(base, ledger), e.key, e.version)) {
      forall i | 0 <= i < |longer| && longer[i].Reported?
        ensures !Holds(Replay(base, longer[..i]), longer[i].key, longer[i].version)
      {
        assert longer[..i] == ledger[..i];
      }
    }
  }

  /** Ledgers of successive passes chain, as long as each pass reads the versions the one before it left. */
  lemma {:induction false} PassesChain(base: map<string, nat>, first: seq<Event>, second: seq<Event>)
    ensures Replay(base, first + second) == Replay(Replay(base, first), second)
    ensures NoRepeats(base, first) && NoRepeats(Replay(base, first), second) ==> NoRepeats(base, first + second)
    decreases |second|
  {
    if second == [] {
      assert first + second == first;
    } else {
      var front, e := second[..|second| - 1], second[|second| - 1];
      PassesChain(base, first, front);
      assert first + second == (first + front) + [e];
      OneMore(base, first + front, e);
      if NoRepeats(Replay(base, first), second) {
        assert forall i :: 0 <= i < |front| ==> front[..i] == second[..i];
        assert second[..|front|] == front;
      }
    }
  }

  /** Entries have been dropped, nothing has been reported. */
  predicate OnlyDrops(before: seq<Event>, after: seq<Event>)
  {
    before <= after && forall i :: |before| <= i < |after| ==> after[i].Dropped?
  }

  /** The last accepted report for a key, if any. */
  function LastReport(ledger: seq<Event>, key: string): Option<nat>
  {
    if ledger == [] then None
    else
      var last := ledger[|ledger| - 1];
      if last.Reported? && last.key == key then Some(last.version) else LastReport(ledger[..|ledger| - 1], key)
  }

  /** A recorded version is the one of the key's last accepted report, or stands as it was read when there was none. */
  lemma {:induction false} EntryIsLastReport(base: map<string, nat>, ledger: seq<Event>, key: string)
    requires key in Replay(base, ledger)
    ensures match LastReport(ledger, key)
            case Some(v) => Replay(base, ledger)[key] == v
            case None => Holds(base, key, Replay(base, ledger)[key])
  {
    if ledger != [] {
      var last := ledger[|ledger| - 1];
      if !(last.Reported? && last.key == key) {
        EntryIsLastReport(base, ledger[..|ledger| - 1], key);
      }
    }
  }

  predicate Touches(e: Event, key: string, version: nat)
  {
    e.key == key && (e.Dropped? || e.version != version)
  }

  /** Until an entry is dropped or overwritten by another version it stays. */
  lemma {:induction false} EntryStays(base: map<string, nat>, ledger: seq<Event>, i: nat, j: nat, key: string,
                                      version: nat)
    requires i < j <= |ledger| && ledger[i] == Reported(key, version)
    requires forall k :: i < k < j ==> !Touches(ledger[k], key, version)
    ensures Holds(Replay(base, ledger[..j]), key, version)
  {
    assert ledger[..j][..j - 1] == ledger[..j - 1];
    if i < j - 1 {
      EntryStays(base, ledger, i, j - 1, key, version);
    }
  }

  /** Between two accepted reports of the same version of the same child, its entry was dropped or overwritten. */
  lemma RepeatsAreSeparated(base: map<string, nat>, ledger: seq<Event>, i: nat, j: nat)
    requires NoRepeats(base, ledger) && i < j < |ledger| && ledger[i].Reported? && ledger[i] == ledger[j]
    ensures exists k :: i < k < j && Touches(ledger[k], ledger[i].key, ledger[i].version)
  {
    if forall k :: i < k < j ==> !Touches(ledger[k], ledger[i].key, ledger[i].version) {
      EntryStays(base, ledger, i, j, ledger[i].key, ledger[i].version);
    }
  }

  datatype Child = Child(id: ObjectId, stored: Stored)

  /** Every child's current version, the later of two entries for one child winning. */
  function AllVersions(versions: map<string, nat>, children: seq<Child>): map<string, nat>
    decreases |children|
  {
    if children == [] then versions
    else AllVersions(versions[GetObjectKey(children[0].id) := children[0].stored.version], children[1..])
  }

  lemma {:induction false} AllVersionsOneMore(versions: map<string, nat>, children: seq<Child>, k: nat)
    requires k < |children|
    ensures AllVersions(versions, children[..k + 1]) ==
            AllVersions(versions, children[..k])[GetObjectKey(children[k].id) := children[k].stored.version]
    decreases k
  {
    if k > 0 {
      AllVersionsOneMore(versions[GetObjectKey(children[0].id) := children[0].stored.version], children[1..], k - 1);
      assert children[..k + 1][1..] == children[1..][..k] && children[..k][1..] == children[1..][..k - 1];
    } else {
      assert children[..1][1..] == [] && children[..0] == [];
    }
  }

  /** Where a key comes from: the version of a child with that key, or what stood before. */
  lemma {:induction false} AllVersionsOf(versions: map<string, nat>, children: seq<Child>, key: string)
    ensures if exists c :: c in children && GetObjectKey(c.id) == key
            then exists c ::
                   && c in children && GetObjectKey(c.id) == key
                   && Holds(AllVersions(versions, children), key, c.stored.version)
            else (key in AllVersions(versions, children) <==> key in versions) &&
                 (key in versions ==> AllVersions(versions, children)[key] == versions[key])
    decreases |children|
  {
    if children != [] {
      var first, rest := children[0], children[1..];
      assert children == [first] + rest;
      AllVersionsOf(versions[GetObjectKey(first.id) := first.stored.version], rest, key);
      if !(exists c :: c in rest && GetObjectKey(c.id) == key) && GetObjectKey(first.id) == key {
        assert first in children && Holds(AllVersions(versions, children), key, first.stored.version);
      }
    }
  }

  function KeysOf(children: seq<Child>): set<string>
  {
    set c | c in children :: GetObjectKey(c.id)
  }

  /** What is new in the ledger are reports of these children. */
  ghost predicate ReportsOf(before: seq<Event>, after: seq<Event>, children: seq<Child>)
  {
    && before <= after
    && forall i :: |before| <= i < |after| ==>
         exists c :: c in children && after[i] == Reported(GetObjectKey(c.id), c.stored.version)
  }

  lemma ReportsOneMore(before: seq<Event>, after: seq<Event>, children: seq<Child>, c: Child)
    requires ReportsOf(before, after, children) && c in children
    ensures ReportsOf(before, after + [Reported(GetObjectKey(c.id), c.stored.version)], children)
  {
  }

  /** Every new report is of a version that its object once had. */
  ghost predicate RealReports(h: History, before: seq<Event>, after: seq<Event>)
  {
    && before <= after
    && forall i :: |before| <= i < |after| && after[i].Reported? ==> RealReport(h, after[i])
  }

  ghost predicate RealReport(h: History, e: Event)
    requires e.Reported?
  {
    exists c: Child :: IsVersion(h, c.id, c.stored) && e == Reported(GetObjectKey(c.id), c.stored.version)
  }

  lemma CollectedReportsAreReal(h: History, before: seq<Event>, after: seq<Event>, children: seq<Child>)
    requires ReportsOf(before, after, children) && forall c :: c in children ==> IsVersion(h, c.id, c.stored)
    ensures RealReports(h, before, after)
  {
    forall i | |before| <= i < |after|
      ensures after[i].Reported? && RealReport(h, after[i])
    {
      var c :| c in children && after[i] == Reported(GetObjectKey(c.id), c.stored.version);
      assert IsVersion(h, c.id, c.stored);
    }
  }

  lemma DropsAreReal(h: History, first: seq<Event>, before: seq<Event>, after: seq<Event>)
    requires RealReports(h, first, before) && OnlyDrops(before, after)
    ensures RealReports(h, first, after)
  {
  }

  // ---- what the database is asked ----

  /** A status update that was sent, and whether the database accepted it. */
  datatype Executed = Executed(key: string, version: nat, ok: bool)

  /** The database, as far as status updates go: connecting, rendering and executing together succeed or fail. */
  class Database {
    const accepts: nat -> bool
    var log: seq<Executed>

    constructor (accepts: nat -> bool)
      ensures this.accepts == accepts && log == []
    {
      this.accepts, log := accepts, [];
    }

    method Exec(key: string, version: nat) returns (ok: bool)
      modifies this
      ensures ok == accepts(|old(log)|) && log == old(log) + [Executed(key, version, ok)]
    {
      ok := accepts(|log|);
      log := log + [Executed(key, version, ok)];
    }
  }

  /** The entries that a log has gained. */
  function Since(before: seq<Executed>, after: seq<Executed>): seq<Executed>
  {
    if |before| <= |after| then after[|before|..] else []
  }

  predicate AllAccepted(log: seq<Executed>)
  {
    forall i :: 0 <= i < |log| ==> log[i].ok
  }

  /** The reports that the database accepted. */
  function AcceptedReports(log: seq<Executed>): (reports: seq<Event>)
    ensures forall i :: 0 <= i < |reports| ==> reports[i].Reported?
  {
    if log == [] then []
    else
      var last := log[|log| - 1];
      AcceptedReports(log[..|log| - 1]) + if last.ok then [Reported(last.key, last.version)] else []
  }

  /** The recorded versions after these answers, starting from those that were read. */
  function AfterAnswers(versions: map<string, nat>, log: seq<Executed>): map<string, nat>
  {
    if log == [] then versions
    else
      var before, last := AfterAnswers(versions, log[..|log| - 1]), log[|log| - 1];
      if last.ok then before[last.key := last.version] else before
  }

  /** The reports among these events. */
  function ReportsIn(ledger: seq<Event>): seq<Event>
  {
    if ledger == [] then []
    else
      var last := ledger[|ledger| - 1];
      ReportsIn(ledger[..|ledger| - 1]) + if last.Reported? then [last] else []
  }

  lemma {:induction false} ReportsInOfBoth(a: seq<Event>, b: seq<Event>)
    ensures ReportsIn(a + b) == ReportsIn(a) + ReportsIn(b)
    decreases |b|
  {
    if b == [] {
      assert a + b == a;
    } else {
      ReportsInOfBoth(a, b[..|b| - 1]);
      assert (a + b)[..|a + b| - 1] == a + b[..|b| - 1];
    }
  }

  lemma {:induction false} ReportsInReports(reports: seq<Event>)
    requires forall i :: 0 <= i < |reports| ==> reports[i].Reported?
    ensures ReportsIn(reports) == reports
  {
    if reports != [] {
      ReportsInReports(reports[..|reports| - 1]);
    }
  }

  lemma {:induction false} DropsReportNothing(before: seq<Event>, after: seq<Event>)
    requires OnlyDrops(before, after)
    ensures ReportsIn(after) == ReportsIn(before)
    decreases |after|
  {
    if after != before {
      var front := after[..|after| - 1];
      assert before <= front;
      DropsReportNothing(before, front);
    }
  }

  lemma AcceptedAreReports(ledger: seq<Event>, log: seq<Executed>)
    ensures ReportsIn(ledger + AcceptedReports(log)) == ReportsIn(ledger) + AcceptedReports(log)
  {
    ReportsInOfBoth(ledger, AcceptedReports(log));
    ReportsInReports(AcceptedReports(log));
  }

  /** A stretch of the database's log: its answers, and the log before and after. */
  datatype Talk = Talk(accepts: nat -> bool, before: seq<Executed>, after: seq<Executed>)
  {
    function New(): seq<Executed>
    {
      Since(before, after)
    }
  }

  /**
   What the database is asked when these children are to be reported: each in turn, unless its version is
   recorded by then, whatever became of the others.
   */
  function ReportLog(accepts: nat -> bool, from: nat, versions: map<string, nat>, children: seq<Child>): seq<Executed>
  {
    if children == [] then []
    else
      var front := ReportLog(accepts, from, versions, children[..|children| - 1]);
      var c := children[|children| - 1];
      var key := GetObjectKey(c.id);
      if Holds(AfterAnswers(versions, front), key, c.stored.version) then front
      else front + [Executed(key, c.stored.version, accepts(from + |front|))]
  }

  /** The database has been asked to take exactly what these children have to report. */
  ghost predicate Told(accepts: nat -> bool, before: seq<Executed>, after: seq<Executed>, templateSet: bool,
                       versions: map<string, nat>, children: seq<Child>)
  {
    after == before + if templateSet then ReportLog(accepts, |before|, versions, children) else []
  }

  lemma AcceptedOneMore(log: seq<Executed>, e: Executed)
    ensures AcceptedReports(log + [e]) == AcceptedReports(log) + if e.ok then [Reported(e.key, e.version)] else []
  {
    assert (log + [e])[..|log|] == log;
  }

  lemma {:induction false} AcceptedIsOf(log: seq<Executed>, r: Event)
    ensures r in AcceptedReports(log) <==> r.Reported? && Executed(r.key, r.version, true) in log
  {
    if log != [] {
      var front, last := log[..|log| - 1], log[|log| - 1];
      AcceptedIsOf(front, r);
      assert log == front + [last];
    }
  }

  /** Every entry is a child's, whose version was not recorded when its turn came; the answer is the database's. */
  lemma {:induction false} AskedForCause(accepts: nat -> bool, from: nat, versions: map<string, nat>,
                                         children: seq<Child>, i: nat)
    requires i < |ReportLog(accepts, from, versions, children)|
    ensures var log := ReportLog(accepts, from, versions, children);
      && log[i].ok == accepts(from + i)
      && (exists c :: c in children && GetObjectKey(c.id) == log[i].key && c.stored.version == log[i].version)
      && !Holds(AfterAnswers(versions, log[..i]), log[i].key, log[i].version)
  {
    var front, last := children[..|children| - 1], children[|children| - 1];
    var log, before := ReportLog(accepts, from, versions, children), ReportLog(accepts, from, versions, front);
    assert children == front + [last];
    if i < |before| {
      AskedForCause(accepts, from, versions, front, i);
      assert log[..i] == before[..i];
    } else {
      assert log[..i] == before && last in children;
    }
  }

  /** No child is passed over: its version was recorded to begin with, or the database is asked to take it. */
  lemma {:induction false} NoChildIsPassedOver(accepts: nat -> bool, from: nat, versions: map<string, nat>,
                                               children: seq<Child>, c: Child)
    requires c in children
    ensures || Holds(versions, GetObjectKey(c.id), c.stored.version)
            || exists e :: e in ReportLog(accepts, from, versions, children) &&
                           e.key == GetObjectKey(c.id) && e.version == c.stored.version
  {
    var front, last := children[..|children| - 1], children[|children| - 1];
    var before := ReportLog(accepts, from, versions, front);
    assert children == front + [last];
    if c in front {
      NoChildIsPassedOver(accepts, from, versions, front, c);
    } else if Holds(AfterAnswers(versions, before), GetObjectKey(c.id), c.stored.version) {
      HeldForCause(versions, before, GetObjectKey(c.id), c.stored.version);
    }
  }

  /** A version that is recorded after these reports was recorded before them, or accepted among them. */
  lemma {:induction false} HeldForCause(versions: map<string, nat>, log: seq<Executed>, key: string, version: nat)
    requires Holds(AfterAnswers(versions, log), key, version)
    ensures Holds(versions, key, version) || Executed(key, version, true) in log
  {
    if log != [] {
      var front, last := log[..|log| - 1], log[|log| - 1];
      assert log == front + [last];
      if Holds(AfterAnswers(versions, front), key, version) {
        HeldForCause(versions, front, key, version);
      }
    }
  }

  /** A refused report changes nothing: without an accepted one a key keeps its entry, or its absence. */
  lemma {:induction false} RefusedChangesNothing(versions: map<string, nat>, log: seq<Executed>, key: string)
    requires forall e :: e in log && e.key == key ==> !e.ok
    ensures key in AfterAnswers(versions, log) <==> key in versions
    ensures key in versions ==> AfterAnswers(versions, log)[key] == versions[key]
  {
    if log != [] {
      var front, last := log[..|log| - 1], log[|log| - 1];
      assert log == front + [last] && last in log;
      RefusedChangesNothing(versions, front, key);
    }
  }

  lemma RecordedOneMore(versions: map<string, nat>, log: seq<Executed>, e: Executed)
    ensures AfterAnswers(versions, log + [e]) ==
            if e.ok then AfterAnswers(versions, log)[e.key := e.version] else AfterAnswers(versions, log)
  {
    assert (log + [e])[..|log|] == log;
  }

  /** The versions recorded in the status, with the history of how they came about. */
  class VersionBook {
    ghost const base: map<string, nat>
    var versions: map<string, nat>
    ghost var ledger: seq<Event>

    ghost predicate Valid()
      reads this
    {
      Accounts(base, ledger, versions)
    }

    constructor (versions: map<string, nat>)
      ensures Valid() && this.versions == versions == base && ledger == []
    {
      this.base, this.versions, ledger := versions, versions, [];
    }

    method Record(key: string, version: nat)
      requires Valid() && !Holds(versions, key, version)
      modifies this
      ensures Valid() && versions == old(versions)[key := version] && ledger == old(ledger) + [Reported(key, version)]
    {
      OneMore(base, ledger, Reported(key, version));
      versions := versions[key := version];
      ledger := ledger + [Reported(key, version)];
    }

    method Drop(key: string)
      requires Valid()
      modifies this
      ensures Valid() && versions == old(versions) - {key}
      ensures ledger == old(ledger) + [Dropped(key)]
    {
      OneMore(base, ledger, Dropped(key));
      versions := versions - {key};
      ledger := ledger + [Dropped(key)];
    }

    /** Drops every entry whose key is not managed any more. */
    method Retain(managed: set<string>)
      requires Valid()
      modifies this
      ensures Valid() && versions == map k | k in old(versions) && k in managed :: old(versions)[k]
      ensures OnlyDrops(old(ledger), ledger)
    {
      ghost var before := versions;
      var todo := versions.Keys;
      while todo != {}
        invariant Valid() && todo <= before.Keys
        invariant versions == map k | k in before && (k in todo || k in managed) :: before[k]
        invariant OnlyDrops(old(ledger), ledger)
        decreases todo
      {
        var k :| k in todo;
        todo := todo - {k};
        if k !in managed {
          Drop(k);
        }
      }
    }

    /**
     Reports every child whose version is not the recorded one; returns how many reports the
     database accepted. When it accepts all, skipping the known ones makes no difference.
     */
    method UpdateStatusForChildResources(db: Database, templateSet: bool, children: seq<Child>) returns (updated: nat)
      requires Valid()
      modifies this, db
      // Exactly what the database has accepted is recorded and counted.
      ensures Told(db.accepts, old(db.log), db.log, templateSet, old(versions), children)
      ensures var log := Since(old(db.log), db.log);
        && ledger == old(ledger) + AcceptedReports(log) && versions == AfterAnswers(old(versions), log)
        && updated == |AcceptedReports(log)|
      ensures Valid() && ReportsOf(old(ledger), ledger, children) && |ledger| == |old(ledger)| + updated
      ensures versions.Keys <= old(versions).Keys + KeysOf(children)
      ensures templateSet && AllAccepted(Since(old(db.log), db.log)) ==>
                versions == AllVersions(old(versions), children)
    {
      ghost var versions0, ledger0, log0 := versions, ledger, db.log;
      NothingSince(log0);
      if !templateSet {
        ReportsNothing(ledger0, children);
        return 0;
      }
      ReportLogMeans(db.accepts, |log0|, versions0, children, ledger0);
      ghost var log;
      updated, log := ReportEach(db, children);
      SinceIs(log0, log);
    }

    /** The loop over the children. */
    method ReportEach(db: Database, children: seq<Child>) returns (updated: nat, ghost log: seq<Executed>)
      requires Valid()
      modifies this, db
      ensures Valid() && log == ReportLog(db.accepts, |old(db.log)|, old(versions), children)
      ensures db.log == old(db.log) + log && ledger == old(ledger) + AcceptedReports(log)
      ensures versions == AfterAnswers(old(versions), log) && updated == |AcceptedReports(log)|
    {
      updated, log := 0, [];
      ghost var start := State(versions, ledger, db.log);
      TellingStarts(db.accepts, start);
      hide Telling, Accounts;
      for n := 0 to |children|
        invariant Valid() && Telling(db.accepts, start, State(versions, ledger, db.log), children[..n], log, updated)
      {
        var key, version := GetObjectKey(children[n].id), children[n].stored.version;
        ghost var now, log0, updated0 := State(versions, ledger, db.log), log, updated;
        if key in versions && versions[key] == version {
          TellingSkips(db.accepts, start, now, children, n, log, updated);
          continue;
        }
        var ok := db.Exec(key, version);
        log := log + [Executed(key, version, ok)];
        if ok {
          Record(key, version);
          updated := updated + 1;
        }
        TellingGoesOn(db.accepts, start, now, State(versions, ledger, db.log), children, n, log0, updated0, ok);
      }
      assert children[..|children|] == children;
      TellingMeans(db.accepts, start, State(versions, ledger, db.log), children, log, updated);
    }
  }

  /** The recorded versions, their ledger, and what the database has been asked. */
  datatype State = State(versions: map<string, nat>, ledger: seq<Event>, log: seq<Executed>)

  /** These children have had their turn. */
  ghost predicate Telling(accepts: nat -> bool, start: State, now: State, children: seq<Child>, log: seq<Executed>,
                          updated: nat)
  {
    && log == ReportLog(accepts, |start.log|, start.versions, children) && now.log == start.log + log
    && now.ledger == start.ledger + AcceptedReports(log) && now.versions == AfterAnswers(start.versions, log)
    && updated == |AcceptedReports(log)|
  }

  lemma TellingStarts(accepts: nat -> bool, start: State)
    ensures Telling(accepts, start, start, [], [], 0)
  {
  }

  lemma TellingMeans(accepts: nat -> bool, start: State, now: State, children: seq<Child>, log: seq<Executed>,
                     updated: nat)
    requires Telling(accepts, start, now, children, log, updated)
    ensures log == ReportLog(accepts, |start.log|, start.versions, children) && now.log == start.log + log
    ensures now.ledger == start.ledger + AcceptedReports(log) && now.versions == AfterAnswers(start.versions, log)
    ensures updated == |AcceptedReports(log)|
  {
  }

  lemma TellingSkips(accepts: nat -> bool, start: State, now: State, children: seq<Child>, n: nat,
                     log: seq<Executed>, updated: nat)
    requires n < |children| && Telling(accepts, start, now, children[..n], log, updated)
    requires Holds(now.versions, GetObjectKey(children[n].id), children[n].stored.version)
    ensures Telling(accepts, start, now, children[..n + 1], log, updated)
  {
    hide ReportLog, AcceptedReports, AfterAnswers;
    ReportNext(accepts, |start.log|, start.versions, children, n);
  }

  lemma TellingGoesOn(accepts: nat -> bool, start: State, now: State, next: State, children: seq<Child>, n: nat,
                      log: seq<Executed>, updated: nat, ok: bool)
    requires n < |children| && Telling(accepts, start, now, children[..n], log, updated)
    requires var key, version := GetObjectKey(children[n].id), children[n].stored.version;
      && !Holds(now.versions, key, version) && ok == accepts(|now.log|)
      && next.log == now.log + [Executed(key, version, ok)]
      && next.versions == (if ok then now.versions[key := version] else now.versions)
      && next.ledger == if ok then now.ledger + [Reported(key, version)] else now.ledger
    ensures var e := Executed(GetObjectKey(children[n].id), children[n].stored.version, ok);
            Telling(accepts, start, next, children[..n + 1], log + [e], if ok then updated + 1 else updated)
  {
    hide ReportLog, AcceptedReports, AfterAnswers;
    var e := Executed(GetObjectKey(children[n].id), children[n].stored.version, ok);
    ReportNext(accepts, |start.log|, start.versions, children, n);
    RecordedOneMore(start.versions, log, e);
    AcceptedOneMore(log, e);
    OneLonger(start.ledger, start.log, log, e);
  }

  lemma ReportNext(accepts: nat -> bool, from: nat, versions: map<string, nat>, children: seq<Child>, n: nat)
    requires n < |children|
    ensures var front := ReportLog(accepts, from, versions, children[..n]);
            var key, version := GetObjectKey(children[n].id), children[n].stored.version;
            ReportLog(accepts, from, versions, children[..n + 1]) ==
              if Holds(AfterAnswers(versions, front), key, version) then front
              else front + [Executed(key, version, accepts(from + |front|))]
  {
    assert children[..n + 1][..n] == children[..n];
  }

  lemma OneLonger(ledger: seq<Event>, log0: seq<Executed>, log: seq<Executed>, e: Executed)
    ensures log0 + log + [e] == log0 + (log + [e])
    ensures ledger + AcceptedReports(log) + [Reported(e.key, e.version)] ==
            ledger + (AcceptedReports(log) + [Reported(e.key, e.version)])
  {
  }

  lemma NothingSince(log: seq<Executed>)
    ensures Since(log, log) == [] && AcceptedReports([]) == [] && log + [] == log
  {
  }

  lemma SinceIs(log0: seq<Executed>, log: seq<Executed>)
    ensures Since(log0, log0 + log) == log
  {
  }

  lemma ReportsNothing(ledger: seq<Event>, children: seq<Child>)
    ensures ReportsOf(ledger, ledger + [], children) && ledger + [] == ledger
  {
  }

  lemma ReportLogMeans(accepts: nat -> bool, from: nat, versions: map<string, nat>, children: seq<Child>,
                       ledger: seq<Event>)
    ensures var log := ReportLog(accepts, from, versions, children);
      && ReportsOf(ledger, ledger + AcceptedReports(log), children)
      && AfterAnswers(versions, log).Keys <= versions.Keys + KeysOf(children)
      && (AllAccepted(log) ==> AfterAnswers(versions, log) == AllVersions(versions, children))
  {
    hide ReportLog, AcceptedReports, AfterAnswers, AllVersions;
    ReportLogIsOfChildren(accepts, from, versions, children, ledger);
    RecordedKeys(accepts, from, versions, children);
    if AllAccepted(ReportLog(accepts, from, versions, children)) {
      AllReportedAre(accepts, from, versions, children);
    }
  }

  lemma ReportLogIsOfChildren(accepts: nat -> bool, from: nat, versions: map<string, nat>, children: seq<Child>,
                              ledger: seq<Event>)
    ensures ReportsOf(ledger, ledger + AcceptedReports(ReportLog(accepts, from, versions, children)), children)
  {
    hide ReportLog, AcceptedReports, AfterAnswers;
    var log := ReportLog(accepts, from, versions, children);
    forall r | r in AcceptedReports(log)
      ensures exists c :: c in children && r == Reported(GetObjectKey(c.id), c.stored.version)
    {
      AcceptedIsOf(log, r);
      var i :| 0 <= i < |log| && log[i] == Executed(r.key, r.version, true);
      AskedForCause(accepts, from, versions, children, i);
    }
    var after := ledger + AcceptedReports(log);
    assert forall i :: |ledger| <= i < |after| ==> after[i] in AcceptedReports(log);
  }

  lemma RecordedKeys(accepts: nat -> bool, from: nat, versions: map<string, nat>, children: seq<Child>)
    ensures AfterAnswers(versions, ReportLog(accepts, from, versions, children)).Keys <=
            versions.Keys + KeysOf(children)
  {
    hide ReportLog, AfterAnswers;
    var log := ReportLog(accepts, from, versions, children);
    forall key | key in AfterAnswers(versions, log)
      ensures key in versions || key in KeysOf(children)
    {
      HeldForCause(versions, log, key, AfterAnswers(versions, log)[key]);
      if key !in versions {
        var i :| 0 <= i < |log| && log[i].key == key;
        AskedForCause(accepts, from, versions, children, i);
      }
    }
  }

  lemma {:induction false} AllReportedAre(accepts: nat -> bool, from: nat, versions: map<string, nat>,
                                          children: seq<Child>)
    requires AllAccepted(ReportLog(accepts, from, versions, children))
    ensures AfterAnswers(versions, ReportLog(accepts, from, versions, children)) == AllVersions(versions, children)
    decreases |children|, 0
  {
    if children != [] {
      var n := |children| - 1;
      assert children[..n + 1] == children;
      ReportNext(accepts, from, versions, children, n);
      AllVersionsOneMore(versions, children, n);
      hide ReportLog, AfterAnswers, AllVersions;
      LastReportedIs(accepts, from, versions, children, n);
    }
  }

  lemma LastReportedIs(accepts: nat -> bool, from: nat, versions: map<string, nat>, children: seq<Child>, n: nat)
    requires n < |children| && AllAccepted(ReportLog(accepts, from, versions, children[..n + 1]))
    ensures AfterAnswers(versions, ReportLog(accepts, from, versions, children[..n + 1])) ==
            AllVersions(versions, children[..n])[GetObjectKey(children[n].id) := children[n].stored.version]
    decreases n, 1
  {
    hide ReportLog, AfterAnswers, AllVersions;
    ReportNext(accepts, from, versions, children, n);
    var front := ReportLog(accepts, from, versions, children[..n]);
    var key, version := GetObjectKey(children[n].id), children[n].stored.version;
    var e := Executed(key, version, accepts(from + |front|));
    assert forall i :: 0 <= i < |front| ==> (front + [e])[i] == front[i];
    assert (front + [e])[|front|] == e;
    AllReportedAre(accepts, from, versions, children[..n]);
    RecordedOneMore(versions, front, Executed(key, version, true));
    assert Holds(AfterAnswers(versions, front), key, version) ==>
             AfterAnswers(versions, front)[key := version] == AfterAnswers(versions, front);
  }
}
