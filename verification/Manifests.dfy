/**
 Desired and live objects: overlaying one on the other, recording what was applied, and telling
 whether to apply again.
 */
module Manifests {
  import opened Text
  import opened Json

  const LAST_APPLIED := "konnektr.io/last-applied-configuration"

  /** An annotation value: plain text, or the JSON text of a recorded configuration. */
  datatype Note = Plain(text: string) | Recorded(config: Config)

  datatype Config = Config(spec: Json, data: Json, labels: map<string, string>, annotations: map<string, Note>)

  /** An object; `rest` holds every top-level field the operator does not manage. A missing field is Null. */
  datatype Manifest = Manifest(
    spec: Json, data: Json, labels: map<string, string>, annotations: map<string, Note>, rest: map<string, Json>)

  function ConfigOf(m: Manifest): Config
  {
    Config(m.spec, m.data, m.labels, m.annotations - {LAST_APPLIED})
  }

  function WithRecord(m: Manifest): Manifest
  {
    m.(annotations := m.annotations[LAST_APPLIED := Recorded(ConfigOf(m))])
  }

  function MergedAnnotations(existing: map<string, Note>, desired: map<string, Note>): map<string, Note>
  {
    map k | k in existing.Keys + desired.Keys && (k in desired ==> desired[k] != Plain("")) ::
      if k in desired then desired[k] else existing[k]
  }

  function Overlaid(existing: Manifest, desired: Manifest): Manifest
  {
    Manifest(desired.spec, desired.data, desired.labels,
             MergedAnnotations(existing.annotations, desired.annotations), existing.rest)
  }

  /** The object an update writes. */
  function Updated(existing: Manifest, desired: Manifest): Manifest
  {
    WithRecord(Overlaid(existing, desired))
  }

  datatype LastApplied = NothingApplied | Unreadable | Applied(config: Config)

  /** Decoding a recorded configuration turns its numbers into float64. */
  function Decoded(c: Config): Config
  {
    c.(spec := Canon(c.spec), data := Canon(c.data))
  }

  function GetLastApplied(m: Manifest): LastApplied
  {
    if LAST_APPLIED !in m.annotations then NothingApplied
    else match m.annotations[LAST_APPLIED]
      case Plain(_) => Unreadable
      case Recorded(c) => Applied(Decoded(c))
  }

  predicate ConfigsEqual(lastApplied: Config, current: Config)
  {
    Decoded(lastApplied) == Decoded(current)
  }

  datatype Verdict = CheckFailed | UpdateNeeded | UpToDate

  function ShouldUpdate(existing: Option<Manifest>, desired: Manifest): Verdict
  {
    match existing
    case None => UpdateNeeded
    case Some(m) =>
      match GetLastApplied(m)
      case NothingApplied => UpdateNeeded
      case Unreadable => CheckFailed
      case Applied(c) => if ConfigsEqual(c, ConfigOf(desired)) then UpToDate else UpdateNeeded
  }

  /** Equal configurations, told without any normal form. */
  predicate SameConfig(a: Config, b: Config)
  {
    SameContent(a.spec, b.spec) && SameContent(a.data, b.data) && a.labels == b.labels && a.annotations == b.annotations
  }

  /**
   An object is left alone if and only if its record has the same content as the desired configuration,
   numbers as float64.
   */
  lemma UpToDateExactly(live: Manifest, desired: Manifest)
    ensures ShouldUpdate(Some(live), desired) == UpToDate <==>
            LAST_APPLIED in live.annotations && live.annotations[LAST_APPLIED].Recorded? &&
            SameConfig(live.annotations[LAST_APPLIED].config, ConfigOf(desired))
  {
    if LAST_APPLIED in live.annotations && live.annotations[LAST_APPLIED].Recorded? {
      var c, d := live.annotations[LAST_APPLIED].config, ConfigOf(desired);
      CanonIsIdempotent(c.spec);
      CanonIsIdempotent(c.data);
      CanonDecidesContent(c.spec, d.spec);
      CanonDecidesContent(c.data, d.data);
    }
  }

  /** The record annotation holds text that is no configuration. */
  predicate UnreadableRecord(m: Manifest)
  {
    LAST_APPLIED in m.annotations && m.annotations[LAST_APPLIED].Plain?
  }

  /** The check itself fails on an unreadable record and on nothing else; an absent object has to be written. */
  lemma CheckFailsExactly(live: Option<Manifest>, desired: Manifest)
    ensures ShouldUpdate(live, desired) == CheckFailed <==> live.Some? && UnreadableRecord(live.value)
    ensures live == None || LAST_APPLIED !in live.value.annotations ==> ShouldUpdate(live, desired) == UpdateNeeded
  {
  }

  /** The verdict reads nothing of the live object but its record: other changes to it go unnoticed. */
  lemma DriftIsInvisible(a: Manifest, b: Manifest, desired: Manifest)
    requires LAST_APPLIED in a.annotations <==> LAST_APPLIED in b.annotations
    requires LAST_APPLIED in a.annotations ==> a.annotations[LAST_APPLIED] == b.annotations[LAST_APPLIED]
    ensures ShouldUpdate(Some(a), desired) == ShouldUpdate(Some(b), desired)
  {
  }

  /** Overlaying twice is overlaying once: the retry may repeat what its caller did. */
  lemma OverlayIsIdempotent(existing: Manifest, desired: Manifest)
    ensures Overlaid(Overlaid(existing, desired), desired) == Overlaid(existing, desired)
  {
  }

  /** An update sets the managed content and keeps every other annotation and field. */
  lemma UpdateKeepsTheRest(existing: Manifest, desired: Manifest)
    ensures var u := Updated(existing, desired);
      && u.spec == desired.spec && u.data == desired.data && u.labels == desired.labels && u.rest == existing.rest
      && (forall k :: k != LAST_APPLIED && k !in desired.annotations ==>
            (k in u.annotations <==> k in existing.annotations) &&
            (k in u.annotations ==> u.annotations[k] == existing.annotations[k]))
      && (forall k :: k != LAST_APPLIED && k in desired.annotations ==>
            (k in u.annotations <==> desired.annotations[k] != Plain("")) &&
            (k in u.annotations ==> u.annotations[k] == desired.annotations[k]))
  {
  }

  /** A freshly created object is up to date, whatever numbers it holds. */
  lemma ConvergesAfterCreate(desired: Manifest)
    ensures ShouldUpdate(Some(WithRecord(desired)), desired) == UpToDate
  {
    CanonIsIdempotent(desired.spec);
    CanonIsIdempotent(desired.data);
  }

  /** No annotation beside the desired ones, and no desired one empty; the record itself aside. */
  predicate Settled(existing: Manifest, desired: Manifest)
  {
    && (forall k :: k in existing.annotations ==> k == LAST_APPLIED || k in desired.annotations)
    && (forall k :: k in desired.annotations ==> k == LAST_APPLIED || desired.annotations[k] != Plain(""))
  }

  lemma MergedIsWantedExactly(existing: Manifest, desired: Manifest)
    ensures ConfigOf(Overlaid(existing, desired)).annotations == ConfigOf(desired).annotations <==>
            Settled(existing, desired)
  {
    var merged, wanted := ConfigOf(Overlaid(existing, desired)).annotations, ConfigOf(desired).annotations;
    if Settled(existing, desired) {
      assert merged == wanted;
    } else if k :| k in existing.annotations && k != LAST_APPLIED && k !in desired.annotations {
      assert k in merged && k !in wanted;
    } else {
      var k :| k in desired.annotations && k != LAST_APPLIED && desired.annotations[k] == Plain("");
      assert k in wanted && k !in merged;
    }
  }

  /**
   An updated object is up to date if and only if the object it replaced was settled; otherwise it is
   updated again.
   */
  lemma ConvergesAfterUpdateExactly(existing: Manifest, desired: Manifest)
    ensures ShouldUpdate(Some(Updated(existing, desired)), desired) ==
            if Settled(existing, desired) then UpToDate else UpdateNeeded
  {
    CanonIsIdempotent(desired.spec);
    CanonIsIdempotent(desired.data);
    MergedIsWantedExactly(existing, desired);
  }

  /** An object that is not settled never settles by being updated: it is written again on every pass. */
  lemma NeverSettlesByUpdating(existing: Manifest, desired: Manifest)
    ensures Settled(Updated(existing, desired), desired) <==> Settled(existing, desired)
  {
    var u := Updated(existing, desired);
    if !Settled(existing, desired) {
      if k :| k in existing.annotations && k != LAST_APPLIED && k !in desired.annotations {
        assert k in u.annotations;
      }
    }
  }

  function UpdatedTimes(existing: Manifest, desired: Manifest, n: nat): Manifest
  {
    if n == 0 then existing else Updated(UpdatedTimes(existing, desired, n - 1), desired)
  }

  lemma {:induction false} UpdatedForever(existing: Manifest, desired: Manifest, n: nat)
    requires !Settled(existing, desired) && n > 0
    ensures !Settled(UpdatedTimes(existing, desired, n), desired)
    ensures ShouldUpdate(Some(UpdatedTimes(existing, desired, n)), desired) == UpdateNeeded
  {
    if n > 1 {
      UpdatedForever(existing, desired, n - 1);
    }
    NeverSettlesByUpdating(UpdatedTimes(existing, desired, n - 1), desired);
    ConvergesAfterUpdateExactly(UpdatedTimes(existing, desired, n - 1), desired);
  }

  /** An object held in memory, with the resource version it was read at. */
  class LiveObject {
    var spec: Json
    var data: Json
    var labels: map<string, string>
    var annotations: map<string, Note>
    var rest: map<string, Json>
    var version: nat

    function Value(): Manifest
      reads this
    {
      Manifest(spec, data, labels, annotations, rest)
    }

    constructor (m: Manifest, version: nat)
      ensures Value() == m && this.version == version
    {
      spec, data, labels, annotations, rest := m.spec, m.data, m.labels, m.annotations, m.rest;
      this.version := version;
    }

    method ApplyDesiredState(desired: Manifest)
      modifies this
      ensures Value() == Overlaid(old(Value()), desired) && version == old(version)
    {
      spec := desired.spec;
      data := desired.data;
      labels := desired.labels;
      ghost var before := annotations;
      var todo := desired.annotations.Keys;
      while todo != {}
        invariant todo <= desired.annotations.Keys
        invariant spec == desired.spec && data == desired.data && labels == desired.labels
        invariant rest == old(rest) && version == old(version)
        invariant forall k :: k in annotations <==>
                    if k in desired.annotations && k !in todo then desired.annotations[k] != Plain("") else k in before
        invariant forall k :: k in annotations ==>
                    annotations[k] == if k in desired.annotations && k !in todo then desired.annotations[k]
                                     else before[k]
        decreases todo
      {
        var k :| k in todo;
        todo := todo - {k};
        if desired.annotations[k] == Plain("") {
          annotations := annotations - {k};
        } else {
          annotations := annotations[k := desired.annotations[k]];
        }
      }
      assert annotations == MergedAnnotations(before, desired.annotations);
    }

    method SetLastAppliedConfig()
      modifies this
      ensures Value() == WithRecord(old(Value())) && version == old(version)
    {
      var configAnnotations: map<string, Note> := map[];
      var todo := annotations.Keys;
      while todo != {}
        invariant todo <= annotations.Keys
        invariant configAnnotations == map k | k in annotations && k !in todo && k != LAST_APPLIED :: annotations[k]
        decreases todo
      {
        var k :| k in todo;
        todo := todo - {k};
        if k != LAST_APPLIED {
          configAnnotations := configAnnotations[k := annotations[k]];
        }
      }
      var config := Config(spec, data, labels, configAnnotations);
      assert configAnnotations == annotations - {LAST_APPLIED};
      annotations := annotations[LAST_APPLIED := Recorded(config)];
    }
  }
}
