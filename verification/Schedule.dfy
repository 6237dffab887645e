/** When to poll: the interval rules of the admission webhook, the decision to run a full pass, and the next wake-up. */
module Schedule {
  import opened Text

  /** Instants and durations in nanoseconds. */
  type Time = int
  type Duration = int

  const SECOND: Duration := 1_000_000_000
  const DEFAULT_CHANGE_POLL: Duration := 10 * SECOND
  const CONNECTION_RETRY: Duration := 30 * SECOND

  /** `time.ParseDuration`, whatever it accepts. */
  type Parser = string -> Option<Duration>

  datatype Detection = Detection(enabled: bool, changePollInterval: string)

  /** The template of status updates: a blank one is used as it stands, but the webhook does not parse it. */
  datatype StatusTemplate = NoStatusTemplate | BlankStatusTemplate | StatusTemplate(parses: bool)

  /** The spec, as far as the schedule and the passes depend on it; of the templates only whether they parse. */
  datatype Spec = Spec(
    pollInterval: string, secretName: string, query: string, template: string, templateParses: bool,
    statusTemplate: StatusTemplate, detection: Option<Detection>, prune: bool)
  {
    predicate StatusTemplateSet()
    {
      statusTemplate != NoStatusTemplate
    }
  }

  // ---- admission ----

  datatype DurationCheck = Blank | Unparsable | NotPositive | Positive(d: Duration)

  function ValidateDuration(parse: Parser, value: string): DurationCheck
  {
    if TrimSpace(value) == "" then Blank
    else match parse(value)
      case None => Unparsable
      case Some(d) => if d <= 0 then NotPositive else Positive(d)
  }

  datatype TextCheck = NoText | OnlySpace | BadSyntax | Accepted

  /** A required text that has to parse. */
  function ValidateText(text: string, parses: bool): TextCheck
  {
    if text == "" then NoText
    else if TrimSpace(text) == "" then OnlySpace
    else if parses then Accepted
    else BadSyntax
  }

  /** What is wrong with a required text, and with an interval, told character by character. */
  lemma ValidatedExactly(parse: Parser, text: string, parses: bool)
    ensures ValidateText(text, parses) == NoText <==> text == ""
    ensures ValidateText(text, parses) == OnlySpace <==> text != "" && AllSpace(text)
    ensures ValidateText(text, parses) == Accepted <==> !AllSpace(text) && parses
    ensures ValidateDuration(parse, text) == Blank <==> AllSpace(text)
    ensures forall d :: ValidateDuration(parse, text) == Positive(d) <==>
              !AllSpace(text) && parse(text) == Some(d) && d > 0
  {
    BlankExactly(text);
    hide TrimSpace;
  }

  lemma BlankExactly(text: string)
    ensures TrimSpace(text) == "" <==> AllSpace(text)
  {
    var left, right := TrimSpaceLeavesPadding(text);
    assert TrimSpace(text) != "" ==> text[|left|] == TrimSpace(text)[0];
    hide TrimSpace;
  }

  datatype FieldError =
    | BadPollInterval(check: DurationCheck) | NoSecretName | BadQuery(fault: TextCheck) | BadTemplate(fault: TextCheck)
    | BadStatusTemplate | BadChangeInterval(check: DurationCheck)

  /** What each error says of the spec. */
  predicate Breaks(parse: Parser, spec: Spec, e: FieldError)
  {
    match e
    case BadPollInterval(check) => check == ValidateDuration(parse, spec.pollInterval) && !check.Positive?
    case NoSecretName => TrimSpace(spec.secretName) == ""
    case BadQuery(fault) => fault == ValidateText(spec.query, true) != Accepted
    case BadTemplate(fault) => fault == ValidateText(spec.template, spec.templateParses) != Accepted
    case BadStatusTemplate => spec.statusTemplate == StatusTemplate(false)
    case BadChangeInterval(check) =>
      && spec.detection.Some? && !check.Positive?
      && check == ValidateDuration(parse, spec.detection.value.changePollInterval)
  }

  /** The errors so far, with one more if its rule is broken. */
  function With(errors: seq<FieldError>, parse: Parser, spec: Spec, e: FieldError): seq<FieldError>
  {
    if Breaks(parse, spec, e) then errors + [e] else errors
  }

  /** One error for each broken rule, in the order of the rules; those about the change interval come last. */
  function BrokenFields(parse: Parser, spec: Spec): seq<FieldError>
  {
    var e0 := With([], parse, spec, BadPollInterval(ValidateDuration(parse, spec.pollInterval)));
    var e1 := With(e0, parse, spec, NoSecretName);
    var e2 := With(e1, parse, spec, BadQuery(ValidateText(spec.query, true)));
    var e3 := With(e2, parse, spec, BadTemplate(ValidateText(spec.template, spec.templateParses)));
    With(e3, parse, spec, BadStatusTemplate)
  }

  function BrokenRules(parse: Parser, spec: Spec): seq<FieldError>
  {
    var errors := BrokenFields(parse, spec);
    if spec.detection == None then errors
    else With(errors, parse, spec, BadChangeInterval(ValidateDuration(parse, spec.detection.value.changePollInterval)))
  }

  lemma FieldsReported(parse: Parser, spec: Spec)
    ensures forall e :: e in BrokenFields(parse, spec) <==> !e.BadChangeInterval? && Breaks(parse, spec, e)
  {
    hide TrimSpace, ValidateDuration, ValidateText;
  }

  lemma NothingBroken(parse: Parser, spec: Spec)
    ensures BrokenRules(parse, spec) == [] <==> Admitted(parse, spec)
  {
    hide TrimSpace, ValidateDuration, ValidateText;
  }

  /**
   The webhook does not tell a blank template of status updates from none, although the operator sends what
   a blank one renders and nothing without one.
   */
  lemma BlankTemplateIsAdmitted(parse: Parser, spec: Spec)
    ensures var blank, none := spec.(statusTemplate := BlankStatusTemplate), spec.(statusTemplate := NoStatusTemplate);
      && (Admitted(parse, blank) <==> Admitted(parse, none))
      && blank.StatusTemplateSet() && !none.StatusTemplateSet()
  {
  }

  /** Every broken rule is reported, and nothing else; a spec is admitted exactly when there is none. */
  lemma ReportedExactly(parse: Parser, spec: Spec)
    ensures forall e :: e in BrokenRules(parse, spec) <==> Breaks(parse, spec, e)
    ensures BrokenRules(parse, spec) == [] <==> Admitted(parse, spec)
  {
    FieldsReported(parse, spec);
    NothingBroken(parse, spec);
    hide TrimSpace, ValidateDuration, ValidateText, BrokenFields, Admitted;
  }

  method ValidateFields(parse: Parser, spec: Spec) returns (errors: seq<FieldError>)
    ensures errors == BrokenFields(parse, spec)
  {
    hide TrimSpace;
    errors := [];
    var poll := ValidateDuration(parse, spec.pollInterval);
    if !poll.Positive? {
      errors := errors + [BadPollInterval(poll)];
    }
    if TrimSpace(spec.secretName) == "" {
      errors := errors + [NoSecretName];
    }
    var query := ValidateText(spec.query, true);
    if query != Accepted {
      errors := errors + [BadQuery(query)];
    }
    var template := ValidateText(spec.template, spec.templateParses);
    if template != Accepted {
      errors := errors + [BadTemplate(template)];
    }
    if spec.statusTemplate.StatusTemplate? && !spec.statusTemplate.parses {
      errors := errors + [BadStatusTemplate];
    }
  }

  lemma CannotHelp(parse: Parser, spec: Spec)
    requires spec.detection.Some?
    ensures var poll := ValidateDuration(parse, spec.pollInterval);
            var change := ValidateDuration(parse, spec.detection.value.changePollInterval);
            poll.Positive? && change.Positive? && change.d >= poll.d <==>
            && IntervalsAdmitted(parse, spec)
            && DetectionInterval(parse, spec.detection.value) >= PollInterval(parse, spec)
  {
    assert TrimSpace("") == "";
  }

  /** Reports exactly what is wrong with a spec, and warns of a change interval that cannot help. */
  method ValidateSpec(parse: Parser, spec: Spec) returns (errors: seq<FieldError>, warned: bool)
    ensures errors == BrokenRules(parse, spec)
    ensures warned <==>
              && DetectionEnabled(spec) && IntervalsAdmitted(parse, spec)
              && DetectionInterval(parse, spec.detection.value) >= PollInterval(parse, spec)
  {
    if spec.detection.Some? { CannotHelp(parse, spec); }
    hide BrokenFields, IntervalsAdmitted, ValidateDuration, ValidateText, TrimSpace, DetectionInterval, PollInterval;
    warned := false;
    var poll := ValidateDuration(parse, spec.pollInterval);
    errors := ValidateFields(parse, spec);
    if spec.detection.Some? {
      var change := ValidateDuration(parse, spec.detection.value.changePollInterval);
      if !change.Positive? {
        errors := errors + [BadChangeInterval(change)];
      } else if spec.detection.value.enabled && poll.Positive? && change.d >= poll.d {
        warned := true;
      }
    }
  }

  predicate IntervalsAdmitted(parse: Parser, spec: Spec)
  {
    && ValidateDuration(parse, spec.pollInterval).Positive?
    && (spec.detection.Some? ==> ValidateDuration(parse, spec.detection.value.changePollInterval).Positive?)
  }

  /** What the webhook lets through. */
  predicate Admitted(parse: Parser, spec: Spec)
  {
    && IntervalsAdmitted(parse, spec) && TrimSpace(spec.secretName) != ""
    && ValidateText(spec.query, true) == ValidateText(spec.template, spec.templateParses) == Accepted
    && spec.statusTemplate != StatusTemplate(false)
  }

  predicate DetectionEnabled(spec: Spec)
  {
    spec.detection.Some? && spec.detection.value.enabled
  }

  function PollInterval(parse: Parser, spec: Spec): Duration
    requires parse(spec.pollInterval).Some?
  {
    parse(spec.pollInterval).value
  }

  // ---- the two copies of the change interval ----

  /** The requeue side's copy; 0 when change detection is off. */
  function ChangePollIntervalFor(parse: Parser, spec: Spec): Duration
  {
    if !DetectionEnabled(spec) then 0
    else if spec.detection.value.changePollInterval != "" then
      match parse(spec.detection.value.changePollInterval)
      case Some(parsed) => parsed
      case None => DEFAULT_CHANGE_POLL
    else DEFAULT_CHANGE_POLL
  }

  /** The decision side's copy. */
  function DetectionInterval(parse: Parser, detection: Detection): Duration
  {
    var parsed :=
      if detection.changePollInterval == "" then Some(DEFAULT_CHANGE_POLL) else parse(detection.changePollInterval);
    match parsed
    case None => DEFAULT_CHANGE_POLL
    case Some(d) => d
  }

  function NextRequeueInterval(parse: Parser, spec: Spec, pollInterval: Duration): Duration
  {
    var change := ChangePollIntervalFor(parse, spec);
    if 0 < change < pollInterval then change else pollInterval
  }

  function Min(a: int, b: int): int { if a < b then a else b }
  function Max(a: int, b: int): int { if a < b then b else a }

  /** The copies agree, so an admitted spec is requeued at the shorter of the intervals the decision goes by. */
  lemma CopiesAgree(parse: Parser, spec: Spec)
    requires Admitted(parse, spec)
    ensures var p := PollInterval(parse, spec);
      && p > 0
      && NextRequeueInterval(parse, spec, p) ==
         (if DetectionEnabled(spec) then Min(p, DetectionInterval(parse, spec.detection.value)) else p)
      && (DetectionEnabled(spec) ==> DetectionInterval(parse, spec.detection.value) > 0)
  {
    assert TrimSpace("") == "";
  }

  /** They agree for every spec, admitted or not; a missing or unparsable interval counts as ten seconds in both. */
  lemma CopiesAgreeAlways(parse: Parser, spec: Spec)
    requires DetectionEnabled(spec)
    ensures var text := spec.detection.value.changePollInterval;
            var c := ChangePollIntervalFor(parse, spec);
      && c == DetectionInterval(parse, spec.detection.value)
      && (text == "" || parse(text) == None ==> c == 10 * SECOND)
      && (text != "" && parse(text).Some? ==> c == parse(text).value)
  {
  }

  // ---- the decision ----

  /** The parts of the status the schedule goes by. */
  datatype Stamps = Stamps(observed: nat, lastPoll: Option<Time>, lastCheck: Option<Time>, lastReconcile: Option<Time>)

  /** A query for rows stamped after a given time: the stamps it can see, or a failure on the way there. */
  datatype Visible = DetectionFails | Rows(stamps: seq<Time>)

  /** The earliest stamp counted as a change, for a first check. */
  const EPOCH: Time := 0

  method DetectChanges(lastCheck: Option<Time>, visible: Visible) returns (changes: Option<bool>)
    ensures changes == DetectionResult(lastCheck, visible)
  {
    if visible.DetectionFails? {
      return None;
    }
    var lastCheckTime := if lastCheck.Some? then lastCheck.value else EPOCH;
    var rows := 0;
    var i := 0;
    while i < |visible.stamps|
      invariant 0 <= i <= |visible.stamps|
      invariant rows > 0 <==> exists k :: 0 <= k < i && visible.stamps[k] > lastCheckTime
      invariant rows >= 0
    {
      if visible.stamps[i] > lastCheckTime {
        rows := rows + 1;
      }
      i := i + 1;
    }
    changes := Some(rows > 0);
  }

  /** None when detection failed, otherwise whether a visible row is stamped later than the last check. */
  function DetectionResult(lastCheck: Option<Time>, visible: Visible): Option<bool>
  {
    match visible
    case DetectionFails => None
    case Rows(stamps) =>
      Some(exists k :: 0 <= k < |stamps| && stamps[k] > (if lastCheck.Some? then lastCheck.value else EPOCH))
  }

  /** The first check takes every row stamped after the beginning of 1970 for a change. */
  lemma FirstCheckSeesAll(stamps: seq<Time>)
    ensures DetectionResult(None, Rows(stamps)) == Some(exists k :: 0 <= k < |stamps| && stamps[k] > 0)
  {
  }

  /** Skip until the given delay, or run; `checked` tells that a detection query succeeded on the way. */
  datatype Decision = Decision(full: bool, delay: Duration, checked: bool)

  function Decide(parse: Parser, spec: Spec, generation: nat, s: Stamps, now: Time, visible: Visible): Decision
    requires parse(spec.pollInterval).Some?
  {
    var p := PollInterval(parse, spec);
    if s.observed < generation then Decision(true, p, false)
    else if !DetectionEnabled(spec) then Decision(true, p, false)
    else
      var c := DetectionInterval(parse, spec.detection.value);
      if s.lastPoll == None || now - s.lastPoll.value >= p then Decision(true, p, false)
      else if s.lastCheck.Some? && now - s.lastCheck.value < c
      then Decision(false, c - (now - s.lastCheck.value), false)
      else match DetectionResult(s.lastCheck, visible)
        case None => Decision(true, p, false)
        case Some(changes) => if changes then Decision(true, p, true) else Decision(false, c, true)
  }

  /** A check is due when change detection is on and nothing forces a pass before it. */
  predicate CheckDue(parse: Parser, spec: Spec, generation: nat, s: Stamps, now: Time)
    requires parse(spec.pollInterval).Some?
  {
    && generation <= s.observed && DetectionEnabled(spec)
    && s.lastPoll.Some? && now - s.lastPoll.value < PollInterval(parse, spec)
    && (s.lastCheck.Some? ==> now - s.lastCheck.value >= DetectionInterval(parse, spec.detection.value))
  }

  lemma DueCheckDecides(parse: Parser, spec: Spec, generation: nat, s: Stamps, now: Time, visible: Visible)
    requires parse(spec.pollInterval).Some? && CheckDue(parse, spec, generation, s, now)
    ensures Decide(parse, spec, generation, s, now, visible).full <==>
            visible.DetectionFails? ||
            exists k ::
              0 <= k < |visible.stamps| && visible.stamps[k] > (if s.lastCheck.Some? then s.lastCheck.value else EPOCH)
  {
  }

  /** A check is recorded exactly when it is due and its query succeeds, whatever it finds. */
  lemma RecordedExactly(parse: Parser, spec: Spec, generation: nat, s: Stamps, now: Time, visible: Visible)
    requires parse(spec.pollInterval).Some?
    ensures Decide(parse, spec, generation, s, now, visible).checked <==>
            CheckDue(parse, spec, generation, s, now) && visible.Rows?
  {
  }

  /** A pass is skipped exactly when nothing forces it. */
  lemma SkippedExactly(parse: Parser, spec: Spec, generation: nat, s: Stamps, now: Time, visible: Visible)
    requires parse(spec.pollInterval).Some?
    ensures !Decide(parse, spec, generation, s, now, visible).full <==>
      && generation <= s.observed && DetectionEnabled(spec)
      && s.lastPoll.Some? && now - s.lastPoll.value < PollInterval(parse, spec)
      && (CheckDue(parse, spec, generation, s, now) ==> DetectionResult(s.lastCheck, visible) == Some(false))
  {
  }

  /** The delay of a skip is positive and at most the change interval, given a positive one. */
  lemma SkipDelay(parse: Parser, spec: Spec, generation: nat, s: Stamps, now: Time, visible: Visible)
    requires Admitted(parse, spec) && !Decide(parse, spec, generation, s, now, visible).full
    requires s.lastCheck.Some? ==> s.lastCheck.value <= now
    ensures 0 < Decide(parse, spec, generation, s, now, visible).delay <= DetectionInterval(parse, spec.detection.value)
  {
    CopiesAgree(parse, spec);
  }
}
