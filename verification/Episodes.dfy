/** The Episode record: transitions, the event timeline, replay identity and the one-time
    Oracle acceptance record (src/avp_ref/runtime/episode.py, src/avp_ref/events.py,
    src/avp_ref/runtime/lifecycle.py and OracleEvaluationRecord in
    src/avp_ref/oracle_runner/models.py). */
module Episodes {
  import opened Common
  import opened Lifecycle

  datatype Validity =
    | VALID | INVALID_TASK | INVALID_INITIAL_STATE | ENVIRONMENT_FAILURE | RESET_FAILURE | ORACLE_FAILURE
    | TRACE_INCOMPLETE | INFRA_CONFOUND | CONTAMINATED | UNKNOWN

  datatype DetailCode =
    ORACLE_TIMEOUT | ORACLE_CRASH | ORACLE_PROTOCOL_ERROR | ORACLE_SECURITY_VIOLATION | ORACLE_RUNNER_ERROR

  datatype TaskVerdict = PASS | FAIL | INCONCLUSIVE

  datatype OracleResult = OracleResult(claimId: Text, fails: bool, critical: bool, evidenceIds: seq<Text>, validity: Validity)

  datatype Record = Record(sequence: nat, previous: State, resulting: State, cause: Option<Text>)

  datatype EventBody =
    | Transition(record: Record)
    | VerificationStarted(oracleId: Text, oracleVersion: Text, packageDigest: int)
    | ExecutionStarted(inputDigest: int)
    | ExecutionEnded(completed: bool, artifactDigest: int)
    | Note(tag: Text)

  datatype Event = Event(sequence: nat, body: EventBody)

  datatype Evaluation = Evaluation(
    oracleId: Text, oracleVersion: Text, packageDigest: int, inputDigest: int, executionDigest: Option<int>,
    validity: Validity, verdict: TaskVerdict, accepted: seq<OracleResult>, evidenceIds: set<Text>, detail: Option<DetailCode>)

  datatype Episode = Episode(
    id: Text, state: State, validity: Validity, detail: Option<DetailCode>, verdict: TaskVerdict,
    events: seq<Event>, evidence: set<Text>, verification: seq<OracleResult>,
    evaluation: Option<Evaluation>, records: seq<Record>, replaySource: Option<Text>)

  datatype EpisodeError = IllegalTransition | BadCause | BadEpisodeId | ResultNotValid | BadEvidenceId | DetailMissing
    | ReplayTooLate | ReplayTwice | ReplaySelf

  function NewEpisode(id: Text): Episode {
    Episode(id, CREATED, VALID, None, INCONCLUSIVE, [], {}, [], None, [], None)
  }

  /** `EventRecorder.emit`. */
  function Emit(e: Episode, body: EventBody): Episode {
    e.(events := e.events + [Event(|e.events| + 1, body)])
  }

  // The acceptance record.

  function FirstStart(events: seq<Event>): Option<EventBody> {
    if |events| == 0 then None
    else if events[0].body.VerificationStarted? then Some(events[0].body)
    else FirstStart(events[1..])
  }

  function FirstRequest(events: seq<Event>): Option<int> {
    if |events| == 0 then None
    else if events[0].body.ExecutionStarted? then Some(events[0].body.inputDigest)
    else FirstRequest(events[1..])
  }

  function LastExecution(events: seq<Event>): Option<int> {
    if |events| == 0 then None
    else if events[|events| - 1].body.ExecutionEnded? then Some(events[|events| - 1].body.artifactDigest)
    else LastExecution(events[..|events| - 1])
  }

  function VerdictOf(results: seq<OracleResult>): TaskVerdict {
    if exists r :: r in results && r.fails && r.critical then FAIL else PASS
  }

  function EvidenceIds(results: seq<OracleResult>): set<Text> {
    set r, id | r in results && id in r.evidenceIds :: id
  }

  predicate GoodId(id: Text) {
    1 <= |id| <= 256
  }

  /** The checks of `OracleEvaluationRecord`. */
  function CheckEvaluation(v: Evaluation): Option<EpisodeError> {
    if exists id :: id in v.evidenceIds && !GoodId(id) then Some(BadEvidenceId)
    else if exists r :: r in v.accepted && r.validity != VALID then Some(ResultNotValid)
    else if v.validity == ORACLE_FAILURE && v.detail.None? then Some(DetailMissing)
    else None
  }

  /** The record a freeze would make, if the chain of events suffices for one. */
  function Proposed(e: Episode, target: State): Option<Evaluation> {
    var start, request, execution := FirstStart(e.events), FirstRequest(e.events), LastExecution(e.events);
    if e.evaluation.Some? || start.None? || request.None? then None
    else if !start.value.VerificationStarted? || |start.value.oracleId| == 0 || |start.value.oracleVersion| == 0 then None
    else if e.validity != ORACLE_FAILURE && (execution.None? || (target == INVALID && e.verification == [])) then None
    else if e.validity == ORACLE_FAILURE then
      Some(Evaluation(start.value.oracleId, start.value.oracleVersion, start.value.packageDigest, request.value, execution,
                      ORACLE_FAILURE, INCONCLUSIVE, [], {}, e.detail))
    else
      Some(Evaluation(start.value.oracleId, start.value.oracleVersion, start.value.packageDigest, request.value, execution,
                      VALID, VerdictOf(e.verification), e.verification, EvidenceIds(e.verification), None))
  }

  /** `_freeze_oracle_evaluation`. */
  function Freeze(e: Episode, target: State): (Episode, Option<EpisodeError>) {
    match Proposed(e, target)
    case None => (e, None)
    case Some(v) =>
      match CheckEvaluation(v)
      case Some(error) => (e, Some(error))
      case None => (e.(evaluation := Some(v)), None)
  }

  // Operations.

  /** `^[A-Za-z0-9][A-Za-z0-9._:-]*$` with at most 128 characters. */
  predicate GoodCause(cause: Text) {
    && 1 <= |cause| <= 128 && Alphanumeric(cause[0])
    && forall i :: 0 <= i < |cause| ==> Alphanumeric(cause[i]) || cause[i] in {46, 95, 58, 45}
  }

  predicate Alphanumeric(c: CodePoint) {
    48 <= c <= 57 || 65 <= c <= 90 || 97 <= c <= 122
  }

  /** `transition`: the relation, then the freeze, then the record, then the event. */
  function StepTransition(e: Episode, target: State, cause: Option<Text>): (Episode, Option<EpisodeError>) {
    if cause.Some? && !GoodCause(cause.value) then (e, Some(BadCause))
    else if !Legal(e.state, target) then (e, Some(IllegalTransition))
    else
      var (frozen, error) := if target in {COMPLETED, INVALID} then Freeze(e, target) else (e, None);
      if error.Some? then (e, error)
      else if !GoodId(e.id) then (frozen, Some(BadEpisodeId))
      else
        var record := Record(|e.records| + 1, e.state, target, cause);
        (Emit(frozen.(state := target, records := e.records + [record]), Transition(record)), None)
  }

  function StepBind(e: Episode, source: Text): (Episode, Option<EpisodeError>) {
    if e.state != CREATED || e.records != [] then (e, Some(ReplayTooLate))
    else if e.replaySource.Some? then (e, Some(ReplayTwice))
    else if source == e.id then (e, Some(ReplaySelf))
    else (e.(replaySource := Some(source)), None)
  }

  /** Everything the runtime does to an Episode: transitions, events, replay binding, and plain
      assignments to its public result fields. */
  datatype Op =
    | Go(target: State, cause: Option<Text>)
    | Say(body: EventBody)
    | Bind(source: Text)
    | Assign(validity: Validity, detail: Option<DetailCode>, verdict: TaskVerdict, evidence: set<Text>,
             verification: seq<OracleResult>)

  predicate Admissible(op: Op) {
    op.Say? ==> !op.body.Transition?
  }

  function Step(e: Episode, op: Op): (Episode, Option<EpisodeError>) {
    match op
    case Go(target, cause) => StepTransition(e, target, cause)
    case Say(body) => (Emit(e, body), None)
    case Bind(source) => StepBind(e, source)
    case Assign(validity, detail, verdict, evidence, verification) =>
      (e.(validity := validity, detail := detail, verdict := verdict, evidence := evidence, verification := verification), None)
  }

  function Run(e: Episode, ops: seq<Op>): Episode
    decreases |ops|
  {
    if |ops| == 0 then e else Run(Step(e, ops[0]).0, ops[1..])
  }

  // Histories.

  /** The records are numbered from one and form a legal path from CREATED to `s`. */
  ghost predicate LegalPath(records: seq<Record>, s: State) {
    if |records| == 0 then s == CREATED
    else
      var last := records[|records| - 1];
      && last.sequence == |records| && last.resulting == s && Legal(last.previous, s)
      && LegalPath(records[..|records| - 1], last.previous)
  }

  /** The transition records on the event timeline, in order. */
  function Timeline(events: seq<Event>): seq<Record> {
    if |events| == 0 then []
    else
      var last := events[|events| - 1];
      Timeline(events[..|events| - 1]) + (if last.body.Transition? then [last.body.record] else [])
  }

  ghost predicate Positioned(events: seq<Event>) {
    forall i :: 0 <= i < |events| ==> events[i].sequence == i + 1
  }

  ghost predicate History(e: Episode) {
    && LegalPath(e.records, e.state) && Positioned(e.events) && Timeline(e.events) == e.records
    && (e.records != [] ==> GoodId(e.id))
  }

  lemma {:induction false} EmitKeepsHistory(e: Episode, body: EventBody)
    requires Positioned(e.events)
    ensures Positioned(Emit(e, body).events)
    ensures Timeline(Emit(e, body).events) == Timeline(e.events) + (if body.Transition? then [body.record] else [])
  {
    assert Emit(e, body).events[..|e.events|] == e.events;
  }

  lemma {:induction false} AdvanceKeepsHistory(e: Episode, target: State, cause: Option<Text>)
    requires History(e) && Legal(e.state, target) && GoodId(e.id)
    ensures var record := Record(|e.records| + 1, e.state, target, cause);
      History(Emit(e.(state := target, records := e.records + [record]), Transition(record)))
  {
    var record := Record(|e.records| + 1, e.state, target, cause);
    EmitKeepsHistory(e, Transition(record));
    assert (e.records + [record])[..|e.records|] == e.records;
  }

  lemma {:induction false} TransitionShape(e: Episode, target: State, cause: Option<Text>)
    requires History(e)
    ensures var (n, error) := StepTransition(e, target, cause);
      if error.Some? then n == e
      else
        && Legal(e.state, target) && GoodId(e.id)
        && n == Emit(e.(state := target, evaluation := n.evaluation,
                        records := e.records + [Record(|e.records| + 1, e.state, target, cause)]),
                     Transition(Record(|e.records| + 1, e.state, target, cause)))
  {
  }

  lemma {:induction false} StepKeepsHistory(e: Episode, op: Op)
    requires History(e) && Admissible(op)
    ensures History(Step(e, op).0)
  {
    match op {
      case Say(body) => EmitKeepsHistory(e, body);
      case Go(target, cause) =>
        var n := Step(e, op).0;
        TransitionShape(e, target, cause);
        if Step(e, op).1.None? {
          AdvanceKeepsHistory(e.(evaluation := n.evaluation), target, cause);
        }
      case _ =>
    }
  }

  /** On every run: the transition records are a legal path from CREATED to the current state,
      numbered 1..n; every event's sequence number is its position; and the timeline shows
      exactly the records, in order. */
  lemma {:induction false} RunKeepsHistory(e: Episode, ops: seq<Op>)
    requires History(e) && forall i :: 0 <= i < |ops| ==> Admissible(ops[i])
    ensures History(Run(e, ops))
    decreases |ops|
  {
    if |ops| != 0 {
      StepKeepsHistory(e, ops[0]);
      RunKeepsHistory(Step(e, ops[0]).0, ops[1..]);
    }
  }

  lemma {:induction false} RefusalChangesNothing(e: Episode, op: Op)
    requires History(e) && Step(e, op).1.Some?
    ensures Step(e, op).0 == e
  {
  }

  /** The calls of a run that were not refused. */
  function Effective(e: Episode, ops: seq<Op>): seq<Op>
    decreases |ops|
  {
    if |ops| == 0 then []
    else
      var (n, error) := Step(e, ops[0]);
      if error.Some? then Effective(n, ops[1..]) else [ops[0]] + Effective(n, ops[1..])
  }

  /** Refused calls leave no trace: the run of the calls that were not refused ends in the same
      Episode, with the same records and events. */
  lemma {:induction false} RefusedCallsLeaveNoTrace(e: Episode, ops: seq<Op>)
    requires History(e) && forall i :: 0 <= i < |ops| ==> Admissible(ops[i])
    ensures Run(e, Effective(e, ops)) == Run(e, ops)
    decreases |ops|
  {
    if |ops| != 0 {
      StepKeepsHistory(e, ops[0]);
      RefusedCallsLeaveNoTrace(Step(e, ops[0]).0, ops[1..]);
      if Step(e, ops[0]).1.Some? {
        RefusalChangesNothing(e, ops[0]);
      } else {
        assert Effective(e, ops)[1..] == Effective(Step(e, ops[0]).0, ops[1..]);
      }
    }
  }

  /** In a terminal state nothing moves again: no transition succeeds, whatever else is done. */
  lemma {:induction false} TerminalAbsorbs(e: Episode, ops: seq<Op>)
    requires Terminal(e.state)
    ensures Run(e, ops).state == e.state && Run(e, ops).records == e.records && Run(e, ops).evaluation == e.evaluation
    decreases |ops|
  {
    if |ops| != 0 {
      if ops[0].Go? {
        RelationFacts(e.state, ops[0].target);
      }
      TerminalAbsorbs(Step(e, ops[0]).0, ops[1..]);
    }
  }

  /** The Oracle acceptance record, once made, is never rewritten; replay identity neither. */
  lemma {:induction false} AcceptanceIsWrittenOnce(e: Episode, ops: seq<Op>)
    ensures e.evaluation.Some? ==> Run(e, ops).evaluation == e.evaluation
    ensures e.replaySource.Some? ==> Run(e, ops).replaySource == e.replaySource
    ensures e.records != [] ==> Run(e, ops).replaySource == e.replaySource
    decreases |ops|
  {
    if |ops| != 0 {
      AcceptanceIsWrittenOnce(Step(e, ops[0]).0, ops[1..]);
    }
  }

  function Pauses(records: seq<Record>): nat {
    if |records| == 0 then 0
    else Pauses(records[..|records| - 1]) + (if records[|records| - 1].resulting == PAUSED then 1 else 0)
  }

  /** Every pause costs at most two records; apart from those a course has at most six. */
  lemma {:induction false} CoursesAreShort(records: seq<Record>, s: State)
    requires LegalPath(records, s)
    ensures |records| + Rank(s) <= 6 + 2 * Pauses(records) - (if s == PAUSED then 1 else 0)
    decreases |records|
  {
    if |records| != 0 {
      var last := records[|records| - 1];
      CoursesAreShort(records[..|records| - 1], last.previous);
      RelationFacts(last.previous, s);
    }
  }

  /** A pause-free run makes at most six transitions, however long it is. */
  lemma {:induction false} RunsAreShort(id: Text, ops: seq<Op>)
    requires forall i :: 0 <= i < |ops| ==> Admissible(ops[i])
    ensures var n := Run(NewEpisode(id), ops);
      History(n) && |n.records| <= 6 + 2 * Pauses(n.records)
  {
    assert Timeline([]) == [];
    RunKeepsHistory(NewEpisode(id), ops);
    CoursesAreShort(Run(NewEpisode(id), ops).records, Run(NewEpisode(id), ops).state);
  }
}
