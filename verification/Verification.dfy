/** The outcome tree of `verify` (src/avp_ref/runtime/engine.py): the Oracle runner, the
    evidence store and telemetry may do anything, and the Episode ends in one of few ways. */
module Verification {
  import opened Common
  import opened Lifecycle
  import opened Episodes

  datatype Status = SUCCESS | TIMEOUT | CRASHED | PROTOCOL_ERROR | SECURITY_VIOLATION

  /** What can be raised while the request is built or the runner evaluates. */
  datatype RunnerFault = SecurityError | OtherRunnerError | Unexpected

  /** What can be raised while something is published: `ArtifactStoreError`, `TypeError` or
      `ValueError`, or anything else. */
  datatype StoreFault = StoreError | InvalidValue | OtherException

  datatype Execution = Execution(status: Status, results: seq<OracleResult>, evidence: seq<Text>)

  datatype Package = Package(oracleId: Text, version: Text, digest: int)

  /** What can be raised while telemetry is finalised: by the session closing its artifact, by the
      bridge describing itself, and by the store. */
  datatype Finalization = Finalization(
    artifactFault: Option<StoreFault>, bridgeFault: Option<StoreFault>, storeFault: Option<StoreFault>)

  datatype Telemetry = Telemetry(
    attached: bool, incomplete: bool, bridged: bool, required: bool, policyFails: bool,
    strict: Finalization, lenient: Finalization)

  /** Everything the surroundings decide in one verification. The runner is asked to describe
      itself twice: before the started event, where nothing catches a failure, and as the
      producer of the execution evidence. */
  datatype Script = Script(
    package: Package,
    described: bool,
    build: Result<int, RunnerFault>,
    run: Result<Execution, RunnerFault>,
    producerFault: Option<StoreFault>,
    executionFault: Option<StoreFault>,
    executionDigest: int,
    itemFaults: nat -> Option<StoreFault>,
    telemetry: Telemetry)

  datatype Ending = Returned | WrongState | Escaped(error: EpisodeError) | Broke

  const EV: Text := [101, 118, 95]
  const ORACLE_EXECUTION: Text := [95, 111, 114, 97, 99, 108, 101, 95, 101, 120, 101, 99, 117, 116, 105, 111, 110]
  const TELEMETRY: Text := [95, 116, 101, 108, 101, 109, 101, 116, 114, 121]

  function ExecutionId(id: Text): Text {
    EV + id + ORACLE_EXECUTION
  }

  function TelemetryId(id: Text): Text {
    EV + id + TELEMETRY
  }

  /** An evidence identifier is checked before anything is stored. */
  function Publishing(id: Text, fault: Option<StoreFault>): Option<StoreFault> {
    if !GoodId(id) then Some(InvalidValue) else fault
  }

  /** Publishing the execution evidence: the runner describes itself, then the store is asked. */
  function ExecutionFault(id: Text, s: Script): Option<StoreFault> {
    if s.producerFault.Some? then s.producerFault else Publishing(ExecutionId(id), s.executionFault)
  }

  /** `_finalize_telemetry`: the registry afterwards, or what is raised. The lenient form
      forgives the store, not the session or the bridge. */
  function Finalize(id: Text, registry: set<Text>, t: Telemetry, f: Finalization, strict: bool): Result<set<Text>, StoreFault> {
    if !t.attached then Ok(registry)
    else if f.artifactFault.Some? then Err(f.artifactFault.value)
    else if TelemetryId(id) in registry then Ok(registry)
    else if t.bridged && f.bridgeFault.Some? then Err(f.bridgeFault.value)
    else
      match Publishing(TelemetryId(id), f.storeFault)
      case None => Ok(registry + {TelemetryId(id)})
      case Some(fault) => if strict || fault.OtherException? then Err(fault) else Ok(registry)
  }

  function FaultDetail(f: RunnerFault): DetailCode {
    match f
    case SecurityError => ORACLE_SECURITY_VIOLATION
    case OtherRunnerError => DetailCode.ORACLE_PROTOCOL_ERROR
    case Unexpected => ORACLE_RUNNER_ERROR
  }

  function StatusDetail(s: Status): DetailCode {
    match s
    case TIMEOUT => ORACLE_TIMEOUT
    case CRASHED => ORACLE_CRASH
    case SECURITY_VIOLATION => ORACLE_SECURITY_VIOLATION
    case _ => DetailCode.ORACLE_PROTOCOL_ERROR
  }

  // Evidence and results.

  datatype Items = Published(registry: set<Text>) | Rejected(registry: set<Text>) | StoreDown(registry: set<Text>)
    | Crashed(registry: set<Text>)

  function AfterItem(done: set<Text>, id: Text, fault: Option<StoreFault>): Items {
    match fault
    case None => Published(done + {id})
    case Some(StoreError) => StoreDown(done)
    case Some(InvalidValue) => Rejected(done)
    case Some(OtherException) => Crashed(done)
  }

  /** `_publish_oracle_evidence`: item by item, stopping at the first problem; what was
      published before stays in the registry. */
  function PublishItems(registry: set<Text>, items: seq<Text>, faults: nat -> Option<StoreFault>): Items {
    if |items| == 0 then Published(registry)
    else
      match PublishItems(registry, items[..|items| - 1], faults)
      case Published(done) =>
        var id := items[|items| - 1];
        if id in done then Rejected(done)
        else AfterItem(done, id, Publishing(id, faults(|items| - 1)))
      case other => other
  }

  /** `dict.fromkeys`: first occurrences, in order. */
  function Dedup(ids: seq<Text>): seq<Text> {
    if |ids| == 0 then []
    else
      var front := Dedup(ids[..|ids| - 1]);
      if ids[|ids| - 1] in front then front else front + [ids[|ids| - 1]]
  }

  function Cite(r: OracleResult, id: Text): OracleResult {
    r.(evidenceIds := Dedup(r.evidenceIds + [id]))
  }

  function CiteAll(results: seq<OracleResult>, id: Text): (cited: seq<OracleResult>)
    ensures |cited| == |results| && forall i :: 0 <= i < |results| ==> cited[i] == Cite(results[i], id)
  {
    seq(|results|, i requires 0 <= i < |results| => Cite(results[i], id))
  }

  function EmitClaims(e: Episode, results: seq<OracleResult>): Episode {
    if |results| == 0 then e else Emit(EmitClaims(e, results[..|results| - 1]), Note(results[|results| - 1].claimId))
  }

  // Endings.

  /** `_invalidate_evaluation`. */
  function Invalidate(e: Episode, s: Script, validity: Validity, detail: Option<DetailCode>): (Episode, Ending) {
    var marked := Emit(e.(validity := validity, detail := detail, verdict := INCONCLUSIVE), Note([]));
    var (moved, error) := StepTransition(marked, INVALID, None);
    if error.Some? then (moved, Escaped(error.value))
    else
      var said := Emit(moved, Note([]));
      match Finalize(said.id, said.evidence, s.telemetry, s.telemetry.lenient, false)
      case Ok(registry) => (said.(evidence := registry), Returned)
      case Err(_) => (said, Broke)
  }

  /** The required-telemetry check and completion. */
  function Close(closed: Episode, s: Script): (Episode, Ending) {
    if s.telemetry.bridged && s.telemetry.policyFails then (closed, Broke)
    else if s.telemetry.bridged && s.telemetry.required && (!s.telemetry.attached || s.telemetry.incomplete) then
      Invalidate(closed, s, TRACE_INCOMPLETE, None)
    else
      var (moved, error) := StepTransition(closed, COMPLETED, None);
      if error.Some? then (moved, Escaped(error.value)) else (Emit(moved, Note([])), Returned)
  }

  /** From accepted results to the end: strict telemetry first. */
  function Conclude(e: Episode, s: Script): (Episode, Ending) {
    match Finalize(e.id, e.evidence, s.telemetry, s.telemetry.strict, true)
    case Err(StoreError) => Invalidate(e, s, INFRA_CONFOUND, None)
    case Err(_) => (e, Broke)
    case Ok(registry) => Close(e.(evidence := registry), s)
  }

  /** Results with every reference resolved are accepted and judged. */
  function Accept(e: Episode, s: Script, results: seq<OracleResult>): (Episode, Ending) {
    var cited := e.(verification := CiteAll(results, ExecutionId(e.id)));
    if !(EvidenceIds(cited.verification) <= cited.evidence) then
      Invalidate(cited, s, ORACLE_FAILURE, Some(DetailCode.ORACLE_PROTOCOL_ERROR))
    else
      var told := EmitClaims(cited, cited.verification);
      Conclude(told.(verdict := VerdictOf(told.verification), validity := VALID, detail := None), s)
  }

  function AfterExecution(e: Episode, s: Script, x: Execution): (Episode, Ending) {
    match ExecutionFault(e.id, s)
    case Some(OtherException) => (e, Broke)
    case Some(_) => Invalidate(e, s, INFRA_CONFOUND, None)
    case None =>
      var recorded := Emit(e.(evidence := e.evidence + {ExecutionId(e.id)}),
                           ExecutionEnded(x.status == SUCCESS, s.executionDigest));
      if x.status != SUCCESS then Invalidate(recorded, s, ORACLE_FAILURE, Some(StatusDetail(x.status)))
      else
        var items := PublishItems(recorded.evidence, x.evidence, s.itemFaults);
        var filled := recorded.(evidence := items.registry);
        match items
        case Rejected(_) => Invalidate(filled, s, ORACLE_FAILURE, Some(DetailCode.ORACLE_PROTOCOL_ERROR))
        case StoreDown(_) => Invalidate(filled, s, INFRA_CONFOUND, None)
        case Crashed(_) => (filled, Broke)
        case Published(_) => Accept(filled, s, x.results)
  }

  function AfterRequest(started: Episode, s: Script, inputDigest: int): (Episode, Ending) {
    var requested := Emit(started, ExecutionStarted(inputDigest));
    match s.run
    case Err(f) => Invalidate(requested, s, ORACLE_FAILURE, Some(FaultDetail(f)))
    case Ok(x) => AfterExecution(requested, s, x)
  }

  /** `verify`. */
  function Verify(e: Episode, s: Script): (Episode, Ending) {
    if e.state != QUIESCING then (e, WrongState)
    else
      var (moved, error) := StepTransition(e, VERIFYING, None);
      if error.Some? then (moved, Escaped(error.value))
      else if !s.described then (moved, Broke)
      else
        var started := Emit(moved, VerificationStarted(s.package.oracleId, s.package.version, s.package.digest));
        match s.build
        case Err(f) => Invalidate(started, s, ORACLE_FAILURE, Some(FaultDetail(f)))
        case Ok(inputDigest) => AfterRequest(started, s, inputDigest)
  }

  // What the timeline tells the freeze.

  /** The stage an Episode under verification has reached, as its timeline shows it. */
  ghost predicate Stage(e: Episode, start: EventBody, request: Option<int>, execution: Option<int>) {
    && e.state == VERIFYING && GoodId(e.id) && e.evaluation.None?
    && start.VerificationStarted? && |start.oracleId| > 0 && |start.oracleVersion| > 0
    && FirstStart(e.events) == Some(start) && FirstRequest(e.events) == request && LastExecution(e.events) == execution
  }

  lemma {:induction false} FirstStartAppend(events: seq<Event>, v: Event)
    ensures FirstStart(events + [v]) ==
      if FirstStart(events).Some? then FirstStart(events)
      else if v.body.VerificationStarted? then Some(v.body) else None
  {
    if |events| != 0 {
      assert (events + [v])[1..] == events[1..] + [v];
      FirstStartAppend(events[1..], v);
    }
  }

  lemma {:induction false} FirstRequestAppend(events: seq<Event>, v: Event)
    ensures FirstRequest(events + [v]) ==
      if FirstRequest(events).Some? then FirstRequest(events)
      else if v.body.ExecutionStarted? then Some(v.body.inputDigest) else None
  {
    if |events| != 0 {
      assert (events + [v])[1..] == events[1..] + [v];
      FirstRequestAppend(events[1..], v);
    }
  }

  lemma {:induction false} EmitStages(e: Episode, body: EventBody)
    ensures var n := Emit(e, body);
      && FirstStart(n.events) == (if FirstStart(e.events).Some? then FirstStart(e.events)
                                  else if body.VerificationStarted? then Some(body) else None)
      && FirstRequest(n.events) == (if FirstRequest(e.events).Some? then FirstRequest(e.events)
                                    else if body.ExecutionStarted? then Some(body.inputDigest) else None)
      && LastExecution(n.events) == (if body.ExecutionEnded? then Some(body.artifactDigest) else LastExecution(e.events))
  {
    var v := Event(|e.events| + 1, body);
    FirstStartAppend(e.events, v);
    FirstRequestAppend(e.events, v);
    assert (e.events + [v])[..|e.events|] == e.events;
  }

  lemma {:induction false} ClaimsKeepStage(e: Episode, results: seq<OracleResult>, start: EventBody, request: Option<int>,
                                           execution: Option<int>)
    requires Stage(e, start, request, execution)
    ensures var n := EmitClaims(e, results);
      Stage(n, start, request, execution) && n == e.(events := n.events)
  {
    if |results| != 0 {
      ClaimsKeepStage(e, results[..|results| - 1], start, request, execution);
      EmitStages(EmitClaims(e, results[..|results| - 1]), Note(results[|results| - 1].claimId));
    }
  }

  // What each ending means.

  predicate Sound(results: seq<OracleResult>) {
    forall i :: 0 <= i < |results| ==> results[i].validity == VALID
  }

  /** The acceptance record of an Oracle failure: no results, and the Episode's own detail. */
  predicate FailureRecord(v: Evaluation, start: EventBody, request: int, execution: Option<int>, detail: Option<DetailCode>)
    requires start.VerificationStarted?
  {
    v == Evaluation(start.oracleId, start.oracleVersion, start.packageDigest, request, execution,
                    ORACLE_FAILURE, INCONCLUSIVE, [], {}, detail)
  }

  /** The acceptance record of results: all of them, with their verdict and their evidence. */
  predicate AcceptanceRecord(v: Evaluation, start: EventBody, request: int, execution: Option<int>, results: seq<OracleResult>)
    requires start.VerificationStarted?
  {
    && v == Evaluation(start.oracleId, start.oracleVersion, start.packageDigest, request, execution,
                       VALID, VerdictOf(results), results, EvidenceIds(results), None)
    && execution.Some? && Sound(results)
  }

  /** An invalidated Episode: INVALID with a reason, no verdict, and a record exactly when the
      request event exists and the Oracle failed or results had been accepted. */
  ghost predicate Invalidated(n: Episode, start: EventBody, request: Option<int>, execution: Option<int>)
    requires start.VerificationStarted?
  {
    && n.state == INVALID && n.validity != VALID && n.verdict == INCONCLUSIVE
    && (n.evaluation.Some? <==> request.Some? && (n.validity == ORACLE_FAILURE || n.verification != []))
    && (n.evaluation.Some? && n.validity == ORACLE_FAILURE ==>
          FailureRecord(n.evaluation.value, start, request.value, execution, n.detail))
    && (n.evaluation.Some? && n.validity != ORACLE_FAILURE ==>
          AcceptanceRecord(n.evaluation.value, start, request.value, execution, n.verification))
  }

  ghost predicate Completed(n: Episode, start: EventBody, request: Option<int>, execution: Option<int>)
    requires start.VerificationStarted?
  {
    && n.state == COMPLETED && n.validity == VALID && n.detail.None? && n.verdict == VerdictOf(n.verification)
    && n.evaluation.Some? && request.Some?
    && AcceptanceRecord(n.evaluation.value, start, request.value, execution, n.verification)
    && n.evaluation.value.verdict == n.verdict
  }

  /** Verification gave up without an end state: still VERIFYING, with no record. */
  ghost predicate Stuck(n: Episode) {
    n.state == VERIFYING && n.evaluation.None?
  }

  lemma {:induction false} InvalidateEnds(e: Episode, s: Script, validity: Validity, detail: Option<DetailCode>,
                                          start: EventBody, request: Option<int>, execution: Option<int>)
    requires Stage(e, start, request, execution) && validity != VALID
    requires validity == ORACLE_FAILURE ==> detail.Some?
    requires e.verification != [] ==> execution.Some? && request.Some?
    requires forall id :: id in EvidenceIds(e.verification) && validity != ORACLE_FAILURE ==> GoodId(id)
    ensures var (n, end) := Invalidate(e, s, validity, detail);
      && n.verification == e.verification
      && (if validity != ORACLE_FAILURE && !Sound(e.verification)
          then Stuck(n) && end == Escaped(ResultNotValid)
          else Invalidated(n, start, request, execution) && n.validity == validity && n.detail == detail
               && (end == Returned || end == Broke))
  {
    var marked := Emit(e.(validity := validity, detail := detail, verdict := INCONCLUSIVE), Note([]));
    EmitStages(e.(validity := validity, detail := detail, verdict := INCONCLUSIVE), Note([]));
    assert Stage(marked, start, request, execution);
    FreezeInvalid(marked, start, request, execution);
  }

  /** What the freeze does on the way to INVALID. */
  lemma {:induction false} FreezeInvalid(e: Episode, start: EventBody, request: Option<int>, execution: Option<int>)
    requires Stage(e, start, request, execution) && e.validity != VALID && e.verdict == INCONCLUSIVE
    requires e.validity == ORACLE_FAILURE ==> e.detail.Some?
    requires e.verification != [] ==> execution.Some? && request.Some?
    requires forall id :: id in EvidenceIds(e.verification) && e.validity != ORACLE_FAILURE ==> GoodId(id)
    ensures var (n, error) := StepTransition(e, INVALID, None);
      && n.id == e.id && n.verification == e.verification && n.evidence == e.evidence
      && n.validity == e.validity && n.detail == e.detail
      && (if e.validity != ORACLE_FAILURE && !Sound(e.verification)
          then n == e && error == Some(ResultNotValid)
          else error.None? && Invalidated(n, start, request, execution))
  {
  }

  // The registry.

  lemma {:induction false} ItemsAreGood(registry: set<Text>, items: seq<Text>, faults: nat -> Option<StoreFault>)
    requires forall id :: id in registry ==> GoodId(id)
    ensures registry <= PublishItems(registry, items, faults).registry
    ensures forall id :: id in PublishItems(registry, items, faults).registry ==> GoodId(id)
  {
    if |items| != 0 {
      ItemsAreGood(registry, items[..|items| - 1], faults);
    }
  }

  /** The items are all published exactly when each is new, well formed and stored. */
  lemma {:induction false} ItemsPublished(registry: set<Text>, items: seq<Text>, faults: nat -> Option<StoreFault>)
    ensures PublishItems(registry, items, faults).Published? <==>
      && (forall i, j :: 0 <= i < j < |items| ==> items[i] != items[j])
      && (forall i :: 0 <= i < |items| ==> items[i] !in registry && GoodId(items[i]) && faults(i).None?)
    ensures PublishItems(registry, items, faults).Published? ==>
      PublishItems(registry, items, faults).registry == registry + Elements(items)
  {
    if |items| != 0 {
      var front, id := items[..|items| - 1], items[|items| - 1];
      ItemsPublished(registry, front, faults);
      assert items == front + [id];
      assert Elements(items) == Elements(front) + {id};
      assert id in front <==> exists i :: 0 <= i < |front| && items[i] == id;
    }
  }

  lemma {:induction false} DedupKeeps(ids: seq<Text>)
    ensures Elements(Dedup(ids)) == Elements(ids) && Distinct(Dedup(ids))
  {
    if |ids| != 0 {
      var front, id := ids[..|ids| - 1], ids[|ids| - 1];
      DedupKeeps(front);
      assert ids == front + [id];
      assert Elements(ids) == Elements(front) + {id};
      assert id in Dedup(front) <==> id in Elements(Dedup(front));
      if id !in Dedup(front) {
        assert Elements(Dedup(front) + [id]) == Elements(Dedup(front)) + {id};
      }
    }
  }

  /** An accepted result cites its own evidence, each item once, and the execution record. */
  lemma {:induction false} Cites(r: OracleResult, id: Text)
    ensures Elements(Cite(r, id).evidenceIds) == Elements(r.evidenceIds) + {id} && Distinct(Cite(r, id).evidenceIds)
  {
    DedupKeeps(r.evidenceIds + [id]);
    assert Elements(r.evidenceIds + [id]) == Elements(r.evidenceIds) + {id};
  }

  // The whole verification.

  /** No verification has begun: nothing on the timeline, nothing accepted. */
  ghost predicate Fresh(e: Episode) {
    && e.state == QUIESCING && GoodId(e.id) && e.evaluation.None? && e.verification == []
    && FirstStart(e.events).None? && FirstRequest(e.events).None? && LastExecution(e.events).None?
    && (forall id :: id in e.evidence ==> GoodId(id))
  }

  predicate Identified(p: Package) {
    |p.oracleId| > 0 && |p.version| > 0
  }

  function StartOf(p: Package): EventBody {
    VerificationStarted(p.oracleId, p.version, p.digest)
  }

  function RequestOf(s: Script): Option<int> {
    if s.build.Ok? then Some(s.build.value) else None
  }

  // The decision table.

  datatype Diagnosis = Done | GaveUp | Failed(validity: Validity, detail: Option<DetailCode>)

  /** The first thing raised while telemetry is closed strictly, if anything is. */
  function ClosingFault(id: Text, registry: set<Text>, t: Telemetry): Option<StoreFault> {
    if !t.attached then None
    else if t.strict.artifactFault.Some? then t.strict.artifactFault
    else if TelemetryId(id) in registry then None
    else if t.bridged && t.strict.bridgeFault.Some? then t.strict.bridgeFault
    else t.strict.storeFault
  }

  function DiagnoseTelemetry(id: Text, registry: set<Text>, t: Telemetry): Diagnosis {
    if ClosingFault(id, registry, t) == Some(StoreError) then Failed(INFRA_CONFOUND, None)
    else if ClosingFault(id, registry, t).Some? || (t.bridged && t.policyFails) then GaveUp
    else if t.bridged && t.required && (!t.attached || t.incomplete) then Failed(TRACE_INCOMPLETE, None)
    else Done
  }

  /** Unsound results end the verification however telemetry fares: the acceptance record
      cannot be made, and the Episode stays where it is. */
  function DiagnoseResults(id: Text, registry: set<Text>, s: Script, results: seq<OracleResult>): Diagnosis {
    if !(EvidenceIds(results) <= registry) then Failed(ORACLE_FAILURE, Some(DetailCode.ORACLE_PROTOCOL_ERROR))
    else if !Sound(results) then GaveUp
    else DiagnoseTelemetry(id, registry, s.telemetry)
  }

  function DiagnoseExecution(id: Text, evidence: set<Text>, s: Script, x: Execution): Diagnosis {
    if s.producerFault.Some? then
      (if s.producerFault.value.OtherException? then GaveUp else Failed(INFRA_CONFOUND, None))
    else if !GoodId(ExecutionId(id)) then Failed(INFRA_CONFOUND, None)
    else if s.executionFault.Some? then
      (if s.executionFault.value.OtherException? then GaveUp else Failed(INFRA_CONFOUND, None))
    else if x.status != SUCCESS then Failed(ORACLE_FAILURE, Some(StatusDetail(x.status)))
    else
      match PublishItems(evidence + {ExecutionId(id)}, x.evidence, s.itemFaults)
      case Rejected(_) => Failed(ORACLE_FAILURE, Some(DetailCode.ORACLE_PROTOCOL_ERROR))
      case StoreDown(_) => Failed(INFRA_CONFOUND, None)
      case Crashed(_) => GaveUp
      case Published(registry) => DiagnoseResults(id, registry, s, x.results)
  }

  /** How a verification ends, read off the Episode and the surroundings. */
  function Diagnose(e: Episode, s: Script): Diagnosis {
    if !s.described then GaveUp
    else
      match s.build
      case Err(f) => Failed(ORACLE_FAILURE, Some(FaultDetail(f)))
      case Ok(_) =>
        match s.run
        case Err(f) => Failed(ORACLE_FAILURE, Some(FaultDetail(f)))
        case Ok(x) => DiagnoseExecution(e.id, e.evidence, s, x)
  }

  /** The digest of the execution record, if one was published. */
  function ExecutionOf(e: Episode, s: Script): Option<int> {
    if s.build.Ok? && s.run.Ok? && ExecutionFault(e.id, s).None? then Some(s.executionDigest) else None
  }

  /** The Episode and the ending are as the diagnosis says. */
  ghost predicate Ends(d: Diagnosis, n: Episode, end: Ending, start: EventBody, request: Option<int>, execution: Option<int>)
    requires start.VerificationStarted?
  {
    match d
    case Done => Completed(n, start, request, execution) && end == Returned
    case GaveUp => Stuck(n) && (end == Broke || end == Escaped(ResultNotValid))
    case Failed(validity, detail) =>
      Invalidated(n, start, request, execution) && n.validity == validity && n.detail == detail && (end == Returned || end == Broke)
  }

  /** What the freeze does on the way to COMPLETED. */
  lemma {:induction false} CompleteEnds(e: Episode, start: EventBody, request: int, execution: int)
    requires Stage(e, start, Some(request), Some(execution))
    requires e.validity == VALID && e.detail.None? && e.verdict == VerdictOf(e.verification)
    requires forall id :: id in EvidenceIds(e.verification) ==> GoodId(id)
    ensures var (n, error) := StepTransition(e, COMPLETED, None);
      if Sound(e.verification) then error.None? && Completed(n, start, Some(request), Some(execution))
      else n == e && error == Some(ResultNotValid)
  {
  }

  /** From a closed telemetry artifact on. */
  lemma {:induction false} ClosedEnds(closed: Episode, s: Script, start: EventBody, request: int, execution: int)
    requires Stage(closed, start, Some(request), Some(execution))
    requires closed.validity == VALID && closed.detail.None? && closed.verdict == VerdictOf(closed.verification)
    requires forall id :: id in EvidenceIds(closed.verification) ==> GoodId(id)
    ensures var d :=
        if !Sound(closed.verification) || (s.telemetry.bridged && s.telemetry.policyFails) then GaveUp
        else if s.telemetry.bridged && s.telemetry.required && (!s.telemetry.attached || s.telemetry.incomplete)
        then Failed(TRACE_INCOMPLETE, None)
        else Done;
      Ends(d, Close(closed, s).0, Close(closed, s).1, start, Some(request), Some(execution))
  {
    InvalidateEnds(closed, s, TRACE_INCOMPLETE, None, start, Some(request), Some(execution));
    CompleteEnds(closed, start, request, execution);
  }

  lemma {:induction false} ConcludeEnds(e: Episode, s: Script, start: EventBody, request: int, execution: int)
    requires Stage(e, start, Some(request), Some(execution)) && GoodId(TelemetryId(e.id))
    requires e.validity == VALID && e.detail.None? && e.verdict == VerdictOf(e.verification)
    requires forall id :: id in EvidenceIds(e.verification) ==> GoodId(id)
    ensures var d := if Sound(e.verification) then DiagnoseTelemetry(e.id, e.evidence, s.telemetry) else GaveUp;
      Ends(d, Conclude(e, s).0, Conclude(e, s).1, start, Some(request), Some(execution))
  {
    match Finalize(e.id, e.evidence, s.telemetry, s.telemetry.strict, true) {
      case Err(_) => InvalidateEnds(e, s, INFRA_CONFOUND, None, start, Some(request), Some(execution));
      case Ok(registry) => ClosedEnds(e.(evidence := registry), s, start, request, execution);
    }
  }

  lemma {:induction false} IdsAt(results: seq<OracleResult>, x: Text)
    ensures x in EvidenceIds(results) <==> exists i :: 0 <= i < |results| && x in results[i].evidenceIds
  {
    if x in EvidenceIds(results) {
      var r :| r in results && x in r.evidenceIds;
      var i :| 0 <= i < |results| && results[i] == r;
    }
    if i :| 0 <= i < |results| && x in results[i].evidenceIds {
      assert results[i] in results;
    }
  }

  lemma {:induction false} CitedAt(results: seq<OracleResult>, id: Text, x: Text, i: nat)
    requires i < |results|
    ensures x in CiteAll(results, id)[i].evidenceIds <==> x == id || x in results[i].evidenceIds
  {
    Cites(results[i], id);
    assert x in Elements(CiteAll(results, id)[i].evidenceIds) <==> x in Elements(results[i].evidenceIds) + {id};
  }

  lemma {:induction false} CitedId(results: seq<OracleResult>, id: Text, x: Text)
    ensures x in EvidenceIds(results) ==> x in EvidenceIds(CiteAll(results, id))
    ensures x in EvidenceIds(CiteAll(results, id)) ==> x == id || x in EvidenceIds(results)
  {
    IdsAt(results, x);
    IdsAt(CiteAll(results, id), x);
    forall i | 0 <= i < |results|
      ensures x in CiteAll(results, id)[i].evidenceIds <==> x == id || x in results[i].evidenceIds
    {
      CitedAt(results, id, x, i);
    }
  }

  lemma {:induction false} CitedIds(results: seq<OracleResult>, id: Text, registry: set<Text>)
    requires id in registry
    ensures EvidenceIds(CiteAll(results, id)) <= registry <==> EvidenceIds(results) <= registry
    ensures Sound(CiteAll(results, id)) <==> Sound(results)
  {
    forall x ensures x in EvidenceIds(results) ==> x in EvidenceIds(CiteAll(results, id))
      ensures x in EvidenceIds(CiteAll(results, id)) ==> x == id || x in EvidenceIds(results)
    {
      CitedId(results, id, x);
    }
    assert forall i :: 0 <= i < |results| ==> CiteAll(results, id)[i].validity == results[i].validity;
  }

  lemma {:induction false} AcceptEnds(e: Episode, s: Script, results: seq<OracleResult>, start: EventBody, request: int, execution: int)
    requires Stage(e, start, Some(request), Some(execution)) && GoodId(TelemetryId(e.id)) && ExecutionId(e.id) in e.evidence
    requires forall id :: id in e.evidence ==> GoodId(id)
    ensures Ends(DiagnoseResults(e.id, e.evidence, s, results), Accept(e, s, results).0, Accept(e, s, results).1,
                 start, Some(request), Some(execution))
  {
    CitedIds(results, ExecutionId(e.id), e.evidence);
    var cited := e.(verification := CiteAll(results, ExecutionId(e.id)));
    assert Stage(cited, start, Some(request), Some(execution));
    if !(EvidenceIds(cited.verification) <= cited.evidence) {
      InvalidateEnds(cited, s, ORACLE_FAILURE, Some(DetailCode.ORACLE_PROTOCOL_ERROR), start, Some(request), Some(execution));
    } else {
      ClaimsKeepStage(cited, cited.verification, start, Some(request), Some(execution));
      var told := EmitClaims(cited, cited.verification);
      var judged := told.(verdict := VerdictOf(told.verification), validity := VALID, detail := None);
      assert Stage(judged, start, Some(request), Some(execution));
      ConcludeEnds(judged, s, start, request, execution);
    }
  }

  lemma {:induction false} AfterExecutionEnds(e: Episode, s: Script, x: Execution, start: EventBody, request: int)
    requires Stage(e, start, Some(request), None) && e.verification == []
    requires forall id :: id in e.evidence ==> GoodId(id)
    ensures var execution := if ExecutionFault(e.id, s).None? then Some(s.executionDigest) else None;
      Ends(DiagnoseExecution(e.id, e.evidence, s, x), AfterExecution(e, s, x).0, AfterExecution(e, s, x).1, start, Some(request), execution)
  {
    if ExecutionFault(e.id, s).Some? {
      InvalidateEnds(e, s, INFRA_CONFOUND, None, start, Some(request), None);
    } else {
      var body := ExecutionEnded(x.status == SUCCESS, s.executionDigest);
      var recorded := Emit(e.(evidence := e.evidence + {ExecutionId(e.id)}), body);
      EmitStages(e.(evidence := e.evidence + {ExecutionId(e.id)}), body);
      RecordedEnds(e, recorded, s, x, start, request);
    }
  }

  lemma {:induction false} RecordedEnds(e: Episode, recorded: Episode, s: Script, x: Execution, start: EventBody, request: int)
    requires ExecutionFault(e.id, s).None?
    requires recorded == Emit(e.(evidence := e.evidence + {ExecutionId(e.id)}),
                              ExecutionEnded(x.status == SUCCESS, s.executionDigest))
    requires Stage(recorded, start, Some(request), Some(s.executionDigest)) && recorded.verification == []
    requires forall id :: id in e.evidence ==> GoodId(id)
    ensures Ends(DiagnoseExecution(e.id, e.evidence, s, x), AfterExecution(e, s, x).0, AfterExecution(e, s, x).1,
                 start, Some(request), Some(s.executionDigest))
  {
    if x.status != SUCCESS {
      InvalidateEnds(recorded, s, ORACLE_FAILURE, Some(StatusDetail(x.status)), start, Some(request), Some(s.executionDigest));
    } else {
      var items := PublishItems(recorded.evidence, x.evidence, s.itemFaults);
      var filled := recorded.(evidence := items.registry);
      ItemsAreGood(recorded.evidence, x.evidence, s.itemFaults);
      assert Stage(filled, start, Some(request), Some(s.executionDigest));
      InvalidateEnds(filled, s, ORACLE_FAILURE, Some(DetailCode.ORACLE_PROTOCOL_ERROR), start, Some(request), Some(s.executionDigest));
      InvalidateEnds(filled, s, INFRA_CONFOUND, None, start, Some(request), Some(s.executionDigest));
      AcceptEnds(filled, s, x.results, start, request, s.executionDigest);
    }
  }

  /** The Episode after the verification-started event. */
  function Begun(e: Episode, p: Package): Episode {
    Emit(StepTransition(e, VERIFYING, None).0, StartOf(p))
  }

  lemma {:induction false} MovedStage(e: Episode)
    requires Fresh(e)
    ensures var (moved, error) := StepTransition(e, VERIFYING, None);
      && error.None? && moved.state == VERIFYING && moved.id == e.id && moved.evaluation.None?
      && moved.evidence == e.evidence && moved.verification == e.verification
      && FirstStart(moved.events).None? && FirstRequest(moved.events).None? && LastExecution(moved.events).None?
  {
    var record := Record(|e.records| + 1, e.state, VERIFYING, None);
    EmitStages(e.(state := VERIFYING, records := e.records + [record]), Transition(record));
  }

  lemma {:induction false} BegunStage(e: Episode, p: Package)
    requires Fresh(e) && Identified(p)
    ensures StepTransition(e, VERIFYING, None).1.None?
    ensures var b := Begun(e, p);
      Stage(b, StartOf(p), None, None) && b.id == e.id && b.evidence == e.evidence && b.verification == []
  {
    MovedStage(e);
    EmitStages(StepTransition(e, VERIFYING, None).0, StartOf(p));
  }

  /** For every runner, store and telemetry behaviour (clocks and event listeners do not raise),
      `verify` leaves the Episode exactly as the decision table says: COMPLETED is VALID with a VALID record of the same verdict and
      results; INVALID is non-VALID and INCONCLUSIVE, with a record exactly when the request
      event exists and the Oracle failed or results had been accepted; and the Episode stays
      VERIFYING, without a record, in precisely the diagnosed cases. */
  lemma {:induction false} VerifyEnds(e: Episode, s: Script)
    requires Fresh(e) && Identified(s.package)
    ensures Ends(Diagnose(e, s), Verify(e, s).0, Verify(e, s).1, StartOf(s.package), RequestOf(s), ExecutionOf(e, s))
  {
    var start, started := StartOf(s.package), Begun(e, s.package);
    BegunStage(e, s.package);
    if s.described {
      match s.build {
        case Err(f) => InvalidateEnds(started, s, ORACLE_FAILURE, Some(FaultDetail(f)), start, None, None);
        case Ok(inputDigest) => RequestedEnds(started, s, start, inputDigest);
      }
    }
  }

  lemma {:induction false} RequestedEnds(started: Episode, s: Script, start: EventBody, inputDigest: int)
    requires Stage(started, start, None, None) && started.verification == []
    requires forall id :: id in started.evidence ==> GoodId(id)
    ensures var d := if s.run.Err? then Failed(ORACLE_FAILURE, Some(FaultDetail(s.run.error)))
        else DiagnoseExecution(started.id, started.evidence, s, s.run.value);
      var execution := if s.run.Ok? && ExecutionFault(started.id, s).None? then Some(s.executionDigest) else None;
      Ends(d, AfterRequest(started, s, inputDigest).0, AfterRequest(started, s, inputDigest).1, start, Some(inputDigest), execution)
  {
    var requested := Emit(started, ExecutionStarted(inputDigest));
    EmitStages(started, ExecutionStarted(inputDigest));
    assert Stage(requested, start, Some(inputDigest), None);
    match s.run {
      case Err(f) => InvalidateEnds(requested, s, ORACLE_FAILURE, Some(FaultDetail(f)), start, Some(inputDigest), None);
      case Ok(x) => AfterExecutionEnds(requested, s, x, start, inputDigest);
    }
  }

  /** The identifiers `create_episode` makes: "ep_" and twelve hexadecimal digits. */
  predicate Minted(id: Text) {
    && |id| == 15 && id[..3] == [101, 112, 95]
    && forall i :: 3 <= i < 15 ==> 48 <= id[i] <= 57 || 97 <= id[i] <= 102
  }

  /** The evidence identifiers derived from an identifier of the runtime are always well formed,
      so neither publication is ever refused for its identifier. */
  lemma {:induction false} MintedIdsFit(id: Text, fault: Option<StoreFault>)
    requires Minted(id)
    ensures Publishing(ExecutionId(id), fault) == fault && Publishing(TelemetryId(id), fault) == fault
  {
  }

  /** The evidence items are new, well formed, different and stored. */
  ghost predicate ItemsFit(registry: set<Text>, items: seq<Text>, faults: nat -> Option<StoreFault>) {
    && (forall i, j :: 0 <= i < j < |items| ==> items[i] != items[j])
    && (forall i :: 0 <= i < |items| ==> items[i] !in registry && GoodId(items[i]) && faults(i).None?)
  }

  /** Telemetry closes without raising, and is complete where it is required. */
  predicate TelemetryFits(id: Text, registry: set<Text>, t: Telemetry) {
    && ClosingFault(id, registry, t).None? && !(t.bridged && t.policyFails)
    && !(t.bridged && t.required && (!t.attached || t.incomplete))
  }

  /** The runner answers with a successful execution, and its record is published. */
  predicate RunnerFits(s: Script) {
    && s.described && s.build.Ok? && s.run.Ok? && s.run.value.status == SUCCESS
    && s.producerFault.None? && s.executionFault.None?
  }

  /** The registry once the execution record and the evidence are published. */
  function Filled(e: Episode, x: Execution): set<Text> {
    e.evidence + {ExecutionId(e.id)} + Elements(x.evidence)
  }

  lemma {:induction false} DoneExactly(e: Episode, s: Script)
    requires Minted(e.id)
    ensures Diagnose(e, s) == Done <==>
      && RunnerFits(s)
      && ItemsFit(e.evidence + {ExecutionId(e.id)}, s.run.value.evidence, s.itemFaults)
      && EvidenceIds(s.run.value.results) <= Filled(e, s.run.value) && Sound(s.run.value.results)
      && TelemetryFits(e.id, Filled(e, s.run.value), s.telemetry)
  {
    MintedIdsFit(e.id, None);
    if s.run.Ok? {
      ItemsPublished(e.evidence + {ExecutionId(e.id)}, s.run.value.evidence, s.itemFaults);
    }
  }

  /** When a verification completes: exactly if the runner describes itself and succeeds, every
      store call works, the evidence is new and well formed, every result is VALID and cites
      published evidence only, and telemetry closes and is complete where required. */
  lemma {:induction false} CompletesExactly(e: Episode, s: Script)
    requires Fresh(e) && Identified(s.package) && Minted(e.id)
    ensures Verify(e, s).0.state == COMPLETED <==>
      && RunnerFits(s)
      && ItemsFit(e.evidence + {ExecutionId(e.id)}, s.run.value.evidence, s.itemFaults)
      && EvidenceIds(s.run.value.results) <= Filled(e, s.run.value) && Sound(s.run.value.results)
      && TelemetryFits(e.id, Filled(e, s.run.value), s.telemetry)
  {
    VerifyEnds(e, s);
    DoneExactly(e, s);
  }

  /** Where everything else would let it complete, one result that is not VALID leaves the
      Episode VERIFYING, without a record. */
  lemma {:induction false} UnsoundResultsLeaveVerifying(e: Episode, s: Script)
    requires Fresh(e) && Identified(s.package) && Minted(e.id)
    requires RunnerFits(s) && ItemsFit(e.evidence + {ExecutionId(e.id)}, s.run.value.evidence, s.itemFaults)
    requires EvidenceIds(s.run.value.results) <= Filled(e, s.run.value) && !Sound(s.run.value.results)
    ensures Stuck(Verify(e, s).0)
  {
    VerifyEnds(e, s);
    MintedIdsFit(e.id, None);
    ItemsPublished(e.evidence + {ExecutionId(e.id)}, s.run.value.evidence, s.itemFaults);
  }
}
