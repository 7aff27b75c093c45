/** The Episode and its verification in place: the object whose fields the runtime updates
    (src/avp_ref/runtime/episode.py) and the engine that drives it
    (src/avp_ref/runtime/engine.py). */
module EpisodeRuntime {
  import opened Common
  import opened Lifecycle
  import opened Episodes
  import opened Verification

  class LiveEpisode {
    const id: Text
    var state: State
    var validity: Validity
    var detail: Option<DetailCode>
    var verdict: TaskVerdict
    var events: seq<Event>
    var evidence: set<Text>
    var verification: seq<OracleResult>
    var evaluation: Option<Evaluation>
    var records: seq<Record>
    var replaySource: Option<Text>

    function View(): Episode
      reads this
    {
      Episode(id, state, validity, detail, verdict, events, evidence, verification, evaluation, records, replaySource)
    }

    constructor (id: Text)
      ensures View() == NewEpisode(id)
    {
      this.id := id;
      state, validity, detail, verdict := CREATED, VALID, None, INCONCLUSIVE;
      events, evidence, verification, evaluation, records, replaySource := [], {}, [], None, [], None;
    }

    method EmitEvent(body: EventBody)
      modifies `events
      ensures View() == Emit(old(View()), body)
    {
      events := events + [Event(|events| + 1, body)];
    }

    method BindReplaySource(source: Text) returns (error: Option<EpisodeError>)
      modifies `replaySource
      ensures (View(), error) == StepBind(old(View()), source)
    {
      if state != CREATED || records != [] {
        return Some(ReplayTooLate);
      }
      if replaySource.Some? {
        return Some(ReplayTwice);
      }
      if source == id {
        return Some(ReplaySelf);
      }
      replaySource := Some(source);
      error := None;
    }

    /** The first verification-started event, the first request, and the last execution. */
    method Chain() returns (start: Option<EventBody>, request: Option<int>, execution: Option<int>)
      ensures start == FirstStart(events) && request == FirstRequest(events) && execution == LastExecution(events)
    {
      start, request, execution := None, None, None;
      for n := 0 to |events|
        invariant start == FirstStart(events[..n]) && request == FirstRequest(events[..n])
        invariant execution == LastExecution(events[..n])
      {
        assert events[..n + 1] == events[..n] + [events[n]];
        assert events[..n + 1][..n] == events[..n];
        FirstStartAppend(events[..n], events[n]);
        FirstRequestAppend(events[..n], events[n]);
        var body := events[n].body;
        if start.None? && body.VerificationStarted? {
          start := Some(body);
        }
        if request.None? && body.ExecutionStarted? {
          request := Some(body.inputDigest);
        }
        if body.ExecutionEnded? {
          execution := Some(body.artifactDigest);
        }
      }
      assert events[..|events|] == events;
    }

    method FreezeOracleEvaluation(target: State) returns (error: Option<EpisodeError>)
      modifies `evaluation
      ensures (View(), error) == Freeze(old(View()), target)
    {
      if evaluation.Some? {
        return None;
      }
      var start, request, execution := Chain();
      if start.None? || request.None? || !start.value.VerificationStarted? {
        return None;
      }
      if |start.value.oracleId| == 0 || |start.value.oracleVersion| == 0 {
        return None;
      }
      var failure := validity == ORACLE_FAILURE;
      if !failure && (execution.None? || (target == INVALID && verification == [])) {
        return None;
      }
      var v := Evaluation(
        start.value.oracleId, start.value.oracleVersion, start.value.packageDigest, request.value, execution,
        if failure then ORACLE_FAILURE else VALID,
        if failure then INCONCLUSIVE else VerdictOf(verification),
        if failure then [] else verification,
        if failure then {} else EvidenceIds(verification),
        if failure then detail else None);
      error := CheckEvaluation(v);
      if error.None? {
        evaluation := Some(v);
      }
    }

    method TransitionTo(target: State, cause: Option<Text>) returns (error: Option<EpisodeError>)
      modifies this
      ensures (View(), error) == StepTransition(old(View()), target, cause)
    {
      if cause.Some? && !GoodCause(cause.value) {
        return Some(BadCause);
      }
      if !Legal(state, target) {
        return Some(IllegalTransition);
      }
      if target in {COMPLETED, INVALID} {
        error := FreezeOracleEvaluation(target);
        if error.Some? {
          return;
        }
      }
      if !GoodId(id) {
        return Some(BadEpisodeId);
      }
      var record := Record(|records| + 1, state, target, cause);
      state := target;
      records := records + [record];
      EmitEvent(Transition(record));
      error := None;
    }
  }

  /** The engine's part of verification. */
  class EpisodeEngine {
    constructor () {
    }

    method InvalidateEvaluation(ep: LiveEpisode, s: Script, validity: Validity, detail: Option<DetailCode>) returns (end: Ending)
      modifies ep
      ensures (ep.View(), end) == Invalidate(old(ep.View()), s, validity, detail)
    {
      ep.validity := validity;
      ep.detail := detail;
      ep.verdict := INCONCLUSIVE;
      ep.EmitEvent(Note([]));
      var error := ep.TransitionTo(INVALID, None);
      if error.Some? {
        return Escaped(error.value);
      }
      ep.EmitEvent(Note([]));
      var fault := FinalizeTelemetry(ep, s.telemetry, s.telemetry.lenient, false);
      end := if fault.Some? then Broke else Returned;
    }

    /** `_finalize_telemetry`: nothing without telemetry, and each artifact only once. */
    method FinalizeTelemetry(ep: LiveEpisode, t: Telemetry, f: Finalization, strict: bool) returns (fault: Option<StoreFault>)
      modifies ep`evidence
      ensures Finalize(ep.id, old(ep.evidence), t, f, strict) == if fault.Some? then Err(fault.value) else Ok(ep.evidence)
      ensures fault.Some? ==> ep.evidence == old(ep.evidence)
    {
      if !t.attached {
        return None;
      }
      if f.artifactFault.Some? {
        return f.artifactFault;
      }
      if TelemetryId(ep.id) in ep.evidence {
        return None;
      }
      if t.bridged && f.bridgeFault.Some? {
        return f.bridgeFault;
      }
      fault := Publishing(TelemetryId(ep.id), f.storeFault);
      if fault.None? {
        ep.evidence := ep.evidence + {TelemetryId(ep.id)};
      } else if !strict && !fault.value.OtherException? {
        fault := None;
      }
    }

    /** The loop of `_publish_oracle_evidence`. */
    method PublishOracleEvidence(ep: LiveEpisode, items: seq<Text>, faults: nat -> Option<StoreFault>) returns (r: Items)
      modifies ep`evidence
      ensures r == PublishItems(old(ep.evidence), items, faults) && ep.evidence == r.registry
    {
      for n := 0 to |items|
        invariant PublishItems(old(ep.evidence), items[..n], faults) == Published(ep.evidence)
      {
        assert items[..n + 1][..n] == items[..n];
        ItemsPrefix(old(ep.evidence), items, faults, n + 1);
        if items[n] in ep.evidence {
          return Rejected(ep.evidence);
        }
        var fault := Publishing(items[n], faults(n));
        if fault.Some? {
          return AfterItem(ep.evidence, items[n], fault);
        }
        ep.evidence := ep.evidence + {items[n]};
      }
      assert items[..|items|] == items;
      r := Published(ep.evidence);
    }

    method EmitAll(ep: LiveEpisode, results: seq<OracleResult>)
      modifies ep`events
      ensures ep.View() == EmitClaims(old(ep.View()), results)
    {
      for n := 0 to |results|
        invariant ep.View() == EmitClaims(old(ep.View()), results[..n])
      {
        assert results[..n + 1][..n] == results[..n];
        ep.EmitEvent(Note(results[n].claimId));
      }
      assert results[..|results|] == results;
    }

    method ConcludeVerification(ep: LiveEpisode, s: Script) returns (end: Ending)
      modifies ep
      ensures (ep.View(), end) == Conclude(old(ep.View()), s)
    {
      var fault := FinalizeTelemetry(ep, s.telemetry, s.telemetry.strict, true);
      if fault == Some(StoreError) {
        end := InvalidateEvaluation(ep, s, INFRA_CONFOUND, None);
        return;
      }
      if fault.Some? || (s.telemetry.bridged && s.telemetry.policyFails) {
        return Broke;
      }
      if s.telemetry.bridged && s.telemetry.required && (!s.telemetry.attached || s.telemetry.incomplete) {
        end := InvalidateEvaluation(ep, s, TRACE_INCOMPLETE, None);
        return;
      }
      var error := ep.TransitionTo(COMPLETED, None);
      if error.Some? {
        return Escaped(error.value);
      }
      ep.EmitEvent(Note([]));
      end := Returned;
    }

    method AcceptResults(ep: LiveEpisode, s: Script, results: seq<OracleResult>) returns (end: Ending)
      modifies ep
      ensures (ep.View(), end) == Accept(old(ep.View()), s, results)
    {
      ep.verification := CiteAll(results, ExecutionId(ep.id));
      if !(EvidenceIds(ep.verification) <= ep.evidence) {
        end := InvalidateEvaluation(ep, s, ORACLE_FAILURE, Some(DetailCode.ORACLE_PROTOCOL_ERROR));
        return;
      }
      EmitAll(ep, ep.verification);
      ep.verdict := VerdictOf(ep.verification);
      ep.validity := VALID;
      ep.detail := None;
      end := ConcludeVerification(ep, s);
    }

    method HandleExecution(ep: LiveEpisode, s: Script, x: Execution) returns (end: Ending)
      modifies ep
      ensures (ep.View(), end) == AfterExecution(old(ep.View()), s, x)
    {
      var fault := ExecutionFault(ep.id, s);
      if fault == Some(OtherException) {
        return Broke;
      }
      if fault.Some? {
        end := InvalidateEvaluation(ep, s, INFRA_CONFOUND, None);
        return;
      }
      ep.evidence := ep.evidence + {ExecutionId(ep.id)};
      ep.EmitEvent(ExecutionEnded(x.status == SUCCESS, s.executionDigest));
      if x.status != SUCCESS {
        end := InvalidateEvaluation(ep, s, ORACLE_FAILURE, Some(StatusDetail(x.status)));
        return;
      }
      var items := PublishOracleEvidence(ep, x.evidence, s.itemFaults);
      match items {
        case Rejected(_) => end := InvalidateEvaluation(ep, s, ORACLE_FAILURE, Some(DetailCode.ORACLE_PROTOCOL_ERROR));
        case StoreDown(_) => end := InvalidateEvaluation(ep, s, INFRA_CONFOUND, None);
        case Crashed(_) => end := Broke;
        case Published(_) => end := AcceptResults(ep, s, x.results);
      }
    }

    method VerifyEpisode(ep: LiveEpisode, s: Script) returns (end: Ending)
      modifies ep
      ensures (ep.View(), end) == Verify(old(ep.View()), s)
    {
      if ep.state != QUIESCING {
        return WrongState;
      }
      var error := ep.TransitionTo(VERIFYING, None);
      if error.Some? {
        return Escaped(error.value);
      }
      if !s.described {
        return Broke;
      }
      ep.EmitEvent(VerificationStarted(s.package.oracleId, s.package.version, s.package.digest));
      if s.build.Err? {
        end := InvalidateEvaluation(ep, s, ORACLE_FAILURE, Some(FaultDetail(s.build.error)));
        return;
      }
      ep.EmitEvent(ExecutionStarted(s.build.value));
      if s.run.Err? {
        end := InvalidateEvaluation(ep, s, ORACLE_FAILURE, Some(FaultDetail(s.run.error)));
        return;
      }
      end := HandleExecution(ep, s, s.run.value);
    }
  }

  lemma {:induction false} ItemsPrefix(registry: set<Text>, items: seq<Text>, faults: nat -> Option<StoreFault>, n: nat)
    requires n <= |items|
    ensures !PublishItems(registry, items[..n], faults).Published? ==>
      PublishItems(registry, items, faults) == PublishItems(registry, items[..n], faults)
    decreases |items|
  {
    if n == |items| {
      assert items[..n] == items;
    } else {
      assert items[..|items| - 1][..n] == items[..n];
      ItemsPrefix(registry, items[..|items| - 1], faults, n);
    }
  }
}
