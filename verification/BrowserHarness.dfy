/** The browser settlement ledger and the distrustful lifecycle harness
    (`BrowserSettlementLedger` and `BrowserConformanceHarness`,
    src/avp_ref/tck_adapter/browser_harness.py).

    The browser under test and the observer are arbitrary: whatever they answer, or whether
    they raise, is an input of each call, and so is every value read from the browser's
    handle attribute, which may change between two reads. */
module BrowserHarness {
  import opened Common
  import opened BrowserImage

  // The ledger.

  datatype Ledger = Ledger(open: bool, mutations: map<Text, bool>)

  datatype LedgerOp = Accept(tag: Text) | Close | MarkTerminal(tag: Text)

  datatype LedgerError = AdmissionClosed | BadLabel | NotUnresolved | StillOpen | Unresolved

  function LedgerStep(l: Ledger, op: LedgerOp): (Ledger, Option<LedgerError>) {
    match op
    case Accept(tag) =>
      if !l.open then (l, Some(AdmissionClosed))
      else if |tag| == 0 || tag in l.mutations then (l, Some(BadLabel))
      else (l.(mutations := l.mutations[tag := false]), None)
    case Close => (l.(open := false), None)
    case MarkTerminal(tag) =>
      if tag !in l.mutations || l.mutations[tag] then (l, Some(NotUnresolved))
      else (l.(mutations := l.mutations[tag := true]), None)
  }

  /** `require_positive_witness`: admission is closed and nothing accepted is unresolved. */
  function WitnessFailure(l: Ledger): Option<LedgerError> {
    if l.open then Some(StillOpen)
    else if exists tag :: tag in l.mutations && !l.mutations[tag] then Some(Unresolved)
    else None
  }

  function LedgerRun(l: Ledger, ops: seq<LedgerOp>): Ledger
    decreases |ops|
  {
    if |ops| == 0 then l else LedgerRun(LedgerStep(l, ops[0]).0, ops[1..])
  }

  /** A ledger that once gives a positive witness gives it after any further calls. */
  lemma {:induction false} WitnessIsForever(l: Ledger, ops: seq<LedgerOp>)
    requires WitnessFailure(l).None?
    ensures LedgerRun(l, ops) == l
    decreases |ops|
  {
    if |ops| != 0 {
      assert LedgerStep(l, ops[0]).0 == l;
      WitnessIsForever(l, ops[1..]);
    }
  }

  /** Which calls have succeeded so far: the history a ledger stands for. */
  ghost predicate Succeeded(l: Ledger, ops: seq<LedgerOp>, op: LedgerOp)
    decreases |ops|
  {
    |ops| != 0 && ((ops[0] == op && LedgerStep(l, op).1.None?) || Succeeded(LedgerStep(l, ops[0]).0, ops[1..], op))
  }

  /** Accepted work is exactly what was listed or successfully accepted; it is terminal exactly
      when it was, or was successfully marked; admission is closed exactly by a close. */
  lemma {:induction false} LedgerIsHistory(l: Ledger, ops: seq<LedgerOp>, tag: Text)
    ensures var n := LedgerRun(l, ops);
      && (tag in n.mutations <==> tag in l.mutations || Succeeded(l, ops, Accept(tag)))
      && (tag in n.mutations ==>
            (n.mutations[tag] <==> (tag in l.mutations && l.mutations[tag]) || Succeeded(l, ops, MarkTerminal(tag))))
      && (n.open <==> l.open && !Succeeded(l, ops, Close))
    decreases |ops|
  {
    if |ops| != 0 {
      LedgerIsHistory(LedgerStep(l, ops[0]).0, ops[1..], tag);
      NoRemark(LedgerStep(l, ops[0]).0, ops[1..], tag);
    }
  }

  /** Work not yet accepted cannot have been marked unless it is accepted along the way. */
  lemma {:induction false} NoRemark(l: Ledger, ops: seq<LedgerOp>, tag: Text)
    ensures Succeeded(l, ops, MarkTerminal(tag)) ==> tag in l.mutations || Succeeded(l, ops, Accept(tag))
    decreases |ops|
  {
    if |ops| != 0 {
      NoRemark(LedgerStep(l, ops[0]).0, ops[1..], tag);
    }
  }

  /** From a new ledger, a positive witness means: admission was closed, and every accepted
      mutation was marked terminal. */
  lemma {:induction false} WitnessMeansSettled(ops: seq<LedgerOp>)
    ensures WitnessFailure(LedgerRun(Ledger(true, map[]), ops)).None? <==>
      && Succeeded(Ledger(true, map[]), ops, Close)
      && forall tag :: Succeeded(Ledger(true, map[]), ops, Accept(tag)) ==>
           Succeeded(Ledger(true, map[]), ops, MarkTerminal(tag))
  {
    forall tag: Text
      ensures var n := LedgerRun(Ledger(true, map[]), ops);
        && (tag in n.mutations <==> Succeeded(Ledger(true, map[]), ops, Accept(tag)))
        && (tag in n.mutations ==> (n.mutations[tag] <==> Succeeded(Ledger(true, map[]), ops, MarkTerminal(tag))))
        && (n.open <==> !Succeeded(Ledger(true, map[]), ops, Close))
    {
      LedgerIsHistory(Ledger(true, map[]), ops, tag);
    }
    LedgerIsHistory(Ledger(true, map[]), ops, []);
  }

  class BrowserSettlementLedger {
    var admissionOpen: bool
    var mutations: map<Text, bool>

    function View(): Ledger
      reads this
    {
      Ledger(admissionOpen, mutations)
    }

    constructor ()
      ensures View() == Ledger(true, map[])
    {
      admissionOpen := true;
      mutations := map[];
    }

    method AcceptRelevantMutation(tag: Text) returns (error: Option<LedgerError>)
      modifies this
      ensures (View(), error) == LedgerStep(old(View()), Accept(tag))
    {
      if !admissionOpen {
        return Some(AdmissionClosed);
      }
      if |tag| == 0 || tag in mutations {
        return Some(BadLabel);
      }
      mutations := mutations[tag := false];
      error := None;
    }

    method CloseSubjectAdmission()
      modifies this
      ensures (View(), None) == LedgerStep(old(View()), Close)
    {
      admissionOpen := false;
    }

    method MarkTerminalLabel(tag: Text) returns (error: Option<LedgerError>)
      modifies this
      ensures (View(), error) == LedgerStep(old(View()), MarkTerminal(tag))
    {
      if tag !in mutations || mutations[tag] {
        return Some(NotUnresolved);
      }
      mutations := mutations[tag := true];
      error := None;
    }

    method RequirePositiveWitness() returns (error: Option<LedgerError>)
      ensures error == WitnessFailure(View())
    {
      if admissionOpen {
        return Some(StillOpen);
      }
      var unresolved := set tag | tag in mutations && !mutations[tag];
      if unresolved != {} {
        assert exists tag :: tag in unresolved;
        return Some(Unresolved);
      }
      assert forall tag :: tag in mutations && !mutations[tag] ==> tag in unresolved;
      error := None;
    }
  }

  // The harness.

  datatype Fixture = Fixture(manifest: Manifest, baseline: StateImage, baselineDigest: int)

  datatype Setup = Setup(verifier: Verifier, fixture: Fixture, imageDigest: StateImage -> int)

  datatype SnapshotRef = SnapshotRef(id: Text, handle: Text, stateDigest: int)

  /** One look through the observer: may the conditions hold, and what is projected (nothing
      when the projection raises). */
  datatype Observation = Observation(conditions: bool, raw: Option<StateImage>)

  datatype Look = Look(ledger: Ledger, observed: Observation)

  datatype Projection = Projection(data: StateImage, digest: int)

  datatype HarnessError =
    | Unsettled(reason: LedgerError) | ConditionsRefused | ObserverFailed | NotCanonical(why: ImageError)
    | SutFailed | NotOwned | DigestDiffers | IdReused | NotBaseline | Foreign | Unknown | BindingChanged
    | Ineligible | NotReprojected

  type Targets = map<Text, (Text, int)>

  datatype Call =
    | Snapshot(before: Look, reply: Option<SnapshotRef>, handle: Text)
    | Reset(before: Look, completed: bool, after: Look, handle: Text)
    | Restore(snapshot: SnapshotRef, handleFirst: Text, handleSecond: Text,
              before: Look, eligible: bool, completed: bool, after: Look)

  datatype Reply =
    | Verified(snapshot: SnapshotRef)
    | ResetTo(handle: Text, beforeDigest: int, afterDigest: int)
    | RestoredTo(id: Text, beforeDigest: int, afterDigest: int)
    | Refused(error: HarnessError)

  /** `authoritative_projection`. */
  function Project(s: Setup, look: Look): Result<Projection, HarnessError> {
    match WitnessFailure(look.ledger)
    case Some(reason) => Err(Unsettled(reason))
    case None =>
      if !look.observed.conditions then Err(ConditionsRefused)
      else
        match look.observed.raw
        case None => Err(ObserverFailed)
        case Some(raw) =>
          match CanonicalImage(s.verifier, s.fixture.manifest, raw)
          case Err(why) => Err(NotCanonical(why))
          case Ok(data) => Ok(Projection(data, s.imageDigest(data)))
  }

  function StepSnapshot(s: Setup, targets: Targets, before: Look, reply: Option<SnapshotRef>, handle: Text): (Targets, Reply) {
    match Project(s, before)
    case Err(e) => (targets, Refused(e))
    case Ok(observed) =>
      match reply
      case None => (targets, Refused(SutFailed))
      case Some(snapshot) =>
        if snapshot.handle != handle then (targets, Refused(NotOwned))
        else if snapshot.stateDigest != observed.digest then (targets, Refused(DigestDiffers))
        else if snapshot.id in targets && targets[snapshot.id] != (snapshot.handle, observed.digest) then
          (targets, Refused(IdReused))
        else (targets[snapshot.id := (snapshot.handle, observed.digest)], Verified(snapshot))
  }

  function ResetReply(s: Setup, before: Look, completed: bool, after: Look, handle: Text): Reply {
    match Project(s, before)
    case Err(e) => Refused(e)
    case Ok(was) =>
      if !completed then Refused(SutFailed)
      else
        match Project(s, after)
        case Err(e) => Refused(e)
        case Ok(now) =>
          if now.digest != s.fixture.baselineDigest then Refused(NotBaseline)
          else ResetTo(handle, was.digest, now.digest)
  }

  function RestoreReply(s: Setup, targets: Targets, c: Call): Reply
    requires c.Restore?
  {
    if c.snapshot.handle != c.handleFirst then Refused(Foreign)
    else if c.snapshot.id !in targets then Refused(Unknown)
    else if targets[c.snapshot.id].0 != c.handleSecond || targets[c.snapshot.id].1 != c.snapshot.stateDigest then
      Refused(BindingChanged)
    else
      match Project(s, c.before)
      case Err(e) => Refused(e)
      case Ok(was) =>
        if !c.eligible then Refused(Ineligible)
        else if !c.completed then Refused(SutFailed)
        else
          match Project(s, c.after)
          case Err(e) => Refused(e)
          case Ok(now) =>
            if now.digest != targets[c.snapshot.id].1 then Refused(NotReprojected)
            else RestoredTo(c.snapshot.id, was.digest, now.digest)
  }

  function Step(s: Setup, targets: Targets, c: Call): (Targets, Reply) {
    match c
    case Snapshot(before, reply, handle) => StepSnapshot(s, targets, before, reply, handle)
    case Reset(before, completed, after, handle) => (targets, ResetReply(s, before, completed, after, handle))
    case Restore(_, _, _, _, _, _, _) => (targets, RestoreReply(s, targets, c))
  }

  /** The recorded targets after a list of calls on a new harness. */
  function TargetsAfter(s: Setup, calls: seq<Call>): Targets {
    if |calls| == 0 then map[] else Step(s, TargetsAfter(s, calls[..|calls| - 1]), calls[|calls| - 1]).0
  }

  function ReplyAt(s: Setup, calls: seq<Call>, n: nat): Reply
    requires n < |calls|
  {
    Step(s, TargetsAfter(s, calls[..n]), calls[n]).1
  }

  /** Call `n` verified a snapshot with this id, of this handle and observed digest. */
  ghost predicate Recorded(s: Setup, calls: seq<Call>, n: nat, id: Text, handle: Text, digest: int) {
    && n < |calls| && calls[n].Snapshot? && calls[n].reply.Some? && calls[n].reply.value.id == id
    && ReplyAt(s, calls, n) == Verified(calls[n].reply.value)
    && calls[n].handle == handle
    && Project(s, calls[n].before).Ok? && Project(s, calls[n].before).value.digest == digest
  }

  lemma {:induction false} StepKeepsTarget(s: Setup, targets: Targets, c: Call, id: Text)
    requires id in targets
    ensures id in Step(s, targets, c).0 && Step(s, targets, c).0[id] == targets[id]
  {
  }

  /** No target changes once recorded. */
  lemma {:induction false} TargetsAreWriteOnce(s: Setup, calls: seq<Call>, n: nat, id: Text)
    requires n <= |calls| && id in TargetsAfter(s, calls[..n])
    ensures id in TargetsAfter(s, calls) && TargetsAfter(s, calls)[id] == TargetsAfter(s, calls[..n])[id]
    decreases |calls|
  {
    if n == |calls| {
      assert calls[..n] == calls;
    } else {
      assert calls[..|calls| - 1][..n] == calls[..n];
      TargetsAreWriteOnce(s, calls[..|calls| - 1], n, id);
      StepKeepsTarget(s, TargetsAfter(s, calls[..|calls| - 1]), calls[|calls| - 1], id);
    }
  }

  /** Every recorded target comes from a verified snapshot with that id. */
  lemma {:induction false} TargetWasVerified(s: Setup, calls: seq<Call>, id: Text) returns (n: nat)
    requires id in TargetsAfter(s, calls)
    ensures n < |calls| && id !in TargetsAfter(s, calls[..n])
    ensures Recorded(s, calls, n, id, TargetsAfter(s, calls)[id].0, TargetsAfter(s, calls)[id].1)
    decreases |calls|
  {
    var last := |calls| - 1;
    var front := calls[..last];
    if id in TargetsAfter(s, front) {
      n := TargetWasVerified(s, front, id);
      assert front[..n] == calls[..n];
      TargetsAreWriteOnce(s, calls, last, id);
    } else {
      n := last;
    }
  }

  /** Every verified snapshot with an id records the same handle and digest: the first one's. */
  lemma {:induction false} RecordsAgree(s: Setup, calls: seq<Call>, n: nat, id: Text, handle: Text, digest: int)
    requires Recorded(s, calls, n, id, handle, digest)
    ensures id in TargetsAfter(s, calls) && TargetsAfter(s, calls)[id] == (handle, digest)
  {
    assert calls[..n + 1][..n] == calls[..n];
    TargetsAreWriteOnce(s, calls, n + 1, id);
  }

  /** Against any browser and any observer: a successful restore ends in a projection whose
      digest is the one recorded when that snapshot id was first verified, for the same handle. */
  lemma {:induction false} RestoreReprojectsFirstSnapshot(s: Setup, calls: seq<Call>, n: nat) returns (first: nat)
    requires n < |calls| && ReplyAt(s, calls, n).RestoredTo?
    ensures var c := calls[n];
      && c.Restore? && first < n
      && Project(s, c.after).Ok? && Project(s, c.after).value.digest == ReplyAt(s, calls, n).afterDigest
      && Recorded(s, calls, first, c.snapshot.id, c.handleSecond, ReplyAt(s, calls, n).afterDigest)
      && c.snapshot.id !in TargetsAfter(s, calls[..first])
      && c.snapshot.stateDigest == ReplyAt(s, calls, n).afterDigest
  {
    var before := calls[..n];
    first := TargetWasVerified(s, before, calls[n].snapshot.id);
    assert before[..first] == calls[..first];
  }

  /** Every verification of the restored id ever made, before or after, was of the same handle
      and recorded the digest the restore ends in. */
  lemma {:induction false} RestoreAgreesWithEverySnapshot(s: Setup, calls: seq<Call>, n: nat, k: nat, handle: Text, digest: int)
    requires n < |calls| && ReplyAt(s, calls, n).RestoredTo? && calls[n].Restore?
    requires Recorded(s, calls, k, calls[n].snapshot.id, handle, digest)
    ensures handle == calls[n].handleSecond && digest == ReplyAt(s, calls, n).afterDigest
  {
    var first := RestoreReprojectsFirstSnapshot(s, calls, n);
    RecordsAgree(s, calls, first, calls[n].snapshot.id, calls[n].handleSecond, ReplyAt(s, calls, n).afterDigest);
    RecordsAgree(s, calls, k, calls[n].snapshot.id, handle, digest);
  }

  /** With a digest that distinguishes images, the restored browser holds what it held then:
      the same cookies, origins and entries, whatever order they were observed in. */
  lemma {:induction false} RestoredContentsAreTheSnapshots(s: Setup, calls: seq<Call>, n: nat)
    requires n < |calls| && ReplyAt(s, calls, n).RestoredTo?
    requires forall a, b :: s.imageDigest(a) == s.imageDigest(b) ==> a == b
    ensures calls[n].Restore? && calls[n].after.observed.raw.Some?
    ensures exists first ::
      0 <= first < n && VerifiedAs(calls[first], calls[n].snapshot.id)
      && SameContents(calls[n].after.observed.raw.value, calls[first].before.observed.raw.value)
  {
    var first := RestoreReprojectsFirstSnapshot(s, calls, n);
    assert VerifiedAs(calls[first], calls[n].snapshot.id);
    SameFormIffSameContents(s.verifier, s.fixture.manifest,
      calls[n].after.observed.raw.value, calls[first].before.observed.raw.value);
  }

  ghost predicate VerifiedAs(c: Call, id: Text) {
    c.Snapshot? && c.reply.Some? && c.reply.value.id == id && c.before.observed.raw.Some?
  }

  /** The fixture's baseline is canonical and its digest is the recorded one. */
  ghost predicate Materialized(s: Setup) {
    && CanonicalImage(s.verifier, s.fixture.manifest, s.fixture.baseline) == Ok(s.fixture.baseline)
    && s.fixture.baselineDigest == s.imageDigest(s.fixture.baseline)
  }

  /** A successful reset ends in a projection with the baseline digest, hence, with a digest
      that distinguishes images, with exactly the baseline contents. */
  lemma {:induction false} ResetReprojectsBaseline(s: Setup, targets: Targets, c: Call)
    requires c.Reset? && Materialized(s) && Step(s, targets, c).1.ResetTo?
    ensures Step(s, targets, c).1.afterDigest == s.fixture.baselineDigest && c.after.observed.raw.Some?
    ensures (forall a, b :: s.imageDigest(a) == s.imageDigest(b) ==> a == b) ==>
      SameContents(c.after.observed.raw.value, s.fixture.baseline)
  {
    if forall a, b :: s.imageDigest(a) == s.imageDigest(b) ==> a == b {
      SameFormIffSameContents(s.verifier, s.fixture.manifest, c.after.observed.raw.value, s.fixture.baseline);
    }
  }

  class BrowserConformanceHarness {
    const setup: Setup
    var targets: Targets

    constructor (setup: Setup)
      ensures this.setup == setup && targets == map[]
    {
      this.setup := setup;
      targets := map[];
    }

    method AuthoritativeProjection(ledger: BrowserSettlementLedger, observed: Observation)
      returns (r: Result<Projection, HarnessError>)
      ensures r == Project(setup, Look(ledger.View(), observed))
    {
      var failure := ledger.RequirePositiveWitness();
      if failure.Some? {
        return Err(Unsettled(failure.value));
      }
      if !observed.conditions {
        return Err(ConditionsRefused);
      }
      if observed.raw.None? {
        return Err(ObserverFailed);
      }
      var canonical := CanonicalizeStateImage(setup.verifier, setup.fixture.manifest, observed.raw.value);
      if canonical.Err? {
        return Err(NotCanonical(canonical.error));
      }
      r := Ok(Projection(canonical.value, setup.imageDigest(canonical.value)));
    }

    method VerifiedSnapshot(ledger: BrowserSettlementLedger, observed: Observation, reply: Option<SnapshotRef>, handle: Text)
      returns (r: Reply)
      modifies this
      ensures (targets, r) == Step(setup, old(targets), Snapshot(Look(old(ledger.View()), observed), reply, handle))
    {
      var projection := AuthoritativeProjection(ledger, observed);
      if projection.Err? {
        return Refused(projection.error);
      }
      if reply.None? {
        return Refused(SutFailed);
      }
      var snapshot := reply.value;
      if snapshot.handle != handle {
        return Refused(NotOwned);
      }
      if snapshot.stateDigest != projection.value.digest {
        return Refused(DigestDiffers);
      }
      var target := (snapshot.handle, projection.value.digest);
      if snapshot.id in targets && targets[snapshot.id] != target {
        return Refused(IdReused);
      }
      targets := targets[snapshot.id := target];
      r := Verified(snapshot);
    }

    method VerifiedReset(beforeLedger: BrowserSettlementLedger, before: Observation, completed: bool,
                         afterLedger: BrowserSettlementLedger, after: Observation, handle: Text)
      returns (r: Reply)
      ensures (targets, r) == Step(setup, targets,
        Reset(Look(beforeLedger.View(), before), completed, Look(afterLedger.View(), after), handle))
    {
      var was := AuthoritativeProjection(beforeLedger, before);
      if was.Err? {
        return Refused(was.error);
      }
      if !completed {
        return Refused(SutFailed);
      }
      var now := AuthoritativeProjection(afterLedger, after);
      if now.Err? {
        return Refused(now.error);
      }
      if now.value.digest != setup.fixture.baselineDigest {
        return Refused(NotBaseline);
      }
      r := ResetTo(handle, was.value.digest, now.value.digest);
    }

    method VerifiedRestore(snapshot: SnapshotRef, handleFirst: Text, handleSecond: Text,
                           beforeLedger: BrowserSettlementLedger, before: Observation, eligible: bool, completed: bool,
                           afterLedger: BrowserSettlementLedger, after: Observation)
      returns (r: Reply)
      ensures (targets, r) == Step(setup, targets,
        Restore(snapshot, handleFirst, handleSecond, Look(beforeLedger.View(), before), eligible, completed,
                Look(afterLedger.View(), after)))
    {
      if snapshot.handle != handleFirst {
        return Refused(Foreign);
      }
      if snapshot.id !in targets {
        return Refused(Unknown);
      }
      var (owner, digest) := targets[snapshot.id];
      if owner != handleSecond || digest != snapshot.stateDigest {
        return Refused(BindingChanged);
      }
      var was := AuthoritativeProjection(beforeLedger, before);
      if was.Err? {
        return Refused(was.error);
      }
      if !eligible {
        return Refused(Ineligible);
      }
      if !completed {
        return Refused(SutFailed);
      }
      var now := AuthoritativeProjection(afterLedger, after);
      if now.Err? {
        return Refused(now.error);
      }
      if now.value.digest != digest {
        return Refused(NotReprojected);
      }
      r := RestoredTo(snapshot.id, was.value.digest, now.value.digest);
    }
  }
}
