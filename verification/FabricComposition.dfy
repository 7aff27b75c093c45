/** Environment Fabric composition (src/avp_ref/fabric/runtime.py): several resources that can
    each fail, coordinated by a fabric that promises less than all-or-nothing. */
module FabricComposition {
  import opened Common

  type Name = Text

  datatype Operation = RESET | SNAPSHOT | RESTORE | RELEASE

  datatype Fidelity = NON_EQUIVALENT | STATE_EQUIVALENT | EXACT

  datatype Status = SUCCEEDED | FAILED | NOT_PARTICIPATING

  datatype Descriptor = Descriptor(id: Name, required: bool, capabilities: set<Name>)

  datatype Resource = Resource(
    descriptor: Descriptor, fidelity: Fidelity, fails: set<Operation>, broken: bool,
    released: bool, provisioned: bool, state: nat,
    provisionEffects: nat, subjectEffects: nat, operationEffects: nat)

  datatype ResourceResult = ResourceResult(id: Name, required: bool, status: Status, fidelity: Option<Fidelity>)

  datatype Requirement = Requirement(resourceId: Name, capability: Name, required: bool)

  datatype Fabric = Fabric(
    resources: seq<Resource>, requirements: seq<Requirement>, subjectCapabilities: set<Name>,
    ready: bool, released: bool, sequence: nat)

  datatype FabricError =
    NotLive | NotReady | ResourceReleased | NotProvisioned | RequiredOmitted | MissingFidelity
    | Incompatible | NotAuthorized | UnknownResource

  datatype OperationResult = OperationResult(sequence: nat, operation: Operation, status: Status,
                                             results: seq<ResourceResult>, fidelity: Option<Fidelity>)

  datatype Op =
    | Provision
    | SubjectCall(capability: Name)
    | ControlSnapshot(id: Name)
    | Composite(operation: Operation, omitted: set<Name>)
    | ReleaseFabric
    | Direct(index: nat, call: ResourceCall)

  /** What a caller can do with a resource the fabric exposes. */
  datatype ResourceCall = ProvisionIt | MutateIt | ReadIt | ExecuteIt(operation: Operation)

  datatype Reply =
    | Done | Value(value: nat) | Answered(one: ResourceResult) | Completed(result: OperationResult) | Raised(error: FabricError)

  function Rank(f: Fidelity): nat {
    match f case NON_EQUIVALENT => 0 case STATE_EQUIVALENT => 1 case EXACT => 2
  }

  // One resource.

  function Usable(r: Resource): Option<FabricError> {
    if r.released then Some(ResourceReleased) else if !r.provisioned then Some(NotProvisioned) else None
  }

  function ProvisionOne(r: Resource): (Resource, Option<FabricError>) {
    if r.released then (r, Some(ResourceReleased))
    else if r.provisioned then (r, None)
    else (r.(provisioned := true, provisionEffects := r.provisionEffects + 1), None)
  }

  function ResultOf(r: Resource, status: Status, fidelity: Option<Fidelity>): ResourceResult {
    ResourceResult(r.descriptor.id, r.descriptor.required, status, fidelity)
  }

  /** `release`: repeating it succeeds and does nothing. */
  function ReleaseOne(r: Resource): (Resource, ResourceResult) {
    if r.released then (r, ResultOf(r, SUCCEEDED, None))
    else if RELEASE in r.fails then (r, ResultOf(r, FAILED, None))
    else (r.(released := true, provisioned := false, operationEffects := r.operationEffects + 1), ResultOf(r, SUCCEEDED, None))
  }

  /** `execute`. */
  function ExecuteOne(r: Resource, op: Operation): (Resource, Result<ResourceResult, FabricError>) {
    if op == RELEASE then (ReleaseOne(r).0, Ok(ReleaseOne(r).1))
    else if Usable(r).Some? then (r, Err(Usable(r).value))
    else if op in r.fails then (r, Ok(ResultOf(r, FAILED, if op == RESTORE then Some(NON_EQUIVALENT) else None)))
    else
      (r.(operationEffects := r.operationEffects + 1, state := if op == RESET then 0 else r.state),
       Ok(ResultOf(r, SUCCEEDED, if op == RESTORE then Some(r.fidelity) else None)))
  }

  /** `snapshot` of one resource: its state, unless its snapshots are broken. */
  function Reading(r: Resource): nat {
    if r.broken then r.state + 1 else r.state
  }

  function CallOne(r: Resource, call: ResourceCall): (Resource, Reply) {
    match call
    case ProvisionIt => (ProvisionOne(r).0, if ProvisionOne(r).1.Some? then Raised(ProvisionOne(r).1.value) else Done)
    case MutateIt =>
      if Usable(r).Some? then (r, Raised(Usable(r).value))
      else (r.(state := r.state + 1, subjectEffects := r.subjectEffects + 1), Done)
    case ReadIt => (r, if Usable(r).Some? then Raised(Usable(r).value) else Value(Reading(r)))
    case ExecuteIt(operation) =>
      (ExecuteOne(r, operation).0,
       match ExecuteOne(r, operation).1 case Ok(one) => Answered(one) case Err(e) => Raised(e))
  }

  // The fabric.

  function Find(rs: seq<Resource>, id: Name): Option<Resource> {
    if |rs| == 0 then None else if rs[0].descriptor.id == id then Some(rs[0]) else Find(rs[1..], id)
  }

  predicate Compatible(f: Fabric) {
    forall i :: 0 <= i < |f.requirements| && f.requirements[i].required ==>
      var found := Find(f.resources, f.requirements[i].resourceId);
      found.Some? && f.requirements[i].capability in found.value.descriptor.capabilities
  }

  /** Resources are provisioned in order; one that refuses stops the rest. */
  function ProvisionAll(rs: seq<Resource>): (seq<Resource>, Option<FabricError>) {
    if |rs| == 0 then (rs, None)
    else
      var (front, error) := ProvisionAll(rs[..|rs| - 1]);
      var last := rs[|rs| - 1];
      if error.Some? then (front + [last], error)
      else (front + [ProvisionOne(last).0], ProvisionOne(last).1)
  }

  function Participate(r: Resource, op: Operation, omitted: set<Name>): (Resource, Result<ResourceResult, FabricError>) {
    if r.descriptor.id in omitted then
      (r, if r.descriptor.required then Err(RequiredOmitted) else Ok(ResultOf(r, NOT_PARTICIPATING, None)))
    else ExecuteOne(r, op)
  }

  /** The loop of `execute_composite`: an exception leaves earlier resources as they became. */
  function CompositeAll(rs: seq<Resource>, op: Operation, omitted: set<Name>): (seq<Resource>, Result<seq<ResourceResult>, FabricError>) {
    if |rs| == 0 then (rs, Ok([]))
    else
      var (front, done) := CompositeAll(rs[..|rs| - 1], op, omitted);
      var last := rs[|rs| - 1];
      match done
      case Err(e) => (front + [last], Err(e))
      case Ok(results) =>
        var (r, result) := Participate(last, op, omitted);
        match result
        case Err(e) => (front + [r], Err(e))
        case Ok(one) => (front + [r], Ok(results + [one]))
  }

  predicate RequiredFailed(results: seq<ResourceResult>) {
    exists i :: 0 <= i < |results| && results[i].required && results[i].status != SUCCEEDED
  }

  /** `min` over the REQUIRED results, first of the least. */
  function LeastFidelity(results: seq<ResourceResult>): Option<Fidelity> {
    if |results| == 0 then None
    else
      var front, last := LeastFidelity(results[..|results| - 1]), results[|results| - 1];
      if !last.required || last.fidelity.None? then front
      else if front.None? || Rank(last.fidelity.value) < Rank(front.value) then last.fidelity
      else front
  }

  function Aggregate(op: Operation, results: seq<ResourceResult>): Result<Option<Fidelity>, FabricError> {
    if op != RESTORE then Ok(None)
    else if RequiredFailed(results) then Ok(Some(NON_EQUIVALENT))
    else if LeastFidelity(results).None? then Err(MissingFidelity)
    else Ok(LeastFidelity(results))
  }

  function StepComposite(f: Fabric, op: Operation, omitted: set<Name>): (Fabric, Reply) {
    var (resources, done) := CompositeAll(f.resources, op, omitted);
    var moved := f.(resources := resources);
    match done
    case Err(e) => (moved, Raised(e))
    case Ok(results) =>
      match Aggregate(op, results)
      case Err(e) => (moved, Raised(e))
      case Ok(fidelity) =>
        (moved.(sequence := f.sequence + 1),
         Completed(OperationResult(f.sequence + 1, op, if RequiredFailed(results) then FAILED else SUCCEEDED, results, fidelity)))
  }

  function ReleaseAll(rs: seq<Resource>): (seq<Resource>, seq<ResourceResult>) {
    if |rs| == 0 then (rs, [])
    else
      var (front, results) := ReleaseAll(rs[..|rs| - 1]);
      var (r, one) := ReleaseOne(rs[|rs| - 1]);
      (front + [r], results + [one])
  }

  function Succeeded(rs: seq<Resource>): (results: seq<ResourceResult>)
    ensures |results| == |rs|
  {
    seq(|rs|, i requires 0 <= i < |rs| => ResultOf(rs[i], SUCCEEDED, None))
  }

  function StepRelease(f: Fabric): (Fabric, Reply) {
    var counted := f.(sequence := f.sequence + 1);
    if f.released then
      (counted, Completed(OperationResult(counted.sequence, RELEASE, SUCCEEDED, Succeeded(f.resources), None)))
    else
      var (resources, results) := ReleaseAll(f.resources);
      var failed := RequiredFailed(results);
      var moved := counted.(resources := resources);
      (if failed then moved else moved.(ready := false, released := true),
       Completed(OperationResult(counted.sequence, RELEASE, if failed then FAILED else SUCCEEDED, results, None)))
  }

  function StepProvision(f: Fabric): (Fabric, Reply) {
    if f.released then (f, Raised(NotLive))
    else if !Compatible(f) then (f, Raised(Incompatible))
    else
      var (resources, error) := ProvisionAll(f.resources);
      var moved := f.(resources := resources);
      if error.Some? then (moved, Raised(error.value)) else (moved.(ready := true), Done)
  }

  function Readiness(f: Fabric): Option<FabricError> {
    if f.released then Some(NotLive) else if !f.ready then Some(NotReady) else None
  }

  function StepControl(f: Fabric, id: Name): (Fabric, Reply) {
    match Find(f.resources, id)
    case None => (f, Raised(UnknownResource))
    case Some(r) =>
      if Usable(r).Some? then (f, Raised(Usable(r).value))
      else (f, Value(Reading(r)))
  }

  /** `fabric.resources[index]`, used directly. */
  function StepDirect(f: Fabric, index: nat, call: ResourceCall): (Fabric, Reply) {
    if index >= |f.resources| then (f, Raised(UnknownResource))
    else
      var (r, reply) := CallOne(f.resources[index], call);
      (f.(resources := f.resources[index := r]), reply)
  }

  function Step(f: Fabric, op: Op): (Fabric, Reply) {
    match op
    case Provision => StepProvision(f)
    case ReleaseFabric => StepRelease(f)
    case Direct(index, call) => StepDirect(f, index, call)
    case SubjectCall(capability) =>
      if Readiness(f).Some? then (f, Raised(Readiness(f).value))
      else if capability !in f.subjectCapabilities then (f, Raised(NotAuthorized))
      else (f, Done)
    case ControlSnapshot(id) => if Readiness(f).Some? then (f, Raised(Readiness(f).value)) else StepControl(f, id)
    case Composite(operation, omitted) =>
      if Readiness(f).Some? then (f, Raised(Readiness(f).value)) else StepComposite(f, operation, omitted)
  }

  function Run(f: Fabric, ops: seq<Op>): Fabric
    decreases |ops|
  {
    if |ops| == 0 then f else Run(Step(f, ops[0]).0, ops[1..])
  }

  // What steps do to resources.

  /** A resource only develops: its description is fixed, a released one is frozen, and it
      becomes released at most by its own release, which its fault control can prevent. */
  ghost predicate Develops(r: Resource, n: Resource) {
    && n.descriptor == r.descriptor && n.fidelity == r.fidelity && n.fails == r.fails && n.broken == r.broken
    && (r.released ==> n == r)
    && (n.released && !r.released ==> RELEASE !in r.fails && n.operationEffects == r.operationEffects + 1)
  }

  ghost predicate AllDevelop(rs: seq<Resource>, ns: seq<Resource>) {
    |ns| == |rs| && forall i :: 0 <= i < |rs| ==> Develops(rs[i], ns[i])
  }

  lemma {:induction false} ProvisionDevelops(rs: seq<Resource>)
    ensures AllDevelop(rs, ProvisionAll(rs).0)
  {
    if |rs| != 0 {
      ProvisionDevelops(rs[..|rs| - 1]);
    }
  }

  lemma {:induction false} CompositeDevelops(rs: seq<Resource>, op: Operation, omitted: set<Name>)
    ensures AllDevelop(rs, CompositeAll(rs, op, omitted).0)
  {
    if |rs| != 0 {
      CompositeDevelops(rs[..|rs| - 1], op, omitted);
    }
  }

  lemma {:induction false} ReleaseDevelops(rs: seq<Resource>)
    ensures AllDevelop(rs, ReleaseAll(rs).0)
    ensures |ReleaseAll(rs).1| == |rs|
    ensures forall i :: 0 <= i < |rs| ==>
      ReleaseAll(rs).0[i] == ReleaseOne(rs[i]).0 && ReleaseAll(rs).1[i] == ReleaseOne(rs[i]).1
  {
    if |rs| != 0 {
      ReleaseDevelops(rs[..|rs| - 1]);
    }
  }

  lemma {:induction false} CallDevelops(r: Resource, call: ResourceCall)
    ensures Develops(r, CallOne(r, call).0)
  {
  }

  lemma {:induction false} DirectDevelops(f: Fabric, index: nat, call: ResourceCall)
    ensures AllDevelop(f.resources, StepDirect(f, index, call).0.resources)
  {
    if index < |f.resources| {
      CallDevelops(f.resources[index], call);
    }
  }

  lemma {:induction false} SelfDevelops(f: Fabric)
    ensures AllDevelop(f.resources, f.resources)
  {
  }

  lemma {:induction false} StepResources(f: Fabric, op: Op)
    ensures Step(f, op).0.resources == (match op
      case Provision => if f.released || !Compatible(f) then f.resources else ProvisionAll(f.resources).0
      case ReleaseFabric => if f.released then f.resources else ReleaseAll(f.resources).0
      case Composite(operation, omitted) =>
        if Readiness(f).Some? then f.resources else CompositeAll(f.resources, operation, omitted).0
      case Direct(index, call) => StepDirect(f, index, call).0.resources
      case _ => f.resources)
  {
  }

  lemma {:induction false} StepDevelops(f: Fabric, op: Op)
    ensures AllDevelop(f.resources, Step(f, op).0.resources)
  {
    StepResources(f, op);
    SelfDevelops(f);
    match op {
      case Provision => ProvisionDevelops(f.resources);
      case ReleaseFabric => ReleaseDevelops(f.resources);
      case Direct(index, call) => DirectDevelops(f, index, call);
      case Composite(operation, omitted) => CompositeDevelops(f.resources, operation, omitted);
      case _ =>
    }
  }

  lemma {:induction false} ReleasedExactlyIf(f: Fabric)
    ensures var (n, reply) := StepRelease(f);
      reply.Completed? && n.sequence == f.sequence + 1 && reply.result.sequence == n.sequence
      && (!f.released ==>
            && (reply.result.status == SUCCEEDED <==>
                  forall i :: 0 <= i < |f.resources| && f.resources[i].descriptor.required ==>
                    f.resources[i].released || RELEASE !in f.resources[i].fails)
            && (n.released <==> reply.result.status == SUCCEEDED)
            && (n.released ==> AllRequiredReleased(n.resources)))
  {
    ReleaseDevelops(f.resources);
    var results := ReleaseAll(f.resources).1;
    if RequiredFailed(results) {
      var i :| 0 <= i < |results| && results[i].required && results[i].status != SUCCEEDED;
      assert ReleaseOne(f.resources[i]).1 == results[i];
    } else {
      forall i | 0 <= i < |f.resources| && f.resources[i].descriptor.required
        ensures f.resources[i].released || RELEASE !in f.resources[i].fails
      {
        assert results[i].required;
      }
    }
  }

  ghost predicate AllRequiredReleased(rs: seq<Resource>) {
    forall i :: 0 <= i < |rs| && rs[i].descriptor.required ==> rs[i].released
  }

  // Runs.

  /** A released fabric has every REQUIRED resource released. */
  ghost predicate Inv(f: Fabric) {
    f.released ==> AllRequiredReleased(f.resources) && !f.ready
  }

  lemma {:induction false} StepKeepsInv(f: Fabric, op: Op)
    requires Inv(f)
    ensures Inv(Step(f, op).0) && (f.released ==> Step(f, op).0.released) && Step(f, op).0.sequence >= f.sequence
    ensures Step(f, op).1.Completed? ==>
      Step(f, op).1.result.sequence == Step(f, op).0.sequence && Step(f, op).0.sequence == f.sequence + 1
  {
    StepDevelops(f, op);
    ReleasedExactlyIf(f);
  }

  ghost predicate Frozen(r: Resource, n: Resource) {
    && n.descriptor == r.descriptor && n.fails == r.fails
    && (r.released ==> n == r) && (n.released && !r.released ==> RELEASE !in r.fails)
  }

  /** On every run: a released resource never changes again, so its release takes effect at most
      once; a resource whose release fails is never released; a released fabric stays released
      with every REQUIRED resource released; and operation numbers never go back. */
  lemma {:induction false} RunKeepsReleased(f: Fabric, ops: seq<Op>)
    requires Inv(f)
    ensures var n := Run(f, ops);
      && Inv(n) && (f.released ==> n.released) && n.sequence >= f.sequence && |n.resources| == |f.resources|
      && forall i :: 0 <= i < |f.resources| ==> Frozen(f.resources[i], n.resources[i])
    decreases |ops|
  {
    if |ops| != 0 {
      StepKeepsInv(f, ops[0]);
      StepDevelops(f, ops[0]);
      RunKeepsReleased(Step(f, ops[0]).0, ops[1..]);
      forall i | 0 <= i < |f.resources| ensures Frozen(f.resources[i], Run(f, ops).resources[i]) {
        assert Develops(f.resources[i], Step(f, ops[0]).0.resources[i]);
        assert Frozen(Step(f, ops[0]).0.resources[i], Run(f, ops).resources[i]);
      }
    }
  }

  /** Every completed operation has a number above all earlier ones. */
  lemma {:induction false} OperationNumbersIncrease(f: Fabric, ops: seq<Op>, op: Op)
    requires Inv(f) && Step(Run(f, ops), op).1.Completed?
    ensures Step(Run(f, ops), op).1.result.sequence > f.sequence
  {
    RunKeepsReleased(f, ops);
    StepKeepsInv(Run(f, ops), op);
  }

  /** A REQUIRED resource whose release fails keeps the fabric unreleased on every run. */
  lemma {:induction false} StuckResourceKeepsFabric(f: Fabric, ops: seq<Op>, i: nat)
    requires Inv(f) && i < |f.resources| && f.resources[i].descriptor.required
    requires !f.resources[i].released && RELEASE in f.resources[i].fails
    ensures !Run(f, ops).released
  {
    RunKeepsReleased(f, ops);
    assert Frozen(f.resources[i], Run(f, ops).resources[i]);
  }

  lemma {:induction false} FindByDescriptor(rs: seq<Resource>, ns: seq<Resource>, id: Name)
    requires AllDevelop(rs, ns)
    ensures Find(rs, id).Some? <==> Find(ns, id).Some?
    ensures Find(rs, id).Some? ==> Find(ns, id).value.descriptor == Find(rs, id).value.descriptor
  {
    if |rs| != 0 {
      assert Develops(rs[0], ns[0]);
      assert forall i :: 0 <= i < |rs[1..]| ==> Develops(rs[1..][i], ns[1..][i]);
      FindByDescriptor(rs[1..], ns[1..], id);
    }
  }

  lemma {:induction false} CompatibilityIsFixed(f: Fabric, op: Op)
    ensures Step(f, op).0.requirements == f.requirements
    ensures Compatible(Step(f, op).0) <==> Compatible(f)
  {
    StepDevelops(f, op);
    var n := Step(f, op).0;
    assert n.requirements == f.requirements;
    forall i | 0 <= i < |f.requirements|
      ensures Find(f.resources, f.requirements[i].resourceId).Some? <==> Find(n.resources, f.requirements[i].resourceId).Some?
      ensures Find(f.resources, f.requirements[i].resourceId).Some? ==>
        Find(n.resources, f.requirements[i].resourceId).value.descriptor == Find(f.resources, f.requirements[i].resourceId).value.descriptor
    {
      FindByDescriptor(f.resources, n.resources, f.requirements[i].resourceId);
    }
  }

  /** Untouched but for its own release: as it was, or released from that. */
  ghost predicate AtMostReleased(r: Resource, n: Resource) {
    n == r || n == ReleaseOne(r).0
  }

  lemma {:induction false} IncompatibleStep(f: Fabric, op: Op)
    requires !Compatible(f) && !f.ready
    ensures var n := Step(f, op).0;
      && !n.ready && |n.resources| == |f.resources|
      && forall i :: 0 <= i < |f.resources| && !(op.Direct? && op.index == i) ==>
           AtMostReleased(f.resources[i], n.resources[i])
  {
    ReleaseDevelops(f.resources);
  }

  /** A fabric whose required capabilities are not all there never becomes ready, on any run; and
      a resource that no caller uses directly is never provisioned or operated on, only
      released. */
  lemma {:induction false} IncompatibleNeverReady(f: Fabric, ops: seq<Op>)
    requires !Compatible(f) && !f.ready
    ensures !Run(f, ops).ready && |Run(f, ops).resources| == |f.resources|
    ensures forall i :: 0 <= i < |f.resources| && (forall k :: 0 <= k < |ops| ==> !(ops[k].Direct? && ops[k].index == i)) ==>
      AtMostReleased(f.resources[i], Run(f, ops).resources[i])
    decreases |ops|
  {
    if |ops| != 0 {
      var n := Step(f, ops[0]).0;
      IncompatibleStep(f, ops[0]);
      CompatibilityIsFixed(f, ops[0]);
      IncompatibleNeverReady(n, ops[1..]);
      forall i | 0 <= i < |f.resources| && (forall k :: 0 <= k < |ops| ==> !(ops[k].Direct? && ops[k].index == i))
        ensures AtMostReleased(f.resources[i], Run(f, ops).resources[i])
      {
        assert forall k :: 0 <= k < |ops[1..]| ==> ops[1..][k] == ops[k + 1];
        assert AtMostReleased(f.resources[i], n.resources[i]) && AtMostReleased(n.resources[i], Run(n, ops[1..]).resources[i]);
      }
    }
  }

  // Restore fidelity.

  lemma {:induction false} LeastIsMinimum(results: seq<ResourceResult>)
    ensures LeastFidelity(results).None? <==> forall i :: 0 <= i < |results| && results[i].required ==> results[i].fidelity.None?
    ensures LeastFidelity(results).Some? ==>
      && (exists i :: 0 <= i < |results| && results[i].required && results[i].fidelity == LeastFidelity(results))
      && (forall i :: 0 <= i < |results| && results[i].required && results[i].fidelity.Some? ==>
            Rank(LeastFidelity(results).value) <= Rank(results[i].fidelity.value))
  {
    if |results| != 0 {
      var front := results[..|results| - 1];
      LeastIsMinimum(front);
      if LeastFidelity(front).Some? {
        var i :| 0 <= i < |front| && front[i].required && front[i].fidelity == LeastFidelity(front);
        assert results[i] == front[i];
      }
      assert forall i :: 0 <= i < |front| ==> front[i] == results[i];
    }
  }

  lemma {:induction false} CompositeResults(rs: seq<Resource>, op: Operation, omitted: set<Name>)
    requires CompositeAll(rs, op, omitted).1.Ok?
    ensures var (ns, done) := CompositeAll(rs, op, omitted);
      |done.value| == |rs| == |ns| && forall i :: 0 <= i < |rs| ==> Participate(rs[i], op, omitted) == (ns[i], Ok(done.value[i]))
  {
    if |rs| != 0 {
      CompositeResults(rs[..|rs| - 1], op, omitted);
    }
  }

  lemma {:induction false} RestoreResult(r: Resource, omitted: set<Name>)
    requires Participate(r, RESTORE, omitted).1.Ok?
    ensures var result := Participate(r, RESTORE, omitted).1.value;
      && result.required == r.descriptor.required
      && (result.required && result.status == SUCCEEDED ==> result.fidelity == Some(r.fidelity))
      && (result.required ==> result.fidelity.Some?)
  {
  }

  /** A successful restore reports the exact minimum of what the REQUIRED resources can do: no
      more than any of them, and as much as one of them. */
  lemma {:induction false} RestoreReportsMinimum(f: Fabric, omitted: set<Name>)
    requires Step(f, Composite(RESTORE, omitted)).1.Completed?
    requires Step(f, Composite(RESTORE, omitted)).1.result.status == SUCCEEDED
    ensures var fidelity := Step(f, Composite(RESTORE, omitted)).1.result.fidelity;
      && fidelity.Some?
      && (forall i :: 0 <= i < |f.resources| && f.resources[i].descriptor.required ==>
            Rank(fidelity.value) <= Rank(f.resources[i].fidelity))
      && (exists i :: 0 <= i < |f.resources| && f.resources[i].descriptor.required && f.resources[i].fidelity == fidelity.value)
  {
    CompositeResults(f.resources, RESTORE, omitted);
    var results := CompositeAll(f.resources, RESTORE, omitted).1.value;
    LeastIsMinimum(results);
    assert !RequiredFailed(results);
    forall i | 0 <= i < |f.resources|
      ensures results[i].required == f.resources[i].descriptor.required
      ensures results[i].required ==> results[i].fidelity == Some(f.resources[i].fidelity)
    {
      RestoreResult(f.resources[i], omitted);
    }
  }

  // What the fabric does not promise.

  /** Why one resource makes a composite operation raise. */
  predicate Blocks(r: Resource, op: Operation, omitted: set<Name>) {
    if r.descriptor.id in omitted then r.descriptor.required else op != RELEASE && Usable(r).Some?
  }

  lemma {:induction false} CompositeOkExactly(rs: seq<Resource>, op: Operation, omitted: set<Name>)
    ensures CompositeAll(rs, op, omitted).1.Ok? <==> forall i :: 0 <= i < |rs| ==> !Blocks(rs[i], op, omitted)
  {
    if |rs| != 0 {
      CompositeOkExactly(rs[..|rs| - 1], op, omitted);
      assert forall i :: 0 <= i < |rs| - 1 ==> rs[..|rs| - 1][i] == rs[i];
    }
  }

  lemma {:induction false} AggregateRaises(results: seq<ResourceResult>)
    requires forall i :: 0 <= i < |results| && results[i].required ==> results[i].fidelity.Some?
    ensures Aggregate(RESTORE, results).Err? <==> forall i :: 0 <= i < |results| ==> !results[i].required
  {
    LeastIsMinimum(results);
  }

  lemma {:induction false} AggregateOkExactly(rs: seq<Resource>, op: Operation, omitted: set<Name>)
    requires CompositeAll(rs, op, omitted).1.Ok?
    ensures Aggregate(op, CompositeAll(rs, op, omitted).1.value).Err? <==>
      op == RESTORE && forall i :: 0 <= i < |rs| ==> !rs[i].descriptor.required
  {
    if op == RESTORE {
      CompositeResults(rs, op, omitted);
      var results := CompositeAll(rs, op, omitted).1.value;
      forall i | 0 <= i < |rs|
        ensures results[i].required == rs[i].descriptor.required
        ensures results[i].required ==> results[i].fidelity.Some?
      {
        RestoreResult(rs[i], omitted);
      }
      AggregateRaises(results);
    }
  }

  /** A composite operation of a ready fabric raises exactly when a REQUIRED resource is left
      out, an addressed one is not usable, or a restore has no REQUIRED resource at all; it
      then counts as no operation. */
  lemma {:induction false} CompositeRaisesExactly(f: Fabric, op: Operation, omitted: set<Name>)
    requires Readiness(f).None?
    ensures Step(f, Composite(op, omitted)).1.Raised? <==>
      || (exists i :: 0 <= i < |f.resources| && Blocks(f.resources[i], op, omitted))
      || (op == RESTORE && forall i :: 0 <= i < |f.resources| ==> !f.resources[i].descriptor.required)
    ensures Step(f, Composite(op, omitted)).1.Raised? ==> Step(f, Composite(op, omitted)).0.sequence == f.sequence
  {
    CompositeOkExactly(f.resources, op, omitted);
    if CompositeAll(f.resources, op, omitted).1.Ok? {
      AggregateOkExactly(f.resources, op, omitted);
    }
  }

  /** A composite RELEASE releases the resources but not the fabric: it stays ready, Subject
      calls are still accepted, and no resource can be used. */
  lemma {:induction false} ReadyDoesNotMeanUsable(f: Fabric, capability: Name, id: Name)
    requires Readiness(f).None? && capability in f.subjectCapabilities
    requires forall i :: 0 <= i < |f.resources| ==> RELEASE !in f.resources[i].fails
    ensures var n := Step(f, Composite(RELEASE, {})).0;
      && n.ready && !n.released && (forall i :: 0 <= i < |n.resources| ==> n.resources[i].released)
      && Step(n, SubjectCall(capability)).1 == Done && Step(n, ControlSnapshot(id)).1.Raised?
  {
    CompositeOkExactly(f.resources, RELEASE, {});
    CompositeResults(f.resources, RELEASE, {});
    var n := Step(f, Composite(RELEASE, {})).0;
    forall i | 0 <= i < |n.resources| ensures n.resources[i].released {
      assert Participate(f.resources[i], RELEASE, {}).0 == n.resources[i];
    }
    FindIsMember(n.resources, id);
  }

  /** `release()` with a REQUIRED resource that fails: the others that can be are released, and
      the fabric stays ready, so a second call can try again. */
  lemma {:induction false} FailedReleaseLeavesReady(f: Fabric, i: nat)
    requires Readiness(f).None? && i < |f.resources| && f.resources[i].descriptor.required
    requires !f.resources[i].released && RELEASE in f.resources[i].fails
    ensures var n := Step(f, ReleaseFabric).0;
      && Readiness(n).None? && |n.resources| == |f.resources| && n.resources[i] == f.resources[i]
      && forall j :: 0 <= j < |n.resources| && RELEASE !in n.resources[j].fails ==> Usable(n.resources[j]).Some?
  {
    ReleasedExactlyIf(f);
    ReleaseDevelops(f.resources);
  }

  /** A direct release of one resource does not reach the fabric either. */
  lemma {:induction false} DirectReleaseLeavesReady(f: Fabric, i: nat)
    requires Readiness(f).None? && i < |f.resources| && RELEASE !in f.resources[i].fails
    ensures var n := Step(f, Direct(i, ExecuteIt(RELEASE))).0;
      Readiness(n).None? && |n.resources| == |f.resources| && Usable(n.resources[i]).Some?
  {
  }

  // When ready means usable.

  /** No resource before the i-th stops a composite operation. */
  predicate LoopReaches(rs: seq<Resource>, op: Operation, omitted: set<Name>, i: nat)
    requires i <= |rs|
  {
    forall j :: 0 <= j < i ==> !Blocks(rs[j], op, omitted)
  }

  /** What a composite operation does to each resource, whether or not it raises: those the loop
      reaches take part, the others stay as they were. */
  lemma {:induction false} CompositeReaches(rs: seq<Resource>, op: Operation, omitted: set<Name>, i: nat)
    requires i < |rs|
    ensures |CompositeAll(rs, op, omitted).0| == |rs|
    ensures CompositeAll(rs, op, omitted).0[i] == if LoopReaches(rs, op, omitted, i) then Participate(rs[i], op, omitted).0 else rs[i]
  {
    CompositeDevelops(rs, op, omitted);
    var front := rs[..|rs| - 1];
    assert forall j :: 0 <= j < |front| ==> front[j] == rs[j];
    CompositeOkExactly(front, op, omitted);
    if i < |front| {
      CompositeReaches(front, op, omitted, i);
    }
    CompositeDevelops(front, op, omitted);
  }

  /** A composite operation that raises has not undone what it did: a usable resource before the
      one that stops it keeps the effect. */
  lemma {:induction false} CompositeRaisesMidway(f: Fabric, op: Operation, omitted: set<Name>, j: nat, i: nat)
    requires Readiness(f).None? && j < i < |f.resources| && op != RELEASE
    requires Blocks(f.resources[i], op, omitted) && LoopReaches(f.resources, op, omitted, j)
    requires Usable(f.resources[j]).None? && f.resources[j].descriptor.id !in omitted && op !in f.resources[j].fails
    ensures Step(f, Composite(op, omitted)).1.Raised?
    ensures |Step(f, Composite(op, omitted)).0.resources| == |f.resources|
    ensures Step(f, Composite(op, omitted)).0.resources[j].operationEffects == f.resources[j].operationEffects + 1
  {
    CompositeRaisesExactly(f, op, omitted);
    CompositeReaches(f.resources, op, omitted, j);
  }

  /** This call asks the i-th resource to release: a direct call, a release of the fabric, or a
      composite RELEASE that addresses the resource and is not stopped before it. */
  predicate AsksRelease(f: Fabric, op: Op, i: nat)
    requires i < |f.resources|
  {
    match op
    case ReleaseFabric => !f.released
    case Direct(index, call) => index == i && call == ExecuteIt(RELEASE)
    case Composite(operation, omitted) =>
      && operation == RELEASE && Readiness(f).None?
      && f.resources[i].descriptor.id !in omitted && LoopReaches(f.resources, RELEASE, omitted, i)
    case _ => false
  }

  /** Some call of the run asks the i-th resource to release. */
  ghost predicate RunAsksRelease(f: Fabric, ops: seq<Op>, i: nat)
    requires i < |f.resources|
    decreases |ops|
  {
    |ops| != 0 &&
    (AsksRelease(f, ops[0], i) ||
     (StepDevelops(f, ops[0]); RunAsksRelease(Step(f, ops[0]).0, ops[1..], i)))
  }

  lemma {:induction false} OthersReleaseNothing(r: Resource, op: Operation, omitted: set<Name>)
    requires op != RELEASE
    ensures Participate(r, op, omitted).0.released == r.released && Participate(r, op, omitted).0.provisioned == r.provisioned
  {
  }

  /** Provisioning releases nothing; when it ends without an error, everything is provisioned. */
  lemma {:induction false} ProvisionProvides(rs: seq<Resource>)
    ensures |ProvisionAll(rs).0| == |rs|
    ensures forall i :: 0 <= i < |rs| ==>
      && ProvisionAll(rs).0[i].released == rs[i].released
      && (rs[i].provisioned ==> ProvisionAll(rs).0[i].provisioned)
      && (ProvisionAll(rs).1.None? ==> ProvisionAll(rs).0[i].provisioned && !rs[i].released)
  {
    if |rs| != 0 {
      ProvisionProvides(rs[..|rs| - 1]);
    }
  }

  /** A resource is released by a call exactly when the call asks it to and it can be. */
  lemma {:induction false} ReleasedExactlyWhenAsked(f: Fabric, op: Op, i: nat)
    requires i < |f.resources|
    ensures |Step(f, op).0.resources| == |f.resources|
    ensures Step(f, op).0.resources[i].released <==>
      f.resources[i].released || (AsksRelease(f, op, i) && RELEASE !in f.resources[i].fails)
  {
    StepDevelops(f, op);
    StepResources(f, op);
    match op {
      case Provision => ProvisionProvides(f.resources);
      case ReleaseFabric => ReleaseDevelops(f.resources);
      case Composite(operation, omitted) =>
        CompositeReaches(f.resources, operation, omitted, i);
        if operation != RELEASE {
          OthersReleaseNothing(f.resources[i], operation, omitted);
        }
      case _ =>
    }
  }

  /** In a ready fabric everything is provisioned or released. */
  ghost predicate Provided(f: Fabric) {
    f.ready ==> forall i :: 0 <= i < |f.resources| ==> f.resources[i].provisioned || f.resources[i].released
  }

  lemma {:induction false} CallKeepsProvided(f: Fabric, op: Op, i: nat)
    requires i < |f.resources|
    ensures |Step(f, op).0.resources| == |f.resources|
    ensures f.resources[i].provisioned || f.resources[i].released ==>
      Step(f, op).0.resources[i].provisioned || Step(f, op).0.resources[i].released
    ensures Step(f, op).0.ready && !f.ready ==> Step(f, op).0.resources[i].provisioned
  {
    StepDevelops(f, op);
    StepResources(f, op);
    match op {
      case Provision => ProvisionProvides(f.resources);
      case ReleaseFabric => ReleaseDevelops(f.resources);
      case Composite(operation, omitted) =>
        CompositeReaches(f.resources, operation, omitted, i);
        if operation != RELEASE {
          OthersReleaseNothing(f.resources[i], operation, omitted);
        }
      case _ =>
    }
  }

  lemma {:induction false} StepKeepsProvided(f: Fabric, op: Op)
    requires Provided(f)
    ensures Provided(Step(f, op).0)
  {
    StepDevelops(f, op);
    forall i | 0 <= i < |f.resources| && Step(f, op).0.ready
      ensures Step(f, op).0.resources[i].provisioned || Step(f, op).0.resources[i].released
    {
      CallKeepsProvided(f, op, i);
    }
  }

  lemma {:induction false} RunReleasesExactly(f: Fabric, ops: seq<Op>, i: nat)
    requires Provided(f) && i < |f.resources|
    ensures |Run(f, ops).resources| == |f.resources| && Provided(Run(f, ops))
    ensures Run(f, ops).resources[i].released <==>
      f.resources[i].released || (RunAsksRelease(f, ops, i) && RELEASE !in f.resources[i].fails)
    decreases |ops|
  {
    if |ops| != 0 {
      StepDevelops(f, ops[0]);
      StepKeepsProvided(f, ops[0]);
      ReleasedExactlyWhenAsked(f, ops[0], i);
      RunReleasesExactly(Step(f, ops[0]).0, ops[1..], i);
    }
  }

  /** For every run of a fabric that starts out not ready and with nothing released: if it ends
      ready, a resource can be used exactly when its release fails or no call of the run asked
      it to release, whatever else was called. */
  lemma {:induction false} ReadyMeansUsableExactly(f: Fabric, ops: seq<Op>, i: nat)
    requires !f.ready && i < |f.resources| && !f.resources[i].released
    ensures |Run(f, ops).resources| == |f.resources|
    ensures Run(f, ops).ready ==>
      (Usable(Run(f, ops).resources[i]).None? <==> RELEASE in f.resources[i].fails || !RunAsksRelease(f, ops, i))
  {
    RunReleasesExactly(f, ops, i);
  }

  predicate IsRelease(op: Op) {
    op.ReleaseFabric? || (op.Composite? && op.operation == RELEASE) || (op.Direct? && op.call == ExecuteIt(RELEASE))
  }

  lemma {:induction false} NoReleaseAsksNone(f: Fabric, ops: seq<Op>, i: nat)
    requires i < |f.resources| && forall n :: 0 <= n < |ops| ==> !IsRelease(ops[n])
    ensures !RunAsksRelease(f, ops, i)
    decreases |ops|
  {
    if |ops| != 0 {
      StepDevelops(f, ops[0]);
      NoReleaseAsksNone(Step(f, ops[0]).0, ops[1..], i);
    }
  }

  lemma {:induction false} RunKeepsCount(f: Fabric, ops: seq<Op>)
    ensures |Run(f, ops).resources| == |f.resources|
    decreases |ops|
  {
    if |ops| != 0 {
      StepDevelops(f, ops[0]);
      RunKeepsCount(Step(f, ops[0]).0, ops[1..]);
    }
  }

  /** Without any release, ready means that every resource can be used. */
  lemma {:induction false} ReadyMeansUsableBeforeRelease(f: Fabric, ops: seq<Op>)
    requires !f.ready && (forall i :: 0 <= i < |f.resources| ==> !f.resources[i].released)
    requires forall n :: 0 <= n < |ops| ==> !IsRelease(ops[n])
    ensures Run(f, ops).ready ==> forall i :: 0 <= i < |Run(f, ops).resources| ==> Usable(Run(f, ops).resources[i]).None?
  {
    RunKeepsCount(f, ops);
    forall i | 0 <= i < |f.resources|
      ensures Run(f, ops).ready ==> Usable(Run(f, ops).resources[i]).None?
    {
      NoReleaseAsksNone(f, ops, i);
      ReadyMeansUsableExactly(f, ops, i);
    }
  }

  lemma {:induction false} FindIsMember(rs: seq<Resource>, id: Name)
    ensures Find(rs, id).Some? ==> Find(rs, id).value in rs
  {
    if |rs| != 0 {
      FindIsMember(rs[1..], id);
    }
  }
}
