/** The fabric and its resources in place (src/avp_ref/fabric/runtime.py). */
module EnvironmentFabric {
  import opened Common
  import opened FabricComposition

  class InMemoryFabricResource {
    const descriptor: Descriptor
    const fidelity: Fidelity
    const fails: set<Operation>
    const broken: bool
    var released: bool
    var provisioned: bool
    var state: nat
    var provisionEffects: nat
    var subjectEffects: nat
    var operationEffects: nat

    function View(): Resource
      reads this
    {
      Resource(descriptor, fidelity, fails, broken, released, provisioned, state, provisionEffects, subjectEffects, operationEffects)
    }

    constructor (descriptor: Descriptor, fidelity: Fidelity, fails: set<Operation>, broken: bool)
      ensures View() == Resource(descriptor, fidelity, fails, broken, false, false, 0, 0, 0, 0)
    {
      this.descriptor, this.fidelity, this.fails, this.broken := descriptor, fidelity, fails, broken;
      released, provisioned, state := false, false, 0;
      provisionEffects, subjectEffects, operationEffects := 0, 0, 0;
    }

    method ProvisionResource() returns (error: Option<FabricError>)
      modifies this
      ensures (View(), error) == ProvisionOne(old(View()))
    {
      if released {
        return Some(ResourceReleased);
      }
      if !provisioned {
        provisioned := true;
        provisionEffects := provisionEffects + 1;
      }
      error := None;
    }

    method MutateResource() returns (error: Option<FabricError>)
      modifies this
      ensures View() == CallOne(old(View()), MutateIt).0
      ensures CallOne(old(View()), MutateIt).1 == if error.Some? then Raised(error.value) else Done
    {
      error := Usable(View());
      if error.None? {
        state := state + 1;
        subjectEffects := subjectEffects + 1;
      }
    }

    method SnapshotResource() returns (r: Result<nat, FabricError>)
      ensures CallOne(View(), ReadIt) == (View(), match r case Ok(n) => Value(n) case Err(e) => Raised(e))
    {
      if released {
        return Err(ResourceReleased);
      }
      if !provisioned {
        return Err(NotProvisioned);
      }
      r := Ok(if broken then state + 1 else state);
    }

    method ReleaseResource() returns (r: ResourceResult)
      modifies this
      ensures (View(), r) == ReleaseOne(old(View()))
    {
      if released {
        return ResultOf(View(), SUCCEEDED, None);
      }
      if RELEASE in fails {
        return ResultOf(View(), FAILED, None);
      }
      operationEffects := operationEffects + 1;
      released := true;
      provisioned := false;
      r := ResultOf(View(), SUCCEEDED, None);
    }

    method ExecuteOperation(op: Operation) returns (r: Result<ResourceResult, FabricError>)
      modifies this
      ensures (View(), r) == ExecuteOne(old(View()), op)
    {
      if op == RELEASE {
        var result := ReleaseResource();
        return Ok(result);
      }
      if released {
        return Err(ResourceReleased);
      }
      if !provisioned {
        return Err(NotProvisioned);
      }
      if op in fails {
        return Ok(ResultOf(View(), FAILED, if op == RESTORE then Some(NON_EQUIVALENT) else None));
      }
      operationEffects := operationEffects + 1;
      if op == RESET {
        state := 0;
      }
      r := Ok(ResultOf(View(), SUCCEEDED, if op == RESTORE then Some(fidelity) else None));
    }

    method Answer(call: ResourceCall) returns (r: Reply)
      modifies this
      ensures View() == CallOne(old(View()), call).0
      ensures r == CallOne(old(View()), call).1
    {
      match call {
        case ProvisionIt =>
          var error := ProvisionResource();
          r := if error.Some? then Raised(error.value) else Done;
        case MutateIt =>
          var error := MutateResource();
          r := if error.Some? then Raised(error.value) else Done;
        case ReadIt =>
          var value := SnapshotResource();
          r := match value case Ok(v) => Value(v) case Err(e) => Raised(e);
        case ExecuteIt(operation) =>
          var result := ExecuteOperation(operation);
          r := match result case Ok(one) => Answered(one) case Err(e) => Raised(e);
      }
    }
  }

  function Views(rs: seq<InMemoryFabricResource>): (vs: seq<Resource>)
    reads rs
    ensures |vs| == |rs| && forall i :: 0 <= i < |rs| ==> vs[i] == rs[i].View()
  {
    seq(|rs|, i requires 0 <= i < |rs| reads rs => rs[i].View())
  }

  class EnvironmentFabric {
    const resources: seq<InMemoryFabricResource>
    const requirements: seq<Requirement>
    const subjectCapabilities: set<Name>
    var ready: bool
    var released: bool
    var sequence: nat

    ghost predicate Valid() {
      forall i, j :: 0 <= i < j < |resources| ==> resources[i] != resources[j]
    }

    ghost function View(): Fabric
      reads this, resources
    {
      Fabric(Views(resources), requirements, subjectCapabilities, ready, released, sequence)
    }

    constructor (resources: seq<InMemoryFabricResource>, requirements: seq<Requirement>, subjectCapabilities: set<Name>)
      requires forall i, j :: 0 <= i < j < |resources| ==> resources[i] != resources[j]
      ensures Valid() && View() == Fabric(Views(resources), requirements, subjectCapabilities, false, false, 0)
    {
      this.resources, this.requirements, this.subjectCapabilities := resources, requirements, subjectCapabilities;
      ready, released, sequence := false, false, 0;
    }

    /** `_validate_required_capabilities`. */
    method RequirementsMet() returns (met: bool)
      ensures met <==> Compatible(View())
    {
      for n := 0 to |requirements|
        invariant forall i :: 0 <= i < n && requirements[i].required ==>
          var found := FabricComposition.Find(Views(resources), requirements[i].resourceId);
          found.Some? && requirements[i].capability in found.value.descriptor.capabilities
      {
        var required := requirements[n];
        var found := FabricComposition.Find(Views(resources), required.resourceId);
        if found.None? {
          if required.required {
            return false;
          }
        } else if required.capability !in found.value.descriptor.capabilities && required.required {
          return false;
        }
      }
      met := true;
    }

    method ProvisionAt(n: nat) returns (error: Option<FabricError>)
      requires Valid() && n < |resources|
      modifies resources[n]
      ensures Views(resources) == old(Views(resources))[n := ProvisionOne(old(Views(resources))[n]).0]
      ensures error == ProvisionOne(old(Views(resources))[n]).1
    {
      error := resources[n].ProvisionResource();
    }

    /** A caller's use of an exposed resource. */
    method UseResource(n: nat, call: ResourceCall) returns (r: Reply)
      requires Valid() && n < |resources|
      modifies resources[n]
      ensures View() == Step(old(View()), Direct(n, call)).0
      ensures r == Step(old(View()), Direct(n, call)).1
    {
      r := resources[n].Answer(call);
      assert Views(resources) == old(Views(resources))[n := CallOne(old(Views(resources))[n], call).0];
    }

    /** One turn of the loop of `execute_composite`. */
    method ParticipateAt(n: nat, op: Operation, omitted: set<Name>) returns (r: Result<ResourceResult, FabricError>)
      requires Valid() && n < |resources|
      modifies resources[n]
      ensures Views(resources) == old(Views(resources))[n := Participate(old(Views(resources))[n], op, omitted).0]
      ensures r == Participate(old(Views(resources))[n], op, omitted).1
    {
      var resource := resources[n];
      if resource.descriptor.id in omitted {
        r := if resource.descriptor.required then Err(RequiredOmitted)
             else Ok(ResultOf(resource.View(), NOT_PARTICIPATING, None));
      } else {
        r := resource.ExecuteOperation(op);
      }
    }

    method ReleaseAt(n: nat) returns (r: ResourceResult)
      requires Valid() && n < |resources|
      modifies resources[n]
      ensures Views(resources) == old(Views(resources))[n := ReleaseOne(old(Views(resources))[n]).0]
      ensures r == ReleaseOne(old(Views(resources))[n]).1
    {
      r := resources[n].ReleaseResource();
    }

    method ProvisionLoop() returns (error: Option<FabricError>)
      requires Valid()
      modifies resources
      ensures Views(resources) == ProvisionAll(old(Views(resources))).0
      ensures error == ProvisionAll(old(Views(resources))).1
    {
      ghost var before := Views(resources);
      for n := 0 to |resources|
        invariant Views(resources) == ProvisionAll(before[..n]).0 + before[n..]
        invariant |ProvisionAll(before[..n]).0| == n && ProvisionAll(before[..n]).1.None?
      {
        ProvisionNext(before, n);
        error := ProvisionAt(n);
        if error.Some? {
          ProvisionStops(before, n + 1);
          return;
        }
      }
      assert before[..|resources|] == before && before[|resources|..] == [];
      error := None;
    }

    method ProvisionFabric() returns (r: Reply)
      requires Valid()
      modifies this, resources
      ensures (View(), r) == Step(old(View()), Provision)
    {
      if released {
        return Raised(NotLive);
      }
      var met := RequirementsMet();
      if !met {
        return Raised(Incompatible);
      }
      var error := ProvisionLoop();
      if error.Some? {
        return Raised(error.value);
      }
      ready := true;
      r := Done;
    }

    /** The loop of `execute_composite`. */
    method CompositeLoop(op: Operation, omitted: set<Name>) returns (r: Result<seq<ResourceResult>, FabricError>)
      requires Valid()
      modifies resources
      ensures Views(resources) == CompositeAll(old(Views(resources)), op, omitted).0
      ensures r == CompositeAll(old(Views(resources)), op, omitted).1
    {
      ghost var before := Views(resources);
      var results: seq<ResourceResult> := [];
      for n := 0 to |resources|
        invariant |results| == n && Executed(before, Views(resources), op, omitted, results)
      {
        var one := ParticipateAt(n, op, omitted);
        if one.Err? {
          CompositeFails(before, Views(resources), op, omitted, results, one.error);
          return Err(one.error);
        }
        results := results + [one.value];
      }
      CompositeWorks(before, Views(resources), op, omitted, results);
      r := Ok(results);
    }

    method ExecuteComposite(op: Operation, omitted: set<Name>) returns (r: Reply)
      requires Valid()
      modifies this`sequence, resources
      ensures View() == Step(old(View()), Composite(op, omitted)).0
      ensures r == Step(old(View()), Composite(op, omitted)).1
    {
      ghost var f := View();
      if released {
        return Raised(NotLive);
      }
      if !ready {
        return Raised(NotReady);
      }
      var results := CompositeLoop(op, omitted);
      assert View() == f.(resources := CompositeAll(f.resources, op, omitted).0);
      if results.Err? {
        return Raised(results.error);
      }
      var fidelity := Aggregate(op, results.value);
      if fidelity.Err? {
        return Raised(fidelity.error);
      }
      sequence := sequence + 1;
      r := Completed(OperationResult(sequence, op, if RequiredFailed(results.value) then FAILED else SUCCEEDED,
                                     results.value, fidelity.value));
    }

    method ReleaseAllResources() returns (results: seq<ResourceResult>)
      requires Valid()
      modifies resources
      ensures Views(resources) == ReleaseAll(old(Views(resources))).0
      ensures results == ReleaseAll(old(Views(resources))).1
    {
      ghost var before := Views(resources);
      results := [];
      for n := 0 to |resources|
        invariant |results| == n
        invariant forall i :: 0 <= i < n ==> Views(resources)[i] == ReleaseOne(before[i]).0 && results[i] == ReleaseOne(before[i]).1
        invariant forall i :: n <= i < |before| ==> Views(resources)[i] == before[i]
      {
        var one := ReleaseAt(n);
        results := results + [one];
      }
      ReleaseDevelops(before);
    }

    method Release() returns (r: Reply)
      requires Valid()
      modifies this, resources
      ensures (View(), r) == Step(old(View()), ReleaseFabric)
    {
      sequence := sequence + 1;
      if released {
        return Completed(OperationResult(sequence, RELEASE, SUCCEEDED, Succeeded(Views(resources)), None));
      }
      var results := ReleaseAllResources();
      var failed := RequiredFailed(results);
      r := Completed(OperationResult(sequence, RELEASE, if failed then FAILED else SUCCEEDED, results, None));
      if !failed {
        ready := false;
        released := true;
      }
    }
  }

  lemma {:induction false} ProvisionNext(rs: seq<Resource>, n: nat)
    requires n < |rs|
    ensures var (done, error) := ProvisionAll(rs[..n]);
      var (r, failure) := ProvisionOne(rs[n]);
      && |done| == n && (done + rs[n..])[n] == rs[n]
      && (done + rs[n..])[n := r] == (done + [r]) + rs[n + 1..]
      && (error.None? ==> ProvisionAll(rs[..n + 1]) == (done + [r], failure))
  {
    assert rs[..n + 1][..n] == rs[..n];
    ProvisionDevelops(rs[..n]);
  }

  /** The first resources took part with these results; the others are as they were. */
  ghost predicate Executed(before: seq<Resource>, now: seq<Resource>, op: Operation, omitted: set<Name>,
                           results: seq<ResourceResult>) {
    && |results| <= |before| == |now|
    && (forall i :: 0 <= i < |results| ==> Participate(before[i], op, omitted) == (now[i], Ok(results[i])))
    && (forall i :: |results| <= i < |before| ==> now[i] == before[i])
  }

  lemma {:induction false} CompositeWorks(before: seq<Resource>, now: seq<Resource>, op: Operation, omitted: set<Name>,
                                          results: seq<ResourceResult>)
    requires Executed(before, now, op, omitted, results) && |results| == |before|
    ensures CompositeAll(before, op, omitted) == (now, Ok(results))
    decreases |before|
  {
    if |before| != 0 {
      var n := |before| - 1;
      CompositeWorks(before[..n], now[..n], op, omitted, results[..n]);
      assert now == now[..n] + [now[n]] && results == results[..n] + [results[n]];
    } else {
      assert now == before && results == [];
    }
  }

  lemma {:induction false} CompositeFails(before: seq<Resource>, now: seq<Resource>, op: Operation, omitted: set<Name>,
                                          results: seq<ResourceResult>, error: FabricError)
    requires |results| < |before| == |now| && Executed(before, now[|results| := before[|results|]], op, omitted, results)
    requires Participate(before[|results|], op, omitted) == (now[|results|], Err(error))
    ensures CompositeAll(before, op, omitted) == (now, Err(error))
  {
    var n := |results|;
    assert before[..n + 1][..n] == before[..n];
    CompositeWorks(before[..n], now[..n], op, omitted, results);
    assert CompositeAll(before[..n + 1], op, omitted) == (now[..n] + [now[n]], Err(error));
    CompositeStops(before, op, omitted, n + 1);
    assert now == (now[..n] + [now[n]]) + before[n + 1..];
  }

  lemma {:induction false} ProvisionStops(rs: seq<Resource>, n: nat)
    requires n <= |rs|
    ensures ProvisionAll(rs[..n]).1.Some? ==> ProvisionAll(rs) == (ProvisionAll(rs[..n]).0 + rs[n..], ProvisionAll(rs[..n]).1)
    decreases |rs|
  {
    var done := ProvisionAll(rs[..n]).0;
    if n == |rs| {
      assert rs[..n] == rs && done + rs[n..] == done;
    } else {
      var front := rs[..|rs| - 1];
      assert front[..n] == rs[..n];
      ProvisionStops(front, n);
      assert (done + front[n..]) + [rs[|rs| - 1]] == done + rs[n..];
    }
  }

  lemma {:induction false} CompositeStops(rs: seq<Resource>, op: Operation, omitted: set<Name>, n: nat)
    requires n <= |rs|
    ensures CompositeAll(rs[..n], op, omitted).1.Err? ==>
      CompositeAll(rs, op, omitted) == (CompositeAll(rs[..n], op, omitted).0 + rs[n..], CompositeAll(rs[..n], op, omitted).1)
    decreases |rs|
  {
    var done := CompositeAll(rs[..n], op, omitted).0;
    if n == |rs| {
      assert rs[..n] == rs && done + rs[n..] == done;
    } else {
      var front := rs[..|rs| - 1];
      assert front[..n] == rs[..n];
      CompositeStops(front, op, omitted, n);
      assert (done + front[n..]) + [rs[|rs| - 1]] == done + rs[n..];
    }
  }
}
