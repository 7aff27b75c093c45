/** The relational resource in place: the fields `InMemoryRelationalResource` updates and the
    mutations its callers hold (src/avp_ref/relational.py). */
module RelationalResource {
  import opened Common
  import opened Ordering
  import opened RelationalState
  import opened RelationalDiff
  import opened RelationalProtocol

  /** `_PendingMutation`: the caller keeps the object, the resource marks it. */
  class PendingMutation {
    const relationId: Name
    const replacement: seq<Row>
    var settled: bool
    var committed: bool

    constructor (relationId: Name, replacement: seq<Row>)
      ensures AsValue() == Pending(relationId, replacement, false, false)
    {
      this.relationId := relationId;
      this.replacement := replacement;
      settled := false;
      committed := false;
    }

    function AsValue(): Pending
      reads this
    {
      Pending(relationId, replacement, settled, committed)
    }

    method Mark(commit: bool)
      modifies this
      ensures AsValue() == old(AsValue()).(settled := true, committed := old(committed) || commit)
    {
      if commit {
        committed := true;
      }
      settled := true;
    }
  }

  function AsValues(ps: seq<PendingMutation>): (vs: seq<Pending>)
    reads ps
    ensures |vs| == |ps| && forall i :: 0 <= i < |ps| ==> vs[i] == ps[i].AsValue()
  {
    seq(|ps|, i requires 0 <= i < |ps| reads ps => ps[i].AsValue())
  }

  class InMemoryRelationalResource {
    const config: Config
    var state: State
    var pending: seq<PendingMutation>
    var quiescing: bool
    var released: bool
    var bindingValid: bool
    var executionIdentity: int
    var sequence: nat

    ghost function View(): Machine
      reads this, pending
    {
      Machine(config, state, AsValues(pending), quiescing, released, bindingValid, executionIdentity, sequence)
    }

    /** The listed mutations are different objects. */
    ghost predicate Valid()
      reads this
    {
      forall i, j :: 0 <= i < j < |pending| ==> pending[i] != pending[j]
    }

    /** How the protocol sees the object a caller passes to `Settle`. */
    ghost function TargetOf(p: PendingMutation): Target
      reads this, p
    {
      if p in pending then
        var i :| 0 <= i < |pending| && pending[i] == p;
        Own(i)
      else Copy(p.AsValue())
    }

    constructor (config: Config)
      requires Configured(config)
      ensures Valid() && View() == Start(config) && pending == []
    {
      this.config := config;
      state := config.baseline;
      pending := [];
      quiescing := false;
      released := false;
      bindingValid := true;
      executionIdentity := config.boundIdentity;
      sequence := 0;
    }

    method EnsureLive() returns (failure: Option<Failure>)
      ensures failure == Liveness(View())
    {
      if released {
        return Some(Released);
      }
      if !bindingValid {
        return Some(BindingDrift);
      }
      if executionIdentity != config.boundIdentity {
        return Some(InputDrift);
      }
      failure := None;
    }

    method BeginSubjectMutation(relationId: Name, rows: seq<Row>) returns (r: Result<PendingMutation, Failure>)
      requires Valid()
      modifies `pending
      ensures Valid()
      ensures View() == Step(old(View()), Begin(relationId, rows)).0
      ensures Step(old(View()), Begin(relationId, rows)).1 ==
        if r.Ok? then Began(r.value.AsValue()) else Failed(r.error)
      ensures if r.Ok? then fresh(r.value) && pending == old(pending) + [r.value] else pending == old(pending)
    {
      var live := EnsureLive();
      if live.Some? {
        return Err(live.value);
      }
      if quiescing {
        return Err(Quiescing);
      }
      var valid := ValidateState(config.host.codec, config.manifest, state[relationId := rows]);
      if valid.Err? {
        return Err(Invalid(valid.error));
      }
      if relationId !in valid.value {
        return Err(UnknownRelation);
      }
      var p := new PendingMutation(relationId, valid.value[relationId]);
      pending := pending + [p];
      r := Ok(p);
    }

    /** `pending in self._pending` and not yet settled, by value. */
    method IsPending(p: PendingMutation) returns (known: bool)
      ensures known <==> p.AsValue() in AsValues(pending) && !p.settled
    {
      known := !p.settled && exists i :: 0 <= i < |pending| && pending[i].AsValue() == p.AsValue();
      if known {
        ghost var i :| 0 <= i < |pending| && pending[i].AsValue() == p.AsValue();
        assert AsValues(pending)[i] == p.AsValue();
      }
    }

    method SettleSubjectMutation(p: PendingMutation, commit: bool) returns (outcome: Outcome)
      requires Valid()
      modifies `state, p
      ensures Valid() && pending == old(pending)
      ensures (View(), outcome) == Step(old(View()), Settle(old(TargetOf(p)), commit))
      ensures p.AsValue() ==
        if outcome.Done? then old(p.AsValue()).(settled := true, committed := old(p.committed) || commit)
        else old(p.AsValue())
    {
      ghost var target, before, v := TargetOf(p), View(), p.AsValue();
      var live := EnsureLive();
      if live.Some? {
        return Failed(live.value);
      }
      var known := IsPending(p);
      assert Resolve(before, target) == if v in before.pending then Some(v) else None;
      if !known {
        return Failed(NotPending);
      }
      Apply(p, commit);
      SettleStep(before, target, commit, v);
      OnlyMarked(before.pending, AsValues(pending), pending, p, p.AsValue(), target);
      outcome := Done;
    }

    /** The effect of a settlement: the rows if committed, and the mark on the object. */
    method Apply(p: PendingMutation, commit: bool)
      requires Valid()
      modifies `state, p
      ensures state == if commit then old(state)[p.relationId := p.replacement] else old(state)
      ensures p.AsValue() == old(p.AsValue()).(settled := true, committed := old(p.committed) || commit)
      ensures forall i :: 0 <= i < |pending| ==>
        AsValues(pending)[i] == if pending[i] == p then p.AsValue() else old(AsValues(pending))[i]
    {
      if commit {
        state := state[p.relationId := p.replacement];
      }
      p.Mark(commit);
    }

    method EnterQuiescingBoundary() returns (outcome: Outcome)
      requires Valid()
      modifies `quiescing
      ensures Valid() && (View(), outcome) == Step(old(View()), EnterQuiescing)
    {
      var live := EnsureLive();
      if live.Some? {
        return Failed(live.value);
      }
      quiescing := true;
      outcome := Done;
    }

    method SettlementComplete() returns (complete: bool)
      ensures complete == Settled(View())
    {
      complete := forall i :: 0 <= i < |pending| ==> pending[i].settled;
      assert forall i :: 0 <= i < |pending| ==> AsValues(pending)[i].settled == pending[i].settled;
    }

    /** `project`, relation by relation. */
    method ProjectState(projectionId: Name) returns (r: Result<seq<(Name, seq<RowDocument>)>, Failure>)
      ensures r == Project(config.manifest, state, projectionId)
    {
      var found := FindProjection(config.manifest.projections, projectionId);
      if found.None? {
        return Err(UnknownProjection);
      }
      var selected := SortedSelection(found.value);
      var relations: seq<(Name, seq<RowDocument>)> := [];
      for n := 0 to |selected|
        invariant ProjectAll(config.manifest, state, selected[..n]) == Ok(relations)
      {
        assert selected[..n + 1][..n] == selected[..n];
        ProjectPrefix(config.manifest, state, selected, n + 1);
        var one := ProjectOne(config.manifest, state, selected[n]);
        if one.Err? {
          return Err(one.error);
        }
        relations := relations + [one.value];
      }
      assert selected[..|selected|] == selected;
      r := Ok(relations);
    }

    method FinalProjectionOf(projectionId: Name) returns (outcome: Outcome)
      requires Valid()
      ensures (View(), outcome) == Step(View(), FinalProjection(projectionId))
    {
      var live := EnsureLive();
      if live.Some? {
        return Failed(live.value);
      }
      var complete := SettlementComplete();
      if !quiescing || !complete {
        return Failed(NotSettled);
      }
      var document := ProjectState(projectionId);
      outcome := if document.Ok? then Projected(document.value) else Failed(document.error);
    }

    method Snapshot() returns (outcome: Outcome)
      requires Valid()
      modifies `sequence
      ensures Valid() && (View(), outcome) == Step(old(View()), TakeSnapshot)
    {
      var live := EnsureLive();
      if live.Some? {
        return Failed(live.value);
      }
      var image := TryImage(config, state);
      if image.None? {
        return Failed(UnknownRelation);
      }
      sequence := sequence + 1;
      outcome := Took(RelationalProtocol.Snapshot(sequence, config.owner, image.value));
    }

    method ResetToBaseline() returns (outcome: Outcome)
      requires Valid()
      modifies `state
      ensures Valid() && (View(), outcome) == Step(old(View()), Reset)
    {
      var live := EnsureLive();
      if live.Some? {
        return Failed(live.value);
      }
      state := config.baseline;
      var image := TryImage(config, state);
      if image.None? {
        return Failed(UnknownRelation);
      }
      var digest := DigestOf(config.host, image.value);
      if digest.None? {
        return Failed(Undocumented);
      }
      outcome := if digest.value != config.baselineDigest then Failed(ResetMismatch) else Observed(image.value);
    }

    method RestoreSnapshot(snapshot: RelationalProtocol.Snapshot) returns (outcome: Outcome)
      requires Valid()
      modifies `state
      ensures Valid() && (View(), outcome) == Step(old(View()), Restore(snapshot))
    {
      var live := EnsureLive();
      if live.Some? {
        return Failed(live.value);
      }
      if snapshot.owner != config.owner {
        return Failed(ForeignSnapshot);
      }
      if snapshot.image.manifestDigest != config.manifestDigest {
        return Failed(ManifestMismatch);
      }
      var valid := ValidateState(config.host.codec, config.manifest, DictOf(snapshot.image.relations));
      if valid.Err? {
        return Failed(Invalid(valid.error));
      }
      state := valid.value;
      var image := TryImage(config, state);
      if image.None? {
        return Failed(UnknownRelation);
      }
      var seen := DigestOf(config.host, image.value);
      var wanted := DigestOf(config.host, snapshot.image);
      if seen.None? || wanted.None? {
        return Failed(Undocumented);
      }
      outcome := Restored(seen == wanted);
    }

    method ReleaseResource()
      requires Valid()
      modifies `released
      ensures Valid() && View() == Step(old(View()), Release).0
    {
      released := true;
    }

    method SetLogicalBindingValid(valid: bool)
      requires Valid()
      modifies `bindingValid
      ensures Valid() && View() == Step(old(View()), SetBindingValid(valid)).0
    {
      bindingValid := valid;
    }

    method SetExecutionInputIdentity(identity: int)
      requires Valid()
      modifies `executionIdentity
      ensures Valid() && View() == Step(old(View()), SetExecutionIdentity(identity)).0
    {
      executionIdentity := identity;
    }

    /** The privileged writer: several relations at once, validated together. */
    method ReplaceRelationsAtomically(replacements: State) returns (outcome: Outcome)
      requires Valid()
      modifies `state
      ensures Valid() && (View(), outcome) == Step(old(View()), ReplaceAtomically(replacements))
    {
      var live := EnsureLive();
      if live.Some? {
        return Failed(live.value);
      }
      if quiescing {
        return Failed(Quiescing);
      }
      if replacements == map[] {
        return Failed(NothingToReplace);
      }
      if !(replacements.Keys <= state.Keys) {
        return Failed(UnknownRelation);
      }
      var valid := ValidateState(config.host.codec, config.manifest, state + replacements);
      if valid.Err? {
        return Failed(Invalid(valid.error));
      }
      state := valid.value;
      outcome := Done;
    }
  }

  /** Different objects: marking one changes one entry, or none if it is not listed. */
  lemma {:induction false} OnlyMarked(
    was: seq<Pending>, now: seq<Pending>, ps: seq<PendingMutation>, p: PendingMutation, marked: Pending, t: Target)
    requires |was| == |now| == |ps| && forall i, j :: 0 <= i < j < |ps| ==> ps[i] != ps[j]
    requires if t.Own? then t.index < |ps| && ps[t.index] == p else p !in ps
    requires forall i :: 0 <= i < |ps| ==> now[i] == if ps[i] == p then marked else was[i]
    ensures now == if t.Own? then was[t.index := marked] else was
  {
  }

  lemma {:induction false} SettleStep(m: Machine, t: Target, commit: bool, p: Pending)
    requires Liveness(m).None? && Resolve(m, t) == Some(p) && !p.settled
    ensures t.Own? ==> t.index < |m.pending|
    ensures Step(m, Settle(t, commit)) == (m.(
      state := if commit then m.state[p.relationId := p.replacement] else m.state,
      pending := if t.Own? then m.pending[t.index := p.(settled := true, committed := p.committed || commit)] else m.pending),
      Done)
  {
  }

  lemma {:induction false} ProjectPrefix(m: Manifest, s: State, selected: seq<ProjectionRelation>, n: nat)
    requires n <= |selected|
    ensures ProjectAll(m, s, selected[..n]).Err? ==> ProjectAll(m, s, selected) == ProjectAll(m, s, selected[..n])
    decreases |selected|
  {
    if n == |selected| {
      assert selected[..n] == selected;
    } else {
      assert selected[..|selected| - 1][..n] == selected[..n];
      ProjectPrefix(m, s, selected[..|selected| - 1], n);
    }
  }
}
