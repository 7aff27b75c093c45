/** The relational resource as a state machine: the mutation protocol with its quiescing
    boundary, snapshots, reset and restore (`InMemoryRelationalResource`,
    src/avp_ref/relational.py), and the other writer of its state
    (`replace_relations_atomically`, src/avp_ref/tck_adapter/reference_relational_harness.py).

    `Step` says what one call does to a resource. The class of `RelationalResource` does it in
    place and is proved to be `Step`; the theorems here are about every sequence of steps. */
module RelationalProtocol {
  import opened Common
  import opened Ordering
  import opened Canonical
  import opened RelationalState
  import opened RelationalDiff
  import opened RelationalPatch

  datatype Identity = Identity(environmentId: Text, resourceId: Text, instanceId: Text)

  datatype RowDocument = RowDocument(key: map<Name, Value>, values: map<Name, Value>)

  datatype ImageDocument = ImageDocument(manifestDigest: int, relations: seq<(Name, seq<RowDocument>)>)

  /** Canonical JSON and SHA-256 are left abstract: a digest is some function of the document. */
  datatype Host = Host(codec: Codec, imageDigest: ImageDocument -> int, manifestDigest: Manifest -> int)

  datatype Config = Config(
    host: Host, owner: Identity, manifest: Manifest, manifestDigest: int,
    baseline: State, baselineDigest: int, boundIdentity: int)

  datatype Pending = Pending(relationId: Name, replacement: seq<Row>, settled: bool, committed: bool)

  datatype Snapshot = Snapshot(sequence: nat, owner: Identity, image: Image)

  datatype Machine = Machine(
    config: Config, state: State, pending: seq<Pending>, quiescing: bool, released: bool,
    bindingValid: bool, executionIdentity: int, sequence: nat)

  datatype Failure =
    Released | BindingDrift | InputDrift | Quiescing | Invalid(reason: StateError) | NotPending | NotSettled
    | UnknownProjection | UnknownRelation | KeyOmitted | Undocumented | ResetMismatch
    | ForeignSnapshot | ManifestMismatch | NothingToReplace | EmptyInstance | NotIntegral | BaselineMismatch

  /** The mutation a caller passes to `settle`: one of the resource's own, or an object of the
      caller's. The source looks mutations up by value, so an equal copy is accepted. */
  datatype Target = Own(index: nat) | Copy(copy: Pending)

  datatype Op =
    | Begin(relationId: Name, rows: seq<Row>)
    | Settle(target: Target, commit: bool)
    | EnterQuiescing
    | FinalProjection(projectionId: Name)
    | TakeSnapshot
    | Reset
    | Restore(snapshot: Snapshot)
    | Release
    | SetBindingValid(valid: bool)
    | SetExecutionIdentity(identity: int)
    | ReplaceAtomically(replacements: State)

  datatype Outcome =
    | Done
    | Began(pending: Pending)
    | Projected(document: seq<(Name, seq<RowDocument>)>)
    | Took(snapshot: Snapshot)
    | Observed(image: Image)
    | Restored(equivalent: bool)
    | Failed(failure: Failure)

  // Documents and digests.

  predicate RowDocumented(row: Row) {
    |row.keyColumns| > 0 && forall k :: k in row.keyColumns ==> k in DictOf(row.values)
  }

  predicate Documented(image: Image) {
    forall i, j :: 0 <= i < |image.relations| && 0 <= j < |image.relations[i].1| ==>
      RowDocumented(image.relations[i].1[j])
  }

  function DocumentOf(image: Image): ImageDocument {
    var document := (row: Row) => RowDocument(KeyDocument(row), DictOf(row.values));
    ImageDocument(image.manifestDigest, Map((p: (Name, seq<Row>)) => (p.0, Map(document, p.1)), image.relations))
  }

  /** `StateImage.digest`; rows not bound to a key have no document. */
  function DigestOf(host: Host, image: Image): Option<int> {
    if Documented(image) then Some(host.imageDigest(DocumentOf(image))) else None
  }

  // Well-formedness of a configuration and of a machine's maps.

  predicate Surface(m: Manifest, s: State) {
    s.Keys == Elements(RelationIds(m.relations))
  }

  predicate Covered(m: Machine) {
    && Distinct(RelationIds(m.config.manifest.relations))
    && Surface(m.config.manifest, m.state) && Surface(m.config.manifest, m.config.baseline)
    && forall i :: 0 <= i < |m.pending| ==> m.pending[i].relationId in m.state
  }

  function ImageFor(c: Config, s: State): Image
    requires Surface(c.manifest, s)
  {
    SurfaceCovers(c.manifest, s);
    ImageOf(c.manifest, c.manifestDigest, s)
  }

  /** `_state_image_for`: a relation without rows in the mapping is a `KeyError`. */
  function TryImage(c: Config, s: State): Option<Image> {
    if Surface(c.manifest, s) then Some(ImageFor(c, s)) else None
  }

  // Projection.

  function FindProjection(ps: seq<Projection>, id: Name): Option<Projection> {
    if |ps| == 0 then None else if ps[0].id == id then Some(ps[0]) else FindProjection(ps[1..], id)
  }

  function Restrict(values: map<Name, Value>, names: seq<Name>): map<Name, Value> {
    map n | n in names && n in values :: values[n]
  }

  function ProjectRow(rel: Relation, columns: seq<Name>, row: Row): RowDocument {
    RowDocument(Restrict(DictOf(row.values), rel.rowKey), Restrict(DictOf(row.values), columns))
  }

  function ProjectOne(m: Manifest, s: State, selected: ProjectionRelation): Result<(Name, seq<RowDocument>), Failure> {
    match FindRelation(m.relations, selected.relationId)
    case None => Err(UnknownRelation)
    case Some(rel) =>
      if !(Elements(rel.rowKey) <= Elements(selected.columns)) then Err(KeyOmitted)
      else if rel.id !in s then Err(UnknownRelation)
      else Ok((rel.id, Map(row => ProjectRow(rel, selected.columns, row), s[rel.id])))
  }

  function ProjectAll(m: Manifest, s: State, selected: seq<ProjectionRelation>): Result<seq<(Name, seq<RowDocument>)>, Failure> {
    if |selected| == 0 then Ok([])
    else
      match ProjectAll(m, s, selected[..|selected| - 1])
      case Err(e) => Err(e)
      case Ok(done) =>
        match ProjectOne(m, s, selected[|selected| - 1])
        case Err(e) => Err(e)
        case Ok(p) => Ok(done + [p])
  }

  function SortedSelection(p: Projection): seq<ProjectionRelation> {
    Values(SortByKey(LexLess, Map((s: ProjectionRelation) => (s.relationId, s), p.relations)))
  }

  /** `project`: relations and columns in ascending order, so a mapping per row suffices. */
  function Project(m: Manifest, s: State, id: Name): Result<seq<(Name, seq<RowDocument>)>, Failure> {
    match FindProjection(m.projections, id)
    case None => Err(UnknownProjection)
    case Some(p) => ProjectAll(m, s, SortedSelection(p))
  }

  lemma {:induction false} SelectionProjects(m: Manifest, s: State, selected: ProjectionRelation)
    requires Integral(m) && Surface(m, s) && SelectionIntegral(m, selected)
    ensures ProjectOne(m, s, selected).Ok?
  {
    FindRelationFinds(m.relations, selected.relationId);
    var i :| 0 <= i < |m.relations| && m.relations[i].id == selected.relationId
      && forall k :: k in m.relations[i].rowKey ==> k in selected.columns;
    assert RelationIds(m.relations)[i] == selected.relationId;
    var rel := FindRelation(m.relations, selected.relationId).value;
    var j :| 0 <= j < |m.relations| && m.relations[j] == rel;
    assert RelationIds(m.relations)[j] == selected.relationId;
  }

  lemma {:induction false} SelectionsProject(m: Manifest, s: State, selected: seq<ProjectionRelation>)
    requires Integral(m) && Surface(m, s)
    requires forall i :: 0 <= i < |selected| ==> SelectionIntegral(m, selected[i])
    ensures ProjectAll(m, s, selected).Ok?
  {
    if |selected| != 0 {
      SelectionsProject(m, s, selected[..|selected| - 1]);
      SelectionProjects(m, s, selected[|selected| - 1]);
    }
  }

  lemma {:induction false} FindProjectionFinds(ps: seq<Projection>, id: Name)
    ensures FindProjection(ps, id).Some? <==> exists i :: 0 <= i < |ps| && ps[i].id == id
    ensures FindProjection(ps, id).Some? ==> FindProjection(ps, id).value in ps
  {
    if |ps| != 0 {
      FindProjectionFinds(ps[1..], id);
      assert forall i :: 1 <= i < |ps| ==> ps[i] == ps[1..][i - 1];
    }
  }

  lemma {:induction false} SortedSelectionSorts(p: Projection)
    requires Distinct(Map((s: ProjectionRelation) => s.relationId, p.relations))
    ensures multiset(SortedSelection(p)) == multiset(p.relations)
    ensures StrictlySorted(LexLess, Map((s: ProjectionRelation) => s.relationId, SortedSelection(p)))
  {
    var ps := Map((s: ProjectionRelation) => (s.relationId, s), p.relations);
    var qs := SortByKey(LexLess, ps);
    var second := (q: (Name, ProjectionRelation)) => q.1;
    SortKeepsElements(LexLess, ps);
    MapKeepsCounts(second, ps, qs);
    assert Map(second, ps) == p.relations && Map(second, qs) == SortedSelection(p);
    assert Keys(ps) == Map((s: ProjectionRelation) => s.relationId, p.relations);
    LexIsStrictOrder();
    SortSorts(LexLess, ps);
    forall i | 0 <= i < |qs| ensures qs[i].0 == qs[i].1.relationId {
      assert qs[i] in multiset(ps);
    }
    assert Keys(qs) == Map((s: ProjectionRelation) => s.relationId, SortedSelection(p));
  }

  lemma {:induction false} SelectedAreIntegral(m: Manifest, p: Projection, selected: seq<ProjectionRelation>)
    requires ProjectionIntegral(m, p) && multiset(selected) == multiset(p.relations)
    ensures forall i :: 0 <= i < |selected| ==> SelectionIntegral(m, selected[i])
  {
    forall i | 0 <= i < |selected| ensures SelectionIntegral(m, selected[i]) {
      assert selected[i] in multiset(p.relations);
    }
  }

  /** Over a manifest with integrity, projecting fails exactly for an undeclared id, and the
      document lists the selected relations in strictly ascending order. */
  lemma {:induction false} DeclaredProjectionsProject(m: Manifest, s: State, id: Name)
    requires Integral(m) && Surface(m, s)
    ensures Project(m, s, id).Ok? <==> exists i :: 0 <= i < |m.projections| && m.projections[i].id == id
    ensures Project(m, s, id).Ok? ==> StrictlySorted(LexLess, Keys(Project(m, s, id).value))
  {
    FindProjectionFinds(m.projections, id);
    if FindProjection(m.projections, id).Some? {
      var p := FindProjection(m.projections, id).value;
      var n :| 0 <= n < |m.projections| && m.projections[n] == p;
      SortedSelectionSorts(p);
      var selected := SortedSelection(p);
      SelectedAreIntegral(m, p, selected);
      SelectionsProject(m, s, selected);
      ProjectionKeys(m, s, selected);
    }
  }

  lemma {:induction false} ProjectionKeys(m: Manifest, s: State, selected: seq<ProjectionRelation>)
    requires ProjectAll(m, s, selected).Ok?
    ensures Keys(ProjectAll(m, s, selected).value) == Map((s: ProjectionRelation) => s.relationId, selected)
  {
    if |selected| != 0 {
      var n := |selected| - 1;
      ProjectionKeys(m, s, selected[..n]);
      FindRelationFinds(m.relations, selected[n].relationId);
      assert Keys(ProjectAll(m, s, selected).value) == Keys(ProjectAll(m, s, selected[..n]).value) + [selected[n].relationId];
    }
  }

  // One call.

  /** `_ensure_live`. */
  function Liveness(m: Machine): Option<Failure> {
    if m.released then Some(Released)
    else if !m.bindingValid then Some(BindingDrift)
    else if m.executionIdentity != m.config.boundIdentity then Some(InputDrift)
    else None
  }

  predicate Settled(m: Machine) {
    forall i :: 0 <= i < |m.pending| ==> m.pending[i].settled
  }

  function Revalidate(m: Machine, candidate: State): Result<State, StateError> {
    ValidState(m.config.host.codec, m.config.manifest, candidate)
  }

  function StepBegin(m: Machine, id: Name, rows: seq<Row>): (Machine, Outcome) {
    if m.quiescing then (m, Failed(Quiescing))
    else
      match Revalidate(m, m.state[id := rows])
      case Err(e) => (m, Failed(Invalid(e)))
      case Ok(valid) =>
        if id !in valid then (m, Failed(UnknownRelation))
        else
          var p := Pending(id, valid[id], false, false);
          (m.(pending := m.pending + [p]), Began(p))
  }

  function Resolve(m: Machine, t: Target): Option<Pending> {
    match t
    case Own(i) => if i < |m.pending| then Some(m.pending[i]) else None
    case Copy(p) => if p in m.pending then Some(p) else None
  }

  function StepSettle(m: Machine, t: Target, commit: bool): (Machine, Outcome) {
    match Resolve(m, t)
    case None => (m, Failed(NotPending))
    case Some(p) =>
      if p.settled then (m, Failed(NotPending))
      else
        var state := if commit then m.state[p.relationId := p.replacement] else m.state;
        var marked := p.(settled := true, committed := p.committed || commit);
        var pending := if t.Own? then m.pending[t.index := marked] else m.pending;
        (m.(state := state, pending := pending), Done)
  }

  function StepSnapshot(m: Machine): (Machine, Outcome) {
    match TryImage(m.config, m.state)
    case None => (m, Failed(UnknownRelation))
    case Some(image) => (m.(sequence := m.sequence + 1), Took(Snapshot(m.sequence + 1, m.config.owner, image)))
  }

  function ResetOutcome(c: Config): Outcome {
    match TryImage(c, c.baseline)
    case None => Failed(UnknownRelation)
    case Some(image) =>
      match DigestOf(c.host, image)
      case None => Failed(Undocumented)
      case Some(d) => if d != c.baselineDigest then Failed(ResetMismatch) else Observed(image)
  }

  /** `reset`: the state is replaced before its digest is compared. */
  function StepReset(m: Machine): (Machine, Outcome) {
    (m.(state := m.config.baseline), ResetOutcome(m.config))
  }

  function RestoreOutcome(c: Config, valid: State, s: Snapshot): Outcome {
    match TryImage(c, valid)
    case None => Failed(UnknownRelation)
    case Some(image) =>
      match (DigestOf(c.host, image), DigestOf(c.host, s.image))
      case (Some(seen), Some(wanted)) => Restored(seen == wanted)
      case _ => Failed(Undocumented)
  }

  /** `restore`: owner and manifest first, then the rows; the state is replaced before digests
      are compared. */
  function StepRestore(m: Machine, s: Snapshot): (Machine, Outcome) {
    if s.owner != m.config.owner then (m, Failed(ForeignSnapshot))
    else if s.image.manifestDigest != m.config.manifestDigest then (m, Failed(ManifestMismatch))
    else
      match Revalidate(m, DictOf(s.image.relations))
      case Err(e) => (m, Failed(Invalid(e)))
      case Ok(valid) => (m.(state := valid), RestoreOutcome(m.config, valid, s))
  }

  function StepReplace(m: Machine, replacements: State): (Machine, Outcome) {
    if m.quiescing then (m, Failed(Quiescing))
    else if replacements == map[] then (m, Failed(NothingToReplace))
    else if !(replacements.Keys <= m.state.Keys) then (m, Failed(UnknownRelation))
    else
      match Revalidate(m, m.state + replacements)
      case Err(e) => (m, Failed(Invalid(e)))
      case Ok(valid) => (m.(state := valid), Done)
  }

  function StepFinal(m: Machine, id: Name): (Machine, Outcome) {
    if !m.quiescing || !Settled(m) then (m, Failed(NotSettled))
    else
      match Project(m.config.manifest, m.state, id)
      case Err(e) => (m, Failed(e))
      case Ok(document) => (m, Projected(document))
  }

  function StepLive(m: Machine, op: Op): (Machine, Outcome) {
    match op
    case Begin(id, rows) => StepBegin(m, id, rows)
    case Settle(t, commit) => StepSettle(m, t, commit)
    case EnterQuiescing => (m.(quiescing := true), Done)
    case FinalProjection(id) => StepFinal(m, id)
    case TakeSnapshot => StepSnapshot(m)
    case Reset => StepReset(m)
    case Restore(s) => StepRestore(m, s)
    case Release => (m.(released := true), Done)
    case SetBindingValid(valid) => (m.(bindingValid := valid), Done)
    case SetExecutionIdentity(identity) => (m.(executionIdentity := identity), Done)
    case ReplaceAtomically(replacements) => StepReplace(m, replacements)
  }

  /** Everything but release and the two drift controls first asks whether the resource is live. */
  function Step(m: Machine, op: Op): (Machine, Outcome) {
    if op.Release? || op.SetBindingValid? || op.SetExecutionIdentity? || Liveness(m).None? then StepLive(m, op)
    else (m, Failed(Liveness(m).value))
  }

  // Creation.

  /** The constructor's checks, in order. */
  function Configure(host: Host, owner: Identity, manifest: Manifest, claimedManifest: int,
                     baseline: State, claimedBaseline: int, identity: int): Result<Config, Failure>
  {
    if !Integral(manifest) then Err(NotIntegral)
    else if |owner.instanceId| == 0 then Err(EmptyInstance)
    else if host.manifestDigest(manifest) != claimedManifest then Err(ManifestMismatch)
    else
      match ValidState(host.codec, manifest, baseline)
      case Err(e) => Err(Invalid(e))
      case Ok(valid) =>
        var config := Config(host, owner, manifest, claimedManifest, valid, claimedBaseline, identity);
        if !Surface(manifest, valid) then Err(UnknownRelation)
        else
          match DigestOf(host, ImageFor(config, valid))
          case None => Err(Undocumented)
          case Some(d) => if d != claimedBaseline then Err(BaselineMismatch) else Ok(config)
  }

  function Start(c: Config): Machine {
    Machine(c, c.baseline, [], false, false, true, c.boundIdentity, 0)
  }

  // The invariant.

  predicate Configured(c: Config) {
    && Integral(c.manifest) && CanonicalState(c.host.codec, c.manifest, c.baseline)
    && Surface(c.manifest, c.baseline)
    && DigestOf(c.host, ImageFor(c, c.baseline)) == Some(c.baselineDigest)
  }

  /** Replacement rows are canonical rows of some declared relation. */
  ghost predicate Proposable(c: Config, p: Pending) {
    exists i :: 0 <= i < |c.manifest.relations| && c.manifest.relations[i].id == p.relationId
      && CanonicalRows(c.host.codec, c.manifest.relations[i], p.replacement)
  }

  ghost predicate Inv(m: Machine) {
    && Configured(m.config) && Covered(m)
    && CanonicalState(m.config.host.codec, m.config.manifest, m.state)
    && forall i :: 0 <= i < |m.pending| ==> Proposable(m.config, m.pending[i])
  }

  lemma {:induction false} ValidSurface(codec: Codec, m: Manifest, s: State)
    requires Distinct(RelationIds(m.relations)) && ValidState(codec, m, s).Ok?
    ensures Surface(m, s) && Surface(m, ValidState(codec, m, s).value)
    ensures CanonicalState(codec, m, ValidState(codec, m, s).value)
  {
    StateCoverage(m, s);
    StatePerRelation(codec, m.relations, s);
    StateIsStable(codec, m, s);
  }

  lemma {:induction false} RelationOf(codec: Codec, m: Manifest, s: State, id: Name) returns (i: nat)
    requires Distinct(RelationIds(m.relations)) && CanonicalState(codec, m, s) && id in s
    ensures i < |m.relations| && m.relations[i].id == id && CanonicalRows(codec, m.relations[i], s[id])
  {
    ValidSurface(codec, m, s);
    assert id in RelationIds(m.relations);
    i :| 0 <= i < |m.relations| && RelationIds(m.relations)[i] == id;
    StateCoverage(m, s);
    StatePerRelation(codec, m.relations, s);
  }

  /** Every row of a canonical state is bound to its relation's non-empty key. */
  lemma {:induction false} CanonicalIsDocumented(c: Config, s: State)
    requires Integral(c.manifest) && CanonicalState(c.host.codec, c.manifest, s)
    ensures Surface(c.manifest, s) && Documented(ImageFor(c, s))
  {
    ValidSurface(c.host.codec, c.manifest, s);
    var image := ImageFor(c, s);
    forall i, j | 0 <= i < |image.relations| && 0 <= j < |image.relations[i].1|
      ensures RowDocumented(image.relations[i].1[j])
    {
      SurfaceCovers(c.manifest, s);
      var id := image.relations[i].0;
      assert id in s;
      var n := RelationOf(c.host.codec, c.manifest, s, id);
      RowsDocumented(c.host.codec, c.manifest.relations[n], s[id], j);
    }
  }

  lemma {:induction false} RowsDocumented(codec: Codec, rel: Relation, rows: seq<Row>, j: nat)
    requires RelationIntegral(rel) && CanonicalRows(codec, rel, rows) && j < |rows|
    ensures RowDocumented(rows[j])
  {
    CanonicalMeansSorted(codec, rel, rows);
    assert Values(ScannedAll(codec, rel, rows))[j] == rows[j];
    SortNamesSorts(rel.rowKey);
    assert rel.rowKey[0] in SortNames(rel.rowKey);
  }

  lemma {:induction false} ConfigureEstablishes(host: Host, owner: Identity, manifest: Manifest, claimedManifest: int,
                                                baseline: State, claimedBaseline: int, identity: int)
    ensures var r := Configure(host, owner, manifest, claimedManifest, baseline, claimedBaseline, identity);
      r.Ok? ==> Configured(r.value) && Inv(Start(r.value))
  {
    if Integral(manifest) && ValidState(host.codec, manifest, baseline).Ok? {
      ValidSurface(host.codec, manifest, baseline);
    }
  }

  lemma {:induction false} AdoptKeepsInv(m: Machine, s: State)
    requires Inv(m) && CanonicalState(m.config.host.codec, m.config.manifest, s) && Surface(m.config.manifest, s)
    ensures Inv(m.(state := s))
  {
    var next := m.(state := s);
    forall i | 0 <= i < |next.pending| ensures Proposable(next.config, next.pending[i]) {
      assert Proposable(m.config, m.pending[i]);
    }
  }

  lemma {:induction false} BeginKeepsInv(m: Machine, id: Name, rows: seq<Row>)
    requires Inv(m)
    ensures Inv(StepBegin(m, id, rows).0)
  {
    var r := Revalidate(m, m.state[id := rows]);
    if r.Ok? && id in r.value {
      ValidSurface(m.config.host.codec, m.config.manifest, m.state[id := rows]);
      var i := RelationOf(m.config.host.codec, m.config.manifest, r.value, id);
      ProposeKeepsInv(m, Pending(id, r.value[id], false, false), i);
    }
  }

  lemma {:induction false} ProposeKeepsInv(m: Machine, p: Pending, i: nat)
    requires Inv(m) && i < |m.config.manifest.relations| && m.config.manifest.relations[i].id == p.relationId
    requires CanonicalRows(m.config.host.codec, m.config.manifest.relations[i], p.replacement)
    ensures Inv(m.(pending := m.pending + [p]))
  {
    assert RelationIds(m.config.manifest.relations)[i] == p.relationId;
    assert Proposable(m.config, p);
  }

  lemma {:induction false} CommitKeepsCanonical(m: Machine, p: Pending)
    requires Inv(m) && p in m.pending
    ensures CanonicalState(m.config.host.codec, m.config.manifest, m.state[p.relationId := p.replacement])
    ensures Surface(m.config.manifest, m.state[p.relationId := p.replacement])
  {
    var i :| 0 <= i < |m.config.manifest.relations| && m.config.manifest.relations[i].id == p.relationId
      && CanonicalRows(m.config.host.codec, m.config.manifest.relations[i], p.replacement);
    ReplaceKeepsCanonical(m.config.host.codec, m.config.manifest, m.state, i, p.replacement);
    assert RelationIds(m.config.manifest.relations)[i] == p.relationId;
  }

  lemma {:induction false} MarkedIsProposable(c: Config, p: Pending, committed: bool)
    requires Proposable(c, p)
    ensures Proposable(c, p.(settled := true, committed := committed))
  {
    var i :| 0 <= i < |c.manifest.relations| && c.manifest.relations[i].id == p.relationId
      && CanonicalRows(c.host.codec, c.manifest.relations[i], p.replacement);
  }

  lemma {:induction false} MarkKeepsInv(m: Machine, i: nat, committed: bool)
    requires Inv(m) && i < |m.pending|
    ensures Inv(m.(pending := m.pending[i := m.pending[i].(settled := true, committed := committed)]))
  {
    MarkedIsProposable(m.config, m.pending[i], committed);
  }

  lemma {:induction false} SettleKeepsInv(m: Machine, t: Target, commit: bool)
    requires Inv(m)
    ensures Inv(StepSettle(m, t, commit).0)
  {
    if Resolve(m, t).Some? && !Resolve(m, t).value.settled {
      var p := Resolve(m, t).value;
      var next := CommitKeepsInv(m, p, commit);
      SettleShape(m, t, commit, next);
      if t.Own? {
        MarkKeepsInv(next, t.index, p.committed || commit);
      }
    }
  }

  lemma {:induction false} SettleShape(m: Machine, t: Target, commit: bool, next: Machine)
    requires Resolve(m, t).Some? && !Resolve(m, t).value.settled
    requires var p := Resolve(m, t).value;
      next == m.(state := if commit then m.state[p.relationId := p.replacement] else m.state)
    ensures t.Own? ==> t.index < |next.pending|
    ensures StepSettle(m, t, commit).0 ==
      if t.Copy? then next
      else next.(pending := next.pending[t.index := next.pending[t.index].(settled := true,
        committed := Resolve(m, t).value.committed || commit)])
  {
  }

  lemma {:induction false} CommitKeepsInv(m: Machine, p: Pending, commit: bool) returns (next: Machine)
    requires Inv(m) && p in m.pending
    ensures next == m.(state := if commit then m.state[p.relationId := p.replacement] else m.state) && Inv(next)
  {
    CommitKeepsCanonical(m, p);
    next := m.(state := if commit then m.state[p.relationId := p.replacement] else m.state);
    AdoptKeepsInv(m, next.state);
  }

  lemma {:induction false} RevalidateKeepsInv(m: Machine, candidate: State)
    requires Inv(m) && Revalidate(m, candidate).Ok?
    ensures Inv(m.(state := Revalidate(m, candidate).value))
  {
    ValidSurface(m.config.host.codec, m.config.manifest, candidate);
    AdoptKeepsInv(m, Revalidate(m, candidate).value);
  }

  lemma {:induction false} RestoreKeepsInv(m: Machine, s: Snapshot)
    requires Inv(m)
    ensures Inv(StepRestore(m, s).0)
  {
    RestoreShape(m, s);
    if Revalidate(m, DictOf(s.image.relations)).Ok? {
      RevalidateKeepsInv(m, DictOf(s.image.relations));
    }
  }

  lemma {:induction false} ReplaceKeepsInv(m: Machine, replacements: State)
    requires Inv(m)
    ensures Inv(StepReplace(m, replacements).0)
  {
    if Revalidate(m, m.state + replacements).Ok? {
      RevalidateKeepsInv(m, m.state + replacements);
    }
  }

  lemma {:induction false} FlagsKeepInv(m: Machine, q: bool, r: bool, b: bool, e: int, n: nat)
    requires Inv(m)
    ensures Inv(m.(quiescing := q, released := r, bindingValid := b, executionIdentity := e, sequence := n))
  {
    var next := m.(quiescing := q, released := r, bindingValid := b, executionIdentity := e, sequence := n);
    forall i | 0 <= i < |next.pending| ensures Proposable(next.config, next.pending[i]) {
      assert Proposable(m.config, m.pending[i]);
    }
  }

  lemma {:induction false} LiveStepKeepsInv(m: Machine, op: Op)
    requires Inv(m)
    ensures Inv(StepLive(m, op).0)
  {
    match op {
      case Begin(id, rows) => BeginKeepsInv(m, id, rows);
      case Settle(t, commit) => SettleKeepsInv(m, t, commit);
      case Restore(s) => RestoreKeepsInv(m, s);
      case ReplaceAtomically(replacements) => ReplaceKeepsInv(m, replacements);
      case Reset => AdoptKeepsInv(m, m.config.baseline);
      case EnterQuiescing => FlagsKeepInv(m, true, m.released, m.bindingValid, m.executionIdentity, m.sequence);
      case TakeSnapshot => FlagsKeepInv(m, m.quiescing, m.released, m.bindingValid, m.executionIdentity, m.sequence + 1);
      case Release => FlagsKeepInv(m, m.quiescing, true, m.bindingValid, m.executionIdentity, m.sequence);
      case SetBindingValid(b) => FlagsKeepInv(m, m.quiescing, m.released, b, m.executionIdentity, m.sequence);
      case SetExecutionIdentity(e) => FlagsKeepInv(m, m.quiescing, m.released, m.bindingValid, e, m.sequence);
      case FinalProjection(_) =>
    }
  }

  /** Every call, successful or refused, keeps the committed state canonical. */
  lemma {:induction false} StepKeepsInv(m: Machine, op: Op)
    requires Inv(m)
    ensures Inv(Step(m, op).0)
  {
    LiveStepKeepsInv(m, op);
  }

  // Runs.

  lemma {:induction false} RevalidateCovers(m: Machine, candidate: State)
    requires Covered(m) && Revalidate(m, candidate).Ok?
    ensures Surface(m.config.manifest, Revalidate(m, candidate).value)
  {
    ValidSurface(m.config.host.codec, m.config.manifest, candidate);
  }

  /** What every call leaves in place: the surface, the configuration, the snapshot count. */
  ghost predicate Continues(m: Machine, n: Machine) {
    Covered(n) && n.config == m.config && n.sequence >= m.sequence
  }

  lemma {:induction false} BeginContinues(m: Machine, id: Name, rows: seq<Row>)
    requires Covered(m)
    ensures Continues(m, StepBegin(m, id, rows).0)
  {
    if Revalidate(m, m.state[id := rows]).Ok? {
      RevalidateCovers(m, m.state[id := rows]);
    }
  }

  lemma {:induction false} SettleContinues(m: Machine, t: Target, commit: bool)
    requires Covered(m)
    ensures Continues(m, StepSettle(m, t, commit).0)
  {
    if Resolve(m, t).Some? {
      var p := Resolve(m, t).value;
      assert m.state[p.relationId := p.replacement].Keys == m.state.Keys;
    }
  }

  lemma {:induction false} AdoptContinues(m: Machine, s: State)
    requires Covered(m) && Surface(m.config.manifest, s)
    ensures Continues(m, m.(state := s))
  {
  }

  /** A restore leaves the machine alone or adopts the validated rows; nothing else. */
  lemma {:induction false} RestoreShape(m: Machine, s: Snapshot)
    ensures var r := Revalidate(m, DictOf(s.image.relations));
      StepRestore(m, s).0 == m || (r.Ok? && StepRestore(m, s).0 == m.(state := r.value))
  {
  }

  lemma {:induction false} RestoreContinues(m: Machine, s: Snapshot)
    requires Covered(m)
    ensures Continues(m, StepRestore(m, s).0)
  {
    var r := Revalidate(m, DictOf(s.image.relations));
    RestoreShape(m, s);
    if r.Ok? {
      RevalidateCovers(m, DictOf(s.image.relations));
      AdoptContinues(m, r.value);
    }
  }

  lemma {:induction false} ReplaceContinues(m: Machine, replacements: State)
    requires Covered(m)
    ensures Continues(m, StepReplace(m, replacements).0)
  {
    var r := Revalidate(m, m.state + replacements);
    if r.Ok? {
      RevalidateCovers(m, m.state + replacements);
      AdoptContinues(m, r.value);
    }
  }

  lemma {:induction false} LiveStepContinues(m: Machine, op: Op)
    requires Covered(m)
    ensures Continues(m, StepLive(m, op).0)
  {
    match op {
      case Begin(id, rows) => BeginContinues(m, id, rows);
      case Settle(t, commit) => SettleContinues(m, t, commit);
      case Restore(s) => RestoreContinues(m, s);
      case ReplaceAtomically(replacements) => ReplaceContinues(m, replacements);
      case _ =>
    }
  }

  lemma {:induction false} StepCovers(m: Machine, op: Op)
    requires Covered(m)
    ensures Continues(m, Step(m, op).0)
  {
    LiveStepContinues(m, op);
  }

  function Run(m: Machine, ops: seq<Op>): Machine
    decreases |ops|
  {
    if |ops| == 0 then m else Run(Step(m, ops[0]).0, ops[1..])
  }

  lemma {:induction false} RunCovers(m: Machine, ops: seq<Op>)
    requires Covered(m)
    ensures Continues(m, Run(m, ops))
    decreases |ops|
  {
    if |ops| != 0 {
      StepCovers(m, ops[0]);
      RunCovers(Step(m, ops[0]).0, ops[1..]);
    }
  }

  /** On every run the committed state is canonical and every proposed mutation still fits it. */
  lemma {:induction false} RunKeepsInv(m: Machine, ops: seq<Op>)
    requires Inv(m)
    ensures Inv(Run(m, ops))
    decreases |ops|
  {
    if |ops| != 0 {
      StepKeepsInv(m, ops[0]);
      RunKeepsInv(Step(m, ops[0]).0, ops[1..]);
    }
  }

  /** The committed state changes only by a settled commit of a pending mutation, by reset,
      by restore or by the privileged atomic replacement, and then to exactly this. */
  lemma {:induction false} OnlyWritersChangeState(m: Machine, op: Op)
    ensures var next := Step(m, op).0.state;
      next != m.state ==> Liveness(m).None? && match op
        case Settle(t, commit) =>
          commit && Resolve(m, t).Some? && !Resolve(m, t).value.settled
          && next == m.state[Resolve(m, t).value.relationId := Resolve(m, t).value.replacement]
        case Reset => next == m.config.baseline
        case Restore(s) =>
          s.owner == m.config.owner && Revalidate(m, DictOf(s.image.relations)) == Ok(next)
        case ReplaceAtomically(replacements) =>
          !m.quiescing && Revalidate(m, m.state + replacements) == Ok(next)
        case _ => false
  {
  }

  predicate Writes(op: Op) {
    op.Reset? || op.Restore? || op.ReplaceAtomically? || (op.Settle? && op.commit)
  }

  /** A run without a writing call leaves the committed state as it is. */
  lemma {:induction false} NoWriterNoChange(m: Machine, ops: seq<Op>)
    requires forall i :: 0 <= i < |ops| ==> !Writes(ops[i])
    ensures Run(m, ops).state == m.state
    decreases |ops|
  {
    if |ops| != 0 {
      OnlyWritersChangeState(m, ops[0]);
      NoWriterNoChange(Step(m, ops[0]).0, ops[1..]);
    }
  }

  predicate Rewinds(op: Op) {
    op.Reset? || op.Restore?
  }

  /** A quiesced, settled resource has no way to change its state but reset and restore. */
  lemma {:induction false} QuiescedStaysPut(m: Machine, ops: seq<Op>)
    requires m.quiescing && Settled(m)
    requires forall i :: 0 <= i < |ops| ==> !Rewinds(ops[i])
    ensures var n := Run(m, ops); n.state == m.state && n.quiescing && n.pending == m.pending && n.config == m.config
    decreases |ops|
  {
    if |ops| != 0 {
      QuiescedStep(m, ops[0]);
      QuiescedStaysPut(Step(m, ops[0]).0, ops[1..]);
    }
  }

  lemma {:induction false} QuiescedStep(m: Machine, op: Op)
    requires m.quiescing && Settled(m) && !Rewinds(op)
    ensures var n := Step(m, op).0; n.state == m.state && n.quiescing && n.pending == m.pending && n.config == m.config
  {
  }

  /** Once quiesced and fully settled, one projection id always yields one document: any later
      call, after any operations but reset and restore, answers the same or finds the resource
      no longer live. */
  lemma {:induction false} FinalProjectionIsFinal(m: Machine, ops: seq<Op>, id: Name)
    requires m.quiescing && Settled(m) && Liveness(m).None?
    requires forall i :: 0 <= i < |ops| ==> !Rewinds(ops[i])
    ensures var n := Run(m, ops);
      Step(n, FinalProjection(id)).1 ==
        if Liveness(n).Some? then Failed(Liveness(n).value) else Step(m, FinalProjection(id)).1
  {
    QuiescedStaysPut(m, ops);
  }

  lemma {:induction false} ImageForKeepsState(c: Config, s: State)
    requires Surface(c.manifest, s)
    ensures DictOf(ImageFor(c, s).relations) == s
  {
    ImageKeepsState(c.manifest, c.manifestDigest, s);
  }

  lemma {:induction false} RestoreImage(m: Machine, s: Snapshot, state: State)
    requires Covered(m) && Liveness(m).None? && Integral(m.config.manifest)
    requires Surface(m.config.manifest, state) && CanonicalState(m.config.host.codec, m.config.manifest, state)
    requires s.owner == m.config.owner && s.image == ImageFor(m.config, state)
    ensures Step(m, Restore(s)) == (m.(state := state), Restored(true))
  {
    ImageForKeepsState(m.config, state);
    CanonicalIsDocumented(m.config, state);
  }

  lemma {:induction false} SnapshotTakesImage(m: Machine)
    requires Liveness(m).None? && Surface(m.config.manifest, m.state)
    ensures Step(m, TakeSnapshot) ==
      (m.(sequence := m.sequence + 1), Took(Snapshot(m.sequence + 1, m.config.owner, ImageFor(m.config, m.state))))
  {
  }

  lemma {:induction false} RestoreLater(w: Machine, ops: seq<Op>, s: Snapshot, state: State)
    requires Covered(w) && Integral(w.config.manifest)
    requires Surface(w.config.manifest, state) && CanonicalState(w.config.host.codec, w.config.manifest, state)
    requires s.owner == w.config.owner && s.image == ImageFor(w.config, state)
    ensures var n := Run(w, ops);
      Liveness(n).None? ==> Step(n, Restore(s)) == (n.(state := state), Restored(true))
  {
    RunCovers(w, ops);
    if Liveness(Run(w, ops)).None? {
      RestoreImage(Run(w, ops), s, state);
    }
  }

  /** Restoring a snapshot this resource took returns STATE_EQUIVALENT and exactly the rows of
      the moment it was taken, whatever happened in between. */
  lemma {:induction false} RestoreReturns(m: Machine, ops: seq<Op>)
    requires Inv(m) && Liveness(m).None?
    ensures Step(m, TakeSnapshot).1.Took?
    ensures var s, n := Step(m, TakeSnapshot).1.snapshot, Run(Step(m, TakeSnapshot).0, ops);
      Liveness(n).None? ==> Step(n, Restore(s)) == (n.(state := m.state), Restored(true))
  {
    SnapshotTakesImage(m);
    StepCovers(m, TakeSnapshot);
    RestoreLater(Step(m, TakeSnapshot).0, ops, Step(m, TakeSnapshot).1.snapshot, m.state);
  }

  /** `reset` always succeeds on a live resource: its identity check cannot fire. */
  lemma {:induction false} ResetAlwaysSucceeds(c: Config, ops: seq<Op>)
    requires Configured(c)
    ensures var n := Run(Start(c), ops);
      Liveness(n).None? ==> Step(n, Reset) == (n.(state := c.baseline), Observed(ImageFor(c, c.baseline)))
  {
    RunCovers(Start(c), ops);
  }

  /** What a restore answers once its rows have passed validation. */
  lemma {:induction false} RestoreVerdict(m: Machine, s: Snapshot)
    requires Distinct(RelationIds(m.config.manifest.relations)) && Integral(m.config.manifest)
    requires Revalidate(m, DictOf(s.image.relations)).Ok?
    ensures Surface(m.config.manifest, Revalidate(m, DictOf(s.image.relations)).value)
    ensures var valid := Revalidate(m, DictOf(s.image.relations)).value;
      RestoreOutcome(m.config, valid, s) ==
        if !Documented(s.image) then Failed(Undocumented)
        else
          Restored(m.config.host.imageDigest(DocumentOf(ImageFor(m.config, valid)))
            == m.config.host.imageDigest(DocumentOf(s.image)))
  {
    ValidSurface(m.config.host.codec, m.config.manifest, DictOf(s.image.relations));
    CanonicalIsDocumented(m.config, Revalidate(m, DictOf(s.image.relations)).value);
  }

  /** The snapshot is this resource's and its rows are valid under this manifest. */
  predicate Accepted(m: Machine, s: Snapshot) {
    && s.owner == m.config.owner && s.image.manifestDigest == m.config.manifestDigest
    && Revalidate(m, DictOf(s.image.relations)).Ok?
  }

  lemma {:induction false} RestoreAdopts(m: Machine, s: Snapshot)
    requires Accepted(m, s) && Liveness(m).None?
    ensures var valid := Revalidate(m, DictOf(s.image.relations)).value;
      Step(m, Restore(s)) == (m.(state := valid), RestoreOutcome(m.config, valid, s))
  {
  }

  /** `restore` replaces the state before it compares digests. It therefore raises with the
      state already replaced exactly when the snapshot is this resource's, its rows are valid
      and some row in it is not bound to a key. A snapshot of another resource or manifest, or
      with invalid rows, is refused with nothing changed. */
  lemma {:induction false} RestoreRaisesAfterReplacing(m: Machine, s: Snapshot)
    requires Integral(m.config.manifest) && Liveness(m).None?
    ensures Step(m, Restore(s)).1 == Failed(Undocumented) <==> Accepted(m, s) && !Documented(s.image)
    ensures Accepted(m, s) ==> Ok(Step(m, Restore(s)).0.state) == Revalidate(m, DictOf(s.image.relations))
    ensures !Accepted(m, s) ==> Step(m, Restore(s)).0 == m && Step(m, Restore(s)).1.Failed?
  {
    if Accepted(m, s) {
      RestoreVerdict(m, s);
      RestoreAdopts(m, s);
    }
  }

  function Unbind(row: Row): Row {
    row.(keyColumns := [])
  }

  /** The same rows as `RelationalRow` objects built without key columns. */
  function Unbound(s: State): (u: State)
    ensures u.Keys == s.Keys
  {
    map id | id in s :: Map(Unbind, s[id])
  }

  lemma {:induction false} UnboundRows(codec: Codec, rel: Relation, rows: seq<Row>)
    requires CanonicalRows(codec, rel, rows)
    ensures ValidRelation(codec, rel, Map(Unbind, rows)) == Ok(rows)
  {
    var rule := RowRule(codec, rel);
    forall i | 0 <= i < |rows| ensures Verdict(rule, Map(Unbind, rows)[i]) == Verdict(rule, rows[i]) {
      assert DictOf(Unbind(rows[i]).values) == DictOf(rows[i].values);
    }
    assert Verdicts(rule, Map(Unbind, rows)) == Verdicts(rule, rows);
    ScanCollects(rule, Map(Unbind, rows));
    ScanCollects(rule, rows);
  }

  lemma {:induction false} UnboundState(codec: Codec, m: Manifest, s: State)
    requires Distinct(RelationIds(m.relations)) && CanonicalState(codec, m, s)
    ensures ValidState(codec, m, Unbound(s)) == Ok(s)
  {
    StateCoverage(m, s);
    StatePerRelation(codec, m.relations, s);
    forall i | 0 <= i < |m.relations|
      ensures ValidRelation(codec, m.relations[i], Unbound(s)[m.relations[i].id]) == Ok(s[m.relations[i].id])
    {
      UnboundRows(codec, m.relations[i], s[m.relations[i].id]);
    }
    StatePerRelation(codec, m.relations, Unbound(s));
    SameState(m, ValidState(codec, m, Unbound(s)).value, s);
  }

  lemma {:induction false} UnboundIsUndocumented(c: Config, s: State, id: Name)
    requires Surface(c.manifest, s) && id in s && s[id] != []
    ensures !Documented(ImageFor(c, Unbound(s)))
  {
    SurfaceCovers(c.manifest, Unbound(s));
    IdsOfSorted(c.manifest, id);
    assert id in Elements(RelationIds(c.manifest.relations));
    var ids := RelationIds(SortedRelations(c.manifest));
    var i :| 0 <= i < |ids| && ids[i] == id;
    var image := ImageFor(c, Unbound(s));
    assert image.relations[i] == (id, Unbound(s)[id]);
    assert !RowDocumented(image.relations[i].1[0]);
  }

  /** For every live resource and every valid state with a row: restoring that state's rows, as
      objects built without key columns, raises with the state replaced. */
  lemma {:induction false} UnboundRowsRaise(m: Machine, s: State, id: Name, sequence: nat)
    requires Inv(m) && Liveness(m).None? && CanonicalState(m.config.host.codec, m.config.manifest, s)
    requires id in s && s[id] != []
    ensures Surface(m.config.manifest, s)
    ensures Step(m, Restore(Snapshot(sequence, m.config.owner, ImageFor(m.config, Unbound(s))))) ==
      (m.(state := s), Failed(Undocumented))
  {
    ValidSurface(m.config.host.codec, m.config.manifest, s);
    var snapshot := Snapshot(sequence, m.config.owner, ImageFor(m.config, Unbound(s)));
    ImageForKeepsState(m.config, Unbound(s));
    UnboundState(m.config.host.codec, m.config.manifest, s);
    UnboundIsUndocumented(m.config, s, id);
    RestoreAdopts(m, snapshot);
    RestoreVerdict(m, snapshot);
  }

  /** With a digest that distinguishes documents, an accepted restore reports STATE_EQUIVALENT
      exactly when the snapshot's document is that of the canonical image now in place. */
  lemma {:induction false} EquivalentMeansCanonical(m: Machine, s: Snapshot)
    requires Integral(m.config.manifest) && Liveness(m).None? && Accepted(m, s) && Documented(s.image)
    requires forall a, b :: m.config.host.imageDigest(a) == m.config.host.imageDigest(b) ==> a == b
    ensures Surface(m.config.manifest, Step(m, Restore(s)).0.state)
    ensures Step(m, Restore(s)).1 == Restored(DocumentOf(ImageFor(m.config, Step(m, Restore(s)).0.state)) == DocumentOf(s.image))
  {
    RestoreVerdict(m, s);
    RestoreAdopts(m, s);
  }

  /** Settling an equal copy commits the rows but leaves the resource's own mutation pending,
      so a quiescing resource stays unsettled. */
  lemma {:induction false} EqualCopyLeavesOriginalPending(m: Machine, i: nat)
    requires Liveness(m).None? && i < |m.pending| && !m.pending[i].settled
    ensures var r := Step(m, Settle(Copy(m.pending[i]), true));
      && r.1 == Done && r.0.state[m.pending[i].relationId] == m.pending[i].replacement
      && r.0.pending == m.pending && !Settled(r.0)
  {
  }

  /** This call settles the i-th mutation through its own object. */
  predicate SettlesOwn(m: Machine, op: Op, i: nat) {
    op.Settle? && op.target == Own(i) && Step(m, op).1 == Done
  }

  predicate RunSettlesOwn(m: Machine, ops: seq<Op>, i: nat)
    decreases |ops|
  {
    |ops| != 0 && (SettlesOwn(m, ops[0], i) || RunSettlesOwn(Step(m, ops[0]).0, ops[1..], i))
  }

  lemma {:induction false} StepSettlesExactly(m: Machine, op: Op, i: nat)
    requires i < |m.pending|
    ensures i < |Step(m, op).0.pending|
    ensures Step(m, op).0.pending[i].settled <==> m.pending[i].settled || SettlesOwn(m, op, i)
  {
  }

  /** On every run a mutation becomes settled exactly through its own object, however many equal
      copies are settled; until then the final projection is refused. */
  lemma {:induction false} SettledExactlyThroughOwnObject(m: Machine, ops: seq<Op>, i: nat, id: Name)
    requires i < |m.pending|
    ensures i < |Run(m, ops).pending|
    ensures Run(m, ops).pending[i].settled <==> m.pending[i].settled || RunSettlesOwn(m, ops, i)
    ensures !m.pending[i].settled && !RunSettlesOwn(m, ops, i) ==> Step(Run(m, ops), FinalProjection(id)).1.Failed?
    decreases |ops|
  {
    if |ops| != 0 {
      StepSettlesExactly(m, ops[0], i);
      SettledExactlyThroughOwnObject(Step(m, ops[0]).0, ops[1..], i, id);
    }
  }

  /** Snapshot numbers only grow: a later snapshot never has the number of an earlier one. */
  lemma {:induction false} SnapshotNumbersGrow(m: Machine, ops: seq<Op>)
    requires Covered(m)
    ensures Step(Run(m, ops), TakeSnapshot).1.Took? ==>
      Step(Run(m, ops), TakeSnapshot).1.snapshot.sequence > m.sequence
  {
    RunCovers(m, ops);
  }
}
