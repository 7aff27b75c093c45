/** Relational values, manifests and the canonical committed state
    (src/avp_ref/relational.py: data classes and `_validate_state_for_manifest`). */
module RelationalState {
  import opened Common
  import opened Ordering
  import opened Canonical
  import DecimalValue
  import BinaryValue

  /** Identifiers and canonical key bytes, compared as Python compares them. */
  type Name = seq<int>

  datatype ValueKind =
    Boolean | Integer | Decimal | Textual | Binary | Date | TimeLocal | TimestampLocal | TimestampInstant | Uuid

  datatype RawValue = Null | Flag(flag: bool) | Chars(chars: Text)

  datatype Value = Value(kind: ValueKind, raw: RawValue)

  datatype ColumnType = ColumnType(kind: ValueKind, precision: nat, scale: nat, fractionDigits: nat)

  datatype Column = Column(id: Name, valueType: ColumnType, nullable: bool)

  datatype Relation = Relation(id: Name, columns: seq<Column>, rowKey: seq<Name>)

  datatype ProjectionRelation = ProjectionRelation(relationId: Name, columns: seq<Name>)

  datatype Projection = Projection(id: Name, relations: seq<ProjectionRelation>)

  datatype Manifest = Manifest(relations: seq<Relation>, projections: seq<Projection>)

  /** A row as callers build it: values in any order, keys possibly unbound. */
  datatype Row = Row(values: seq<(Name, Value)>, keyColumns: seq<Name>)

  type Key = seq<int>

  type State = map<Name, seq<Row>>

  /** What the code takes from elsewhere: canonical JSON bytes of a row key, and Python's
      calendar parsers. */
  datatype Codec = Codec(
    encodeKey: map<Name, Value> -> Key,
    temporal: (ColumnType, Text) -> bool)

  datatype ValueError = TypeMismatch | NullRefused | NotBoolean | NotText | NotLexical

  datatype StateError = NotCovering | ColumnsDiffer | BadValue(error: ValueError) | DuplicateKey

  function ColumnIds(rel: Relation): seq<Name> {
    Map((c: Column) => c.id, rel.columns)
  }

  function RelationIds(rels: seq<Relation>): seq<Name> {
    Map((r: Relation) => r.id, rels)
  }

  function FindRelation(rels: seq<Relation>, id: Name): Option<Relation> {
    if |rels| == 0 then None else if rels[0].id == id then Some(rels[0]) else FindRelation(rels[1..], id)
  }

  lemma {:induction false} FindRelationFinds(rels: seq<Relation>, id: Name)
    ensures FindRelation(rels, id).Some? <==> id in RelationIds(rels)
    ensures FindRelation(rels, id).Some? ==> FindRelation(rels, id).value in rels && FindRelation(rels, id).value.id == id
  {
    if |rels| != 0 {
      FindRelationFinds(rels[1..], id);
      assert RelationIds(rels) == [rels[0].id] + RelationIds(rels[1..]);
    }
  }

  // Manifest integrity.

  /** `_IDENTIFIER_RE`: a lower-case letter, then up to 127 of `[a-z0-9._-]`. */
  predicate Portable(n: Name) {
    && 1 <= |n| <= 128
    && 97 <= n[0] <= 122
    && forall i :: 1 <= i < |n| ==> 97 <= n[i] <= 122 || 48 <= n[i] <= 57 || n[i] in {46, 95, 45}
  }

  predicate RelationIntegral(rel: Relation) {
    && |rel.columns| > 0 && Distinct(ColumnIds(rel))
    && (forall i :: 0 <= i < |rel.columns| ==> Portable(ColumnIds(rel)[i]))
    && |rel.rowKey| > 0 && Distinct(rel.rowKey)
    && (forall k :: k in rel.rowKey ==> k in ColumnIds(rel))
  }

  predicate SelectionIntegral(m: Manifest, selected: ProjectionRelation) {
    && |selected.columns| > 0 && Distinct(selected.columns)
    && exists i :: 0 <= i < |m.relations| && m.relations[i].id == selected.relationId
         && (forall c :: c in selected.columns ==> c in ColumnIds(m.relations[i]))
         && (forall k :: k in m.relations[i].rowKey ==> k in selected.columns)
  }

  predicate ProjectionIntegral(m: Manifest, p: Projection) {
    && Portable(p.id) && |p.relations| > 0
    && Distinct(Map((s: ProjectionRelation) => s.relationId, p.relations))
    && forall i :: 0 <= i < |p.relations| ==> SelectionIntegral(m, p.relations[i])
  }

  /** `RelationalManifest.validate_integrity` with the checks of `RelationDefinition`. */
  predicate Integral(m: Manifest) {
    && |m.relations| > 0 && Distinct(RelationIds(m.relations))
    && (forall i :: 0 <= i < |m.relations| ==> Portable(m.relations[i].id) && RelationIntegral(m.relations[i]))
    && Distinct(Map((p: Projection) => p.id, m.projections))
    && (forall i :: 0 <= i < |m.projections| ==> ProjectionIntegral(m, m.projections[i]))
  }

  // Values.

  /** `_INTEGER_RE`: zero, or up to 65 digits without leading zeros and an optional minus. */
  predicate IntegerForm(s: Text) {
    var digits := if |s| > 0 && s[0] == 45 then s[1..] else s;
    s == [48] || (1 <= |digits| <= 65 && DecimalValue.AllDigits(digits) && digits[0] != 48)
  }

  predicate UuidForm(s: Text) {
    |s| == 36 && forall i :: 0 <= i < 36 ==>
      if i in {8, 13, 18, 23} then s[i] == 45 else 48 <= s[i] <= 57 || 97 <= s[i] <= 102
  }

  predicate Lexical(codec: Codec, t: ColumnType, s: Text) {
    match t.kind
    case Boolean => true
    case Integer => IntegerForm(s)
    case Decimal => DecimalValue.Validate(t.precision, t.scale, s).Ok?
    case Textual => IsScalarText(s)
    case Binary => BinaryValue.Validate(s).Ok?
    case Uuid => UuidForm(s)
    case _ => codec.temporal(t, s)
  }

  /** `_validate_value`. */
  function CheckValue(codec: Codec, column: Column, value: Value): Option<ValueError> {
    if value.kind != column.valueType.kind then Some(TypeMismatch)
    else
      match value.raw
      case Null => if column.nullable then None else Some(NullRefused)
      case Flag(_) => if value.kind.Boolean? then None else Some(NotText)
      case Chars(s) =>
        if value.kind.Boolean? then Some(NotBoolean)
        else if Lexical(codec, column.valueType, s) then None
        else Some(NotLexical)
  }

  function CheckValues(codec: Codec, columns: seq<Column>, values: map<Name, Value>): Option<ValueError>
    requires forall i :: 0 <= i < |columns| ==> columns[i].id in values
  {
    if |columns| == 0 then None
    else
      match CheckValue(codec, columns[0], values[columns[0].id])
      case Some(e) => Some(e)
      case None => CheckValues(codec, columns[1..], values)
  }

  /** `dict(pairs)`: a repeated name keeps its last value. */
  function DictOf<V>(pairs: seq<(Name, V)>): map<Name, V> {
    if |pairs| == 0 then map[]
    else DictOf(pairs[..|pairs| - 1])[pairs[|pairs| - 1].0 := pairs[|pairs| - 1].1]
  }

  /** The values of a mapping listed by the given names. */
  function Listed<V>(names: seq<Name>, values: map<Name, V>): (s: seq<(Name, V)>)
    requires forall n :: n in names ==> n in values
    ensures |s| == |names| && forall i :: 0 <= i < |names| ==> s[i] == (names[i], values[names[i]])
  {
    seq(|names|, i requires 0 <= i < |names| => (names[i], values[names[i]]))
  }

  /** `RelationalRow.from_mapping` for a mapping that covers exactly the columns. */
  function Bind(rel: Relation, values: map<Name, Value>): Row
    requires values.Keys == Elements(ColumnIds(rel))
  {
    SortNamesSorts(ColumnIds(rel));
    Row(Listed(SortNames(ColumnIds(rel)), values), SortNames(rel.rowKey))
  }

  /** `key_document` of a bound row. */
  function KeyDocument(row: Row): map<Name, Value> {
    var values := DictOf(row.values);
    map k | k in row.keyColumns && k in values :: values[k]
  }

  /** One turn of the row loop: column check, value checks in column order, binding. */
  function ScanRow(codec: Codec, rel: Relation, row: Row): Result<(Key, Row), StateError> {
    var values := DictOf(row.values);
    if values.Keys != Elements(ColumnIds(rel)) then Err(ColumnsDiffer)
    else
      assert forall i :: 0 <= i < |rel.columns| ==> ColumnIds(rel)[i] in values;
      match CheckValues(codec, rel.columns, values)
      case Some(e) => Err(BadValue(e))
      case None =>
        var bound := Bind(rel, values);
        Ok((codec.encodeKey(KeyDocument(bound)), bound))
  }

  /** Rows are identified by key bytes and bound; a second row with the same key is refused. */
  function RowRule(codec: Codec, rel: Relation): Rule<Row, Key, Row, StateError> {
    Rule(
      (row: Row) =>
        match ScanRow(codec, rel, row)
        case Ok(p) => Ok(p.0)
        case Err(e) => Err(e),
      (row: Row) =>
        match ScanRow(codec, rel, row)
        case Ok(p) => Ok(p.1)
        case Err(e) => Err(e),
      DuplicateKey)
  }

  function ValidRelation(codec: Codec, rel: Relation, rows: seq<Row>): Result<seq<Row>, StateError> {
    Canonical.Canonical(LexLess, RowRule(codec, rel), rows)
  }

  function ValidRelations(codec: Codec, rels: seq<Relation>, state: State): Result<State, StateError>
    requires forall i :: 0 <= i < |rels| ==> rels[i].id in state
  {
    if |rels| == 0 then Ok(map[])
    else
      var rel := rels[|rels| - 1];
      match ValidRelations(codec, rels[..|rels| - 1], state)
      case Err(e) => Err(e)
      case Ok(done) =>
        match ValidRelation(codec, rel, state[rel.id])
        case Err(e) => Err(e)
        case Ok(rows) => Ok(done[rel.id := rows])
  }

  /** `_validate_state_for_manifest`. */
  function ValidState(codec: Codec, m: Manifest, state: State): Result<State, StateError> {
    if state.Keys != Elements(RelationIds(m.relations)) then Err(NotCovering)
    else
      assert forall i :: 0 <= i < |m.relations| ==> RelationIds(m.relations)[i] in state;
      ValidRelations(codec, m.relations, state)
  }

  /** The whole state, relation by relation. */
  method ValidateState(codec: Codec, m: Manifest, state: State) returns (r: Result<State, StateError>)
    ensures r == ValidState(codec, m, state)
  {
    if state.Keys != Elements(RelationIds(m.relations)) {
      return Err(NotCovering);
    }
    assert forall i :: 0 <= i < |m.relations| ==> RelationIds(m.relations)[i] in state;
    var result: State := map[];
    for n := 0 to |m.relations|
      invariant ValidRelations(codec, m.relations[..n], state) == Ok(result)
    {
      var rel := m.relations[n];
      assert m.relations[..n + 1][..n] == m.relations[..n];
      RelationsPrefix(codec, m.relations, state, n + 1);
      var rows := Canonicalize(LexLess, RowRule(codec, rel), state[rel.id]);
      match rows {
        case Err(e) => return Err(e);
        case Ok(canonical) => result := result[rel.id := canonical];
      }
    }
    assert m.relations[..|m.relations|] == m.relations;
    r := Ok(result);
  }

  lemma {:induction false} RelationsPrefix(codec: Codec, rels: seq<Relation>, state: State, n: nat)
    requires n <= |rels| && forall i :: 0 <= i < |rels| ==> rels[i].id in state
    ensures ValidRelations(codec, rels[..n], state).Err? ==>
      ValidRelations(codec, rels, state) == ValidRelations(codec, rels[..n], state)
    decreases |rels|
  {
    if n == |rels| {
      assert rels[..n] == rels;
    } else {
      assert rels[..|rels| - 1][..n] == rels[..n];
      RelationsPrefix(codec, rels[..|rels| - 1], state, n);
    }
  }

  // What validation establishes.

  function Scanned(codec: Codec, rel: Relation, row: Row): (Key, Row) {
    match ScanRow(codec, rel, row)
    case Ok(p) => p
    case Err(_) => ([], row)
  }

  function ScannedAll(codec: Codec, rel: Relation, rows: seq<Row>): (ps: seq<(Key, Row)>) {
    Map(row => Scanned(codec, rel, row), rows)
  }

  lemma {:induction false} RowVerdict(codec: Codec, rel: Relation, row: Row)
    ensures Verdict(RowRule(codec, rel), row) == if ScanRow(codec, rel, row).Ok? then Some(Scanned(codec, rel, row)) else None
  {
  }

  lemma {:induction false} ListedMap<V>(names: seq<Name>, values: map<Name, V>)
    requires forall n :: n in names ==> n in values
    ensures DictOf(Listed(names, values)) == map n | n in names :: values[n]
  {
    if |names| != 0 {
      var front := names[..|names| - 1];
      ListedMap(front, values);
      assert Listed(names, values)[..|names| - 1] == Listed(front, values);
    }
  }

  /** A bound row says the same as the row it came from. */
  lemma {:induction false} BindKeepsValues(rel: Relation, values: map<Name, Value>)
    requires values.Keys == Elements(ColumnIds(rel))
    ensures DictOf(Bind(rel, values).values) == values
  {
    SortNamesSorts(ColumnIds(rel));
    ListedMap(SortNames(ColumnIds(rel)), values);
  }

  /** A bound row passes unchanged. */
  lemma {:induction false} ScanRowTwice(codec: Codec, rel: Relation, row: Row)
    requires ScanRow(codec, rel, row).Ok?
    ensures ScanRow(codec, rel, ScanRow(codec, rel, row).value.1) == ScanRow(codec, rel, row)
  {
    BindKeepsValues(rel, DictOf(row.values));
  }


  lemma {:induction false} RelationIgnoresOrderOneWay(codec: Codec, rel: Relation, rows: seq<Row>, shuffled: seq<Row>)
    requires multiset(rows) == multiset(shuffled) && ValidRelation(codec, rel, rows).Ok?
    ensures ValidRelation(codec, rel, shuffled) == ValidRelation(codec, rel, rows)
  {
    var rule := RowRule(codec, rel);
    var verdict := row => Verdict(rule, row);
    MapKeepsCounts(verdict, rows, shuffled);
    assert Map(verdict, rows) == Verdicts(rule, rows) && Map(verdict, shuffled) == Verdicts(rule, shuffled);
    LexIsStrictOrder();
    IgnoresOrder(LexLess, rule, rows, shuffled);
  }

  /** Validation does not depend on the order in which rows are supplied. */
  lemma {:induction false} RelationIgnoresOrder(codec: Codec, rel: Relation, rows: seq<Row>, shuffled: seq<Row>)
    requires multiset(rows) == multiset(shuffled)
    ensures ValidRelation(codec, rel, rows).Ok? <==> ValidRelation(codec, rel, shuffled).Ok?
    ensures ValidRelation(codec, rel, rows).Ok? ==> ValidRelation(codec, rel, rows) == ValidRelation(codec, rel, shuffled)
  {
    if ValidRelation(codec, rel, rows).Ok? {
      RelationIgnoresOrderOneWay(codec, rel, rows, shuffled);
    }
    if ValidRelation(codec, rel, shuffled).Ok? {
      RelationIgnoresOrderOneWay(codec, rel, shuffled, rows);
    }
  }

  /** Rows exactly as validation leaves them. */
  predicate CanonicalRows(codec: Codec, rel: Relation, rows: seq<Row>) {
    ValidRelation(codec, rel, rows) == Ok(rows)
  }

  lemma {:induction false} VerdictTwice(codec: Codec, rel: Relation, row: Row)
    requires Verdict(RowRule(codec, rel), row).Some?
    ensures Verdict(RowRule(codec, rel), Verdict(RowRule(codec, rel), row).value.1) == Verdict(RowRule(codec, rel), row)
  {
    ScanRowTwice(codec, rel, row);
  }

  /** Validation of its own output changes nothing. */
  lemma {:induction false} RelationIsStable(codec: Codec, rel: Relation, rows: seq<Row>)
    requires ValidRelation(codec, rel, rows).Ok?
    ensures CanonicalRows(codec, rel, ValidRelation(codec, rel, rows).value)
  {
    LexIsStrictOrder();
    forall row | row in rows && Verdict(RowRule(codec, rel), row).Some?
      ensures Verdict(RowRule(codec, rel), Verdict(RowRule(codec, rel), row).value.1) == Verdict(RowRule(codec, rel), row)
    {
      VerdictTwice(codec, rel, row);
    }
    Stable(LexLess, RowRule(codec, rel), rows);
  }

  /** The output holds the bound form of every input row, each exactly as often as it came. */
  lemma {:induction false} RelationKeepsRows(codec: Codec, rel: Relation, rows: seq<Row>)
    requires ValidRelation(codec, rel, rows).Ok?
    ensures multiset(ValidRelation(codec, rel, rows).value) == multiset(Values(ScannedAll(codec, rel, rows)))
  {
    LexIsStrictOrder();
    var ps := Describes(LexLess, RowRule(codec, rel), rows);
    var us := Unwrap(Verdicts(RowRule(codec, rel), rows));
    forall i | 0 <= i < |rows| ensures us[i] == ScannedAll(codec, rel, rows)[i] {
      assert Verdicts(RowRule(codec, rel), rows)[i] == Verdict(RowRule(codec, rel), rows[i]);
      RowVerdict(codec, rel, rows[i]);
    }
    assert us == ScannedAll(codec, rel, rows);
    var second := (p: (Key, Row)) => p.1;
    MapKeepsCounts(second, ps, us);
    assert Map(second, ps) == Values(ps);
    assert Map(second, us) == Values(us);
  }

  /** Canonical rows are keyed by strictly ascending bytes and are their own bound form. */
  lemma {:induction false} CanonicalMeansSorted(codec: Codec, rel: Relation, rows: seq<Row>)
    requires CanonicalRows(codec, rel, rows)
    ensures StrictlySorted(LexLess, Keys(ScannedAll(codec, rel, rows)))
    ensures forall i :: 0 <= i < |rows| ==> ScanRow(codec, rel, rows[i]) == Ok(ScannedAll(codec, rel, rows)[i])
    ensures Values(ScannedAll(codec, rel, rows)) == rows
  {
    LexIsStrictOrder();
    var ps := Describes(LexLess, RowRule(codec, rel), rows);
    forall i | 0 <= i < |rows| ensures ScanRow(codec, rel, rows[i]) == Ok(ps[i]) {
      var row :| row in rows && Verdict(RowRule(codec, rel), row) == Some(ps[i]);
      VerdictTwice(codec, rel, row);
      assert Values(ps)[i] == rows[i];
      RowVerdict(codec, rel, rows[i]);
    }
    assert ScannedAll(codec, rel, rows) == ps;
  }

  // The whole state.

  predicate CanonicalState(codec: Codec, m: Manifest, state: State) {
    ValidState(codec, m, state) == Ok(state)
  }

  /** Every relation is valid on its own. */
  predicate RelationsPass(codec: Codec, rels: seq<Relation>, state: State)
    requires forall i :: 0 <= i < |rels| ==> rels[i].id in state
  {
    forall i :: 0 <= i < |rels| ==> ValidRelation(codec, rels[i], state[rels[i].id]).Ok?
  }

  lemma {:induction false} RelationsPassExtend(codec: Codec, rels: seq<Relation>, state: State)
    requires |rels| != 0 && forall i :: 0 <= i < |rels| ==> rels[i].id in state
    ensures RelationsPass(codec, rels, state) <==>
      RelationsPass(codec, rels[..|rels| - 1], state)
      && ValidRelation(codec, rels[|rels| - 1], state[rels[|rels| - 1].id]).Ok?
  {
    assert forall i :: 0 <= i < |rels| - 1 ==> rels[..|rels| - 1][i] == rels[i];
  }

  lemma {:induction false} StatePasses(codec: Codec, rels: seq<Relation>, state: State)
    requires forall i :: 0 <= i < |rels| ==> rels[i].id in state
    ensures ValidRelations(codec, rels, state).Ok? <==> RelationsPass(codec, rels, state)
  {
    if |rels| != 0 {
      StatePasses(codec, rels[..|rels| - 1], state);
      RelationsPassExtend(codec, rels, state);
    }
  }

  /** The mapping holds the validated rows of exactly these relations. */
  ghost predicate HoldsRows(codec: Codec, rels: seq<Relation>, state: State, out: State)
    requires forall i :: 0 <= i < |rels| ==> rels[i].id in state
  {
    && out.Keys == Elements(RelationIds(rels))
    && forall i :: 0 <= i < |rels| ==>
         && RelationIds(rels)[i] in out
         && Ok(out[rels[i].id]) == ValidRelation(codec, rels[i], state[rels[i].id])
  }

  lemma {:induction false} HoldsOneMore(codec: Codec, front: seq<Relation>, last: Relation, state: State, out: State, rows: seq<Row>)
    requires Distinct(RelationIds(front + [last]))
    requires forall i :: 0 <= i < |front + [last]| ==> (front + [last])[i].id in state
    requires (forall i :: 0 <= i < |front| ==> front[i].id in state) && HoldsRows(codec, front, state, out)
    requires last.id in state && ValidRelation(codec, last, state[last.id]) == Ok(rows)
    ensures HoldsRows(codec, front + [last], state, out[last.id := rows])
  {
    var ids := RelationIds(front + [last]);
    assert ids == RelationIds(front) + [last.id];
    DistinctExtend(RelationIds(front), last.id);
    assert forall i :: 0 <= i < |front| ==> RelationIds(front)[i] != last.id;
  }

  lemma {:induction false} StateRows(codec: Codec, rels: seq<Relation>, state: State)
    requires Distinct(RelationIds(rels))
    requires forall i :: 0 <= i < |rels| ==> rels[i].id in state
    requires ValidRelations(codec, rels, state).Ok?
    ensures HoldsRows(codec, rels, state, ValidRelations(codec, rels, state).value)
  {
    if |rels| != 0 {
      var front, last := rels[..|rels| - 1], rels[|rels| - 1];
      assert rels == front + [last];
      assert RelationIds(front) == RelationIds(rels)[..|rels| - 1];
      StateRows(codec, front, state);
      HoldsOneMore(codec, front, last, state, ValidRelations(codec, front, state).value,
        ValidRelation(codec, last, state[last.id]).value);
    }
  }

  /** A state is valid exactly when every relation is, and its form is theirs. */
  lemma {:induction false} StatePerRelation(codec: Codec, rels: seq<Relation>, state: State)
    requires Distinct(RelationIds(rels))
    requires forall i :: 0 <= i < |rels| ==> rels[i].id in state
    ensures ValidRelations(codec, rels, state).Ok? <==> RelationsPass(codec, rels, state)
    ensures ValidRelations(codec, rels, state).Ok? ==>
      HoldsRows(codec, rels, state, ValidRelations(codec, rels, state).value)
  {
    StatePasses(codec, rels, state);
    if ValidRelations(codec, rels, state).Ok? {
      StateRows(codec, rels, state);
    }
  }

  /** Validated states are canonical: validating one again returns it unchanged. */
  lemma {:induction false} StateIsStable(codec: Codec, m: Manifest, state: State)
    requires Distinct(RelationIds(m.relations)) && ValidState(codec, m, state).Ok?
    ensures CanonicalState(codec, m, ValidState(codec, m, state).value)
  {
    var out := ValidState(codec, m, state).value;
    StateCoverage(m, state);
    StatePerRelation(codec, m.relations, state);
    StateCoverage(m, out);
    StatePerRelation(codec, m.relations, out);
    forall i | 0 <= i < |m.relations|
      ensures ValidRelation(codec, m.relations[i], out[m.relations[i].id]) == Ok(out[m.relations[i].id])
    {
      RelationIsStable(codec, m.relations[i], state[m.relations[i].id]);
    }
    SameState(m, ValidState(codec, m, out).value, out);
  }

  lemma {:induction false} StateCoverage(m: Manifest, state: State)
    requires state.Keys == Elements(RelationIds(m.relations))
    ensures forall i :: 0 <= i < |m.relations| ==> m.relations[i].id in state
  {
    assert forall i :: 0 <= i < |m.relations| ==> RelationIds(m.relations)[i] in state;
  }

  lemma {:induction false} SameState(m: Manifest, s: State, t: State)
    requires s.Keys == t.Keys == Elements(RelationIds(m.relations))
    requires forall i :: 0 <= i < |m.relations| ==>
      m.relations[i].id in s && m.relations[i].id in t && s[m.relations[i].id] == t[m.relations[i].id]
    ensures s == t
  {
    forall n | n in s ensures s[n] == t[n] {
      assert n in RelationIds(m.relations);
      var i :| 0 <= i < |m.relations| && RelationIds(m.relations)[i] == n;
    }
  }

  /** Two states with the same rows per relation, however ordered, are equally valid and
      have the same canonical form. */
  lemma {:induction false} StateIgnoresOrder(codec: Codec, m: Manifest, s: State, t: State)
    requires Distinct(RelationIds(m.relations)) && s.Keys == t.Keys
    requires forall n :: n in s ==> multiset(s[n]) == multiset(t[n])
    ensures ValidState(codec, m, s).Ok? <==> ValidState(codec, m, t).Ok?
    ensures ValidState(codec, m, s).Ok? ==> ValidState(codec, m, s) == ValidState(codec, m, t)
  {
    if s.Keys == Elements(RelationIds(m.relations)) {
      StateCoverage(m, s);
      StateCoverage(m, t);
      StatePerRelation(codec, m.relations, s);
      StatePerRelation(codec, m.relations, t);
      forall i | 0 <= i < |m.relations|
        ensures var rel := m.relations[i];
          && (ValidRelation(codec, rel, s[rel.id]).Ok? <==> ValidRelation(codec, rel, t[rel.id]).Ok?)
          && (ValidRelation(codec, rel, s[rel.id]).Ok? ==>
                ValidRelation(codec, rel, s[rel.id]) == ValidRelation(codec, rel, t[rel.id]))
      {
        RelationIgnoresOrder(codec, m.relations[i], s[m.relations[i].id], t[m.relations[i].id]);
      }
      if ValidState(codec, m, s).Ok? {
        SameState(m, ValidState(codec, m, s).value, ValidState(codec, m, t).value);
      }
    }
  }

  /** Replacing one relation's rows by canonical rows keeps a state canonical. */
  lemma {:induction false} ReplaceKeepsCanonical(codec: Codec, m: Manifest, state: State, i: nat, rows: seq<Row>)
    requires Distinct(RelationIds(m.relations)) && CanonicalState(codec, m, state)
    requires i < |m.relations| && CanonicalRows(codec, m.relations[i], rows)
    ensures CanonicalState(codec, m, state[m.relations[i].id := rows])
  {
    var id := m.relations[i].id;
    assert RelationIds(m.relations)[i] == id;
    var next := state[id := rows];
    StateCoverage(m, state);
    StatePerRelation(codec, m.relations, state);
    StateCoverage(m, next);
    StatePerRelation(codec, m.relations, next);
    forall j | 0 <= j < |m.relations|
      ensures ValidRelation(codec, m.relations[j], next[m.relations[j].id]) == Ok(next[m.relations[j].id])
    {
      if j != i {
        assert RelationIds(m.relations)[j] != RelationIds(m.relations)[i];
      }
    }
    SameState(m, ValidState(codec, m, next).value, next);
  }
}
