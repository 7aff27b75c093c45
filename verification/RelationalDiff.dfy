/** Row differences between two images of one manifest (`diff`, src/avp_ref/relational.py). */
module RelationalDiff {
  import opened Common
  import opened Ordering
  import opened RelationalState

  datatype ChangeKind = Insert | Delete | Update

  datatype Change = Change(
    relationId: Name,
    kind: ChangeKind,
    key: seq<(Name, Value)>,
    before: Option<seq<(Name, Value)>>,
    after: Option<seq<(Name, Value)>>)

  datatype DiffError = ForeignManifest | NotFullSurface | KeyColumnMissing | NullKey

  /** An image as callers hold it: relations in a tuple of pairs. */
  datatype Image = Image(manifestDigest: int, relations: seq<(Name, seq<Row>)>)

  /** Relations in the order every document uses: ascending identifiers. */
  function SortedRelations(m: Manifest): seq<Relation> {
    Values(SortByKey(LexLess, Map((r: Relation) => (r.id, r), m.relations)))
  }

  function ImageOf(m: Manifest, manifestDigest: int, state: State): Image
    requires forall r :: r in m.relations ==> r.id in state
  {
    SortedRelationsAreRelations(m);
    Image(manifestDigest, Listed(RelationIds(SortedRelations(m)), state))
  }

  lemma {:induction false} SortedRelationsAreRelations(m: Manifest)
    ensures multiset(SortedRelations(m)) == multiset(m.relations)
    ensures forall r :: r in SortedRelations(m) <==> r in m.relations
    ensures forall n :: n in RelationIds(SortedRelations(m)) ==> exists r :: r in m.relations && r.id == n
    ensures Distinct(RelationIds(m.relations)) ==> StrictlySorted(LexLess, RelationIds(SortedRelations(m)))
  {
    var ps := Map((r: Relation) => (r.id, r), m.relations);
    var qs := SortByKey(LexLess, ps);
    var second := (p: (Name, Relation)) => p.1;
    SortKeepsElements(LexLess, ps);
    MapKeepsCounts(second, ps, qs);
    assert Map(second, ps) == m.relations;
    assert Map(second, qs) == SortedRelations(m);
    forall r ensures r in SortedRelations(m) <==> r in m.relations {
      assert r in SortedRelations(m) <==> r in multiset(SortedRelations(m));
    }
    forall n | n in RelationIds(SortedRelations(m)) ensures exists r :: r in m.relations && r.id == n {
      var i :| 0 <= i < |SortedRelations(m)| && RelationIds(SortedRelations(m))[i] == n;
      assert SortedRelations(m)[i] in m.relations;
    }
    SortedRelationKeys(m);
  }

  lemma {:induction false} SortedRelationKeys(m: Manifest)
    ensures Distinct(RelationIds(m.relations)) ==> StrictlySorted(LexLess, RelationIds(SortedRelations(m)))
  {
    var ps := Map((r: Relation) => (r.id, r), m.relations);
    var qs := SortByKey(LexLess, ps);
    assert Keys(ps) == RelationIds(m.relations);
    if Distinct(RelationIds(m.relations)) {
      LexIsStrictOrder();
      SortSorts(LexLess, ps);
      SortKeepsElements(LexLess, ps);
      forall i | 0 <= i < |qs| ensures Keys(qs)[i] == RelationIds(SortedRelations(m))[i] {
        assert qs[i] in multiset(ps);
      }
      assert Keys(qs) == RelationIds(SortedRelations(m));
    }
  }

  /** `_row_key_bytes`: the key columns in order, none missing, none null. */
  function KeyValues(names: seq<Name>, values: map<Name, Value>): Result<map<Name, Value>, DiffError> {
    if |names| == 0 then Ok(map[])
    else
      match KeyValues(names[..|names| - 1], values)
      case Err(e) => Err(e)
      case Ok(key) =>
        var n := names[|names| - 1];
        if n !in values then Err(KeyColumnMissing)
        else if values[n].raw.Null? then Err(NullKey)
        else Ok(key[n := values[n]])
  }

  function RowKey(codec: Codec, rel: Relation, row: Row): Result<Key, DiffError> {
    match KeyValues(SortNames(rel.rowKey), DictOf(row.values))
    case Err(e) => Err(e)
    case Ok(key) => Ok(codec.encodeKey(key))
  }

  /** `{key: row for row in rows}`: a repeated key keeps its last row. */
  function RowsByKey(codec: Codec, rel: Relation, rows: seq<Row>): Result<map<Key, Row>, DiffError> {
    if |rows| == 0 then Ok(map[])
    else
      match RowsByKey(codec, rel, rows[..|rows| - 1])
      case Err(e) => Err(e)
      case Ok(m) =>
        match RowKey(codec, rel, rows[|rows| - 1])
        case Err(e) => Err(e)
        case Ok(k) => Ok(m[k := rows[|rows| - 1]])
  }

  // `sorted(old.keys() | new.keys())`.

  predicate Least(k: Key, s: set<Key>) {
    k in s && forall j :: j in s ==> j == k || LexLess(k, j)
  }

  lemma {:induction false} LeastOfTwo(s: set<Key>, k: Key, l: Key)
    requires k in s && Least(l, s - {k})
    ensures Least(if LexLess(k, l) then k else l, s)
  {
    forall j | j in s - {k} && LexLess(k, l) && LexLess(l, j) ensures LexLess(k, j) {
      LexTransitive(k, l, j);
    }
    LexTotal(k, l);
  }

  lemma {:induction false} LeastExists(s: set<Key>)
    requires s != {}
    ensures exists k :: Least(k, s)
  {
    var k :| k in s;
    if s == {k} {
      assert Least(k, s);
    } else {
      LeastExists(s - {k});
      var l :| Least(l, s - {k});
      LeastOfTwo(s, k, l);
    }
  }

  ghost function Ascending(s: set<Key>): seq<Key> {
    if s == {} then []
    else
      LeastExists(s);
      var k :| Least(k, s);
      [k] + Ascending(s - {k})
  }

  lemma {:induction false} AscendingHead(s: set<Key>)
    requires s != {}
    ensures var k := Ascending(s)[0];
      Least(k, s) && Ascending(s) == [k] + Ascending(s - {k})
  {
    LeastExists(s);
  }

  /** The ascending list of a set holds exactly its members, strictly ascending. */
  lemma {:induction false} AscendingSorts(s: set<Key>)
    ensures StrictlySorted(LexLess, Ascending(s)) && Elements(Ascending(s)) == s
  {
    if s != {} {
      AscendingHead(s);
      var k := Ascending(s)[0];
      AscendingSorts(s - {k});
      var tail := Ascending(s - {k});
      forall j | j in tail ensures LexLess(k, j) {
        assert j in Elements(tail);
      }
      ElementsCons(k, tail);
    }
  }

  lemma {:induction false} ElementsCons<T>(x: T, s: seq<T>)
    ensures Elements([x] + s) == {x} + Elements(s)
  {
    assert x in [x] + s;
    assert forall y :: y in [x] + s <==> y == x || y in s;
  }

  lemma {:induction false} AscendingUnique(ks: seq<Key>)
    requires StrictlySorted(LexLess, ks)
    ensures Ascending(Elements(ks)) == ks
  {
    AscendingSorts(Elements(ks));
    var ps, qs := Map(k => (k, k), ks), Map(k => (k, k), Ascending(Elements(ks)));
    LexIsStrictOrder();
    assert Keys(ps) == ks && Keys(qs) == Ascending(Elements(ks));
    SortedOnce(ks);
    SortedOnce(Ascending(Elements(ks)));
    assert multiset(ks) == multiset(Ascending(Elements(ks)));
    MapKeepsCounts(k => (k, k), ks, Ascending(Elements(ks)));
    SortedListUnique(LexLess, ps, qs);
  }

  lemma {:induction false} SortedOnce(ks: seq<Key>)
    requires StrictlySorted(LexLess, ks)
    ensures multiset(ks) == multiset(Elements(ks))
  {
    LexIsStrictOrder();
    if |ks| != 0 {
      var front, last := ks[..|ks| - 1], ks[|ks| - 1];
      assert ks == front + [last];
      SortedOnce(front);
      assert last !in front;
      assert Elements(ks) == Elements(front) + {last};
    }
  }

  method SortedKeys(s: set<Key>) returns (ks: seq<Key>)
    ensures ks == Ascending(s)
  {
    var listed: seq<Key> := [];
    var rest := s;
    while rest != {}
      invariant Elements(listed) == s - rest && rest <= s && Distinct(listed)
      decreases rest
    {
      var k :| k in rest;
      DistinctExtend(listed, k);
      ElementsExtend(listed, k);
      listed := listed + [k];
      rest := rest - {k};
    }
    ks := SortNames(listed);
    SortNamesSorts(listed);
    assert Elements(listed) == s;
    assert forall k :: k in s <==> k in listed;
    assert Elements(ks) == s;
    AscendingUnique(ks);
  }

  lemma {:induction false} ElementsExtend<T>(s: seq<T>, x: T)
    ensures Elements(s + [x]) == Elements(s) + {x}
  {
    assert x in s + [x];
    assert forall y :: y in s + [x] <==> y in s || y == x;
  }

  predicate KeyPresent(rel: Relation, row: Row) {
    forall n :: n in SortNames(rel.rowKey) ==> n in DictOf(row.values)
  }

  predicate AllPresent(rel: Relation, m: map<Key, Row>) {
    forall k :: k in m ==> KeyPresent(rel, m[k])
  }

  function KeyOf(rel: Relation, row: Row): seq<(Name, Value)>
    requires KeyPresent(rel, row)
  {
    Listed(SortNames(rel.rowKey), DictOf(row.values))
  }

  /** What one key contributes: at most one change. */
  function ChangeAt(rel: Relation, was: map<Key, Row>, now: map<Key, Row>, k: Key): seq<Change>
    requires AllPresent(rel, was) && AllPresent(rel, now)
  {
    if k !in was && k !in now then []
    else if k !in was then [Change(rel.id, Insert, KeyOf(rel, now[k]), None, Some(now[k].values))]
    else if k !in now then [Change(rel.id, Delete, KeyOf(rel, was[k]), Some(was[k].values), None)]
    else if was[k].values == now[k].values then []
    else [Change(rel.id, Update, KeyOf(rel, was[k]), Some(was[k].values), Some(now[k].values))]
  }

  function ChangesAt(rel: Relation, was: map<Key, Row>, now: map<Key, Row>, ks: seq<Key>): seq<Change>
    requires AllPresent(rel, was) && AllPresent(rel, now)
  {
    if |ks| == 0 then []
    else ChangesAt(rel, was, now, ks[..|ks| - 1]) + ChangeAt(rel, was, now, ks[|ks| - 1])
  }

  lemma {:induction false} KeyValuesCollects(names: seq<Name>, values: map<Name, Value>)
    ensures KeyValues(names, values).Ok? <==> forall n :: n in names ==> n in values && !values[n].raw.Null?
    ensures KeyValues(names, values).Ok? ==> KeyValues(names, values).value == map n | n in names :: values[n]
  {
    if |names| != 0 {
      KeyValuesCollects(names[..|names| - 1], values);
      assert names == names[..|names| - 1] + [names[|names| - 1]];
    }
  }

  lemma {:induction false} RowsByKeyPresent(codec: Codec, rel: Relation, rows: seq<Row>)
    ensures RowsByKey(codec, rel, rows).Ok? ==> AllPresent(rel, RowsByKey(codec, rel, rows).value)
  {
    if |rows| != 0 {
      RowsByKeyPresent(codec, rel, rows[..|rows| - 1]);
      KeyValuesCollects(SortNames(rel.rowKey), DictOf(rows[|rows| - 1].values));
    }
  }

  /** The changes of one relation. */
  ghost function DiffRelation(codec: Codec, rel: Relation, before: seq<Row>, after: seq<Row>): Result<seq<Change>, DiffError> {
    match RowsByKey(codec, rel, before)
    case Err(e) => Err(e)
    case Ok(was) =>
      match RowsByKey(codec, rel, after)
      case Err(e) => Err(e)
      case Ok(now) =>
        RowsByKeyPresent(codec, rel, before);
        RowsByKeyPresent(codec, rel, after);
        Ok(ChangesAt(rel, was, now, Ascending(was.Keys + now.Keys)))
  }

  ghost function DiffRelations(codec: Codec, rels: seq<Relation>, before: State, after: State): Result<seq<Change>, DiffError>
    requires forall r :: r in rels ==> r.id in before && r.id in after
  {
    if |rels| == 0 then Ok([])
    else
      var rel := rels[|rels| - 1];
      match DiffRelations(codec, rels[..|rels| - 1], before, after)
      case Err(e) => Err(e)
      case Ok(changes) =>
        match DiffRelation(codec, rel, before[rel.id], after[rel.id])
        case Err(e) => Err(e)
        case Ok(more) => Ok(changes + more)
  }

  /** `diff` on a live resource: relations ascending, keys ascending, one change per key. */
  ghost function DiffImages(codec: Codec, m: Manifest, manifestDigest: int, before: Image, after: Image):
    Result<seq<Change>, DiffError>
  {
    if before.manifestDigest != manifestDigest || after.manifestDigest != manifestDigest then Err(ForeignManifest)
    else
      var b, a := DictOf(before.relations), DictOf(after.relations);
      if b.Keys != Elements(RelationIds(m.relations)) || a.Keys != Elements(RelationIds(m.relations)) then Err(NotFullSurface)
      else
        SurfaceCovers(m, b);
        SurfaceCovers(m, a);
        DiffRelations(codec, SortedRelations(m), b, a)
  }

  lemma {:induction false} SurfaceCovers(m: Manifest, s: State)
    requires s.Keys == Elements(RelationIds(m.relations))
    ensures forall r :: r in m.relations ==> r.id in s
    ensures forall r :: r in SortedRelations(m) ==> r.id in s
  {
    SortedRelationsAreRelations(m);
    forall r | r in m.relations ensures r.id in s {
      var i :| 0 <= i < |m.relations| && m.relations[i] == r;
      assert RelationIds(m.relations)[i] == r.id;
    }
  }

  method IndexRows(codec: Codec, rel: Relation, rows: seq<Row>) returns (r: Result<map<Key, Row>, DiffError>)
    ensures r == RowsByKey(codec, rel, rows)
  {
    var m: map<Key, Row> := map[];
    for n := 0 to |rows|
      invariant RowsByKey(codec, rel, rows[..n]) == Ok(m)
    {
      assert rows[..n + 1][..n] == rows[..n];
      RowsByKeyPrefix(codec, rel, rows, n + 1);
      match RowKey(codec, rel, rows[n]) {
        case Err(e) => return Err(e);
        case Ok(k) => m := m[k := rows[n]];
      }
    }
    assert rows[..|rows|] == rows;
    r := Ok(m);
  }

  lemma {:induction false} RowsByKeyPrefix(codec: Codec, rel: Relation, rows: seq<Row>, n: nat)
    requires n <= |rows|
    ensures RowsByKey(codec, rel, rows[..n]).Err? ==> RowsByKey(codec, rel, rows) == RowsByKey(codec, rel, rows[..n])
    decreases |rows|
  {
    if n == |rows| {
      assert rows[..n] == rows;
    } else {
      assert rows[..|rows| - 1][..n] == rows[..n];
      RowsByKeyPrefix(codec, rel, rows[..|rows| - 1], n);
    }
  }

  method DiffOneRelation(codec: Codec, rel: Relation, before: seq<Row>, after: seq<Row>)
    returns (r: Result<seq<Change>, DiffError>)
    ensures r == DiffRelation(codec, rel, before, after)
  {
    var old_ := IndexRows(codec, rel, before);
    if old_.Err? {
      return Err(old_.error);
    }
    var new_ := IndexRows(codec, rel, after);
    if new_.Err? {
      return Err(new_.error);
    }
    var was, now := old_.value, new_.value;
    RowsByKeyPresent(codec, rel, before);
    RowsByKeyPresent(codec, rel, after);
    var ks := SortedKeys(was.Keys + now.Keys);
    var changes: seq<Change> := [];
    for n := 0 to |ks|
      invariant changes == ChangesAt(rel, was, now, ks[..n])
    {
      assert ks[..n + 1][..n] == ks[..n];
      var k := ks[n];
      if k !in was {
        if k in now {
          changes := changes + [Change(rel.id, Insert, KeyOf(rel, now[k]), None, Some(now[k].values))];
        }
      } else if k !in now {
        changes := changes + [Change(rel.id, Delete, KeyOf(rel, was[k]), Some(was[k].values), None)];
      } else if was[k].values != now[k].values {
        changes := changes + [Change(rel.id, Update, KeyOf(rel, was[k]), Some(was[k].values), Some(now[k].values))];
      }
    }
    assert ks[..|ks|] == ks;
    r := Ok(changes);
  }

  method Diff(codec: Codec, m: Manifest, manifestDigest: int, before: Image, after: Image)
    returns (r: Result<seq<Change>, DiffError>)
    ensures r == DiffImages(codec, m, manifestDigest, before, after)
  {
    if before.manifestDigest != manifestDigest || after.manifestDigest != manifestDigest {
      return Err(ForeignManifest);
    }
    var b, a := DictOf(before.relations), DictOf(after.relations);
    if b.Keys != Elements(RelationIds(m.relations)) || a.Keys != Elements(RelationIds(m.relations)) {
      return Err(NotFullSurface);
    }
    SurfaceCovers(m, b);
    SurfaceCovers(m, a);
    var rels := SortedRelations(m);
    var changes: seq<Change> := [];
    for n := 0 to |rels|
      invariant DiffRelations(codec, rels[..n], b, a) == Ok(changes)
    {
      assert rels[..n + 1][..n] == rels[..n];
      DiffPrefix(codec, rels, b, a, n + 1);
      var more := DiffOneRelation(codec, rels[n], b[rels[n].id], a[rels[n].id]);
      if more.Err? {
        return Err(more.error);
      }
      changes := changes + more.value;
    }
    assert rels[..|rels|] == rels;
    r := Ok(changes);
  }

  lemma {:induction false} DiffPrefix(codec: Codec, rels: seq<Relation>, before: State, after: State, n: nat)
    requires n <= |rels| && forall r :: r in rels ==> r.id in before && r.id in after
    ensures DiffRelations(codec, rels[..n], before, after).Err? ==>
      DiffRelations(codec, rels, before, after) == DiffRelations(codec, rels[..n], before, after)
    decreases |rels|
  {
    if n == |rels| {
      assert rels[..n] == rels;
    } else {
      assert rels[..|rels| - 1][..n] == rels[..n];
      DiffPrefix(codec, rels[..|rels| - 1], before, after, n);
    }
  }

  // Applying a difference.

  /** One change applied strictly: what it claims about the row must be so. */
  function PatchRow(codec: Codec, rel: Relation, m: map<Key, Row>, c: Change): Option<map<Key, Row>> {
    var k := codec.encodeKey(DictOf(c.key));
    match c.kind
    case Insert =>
      if k !in m && c.before.None? && c.after.Some? then Some(m[k := Row(c.after.value, SortNames(rel.rowKey))]) else None
    case Delete =>
      if k in m && c.before == Some(m[k].values) && c.after.None? then Some(m - {k}) else None
    case Update =>
      if k in m && c.before == Some(m[k].values) && c.after.Some? then Some(m[k := Row(c.after.value, SortNames(rel.rowKey))])
      else None
  }

  function PatchRows(codec: Codec, rel: Relation, m: map<Key, Row>, changes: seq<Change>): Option<map<Key, Row>> {
    if |changes| == 0 then Some(m)
    else
      match PatchRows(codec, rel, m, changes[..|changes| - 1])
      case None => None
      case Some(p) => PatchRow(codec, rel, p, changes[|changes| - 1])
  }

  /** The rows of a keyed relation in canonical order. */
  ghost function RowsOf(m: map<Key, Row>): (rows: seq<Row>) {
    AscendingSorts(m.Keys);
    var ks := Ascending(m.Keys);
    seq(|ks|, i requires 0 <= i < |ks| => assert ks[i] in Elements(ks); m[ks[i]])
  }

  // When a difference exists.

  /** The row has every key column, none of them null. */
  predicate KeyStated(rel: Relation, row: Row) {
    forall k :: k in rel.rowKey ==> k in DictOf(row.values) && !DictOf(row.values)[k].raw.Null?
  }

  predicate AllStated(rel: Relation, rows: seq<Row>) {
    forall i :: 0 <= i < |rows| ==> KeyStated(rel, rows[i])
  }

  /** Canonical rows that can be differenced: no null in a key. */
  predicate Differable(codec: Codec, rel: Relation, rows: seq<Row>) {
    CanonicalRows(codec, rel, rows) && AllStated(rel, rows)
  }

  lemma {:induction false} KeyedExactly(codec: Codec, rel: Relation, row: Row)
    ensures RowKey(codec, rel, row).Ok? <==> KeyStated(rel, row)
  {
    SortNamesSorts(rel.rowKey);
    KeyValuesCollects(SortNames(rel.rowKey), DictOf(row.values));
  }

  lemma {:induction false} IndexedExactly(codec: Codec, rel: Relation, rows: seq<Row>)
    ensures RowsByKey(codec, rel, rows).Ok? <==> AllStated(rel, rows)
  {
    if |rows| != 0 {
      IndexedExactly(codec, rel, rows[..|rows| - 1]);
      KeyedExactly(codec, rel, rows[|rows| - 1]);
      assert rows == rows[..|rows| - 1] + [rows[|rows| - 1]];
    }
  }

  /** No key of these relations holds a null in the state. */
  predicate StateStated(rels: seq<Relation>, s: State)
    requires forall r :: r in rels ==> r.id in s
  {
    forall r :: r in rels ==> AllStated(r, s[r.id])
  }

  lemma {:induction false} DifferencedExactly(codec: Codec, rels: seq<Relation>, b: State, a: State)
    requires forall r :: r in rels ==> r.id in b && r.id in a
    ensures DiffRelations(codec, rels, b, a).Ok? <==> StateStated(rels, b) && StateStated(rels, a)
  {
    if |rels| != 0 {
      var front, rel := rels[..|rels| - 1], rels[|rels| - 1];
      assert rels == front + [rel];
      DifferencedExactly(codec, front, b, a);
      IndexedExactly(codec, rel, b[rel.id]);
      IndexedExactly(codec, rel, a[rel.id]);
    }
  }

  predicate OverSurface(m: Manifest, manifestDigest: int, image: Image) {
    image.manifestDigest == manifestDigest && DictOf(image.relations).Keys == Elements(RelationIds(m.relations))
  }

  /** A difference exists exactly when both images are of this manifest, cover its relations
      and hold no null or missing key column in any row. */
  lemma {:induction false} DiffSucceedsExactly(codec: Codec, m: Manifest, manifestDigest: int, before: Image, after: Image)
    ensures OverSurface(m, manifestDigest, before) ==> forall r :: r in m.relations ==> r.id in DictOf(before.relations)
    ensures OverSurface(m, manifestDigest, after) ==> forall r :: r in m.relations ==> r.id in DictOf(after.relations)
    ensures DiffImages(codec, m, manifestDigest, before, after).Ok? <==>
      && OverSurface(m, manifestDigest, before) && OverSurface(m, manifestDigest, after)
      && StateStated(m.relations, DictOf(before.relations)) && StateStated(m.relations, DictOf(after.relations))
  {
    var b, a := DictOf(before.relations), DictOf(after.relations);
    if OverSurface(m, manifestDigest, before) {
      SurfaceCovers(m, b);
    }
    if OverSurface(m, manifestDigest, after) {
      SurfaceCovers(m, a);
    }
    if OverSurface(m, manifestDigest, before) && OverSurface(m, manifestDigest, after) {
      SortedRelationsAreRelations(m);
      DifferencedExactly(codec, SortedRelations(m), b, a);
    }
  }

  /** Every row is filed under its own key and bound to the relation's key columns. */
  ghost predicate Filed(codec: Codec, rel: Relation, m: map<Key, Row>) {
    forall k :: k in m ==>
      RowKey(codec, rel, m[k]) == Ok(k) && KeyPresent(rel, m[k]) && m[k].keyColumns == SortNames(rel.rowKey)
  }

  lemma {:induction false} BoundRowKey(codec: Codec, rel: Relation, row: Row)
    requires ScanRow(codec, rel, row).Ok? && ScanRow(codec, rel, row).value.1 == row && RowKey(codec, rel, row).Ok?
    ensures RowKey(codec, rel, row) == Ok(ScanRow(codec, rel, row).value.0)
    ensures KeyPresent(rel, row) && row.keyColumns == SortNames(rel.rowKey)
  {
    KeyValuesCollects(SortNames(rel.rowKey), DictOf(row.values));
    assert KeyDocument(row) == map n | n in SortNames(rel.rowKey) :: DictOf(row.values)[n];
  }

  lemma {:induction false} KeyedRows(codec: Codec, rel: Relation, rows: seq<Row>, ks: seq<Key>)
    requires |ks| == |rows| && Distinct(ks)
    requires forall i :: 0 <= i < |rows| ==> RowKey(codec, rel, rows[i]) == Ok(ks[i])
    ensures RowsByKey(codec, rel, rows).Ok?
    ensures RowsByKey(codec, rel, rows).value.Keys == Elements(ks)
    ensures forall i :: 0 <= i < |rows| ==> ks[i] in Elements(ks) && RowsByKey(codec, rel, rows).value[ks[i]] == rows[i]
  {
    if |rows| != 0 {
      var n := |rows| - 1;
      KeyedRows(codec, rel, rows[..n], ks[..n]);
      assert ks == ks[..n] + [ks[n]];
      ElementsExtend(ks[..n], ks[n]);
      assert RowsByKey(codec, rel, rows).value == RowsByKey(codec, rel, rows[..n]).value[ks[n] := rows[n]];
      forall i | 0 <= i < n ensures ks[i] in Elements(ks) && RowsByKey(codec, rel, rows).value[ks[i]] == rows[i] {
        assert ks[..n][i] == ks[i] && rows[..n][i] == rows[i];
      }
    }
  }

  /** Indexing canonical rows by key loses nothing: listing the index gives the rows back. */
  lemma {:induction false} IndexOfCanonical(codec: Codec, rel: Relation, rows: seq<Row>)
    requires Differable(codec, rel, rows)
    ensures RowsByKey(codec, rel, rows).Ok?
    ensures Filed(codec, rel, RowsByKey(codec, rel, rows).value)
    ensures RowsOf(RowsByKey(codec, rel, rows).value) == rows
  {
    CanonicalMeansSorted(codec, rel, rows);
    var ks := Keys(ScannedAll(codec, rel, rows));
    forall i | 0 <= i < |rows|
      ensures RowKey(codec, rel, rows[i]) == Ok(ks[i]) && KeyPresent(rel, rows[i])
      ensures rows[i].keyColumns == SortNames(rel.rowKey)
    {
      KeyedExactly(codec, rel, rows[i]);
      assert Values(ScannedAll(codec, rel, rows))[i] == rows[i];
      BoundRowKey(codec, rel, rows[i]);
    }
    SortedIsDistinct(ks);
    KeyedRows(codec, rel, rows, ks);
    AscendingUnique(ks);
    var m := RowsByKey(codec, rel, rows).value;
    forall k | k in m
      ensures RowKey(codec, rel, m[k]) == Ok(k) && KeyPresent(rel, m[k]) && m[k].keyColumns == SortNames(rel.rowKey)
    {
      var i :| 0 <= i < |ks| && ks[i] == k;
    }
  }

  lemma {:induction false} SortedIsDistinct(ks: seq<Key>)
    requires StrictlySorted(LexLess, ks)
    ensures Distinct(ks)
  {
    LexIsStrictOrder();
  }
}
