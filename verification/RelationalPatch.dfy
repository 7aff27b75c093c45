/** Laws of relational differences: applying one, its order, its inverse
    (`diff`, src/avp_ref/relational.py, and AVP-RELATIONAL-014). */
module RelationalPatch {
  import opened Common
  import opened Ordering
  import opened Canonical
  import opened RelationalState
  import opened RelationalDiff

  /** `was` with the listed keys brought to their state in `now`. */
  function Blend(was: map<Key, Row>, now: map<Key, Row>, ks: seq<Key>): map<Key, Row> {
    (was - Elements(ks)) + map k | k in ks && k in now :: now[k]
  }

  function ChangeKey(codec: Codec, c: Change): Key {
    codec.encodeKey(DictOf(c.key))
  }

  lemma {:induction false} KeyOfSpells(codec: Codec, rel: Relation, row: Row, k: Key)
    requires KeyPresent(rel, row) && RowKey(codec, rel, row) == Ok(k)
    ensures codec.encodeKey(DictOf(KeyOf(rel, row))) == k
  {
    ListedMap(SortNames(rel.rowKey), DictOf(row.values));
    KeyValuesCollects(SortNames(rel.rowKey), DictOf(row.values));
  }

  /** Every row is filed under the key that its own changes spell. */
  ghost predicate Spelled(codec: Codec, rel: Relation, m: map<Key, Row>) {
    forall k :: k in m ==>
      && KeyPresent(rel, m[k]) && m[k].keyColumns == SortNames(rel.rowKey)
      && codec.encodeKey(DictOf(KeyOf(rel, m[k]))) == k
  }

  lemma {:induction false} FiledIsSpelled(codec: Codec, rel: Relation, m: map<Key, Row>)
    requires Filed(codec, rel, m)
    ensures Spelled(codec, rel, m)
  {
    forall k | k in m ensures codec.encodeKey(DictOf(KeyOf(rel, m[k]))) == k {
      KeyOfSpells(codec, rel, m[k], k);
    }
  }

  lemma {:induction false} BlendStep(was: map<Key, Row>, now: map<Key, Row>, ks: seq<Key>, k: Key)
    requires k !in ks
    ensures Blend(was, now, ks + [k]) ==
      if k in now then Blend(was, now, ks)[k := now[k]] else Blend(was, now, ks) - {k}
    ensures (k in Blend(was, now, ks) <==> k in was) && (k in was ==> Blend(was, now, ks)[k] == was[k])
  {
    ElementsExtend(ks, k);
  }

  /** A patched-in row is the target row: filed rows are bound to the relation's key. */
  lemma {:induction false} PatchIn(codec: Codec, rel: Relation, was: map<Key, Row>, now: map<Key, Row>, m: map<Key, Row>, k: Key)
    requires Spelled(codec, rel, was) && Spelled(codec, rel, now)
    requires (k in m <==> k in was) && (k in was ==> m[k] == was[k]) && k in now
    ensures AllPresent(rel, was) && AllPresent(rel, now)
    ensures |ChangeAt(rel, was, now, k)| <= 1
    ensures if ChangeAt(rel, was, now, k) == [] then m[k := now[k]] == m
      else PatchRow(codec, rel, m, ChangeAt(rel, was, now, k)[0]) == Some(m[k := now[k]])
  {
    assert now[k] == Row(now[k].values, SortNames(rel.rowKey));
  }

  lemma {:induction false} PatchOut(codec: Codec, rel: Relation, was: map<Key, Row>, now: map<Key, Row>, m: map<Key, Row>, k: Key)
    requires Spelled(codec, rel, was) && Spelled(codec, rel, now)
    requires (k in m <==> k in was) && (k in was ==> m[k] == was[k]) && k !in now
    ensures AllPresent(rel, was) && AllPresent(rel, now)
    ensures |ChangeAt(rel, was, now, k)| <= 1
    ensures if ChangeAt(rel, was, now, k) == [] then m - {k} == m
      else PatchRow(codec, rel, m, ChangeAt(rel, was, now, k)[0]) == Some(m - {k})
  {
  }

  /** The change at one key brings exactly that key up to date. */
  lemma {:induction false} PatchKey(codec: Codec, rel: Relation, was: map<Key, Row>, now: map<Key, Row>, m: map<Key, Row>, k: Key)
    requires Spelled(codec, rel, was) && Spelled(codec, rel, now)
    requires (k in m <==> k in was) && (k in was ==> m[k] == was[k])
    ensures AllPresent(rel, was) && AllPresent(rel, now)
    ensures |ChangeAt(rel, was, now, k)| <= 1
    ensures var next := if k in now then m[k := now[k]] else m - {k};
      if ChangeAt(rel, was, now, k) == [] then next == m
      else PatchRow(codec, rel, m, ChangeAt(rel, was, now, k)[0]) == Some(next)
  {
    if k in now {
      PatchIn(codec, rel, was, now, m, k);
    } else {
      PatchOut(codec, rel, was, now, m, k);
    }
  }

  lemma {:induction false} PatchKeys(codec: Codec, rel: Relation, was: map<Key, Row>, now: map<Key, Row>, ks: seq<Key>)
    requires Spelled(codec, rel, was) && Spelled(codec, rel, now) && Distinct(ks)
    ensures AllPresent(rel, was) && AllPresent(rel, now)
    ensures PatchRows(codec, rel, was, ChangesAt(rel, was, now, ks)) == Some(Blend(was, now, ks))
  {
    if |ks| == 0 {
      assert Blend(was, now, []) == was;
    } else {
      var front, k := ks[..|ks| - 1], ks[|ks| - 1];
      assert ks == front + [k];
      DistinctExtend(front, k);
      PatchKeys(codec, rel, was, now, front);
      BlendStep(was, now, front, k);
      PatchKey(codec, rel, was, now, Blend(was, now, front), k);
      PatchMore(codec, rel, was, ChangesAt(rel, was, now, front), ChangeAt(rel, was, now, k));
    }
  }

  lemma {:induction false} PatchMore(codec: Codec, rel: Relation, m: map<Key, Row>, cs: seq<Change>, c: seq<Change>)
    requires |c| <= 1 && PatchRows(codec, rel, m, cs).Some?
    ensures PatchRows(codec, rel, m, cs + c) ==
      if c == [] then PatchRows(codec, rel, m, cs) else PatchRow(codec, rel, PatchRows(codec, rel, m, cs).value, c[0])
  {
    if c == [] {
      assert cs + c == cs;
    } else {
      assert (cs + c)[..|cs + c| - 1] == cs;
    }
  }

  /** Applying the difference of two relations to the first rebuilds the second exactly,
      row for row in canonical order, and every change finds the row it describes. */
  lemma {:induction false} DiffRebuilds(codec: Codec, rel: Relation, before: seq<Row>, after: seq<Row>)
    requires Differable(codec, rel, before) && Differable(codec, rel, after)
    ensures DiffRelation(codec, rel, before, after).Ok? && RowsByKey(codec, rel, before).Ok?
    ensures var patched := PatchRows(codec, rel, RowsByKey(codec, rel, before).value, DiffRelation(codec, rel, before, after).value);
      patched.Some? && RowsOf(patched.value) == after
  {
    IndexOfCanonical(codec, rel, before);
    IndexOfCanonical(codec, rel, after);
    var was, now := RowsByKey(codec, rel, before).value, RowsByKey(codec, rel, after).value;
    var ks := Ascending(was.Keys + now.Keys);
    AscendingSorts(was.Keys + now.Keys);
    SortedIsDistinct(ks);
    FiledIsSpelled(codec, rel, was);
    FiledIsSpelled(codec, rel, now);
    PatchKeys(codec, rel, was, now, ks);
    BlendAll(was, now, ks);
  }

  lemma {:induction false} BlendAll(was: map<Key, Row>, now: map<Key, Row>, ks: seq<Key>)
    requires Elements(ks) == was.Keys + now.Keys
    ensures Blend(was, now, ks) == now
  {
    assert forall k :: k in ks <==> k in Elements(ks);
  }

  lemma {:induction false} ChangeSpells(codec: Codec, rel: Relation, was: map<Key, Row>, now: map<Key, Row>, k: Key)
    requires Spelled(codec, rel, was) && Spelled(codec, rel, now)
    ensures AllPresent(rel, was) && AllPresent(rel, now)
    ensures |ChangeAt(rel, was, now, k)| <= 1
    ensures forall c :: c in ChangeAt(rel, was, now, k) ==> c.relationId == rel.id && ChangeKey(codec, c) == k
  {
  }

  /** Every change is for this relation and a listed key. */
  ghost predicate About(codec: Codec, rel: Relation, ks: seq<Key>, cs: seq<Change>) {
    forall i :: 0 <= i < |cs| ==> cs[i].relationId == rel.id && ChangeKey(codec, cs[i]) in ks
  }

  lemma {:induction false} AscendOneMore(codec: Codec, rel: Relation, ks: seq<Key>, k: Key, cs: seq<Change>, c: seq<Change>)
    requires StrictlySorted(LexLess, ks + [k]) && About(codec, rel, ks, cs)
    requires StrictlySorted(LexLess, Map(c => ChangeKey(codec, c), cs))
    requires |c| <= 1 && forall d :: d in c ==> d.relationId == rel.id && ChangeKey(codec, d) == k
    ensures StrictlySorted(LexLess, Map(c => ChangeKey(codec, c), cs + c)) && About(codec, rel, ks + [k], cs + c)
  {
    var keys := Map(c => ChangeKey(codec, c), cs);
    forall i | 0 <= i < |cs| ensures LexLess(keys[i], k) {
      var j :| 0 <= j < |ks| && ks[j] == keys[i];
      assert LexLess((ks + [k])[j], (ks + [k])[|ks|]);
    }
  }

  lemma {:induction false} ChangesAreSorted(codec: Codec, rel: Relation, was: map<Key, Row>, now: map<Key, Row>, ks: seq<Key>)
    requires Spelled(codec, rel, was) && Spelled(codec, rel, now) && StrictlySorted(LexLess, ks)
    ensures AllPresent(rel, was) && AllPresent(rel, now)
    ensures StrictlySorted(LexLess, Map(c => ChangeKey(codec, c), ChangesAt(rel, was, now, ks)))
    ensures About(codec, rel, ks, ChangesAt(rel, was, now, ks))
  {
    if |ks| != 0 {
      var front, k := ks[..|ks| - 1], ks[|ks| - 1];
      assert ks == front + [k];
      ChangesAreSorted(codec, rel, was, now, front);
      ChangeSpells(codec, rel, was, now, k);
      AscendOneMore(codec, rel, front, k, ChangesAt(rel, was, now, front), ChangeAt(rel, was, now, k));
    }
  }

  /** At most one change per key, keys strictly ascending, all for this relation. */
  lemma {:induction false} DiffIsSorted(codec: Codec, rel: Relation, before: seq<Row>, after: seq<Row>)
    requires Differable(codec, rel, before) && Differable(codec, rel, after)
    ensures DiffRelation(codec, rel, before, after).Ok?
    ensures var cs := DiffRelation(codec, rel, before, after).value;
      && StrictlySorted(LexLess, Map(c => ChangeKey(codec, c), cs))
      && forall i :: 0 <= i < |cs| ==> cs[i].relationId == rel.id
  {
    IndexOfCanonical(codec, rel, before);
    IndexOfCanonical(codec, rel, after);
    var was, now := RowsByKey(codec, rel, before).value, RowsByKey(codec, rel, after).value;
    AscendingSorts(was.Keys + now.Keys);
    FiledIsSpelled(codec, rel, was);
    FiledIsSpelled(codec, rel, now);
    ChangesAreSorted(codec, rel, was, now, Ascending(was.Keys + now.Keys));
  }

  /** A relation differs from another exactly when there is a change. */
  lemma {:induction false} DiffEmptyIffEqual(codec: Codec, rel: Relation, before: seq<Row>, after: seq<Row>)
    requires Differable(codec, rel, before) && Differable(codec, rel, after)
    ensures DiffRelation(codec, rel, before, after).Ok?
    ensures DiffRelation(codec, rel, before, after).value == [] <==> before == after
  {
    DiffRebuilds(codec, rel, before, after);
    IndexOfCanonical(codec, rel, before);
    var was := RowsByKey(codec, rel, before).value;
    if before == after {
      NoChanges(rel, was, Ascending(was.Keys + was.Keys));
    }
  }

  lemma {:induction false} NoChanges(rel: Relation, m: map<Key, Row>, ks: seq<Key>)
    requires AllPresent(rel, m)
    ensures ChangesAt(rel, m, m, ks) == []
  {
    if |ks| != 0 {
      NoChanges(rel, m, ks[..|ks| - 1]);
    }
  }

  // The inverse.

  function Inverse(c: Change): Change {
    Change(c.relationId,
           match c.kind case Insert => Delete case Delete => Insert case Update => Update,
           c.key, c.after, c.before)
  }

  /** Canonical JSON gives different keys different bytes. */
  ghost predicate KeysDistinguished(codec: Codec) {
    forall a, b :: codec.encodeKey(a) == codec.encodeKey(b) ==> a == b
  }

  lemma {:induction false} SameKeySameDocument(codec: Codec, rel: Relation, p: Row, q: Row, k: Key)
    requires KeysDistinguished(codec)
    requires KeyPresent(rel, p) && KeyPresent(rel, q)
    requires RowKey(codec, rel, p) == Ok(k) && RowKey(codec, rel, q) == Ok(k)
    ensures KeyOf(rel, p) == KeyOf(rel, q)
  {
    var names := SortNames(rel.rowKey);
    KeyValuesCollects(names, DictOf(p.values));
    KeyValuesCollects(names, DictOf(q.values));
    var kp, kq := KeyValues(names, DictOf(p.values)).value, KeyValues(names, DictOf(q.values)).value;
    assert codec.encodeKey(kp) == codec.encodeKey(kq);
    forall n | n in names ensures DictOf(p.values)[n] == DictOf(q.values)[n] {
      assert kp[n] == kq[n];
    }
  }

  lemma {:induction false} InverseChanges(codec: Codec, rel: Relation, was: map<Key, Row>, now: map<Key, Row>, ks: seq<Key>)
    requires KeysDistinguished(codec) && Filed(codec, rel, was) && Filed(codec, rel, now)
    ensures AllPresent(rel, was) && AllPresent(rel, now)
    ensures ChangesAt(rel, now, was, ks) == Map(Inverse, ChangesAt(rel, was, now, ks))
  {
    if |ks| != 0 {
      var k := ks[|ks| - 1];
      InverseChanges(codec, rel, was, now, ks[..|ks| - 1]);
      InverseChange(codec, rel, was, now, k);
      MapConcat(Inverse, ChangesAt(rel, was, now, ks[..|ks| - 1]), ChangeAt(rel, was, now, k));
    }
  }

  lemma {:induction false} InverseChange(codec: Codec, rel: Relation, was: map<Key, Row>, now: map<Key, Row>, k: Key)
    requires KeysDistinguished(codec) && Filed(codec, rel, was) && Filed(codec, rel, now)
    ensures AllPresent(rel, was) && AllPresent(rel, now)
    ensures ChangeAt(rel, now, was, k) == Map(Inverse, ChangeAt(rel, was, now, k))
  {
    if k in was && k in now {
      SameKeySameDocument(codec, rel, was[k], now[k], k);
    }
  }

  /** Swapping the arguments gives the inverse patch. */
  lemma {:induction false} DiffInverts(codec: Codec, rel: Relation, before: seq<Row>, after: seq<Row>)
    requires KeysDistinguished(codec) && Differable(codec, rel, before) && Differable(codec, rel, after)
    ensures DiffRelation(codec, rel, before, after).Ok?
    ensures DiffRelation(codec, rel, after, before) == Ok(Map(Inverse, DiffRelation(codec, rel, before, after).value))
  {
    IndexOfCanonical(codec, rel, before);
    IndexOfCanonical(codec, rel, after);
    var was, now := RowsByKey(codec, rel, before).value, RowsByKey(codec, rel, after).value;
    assert was.Keys + now.Keys == now.Keys + was.Keys;
    InverseChanges(codec, rel, was, now, Ascending(was.Keys + now.Keys));
  }

  // Whole images.

  ghost predicate DifferableState(codec: Codec, m: Manifest, s: State) {
    && s.Keys == Elements(RelationIds(m.relations))
    && forall r :: r in m.relations && r.id in s ==> Differable(codec, r, s[r.id])
  }

  /** The part of a change list that concerns one relation. */
  function ChangesOf(changes: seq<Change>, id: Name): seq<Change> {
    if |changes| == 0 then []
    else
      ChangesOf(changes[..|changes| - 1], id)
      + (if changes[|changes| - 1].relationId == id then [changes[|changes| - 1]] else [])
  }

  lemma {:induction false} ChangesOfConcat(a: seq<Change>, b: seq<Change>, id: Name)
    ensures ChangesOf(a + b, id) == ChangesOf(a, id) + ChangesOf(b, id)
  {
    if |b| == 0 {
      assert a + b == a;
    } else {
      assert (a + b)[..|a + b| - 1] == a + b[..|b| - 1];
      ChangesOfConcat(a, b[..|b| - 1], id);
    }
  }

  lemma {:induction false} ChangesOfUniform(cs: seq<Change>, id: Name, other: Name)
    requires forall i :: 0 <= i < |cs| ==> cs[i].relationId == id
    ensures ChangesOf(cs, id) == cs
    ensures other != id ==> ChangesOf(cs, other) == []
  {
    if |cs| != 0 {
      ChangesOfUniform(cs[..|cs| - 1], id, other);
      assert cs == cs[..|cs| - 1] + [cs[|cs| - 1]];
    }
  }

  predicate PairLess(a: (Name, Key), b: (Name, Key)) {
    LexLess(a.0, b.0) || (a.0 == b.0 && LexLess(a.1, b.1))
  }

  function ChangePlace(codec: Codec, c: Change): (Name, Key) {
    (c.relationId, ChangeKey(codec, c))
  }

  /** Both states have differable rows for each of these relations. */
  ghost predicate DifferableBoth(codec: Codec, rels: seq<Relation>, b: State, a: State) {
    forall r :: r in rels ==> r.id in b && r.id in a && Differable(codec, r, b[r.id]) && Differable(codec, r, a[r.id])
  }

  lemma {:induction false} DiffSucceeds(codec: Codec, rels: seq<Relation>, b: State, a: State)
    requires DifferableBoth(codec, rels, b, a)
    ensures DiffRelations(codec, rels, b, a).Ok?
  {
    if |rels| != 0 {
      DiffSucceeds(codec, rels[..|rels| - 1], b, a);
      var rel := rels[|rels| - 1];
      IndexOfCanonical(codec, rel, b[rel.id]);
      IndexOfCanonical(codec, rel, a[rel.id]);
    }
  }

  /** The changes of all relations but the last, and of the last. */
  lemma {:induction false} DiffStep(codec: Codec, front: seq<Relation>, rel: Relation, b: State, a: State)
    returns (done: seq<Change>, more: seq<Change>)
    requires DifferableBoth(codec, front + [rel], b, a)
    ensures DifferableBoth(codec, front, b, a)
    ensures rel.id in b && rel.id in a && Differable(codec, rel, b[rel.id]) && Differable(codec, rel, a[rel.id])
    ensures DiffRelations(codec, front, b, a) == Ok(done) && DiffRelation(codec, rel, b[rel.id], a[rel.id]) == Ok(more)
    ensures DiffRelations(codec, front + [rel], b, a) == Ok(done + more)
  {
    assert rel in front + [rel];
    assert (front + [rel])[..|front|] == front;
    DiffSucceeds(codec, front + [rel], b, a);
    DiffSucceeds(codec, front, b, a);
    done := DiffRelations(codec, front, b, a).value;
    more := DiffRelation(codec, rel, b[rel.id], a[rel.id]).value;
  }

  lemma {:induction false} DiffMentions(codec: Codec, rels: seq<Relation>, b: State, a: State)
    requires DifferableBoth(codec, rels, b, a)
    ensures DiffRelations(codec, rels, b, a).Ok?
    ensures var all := DiffRelations(codec, rels, b, a).value;
      forall i :: 0 <= i < |all| ==> all[i].relationId in RelationIds(rels)
  {
    if |rels| != 0 {
      var front, rel := rels[..|rels| - 1], rels[|rels| - 1];
      assert rels == front + [rel];
      assert RelationIds(rels) == RelationIds(front) + [rel.id];
      var done, more := DiffStep(codec, front, rel, b, a);
      DiffMentions(codec, front, b, a);
      DiffIsSorted(codec, rel, b[rel.id], a[rel.id]);
    }
  }

  /** Adding a relation adds its own share and leaves the earlier shares alone. */
  lemma {:induction false} ShareStep(codec: Codec, front: seq<Relation>, rel: Relation, b: State, a: State)
    requires StrictlySorted(LexLess, RelationIds(front + [rel])) && DifferableBoth(codec, front + [rel], b, a)
    ensures DiffRelations(codec, front + [rel], b, a).Ok? && DiffRelations(codec, front, b, a).Ok?
    ensures DifferableBoth(codec, front, b, a) && StrictlySorted(LexLess, RelationIds(front))
    ensures rel.id in b && rel.id in a
    ensures Ok(ChangesOf(DiffRelations(codec, front + [rel], b, a).value, rel.id)) ==
      DiffRelation(codec, rel, b[rel.id], a[rel.id])
    ensures forall n :: 0 <= n < |front| ==>
      ChangesOf(DiffRelations(codec, front + [rel], b, a).value, front[n].id) ==
      ChangesOf(DiffRelations(codec, front, b, a).value, front[n].id)
  {
    var done, more := DiffStep(codec, front, rel, b, a);
    DiffMentions(codec, front, b, a);
    DiffIsSorted(codec, rel, b[rel.id], a[rel.id]);
    SegmentsApart(front, rel, done, more);
    assert RelationIds(front) == RelationIds(front + [rel])[..|front|];
  }

  /** The image's change list is the relations' lists one after the other. */
  lemma {:induction false} DiffSegments(codec: Codec, rels: seq<Relation>, b: State, a: State, n: nat)
    requires StrictlySorted(LexLess, RelationIds(rels)) && DifferableBoth(codec, rels, b, a) && n < |rels|
    ensures DiffRelations(codec, rels, b, a).Ok? && rels[n].id in b && rels[n].id in a
    ensures Ok(ChangesOf(DiffRelations(codec, rels, b, a).value, rels[n].id)) ==
      DiffRelation(codec, rels[n], b[rels[n].id], a[rels[n].id])
  {
    var front, rel := rels[..|rels| - 1], rels[|rels| - 1];
    assert rels == front + [rel];
    ShareStep(codec, front, rel, b, a);
    if n < |front| {
      assert rels[n] == front[n];
      DiffSegments(codec, front, b, a, n);
    } else {
      assert rels[n] == rel;
    }
  }

  /** Changes come in ascending relation order and, within a relation, ascending key order. */
  lemma {:induction false} DiffAscends(codec: Codec, rels: seq<Relation>, b: State, a: State)
    requires StrictlySorted(LexLess, RelationIds(rels)) && DifferableBoth(codec, rels, b, a)
    ensures DiffRelations(codec, rels, b, a).Ok?
    ensures StrictlySorted(PairLess, Map(c => ChangePlace(codec, c), DiffRelations(codec, rels, b, a).value))
  {
    if |rels| != 0 {
      var front, rel := rels[..|rels| - 1], rels[|rels| - 1];
      assert rels == front + [rel];
      assert RelationIds(rels) == RelationIds(front) + [rel.id];
      var done, more := DiffStep(codec, front, rel, b, a);
      DiffMentions(codec, front, b, a);
      DiffAscends(codec, front, b, a);
      DiffIsSorted(codec, rel, b[rel.id], a[rel.id]);
      JoinSorted(codec, rels, done, more);
    }
  }

  lemma {:induction false} SegmentsApart(front: seq<Relation>, rel: Relation, done: seq<Change>, more: seq<Change>)
    requires StrictlySorted(LexLess, RelationIds(front + [rel]))
    requires forall i :: 0 <= i < |done| ==> done[i].relationId in RelationIds(front)
    requires forall i :: 0 <= i < |more| ==> more[i].relationId == rel.id
    ensures ChangesOf(done + more, rel.id) == more
    ensures forall i :: 0 <= i < |front| ==> ChangesOf(done + more, front[i].id) == ChangesOf(done, front[i].id)
  {
    LastIsNew(front, rel);
    ChangesOfConcat(done, more, rel.id);
    ChangesOfUniform(more, rel.id, rel.id);
    NoneOf(done, rel.id);
    forall i | 0 <= i < |front| ensures ChangesOf(done + more, front[i].id) == ChangesOf(done, front[i].id) {
      ChangesOfConcat(done, more, front[i].id);
      assert RelationIds(front)[i] == front[i].id;
      ChangesOfUniform(more, rel.id, front[i].id);
    }
  }

  lemma {:induction false} LastIsNew(front: seq<Relation>, rel: Relation)
    requires StrictlySorted(LexLess, RelationIds(front + [rel]))
    ensures rel.id !in RelationIds(front)
  {
    var ids := RelationIds(front + [rel]);
    SortedIsDistinct(ids);
    forall i | 0 <= i < |front| ensures RelationIds(front)[i] != rel.id {
      assert ids[i] != ids[|front|];
    }
  }

  lemma {:induction false} NoneOf(cs: seq<Change>, id: Name)
    requires forall i :: 0 <= i < |cs| ==> cs[i].relationId != id
    ensures ChangesOf(cs, id) == []
  {
    if |cs| != 0 {
      NoneOf(cs[..|cs| - 1], id);
    }
  }

  lemma {:induction false} JoinSorted(codec: Codec, rels: seq<Relation>, done: seq<Change>, more: seq<Change>)
    requires |rels| != 0 && StrictlySorted(LexLess, RelationIds(rels))
    requires forall i :: 0 <= i < |done| ==> done[i].relationId in RelationIds(rels[..|rels| - 1])
    requires forall i :: 0 <= i < |more| ==> more[i].relationId == rels[|rels| - 1].id
    requires StrictlySorted(PairLess, Map(c => ChangePlace(codec, c), done))
    requires StrictlySorted(LexLess, Map(c => ChangeKey(codec, c), more))
    ensures StrictlySorted(PairLess, Map(c => ChangePlace(codec, c), done + more))
  {
    var all := done + more;
    forall i, j | 0 <= i < j < |all| ensures PairLess(ChangePlace(codec, all[i]), ChangePlace(codec, all[j])) {
      if j < |done| {
        var places := Map(c => ChangePlace(codec, c), done);
        assert PairLess(places[i], places[j]);
      } else if i < |done| {
        var n :| 0 <= n < |rels| - 1 && RelationIds(rels[..|rels| - 1])[n] == done[i].relationId;
        assert LexLess(RelationIds(rels)[n], RelationIds(rels)[|rels| - 1]);
      } else {
        var keys := Map(c => ChangeKey(codec, c), more);
        assert LexLess(keys[i - |done|], keys[j - |done|]);
      }
    }
  }

  lemma {:induction false} IdsOfSorted(m: Manifest, n: Name)
    ensures n in RelationIds(SortedRelations(m)) <==> n in RelationIds(m.relations)
  {
    SortedRelationsAreRelations(m);
    SameIds(m.relations, SortedRelations(m), n);
    SameIds(SortedRelations(m), m.relations, n);
  }

  lemma {:induction false} SameIds(rels: seq<Relation>, others: seq<Relation>, n: Name)
    requires forall r :: r in rels ==> r in others
    ensures n in RelationIds(rels) ==> n in RelationIds(others)
  {
    if n in RelationIds(rels) {
      var i :| 0 <= i < |rels| && RelationIds(rels)[i] == n;
      assert rels[i] in others;
      var j :| 0 <= j < |others| && others[j] == rels[i];
      assert RelationIds(others)[j] == n;
    }
  }

  lemma {:induction false} ImageKeepsState(m: Manifest, manifestDigest: int, s: State)
    requires s.Keys == Elements(RelationIds(m.relations))
    ensures (forall r :: r in m.relations ==> r.id in s) && DictOf(ImageOf(m, manifestDigest, s).relations) == s
  {
    SurfaceCovers(m, s);
    var ids := RelationIds(SortedRelations(m));
    forall n ensures n in ids <==> n in s {
      IdsOfSorted(m, n);
    }
    ListedMap(ids, s);
    assert (map n | n in ids :: s[n]) == s;
  }

  /** These changes turn the rows `before` into exactly the rows `after`. */
  ghost predicate Rebuilt(codec: Codec, rel: Relation, before: seq<Row>, after: seq<Row>, changes: seq<Change>) {
    && RowsByKey(codec, rel, before).Ok?
    && PatchRows(codec, rel, RowsByKey(codec, rel, before).value, changes).Some?
    && RowsOf(PatchRows(codec, rel, RowsByKey(codec, rel, before).value, changes).value) == after
  }

  lemma {:induction false} ShareRebuilds(codec: Codec, rels: seq<Relation>, b: State, a: State, r: Relation)
    requires StrictlySorted(LexLess, RelationIds(rels)) && DifferableBoth(codec, rels, b, a) && r in rels
    ensures DiffRelations(codec, rels, b, a).Ok?
    ensures Rebuilt(codec, r, b[r.id], a[r.id], ChangesOf(DiffRelations(codec, rels, b, a).value, r.id))
  {
    var n :| 0 <= n < |rels| && rels[n] == r;
    DiffSegments(codec, rels, b, a, n);
    DiffRebuilds(codec, r, b[r.id], a[r.id]);
  }

  /** For all differable states of one manifest: the image diff succeeds; its changes are
      strictly sorted by relation and key; each relation's share, applied to the old rows,
      rebuilds the new rows exactly; and there is no change exactly when the states agree. */
  lemma {:induction false} ImageDiffRebuilds(codec: Codec, m: Manifest, manifestDigest: int, b: State, a: State)
    requires Distinct(RelationIds(m.relations))
    requires DifferableState(codec, m, b) && DifferableState(codec, m, a)
    ensures (forall r :: r in m.relations ==> r.id in b) && (forall r :: r in m.relations ==> r.id in a)
    ensures var d := DiffImages(codec, m, manifestDigest, ImageOf(m, manifestDigest, b), ImageOf(m, manifestDigest, a));
      && d.Ok?
      && StrictlySorted(PairLess, Map(c => ChangePlace(codec, c), d.value))
      && (forall r :: r in m.relations ==> Rebuilt(codec, r, b[r.id], a[r.id], ChangesOf(d.value, r.id)))
      && (d.value == [] <==> b == a)
  {
    ImageKeepsState(m, manifestDigest, b);
    ImageKeepsState(m, manifestDigest, a);
    SortedRelationsAreRelations(m);
    var rels := SortedRelations(m);
    DiffAscends(codec, rels, b, a);
    var all := DiffRelations(codec, rels, b, a).value;
    forall r | r in m.relations ensures Rebuilt(codec, r, b[r.id], a[r.id], ChangesOf(all, r.id)) {
      ShareRebuilds(codec, rels, b, a, r);
    }
    if all == [] {
      NoChangeSameState(codec, m, rels, b, a);
    }
    if b == a {
      SameStateNoChange(codec, rels, b);
    }
  }

  lemma {:induction false} NoChangeSameState(codec: Codec, m: Manifest, rels: seq<Relation>, b: State, a: State)
    requires DifferableState(codec, m, b) && DifferableState(codec, m, a)
    requires rels == SortedRelations(m) && StrictlySorted(LexLess, RelationIds(rels)) && DifferableBoth(codec, rels, b, a)
    requires DiffRelations(codec, rels, b, a) == Ok([])
    ensures b == a
  {
    forall n | n in b ensures n in a && b[n] == a[n] {
      IdsOfSorted(m, n);
      var j :| 0 <= j < |rels| && RelationIds(rels)[j] == n;
      DiffSegments(codec, rels, b, a, j);
      DiffEmptyIffEqual(codec, rels[j], b[rels[j].id], a[rels[j].id]);
    }
  }

  lemma {:induction false} SameRowsNoChange(codec: Codec, rel: Relation, rows: seq<Row>)
    requires Differable(codec, rel, rows)
    ensures DiffRelation(codec, rel, rows, rows) == Ok([])
  {
    DiffEmptyIffEqual(codec, rel, rows, rows);
  }

  lemma {:induction false} SameStateNoChange(codec: Codec, rels: seq<Relation>, s: State)
    requires DifferableBoth(codec, rels, s, s)
    ensures DiffRelations(codec, rels, s, s) == Ok([])
  {
    if |rels| != 0 {
      var rel := rels[|rels| - 1];
      SameStateNoChange(codec, rels[..|rels| - 1], s);
      SameRowsNoChange(codec, rel, s[rel.id]);
      var none: seq<Change> := [];
      assert none + none == none;
    }
  }

  lemma {:induction false} MapConcat<A, B>(f: A -> B, xs: seq<A>, ys: seq<A>)
    ensures Map(f, xs + ys) == Map(f, xs) + Map(f, ys)
  {
  }

  lemma {:induction false} RelationsInvert(codec: Codec, rels: seq<Relation>, b: State, a: State)
    requires KeysDistinguished(codec)
    requires DifferableBoth(codec, rels, b, a)
    ensures DiffRelations(codec, rels, b, a).Ok?
    ensures DiffRelations(codec, rels, a, b) == Ok(Map(Inverse, DiffRelations(codec, rels, b, a).value))
  {
    if |rels| != 0 {
      var front, rel := rels[..|rels| - 1], rels[|rels| - 1];
      RelationsInvert(codec, front, b, a);
      DiffInverts(codec, rel, b[rel.id], a[rel.id]);
      MapConcat(Inverse, DiffRelations(codec, front, b, a).value, DiffRelation(codec, rel, b[rel.id], a[rel.id]).value);
    }
  }

  /** The difference taken the other way round is the inverse patch, change for change. */
  lemma {:induction false} ImageDiffInverts(codec: Codec, m: Manifest, manifestDigest: int, b: State, a: State)
    requires KeysDistinguished(codec)
    requires DifferableState(codec, m, b) && DifferableState(codec, m, a)
    ensures (forall r :: r in m.relations ==> r.id in b) && (forall r :: r in m.relations ==> r.id in a)
    ensures var ib, ia := ImageOf(m, manifestDigest, b), ImageOf(m, manifestDigest, a);
      && DiffImages(codec, m, manifestDigest, ib, ia).Ok?
      && DiffImages(codec, m, manifestDigest, ia, ib) == Ok(Map(Inverse, DiffImages(codec, m, manifestDigest, ib, ia).value))
  {
    ImageKeepsState(m, manifestDigest, b);
    ImageKeepsState(m, manifestDigest, a);
    SortedRelationsAreRelations(m);
    RelationsInvert(codec, SortedRelations(m), b, a);
  }

  // Applying a change list to a whole state.

  type Index = map<Name, map<Key, Row>>

  /** One change applied to the relation it names. */
  function PatchOne(codec: Codec, rels: seq<Relation>, ix: Index, c: Change): Option<Index> {
    match FindRelation(rels, c.relationId)
    case None => None
    case Some(rel) =>
      if c.relationId !in ix then None
      else
        match PatchRow(codec, rel, ix[c.relationId], c)
        case None => None
        case Some(rows) => Some(ix[c.relationId := rows])
  }

  function PatchAll(codec: Codec, rels: seq<Relation>, ix: Index, changes: seq<Change>): Option<Index> {
    if |changes| == 0 then Some(ix)
    else
      match PatchAll(codec, rels, ix, changes[..|changes| - 1])
      case None => None
      case Some(done) => PatchOne(codec, rels, done, changes[|changes| - 1])
  }

  predicate Indexable(codec: Codec, rels: seq<Relation>, s: State) {
    forall id :: id in s ==> FindRelation(rels, id).Some? && RowsByKey(codec, FindRelation(rels, id).value, s[id]).Ok?
  }

  function IndexState(codec: Codec, rels: seq<Relation>, s: State): Index
    requires Indexable(codec, rels, s)
  {
    map id | id in s :: RowsByKey(codec, FindRelation(rels, id).value, s[id]).value
  }

  ghost function Rows(ix: Index): State {
    map id | id in ix :: RowsOf(ix[id])
  }

  /** A change list applied to a state, in order; a change that does not find the row it
      describes has no result. */
  ghost function ApplyPatch(codec: Codec, m: Manifest, s: State, changes: seq<Change>): Option<State> {
    if !Indexable(codec, m.relations, s) then None
    else
      match PatchAll(codec, m.relations, IndexState(codec, m.relations, s), changes)
      case None => None
      case Some(ix) => Some(Rows(ix))
  }

  lemma {:induction false} ShareGrows(codec: Codec, rel: Relation, m: map<Key, Row>, changes: seq<Change>)
    requires |changes| != 0 && PatchRows(codec, rel, m, ChangesOf(changes, rel.id)).Some?
    ensures var front, c := changes[..|changes| - 1], changes[|changes| - 1];
      && PatchRows(codec, rel, m, ChangesOf(front, rel.id)).Some?
      && PatchRows(codec, rel, m, ChangesOf(changes, rel.id)) ==
         if c.relationId == rel.id then PatchRow(codec, rel, PatchRows(codec, rel, m, ChangesOf(front, rel.id)).value, c)
         else PatchRows(codec, rel, m, ChangesOf(front, rel.id))
  {
    var front, c := changes[..|changes| - 1], changes[|changes| - 1];
    var share := ChangesOf(front, rel.id);
    if c.relationId == rel.id {
      assert (share + [c])[..|share + [c]| - 1] == share;
    } else {
      assert share + [] == share;
    }
  }

  /** Every relation's share of the list applies to its rows. */
  ghost predicate SharesApply(codec: Codec, rels: seq<Relation>, ix: Index, changes: seq<Change>) {
    forall id :: id in ix ==>
      && FindRelation(rels, id).Some? && FindRelation(rels, id).value.id == id
      && PatchRows(codec, FindRelation(rels, id).value, ix[id], ChangesOf(changes, id)).Some?
  }

  /** Changes to different relations do not disturb each other. */
  lemma {:induction false} SharesPatch(codec: Codec, rels: seq<Relation>, ix: Index, changes: seq<Change>)
    requires SharesApply(codec, rels, ix, changes)
    requires forall i :: 0 <= i < |changes| ==> changes[i].relationId in ix
    ensures PatchAll(codec, rels, ix, changes).Some?
    ensures PatchAll(codec, rels, ix, changes).value.Keys == ix.Keys
    ensures forall id :: id in ix ==>
      Some(PatchAll(codec, rels, ix, changes).value[id]) ==
      PatchRows(codec, FindRelation(rels, id).value, ix[id], ChangesOf(changes, id))
  {
    if |changes| != 0 {
      var front := changes[..|changes| - 1];
      forall id | id in ix ensures PatchRows(codec, FindRelation(rels, id).value, ix[id], ChangesOf(front, id)).Some? {
        ShareGrows(codec, FindRelation(rels, id).value, ix[id], changes);
      }
      SharesPatch(codec, rels, ix, front);
      forall id | id in ix
        ensures var rel := FindRelation(rels, id).value;
          PatchRows(codec, rel, ix[id], ChangesOf(changes, id)) ==
            if changes[|changes| - 1].relationId == id
            then PatchRow(codec, rel, PatchRows(codec, rel, ix[id], ChangesOf(front, id)).value, changes[|changes| - 1])
            else PatchRows(codec, rel, ix[id], ChangesOf(front, id))
      {
        ShareGrows(codec, FindRelation(rels, id).value, ix[id], changes);
      }
    }
  }

  lemma {:induction false} DifferableIsIndexable(codec: Codec, m: Manifest, s: State)
    requires DifferableState(codec, m, s)
    ensures Indexable(codec, m.relations, s)
    ensures forall id :: id in s ==>
      FindRelation(m.relations, id).Some? && FindRelation(m.relations, id).value in m.relations
      && FindRelation(m.relations, id).value.id == id
  {
    forall id | id in s
      ensures FindRelation(m.relations, id).Some? && FindRelation(m.relations, id).value in m.relations
      ensures FindRelation(m.relations, id).value.id == id
      ensures RowsByKey(codec, FindRelation(m.relations, id).value, s[id]).Ok?
    {
      assert id in RelationIds(m.relations);
      FindRelationFinds(m.relations, id);
      IndexOfCanonical(codec, FindRelation(m.relations, id).value, s[id]);
    }
  }

  /** Each relation's share of these changes rebuilds its rows. */
  ghost predicate AllRebuilt(codec: Codec, m: Manifest, b: State, a: State, changes: seq<Change>) {
    forall r :: r in m.relations ==>
      r.id in b && r.id in a && Rebuilt(codec, r, b[r.id], a[r.id], ChangesOf(changes, r.id))
  }

  ghost predicate ShareYields(codec: Codec, rels: seq<Relation>, ix: Index, changes: seq<Change>, id: Name, rows: seq<Row>)
    requires SharesApply(codec, rels, ix, changes) && id in ix
  {
    RowsOf(PatchRows(codec, FindRelation(rels, id).value, ix[id], ChangesOf(changes, id)).value) == rows
  }

  lemma {:induction false} RebuiltShares(codec: Codec, m: Manifest, b: State, a: State, changes: seq<Change>)
    requires DifferableState(codec, m, b) && AllRebuilt(codec, m, b, a, changes)
    ensures Indexable(codec, m.relations, b)
    ensures SharesApply(codec, m.relations, IndexState(codec, m.relations, b), changes)
    ensures forall id :: id in b ==>
      id in a && ShareYields(codec, m.relations, IndexState(codec, m.relations, b), changes, id, a[id])
  {
    DifferableIsIndexable(codec, m, b);
    forall id | id in b
      ensures var r := FindRelation(m.relations, id).value; r.id == id && id in a && Rebuilt(codec, r, b[id], a[id], ChangesOf(changes, id))
    {
      var r := FindRelation(m.relations, id).value;
      assert r in m.relations;
    }
  }

  lemma {:induction false} SharesYield(codec: Codec, rels: seq<Relation>, ix: Index, changes: seq<Change>, p: Index, a: State)
    requires SharesApply(codec, rels, ix, changes) && p.Keys == ix.Keys == a.Keys
    requires forall id :: id in ix ==> Some(p[id]) == PatchRows(codec, FindRelation(rels, id).value, ix[id], ChangesOf(changes, id))
    requires forall id :: id in ix ==> ShareYields(codec, rels, ix, changes, id, a[id])
    ensures Rows(p) == a
  {
    forall id | id in p ensures Rows(p)[id] == a[id] {
      assert ShareYields(codec, rels, ix, changes, id, a[id]);
    }
  }

  lemma {:induction false} SharesCompose(codec: Codec, m: Manifest, b: State, a: State, changes: seq<Change>)
    requires Indexable(codec, m.relations, b) && a.Keys == b.Keys
    requires SharesApply(codec, m.relations, IndexState(codec, m.relations, b), changes)
    requires forall i :: 0 <= i < |changes| ==> changes[i].relationId in b
    requires forall id :: id in b ==> ShareYields(codec, m.relations, IndexState(codec, m.relations, b), changes, id, a[id])
    ensures ApplyPatch(codec, m, b, changes) == Some(a)
  {
    var ix := IndexState(codec, m.relations, b);
    SharesPatch(codec, m.relations, ix, changes);
    SharesYield(codec, m.relations, ix, changes, PatchAll(codec, m.relations, ix, changes).value, a);
  }

  lemma {:induction false} SharesRebuild(codec: Codec, m: Manifest, b: State, a: State, changes: seq<Change>)
    requires DifferableState(codec, m, b) && a.Keys == b.Keys && AllRebuilt(codec, m, b, a, changes)
    requires forall i :: 0 <= i < |changes| ==> changes[i].relationId in b
    ensures ApplyPatch(codec, m, b, changes) == Some(a)
  {
    RebuiltShares(codec, m, b, a, changes);
    SharesCompose(codec, m, b, a, changes);
  }

  /** Applying the difference of two states to the first yields the second: the same relations
      with the same rows in the same order. */
  lemma {:induction false} ImageDiffApplies(codec: Codec, m: Manifest, manifestDigest: int, b: State, a: State)
    requires Distinct(RelationIds(m.relations))
    requires DifferableState(codec, m, b) && DifferableState(codec, m, a)
    ensures (forall r :: r in m.relations ==> r.id in b) && (forall r :: r in m.relations ==> r.id in a)
    ensures var d := DiffImages(codec, m, manifestDigest, ImageOf(m, manifestDigest, b), ImageOf(m, manifestDigest, a));
      d.Ok? && ApplyPatch(codec, m, b, d.value) == Some(a)
  {
    ImageDiffRebuilds(codec, m, manifestDigest, b, a);
    ImageKeepsState(m, manifestDigest, b);
    ImageKeepsState(m, manifestDigest, a);
    SortedRelationsAreRelations(m);
    DiffMentions(codec, SortedRelations(m), b, a);
    var changes := DiffRelations(codec, SortedRelations(m), b, a).value;
    forall i | 0 <= i < |changes| ensures changes[i].relationId in b {
      IdsOfSorted(m, changes[i].relationId);
      assert changes[i].relationId in Elements(RelationIds(m.relations));
    }
    assert AllRebuilt(codec, m, b, a, changes);
    SharesRebuild(codec, m, b, a, changes);
  }

  // Null keys: valid, but without a difference.

  /** No row of the state has a null in a key column. */
  predicate NullFree(m: Manifest, s: State)
    requires forall r :: r in m.relations ==> r.id in s
  {
    forall r, i, k :: r in m.relations && 0 <= i < |s[r.id]| && k in r.rowKey && k in DictOf(s[r.id][i].values) ==>
      !DictOf(s[r.id][i].values)[k].raw.Null?
  }

  predicate AllKeyed(rel: Relation, rows: seq<Row>) {
    forall i, k :: 0 <= i < |rows| && k in rel.rowKey ==> k in DictOf(rows[i].values)
  }

  lemma {:induction false} CanonicalIsKeyed(codec: Codec, rel: Relation, rows: seq<Row>)
    requires RelationIntegral(rel) && CanonicalRows(codec, rel, rows)
    ensures AllKeyed(rel, rows)
  {
    CanonicalMeansSorted(codec, rel, rows);
    forall i, k | 0 <= i < |rows| && k in rel.rowKey ensures k in DictOf(rows[i].values) {
      assert k in Elements(ColumnIds(rel));
    }
  }

  lemma {:induction false} KeyRefusal(names: seq<Name>, values: map<Name, Value>)
    requires forall n :: n in names ==> n in values
    ensures KeyValues(names, values).Err? ==> KeyValues(names, values).error == NullKey
  {
    if |names| != 0 {
      KeyRefusal(names[..|names| - 1], values);
    }
  }

  lemma {:induction false} IndexRefusal(codec: Codec, rel: Relation, rows: seq<Row>)
    requires AllKeyed(rel, rows)
    ensures RowsByKey(codec, rel, rows).Err? ==> RowsByKey(codec, rel, rows).error == NullKey
  {
    if |rows| != 0 {
      var front := rows[..|rows| - 1];
      assert forall i :: 0 <= i < |front| ==> front[i] == rows[i];
      IndexRefusal(codec, rel, front);
      SortNamesSorts(rel.rowKey);
      KeyRefusal(SortNames(rel.rowKey), DictOf(rows[|rows| - 1].values));
    }
  }

  lemma {:induction false} DiffRefusal(codec: Codec, rels: seq<Relation>, b: State, a: State)
    requires forall r :: r in rels ==> r.id in b && r.id in a && AllKeyed(r, b[r.id]) && AllKeyed(r, a[r.id])
    ensures DiffRelations(codec, rels, b, a).Err? ==> DiffRelations(codec, rels, b, a).error == NullKey
  {
    if |rels| != 0 {
      var rel := rels[|rels| - 1];
      DiffRefusal(codec, rels[..|rels| - 1], b, a);
      IndexRefusal(codec, rel, b[rel.id]);
      IndexRefusal(codec, rel, a[rel.id]);
    }
  }

  lemma {:induction false} CanonicalKeys(codec: Codec, m: Manifest, s: State)
    requires Integral(m) && CanonicalState(codec, m, s)
    ensures s.Keys == Elements(RelationIds(m.relations)) && forall r :: r in m.relations ==> r.id in s
    ensures forall r :: r in m.relations ==> CanonicalRows(codec, r, s[r.id]) && AllKeyed(r, s[r.id])
    ensures StateStated(m.relations, s) <==> NullFree(m, s)
  {
    StateCoverage(m, s);
    StatePerRelation(codec, m.relations, s);
    forall r | r in m.relations ensures r.id in s && CanonicalRows(codec, r, s[r.id]) && AllKeyed(r, s[r.id]) {
      var n :| 0 <= n < |m.relations| && m.relations[n] == r;
      CanonicalIsKeyed(codec, r, s[r.id]);
    }
  }

  /** Two valid states of one manifest have a difference exactly when neither has a null in a
      key column; otherwise the null is what `diff` complains of. */
  lemma {:induction false} ValidStatesDifferExactly(codec: Codec, m: Manifest, manifestDigest: int, b: State, a: State)
    requires Integral(m) && CanonicalState(codec, m, b) && CanonicalState(codec, m, a)
    ensures (forall r :: r in m.relations ==> r.id in b) && (forall r :: r in m.relations ==> r.id in a)
    ensures var d := DiffImages(codec, m, manifestDigest, ImageOf(m, manifestDigest, b), ImageOf(m, manifestDigest, a));
      (d.Ok? <==> NullFree(m, b) && NullFree(m, a)) && (d.Err? ==> d.error == NullKey)
    ensures NullFree(m, b) ==> DifferableState(codec, m, b)
  {
    CanonicalKeys(codec, m, b);
    CanonicalKeys(codec, m, a);
    ImageKeepsState(m, manifestDigest, b);
    ImageKeepsState(m, manifestDigest, a);
    DiffSucceedsExactly(codec, m, manifestDigest, ImageOf(m, manifestDigest, b), ImageOf(m, manifestDigest, a));
    SortedRelationsAreRelations(m);
    DiffRefusal(codec, SortedRelations(m), b, a);
  }

  const K: Name := [107]
  const NULLABLE_KEY: Relation := Relation(K, [Column(K, ColumnType(Boolean, 0, 0, 0), true)], [K])
  const NULL_ROW: Row := Row([(K, Value(Boolean, Null))], [K])

  lemma {:induction false} NullRowScans(codec: Codec)
    ensures ScanRow(codec, NULLABLE_KEY, NULL_ROW).Ok? && DictOf(ScanRow(codec, NULLABLE_KEY, NULL_ROW).value.1.values) == map[K := Value(Boolean, Null)]
  {
    var values := map[K := Value(Boolean, Null)];
    assert DictOf(NULL_ROW.values[..0]) == map[];
    assert DictOf(NULL_ROW.values) == values;
    assert ColumnIds(NULLABLE_KEY) == [K];
    assert values.Keys == Elements([K]);
    assert CheckValues(codec, NULLABLE_KEY.columns[1..], values) == None;
    BindKeepsValues(NULLABLE_KEY, values);
  }

  lemma {:induction false} NullRowValidates(codec: Codec) returns (rows: seq<Row>, i: nat)
    ensures ValidRelation(codec, NULLABLE_KEY, [NULL_ROW]) == Ok(rows)
    ensures i < |rows| && DictOf(rows[i].values) == map[K := Value(Boolean, Null)]
  {
    NullRowScans(codec);
    ScanCollects(RowRule(codec, NULLABLE_KEY), [NULL_ROW]);
    rows := ValidRelation(codec, NULLABLE_KEY, [NULL_ROW]).value;
    RelationKeepsRows(codec, NULLABLE_KEY, [NULL_ROW]);
    var bound := Scanned(codec, NULLABLE_KEY, NULL_ROW).1;
    assert Values(ScannedAll(codec, NULLABLE_KEY, [NULL_ROW])) == [bound];
    assert bound in multiset(rows);
    i :| 0 <= i < |rows| && rows[i] == bound;
  }

  const NULLABLE: Manifest := Manifest([NULLABLE_KEY], [])

  lemma {:induction false} NullableIsIntegral()
    ensures Integral(NULLABLE) && RelationIds(NULLABLE.relations) == [K] && Elements([K]) == {K}
  {
    assert RelationIds(NULLABLE.relations) == [K] && ColumnIds(NULLABLE_KEY) == [K];
  }

  lemma {:induction false} NullStateValidates(codec: Codec) returns (v: State)
    ensures Integral(NULLABLE) && ValidState(codec, NULLABLE, map[K := [NULL_ROW]]) == Ok(v)
    ensures CanonicalState(codec, NULLABLE, v) && K in v
    ensures exists i :: 0 <= i < |v[K]| && DictOf(v[K][i].values) == map[K := Value(Boolean, Null)]
  {
    var s: State := map[K := [NULL_ROW]];
    var rows, i := NullRowValidates(codec);
    NullableIsIntegral();
    StatePerRelation(codec, NULLABLE.relations, s);
    v := ValidState(codec, NULLABLE, s).value;
    StateIsStable(codec, NULLABLE, s);
    assert RelationIds(NULLABLE.relations)[0] in v && v[NULLABLE.relations[0].id] == rows;
  }

  /** A null in a nullable key column passes validation, and the validated state has no
      difference with any other state, not even with itself. */
  lemma {:induction false} NullKeyIsValidWithoutDifference(codec: Codec, manifestDigest: int, after: State)
    requires CanonicalState(codec, NULLABLE, after)
    ensures ValidState(codec, NULLABLE, map[K := [NULL_ROW]]).Ok? && Integral(NULLABLE)
    ensures var v := ValidState(codec, NULLABLE, map[K := [NULL_ROW]]).value;
      && (forall r :: r in NULLABLE.relations ==> r.id in v && r.id in after)
      && DiffImages(codec, NULLABLE, manifestDigest, ImageOf(NULLABLE, manifestDigest, v), ImageOf(NULLABLE, manifestDigest, after))
         == Err(NullKey)
  {
    var v := NullStateValidates(codec);
    ValidStatesDifferExactly(codec, NULLABLE, manifestDigest, v, after);
    var i :| 0 <= i < |v[K]| && DictOf(v[K][i].values) == map[K := Value(Boolean, Null)];
    assert K in NULLABLE_KEY.rowKey && K in DictOf(v[NULLABLE_KEY.id][i].values);
  }
}
