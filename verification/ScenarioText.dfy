/** What substitution does to texts and to member names, and what `compile` refuses of it
    (`_substitute` and `_reject_unresolved_placeholders`, src/avp_ref/scenario/compiler.py). */
module ScenarioText {
  import opened Common
  import opened Placeholders
  import opened Scenario
  import RelationalDiff

  // What is left, and refused.

  /** The string values of a document, at any depth. */
  function Texts(v: Json): set<Text> {
    match v
    case Str(s) => {s}
    case Arr(items) => set i, s | 0 <= i < |items| && s in Texts(items[i]) :: s
    case Obj(m) => set k, s | k in m && s in Texts(m[k]) :: s
    case _ => {}
  }

  /** Substituting this text leaves, or brings in, a placeholder. */
  predicate Leaves(render: Json -> Text, ps: Document, s: Text) {
    SubstituteText(render, ps, s).Some? && Leftover(SubstituteText(render, ps, s).value)
  }

  ghost predicate SomeLeaves(render: Json -> Text, ps: Document, v: Json) {
    exists s :: s in Texts(v) && Leaves(render, ps, s)
  }

  lemma {:induction false} ItemsLeave(render: Json -> Text, ps: Document, items: seq<Json>)
    ensures SomeLeaves(render, ps, Arr(items)) <==> exists i :: 0 <= i < |items| && SomeLeaves(render, ps, items[i])
  {
    if SomeLeaves(render, ps, Arr(items)) {
      var s :| s in Texts(Arr(items)) && Leaves(render, ps, s);
      var i :| 0 <= i < |items| && s in Texts(items[i]);
      assert SomeLeaves(render, ps, items[i]);
    }
    if i :| 0 <= i < |items| && SomeLeaves(render, ps, items[i]) {
      var s :| s in Texts(items[i]) && Leaves(render, ps, s);
      assert s in Texts(Arr(items));
    }
  }

  lemma {:induction false} FieldsLeave(render: Json -> Text, ps: Document, m: Document)
    ensures SomeLeaves(render, ps, Obj(m)) <==> exists k :: k in m && SomeLeaves(render, ps, m[k])
  {
    if SomeLeaves(render, ps, Obj(m)) {
      var s :| s in Texts(Obj(m)) && Leaves(render, ps, s);
      var k :| k in m && s in Texts(m[k]);
      assert SomeLeaves(render, ps, m[k]);
    }
    if k :| k in m && SomeLeaves(render, ps, m[k]) {
      var s :| s in Texts(m[k]) && Leaves(render, ps, s);
      assert s in Texts(Obj(m));
    }
  }

  /** A placeholder is left in a document exactly when one of its texts leaves one. */
  lemma {:induction false} LeftoverExactly(render: Json -> Text, ps: Document, v: Json)
    requires Substitute(render, ps, v).Some?
    ensures Leftover(Substitute(render, ps, v).value) <==> SomeLeaves(render, ps, v)
  {
    match v {
      case Str(s) =>
        assert s in Texts(v);
      case Arr(items) =>
        ItemsLeave(render, ps, items);
        forall i | 0 <= i < |items|
          ensures Leftover(Substitute(render, ps, v).value.items[i]) <==> SomeLeaves(render, ps, items[i])
        {
          LeftoverExactly(render, ps, items[i]);
        }
      case Obj(m) =>
        FieldsLeave(render, ps, m);
        forall k | k in m
          ensures Leftover(Substitute(render, ps, v).value.members[k]) <==> SomeLeaves(render, ps, m[k])
        {
          LeftoverExactly(render, ps, m[k]);
        }
      case _ =>
    }
  }

  lemma {:induction false} SubstituteWithout(render: Json -> Text, ps: Document, d: Document, dropped: set<Text>)
    requires Substitute(render, ps, Obj(d)).Some?
    ensures Substitute(render, ps, Obj(d - dropped)) == Some(Obj(Substitute(render, ps, Obj(d)).value.members - dropped))
  {
    var part := d - dropped;
    assert forall k :: k in part ==> part[k] == d[k];
    assert Substitute(render, ps, Obj(part)).value.members == Substitute(render, ps, Obj(d)).value.members - dropped;
  }

  const UNREAD: set<Text> := {T("parameters"), T("seeds"), T("generators"), T("kind")}

  lemma {:induction false} LeftoverMember(d: Document, k: Text, v: Json)
    requires !Leftover(v)
    ensures Leftover(Obj(d[k := v])) <==> Leftover(Obj(d - {k}))
  {
    var m, rest := d[k := v], d - {k};
    if n :| n in m && Leftover(m[n]) {
      assert n in rest && rest[n] == m[n];
    }
    if n :| n in rest && Leftover(rest[n]) {
      assert n in m && m[n] == rest[n];
    }
  }

  lemma {:induction false} KindIsClosed(whole: Document)
    ensures Leftover(Obj(Retained(whole)[T("kind") := Str(T("ScenarioInstance"))])) <==> Leftover(Obj(whole - UNREAD))
  {
    var s := T("ScenarioInstance");
    assert 36 !in s;
    PlainText(s);
    LeftoverMember(Retained(whole), T("kind"), Str(s));
    assert Retained(whole) - {T("kind")} == whole - UNREAD;
  }

  lemma {:induction false} MaterialLeftover(env: Env, ps: Document, source: Document)
    requires Materialize(env, ps, source).Some?
    ensures Leftover(Obj(Materialize(env, ps, source).value)) <==> SomeLeaves(env.render, ps, Obj(source - UNREAD))
  {
    SubstituteWithout(env.render, ps, source, UNREAD);
    KindIsClosed(Substitute(env.render, ps, Obj(source)).value.members);
    LeftoverExactly(env.render, ps, Obj(source - UNREAD));
  }

  /** The checks that come before the search for placeholders. */
  ghost predicate ReachesSearch(env: Env, source: Document, options: Options, m: Document) {
    && env.validTemplate(source) && !(T("generators") in source && env.truthy(source[T("generators")]))
    && Bound(env, options.strict, m).Some? && SubjectClean(m)
  }

  lemma {:induction false} FinishSearches(env: Env, options: Options, m: Document, provenance: Json)
    ensures Finish(env, options, m, provenance) == Err(PlaceholderLeft) <==>
      Bound(env, options.strict, m).Some? && SubjectClean(m) && Leftover(Obj(m))
    ensures Finish(env, options, m, provenance).Ok? ==> !Leftover(Obj(m))
  {
  }

  /** A template with a text that leaves a placeholder is never compiled; and that is the reason
      given exactly when the earlier checks pass. */
  lemma {:induction false} LeftoverIsRefused(env: Env, source: Document, options: Options, ps: Document, m: Document)
    requires Parameters(env, source, options).Ok? && ps == Parameters(env, source, options).value.0
    requires Materialize(env, ps, source) == Some(m)
    ensures SomeLeaves(env.render, ps, Obj(source - UNREAD)) ==> Compile(env, source, options).Err?
    ensures Compile(env, source, options) == Err(PlaceholderLeft) <==>
      ReachesSearch(env, source, options, m) && SomeLeaves(env.render, ps, Obj(source - UNREAD))
  {
    MaterialLeftover(env, ps, source);
    FinishSearches(env, options, m, Parameters(env, source, options).value.1);
  }

  const NESTED: Text := [36, 123, 36, 123, 97, 125, 125]

  lemma {:induction false} LiteralFront(c: CodePoint, rest: Text)
    requires MatchFront([c] + rest).None?
    ensures Pieces([c] + rest) == [Lit(c)] + Pieces(rest)
  {
    assert ([c] + rest)[1..] == rest;
  }

  lemma {:induction false} NamedPieces(name: Text, rest: Text)
    requires |name| == 1 && NameStart(name[0])
    ensures Pieces([36, 123] + name + [125] + rest) == [Ref(name)] + Pieces(rest)
  {
    NamedFront(name, rest);
    assert ([36, 123] + name + [125] + rest)[4..] == rest;
  }

  /** A dollar sign and a brace before something that is no name are literal. */
  lemma {:induction false} BrokenFront(rest: Text)
    requires |rest| > 0 && !NameChar(rest[0])
    ensures Pieces([36] + ([123] + rest)) == [Lit(36), Lit(123)] + Pieces(rest)
  {
    var s := [36] + ([123] + rest);
    assert s[2..] == rest;
    assert NameRun(rest) == 0;
    assert rest[0] != 125 ==> MatchFront(s).None?;
    assert Captured([]).None?;
    assert s[2..2] == [];
    LiteralFront(36, [123] + rest);
    LiteralFront(123, rest);
  }

  lemma {:induction false} NestedPieces()
    ensures Pieces(NESTED) == [Lit(36), Lit(123), Ref([97]), Lit(125)]
  {
    var inner := [36, 123] + [97] + [125] + [125];
    NamedPieces([97], [125]);
    LastLiteral();
    BrokenFront(inner);
    assert NESTED == [36] + ([123] + inner);
  }

  lemma {:induction false} LastLiteral()
    ensures Pieces([125]) == [Lit(125)]
  {
    LiteralFront(125, []);
  }

  lemma {:induction false} JoinLit(render: Json -> Text, ps: Document, c: CodePoint, rest: seq<Piece>, t: Text)
    requires Join(render, ps, rest) == Some(t)
    ensures Join(render, ps, [Lit(c)] + rest) == Some([c] + t)
  {
    assert ([Lit(c)] + rest)[1..] == rest;
  }

  lemma {:induction false} JoinRef(render: Json -> Text, ps: Document, name: Text, rest: seq<Piece>, t: Text)
    requires Join(render, ps, rest) == Some(t) && name in ps && ps[name].Str?
    ensures Join(render, ps, [Ref(name)] + rest) == Some(ps[name].s + t)
  {
    assert ([Ref(name)] + rest)[1..] == rest;
  }

  lemma {:induction false} NestedJoin(render: Json -> Text, ps: Document)
    requires [97] in ps && ps[[97]] == Str([98])
    ensures Join(render, ps, [Lit(36), Lit(123), Ref([97]), Lit(125)]) == Some([36, 123, 98, 125])
  {
    var r1: seq<Piece>, t1: Text := [Lit(125)] + [], [125] + [];
    JoinLit(render, ps, 125, [], []);
    var r2: seq<Piece>, t2: Text := [Ref([97])] + r1, [98] + t1;
    JoinRef(render, ps, [97], r1, t1);
    var r3: seq<Piece>, t3: Text := [Lit(123)] + r2, [123] + t2;
    JoinLit(render, ps, 123, r2, t2);
    JoinLit(render, ps, 36, r3, t3);
    assert [Lit(36)] + r3 == [Lit(36), Lit(123), Ref([97]), Lit(125)] && [36] + t3 == [36, 123, 98, 125];
  }

  lemma {:induction false} ShortPlaceholder(name: Text)
    requires |name| == 1 && NameStart(name[0])
    ensures HasPlaceholder([36, 123] + name + [125])
  {
    var s := [36, 123] + name + [125];
    assert s == [36, 123] + name + [125] + [];
    NamedPieces(name, []);
    assert Pieces(s)[0].Ref?;
  }

  lemma {:induction false} LeftName(name: Text)
    requires |name| == 1 && NameStart(name[0])
    ensures HasPlaceholder([36, 123, name[0], 125])
  {
    ShortPlaceholder(name);
    assert [36, 123, name[0], 125] == [36, 123] + name + [125];
  }

  /** Substitution is a single pass: `${${a}}` with `a` = "b" becomes `${b}`, a placeholder that
      is left. */
  lemma {:induction false} NestedTextLeavesAPlaceholder(render: Json -> Text, ps: Document)
    requires [97] in ps && ps[[97]] == Str([98])
    ensures SubstituteText(render, ps, NESTED) == Some(Str([36, 123, 98, 125])) && Leaves(render, ps, NESTED)
  {
    NestedPieces();
    NestedJoin(render, ps);
    LeftName([98]);
  }

  /** No template with the text `${${a}}` in a value is compiled while `a` is "b". */
  lemma {:induction false} NestedTextIsRefused(env: Env, source: Document, options: Options)
    requires Parameters(env, source, options).Ok?
    requires [97] in Parameters(env, source, options).value.0 && Parameters(env, source, options).value.0[[97]] == Str([98])
    requires NESTED in Texts(Obj(source - UNREAD))
    ensures Compile(env, source, options).Err?
  {
    var ps := Parameters(env, source, options).value.0;
    NestedTextLeavesAPlaceholder(env.render, ps);
    if Materialize(env, ps, source).Some? {
      LeftoverIsRefused(env, source, options, ps, Materialize(env, ps, source).value);
    }
  }

  /** Text whose literal part has no dollar sign, interpolated with scalars that have none, is
      closed by the single pass. */
  lemma {:induction false} PlainInterpolationCloses(render: Json -> Text, ps: Document, pieces: seq<Piece>)
    requires Join(render, ps, pieces).Some?
    requires forall i :: 0 <= i < |pieces| ==>
      if pieces[i].Lit? then pieces[i].c != 36 else pieces[i].name in ps && 36 !in Show(render, ps[pieces[i].name])
    ensures 36 !in Join(render, ps, pieces).value && !Leftover(Str(Join(render, ps, pieces).value))
  {
    if |pieces| != 0 {
      assert forall i :: 0 <= i < |pieces[1..]| ==> pieces[1..][i] == pieces[i + 1];
      PlainInterpolationCloses(render, ps, pieces[1..]);
      assert pieces[0].Lit? || pieces[0].Ref?;
    }
    PlainText(Join(render, ps, pieces).value);
  }

  /** A one-letter placeholder at the front is matched. */
  lemma {:induction false} NamedFront(name: Text, rest: Text)
    requires |name| == 1 && NameStart(name[0])
    ensures MatchFront([36, 123] + name + [125] + rest) == Some((name, 4))
  {
    var s := [36, 123] + name + [125] + rest;
    assert s[2..] == name + [125] + rest;
    assert NameRun(s[2..]) == 1;
    assert s[2..3] == name;
    assert |PREFIX| == 11;
  }

  // Member names.

  /** The names of all members of a document, at any depth. */
  function MemberNames(v: Json): set<Text> {
    match v
    case Arr(items) => set i, n | 0 <= i < |items| && n in MemberNames(items[i]) :: n
    case Obj(m) => m.Keys + set k, n | k in m && n in MemberNames(m[k]) :: n
    case _ => {}
  }

  /** The parameter a text consists of, if it is nothing but one placeholder. */
  function Sole(s: Text): Option<Text> {
    if |Pieces(s)| == 1 && Pieces(s)[0].Ref? then Some(Pieces(s)[0].name) else None
  }

  /** The parameters that stand alone as a whole string value: their values are put in as they
      are, structure included. */
  function StandAlone(v: Json): set<Text> {
    match v
    case Str(s) => if Sole(s).Some? then {Sole(s).value} else {}
    case Arr(items) => set i, n | 0 <= i < |items| && n in StandAlone(items[i]) :: n
    case Obj(m) => set k, n | k in m && n in StandAlone(m[k]) :: n
    case _ => {}
  }

  /** The member names of these parameters' values. */
  function NamesOf(ps: Document, names: set<Text>): set<Text> {
    set p, n | p in names && p in ps && n in MemberNames(ps[p]) :: n
  }

  lemma {:induction false} ItemNames(ps: Document, items: seq<Json>, n: Text)
    ensures n in NamesOf(ps, StandAlone(Arr(items))) <==> exists i :: 0 <= i < |items| && n in NamesOf(ps, StandAlone(items[i]))
  {
    if n in NamesOf(ps, StandAlone(Arr(items))) {
      var p :| p in StandAlone(Arr(items)) && p in ps && n in MemberNames(ps[p]);
      var i :| 0 <= i < |items| && p in StandAlone(items[i]);
      assert n in NamesOf(ps, StandAlone(items[i]));
    }
    if i :| 0 <= i < |items| && n in NamesOf(ps, StandAlone(items[i])) {
      var p :| p in StandAlone(items[i]) && p in ps && n in MemberNames(ps[p]);
      assert p in StandAlone(Arr(items));
    }
  }

  lemma {:induction false} FieldNames(ps: Document, m: Document, n: Text)
    ensures n in NamesOf(ps, StandAlone(Obj(m))) <==> exists k :: k in m && n in NamesOf(ps, StandAlone(m[k]))
  {
    if n in NamesOf(ps, StandAlone(Obj(m))) {
      var p :| p in StandAlone(Obj(m)) && p in ps && n in MemberNames(ps[p]);
      var k :| k in m && p in StandAlone(m[k]);
      assert n in NamesOf(ps, StandAlone(m[k]));
    }
    if k :| k in m && n in NamesOf(ps, StandAlone(m[k])) {
      var p :| p in StandAlone(m[k]) && p in ps && n in MemberNames(ps[p]);
      assert p in StandAlone(Obj(m));
    }
  }

  lemma {:induction false} SubstitutedItems(render: Json -> Text, ps: Document, items: seq<Json>, n: Text)
    requires Substitute(render, ps, Arr(items)).Some?
    requires forall i :: 0 <= i < |items| && Substitute(render, ps, items[i]).Some? ==>
      (n in MemberNames(Substitute(render, ps, items[i]).value) <==>
       n in MemberNames(items[i]) || n in NamesOf(ps, StandAlone(items[i])))
    ensures n in MemberNames(Substitute(render, ps, Arr(items)).value) <==>
      n in MemberNames(Arr(items)) || n in NamesOf(ps, StandAlone(Arr(items)))
  {
    var out := Substitute(render, ps, Arr(items)).value.items;
    assert forall i :: 0 <= i < |items| ==> out[i] == Substitute(render, ps, items[i]).value;
    assert n in MemberNames(Arr(out)) <==> exists i :: 0 <= i < |items| && n in MemberNames(out[i]);
    ItemNames(ps, items, n);
    if i :| 0 <= i < |items| && n in MemberNames(items[i]) {
      assert n in MemberNames(out[i]);
    }
    if i :| 0 <= i < |items| && n in NamesOf(ps, StandAlone(items[i])) {
      assert n in MemberNames(out[i]);
    }
  }

  lemma {:induction false} SubstitutedFields(render: Json -> Text, ps: Document, m: Document, n: Text)
    requires Substitute(render, ps, Obj(m)).Some?
    requires forall k :: k in m && Substitute(render, ps, m[k]).Some? ==>
      (n in MemberNames(Substitute(render, ps, m[k]).value) <==>
       n in MemberNames(m[k]) || n in NamesOf(ps, StandAlone(m[k])))
    ensures n in MemberNames(Substitute(render, ps, Obj(m)).value) <==>
      n in MemberNames(Obj(m)) || n in NamesOf(ps, StandAlone(Obj(m)))
  {
    var out := Substitute(render, ps, Obj(m)).value.members;
    assert forall k :: k in m ==> out[k] == Substitute(render, ps, m[k]).value;
    assert n in MemberNames(Obj(out)) <==> n in m || exists k :: k in m && n in MemberNames(out[k]);
    FieldNames(ps, m, n);
    if k :| k in m && n in MemberNames(m[k]) {
      assert n in MemberNames(out[k]);
    }
    if k :| k in m && n in NamesOf(ps, StandAlone(m[k])) {
      assert n in MemberNames(out[k]);
    }
  }

  /** Substitution touches no member name, and brings in exactly those of the parameter values
      that stand alone. */
  lemma {:induction false} SubstituteNames(render: Json -> Text, ps: Document, v: Json, n: Text)
    requires Substitute(render, ps, v).Some?
    ensures n in MemberNames(Substitute(render, ps, v).value) <==> n in MemberNames(v) || n in NamesOf(ps, StandAlone(v))
  {
    match v {
      case Arr(items) =>
        forall i | 0 <= i < |items| && Substitute(render, ps, items[i]).Some?
          ensures n in MemberNames(Substitute(render, ps, items[i]).value) <==>
            n in MemberNames(items[i]) || n in NamesOf(ps, StandAlone(items[i]))
        {
          SubstituteNames(render, ps, items[i], n);
        }
        SubstitutedItems(render, ps, items, n);
      case Obj(m) =>
        forall k | k in m && Substitute(render, ps, m[k]).Some?
          ensures n in MemberNames(Substitute(render, ps, m[k]).value) <==>
            n in MemberNames(m[k]) || n in NamesOf(ps, StandAlone(m[k]))
        {
          SubstituteNames(render, ps, m[k], n);
        }
        SubstitutedFields(render, ps, m, n);
      case _ =>
    }
  }

  const UNSHARED: set<Text> :=
    {T("parameters"), T("seeds"), T("generators"), T("kind"), T("referenceBindings"), T("provenance"), T("instanceDigest")}

  /** What a compiled document and its template have in common: the members that are neither
      dropped nor written by the compiler. */
  function Body(d: Document): Document {
    d - UNSHARED
  }

  lemma {:induction false} BodyIgnores(d: Document, k: Text, v: Json)
    requires k in UNSHARED
    ensures Body(d[k := v]) == Body(d)
  {
  }

  lemma {:induction false} BodyRetained(d: Document)
    ensures Body(Retained(d)) == Body(d)
  {
  }

  lemma {:induction false} BodyOfMaterial(env: Env, ps: Document, source: Document)
    requires Materialize(env, ps, source).Some?
    ensures Substitute(env.render, ps, Obj(Body(source))) == Some(Obj(Body(Materialize(env, ps, source).value)))
  {
    var whole := Substitute(env.render, ps, Obj(source)).value.members;
    SubstituteWithout(env.render, ps, source, UNSHARED);
    BodyIgnores(Retained(whole), T("kind"), Str(T("ScenarioInstance")));
    BodyRetained(whole);
  }

  lemma {:induction false} BodyOfBound(env: Env, strict: bool, m: Document)
    requires Bound(env, strict, m).Some?
    ensures Body(Bound(env, strict, m).value) == Body(m)
  {
    var records := ResolveAll(env.resolve, strict, Collect(env.isReference, Obj(m), [36])).value;
    BodyIgnores(m, T("referenceBindings"), Bindings(records));
  }

  /** The body of a compiled document is the template's body, substituted. */
  lemma {:induction false} CompiledBody(env: Env, source: Document, options: Options)
    requires Compile(env, source, options).Ok?
    ensures Parameters(env, source, options).Ok?
    ensures Substitute(env.render, Parameters(env, source, options).value.0, Obj(Body(source))) ==
      Some(Obj(Body(Compile(env, source, options).value.document)))
  {
    var ps, m, bound := CompiledParts(env, source, options);
    var i, provenance := Compile(env, source, options).value, Parameters(env, source, options).value.1;
    BodyOfMaterial(env, ps, source);
    BodyOfBound(env, options.strict, m);
    BodyIgnores(bound, T("provenance"), provenance);
    BodyIgnores(bound[T("provenance") := provenance], T("instanceDigest"), Str(i.digest));
  }

  /** Placeholders in member names are neither substituted nor refused: apart from provenance,
      bindings and digest, the member names of a compiled document are exactly those of the
      template and those brought in by parameter values that stand alone. */
  lemma {:induction false} MemberNamesAreNotChecked(env: Env, source: Document, options: Options)
    requires Compile(env, source, options).Ok?
    ensures Parameters(env, source, options).Ok?
    ensures var ps, d := Parameters(env, source, options).value.0, Compile(env, source, options).value.document;
      MemberNames(Obj(Body(d))) == MemberNames(Obj(Body(source))) + NamesOf(ps, StandAlone(Obj(Body(source))))
  {
    CompiledBody(env, source, options);
    var ps, d := Parameters(env, source, options).value.0, Compile(env, source, options).value.document;
    forall n
      ensures n in MemberNames(Obj(Body(d))) <==>
        n in MemberNames(Obj(Body(source))) || n in NamesOf(ps, StandAlone(Obj(Body(source))))
    {
      SubstituteNames(env.render, ps, Obj(Body(source)), n);
    }
  }

  // Templates without parameters.

  /** No value mentions a parameter or is a reference, and nothing is classified. */
  ghost predicate Plain(isReference: Text -> bool, v: Json) {
    && (forall s :: s in Texts(v) ==> 36 !in s && !isReference(s))
    && T("classification") !in MemberNames(v)
  }

  lemma {:induction false} PlainItem(isReference: Text -> bool, items: seq<Json>, i: nat)
    requires i < |items| && Plain(isReference, Arr(items))
    ensures Plain(isReference, items[i])
  {
    assert forall s :: s in Texts(items[i]) ==> s in Texts(Arr(items));
    assert forall n :: n in MemberNames(items[i]) ==> n in MemberNames(Arr(items));
  }

  lemma {:induction false} PlainMember(isReference: Text -> bool, m: Document, k: Text)
    requires k in m && Plain(isReference, Obj(m))
    ensures Plain(isReference, m[k])
  {
    assert forall s :: s in Texts(m[k]) ==> s in Texts(Obj(m));
    assert forall n :: n in MemberNames(m[k]) ==> n in MemberNames(Obj(m));
  }

  lemma {:induction false} JoinLits(render: Json -> Text, ps: Document, s: Text)
    ensures Join(render, ps, Lits(s)) == Some(s)
  {
    if |s| != 0 {
      JoinLits(render, ps, s[1..]);
      assert s == [s[0]] + s[1..];
      JoinLit(render, ps, s[0], Lits(s[1..]), s[1..]);
      assert Lits(s) == [Lit(s[0])] + Lits(s[1..]);
    }
  }

  function Lits(s: Text): (pieces: seq<Piece>)
    ensures |pieces| == |s| && forall i :: 0 <= i < |s| ==> pieces[i] == Lit(s[i])
  {
    seq(|s|, i requires 0 <= i < |s| => Lit(s[i]))
  }

  lemma {:induction false} PlainStringStays(render: Json -> Text, ps: Document, s: Text)
    requires 36 !in s
    ensures SubstituteText(render, ps, s) == Some(Str(s)) && !HasPlaceholder(s)
  {
    PlainText(s);
    assert Pieces(s) == Lits(s);
    JoinLits(render, ps, s);
  }

  /** Substitution leaves a plain value as it is. */
  lemma {:induction false} PlainStays(isReference: Text -> bool, render: Json -> Text, ps: Document, v: Json)
    requires Plain(isReference, v)
    ensures Substitute(render, ps, v) == Some(v)
  {
    match v {
      case Str(s) =>
        assert s in Texts(v);
        PlainStringStays(render, ps, s);
      case Arr(items) =>
        forall i | 0 <= i < |items| ensures Substitute(render, ps, items[i]) == Some(items[i]) {
          PlainItem(isReference, items, i);
          PlainStays(isReference, render, ps, items[i]);
        }
        assert Substitute(render, ps, v).value.items == items;
      case Obj(m) =>
        forall k | k in m ensures Substitute(render, ps, m[k]) == Some(m[k]) {
          PlainMember(isReference, m, k);
          PlainStays(isReference, render, ps, m[k]);
        }
        assert Substitute(render, ps, v).value.members == m;
      case _ =>
    }
  }

  /** A plain value holds no placeholder and nothing confidential. */
  lemma {:induction false} PlainIsClosed(isReference: Text -> bool, v: Json)
    requires Plain(isReference, v)
    ensures !Leftover(v) && Clean(v)
  {
    match v {
      case Str(s) =>
        assert s in Texts(v);
        PlainText(s);
      case Arr(items) =>
        forall i | 0 <= i < |items| ensures !Leftover(items[i]) && Clean(items[i]) {
          PlainItem(isReference, items, i);
          PlainIsClosed(isReference, items[i]);
        }
      case Obj(m) =>
        assert T("classification") !in m;
        forall k | k in m ensures !Leftover(m[k]) && Clean(m[k]) {
          PlainMember(isReference, m, k);
          PlainIsClosed(isReference, m[k]);
        }
      case _ =>
    }
  }

  lemma {:induction false} OccursInTexts(v: Json, path: Text, here: Text, s: Text)
    requires Occurs(v, path, here, s)
    ensures s in Texts(v)
    decreases v
  {
    match v {
      case Arr(items) =>
        var i :| 0 <= i < |items| && Occurs(items[i], path + [91] + Digits(i) + [93], here, s);
        OccursInTexts(items[i], path + [91] + Digits(i) + [93], here, s);
      case Obj(m) =>
        var k :| k in m && Occurs(m[k], path + [46] + k, here, s);
        OccursInTexts(m[k], path + [46] + k, here, s);
      case _ =>
    }
  }

  lemma {:induction false} PlainHasNoReferences(isReference: Text -> bool, v: Json, path: Text)
    requires Plain(isReference, v)
    ensures Collect(isReference, v, path) == []
  {
    var refs := Collect(isReference, v, path);
    if |refs| > 0 {
      CollectsExactly(isReference, v, path, refs[0]);
      OccursInTexts(v, path, refs[0].path, refs[0].uri);
    }
  }

  lemma {:induction false} ActorsAreClean(items: seq<Json>, id: Text)
    requires forall i :: 0 <= i < |items| ==> Clean(items[i])
    ensures Clean(Arr(ActorsNamed(items, id)))
  {
    if |items| != 0 {
      ActorsAreClean(items[..|items| - 1], id);
      var front, all := ActorsNamed(items[..|items| - 1], id), ActorsNamed(items, id);
      forall i | 0 <= i < |all| ensures Clean(all[i]) {
        if i < |front| {
          assert Clean(Arr(front)) && all[i] == front[i];
        }
      }
    }
  }

  lemma {:induction false} MemberIsClean(d: Document, name: Text)
    requires Clean(Obj(d))
    ensures Clean(Member(d, name))
  {
  }

  /** What an actor sees of a clean document is clean. */
  lemma {:induction false} ProjectionIsClean(d: Document, id: Text)
    requires Clean(Obj(d))
    ensures forall i :: 0 <= i < 5 ==> Clean(Projection(d, id)[i])
  {
    MemberIsClean(d, T("metadata"));
    MemberIsClean(d, T("task"));
    MemberIsClean(d, T("budgets"));
    MemberIsClean(d, T("capabilities"));
    if T("actors") in d && d[T("actors")].Arr? {
      ActorsAreClean(d[T("actors")].items, id);
    }
    assert CapabilitiesOf(d, id) == Obj(map[]) || Clean(CapabilitiesOf(d, id));
  }

  lemma {:induction false} NoDeclarations(env: Env, options: Options, dataSeed: int)
    requires options.overrides == map[]
    ensures ResolveParameters(env, options, dataSeed, None) == Ok(map[])
  {
    var none: Document := map[];
    assert none.Keys == {} && RelationalDiff.Ascending({}) == [];
    assert |Names(none)| == 0;
  }

  const INSTANCE: Text := T("ScenarioInstance")

  /** The instance a template without parameters becomes: its kind changed, provenance and
      digest added. */
  function Stamped(env: Env, source: Document, provenance: Json): Document {
    var m := Retained(source)[T("kind") := Str(INSTANCE)];
    m[T("provenance") := provenance][T("instanceDigest") := Str(env.digest(Preimage(m)))]
  }

  lemma {:induction false} PlainMaterial(env: Env, source: Document)
    requires Plain(env.isReference, Obj(source)) && !env.isReference(INSTANCE)
    ensures var m := Retained(source)[T("kind") := Str(INSTANCE)];
      Materialize(env, map[], source) == Some(m) && Plain(env.isReference, Obj(m))
  {
    var m := Retained(source)[T("kind") := Str(INSTANCE)];
    PlainStays(env.isReference, env.render, map[], Obj(source));
    forall s | s in Texts(Obj(m)) ensures 36 !in s && !env.isReference(s) {
      var k :| k in m && s in Texts(m[k]);
      if k != T("kind") {
        assert s in Texts(Obj(source));
      }
    }
    forall n | n in MemberNames(Obj(m)) ensures n == T("kind") || n in MemberNames(Obj(source)) {
      if n !in m {
        var k :| k in m && n in MemberNames(m[k]);
        assert k != T("kind") && source[k] == m[k];
      }
    }
    assert |T("kind")| == 4 && |T("classification")| == 14;
  }

  lemma {:induction false} PlainFinishes(env: Env, options: Options, m: Document, provenance: Json)
    requires Plain(env.isReference, Obj(m)) && |env.digest(Preimage(m))| > 0
    requires var d := m[T("provenance") := provenance][T("instanceDigest") := Str(env.digest(Preimage(m)))];
      env.validInstance(d)
    ensures var d := m[T("provenance") := provenance][T("instanceDigest") := Str(env.digest(Preimage(m)))];
      Finish(env, options, m, provenance) == Ok(Instance(d, env.digest(Preimage(m))))
  {
    PlainHasNoReferences(env.isReference, Obj(m), [36]);
    PlainIsClosed(env.isReference, Obj(m));
    ProjectionIsClean(m, T("subject"));
    PreimageIgnores(m, provenance, env.digest(Preimage(m)));
  }

  /** Every template without parameters, references and classifications that the schemas accept
      compiles to itself: no value and no member name is touched. */
  lemma {:induction false} PlainTemplateCompiles(env: Env, source: Document, options: Options, dataSeed: int, bundle: Json)
    requires env.validTemplate(source) && options.overrides == map[]
    requires T("parameters") !in source && T("generators") !in source
    requires env.seeds(Lookup(source, T("seeds")), options.rootSeed) == Some((dataSeed, bundle))
    requires Plain(env.isReference, Obj(source)) && !env.isReference(INSTANCE)
    requires forall d :: |env.digest(d)| > 0
    requires env.validInstance(Stamped(env, source, env.provenance(source, options, bundle, map[])))
    ensures Compile(env, source, options).Ok?
    ensures Compile(env, source, options).value.document == Stamped(env, source, env.provenance(source, options, bundle, map[]))
  {
    NoDeclarations(env, options, dataSeed);
    PlainMaterial(env, source);
    PlainFinishes(env, options, Retained(source)[T("kind") := Str(INSTANCE)], env.provenance(source, options, bundle, map[]));
  }

  // A template that is accepted with a placeholder in a member name.

  const METADATA: Json := Obj(map[T("name") := Str(T("n")), T("version") := Str(T("v"))])
  const ENVIRONMENT: Json := Obj(map[T("ref") := Str(T("e"))])
  const TASK: Json := Obj(map[T("instruction") := Str(T("i"))])
  const EXTENSIONS: Json := Obj(map[T("${a}") := Null])

  /** All that a template must have, and an extension named by a placeholder. */
  const NAMED: Document := map[
    T("apiVersion") := Str(T("avp.spec/v0.1")), T("kind") := Str(T("ScenarioTemplate")), T("metadata") := METADATA,
    T("environment") := ENVIRONMENT, T("task") := TASK, T("extensions") := EXTENSIONS]

  lemma {:induction false} NamedValues(k: Text)
    requires k in NAMED
    ensures |k| != 14
    ensures NAMED[k] in {Str(T("avp.spec/v0.1")), Str(T("ScenarioTemplate")), METADATA, ENVIRONMENT, TASK, EXTENSIONS}
  {
  }

  /** An object of strings and nulls. */
  lemma {:induction false} FlatObject(m: Document)
    requires forall k :: k in m ==> m[k].Str? || m[k].Null?
    ensures MemberNames(Obj(m)) == m.Keys
    ensures forall s :: s in Texts(Obj(m)) ==> exists k :: k in m && m[k] == Str(s)
  {
  }

  lemma {:induction false} FlatValues(v: Json)
    requires v in {METADATA, ENVIRONMENT, TASK, EXTENSIONS}
    ensures forall s :: s in Texts(v) ==> 36 !in s
    ensures forall n :: n in MemberNames(v) ==> |n| < 14
  {
    FlatObject(v.members);
  }

  lemma {:induction false} NamedTexts(s: Text)
    requires s in Texts(Obj(NAMED))
    ensures 36 !in s
  {
    var k :| k in NAMED && s in Texts(NAMED[k]);
    NamedValues(k);
    if NAMED[k].Obj? {
      FlatValues(NAMED[k]);
    }
  }

  lemma {:induction false} NamedNames(n: Text)
    requires n in MemberNames(Obj(NAMED))
    ensures |n| != 14
  {
    if n in NAMED {
      NamedValues(n);
    } else {
      var k :| k in NAMED && n in MemberNames(NAMED[k]);
      NamedValues(k);
      FlatValues(NAMED[k]);
    }
  }

  lemma {:induction false} NamedIsPlain(isReference: Text -> bool)
    requires forall s :: s in Texts(Obj(NAMED)) ==> !isReference(s)
    ensures Plain(isReference, Obj(NAMED)) && T("parameters") !in NAMED && T("generators") !in NAMED
  {
    forall s | s in Texts(Obj(NAMED)) ensures 36 !in s {
      NamedTexts(s);
    }
    if T("classification") in MemberNames(Obj(NAMED)) {
      NamedNames(T("classification"));
    }
    assert |T("parameters")| == |T("generators")| == |T("apiVersion")| == |T("extensions")| == 10;
    assert T("parameters")[0] == 112 && T("generators")[0] == 103 && T("apiVersion")[0] == 97 && T("extensions")[0] == 101;
    assert |T("kind")| == 4 && |T("metadata")| == 8 && |T("environment")| == 11 && |T("task")| == 4;
  }

  lemma {:induction false} NameIsPlaceholder()
    ensures HasPlaceholder(T("${a}"))
  {
    LeftName([97]);
    assert T("${a}") == [36, 123, 97, 125];
  }

  lemma {:induction false} StampedExtensions(env: Env, provenance: Json)
    ensures Lookup(Stamped(env, NAMED, provenance), T("extensions")) == Some(EXTENSIONS)
  {
    assert |T("extensions")| == |T("provenance")| == |T("parameters")| == |T("generators")| == 10;
    assert T("extensions")[0] == 101 && T("provenance")[0] == 112 && T("parameters")[0] == 112 && T("generators")[0] == 103;
    assert |T("seeds")| == 5 && |T("kind")| == 4 && |T("instanceDigest")| == 14;
  }

  /** Wherever the schemas accept it and its strings are no references, a template with an
      extension named `${a}` compiles and keeps that name. */
  lemma {:induction false} PlaceholderNameCompiles(env: Env, options: Options, dataSeed: int, bundle: Json)
    requires env.validTemplate(NAMED) && options.overrides == map[]
    requires env.seeds(Lookup(NAMED, T("seeds")), options.rootSeed) == Some((dataSeed, bundle))
    requires (forall s :: s in Texts(Obj(NAMED)) ==> !env.isReference(s)) && !env.isReference(INSTANCE)
    requires forall d :: |env.digest(d)| > 0
    requires env.validInstance(Stamped(env, NAMED, env.provenance(NAMED, options, bundle, map[])))
    ensures HasPlaceholder(T("${a}")) && EXTENSIONS.members.Keys == {T("${a}")}
    ensures Compile(env, NAMED, options).Ok?
    ensures Lookup(Compile(env, NAMED, options).value.document, T("extensions")) == Some(EXTENSIONS)
  {
    NamedIsPlain(env.isReference);
    PlainTemplateCompiles(env, NAMED, options, dataSeed, bundle);
    StampedExtensions(env, env.provenance(NAMED, options, bundle, map[]));
    NameIsPlaceholder();
  }
}
