/** Scenario compilation: parameters, substitution, references, visibility and the identity
    that leaves provenance out (src/avp_ref/scenario/compiler.py and identity.py). */
module Scenario {
  import opened Common
  import opened Ordering
  import opened Placeholders
  import RelationalDiff

  /** JSON documents; numbers are opaque tokens. */
  datatype Json = Null | Flag(b: bool) | Number(token: int) | Str(s: Text) | Arr(items: seq<Json>) | Obj(members: map<Text, Json>)

  type Document = map<Text, Json>

  datatype Resolved = Resolved(path: Text, uri: Text, digest: Text, mode: Text)

  /** What the compiler takes from elsewhere. */
  datatype Env = Env(
    validTemplate: Document -> bool,
    validInstance: Document -> bool,
    truthy: Json -> bool,
    seeds: (Option<Json>, int) -> Option<(int, Json)>,
    childSeed: (int, Text) -> int,
    generate: (Text, Json, int) -> Option<Json>,
    acceptable: (Text, Json, Json) -> bool,
    render: Json -> Text,
    resolve: (Text, Text) -> Option<Resolved>,
    isReference: Text -> bool,
    digest: Document -> Text,
    provenance: (Document, Options, Json, Document) -> Json)

  datatype Options = Options(rootSeed: int, overrides: Document, strict: bool)

  datatype CompileError =
    TemplateInvalid | GeneratorsUnsupported | BadSeed | ParametersNotObject | UnknownOverride | BadParameter(name: Text)
    | Unresolved | BadReference | NotVisible | PlaceholderLeft | InstanceInvalid | IdentityMismatch

  // Parameters.

  /** One parameter: its value depends on the data seed, its name, its declaration and its
      override, and on nothing else. `Ok(None)` is an optional parameter without a value. */
  function ResolveOne(env: Env, dataSeed: int, name: Text, spec: Json, override_: Option<Json>): Result<Option<Json>, CompileError> {
    if !spec.Obj? then Err(BadParameter(name))
    else
      var m := spec.members;
      var value: Result<Option<Json>, CompileError> :=
        if override_.Some? then Ok(override_)
        else if T("value") in m then Ok(Some(m[T("value")]))
        else if T("default") in m then Ok(Some(m[T("default")]))
        else if T("generator") in m then
          if !m[T("generator")].Obj? then Err(BadParameter(name))
          else
            match env.generate(name, m[T("generator")], env.childSeed(dataSeed, T("parameter:") + name))
            case None => Err(BadParameter(name))
            case Some(v) => Ok(Some(v))
        else if T("required") !in m || env.truthy(m[T("required")]) then Err(BadParameter(name))
        else Ok(None);
      if value.Ok? && value.value.Some? && !env.acceptable(name, value.value.value, spec) then Err(BadParameter(name))
      else value
  }

  function OverrideOf(options: Options, name: Text): Option<Json> {
    if name in options.overrides then Some(options.overrides[name]) else None
  }

  function ResolveNamed(env: Env, options: Options, dataSeed: int, declarations: Document, name: Text): Result<Option<Json>, CompileError>
    requires name in declarations
  {
    ResolveOne(env, dataSeed, name, declarations[name], OverrideOf(options, name))
  }

  /** The loop over sorted names: the first failing parameter is the error. */
  function ResolveListed(env: Env, options: Options, dataSeed: int, declarations: Document, names: seq<Text>): Result<Document, CompileError>
    requires forall n :: n in names ==> n in declarations
  {
    if |names| == 0 then Ok(map[])
    else
      match ResolveListed(env, options, dataSeed, declarations, names[..|names| - 1])
      case Err(e) => Err(e)
      case Ok(done) =>
        var name := names[|names| - 1];
        match ResolveNamed(env, options, dataSeed, declarations, name)
        case Err(e) => Err(e)
        case Ok(None) => Ok(done)
        case Ok(Some(v)) => Ok(done[name := v])
  }

  lemma {:induction false} SameMembers(names: seq<seq<int>>, texts: seq<Text>, keys: set<Text>)
    requires |texts| == |names| && Elements(names) == keys
    requires forall i :: 0 <= i < |names| ==> texts[i] == names[i]
    ensures forall n :: n in texts <==> n in keys
  {
    forall n | n in keys ensures n in texts {
      assert n in Elements(names);
      var i :| 0 <= i < |names| && names[i] == n;
      assert texts[i] == n;
    }
    forall n | n in texts ensures n in keys {
      var i :| 0 <= i < |texts| && texts[i] == n;
      assert names[i] in Elements(names);
    }
  }

  /** `sorted(mapping)`: member names in ascending order. */
  ghost function Names(m: Document): (names: seq<Text>)
    ensures forall n :: n in names <==> n in m
  {
    RelationalDiff.AscendingSorts(m.Keys);
    var names := RelationalDiff.Ascending(m.Keys);
    assert forall i :: 0 <= i < |names| ==> names[i] in Elements(names);
    var texts: seq<Text> := seq(|names|, i requires 0 <= i < |names| => names[i]);
    SameMembers(names, texts, m.Keys);
    texts
  }

  ghost function ResolveParameters(env: Env, options: Options, dataSeed: int, declared: Option<Json>): Result<Document, CompileError> {
    var declarations := if declared.Some? then declared.value else Obj(map[]);
    if !declarations.Obj? then Err(ParametersNotObject)
    else if !(options.overrides.Keys <= declarations.members.Keys) then Err(UnknownOverride)
    else ResolveListed(env, options, dataSeed, declarations.members, Names(declarations.members))
  }

  /** The loop of `_resolve_parameters`. */
  method ResolveInOrder(env: Env, options: Options, dataSeed: int, declarations: Document, names: seq<Text>)
    returns (r: Result<Document, CompileError>)
    requires forall n :: n in names ==> n in declarations
    ensures r == ResolveListed(env, options, dataSeed, declarations, names)
  {
    var values: Document := map[];
    for i := 0 to |names|
      invariant ResolveListed(env, options, dataSeed, declarations, names[..i]) == Ok(values)
    {
      assert names[..i + 1][..i] == names[..i];
      ListedPrefix(env, options, dataSeed, declarations, names, i + 1);
      var one := ResolveNamed(env, options, dataSeed, declarations, names[i]);
      match one {
        case Err(e) => return Err(e);
        case Ok(value) =>
          if value.Some? {
            values := values[names[i] := value.value];
          }
      }
    }
    assert names[..|names|] == names;
    r := Ok(values);
  }

  lemma {:induction false} ListedPrefix(env: Env, options: Options, dataSeed: int, declarations: Document, names: seq<Text>, n: nat)
    requires n <= |names| && forall x :: x in names ==> x in declarations
    ensures ResolveListed(env, options, dataSeed, declarations, names[..n]).Err? ==>
      ResolveListed(env, options, dataSeed, declarations, names) == ResolveListed(env, options, dataSeed, declarations, names[..n])
    decreases |names|
  {
    if n == |names| {
      assert names[..n] == names;
    } else {
      assert names[..|names| - 1][..n] == names[..n];
      ListedPrefix(env, options, dataSeed, declarations, names[..|names| - 1], n);
    }
  }

  lemma {:induction false} ListedValues(env: Env, options: Options, dataSeed: int, declarations: Document, names: seq<Text>, n: Text)
    requires forall x :: x in names ==> x in declarations
    requires ResolveListed(env, options, dataSeed, declarations, names).Ok? && n in declarations
    ensures var values := ResolveListed(env, options, dataSeed, declarations, names).value;
      if n in names then
        ResolveNamed(env, options, dataSeed, declarations, n) == Ok(if n in values then Some(values[n]) else None)
      else n !in values
  {
    if |names| != 0 {
      ListedValues(env, options, dataSeed, declarations, names[..|names| - 1], n);
      assert names == names[..|names| - 1] + [names[|names| - 1]];
    }
  }

  /** Each parameter is local: two resolutions that agree on a parameter's declaration, its
      override and the data seed give it the same value, whatever else they declare. */
  lemma {:induction false} ParametersAreLocal(env: Env, a: Options, b: Options, dataSeed: int, da: Document, db: Document, n: Text)
    requires ResolveParameters(env, a, dataSeed, Some(Obj(da))).Ok? && ResolveParameters(env, b, dataSeed, Some(Obj(db))).Ok?
    requires n in da && n in db && da[n] == db[n] && OverrideOf(a, n) == OverrideOf(b, n)
    ensures var va, vb := ResolveParameters(env, a, dataSeed, Some(Obj(da))).value, ResolveParameters(env, b, dataSeed, Some(Obj(db))).value;
      (n in va <==> n in vb) && (n in va ==> va[n] == vb[n])
  {
    ListedValues(env, a, dataSeed, da, Names(da), n);
    ListedValues(env, b, dataSeed, db, Names(db), n);
  }

  // Substitution.

  function Show(render: Json -> Text, v: Json): Text {
    if v.Str? then v.s else render(v)
  }

  /** Literal text and interpolated scalars; a structured value cannot be interpolated. */
  function Join(render: Json -> Text, ps: Document, pieces: seq<Piece>): Option<Text> {
    if |pieces| == 0 then Some([])
    else
      match Join(render, ps, pieces[1..])
      case None => None
      case Some(rest) =>
        match pieces[0]
        case Lit(c) => Some([c] + rest)
        case Ref(n) => if n in ps && !ps[n].Arr? && !ps[n].Obj? then Some(Show(render, ps[n]) + rest) else None
  }

  function SubstituteText(render: Json -> Text, ps: Document, s: Text): Option<Json> {
    var pieces := Pieces(s);
    if |pieces| == 1 && pieces[0].Ref? then (if pieces[0].name in ps then Some(ps[pieces[0].name]) else None)
    else
      match Join(render, ps, pieces)
      case None => None
      case Some(t) => Some(Str(t))
  }

  /** `_substitute`: one pass over values; member names are left alone. */
  function Substitute(render: Json -> Text, ps: Document, v: Json): Option<Json> {
    match v
    case Str(s) => SubstituteText(render, ps, s)
    case Arr(items) =>
      if forall i :: 0 <= i < |items| ==> Substitute(render, ps, items[i]).Some? then
        Some(Arr(seq(|items|, i requires 0 <= i < |items| => Substitute(render, ps, items[i]).value)))
      else None
    case Obj(m) =>
      if forall k :: k in m ==> Substitute(render, ps, m[k]).Some? then
        Some(Obj(map k | k in m :: Substitute(render, ps, m[k]).value))
      else None
    case _ => Some(v)
  }

  /** The parameters a document mentions in its values. */
  function Mentions(v: Json): set<Text> {
    match v
    case Str(s) => set i | 0 <= i < |Pieces(s)| && Pieces(s)[i].Ref? :: Pieces(s)[i].name
    case Arr(items) => set i, n | 0 <= i < |items| && n in Mentions(items[i]) :: n
    case Obj(m) => set k, n | k in m && n in Mentions(m[k]) :: n
    case _ => {}
  }

  ghost predicate Agree(ps: Document, qs: Document, names: set<Text>) {
    forall n :: n in names ==> (n in ps <==> n in qs) && (n in ps ==> ps[n] == qs[n])
  }

  lemma {:induction false} JoinLocal(render: Json -> Text, ps: Document, qs: Document, pieces: seq<Piece>)
    requires forall i :: 0 <= i < |pieces| && pieces[i].Ref? ==> Agree(ps, qs, {pieces[i].name})
    ensures Join(render, ps, pieces) == Join(render, qs, pieces)
  {
    if |pieces| != 0 {
      assert forall i :: 0 <= i < |pieces[1..]| ==> pieces[1..][i] == pieces[i + 1];
      JoinLocal(render, ps, qs, pieces[1..]);
      assert pieces[0].Ref? ==> pieces[0].name in {pieces[0].name};
    }
  }

  /** Substitution depends on nothing but the parameters mentioned. */
  lemma {:induction false} SubstituteLocal(render: Json -> Text, ps: Document, qs: Document, v: Json)
    requires Agree(ps, qs, Mentions(v))
    ensures Substitute(render, ps, v) == Substitute(render, qs, v)
  {
    match v {
      case Str(s) =>
        var pieces := Pieces(s);
        forall i | 0 <= i < |pieces| && pieces[i].Ref? ensures Agree(ps, qs, {pieces[i].name}) {
          assert pieces[i].name in Mentions(v);
        }
        JoinLocal(render, ps, qs, pieces);
      case Arr(items) =>
        forall i | 0 <= i < |items| ensures Substitute(render, ps, items[i]) == Substitute(render, qs, items[i]) {
          assert forall n :: n in Mentions(items[i]) ==> n in Mentions(v);
          SubstituteLocal(render, ps, qs, items[i]);
        }
        if Substitute(render, ps, v).Some? && Substitute(render, qs, v).Some? {
          assert Substitute(render, ps, v).value.items == Substitute(render, qs, v).value.items;
        }
      case Obj(m) =>
        forall k | k in m ensures Substitute(render, ps, m[k]) == Substitute(render, qs, m[k]) {
          assert forall n :: n in Mentions(m[k]) ==> n in Mentions(v);
          SubstituteLocal(render, ps, qs, m[k]);
        }
        if Substitute(render, ps, v).Some? && Substitute(render, qs, v).Some? {
          assert Substitute(render, ps, v).value.members == Substitute(render, qs, v).value.members;
        }
      case _ =>
    }
  }

  // References.

  datatype Reference = Reference(path: Text, uri: Text)

  function Digits(n: nat): Text {
    if n < 10 then [48 + n] else Digits(n / 10) + [48 + n % 10]
  }

  /** `_collect_references`: members in sorted order, items in order. */
  ghost function Collect(isReference: Text -> bool, v: Json, path: Text): seq<Reference>
    decreases v, 1, 0
  {
    match v
    case Str(s) => if isReference(s) then [Reference(path, s)] else []
    case Arr(items) => CollectItems(isReference, v, path, |items|)
    case Obj(m) => CollectMembers(isReference, v, path, Names(m))
    case _ => []
  }

  ghost function CollectItems(isReference: Text -> bool, v: Json, path: Text, n: nat): seq<Reference>
    requires v.Arr? && n <= |v.items|
    decreases v, 0, n
  {
    if n == 0 then []
    else CollectItems(isReference, v, path, n - 1) + Collect(isReference, v.items[n - 1], path + [91] + Digits(n - 1) + [93])
  }

  ghost function CollectMembers(isReference: Text -> bool, v: Json, path: Text, names: seq<Text>): seq<Reference>
    requires v.Obj? && forall n :: n in names ==> n in v.members
    decreases v, 0, |names|
  {
    if |names| == 0 then []
    else
      var name := names[|names| - 1];
      CollectMembers(isReference, v, path, names[..|names| - 1]) + Collect(isReference, v.members[name], path + [46] + name)
  }

  /** Where a string value stands in a document. */
  ghost predicate Occurs(v: Json, path: Text, here: Text, s: Text)
    decreases v
  {
    match v
    case Str(t) => t == s && path == here
    case Arr(items) => exists i :: 0 <= i < |items| && Occurs(items[i], path + [91] + Digits(i) + [93], here, s)
    case Obj(m) => exists k :: k in m && Occurs(m[k], path + [46] + k, here, s)
    case _ => false
  }

  /** Every reference in value position is collected with its path, and nothing else is. */
  lemma {:induction false} CollectsExactly(isReference: Text -> bool, v: Json, path: Text, r: Reference)
    ensures r in Collect(isReference, v, path) <==> isReference(r.uri) && Occurs(v, path, r.path, r.uri)
    decreases v, 1, 0
  {
    match v {
      case Arr(items) => ItemsCollected(isReference, v, path, |items|, r);
      case Obj(m) => MembersCollected(isReference, v, path, Names(m), r);
      case _ =>
    }
  }

  lemma {:induction false} ItemsCollected(isReference: Text -> bool, v: Json, path: Text, n: nat, r: Reference)
    requires v.Arr? && n <= |v.items|
    ensures r in CollectItems(isReference, v, path, n) <==>
      isReference(r.uri) && exists i :: 0 <= i < n && Occurs(v.items[i], path + [91] + Digits(i) + [93], r.path, r.uri)
    decreases v, 0, n
  {
    if n != 0 {
      ItemsCollected(isReference, v, path, n - 1, r);
      CollectsExactly(isReference, v.items[n - 1], path + [91] + Digits(n - 1) + [93], r);
    }
  }

  lemma {:induction false} MembersCollected(isReference: Text -> bool, v: Json, path: Text, names: seq<Text>, r: Reference)
    requires v.Obj? && forall n :: n in names ==> n in v.members
    ensures r in CollectMembers(isReference, v, path, names) <==>
      isReference(r.uri) && exists k :: k in names && Occurs(v.members[k], path + [46] + k, r.path, r.uri)
    decreases v, 0, |names|
  {
    if |names| != 0 {
      var front, name := names[..|names| - 1], names[|names| - 1];
      MembersCollected(isReference, v, path, front, r);
      CollectsExactly(isReference, v.members[name], path + [46] + name, r);
      assert forall k :: k in names <==> k in front || k == name;
    }
  }

  function ResolveAll(resolve: (Text, Text) -> Option<Resolved>, strict: bool, refs: seq<Reference>): Option<seq<Resolved>> {
    if |refs| == 0 then Some([])
    else
      match ResolveAll(resolve, strict, refs[..|refs| - 1])
      case None => None
      case Some(done) =>
        var r := refs[|refs| - 1];
        match resolve(r.path, r.uri)
        case None => None
        case Some(resolved) =>
          if resolved.path != r.path || resolved.uri != r.uri then None
          else if strict && resolved.mode != T("content") then None
          else Some(done + [resolved])
  }

  predicate TripleLess(a: (Text, Text, Text), b: (Text, Text, Text)) {
    LexLess(a.0, b.0) || (a.0 == b.0 && (LexLess(a.1, b.1) || (a.1 == b.1 && LexLess(a.2, b.2))))
  }

  function Binding(r: Resolved): Json {
    Obj(map[T("location") := Str(r.path), T("reference") := Str(r.uri), T("identity") := Str(r.digest),
            T("identityType") := Str(r.mode)])
  }

  /** Records sorted by path, reference and digest. */
  function Bindings(records: seq<Resolved>): Json {
    var keyed := Map((r: Resolved) => ((r.path, r.uri, r.digest), r), records);
    Arr(Map(r => Binding(r), Values(SortByKey(TripleLess, keyed))))
  }

  /** What strictness can only refuse, it cannot change. */
  lemma {:induction false} StrictnessOnlyRefuses(resolve: (Text, Text) -> Option<Resolved>, a: bool, b: bool, refs: seq<Reference>)
    requires ResolveAll(resolve, a, refs).Some? && ResolveAll(resolve, b, refs).Some?
    ensures ResolveAll(resolve, a, refs) == ResolveAll(resolve, b, refs)
  {
    if |refs| != 0 {
      StrictnessOnlyRefuses(resolve, a, b, refs[..|refs| - 1]);
    }
  }

  // Visibility.

  const CONFIDENTIAL: set<Text> := {T("evaluator-confidential"), T("secret"), T("regulated")}

  /** `_find_confidential` finds nothing. A structured classification cannot be looked up in the
      set at all and stops the compilation as well. */
  predicate Clean(v: Json) {
    match v
    case Obj(m) =>
      && (T("classification") in m ==>
            var c := m[T("classification")];
            !c.Arr? && !c.Obj? && !(c.Str? && c.s in CONFIDENTIAL))
      && forall k :: k in m ==> Clean(m[k])
    case Arr(items) => forall i :: 0 <= i < |items| ==> Clean(items[i])
    case _ => true
  }

  function Member(d: Document, name: Text): Json {
    if name in d then d[name] else Obj(map[])
  }

  predicate IsActor(v: Json, id: Text) {
    v.Obj? && T("id") in v.members && v.members[T("id")] == Str(id)
  }

  function ActorsNamed(items: seq<Json>, id: Text): seq<Json> {
    if |items| == 0 then []
    else ActorsNamed(items[..|items| - 1], id) + (if IsActor(items[|items| - 1], id) then [items[|items| - 1]] else [])
  }

  function Actors(d: Document, id: Text): Json {
    Arr(ActorsNamed(if T("actors") in d && d[T("actors")].Arr? then d[T("actors")].items else [], id))
  }

  function CapabilitiesOf(d: Document, id: Text): Json {
    var all := Member(d, T("capabilities"));
    if all.Obj? && id in all.members then all.members[id] else Obj(map[])
  }

  /** What an actor sees of a Scenario, apart from its version and kind. */
  function Projection(d: Document, id: Text): seq<Json> {
    [Member(d, T("metadata")), Member(d, T("task")), Actors(d, id), CapabilitiesOf(d, id), Member(d, T("budgets"))]
  }

  predicate SubjectClean(d: Document) {
    forall i :: 0 <= i < 5 ==> Clean(Projection(d, T("subject"))[i])
  }

  // Placeholders that are left.

  /** Some string value still holds a placeholder; member names are not looked at. */
  predicate Leftover(v: Json) {
    match v
    case Str(s) => HasPlaceholder(s)
    case Arr(items) => exists i :: 0 <= i < |items| && Leftover(items[i])
    case Obj(m) => exists k :: k in m && Leftover(m[k])
    case _ => false
  }

  // Compilation.

  datatype Instance = Instance(document: Document, digest: Text)

  function Retained(d: Document): Document {
    d - {T("parameters"), T("seeds"), T("generators")}
  }

  /** The identity preimage: everything but provenance and the digest itself. */
  function Preimage(d: Document): Document {
    d - {T("instanceDigest"), T("provenance")}
  }

  function Lookup(d: Document, name: Text): Option<Json> {
    if name in d then Some(d[name]) else None
  }

  /** The document after substitution, before anything is added. */
  function Materialize(env: Env, ps: Document, source: Document): Option<Document> {
    match Substitute(env.render, ps, Obj(source))
    case Some(Obj(m)) => Some(Retained(m)[T("kind") := Str(T("ScenarioInstance"))])
    case _ => None
  }

  /** The semantic document: materialised members and the bindings of its references. */
  ghost function Bound(env: Env, strict: bool, m: Document): Option<Document> {
    match ResolveAll(env.resolve, strict, Collect(env.isReference, Obj(m), [36]))
    case None => None
    case Some(records) => Some(if records == [] then m else m[T("referenceBindings") := Bindings(records)])
  }

  /** The resolved parameters of a compilation, and the provenance that records them: some
      document about the template, the options, the seeds and the parameters. */
  ghost function Parameters(env: Env, source: Document, options: Options): Result<(Document, Json), CompileError> {
    match env.seeds(Lookup(source, T("seeds")), options.rootSeed)
    case None => Err(BadSeed)
    case Some((dataSeed, bundle)) =>
      match ResolveParameters(env, options, dataSeed, Lookup(source, T("parameters")))
      case Err(e) => Err(e)
      case Ok(ps) => Ok((ps, env.provenance(source, options, bundle, ps)))
  }

  /** `compile`, with its checks in their order. */
  ghost function Compile(env: Env, source: Document, options: Options): Result<Instance, CompileError> {
    if !env.validTemplate(source) then Err(TemplateInvalid)
    else if T("generators") in source && env.truthy(source[T("generators")]) then Err(GeneratorsUnsupported)
    else
      match Parameters(env, source, options)
      case Err(e) => Err(e)
      case Ok((ps, provenance)) =>
        match Materialize(env, ps, source)
        case None => Err(Unresolved)
        case Some(m) => Finish(env, options, m, provenance)
  }

  ghost function Finish(env: Env, options: Options, m: Document, provenance: Json): Result<Instance, CompileError> {
    match Bound(env, options.strict, m)
    case None => Err(BadReference)
    case Some(bound) =>
      if !SubjectClean(m) then Err(NotVisible)
      else if Leftover(Obj(m)) then Err(PlaceholderLeft)
      else
        var document := bound[T("provenance") := provenance];
        var digest := env.digest(Preimage(document));
        var complete := document[T("instanceDigest") := Str(digest)];
        if !env.validInstance(complete) then Err(InstanceInvalid)
        else if VerifyIdentity(env, complete) != Some(digest) then Err(IdentityMismatch)
        else Ok(Instance(complete, digest))
  }

  /** `verify_scenario_instance_identity`. */
  function VerifyIdentity(env: Env, d: Document): Option<Text> {
    if T("instanceDigest") !in d || !d[T("instanceDigest")].Str? || |d[T("instanceDigest")].s| == 0 then None
    else if d[T("instanceDigest")].s != env.digest(Preimage(d)) then None
    else Some(env.digest(Preimage(d)))
  }

  // Identity.

  /** The members that survive can be substituted on their own. */
  lemma {:induction false} RetainedOnItsOwn(render: Json -> Text, ps: Document, source: Document)
    requires Substitute(render, ps, Obj(source)).Some?
    ensures Substitute(render, ps, Obj(Retained(source))).Some?
    ensures Retained(Substitute(render, ps, Obj(source)).value.members) == Substitute(render, ps, Obj(Retained(source))).value.members
  {
    assert forall k :: k in Retained(source) ==> Retained(source)[k] == source[k];
  }

  /** The compilers may differ in seeds, generators and checks, not in how they print scalars,
      recognise and resolve references, and digest. */
  ghost predicate SameSemantics(a: Env, b: Env) {
    a.render == b.render && a.resolve == b.resolve && a.isReference == b.isReference && a.digest == b.digest
  }

  lemma {:induction false} SameMaterial(a: Env, b: Env, pa: Document, pb: Document, sa: Document, sb: Document)
    requires a.render == b.render && Retained(sa) == Retained(sb) && Agree(pa, pb, Mentions(Obj(Retained(sa))))
    requires Materialize(a, pa, sa).Some? && Materialize(b, pb, sb).Some?
    ensures Materialize(a, pa, sa) == Materialize(b, pb, sb)
  {
    RetainedOnItsOwn(a.render, pa, sa);
    RetainedOnItsOwn(b.render, pb, sb);
    SubstituteLocal(a.render, pa, pb, Obj(Retained(sa)));
  }

  lemma {:induction false} CompiledParts(env: Env, source: Document, options: Options) returns (ps: Document, m: Document, bound: Document)
    requires Compile(env, source, options).Ok?
    ensures Parameters(env, source, options).Ok? && ps == Parameters(env, source, options).value.0
    ensures Materialize(env, ps, source) == Some(m) && Bound(env, options.strict, m) == Some(bound)
    ensures SubjectClean(m) && !Leftover(Obj(m))
    ensures var i := Compile(env, source, options).value;
      && i.document == bound[T("provenance") := Parameters(env, source, options).value.1][T("instanceDigest") := Str(i.digest)]
      && i.digest == env.digest(Preimage(bound)) && Preimage(i.document) == Preimage(bound)
  {
    ps := Parameters(env, source, options).value.0;
    m := Materialize(env, ps, source).value;
    bound := Bound(env, options.strict, m).value;
    PreimageIgnores(bound, Parameters(env, source, options).value.1, Compile(env, source, options).value.digest);
  }

  lemma {:induction false} PreimageIgnores(d: Document, provenance: Json, digest: Text)
    ensures Preimage(d[T("provenance") := provenance]) == Preimage(d)
    ensures Preimage(d[T("provenance") := provenance][T("instanceDigest") := Str(digest)]) == Preimage(d)
  {
  }

  /** Two successful compilations that agree on the retained template and on every parameter it
      mentions have the same instance digest, whatever the root seed, the other parameters,
      the generators' draws and the strictness were. */
  lemma {:induction false} IdentityIsDeterministic(a: Env, b: Env, sa: Document, sb: Document, oa: Options, ob: Options)
    requires SameSemantics(a, b) && Compile(a, sa, oa).Ok? && Compile(b, sb, ob).Ok?
    requires Retained(sa) == Retained(sb) && Parameters(a, sa, oa).Ok? && Parameters(b, sb, ob).Ok?
    requires Agree(Parameters(a, sa, oa).value.0, Parameters(b, sb, ob).value.0, Mentions(Obj(Retained(sa))))
    ensures Compile(a, sa, oa).value.digest == Compile(b, sb, ob).value.digest
    ensures Preimage(Compile(a, sa, oa).value.document) == Preimage(Compile(b, sb, ob).value.document)
  {
    var pa, ma, ba := CompiledParts(a, sa, oa);
    var pb, mb, bb := CompiledParts(b, sb, ob);
    SameMaterial(a, b, pa, pb, sa, sb);
    StrictnessOnlyRefuses(a.resolve, oa.strict, ob.strict, Collect(a.isReference, Obj(ma), [36]));
  }

  /** The compiled document verifies against its own digest, and goes on doing so whatever is
      written into its provenance. */
  lemma {:induction false} ProvenanceIsNotIdentity(env: Env, source: Document, options: Options, provenance: Json)
    requires Compile(env, source, options).Ok?
    ensures var i := Compile(env, source, options).value;
      && VerifyIdentity(env, i.document) == Some(i.digest)
      && VerifyIdentity(env, i.document[T("provenance") := provenance]) == Some(i.digest)
  {
    assert |T("provenance")| == 10 && |T("instanceDigest")| == 14;
    var ps, m, bound := CompiledParts(env, source, options);
    PreimageIgnores(Compile(env, source, options).value.document, provenance, []);
  }

  /** The identity check inside the compiler never fires: a digest is never empty. */
  lemma {:induction false} IdentityCheckCannotFail(env: Env, source: Document, options: Options)
    requires forall d :: |env.digest(d)| > 0
    ensures Compile(env, source, options) != Err(IdentityMismatch)
  {
    if Parameters(env, source, options).Ok? {
      var (ps, provenance) := Parameters(env, source, options).value;
      if Materialize(env, ps, source).Some? && Bound(env, options.strict, Materialize(env, ps, source).value).Some? {
        var bound := Bound(env, options.strict, Materialize(env, ps, source).value).value;
        PreimageIgnores(bound, provenance, env.digest(Preimage(bound)));
      }
    }
    ParameterErrors(env, source, options);
  }

  lemma {:induction false} ParameterErrors(env: Env, source: Document, options: Options)
    ensures Parameters(env, source, options).Err? ==> Parameters(env, source, options).error != IdentityMismatch
  {
    var seeds := env.seeds(Lookup(source, T("seeds")), options.rootSeed);
    var declared := Lookup(source, T("parameters"));
    var declarations := if declared.Some? then declared.value else Obj(map[]);
    if seeds.Some? && declarations.Obj? {
      ListedErrors(env, options, seeds.value.0, declarations.members, Names(declarations.members));
    }
  }

  lemma {:induction false} ListedErrors(env: Env, options: Options, dataSeed: int, declarations: Document, names: seq<Text>)
    requires forall n :: n in names ==> n in declarations
    ensures ResolveListed(env, options, dataSeed, declarations, names).Err? ==>
      ResolveListed(env, options, dataSeed, declarations, names).error.BadParameter?
  {
    if |names| != 0 {
      ListedErrors(env, options, dataSeed, declarations, names[..|names| - 1]);
    }
  }

  /** With a digest that distinguishes documents, a document that verifies against a compiled
      digest differs from the compiled one at most in provenance. */
  lemma {:induction false} TamperingIsDetected(env: Env, source: Document, options: Options, d: Document)
    requires forall x, y :: env.digest(x) == env.digest(y) ==> x == y
    requires Compile(env, source, options).Ok? && VerifyIdentity(env, d) == Some(Compile(env, source, options).value.digest)
    ensures Preimage(d) == Preimage(Compile(env, source, options).value.document)
  {
    var ps, m, bound := CompiledParts(env, source, options);
  }

  // Fail-closed checks.

  /** What the Subject sees depends on five members only. */
  lemma {:induction false} ProjectionLocal(d: Document, m: Document, id: Text)
    requires Lookup(d, T("metadata")) == Lookup(m, T("metadata")) && Lookup(d, T("task")) == Lookup(m, T("task"))
    requires Lookup(d, T("actors")) == Lookup(m, T("actors")) && Lookup(d, T("capabilities")) == Lookup(m, T("capabilities"))
    requires Lookup(d, T("budgets")) == Lookup(m, T("budgets"))
    ensures Projection(d, id) == Projection(m, id)
  {
  }

  /** The compiler adds three members and touches no other. */
  lemma {:induction false} AddedMembers(env: Env, source: Document, options: Options) returns (m: Document)
    requires Compile(env, source, options).Ok?
    ensures SubjectClean(m) && !Leftover(Obj(m))
    ensures forall k :: k !in {T("referenceBindings"), T("provenance"), T("instanceDigest")} ==>
      Lookup(Compile(env, source, options).value.document, k) == Lookup(m, k)
  {
    var ps, bound;
    ps, m, bound := CompiledParts(env, source, options);
  }

  lemma {:induction false} NothingLeftInside(m: Document, k: Text)
    requires !Leftover(Obj(m)) && k in m
    ensures !Leftover(m[k])
  {
  }

  /** A compiled document holds no placeholder in any value it took from the template, and what
      the Subject is shown carries no confidential classification at any depth. */
  lemma {:induction false} CompiledIsClosed(env: Env, source: Document, options: Options)
    requires Compile(env, source, options).Ok?
    ensures var d := Compile(env, source, options).value.document;
      && (forall k :: k in d && k !in {T("referenceBindings"), T("provenance"), T("instanceDigest")} ==> !Leftover(d[k]))
      && SubjectClean(d)
  {
    var m := AddedMembers(env, source, options);
    var d := Compile(env, source, options).value.document;
    forall k | k in d && k !in {T("referenceBindings"), T("provenance"), T("instanceDigest")} ensures !Leftover(d[k]) {
      assert Lookup(d, k) == Lookup(m, k);
      NothingLeftInside(m, k);
    }
    assert |T("metadata")| == 8 && |T("task")| == 4 && |T("actors")| == 6 && |T("capabilities")| == 12 && |T("budgets")| == 7;
    assert |T("referenceBindings")| == 17 && |T("provenance")| == 10 && |T("instanceDigest")| == 14;
    ProjectionLocal(d, m, T("subject"));
  }

  /** Every reference in value position of the materialised document is resolved under its own
      path and text. */
  lemma {:induction false} ReferencesAreBound(env: Env, source: Document, options: Options, here: Text, uri: Text)
    requires Compile(env, source, options).Ok? && Parameters(env, source, options).Ok?
    requires Materialize(env, Parameters(env, source, options).value.0, source).Some?
    requires env.isReference(uri)
    requires Occurs(Obj(Materialize(env, Parameters(env, source, options).value.0, source).value), [36], here, uri)
    ensures T("referenceBindings") in Compile(env, source, options).value.document
    ensures env.resolve(here, uri).Some?
    ensures Compile(env, source, options).value.document[T("referenceBindings")].Arr?
      && Binding(env.resolve(here, uri).value) in Compile(env, source, options).value.document[T("referenceBindings")].items
  {
    var ps, m, bound := CompiledParts(env, source, options);
    CollectsExactly(env.isReference, Obj(m), [36], Reference(here, uri));
    BoundHoldsBinding(env, options.strict, m, here, uri);
    assert |T("referenceBindings")| == 17 && |T("provenance")| == 10 && |T("instanceDigest")| == 14;
  }

  lemma {:induction false} BoundHoldsBinding(env: Env, strict: bool, m: Document, here: Text, uri: Text)
    requires Bound(env, strict, m).Some? && Reference(here, uri) in Collect(env.isReference, Obj(m), [36])
    ensures env.resolve(here, uri).Some?
    ensures T("referenceBindings") in Bound(env, strict, m).value
    ensures var b := Bound(env, strict, m).value[T("referenceBindings")];
      b.Arr? && Binding(env.resolve(here, uri).value) in b.items
  {
    var refs := Collect(env.isReference, Obj(m), [36]);
    var records := ResolveAll(env.resolve, strict, refs).value;
    ResolveAllCovers(env.resolve, strict, refs, Reference(here, uri));
    BindingListed(records, env.resolve(here, uri).value);
  }

  lemma {:induction false} ResolveAllCovers(resolve: (Text, Text) -> Option<Resolved>, strict: bool, refs: seq<Reference>, r: Reference)
    requires ResolveAll(resolve, strict, refs).Some? && r in refs
    ensures resolve(r.path, r.uri).Some? && resolve(r.path, r.uri).value in ResolveAll(resolve, strict, refs).value
  {
    var last := |refs| - 1;
    if r != refs[last] {
      ResolveAllCovers(resolve, strict, refs[..last], r);
    }
  }

  lemma {:induction false} BindingListed(records: seq<Resolved>, r: Resolved)
    requires r in records
    ensures Bindings(records).Arr? && Binding(r) in Bindings(records).items
  {
    var keyed := Map((r: Resolved) => ((r.path, r.uri, r.digest), r), records);
    var sorted := SortByKey(TripleLess, keyed);
    SortKeepsElements(TripleLess, keyed);
    var i :| 0 <= i < |records| && records[i] == r;
    assert keyed[i] in multiset(sorted);
    var j :| 0 <= j < |sorted| && sorted[j] == keyed[i];
    assert Map(r => Binding(r), Values(sorted))[j] == Binding(r);
  }
}
