/** Canonical browser manifests and state images
    (`canonicalize_manifest` and `canonicalize_state_image`,
    src/avp_ref/tck_adapter/browser_harness.py). */
module BrowserImage {
  import opened Common
  import opened Ordering
  import opened Canonical
  import DomString
  import Utf8

  datatype Expiry = Expiry(unixSeconds: Text, nanoseconds: int)

  /** A cookie is persistent when it has an expiry. */
  datatype Cookie = Cookie(
    name: Text, value: Text, domain: Text, hostOnly: bool, path: Text,
    secure: bool, httpOnly: bool, sameSite: Text, expiry: Option<Expiry>)

  datatype Entry = Entry(key: Text, value: Text)

  datatype OriginState = OriginState(origin: Text, localStorage: seq<Entry>)

  datatype StateImage = StateImage(manifestDigest: int, cookies: seq<Cookie>, origins: seq<OriginState>)

  datatype IdentityType = Content | Version | Symbolic

  datatype Binding = Binding(identity: Text, identityType: IdentityType)

  datatype Manifest = Manifest(origins: seq<Text>, domains: seq<Text>, bindings: map<Text, Binding>)

  /** The injected identity verifier, and the digest of canonical manifest bytes. */
  datatype Verifier = Verifier(origin: Text -> bool, domain: Text -> bool, digest: Manifest -> int)

  datatype ImageError =
    | EmptyName | RefusedByVerifier | RepeatedName | NotUtf8 | BadBinding
    | WrongManifest | UnselectedOrigin | RepeatedOrigin | MissingOrigin
    | BadDomString(reason: DomString.DomStringError) | RepeatedEntry
    | BadCookieOctets | BadSameSite | BadExpiry | UnselectedDomain | RepeatedCookie

  // Names: origins and cookie domains, ordered by their UTF-8 octets.

  /** `encode("utf-8")`, which fails on a surrogate. */
  function Utf8Key(name: Text): Result<seq<int>, ImageError> {
    if IsScalarText(name) then Ok(Utf8.Encode(name)) else Err(NotUtf8)
  }

  function NameKey(accept: Text -> bool, name: Text): Result<seq<int>, ImageError> {
    if |name| == 0 then Err(EmptyName)
    else if !accept(name) then Err(RefusedByVerifier)
    else Utf8Key(name)
  }

  function NameRule(accept: Text -> bool): Rule<Text, seq<int>, Text, ImageError> {
    Rule(n => NameKey(accept, n), n => Ok(n), RepeatedName)
  }

  function CanonicalNames(accept: Text -> bool, names: seq<Text>): Result<seq<Text>, ImageError> {
    Canonical.Canonical(LexLess, NameRule(accept), names)
  }

  predicate BindingsOk(bindings: map<Text, Binding>) {
    forall k :: k in bindings ==> |k| > 0 && |bindings[k].identity| > 0
  }

  /** The verification loop over a selection: the first name it refuses. */
  function VerifyNames(accept: Text -> bool, names: seq<Text>): Option<ImageError> {
    if |names| == 0 then None
    else
      var front := VerifyNames(accept, names[..|names| - 1]);
      if front.Some? then front
      else if |names[|names| - 1]| == 0 then Some(EmptyName)
      else if !accept(names[|names| - 1]) then Some(RefusedByVerifier)
      else None
  }

  /** All names are verified before duplicates are looked for. */
  function CheckNames(accept: Text -> bool, names: seq<Text>): Option<ImageError> {
    if VerifyNames(accept, names).Some? then VerifyNames(accept, names)
    else if !Distinct(names) then Some(RepeatedName)
    else None
  }

  predicate AllScalar(names: seq<Text>) {
    forall i :: 0 <= i < |names| ==> IsScalarText(names[i])
  }

  function SortedNames(names: seq<Text>): seq<Text>
    requires AllScalar(names)
  {
    Values(SortByKey(LexLess, Encoded(names)))
  }

  function Encoded(names: seq<Text>): (ps: seq<(seq<int>, Text)>)
    requires AllScalar(names)
    ensures |ps| == |names| && forall i :: 0 <= i < |names| ==> ps[i] == (Utf8.Encode(names[i]), names[i])
  {
    seq(|names|, i requires 0 <= i < |names| => (Utf8.Encode(names[i]), names[i]))
  }

  /** `canonicalize_manifest`: the selections are encoded, to be sorted, after every other check. */
  function CanonicalManifest(v: Verifier, m: Manifest): Result<Manifest, ImageError> {
    match CheckNames(v.origin, m.origins)
    case Some(e) => Err(e)
    case None =>
      match CheckNames(v.domain, m.domains)
      case Some(e) => Err(e)
      case None =>
        if !BindingsOk(m.bindings) then Err(BadBinding)
        else if !AllScalar(m.origins) || !AllScalar(m.domains) then Err(NotUtf8)
        else Ok(Manifest(SortedNames(m.origins), SortedNames(m.domains), m.bindings))
  }

  lemma {:induction false} VerifiedExactly(accept: Text -> bool, names: seq<Text>)
    ensures VerifyNames(accept, names).None? <==> forall i :: 0 <= i < |names| ==> |names[i]| > 0 && accept(names[i])
  {
    if |names| != 0 {
      VerifiedExactly(accept, names[..|names| - 1]);
    }
  }

  lemma {:induction false} EncodedDistinct(names: seq<Text>)
    requires AllScalar(names)
    ensures Distinct(Keys(Encoded(names))) <==> Distinct(names)
  {
    forall i, j | 0 <= i < j < |names| ensures Keys(Encoded(names))[i] == Keys(Encoded(names))[j] ==> names[i] == names[j] {
      if Utf8.Encode(names[i]) == Utf8.Encode(names[j]) {
        Utf8.EncodeInjective(names[i], names[j]);
      }
    }
    if Distinct(Keys(Encoded(names))) {
      forall i, j | 0 <= i < j < |names| ensures names[i] != names[j] {
        assert Keys(Encoded(names))[i] != Keys(Encoded(names))[j];
      }
    }
  }

  /** Verifying, looking for duplicates and encoding one after the other accepts the same
      selections as doing all three name by name, and sorts them alike. */
  lemma {:induction false} NamesExactly(accept: Text -> bool, names: seq<Text>)
    ensures CanonicalNames(accept, names).Ok? <==> CheckNames(accept, names).None? && AllScalar(names)
    ensures CanonicalNames(accept, names).Ok? ==> CanonicalNames(accept, names).value == SortedNames(names)
  {
    var rule := NameRule(accept);
    VerifiedExactly(accept, names);
    ScanCollects(rule, names);
    forall i | 0 <= i < |names|
      ensures Verdicts(rule, names)[i].Some? <==> |names[i]| > 0 && accept(names[i]) && IsScalarText(names[i])
      ensures IsScalarText(names[i]) && Verdicts(rule, names)[i].Some? ==>
        Verdicts(rule, names)[i] == Some((Utf8.Encode(names[i]), names[i]))
    {
      assert Verdicts(rule, names)[i] == Verdict(rule, names[i]);
    }
    if AllScalar(names) && AllSome(Verdicts(rule, names)) {
      assert Unwrap(Verdicts(rule, names)) == Encoded(names);
      EncodedDistinct(names);
    }
  }

  lemma {:induction false} ManifestParts(v: Verifier, m: Manifest)
    requires CanonicalManifest(v, m).Ok?
    ensures CanonicalNames(v.origin, m.origins) == Ok(CanonicalManifest(v, m).value.origins)
    ensures CanonicalNames(v.domain, m.domains) == Ok(CanonicalManifest(v, m).value.domains)
  {
    NamesExactly(v.origin, m.origins);
    NamesExactly(v.domain, m.domains);
  }

  // Local storage, ordered by decoded code units.

  function EntryKey(e: Entry): Result<seq<int>, ImageError> {
    match DomString.DecodeCodeUnits(e.key)
    case Err(reason) => Err(BadDomString(reason))
    case Ok(units) =>
      match DomString.DecodeCodeUnits(e.value)
      case Err(reason) => Err(BadDomString(reason))
      case Ok(_) => Ok(units)
  }

  function EntryRule(): Rule<Entry, seq<int>, Entry, ImageError> {
    Rule(EntryKey, e => Ok(e), RepeatedEntry)
  }

  function CanonicalStorage(entries: seq<Entry>): Result<seq<Entry>, ImageError> {
    Canonical.Canonical(LexLess, EntryRule(), entries)
  }

  // Origins.

  function OriginKey(v: Verifier, selected: seq<Text>, o: OriginState): Result<seq<int>, ImageError> {
    if |o.origin| == 0 then Err(EmptyName)
    else if !v.origin(o.origin) then Err(RefusedByVerifier)
    else if o.origin !in selected then Err(UnselectedOrigin)
    else Utf8Key(o.origin)
  }

  function OriginForm(o: OriginState): Result<OriginState, ImageError> {
    match CanonicalStorage(o.localStorage)
    case Err(e) => Err(e)
    case Ok(entries) => Ok(OriginState(o.origin, entries))
  }

  function OriginRule(v: Verifier, selected: seq<Text>): Rule<OriginState, seq<int>, OriginState, ImageError> {
    Rule(o => OriginKey(v, selected, o), OriginForm, RepeatedOrigin)
  }

  function CanonicalOrigins(v: Verifier, selected: seq<Text>, origins: seq<OriginState>): Result<seq<OriginState>, ImageError> {
    Canonical.Canonical(LexLess, OriginRule(v, selected), origins)
  }

  // Cookies, ordered by name, domain, host-only flag and path.

  datatype CookieId = CookieId(name: seq<int>, domain: seq<int>, hostOnly: bool, path: seq<int>)

  /** Python's order on the identity tuple; False sorts before True. */
  predicate CookieLess(a: CookieId, b: CookieId) {
    if a.name != b.name then LexLess(a.name, b.name)
    else if a.domain != b.domain then LexLess(a.domain, b.domain)
    else if a.hostOnly != b.hostOnly then b.hostOnly
    else LexLess(a.path, b.path)
  }

  predicate CookieOctets(s: Text) {
    forall i :: 0 <= i < |s| ==> 0x20 <= s[i] <= 0x7E
  }

  const SAME_SITE: set<Text> := {
    [68, 101, 102, 97, 117, 108, 116],
    [83, 116, 114, 105, 99, 116],
    [76, 97, 120],
    [78, 111, 110, 101]}

  /** `0|-?[1-9][0-9]*`. */
  predicate UnixSeconds(s: Text) {
    var digits := if |s| > 0 && s[0] == 45 then s[1..] else s;
    s == [48] || (|digits| > 0 && 49 <= digits[0] <= 57 && forall i :: 0 <= i < |digits| ==> 48 <= digits[i] <= 57)
  }

  predicate ExpiryOk(e: Expiry) {
    UnixSeconds(e.unixSeconds) && 0 <= e.nanoseconds <= 999_999_999
  }

  function CookieKey(v: Verifier, selected: seq<Text>, c: Cookie): Result<CookieId, ImageError> {
    if !CookieOctets(c.name) || !CookieOctets(c.value) || !CookieOctets(c.path) then Err(BadCookieOctets)
    else if |c.domain| == 0 then Err(EmptyName)
    else if !v.domain(c.domain) then Err(RefusedByVerifier)
    else if c.sameSite !in SAME_SITE then Err(BadSameSite)
    else if c.expiry.Some? && !ExpiryOk(c.expiry.value) then Err(BadExpiry)
    else if c.domain !in selected then Err(UnselectedDomain)
    else
      match Utf8Key(c.domain)
      case Err(e) => Err(e)
      case Ok(domain) => Ok(CookieId(c.name, domain, c.hostOnly, c.path))
  }

  function CookieRule(v: Verifier, selected: seq<Text>): Rule<Cookie, CookieId, Cookie, ImageError> {
    Rule(c => CookieKey(v, selected, c), c => Ok(c), RepeatedCookie)
  }

  function CanonicalCookies(v: Verifier, selected: seq<Text>, cookies: seq<Cookie>): Result<seq<Cookie>, ImageError> {
    Canonical.Canonical(CookieLess, CookieRule(v, selected), cookies)
  }

  // The image.

  function Names(origins: seq<OriginState>): seq<Text> {
    Map((o: OriginState) => o.origin, origins)
  }

  /** `canonicalize_state_image`. */
  function CanonicalImage(v: Verifier, m: Manifest, image: StateImage): Result<StateImage, ImageError> {
    match CanonicalManifest(v, m)
    case Err(e) => Err(e)
    case Ok(canonical) =>
      if image.manifestDigest != v.digest(canonical) then Err(WrongManifest)
      else
        match CanonicalOrigins(v, canonical.origins, image.origins)
        case Err(e) => Err(e)
        case Ok(origins) =>
          if Elements(Names(image.origins)) != Elements(canonical.origins) then Err(MissingOrigin)
          else
            match CanonicalCookies(v, canonical.domains, image.cookies)
            case Err(e) => Err(e)
            case Ok(cookies) => Ok(StateImage(image.manifestDigest, cookies, origins))
  }

  /** One selection: the verification loop, then `len(names) != len(set(names))`. */
  method CheckSelection(accept: Text -> bool, names: seq<Text>) returns (error: Option<ImageError>)
    ensures error == CheckNames(accept, names)
  {
    for n := 0 to |names|
      invariant VerifyNames(accept, names[..n]) == None
    {
      assert names[..n + 1][..n] == names[..n];
      VerifyPrefix(accept, names, n + 1);
      if |names[n]| == 0 {
        return Some(EmptyName);
      }
      if !accept(names[n]) {
        return Some(RefusedByVerifier);
      }
    }
    assert names[..|names|] == names;
    DistinctBySize(names);
    error := if |names| != |Elements(names)| then Some(RepeatedName) else None;
  }

  lemma {:induction false} VerifyPrefix(accept: Text -> bool, names: seq<Text>, n: nat)
    requires n <= |names|
    ensures VerifyNames(accept, names[..n]).Some? ==> VerifyNames(accept, names) == VerifyNames(accept, names[..n])
    decreases |names|
  {
    if n == |names| {
      assert names[..n] == names;
    } else {
      assert names[..|names| - 1][..n] == names[..n];
      VerifyPrefix(accept, names[..|names| - 1], n);
    }
  }

  lemma {:induction false} DistinctBySize<T>(xs: seq<T>)
    ensures |Elements(xs)| <= |xs| && (|Elements(xs)| == |xs| <==> Distinct(xs))
  {
    if |xs| != 0 {
      var front, last := xs[..|xs| - 1], xs[|xs| - 1];
      assert xs == front + [last];
      DistinctBySize(front);
      DistinctExtend(front, last);
      assert Elements(xs) == Elements(front) + {last};
    }
  }

  method CanonicalizeManifest(v: Verifier, m: Manifest) returns (r: Result<Manifest, ImageError>)
    ensures r == CanonicalManifest(v, m)
  {
    var error := CheckSelection(v.origin, m.origins);
    if error.Some? {
      return Err(error.value);
    }
    error := CheckSelection(v.domain, m.domains);
    if error.Some? {
      return Err(error.value);
    }
    if !BindingsOk(m.bindings) {
      return Err(BadBinding);
    }
    if !AllScalar(m.origins) || !AllScalar(m.domains) {
      return Err(NotUtf8);
    }
    r := Ok(Manifest(SortedNames(m.origins), SortedNames(m.domains), m.bindings));
  }

  method CanonicalizeStateImage(v: Verifier, m: Manifest, image: StateImage) returns (r: Result<StateImage, ImageError>)
    ensures r == CanonicalImage(v, m, image)
  {
    var canonical := CanonicalizeManifest(v, m);
    if canonical.Err? {
      return Err(canonical.error);
    }
    if image.manifestDigest != v.digest(canonical.value) {
      return Err(WrongManifest);
    }
    var origins := Canonicalize(LexLess, OriginRule(v, canonical.value.origins), image.origins);
    if origins.Err? {
      return Err(origins.error);
    }
    if Elements(Names(image.origins)) != Elements(canonical.value.origins) {
      return Err(MissingOrigin);
    }
    var cookies := Canonicalize(CookieLess, CookieRule(v, canonical.value.domains), image.cookies);
    if cookies.Err? {
      return Err(cookies.error);
    }
    r := Ok(StateImage(image.manifestDigest, cookies.value, origins.value));
  }

  // Orders and forms.

  lemma {:induction false} CookieOrder()
    ensures StrictOrder(CookieLess)
  {
    forall a, b ensures !CookieLess(a, a) && (a == b || CookieLess(a, b) || CookieLess(b, a)) {
      LexTotal(a.name, b.name);
      LexTotal(a.domain, b.domain);
      LexTotal(a.path, b.path);
    }
    forall a, b, c | CookieLess(a, b) && CookieLess(b, c) ensures CookieLess(a, c) {
      CookieTransitive(a, b, c);
    }
  }

  lemma {:induction false} CookieTransitive(a: CookieId, b: CookieId, c: CookieId)
    requires CookieLess(a, b) && CookieLess(b, c)
    ensures CookieLess(a, c)
  {
    LexIsStrictOrder();
  }

  /** The entries of one origin, regardless of their order. */
  ghost function Shape(o: OriginState): (Text, multiset<Entry>) {
    (o.origin, multiset(o.localStorage))
  }

  ghost function Shapes(origins: seq<OriginState>): seq<(Text, multiset<Entry>)> {
    Map(o => Shape(o), origins)
  }

  lemma {:induction false} SelfCounts<T(!new), K(!new), E(!new)>(rule: Rule<T, K, T, E>, xs: seq<T>, ys: seq<T>)
    requires multiset(xs) == multiset(ys)
    ensures multiset(Verdicts(rule, xs)) == multiset(Verdicts(rule, ys))
  {
    var f := x => Verdict(rule, x);
    MapKeepsCounts(f, xs, ys);
    assert Map(f, xs) == Verdicts(rule, xs) && Map(f, ys) == Verdicts(rule, ys);
  }

  /** A canonical list whose items are kept as they are is a reordering of its input. */
  lemma {:induction false} KeepsItems<T(!new), K(!new), E(!new)>(less: (K, K) -> bool, rule: Rule<T, K, T, E>, xs: seq<T>)
    requires StrictOrder(less) && Canonical.Canonical(less, rule, xs).Ok?
    requires forall x :: x in xs && Verdict(rule, x).Some? ==> Verdict(rule, x).value.1 == x
    ensures multiset(Canonical.Canonical(less, rule, xs).value) == multiset(xs)
  {
    var ps := Describes(less, rule, xs);
    var us := Unwrap(Verdicts(rule, xs));
    var second := (p: (K, T)) => p.1;
    MapKeepsCounts(second, ps, us);
    assert Map(second, ps) == Values(ps);
    forall i | 0 <= i < |xs| ensures Map(second, us)[i] == xs[i] {
      assert Verdicts(rule, xs)[i] == Verdict(rule, xs[i]);
    }
    assert Map(second, us) == xs;
  }

  lemma {:induction false} StorageIgnoresOrder(a: seq<Entry>, b: seq<Entry>)
    requires multiset(a) == multiset(b)
    ensures CanonicalStorage(a).Ok? <==> CanonicalStorage(b).Ok?
    ensures CanonicalStorage(a).Ok? ==> CanonicalStorage(a) == CanonicalStorage(b)
  {
    LexIsStrictOrder();
    SelfCounts(EntryRule(), a, b);
    if CanonicalStorage(a).Ok? {
      IgnoresOrder(LexLess, EntryRule(), a, b);
    }
    if CanonicalStorage(b).Ok? {
      IgnoresOrder(LexLess, EntryRule(), b, a);
    }
  }

  /** What an origin contributes depends on its entries, not on their order. */
  lemma {:induction false} OriginByShape(v: Verifier, selected: seq<Text>, o: OriginState, p: OriginState)
    requires Shape(o) == Shape(p)
    ensures Verdict(OriginRule(v, selected), o) == Verdict(OriginRule(v, selected), p)
  {
    StorageIgnoresOrder(o.localStorage, p.localStorage);
  }

  lemma {:induction false} OriginsIgnoreOrder(v: Verifier, selected: seq<Text>, a: seq<OriginState>, b: seq<OriginState>)
    requires multiset(Shapes(a)) == multiset(Shapes(b)) && CanonicalOrigins(v, selected, a).Ok?
    ensures CanonicalOrigins(v, selected, b) == CanonicalOrigins(v, selected, a)
  {
    var rule := OriginRule(v, selected);
    var shape, verdict := o => Shape(o), o => Verdict(rule, o);
    forall x, y | x in a && y in b && shape(x) == shape(y) ensures verdict(x) == verdict(y) {
      OriginByShape(v, selected, x, y);
    }
    assert Map(shape, a) == Shapes(a) && Map(shape, b) == Shapes(b);
    CountsFollow(shape, verdict, a, b);
    assert Map(verdict, a) == Verdicts(rule, a) && Map(verdict, b) == Verdicts(rule, b);
    LexIsStrictOrder();
    IgnoresOrder(LexLess, rule, a, b);
  }

  /** Equal contents: the same cookies, and the same origins with the same entries, each in
      any order. */
  ghost predicate SameContents(a: StateImage, b: StateImage) {
    && a.manifestDigest == b.manifestDigest
    && multiset(a.cookies) == multiset(b.cookies)
    && multiset(Shapes(a.origins)) == multiset(Shapes(b.origins))
  }

  ghost predicate SameManifest(a: Manifest, b: Manifest) {
    multiset(a.origins) == multiset(b.origins) && multiset(a.domains) == multiset(b.domains) && a.bindings == b.bindings
  }

  lemma {:induction false} NamesIgnoreOrder(accept: Text -> bool, a: seq<Text>, b: seq<Text>)
    requires multiset(a) == multiset(b) && CanonicalNames(accept, a).Ok?
    ensures CanonicalNames(accept, b) == CanonicalNames(accept, a)
  {
    LexIsStrictOrder();
    SelfCounts(NameRule(accept), a, b);
    IgnoresOrder(LexLess, NameRule(accept), a, b);
  }

  /** A manifest's canonical form, hence its digest, does not depend on selection order. */
  lemma {:induction false} ManifestIgnoresOrder(v: Verifier, a: Manifest, b: Manifest)
    requires SameManifest(a, b) && CanonicalManifest(v, a).Ok?
    ensures CanonicalManifest(v, b) == CanonicalManifest(v, a)
  {
    ManifestParts(v, a);
    NamesIgnoreOrder(v.origin, a.origins, b.origins);
    NamesIgnoreOrder(v.domain, a.domains, b.domains);
    NamesExactly(v.origin, b.origins);
    NamesExactly(v.domain, b.domains);
  }

  lemma {:induction false} SameNames(a: seq<OriginState>, b: seq<OriginState>)
    requires multiset(Shapes(a)) == multiset(Shapes(b))
    ensures Elements(Names(a)) == Elements(Names(b))
  {
    NamesWithin(a, b);
    NamesWithin(b, a);
  }

  lemma {:induction false} NamesWithin(a: seq<OriginState>, b: seq<OriginState>)
    requires multiset(Shapes(a)) == multiset(Shapes(b))
    ensures forall n :: n in Names(a) ==> n in Names(b)
  {
    forall n | n in Names(a) ensures n in Names(b) {
      var i :| 0 <= i < |a| && Names(a)[i] == n;
      assert Shapes(a)[i] in multiset(Shapes(b));
      var j :| 0 <= j < |b| && Shapes(b)[j] == Shapes(a)[i];
      assert Names(b)[j] == n;
    }
  }

  /** Any reordering of cookies, origins, entries and manifest selections is accepted alike and
      has the same canonical image. */
  lemma {:induction false} ImageIgnoresOrder(v: Verifier, m: Manifest, n: Manifest, a: StateImage, b: StateImage)
    requires SameManifest(m, n) && SameContents(a, b) && CanonicalImage(v, m, a).Ok?
    ensures CanonicalImage(v, n, b) == CanonicalImage(v, m, a)
  {
    ManifestIgnoresOrder(v, m, n);
    var canonical := CanonicalManifest(v, m).value;
    OriginsIgnoreOrder(v, canonical.origins, a.origins, b.origins);
    SameNames(a.origins, b.origins);
    SelfCounts(CookieRule(v, canonical.domains), a.cookies, b.cookies);
    CookieOrder();
    IgnoresOrder(CookieLess, CookieRule(v, canonical.domains), a.cookies, b.cookies);
  }

  lemma {:induction false} StorageKeepsEntries(entries: seq<Entry>)
    requires CanonicalStorage(entries).Ok?
    ensures multiset(CanonicalStorage(entries).value) == multiset(entries)
    ensures CanonicalStorage(CanonicalStorage(entries).value) == CanonicalStorage(entries)
  {
    LexIsStrictOrder();
    KeepsItems(LexLess, EntryRule(), entries);
    Stable(LexLess, EntryRule(), entries);
  }

  lemma {:induction false} OriginFormIsStable(v: Verifier, selected: seq<Text>, o: OriginState)
    requires Verdict(OriginRule(v, selected), o).Some?
    ensures var form := Verdict(OriginRule(v, selected), o).value.1;
      Shape(form) == Shape(o) && Verdict(OriginRule(v, selected), form) == Verdict(OriginRule(v, selected), o)
  {
    StorageKeepsEntries(o.localStorage);
  }

  lemma {:induction false} OriginsKeepShapes(v: Verifier, selected: seq<Text>, origins: seq<OriginState>)
    requires CanonicalOrigins(v, selected, origins).Ok?
    ensures multiset(Shapes(CanonicalOrigins(v, selected, origins).value)) == multiset(Shapes(origins))
  {
    var rule := OriginRule(v, selected);
    LexIsStrictOrder();
    var ps := Describes(LexLess, rule, origins);
    var us := Unwrap(Verdicts(rule, origins));
    var shape := (p: (seq<int>, OriginState)) => Shape(p.1);
    MapKeepsCounts(shape, ps, us);
    forall i | 0 <= i < |origins| ensures shape(us[i]) == Shape(origins[i]) {
      assert Verdicts(rule, origins)[i] == Verdict(rule, origins[i]);
      OriginFormIsStable(v, selected, origins[i]);
    }
    assert Map(shape, us) == Shapes(origins);
    assert Map(shape, ps) == Shapes(Values(ps));
  }

  /** Canonicalising loses nothing and adds nothing. */
  lemma {:induction false} ImageKeepsContents(v: Verifier, m: Manifest, image: StateImage)
    requires CanonicalImage(v, m, image).Ok?
    ensures SameContents(CanonicalImage(v, m, image).value, image)
  {
    var canonical := CanonicalManifest(v, m).value;
    OriginsKeepShapes(v, canonical.origins, image.origins);
    CookieOrder();
    KeepsItems(CookieLess, CookieRule(v, canonical.domains), image.cookies);
  }

  lemma {:induction false} CanonicalManifestIsStable(v: Verifier, m: Manifest)
    requires CanonicalManifest(v, m).Ok?
    ensures SameManifest(m, CanonicalManifest(v, m).value)
  {
    LexIsStrictOrder();
    ManifestParts(v, m);
    KeepsItems(LexLess, NameRule(v.origin), m.origins);
    KeepsItems(LexLess, NameRule(v.domain), m.domains);
  }

  /** Canonicalising a canonical image, under the manifest or its canonical form, changes
      nothing. */
  lemma {:induction false} ImageIsStable(v: Verifier, m: Manifest, image: StateImage)
    requires CanonicalImage(v, m, image).Ok?
    ensures var out := CanonicalImage(v, m, image);
      && CanonicalImage(v, m, out.value) == out
      && CanonicalImage(v, CanonicalManifest(v, m).value, out.value) == out
  {
    var out := CanonicalImage(v, m, image).value;
    ImageKeepsContents(v, m, image);
    CanonicalManifestIsStable(v, m);
    ImageIgnoresOrder(v, m, m, image, out);
    ImageIgnoresOrder(v, m, CanonicalManifest(v, m).value, image, out);
  }

  /** Two accepted images have one canonical form exactly when they have the same contents. */
  lemma {:induction false} SameFormIffSameContents(v: Verifier, m: Manifest, a: StateImage, b: StateImage)
    requires CanonicalImage(v, m, a).Ok? && CanonicalImage(v, m, b).Ok?
    ensures CanonicalImage(v, m, a) == CanonicalImage(v, m, b) <==> SameContents(a, b)
  {
    ImageKeepsContents(v, m, a);
    ImageKeepsContents(v, m, b);
    if SameContents(a, b) {
      ImageIgnoresOrder(v, m, m, a, b);
    }
  }

  // The shape of the output.

  ghost predicate StorageOrdered(entries: seq<Entry>) {
    && (forall i :: 0 <= i < |entries| ==> DomString.DecodeCodeUnits(entries[i].key).Ok?)
    && forall i, j :: 0 <= i < j < |entries| ==>
         LexLess(DomString.DecodeCodeUnits(entries[i].key).value, DomString.DecodeCodeUnits(entries[j].key).value)
  }

  lemma {:induction false} StorageIsOrdered(entries: seq<Entry>)
    requires CanonicalStorage(entries).Ok?
    ensures StorageOrdered(CanonicalStorage(entries).value)
  {
    LexIsStrictOrder();
    var ps := Describes(LexLess, EntryRule(), entries);
    forall i | 0 <= i < |ps| ensures DomString.DecodeCodeUnits(ps[i].1.key) == Ok(Keys(ps)[i]) {
      var e :| e in entries && Verdict(EntryRule(), e) == Some(ps[i]);
    }
  }

  /** Strictly ascending by UTF-8 octets. */
  ghost predicate NamesOrdered(names: seq<Text>) {
    && (forall i :: 0 <= i < |names| ==> IsScalarText(names[i]))
    && forall i, j :: 0 <= i < j < |names| ==> LexLess(Utf8.Encode(names[i]), Utf8.Encode(names[j]))
  }

  lemma {:induction false} NamesAreOrdered(accept: Text -> bool, names: seq<Text>)
    requires CanonicalNames(accept, names).Ok?
    ensures NamesOrdered(CanonicalNames(accept, names).value)
  {
    LexIsStrictOrder();
    var ps := Describes(LexLess, NameRule(accept), names);
    forall i | 0 <= i < |ps| ensures IsScalarText(ps[i].1) && Utf8.Encode(ps[i].1) == Keys(ps)[i] {
      var n :| n in names && Verdict(NameRule(accept), n) == Some(ps[i]);
    }
  }

  lemma {:induction false} OriginsAreOrdered(v: Verifier, selected: seq<Text>, origins: seq<OriginState>)
    requires CanonicalOrigins(v, selected, origins).Ok?
    ensures var out := CanonicalOrigins(v, selected, origins).value;
      && NamesOrdered(Names(out))
      && forall i :: 0 <= i < |out| ==> StorageOrdered(out[i].localStorage)
  {
    LexIsStrictOrder();
    var rule := OriginRule(v, selected);
    var ps := Describes(LexLess, rule, origins);
    forall i | 0 <= i < |ps|
      ensures IsScalarText(ps[i].1.origin) && Utf8.Encode(ps[i].1.origin) == Keys(ps)[i]
      ensures StorageOrdered(ps[i].1.localStorage)
    {
      var o :| o in origins && Verdict(rule, o) == Some(ps[i]);
      StorageIsOrdered(o.localStorage);
    }
  }

  lemma {:induction false} EmptyElements<T>(xs: seq<T>)
    ensures |xs| == 0 <==> Elements(xs) == {}
  {
    if |xs| != 0 {
      assert xs[0] in Elements(xs);
    }
  }

  lemma {:induction false} LastNotBelow(a: seq<Text>, b: seq<Text>)
    requires NamesOrdered(a) && NamesOrdered(b) && Elements(a) == Elements(b) && |a| != 0 && |b| != 0
    ensures a[|a| - 1] == b[|b| - 1] || LexLess(Utf8.Encode(a[|a| - 1]), Utf8.Encode(b[|b| - 1]))
  {
    assert a[|a| - 1] in Elements(b);
    var j :| 0 <= j < |b| && b[j] == a[|a| - 1];
  }

  lemma {:induction false} LastsAgree(a: seq<Text>, b: seq<Text>)
    requires NamesOrdered(a) && NamesOrdered(b) && Elements(a) == Elements(b) && |a| != 0 && |b| != 0
    ensures a[|a| - 1] == b[|b| - 1]
  {
    LastNotBelow(a, b);
    LastNotBelow(b, a);
    LexIsStrictOrder();
  }

  /** Two lists of names in octet order with the same members are the same list. */
  lemma {:induction false} OrderedNamesUnique(a: seq<Text>, b: seq<Text>)
    requires NamesOrdered(a) && NamesOrdered(b) && Elements(a) == Elements(b)
    ensures a == b
    decreases |a|
  {
    EmptyElements(a);
    EmptyElements(b);
    if |a| != 0 {
      LastsAgree(a, b);
      WithoutLast(a);
      WithoutLast(b);
      OrderedNamesUnique(a[..|a| - 1], b[..|b| - 1]);
      assert a == a[..|a| - 1] + [a[|a| - 1]];
    }
  }

  lemma {:induction false} WithoutLast(a: seq<Text>)
    requires NamesOrdered(a) && |a| != 0
    ensures NamesOrdered(a[..|a| - 1])
    ensures Elements(a[..|a| - 1]) == Elements(a) - {a[|a| - 1]}
  {
    var front, last := a[..|a| - 1], a[|a| - 1];
    assert a == front + [last];
    LexTotal(Utf8.Encode(last), Utf8.Encode(last));
    assert forall i :: 0 <= i < |front| ==> LexLess(Utf8.Encode(a[i]), Utf8.Encode(last));
    assert last !in front;
  }

  ghost predicate CookiesOrdered(v: Verifier, selected: seq<Text>, cookies: seq<Cookie>) {
    && (forall i :: 0 <= i < |cookies| ==> CookieKey(v, selected, cookies[i]).Ok?)
    && forall i, j :: 0 <= i < j < |cookies| ==>
         CookieLess(CookieKey(v, selected, cookies[i]).value, CookieKey(v, selected, cookies[j]).value)
  }

  lemma {:induction false} CookiesAreOrdered(v: Verifier, selected: seq<Text>, cookies: seq<Cookie>)
    requires CanonicalCookies(v, selected, cookies).Ok?
    ensures CookiesOrdered(v, selected, CanonicalCookies(v, selected, cookies).value)
  {
    CookieOrder();
    var rule := CookieRule(v, selected);
    var ps := Describes(CookieLess, rule, cookies);
    forall i | 0 <= i < |ps| ensures CookieKey(v, selected, ps[i].1) == Ok(Keys(ps)[i]) {
      var c :| c in cookies && Verdict(rule, c) == Some(ps[i]);
    }
  }

  /** A canonical image lists exactly the selected origins, once each and in octet order, with
      every storage in code-unit order and the cookies in identity order. */
  lemma {:induction false} ImageIsOrdered(v: Verifier, m: Manifest, image: StateImage)
    requires CanonicalImage(v, m, image).Ok?
    ensures var out, canonical := CanonicalImage(v, m, image).value, CanonicalManifest(v, m).value;
      && Names(out.origins) == canonical.origins && NamesOrdered(canonical.origins)
      && (forall i :: 0 <= i < |out.origins| ==> StorageOrdered(out.origins[i].localStorage))
      && CookiesOrdered(v, canonical.domains, out.cookies)
  {
    var canonical := CanonicalManifest(v, m).value;
    ManifestParts(v, m);
    NamesAreOrdered(v.origin, m.origins);
    OriginsAreOrdered(v, canonical.origins, image.origins);
    OriginsKeepShapes(v, canonical.origins, image.origins);
    SameNames(CanonicalOrigins(v, canonical.origins, image.origins).value, image.origins);
    OrderedNamesUnique(Names(CanonicalOrigins(v, canonical.origins, image.origins).value), canonical.origins);
    CookiesAreOrdered(v, canonical.domains, image.cookies);
  }
}
