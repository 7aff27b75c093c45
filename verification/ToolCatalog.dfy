/** Bounded traversal of a paged tool catalog, and a catalog identity that does not depend on
    how the server cut and ordered its pages
    (src/avp_ref/mcp/gateway.py and src/avp_ref/mcp/models.py). */
module ToolCatalog {
  import opened Common
  import opened Ordering
  import opened Canonical

  datatype Tool = Tool(name: Text, contract: int)

  /** What parsing makes of one listed item. */
  datatype Item = Malformed | Skipped | Listed(tool: Tool)

  datatype Scope = Public | Private

  datatype Cursor = End | BadCursor | Next(cursor: Text)

  /** One answer; absent or mistyped cache fields are `None`. */
  datatype Page = Page(items: seq<Item>, ttl: Option<int>, scope: Option<Scope>, next: Cursor)

  /** The server is arbitrary: its answer may depend on how often it was asked, and the transport
      may raise instead. */
  type Server = (nat, Option<Text>) -> Option<Page>

  datatype Policy = Policy(maxPages: nat, maxTools: nat)

  datatype CatalogError = TransportRaised | BadPage | ScopeChanged | BadTool | TooManyTools | CursorLoop | TooManyPages | DuplicateTool

  /** What the traversal has gathered. `cursors` are those sent so far, in order. */
  datatype Progress = Progress(
    tools: seq<Tool>, ttls: seq<nat>, scope: Option<Scope>, cursors: seq<Text>, finished: bool)

  datatype Catalog = Catalog(tools: seq<Tool>, scope: Scope, minTtl: nat)

  const START: Progress := Progress([], [], None, [], false)

  function CursorOf(p: Progress): Option<Text> {
    if |p.cursors| == 0 then None else Some(p.cursors[|p.cursors| - 1])
  }

  function AddTools(policy: Policy, tools: seq<Tool>, items: seq<Item>): Result<seq<Tool>, CatalogError> {
    if |items| == 0 then Ok(tools)
    else
      match AddTools(policy, tools, items[..|items| - 1])
      case Err(e) => Err(e)
      case Ok(done) => AddTool(policy, done, items[|items| - 1])
  }

  /** The limit is checked after every item, also after one that was skipped. */
  function AddTool(policy: Policy, tools: seq<Tool>, item: Item): Result<seq<Tool>, CatalogError> {
    match item
    case Malformed => Err(BadTool)
    case Skipped => if |tools| > policy.maxTools then Err(TooManyTools) else Ok(tools)
    case Listed(tool) => if |tools| + 1 > policy.maxTools then Err(TooManyTools) else Ok(tools + [tool])
  }

  /** One request. */
  function Receive(policy: Policy, p: Progress, answer: Option<Page>): Result<Progress, CatalogError> {
    match answer
    case None => Err(TransportRaised)
    case Some(page) => Take(policy, p, page)
  }

  function ItemsOf(answer: Option<Page>): seq<Item> {
    if answer.Some? then answer.value.items else []
  }

  /** One page. */
  function Take(policy: Policy, p: Progress, page: Page): Result<Progress, CatalogError> {
    if page.ttl.None? || page.ttl.value < 0 || page.scope.None? then Err(BadPage)
    else if p.scope.Some? && p.scope != page.scope then Err(ScopeChanged)
    else
      match AddTools(policy, p.tools, page.items)
      case Err(e) => Err(e)
      case Ok(tools) =>
        var taken := Progress(tools, p.ttls + [page.ttl.value], page.scope, p.cursors, false);
        match page.next
        case End => Ok(taken.(finished := true))
        case BadCursor => Err(CursorLoop)
        case Next(c) => if |c| == 0 || c in p.cursors then Err(CursorLoop) else Ok(taken.(cursors := p.cursors + [c]))
  }

  /** The traversal after at most `n` requests. */
  function After(server: Server, policy: Policy, n: nat): Result<Progress, CatalogError> {
    if n == 0 then Ok(START)
    else
      match After(server, policy, n - 1)
      case Err(e) => Err(e)
      case Ok(p) => if p.finished then Ok(p) else Receive(policy, p, server(n - 1, CursorOf(p)))
  }

  function NameRule(): Rule<Tool, seq<int>, Tool, CatalogError> {
    Rule((t: Tool) => Ok(t.name), (t: Tool) => Ok(t), DuplicateTool)
  }

  /** `MCPToolCatalog`: tools sorted by name, no name twice. */
  function Sorted(tools: seq<Tool>): Result<seq<Tool>, CatalogError> {
    Canonical.Canonical(LexLess, NameRule(), tools)
  }

  function Least(ttls: seq<nat>): nat {
    if |ttls| == 0 then 0 else if |ttls| == 1 then ttls[0]
    else
      var rest := Least(ttls[..|ttls| - 1]);
      if ttls[|ttls| - 1] < rest then ttls[|ttls| - 1] else rest
  }

  function MakeCatalog(p: Progress): Result<Catalog, CatalogError> {
    match Sorted(p.tools)
    case Err(e) => Err(e)
    case Ok(tools) => Ok(Catalog(tools, if p.scope.Some? then p.scope.value else Private, Least(p.ttls)))
  }

  /** `_list_tools`. */
  function ListTools(server: Server, policy: Policy): Result<Catalog, CatalogError> {
    match After(server, policy, policy.maxPages)
    case Err(e) => Err(e)
    case Ok(p) => if p.finished then MakeCatalog(p) else Err(TooManyPages)
  }

  /** The identity: a digest of the tools alone. */
  function CatalogDigest(digest: seq<Tool> -> int, c: Catalog): int {
    digest(c.tools)
  }

  lemma {:induction false} AfterStays(server: Server, policy: Policy, n: nat, m: nat)
    requires n <= m && (After(server, policy, n).Err? || After(server, policy, n).value.finished)
    ensures After(server, policy, m) == After(server, policy, n)
    decreases m
  {
    if n < m {
      AfterStays(server, policy, n, m - 1);
    }
  }

  method AddPage(policy: Policy, tools: seq<Tool>, items: seq<Item>) returns (r: Result<seq<Tool>, CatalogError>)
    ensures r == AddTools(policy, tools, items)
  {
    var descriptors := tools;
    for i := 0 to |items|
      invariant AddTools(policy, tools, items[..i]) == Ok(descriptors)
    {
      assert items[..i + 1][..i] == items[..i];
      AddPrefix(policy, tools, items, i + 1);
      if items[i].Malformed? {
        return Err(BadTool);
      }
      if items[i].Listed? {
        descriptors := descriptors + [items[i].tool];
      }
      if |descriptors| > policy.maxTools {
        return Err(TooManyTools);
      }
    }
    assert items[..|items|] == items;
    r := Ok(descriptors);
  }

  lemma {:induction false} AddPrefix(policy: Policy, tools: seq<Tool>, items: seq<Item>, n: nat)
    requires n <= |items|
    ensures AddTools(policy, tools, items[..n]).Err? ==> AddTools(policy, tools, items) == AddTools(policy, tools, items[..n])
    decreases |items|
  {
    if n == |items| {
      assert items[..n] == items;
    } else {
      assert items[..|items| - 1][..n] == items[..n];
      AddPrefix(policy, tools, items[..|items| - 1], n);
    }
  }

  /** What one more answer means for the traversal. */
  lemma {:induction false} OneMore(server: Server, policy: Policy, n: nat, p: Progress)
    requires n < policy.maxPages && After(server, policy, n) == Ok(p) && !p.finished
    ensures var q := Receive(policy, p, server(n, CursorOf(p)));
      && After(server, policy, n + 1) == q
      && (q.Err? ==> ListTools(server, policy) == Err(q.error))
      && (q.Ok? && q.value.finished ==> ListTools(server, policy) == MakeCatalog(q.value))
  {
    if After(server, policy, n + 1).Err? || After(server, policy, n + 1).value.finished {
      AfterStays(server, policy, n + 1, policy.maxPages);
    }
  }

  /** The paging loop, with its local variables. */
  method ListAllTools(server: Server, policy: Policy) returns (r: Result<Catalog, CatalogError>)
    ensures r == ListTools(server, policy)
  {
    var tools: seq<Tool>, ttls: seq<nat>, scope: Option<Scope>, cursors: seq<Text> := [], [], None, [];
    var seen: set<Text>, cursor: Option<Text> := {}, None;
    for n := 0 to policy.maxPages
      invariant After(server, policy, n) == Ok(Progress(tools, ttls, scope, cursors, false))
      invariant cursor == CursorOf(Progress(tools, ttls, scope, cursors, false)) && seen == Elements(cursors)
    {
      OneMore(server, policy, n, Progress(tools, ttls, scope, cursors, false));
      var answer := server(n, cursor);
      if answer.None? {
        return Err(TransportRaised);
      }
      var page := answer.value;
      if page.ttl.None? || page.ttl.value < 0 || page.scope.None? {
        return Err(BadPage);
      }
      if scope.Some? && scope != page.scope {
        return Err(ScopeChanged);
      }
      var added := AddPage(policy, tools, page.items);
      if added.Err? {
        return Err(added.error);
      }
      tools, ttls, scope := added.value, ttls + [page.ttl.value], page.scope;
      match page.next {
        case End =>
            r := MakeCatalog(Progress(tools, ttls, scope, cursors, true));
          return;
        case BadCursor =>
            return Err(CursorLoop);
        case Next(c) =>
          if |c| == 0 || c in seen {
                return Err(CursorLoop);
          }
          seen := seen + {c};
          cursors := cursors + [c];
          cursor := Some(c);
      }
    }
    r := Err(TooManyPages);
  }

  // What a traversal guarantees.

  function ToolNames(tools: seq<Tool>): (names: seq<seq<int>>)
    ensures |names| == |tools| && forall i :: 0 <= i < |tools| ==> names[i] == tools[i].name
  {
    seq(|tools|, i requires 0 <= i < |tools| => tools[i].name)
  }

  function ToolsOf(items: seq<Item>): seq<Tool> {
    if |items| == 0 then []
    else ToolsOf(items[..|items| - 1]) + (if items[|items| - 1].Listed? then [items[|items| - 1].tool] else [])
  }

  lemma {:induction false} AddedTools(policy: Policy, tools: seq<Tool>, items: seq<Item>)
    ensures AddTools(policy, tools, items).Ok? ==> AddTools(policy, tools, items).value == tools + ToolsOf(items)
    ensures AddTools(policy, tools, items).Ok? && |tools| <= policy.maxTools ==>
      |AddTools(policy, tools, items).value| <= policy.maxTools
  {
    if |items| != 0 {
      AddedTools(policy, tools, items[..|items| - 1]);
    }
  }

  /** How many requests a traversal of at most `n` has made. */
  function Requests(server: Server, policy: Policy, n: nat): nat {
    if n == 0 then 0
    else
      var before := Requests(server, policy, n - 1);
      if After(server, policy, n - 1).Ok? && !After(server, policy, n - 1).value.finished then before + 1 else before
  }

  /** The tools of the first `k` answers, in the order received. */
  function Received(server: Server, policy: Policy, k: nat): seq<Tool> {
    if k == 0 then []
    else
      match After(server, policy, k - 1)
      case Err(_) => Received(server, policy, k - 1)
      case Ok(p) =>
        Received(server, policy, k - 1) + (if p.finished then [] else ToolsOf(ItemsOf(server(k - 1, CursorOf(p)))))
  }

  /** At every moment: the tools are those received, within the limit; no cursor was sent twice
      and none is empty; and there is one cache lifetime per answer. */
  lemma {:induction false} TraversalIsBounded(server: Server, policy: Policy, n: nat)
    requires After(server, policy, n).Ok?
    ensures var p := After(server, policy, n).value;
      && p.tools == Received(server, policy, n) && |p.tools| <= policy.maxTools
      && Distinct(p.cursors) && (forall c :: c in p.cursors ==> |c| > 0)
      && |p.ttls| == Requests(server, policy, n) && |p.cursors| <= n && Requests(server, policy, n) <= n
      && (|p.ttls| > 0 ==> p.scope.Some?)
  {
    if n != 0 {
      TraversalIsBounded(server, policy, n - 1);
      var p := After(server, policy, n - 1).value;
      if !p.finished {
        AddedTools(policy, p.tools, ItemsOf(server(n - 1, CursorOf(p))));
        var q := After(server, policy, n).value;
        if q.cursors != p.cursors {
          DistinctExtend(p.cursors, q.cursors[|p.cursors|]);
        }
      } else {
        assert Received(server, policy, n) == Received(server, policy, n - 1);
      }
    }
  }

  /** A catalog holds exactly the tools received, strictly sorted by name, from at most the
      permitted number of requests. */
  lemma {:induction false} CatalogHoldsWhatWasListed(server: Server, policy: Policy)
    requires ListTools(server, policy).Ok?
    ensures var tools := ListTools(server, policy).value.tools;
      && multiset(tools) == multiset(Received(server, policy, policy.maxPages)) && |tools| <= policy.maxTools
      && StrictlySorted(LexLess, ToolNames(tools))
      && Requests(server, policy, policy.maxPages) <= policy.maxPages
  {
    TraversalIsBounded(server, policy, policy.maxPages);
    SortedHolds(After(server, policy, policy.maxPages).value.tools);
  }

  lemma {:induction false} SortedHolds(tools: seq<Tool>)
    requires Sorted(tools).Ok?
    ensures multiset(Sorted(tools).value) == multiset(tools)
    ensures StrictlySorted(LexLess, ToolNames(Sorted(tools).value))
  {
    LexIsStrictOrder();
    var ps := Describes(LexLess, NameRule(), tools);
    var us := Unwrap(Verdicts(NameRule(), tools));
    var second := (p: (seq<int>, Tool)) => p.1;
    MapKeepsCounts(second, ps, us);
    assert Map(second, ps) == Values(ps);
    forall i | 0 <= i < |tools| ensures us[i] == (tools[i].name, tools[i]) {
      assert Verdicts(NameRule(), tools)[i] == Verdict(NameRule(), tools[i]);
    }
    assert Map(second, us) == tools;
    forall i | 0 <= i < |ps| ensures ps[i].0 == ps[i].1.name {
      var t :| t in tools && Verdict(NameRule(), t) == Some(ps[i]);
    }
    assert Keys(ps) == ToolNames(Values(ps));
  }

  lemma {:induction false} SortedIgnoresOrder(a: seq<Tool>, b: seq<Tool>)
    requires multiset(a) == multiset(b) && Sorted(a).Ok?
    ensures Sorted(b) == Sorted(a)
  {
    LexIsStrictOrder();
    var verdict := t => Verdict(NameRule(), t);
    MapKeepsCounts(verdict, a, b);
    assert Map(verdict, a) == Verdicts(NameRule(), a) && Map(verdict, b) == Verdicts(NameRule(), b);
    IgnoresOrder(LexLess, NameRule(), a, b);
  }

  /** Two traversals that received the same tools, however split into pages, ordered, cached or
      scoped, have the same catalog identity; with a digest that distinguishes catalogs, only
      such traversals do. */
  lemma {:induction false} IdentityIgnoresPaging(digest: seq<Tool> -> int, a: Server, pa: Policy, b: Server, pb: Policy)
    requires ListTools(a, pa).Ok? && ListTools(b, pb).Ok?
    ensures multiset(Received(a, pa, pa.maxPages)) == multiset(Received(b, pb, pb.maxPages)) ==>
      CatalogDigest(digest, ListTools(a, pa).value) == CatalogDigest(digest, ListTools(b, pb).value)
    ensures (forall x, y :: digest(x) == digest(y) ==> x == y) ==>
      (CatalogDigest(digest, ListTools(a, pa).value) == CatalogDigest(digest, ListTools(b, pb).value) <==>
       multiset(Received(a, pa, pa.maxPages)) == multiset(Received(b, pb, pb.maxPages)))
  {
    CatalogHoldsWhatWasListed(a, pa);
    CatalogHoldsWhatWasListed(b, pb);
    TraversalIsBounded(a, pa, pa.maxPages);
    TraversalIsBounded(b, pb, pb.maxPages);
    if multiset(Received(a, pa, pa.maxPages)) == multiset(Received(b, pb, pb.maxPages)) {
      SortedIgnoresOrder(Received(a, pa, pa.maxPages), Received(b, pb, pb.maxPages));
    }
  }

  lemma {:induction false} LeastIsLeast(ttls: seq<nat>)
    ensures forall i :: 0 <= i < |ttls| ==> Least(ttls) <= ttls[i]
    ensures |ttls| > 0 ==> Least(ttls) in ttls
  {
    if |ttls| > 1 {
      LeastIsLeast(ttls[..|ttls| - 1]);
      assert forall i :: 0 <= i < |ttls| - 1 ==> ttls[..|ttls| - 1][i] == ttls[i];
    }
  }
}
