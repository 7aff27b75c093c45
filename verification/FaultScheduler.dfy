/** The in-memory environment session: permission check, scheduled tool faults, the
    authoritative world behind them, and snapshots (src/avp_ref/environment/in_memory.py).

    The world itself is arbitrary: some state, and some effect of each tool on it. */
module FaultScheduler {
  import opened Common

  type Name = Text

  /** A fault rule in the session's dictionary; `seen` counts calls of its tool. */
  datatype Rule = Rule(id: Name, tool: Name, occurrence: nat, seen: nat)

  datatype Reply<W> = Reply(state: W, time: nat, raised: bool, result: int)

  datatype World<!W> = World(call: (W, nat, Name, int) -> Reply<W>, digest: W -> int)

  datatype SnapshotRef = SnapshotRef(id: nat, handle: Name, digest: int, time: nat)

  datatype Session<W> = Session(
    handle: Name, state: W, time: nat, initial: W, initialDigest: int, allowed: map<Name, set<Name>>,
    snapshots: seq<(SnapshotRef, W)>, rules: seq<Rule>)

  datatype Op =
    | Execute(actor: Name, tool: Name, arguments: int)
    | Inject(id: Name, kindSupported: bool, target: Name, occurrence: nat)
    | Clear(owner: Name, id: Name)
    | Snapshot
    | Restore(ref: SnapshotRef)
    | Reset

  datatype Outcome =
    | Denied | Faulted(id: Name) | ToolRaised | Returned(result: int)
    | Unsupported | NotProvisioned | Injected | ForeignFault | Cleared
    | Took(ref: SnapshotRef) | SnapshotUnknown | Restored(equivalent: bool) | WasReset(initial: bool)

  // The scheduler.

  /** `_apply_fault_if_due`: rules of the tool count the call in insertion order until one
      is due; that one is removed and raises, and rules after it do not see the call. */
  function Scan(rules: seq<Rule>, tool: Name): (seq<Rule>, Option<Name>) {
    if |rules| == 0 then ([], None)
    else if rules[0].tool != tool then
      var (rest, fired) := Scan(rules[1..], tool);
      ([rules[0]] + rest, fired)
    else
      var counted := rules[0].(seen := rules[0].seen + 1);
      if counted.seen == counted.occurrence then (rules[1..], Some(counted.id))
      else
        var (rest, fired) := Scan(rules[1..], tool);
        ([counted] + rest, fired)
  }

  predicate Permitted<W>(s: Session<W>, actor: Name, tool: Name) {
    actor in s.allowed && tool in s.allowed[actor]
  }

  predicate Provisioned<W>(s: Session<W>, tool: Name) {
    exists actor :: actor in s.allowed && tool in s.allowed[actor]
  }

  function StepExecute<W>(world: World<W>, s: Session<W>, actor: Name, tool: Name, arguments: int): (Session<W>, Outcome) {
    if !Permitted(s, actor, tool) then (s, Denied)
    else
      var (rules, fired) := Scan(s.rules, tool);
      var counted := s.(rules := rules);
      if fired.Some? then (counted, Faulted(fired.value))
      else
        var r := world.call(s.state, s.time, tool, arguments);
        (counted.(state := r.state, time := r.time), if r.raised then ToolRaised else Returned(r.result))
  }

  /** Dictionary assignment: a repeated key would keep its place. */
  function Put(rules: seq<Rule>, r: Rule): seq<Rule> {
    if |rules| == 0 then [r] else if rules[0].id == r.id then [r] + rules[1..] else [rules[0]] + Put(rules[1..], r)
  }

  function Drop(rules: seq<Rule>, id: Name): seq<Rule> {
    if |rules| == 0 then [] else if rules[0].id == id then rules[1..] else [rules[0]] + Drop(rules[1..], id)
  }

  function Known<W>(s: Session<W>, ref: SnapshotRef): bool {
    ref.handle == s.handle && 1 <= ref.id <= |s.snapshots| && s.snapshots[ref.id - 1].0 == ref
  }

  function Step<W>(world: World<W>, s: Session<W>, op: Op): (Session<W>, Outcome) {
    match op
    case Execute(actor, tool, arguments) => StepExecute(world, s, actor, tool, arguments)
    case Inject(id, kindSupported, target, occurrence) =>
      if !kindSupported then (s, Unsupported)
      else if !Provisioned(s, target) then (s, NotProvisioned)
      else (s.(rules := Put(s.rules, Rule(id, target, occurrence, 0))), Injected)
    case Clear(owner, id) =>
      if owner != s.handle then (s, ForeignFault) else (s.(rules := Drop(s.rules, id)), Cleared)
    case Snapshot =>
      var ref := SnapshotRef(|s.snapshots| + 1, s.handle, world.digest(s.state), s.time);
      (s.(snapshots := s.snapshots + [(ref, s.state)]), Took(ref))
    case Restore(ref) =>
      if !Known(s, ref) then (s, SnapshotUnknown)
      else
        var stored := s.snapshots[ref.id - 1].1;
        (s.(state := stored, time := ref.time), Restored(world.digest(stored) == ref.digest))
    case Reset =>
      (s.(state := s.initial, time := 0, rules := []), WasReset(world.digest(s.initial) == s.initialDigest))
  }

  function Run<W>(world: World<W>, s: Session<W>, ops: seq<Op>): Session<W>
    decreases |ops|
  {
    if |ops| == 0 then s else Run(world, Step(world, s, ops[0]).0, ops[1..])
  }

  // Rules.

  /** Rules are pending: counted, but not due yet, and one per identifier. */
  ghost predicate RulesOk(rules: seq<Rule>) {
    && (forall i :: 0 <= i < |rules| ==> rules[i].seen < rules[i].occurrence)
    && (forall i, j :: 0 <= i < j < |rules| ==> rules[i].id != rules[j].id)
  }

  predicate Listed(rules: seq<Rule>, id: Name) {
    exists i :: 0 <= i < |rules| && rules[i].id == id
  }

  lemma {:induction false} OkTail(rules: seq<Rule>)
    requires |rules| != 0
    ensures RulesOk(rules) <==> rules[0].seen < rules[0].occurrence && RulesOk(rules[1..]) && !Listed(rules[1..], rules[0].id)
    ensures forall id :: Listed(rules, id) <==> id == rules[0].id || Listed(rules[1..], id)
  {
    assert rules == [rules[0]] + rules[1..];
    forall id ensures Listed(rules, id) <==> id == rules[0].id || Listed(rules[1..], id) {
      if i :| 0 <= i < |rules| && rules[i].id == id {
        assert i > 0 ==> rules[1..][i - 1].id == id;
      }
      if i :| 0 <= i < |rules[1..]| && rules[1..][i].id == id {
        assert rules[i + 1].id == id;
      }
    }
    if RulesOk(rules[1..]) && !Listed(rules[1..], rules[0].id) && rules[0].seen < rules[0].occurrence {
      forall i, j | 0 <= i < j < |rules| ensures rules[i].id != rules[j].id {
        assert rules[j] == rules[1..][j - 1];
      }
    }
  }

  lemma {:induction false} OkCons(r: Rule, rest: seq<Rule>)
    ensures RulesOk([r] + rest) <==> r.seen < r.occurrence && RulesOk(rest) && !Listed(rest, r.id)
    ensures forall id :: Listed([r] + rest, id) <==> id == r.id || Listed(rest, id)
  {
    assert ([r] + rest)[1..] == rest;
    OkTail([r] + rest);
  }

  /** Counting keeps every rule pending, removes at most the one that fires, and adds none. */
  lemma {:induction false} ScanKeepsRules(rules: seq<Rule>, tool: Name)
    requires RulesOk(rules)
    ensures RulesOk(Scan(rules, tool).0)
    ensures var (n, fired) := Scan(rules, tool);
      && |n| == |rules| - (if fired.Some? then 1 else 0)
      && (fired.Some? ==> Listed(rules, fired.value))
      && forall id :: Listed(n, id) <==> Listed(rules, id) && fired != Some(id)
    decreases |rules|
  {
    if |rules| != 0 {
      OkTail(rules);
      ScanKeepsRules(rules[1..], tool);
      var (rest, fired) := Scan(rules[1..], tool);
      OkCons(rules[0], rest);
      OkCons(rules[0].(seen := rules[0].seen + 1), rest);
    }
  }

  lemma {:induction false} PutKeepsRules(rules: seq<Rule>, r: Rule)
    requires RulesOk(rules) && r.seen < r.occurrence
    ensures RulesOk(Put(rules, r)) && forall id :: Listed(Put(rules, r), id) <==> id == r.id || Listed(rules, id)
    decreases |rules|
  {
    if |rules| == 0 {
      OkCons(r, []);
    } else {
      OkTail(rules);
      if rules[0].id == r.id {
        OkCons(r, rules[1..]);
      } else {
        PutKeepsRules(rules[1..], r);
        OkCons(rules[0], Put(rules[1..], r));
      }
    }
  }

  lemma {:induction false} DropKeepsRules(rules: seq<Rule>, id: Name)
    requires RulesOk(rules)
    ensures RulesOk(Drop(rules, id)) && forall x :: Listed(Drop(rules, id), x) <==> x != id && Listed(rules, x)
    decreases |rules|
  {
    if |rules| != 0 {
      OkTail(rules);
      if rules[0].id != id {
        DropKeepsRules(rules[1..], id);
        OkCons(rules[0], Drop(rules[1..], id));
      }
    }
  }

  /** What `FaultSpec` demands of an injected fault. */
  predicate Admissible(op: Op) {
    op.Inject? ==> op.occurrence >= 1
  }

  lemma {:induction false} StepKeepsRules<W>(world: World<W>, s: Session<W>, op: Op)
    requires RulesOk(s.rules) && Admissible(op)
    ensures RulesOk(Step(world, s, op).0.rules)
    ensures Step(world, s, op).1.Faulted? ==>
      Listed(s.rules, Step(world, s, op).1.id) && !Listed(Step(world, s, op).0.rules, Step(world, s, op).1.id)
      && |Step(world, s, op).0.rules| == |s.rules| - 1
  {
    match op {
      case Execute(_, tool, _) => ScanKeepsRules(s.rules, tool);
      case Inject(id, _, target, occurrence) => PutKeepsRules(s.rules, Rule(id, target, occurrence, 0));
      case Clear(_, id) => DropKeepsRules(s.rules, id);
      case _ =>
    }
  }

  /** On every run every stored rule has seen fewer calls than its occurrence. */
  lemma {:induction false} RunKeepsRules<W>(world: World<W>, s: Session<W>, ops: seq<Op>)
    requires RulesOk(s.rules) && forall i :: 0 <= i < |ops| ==> Admissible(ops[i])
    ensures RulesOk(Run(world, s, ops).rules)
    decreases |ops|
  {
    if |ops| != 0 {
      StepKeepsRules(world, s, ops[0]);
      RunKeepsRules(world, Step(world, s, ops[0]).0, ops[1..]);
    }
  }

  /** The calls of a run that reach the world: permitted, and not faulted. */
  function Passed<W>(world: World<W>, s: Session<W>, ops: seq<Op>): seq<(Name, int)>
    decreases |ops|
  {
    if |ops| == 0 then []
    else
      var (n, r) := Step(world, s, ops[0]);
      (if ops[0].Execute? && !r.Denied? && !r.Faulted? then [(ops[0].tool, ops[0].arguments)] else [])
      + Passed(world, n, ops[1..])
  }

  /** The world on its own, given these calls. */
  function Replay<W>(world: World<W>, state: W, time: nat, calls: seq<(Name, int)>): (W, nat)
    decreases |calls|
  {
    if |calls| == 0 then (state, time)
    else
      var r := world.call(state, time, calls[0].0, calls[0].1);
      Replay(world, r.state, r.time, calls[1..])
  }

  lemma {:induction false} CallReachesWorld<W>(world: World<W>, s: Session<W>, op: Op)
    requires !op.Reset? && !op.Restore?
    ensures var (n, r) := Step(world, s, op);
      (n.state, n.time) ==
        if op.Execute? && !r.Denied? && !r.Faulted? then
          var w := world.call(s.state, s.time, op.tool, op.arguments); (w.state, w.time)
        else (s.state, s.time)
  {
  }

  /** Between resets and restores the world sees exactly the calls that were neither denied nor
      faulted, in order: a denied or faulted call leaves its state and clock alone. */
  lemma {:induction false} FaultsStayOutsideTheWorld<W>(world: World<W>, s: Session<W>, ops: seq<Op>)
    requires forall i :: 0 <= i < |ops| ==> !ops[i].Reset? && !ops[i].Restore?
    ensures (Run(world, s, ops).state, Run(world, s, ops).time) == Replay(world, s.state, s.time, Passed(world, s, ops))
    decreases |ops|
  {
    if |ops| != 0 {
      var n := Step(world, s, ops[0]).0;
      CallReachesWorld(world, s, ops[0]);
      FaultsStayOutsideTheWorld(world, n, ops[1..]);
      if Step(world, s, ops[0]).1.Denied? || Step(world, s, ops[0]).1.Faulted? || !ops[0].Execute? {
        assert Passed(world, s, ops) == Passed(world, n, ops[1..]);
      } else {
        assert Passed(world, s, ops)[1..] == Passed(world, n, ops[1..]);
      }
    }
  }

  // How often a rule fires.

  function Count(b: bool): nat {
    if b then 1 else 0
  }

  /** How often a fault with this identifier fires in a run. */
  function Firings<W>(world: World<W>, s: Session<W>, ops: seq<Op>, id: Name): nat
    decreases |ops|
  {
    if |ops| == 0 then 0
    else
      var (n, r) := Step(world, s, ops[0]);
      Count(r == Faulted(id)) + Firings(world, n, ops[1..], id)
  }

  /** How often a fault is injected under this identifier. */
  function Injections<W>(world: World<W>, s: Session<W>, ops: seq<Op>, id: Name): nat
    decreases |ops|
  {
    if |ops| == 0 then 0
    else
      var (n, r) := Step(world, s, ops[0]);
      Count(r == Injected && ops[0].Inject? && ops[0].id == id) + Injections(world, n, ops[1..], id)
  }

  lemma {:induction false} StepFires<W>(world: World<W>, s: Session<W>, op: Op, id: Name)
    requires RulesOk(s.rules) && Admissible(op)
    ensures var (n, r) := Step(world, s, op);
      Count(r == Faulted(id)) + Count(Listed(n.rules, id)) <=
        Count(Listed(s.rules, id)) + Count(r == Injected && op.Inject? && op.id == id)
  {
    match op {
      case Execute(_, tool, _) => ScanKeepsRules(s.rules, tool);
      case Inject(x, _, target, occurrence) => PutKeepsRules(s.rules, Rule(x, target, occurrence, 0));
      case Clear(_, x) => DropKeepsRules(s.rules, x);
      case _ =>
    }
  }

  /** On every run a fault fires at most once for each time it was injected, counting one that
      was scheduled before; with fresh identifiers, at most once. */
  lemma {:induction false} FiresAtMostOncePerInjection<W>(world: World<W>, s: Session<W>, ops: seq<Op>, id: Name)
    requires RulesOk(s.rules) && forall i :: 0 <= i < |ops| ==> Admissible(ops[i])
    ensures Firings(world, s, ops, id) + Count(Listed(Run(world, s, ops).rules, id)) <=
      Count(Listed(s.rules, id)) + Injections(world, s, ops, id)
    decreases |ops|
  {
    if |ops| != 0 {
      StepKeepsRules(world, s, ops[0]);
      StepFires(world, s, ops[0], id);
      FiresAtMostOncePerInjection(world, Step(world, s, ops[0]).0, ops[1..], id);
    }
  }

  lemma {:induction false} FreshMeansOne<W>(world: World<W>, s: Session<W>, ops: seq<Op>, id: Name)
    requires forall i, j :: 0 <= i < j < |ops| && ops[i].Inject? && ops[j].Inject? ==> ops[i].id != ops[j].id
    ensures Injections(world, s, ops, id) <= 1
    ensures (forall i :: 0 <= i < |ops| && ops[i].Inject? ==> ops[i].id != id) ==> Injections(world, s, ops, id) == 0
    decreases |ops|
  {
    if |ops| != 0 {
      assert forall i :: 0 <= i < |ops[1..]| ==> ops[1..][i] == ops[i + 1];
      FreshMeansOne(world, Step(world, s, ops[0]).0, ops[1..], id);
    }
  }

  /** With fresh identifiers no fault fires twice on any run of a new session. */
  lemma {:induction false} FiresAtMostOnce<W>(
    world: World<W>, handle: Name, initial: W, allowed: map<Name, set<Name>>, ops: seq<Op>, id: Name)
    requires forall i :: 0 <= i < |ops| ==> Admissible(ops[i])
    requires forall i, j :: 0 <= i < j < |ops| && ops[i].Inject? && ops[j].Inject? ==> ops[i].id != ops[j].id
    ensures Firings(world, NewSession(world, handle, initial, allowed), ops, id) <= 1
  {
    FiresAtMostOncePerInjection(world, NewSession(world, handle, initial, allowed), ops, id);
    FreshMeansOne(world, NewSession(world, handle, initial, allowed), ops, id);
  }

  // When a rule fires.

  function Find(rules: seq<Rule>, id: Name): Option<Rule> {
    if |rules| == 0 then None else if rules[0].id == id then Some(rules[0]) else Find(rules[1..], id)
  }

  /** How many rules for the tool stand before this one. */
  function Ahead(rules: seq<Rule>, id: Name, tool: Name): nat {
    if |rules| == 0 || rules[0].id == id then 0
    else (if rules[0].tool == tool then 1 else 0) + Ahead(rules[1..], id, tool)
  }

  lemma {:induction false} FoundIsListed(rules: seq<Rule>, id: Name)
    ensures Find(rules, id).Some? <==> Listed(rules, id)
    ensures Find(rules, id).Some? ==> Find(rules, id).value.id == id
    decreases |rules|
  {
    if |rules| != 0 {
      OkTail(rules);
      FoundIsListed(rules[1..], id);
    }
  }

  /** A call of the rule's tool either fires it, or counts for it, or fires a rule ahead of it. */
  lemma {:induction false} ScanTracks(rules: seq<Rule>, id: Name, tool: Name)
    requires RulesOk(rules) && Find(rules, id).Some? && Find(rules, id).value.tool == tool
    ensures var (n, fired) := Scan(rules, tool);
      var r, was, now := Find(rules, id).value, Ahead(rules, id, tool), Ahead(n, id, tool);
      if fired == Some(id) then r.seen + 1 == r.occurrence && Find(n, id).None?
      else
        || (Find(n, id) == Some(r.(seen := r.seen + 1)) && now == was && r.seen + 1 < r.occurrence)
        || (Find(n, id) == Some(r) && now == was - 1 && fired.Some?)
    decreases |rules|
  {
    OkTail(rules);
    if rules[0].id == id {
      FoundIsListed(rules[1..], id);
      ScanKeepsRules(rules[1..], tool);
    } else {
      ScanTracks(rules[1..], id, tool);
      FoundIsListed(rules[1..], id);
    }
  }

  lemma {:induction false} ScanOther(rules: seq<Rule>, id: Name, tool: Name, other: Name)
    requires RulesOk(rules) && Find(rules, id).Some? && Find(rules, id).value.tool == tool && other != tool
    ensures Scan(rules, other).1 != Some(id)
    ensures Find(Scan(rules, other).0, id) == Find(rules, id) && Ahead(Scan(rules, other).0, id, tool) == Ahead(rules, id, tool)
    decreases |rules|
  {
    OkTail(rules);
    if rules[0].id != id {
      ScanOther(rules[1..], id, tool, other);
    } else {
      ScanKeepsRules(rules[1..], other);
    }
  }

  lemma {:induction false} PutOther(rules: seq<Rule>, r: Rule, id: Name, tool: Name)
    requires Find(rules, id).Some? && r.id != id && !Listed(rules, r.id)
    ensures Find(Put(rules, r), id) == Find(rules, id) && Ahead(Put(rules, r), id, tool) == Ahead(rules, id, tool)
    decreases |rules|
  {
    OkTail(rules);
    if rules[0].id != id {
      PutOther(rules[1..], r, id, tool);
    }
  }

  lemma {:induction false} DropOther(rules: seq<Rule>, x: Name, id: Name, tool: Name)
    requires Find(rules, id).Some? && x != id
    ensures Find(Drop(rules, x), id) == Find(rules, id) && Ahead(Drop(rules, x), id, tool) <= Ahead(rules, id, tool)
    decreases |rules|
  {
    if rules[0].id != id && rules[0].id != x {
      DropOther(rules[1..], x, id, tool);
    }
  }

  /** What leaves a scheduled rule alone: no reset, not clearing it, and fresh identifiers for
      every later fault. */
  ghost predicate LeavesAlone<W>(world: World<W>, s: Session<W>, ops: seq<Op>, id: Name)
    decreases |ops|
  {
    |ops| != 0 ==>
      && !ops[0].Reset? && !(ops[0].Clear? && ops[0].id == id)
      && (ops[0].Inject? ==> ops[0].occurrence >= 1 && ops[0].id != id && !Listed(s.rules, ops[0].id))
      && LeavesAlone(world, Step(world, s, ops[0]).0, ops[1..], id)
  }

  /** The permitted calls of a tool in a run. */
  function Calls<W>(world: World<W>, s: Session<W>, ops: seq<Op>, tool: Name): nat
    decreases |ops|
  {
    if |ops| == 0 then 0
    else
      (if ops[0].Execute? && ops[0].tool == tool && Permitted(s, ops[0].actor, tool) then 1 else 0)
      + Calls(world, Step(world, s, ops[0]).0, ops[1..], tool)
  }

  /** Whether the rule fires in the run. */
  predicate Fires<W>(world: World<W>, s: Session<W>, ops: seq<Op>, id: Name)
    decreases |ops|
  {
    |ops| != 0 && (Step(world, s, ops[0]).1 == Faulted(id) || Fires(world, Step(world, s, ops[0]).0, ops[1..], id))
  }

  /** One step towards firing: the rule's remaining calls plus the rules ahead of it shrink by
      exactly one with every permitted call of its tool, and never grow. */
  lemma {:induction false} StepTracks<W>(world: World<W>, s: Session<W>, op: Op, id: Name, tool: Name)
    requires RulesOk(s.rules) && Find(s.rules, id).Some? && Find(s.rules, id).value.tool == tool
    requires LeavesAlone(world, s, [op], id)
    ensures var (n, r) := Step(world, s, op);
      var was, ahead, calls := Find(s.rules, id).value, Ahead(s.rules, id, tool), Calls(world, s, [op], tool);
      && RulesOk(n.rules)
      && if r == Faulted(id) then calls == 1 && was.seen + 1 == was.occurrence && Find(n.rules, id).None?
         else
           && Find(n.rules, id).Some? && var now := Find(n.rules, id).value;
             && now.tool == tool && now.occurrence == was.occurrence && was.seen <= now.seen <= was.seen + calls
             && (now.occurrence - now.seen) + Ahead(n.rules, id, tool) <= (was.occurrence - was.seen) + ahead - calls
  {
    assert [op][1..] == [];
    StepKeepsRules(world, s, op);
    match op {
      case Execute(actor, called, _) =>
        if called == tool {
          ScanTracks(s.rules, id, tool);
        } else {
          ScanOther(s.rules, id, tool, called);
        }
      case Inject(x, _, target, occurrence) => PutOther(s.rules, Rule(x, target, occurrence, 0), id, tool);
      case Clear(_, x) =>
        if x != id {
          DropOther(s.rules, x, id, tool);
        }
      case _ =>
    }
  }

  lemma {:induction false} FirstStepAlone<W>(world: World<W>, s: Session<W>, ops: seq<Op>, id: Name, tool: Name)
    requires |ops| != 0 && LeavesAlone(world, s, ops, id)
    ensures LeavesAlone(world, s, [ops[0]], id)
    ensures Calls(world, s, ops, tool) == Calls(world, s, [ops[0]], tool) + Calls(world, Step(world, s, ops[0]).0, ops[1..], tool)
  {
    assert [ops[0]][1..] == [];
  }

  /** While a rule has not fired, the permitted calls of its tool stay below what it still
      waits for plus the rules ahead of it: it cannot be put off longer. */
  lemma {:induction false} NotFiredMeansEarly<W>(world: World<W>, s: Session<W>, ops: seq<Op>, id: Name, tool: Name)
    requires RulesOk(s.rules) && Find(s.rules, id).Some? && Find(s.rules, id).value.tool == tool
    requires LeavesAlone(world, s, ops, id) && !Fires(world, s, ops, id)
    ensures var r := Find(s.rules, id).value;
      Calls(world, s, ops, tool) < (r.occurrence - r.seen) + Ahead(s.rules, id, tool)
    decreases |ops|
  {
    FindOk(s.rules, id);
    if |ops| != 0 {
      FirstStepAlone(world, s, ops, id, tool);
      StepTracks(world, s, ops[0], id, tool);
      NotFiredMeansEarly(world, Step(world, s, ops[0]).0, ops[1..], id, tool);
    }
  }

  lemma {:induction false} FindOk(rules: seq<Rule>, id: Name)
    requires RulesOk(rules) && Find(rules, id).Some?
    ensures Find(rules, id).value.seen < Find(rules, id).value.occurrence
    decreases |rules|
  {
    OkTail(rules);
    if rules[0].id != id {
      FindOk(rules[1..], id);
    }
  }

  /** When the last step of a run fires a rule for the first time, at least the calls it still
      waited for have happened, and at most those plus one for each rule ahead of it. */
  lemma {:induction false} FiresInItsWindow<W>(world: World<W>, s: Session<W>, ops: seq<Op>, last: Op, id: Name, tool: Name)
    requires RulesOk(s.rules) && Find(s.rules, id).Some? && Find(s.rules, id).value.tool == tool
    requires LeavesAlone(world, s, ops + [last], id) && !Fires(world, s, ops, id) && Fires(world, s, ops + [last], id)
    ensures var r := Find(s.rules, id).value;
      r.occurrence - r.seen <= Calls(world, s, ops + [last], tool) <= (r.occurrence - r.seen) + Ahead(s.rules, id, tool)
    decreases |ops|
  {
    var all := ops + [last];
    FirstStepAlone(world, s, all, id, tool);
    StepTracks(world, s, all[0], id, tool);
    FindOk(s.rules, id);
    if |ops| == 0 {
      assert all[1..] == [];
    } else {
      assert all[0] == ops[0] && all[1..] == ops[1..] + [last];
      FiresInItsWindow(world, Step(world, s, ops[0]).0, ops[1..], last, id, tool);
    }
  }

  /** A fault of occurrence `n` injected behind `k` rules for its tool fires no earlier than the
      n-th and no later than the (n+k)-th permitted call of that tool after injection. */
  lemma {:induction false} InjectedFaultWindow<W>(
    world: World<W>, s: Session<W>, id: Name, tool: Name, n: nat, ops: seq<Op>, last: Op)
    requires RulesOk(s.rules) && !Listed(s.rules, id) && n >= 1 && Provisioned(s, tool)
    requires var t := Step(world, s, Inject(id, true, tool, n)).0;
      LeavesAlone(world, t, ops + [last], id) && !Fires(world, t, ops, id)
    ensures var t, k := Step(world, s, Inject(id, true, tool, n)).0, Standing(s.rules, tool);
      && Calls(world, t, ops, tool) < n + k
      && (Fires(world, t, ops + [last], id) ==> n <= Calls(world, t, ops + [last], tool) <= n + k)
  {
    var t := Step(world, s, Inject(id, true, tool, n)).0;
    PutKeepsRules(s.rules, Rule(id, tool, n, 0));
    PutLast(s.rules, Rule(id, tool, n, 0));
    AlonePrefix(world, t, ops, last, id);
    NotFiredMeansEarly(world, t, ops, id, tool);
    if Fires(world, t, ops + [last], id) {
      FiresInItsWindow(world, t, ops, last, id, tool);
    }
  }

  /** How many rules for the tool there are. */
  function Standing(rules: seq<Rule>, tool: Name): nat {
    if |rules| == 0 then 0 else (if rules[0].tool == tool then 1 else 0) + Standing(rules[1..], tool)
  }

  lemma {:induction false} PutLast(rules: seq<Rule>, r: Rule)
    requires !Listed(rules, r.id)
    ensures Find(Put(rules, r), r.id) == Some(r) && Ahead(Put(rules, r), r.id, r.tool) == Standing(rules, r.tool)
    decreases |rules|
  {
    if |rules| != 0 {
      OkTail(rules);
      PutLast(rules[1..], r);
    }
  }

  lemma {:induction false} AlonePrefix<W>(world: World<W>, s: Session<W>, ops: seq<Op>, last: Op, id: Name)
    requires LeavesAlone(world, s, ops + [last], id)
    ensures LeavesAlone(world, s, ops, id)
    decreases |ops|
  {
    if |ops| != 0 {
      assert (ops + [last])[1..] == ops[1..] + [last];
      AlonePrefix(world, Step(world, s, ops[0]).0, ops[1..], last, id);
    }
  }

  function NewSession<W>(world: World<W>, handle: Name, initial: W, allowed: map<Name, set<Name>>): Session<W> {
    Session(handle, initial, 0, initial, world.digest(initial), allowed, [], [])
  }

  /** On every run a reset returns the initial state and clock, finds the digest it recorded at
      provision, and leaves no fault scheduled. */
  lemma {:induction false} ResetReturns<W>(world: World<W>, handle: Name, initial: W, allowed: map<Name, set<Name>>, ops: seq<Op>)
    ensures var n := Run(world, NewSession(world, handle, initial, allowed), ops);
      Step(world, n, Reset) == (n.(state := initial, time := 0, rules := []), WasReset(true))
  {
    BaselineStays(world, NewSession(world, handle, initial, allowed), ops);
  }

  lemma {:induction false} BaselineStays<W>(world: World<W>, s: Session<W>, ops: seq<Op>)
    ensures Run(world, s, ops).initial == s.initial && Run(world, s, ops).initialDigest == s.initialDigest
    decreases |ops|
  {
    if |ops| != 0 {
      BaselineStays(world, Step(world, s, ops[0]).0, ops[1..]);
    }
  }

  // Snapshots.

  lemma {:induction false} SnapshotsOnlyGrow<W>(world: World<W>, s: Session<W>, ops: seq<Op>)
    ensures s.snapshots <= Run(world, s, ops).snapshots && Run(world, s, ops).handle == s.handle
    decreases |ops|
  {
    if |ops| != 0 {
      SnapshotsOnlyGrow(world, Step(world, s, ops[0]).0, ops[1..]);
    }
  }

  /** A snapshot restores exactly the state and the clock of its moment, with STATE_EQUIVALENT,
      after any operations whatever; faults scheduled meanwhile stay scheduled. */
  lemma {:induction false} RestoreReturns<W>(world: World<W>, s: Session<W>, ops: seq<Op>)
    ensures Step(world, s, Snapshot).1.Took?
    ensures var (t, took) := Step(world, s, Snapshot);
      var n := Run(world, t, ops);
      Step(world, n, Restore(took.ref)) == (n.(state := s.state, time := s.time), Restored(true))
  {
    var t := Step(world, s, Snapshot).0;
    SnapshotsOnlyGrow(world, t, ops);
    assert t.snapshots[|s.snapshots|] == Run(world, t, ops).snapshots[|s.snapshots|];
  }

  /** Whether some snapshot of the run returned this reference. */
  predicate HandedOut<W>(world: World<W>, s: Session<W>, ops: seq<Op>, ref: SnapshotRef)
    decreases |ops|
  {
    |ops| != 0 && (Step(world, s, ops[0]).1 == Took(ref) || HandedOut(world, Step(world, s, ops[0]).0, ops[1..], ref))
  }

  lemma {:induction false} StepHandsOut<W>(world: World<W>, s: Session<W>, op: Op, ref: SnapshotRef)
    ensures Known(Step(world, s, op).0, ref) <==> Known(s, ref) || Step(world, s, op).1 == Took(ref)
  {
  }

  lemma {:induction false} RunHandsOut<W>(world: World<W>, s: Session<W>, ops: seq<Op>, ref: SnapshotRef)
    ensures Known(Run(world, s, ops), ref) <==> Known(s, ref) || HandedOut(world, s, ops, ref)
    decreases |ops|
  {
    if |ops| != 0 {
      StepHandsOut(world, s, ops[0], ref);
      RunHandsOut(world, Step(world, s, ops[0]).0, ops[1..], ref);
    }
  }

  /** After any run of a new session exactly the references it handed out are accepted; any other
      one, another environment's or an altered one, is refused with nothing changed. */
  lemma {:induction false} AcceptedExactlyIfHandedOut<W>(
    world: World<W>, handle: Name, initial: W, allowed: map<Name, set<Name>>, ops: seq<Op>, ref: SnapshotRef)
    ensures var s := NewSession(world, handle, initial, allowed);
      var n := Run(world, s, ops);
      && (Step(world, n, Restore(ref)).1 != SnapshotUnknown <==> HandedOut(world, s, ops, ref))
      && (Step(world, n, Restore(ref)).1 == SnapshotUnknown ==> Step(world, n, Restore(ref)).0 == n)
  {
    RunHandsOut(world, NewSession(world, handle, initial, allowed), ops, ref);
  }
}
