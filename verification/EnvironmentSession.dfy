/** The in-memory environment session in place (src/avp_ref/environment/in_memory.py). */
module EnvironmentSession {
  import opened Common
  import opened FaultScheduler

  class InMemoryCommerceSession<W> {
    const world: World<W>
    const handle: Name
    const initial: W
    const initialDigest: int
    const allowed: map<Name, set<Name>>
    var state: W
    var time: nat
    var snapshots: seq<(SnapshotRef, W)>
    var rules: seq<Rule>

    function View(): Session<W>
      reads this
    {
      Session(handle, state, time, initial, initialDigest, allowed, snapshots, rules)
    }

    constructor (world: World<W>, handle: Name, initial: W, allowed: map<Name, set<Name>>)
      ensures View() == NewSession(world, handle, initial, allowed) && this.world == world
    {
      this.world, this.handle, this.initial, this.allowed := world, handle, initial, allowed;
      initialDigest := world.digest(initial);
      state, time, snapshots, rules := initial, 0, [], [];
    }

    /** The loop over a copy of the dictionary's items: it counts in place and deletes at most
        one rule. */
    method ApplyFaultIfDue(tool: Name) returns (fired: Option<Name>)
      modifies `rules
      ensures (rules, fired) == Scan(old(rules), tool)
    {
      var items := rules;
      assert items[0..] == items;
      for n := 0 to |items|
        invariant |rules| == |items| && rules[n..] == items[n..]
        invariant Scan(items, tool).0 == rules[..n] + Scan(items[n..], tool).0
        invariant Scan(items, tool).1 == Scan(items[n..], tool).1
      {
        var rule := items[n];
        ScanNext(items, n, tool);
        if rule.tool == tool {
          var counted := rule.(seen := rule.seen + 1);
          if counted.seen == counted.occurrence {
            assert rules[n + 1..] == rules[n..][1..] == items[n + 1..];
            rules := rules[..n] + rules[n + 1..];
            return Some(rule.id);
          }
          CountAt(rules, n, counted, Scan(items[n + 1..], tool).0);
          rules := rules[n := counted];
        } else {
          assert rules[n] == items[n..][0];
          CountAt(rules, n, rule, Scan(items[n + 1..], tool).0);
        }
      }
      assert items[|items|..] == [] && rules[..|items|] + [] == rules;
      fired := None;
    }

    method ExecuteTool(actor: Name, tool: Name, arguments: int) returns (r: Outcome)
      modifies `rules, `state, `time
      ensures (View(), r) == Step(world, old(View()), Execute(actor, tool, arguments))
    {
      if !(actor in allowed && tool in allowed[actor]) {
        return Denied;
      }
      var fired := ApplyFaultIfDue(tool);
      if fired.Some? {
        return Faulted(fired.value);
      }
      var reply := world.call(state, time, tool, arguments);
      state, time := reply.state, reply.time;
      r := if reply.raised then ToolRaised else Returned(reply.result);
    }

    method InjectFault(id: Name, kindSupported: bool, target: Name, occurrence: nat) returns (r: Outcome)
      modifies `rules
      ensures (View(), r) == Step(world, old(View()), Inject(id, kindSupported, target, occurrence))
    {
      if !kindSupported {
        return Unsupported;
      }
      if !(exists actor :: actor in allowed && target in allowed[actor]) {
        return NotProvisioned;
      }
      rules := Put(rules, Rule(id, target, occurrence, 0));
      r := Injected;
    }

    method ClearFault(owner: Name, id: Name) returns (r: Outcome)
      modifies `rules
      ensures (View(), r) == Step(world, old(View()), Clear(owner, id))
    {
      if owner != handle {
        return ForeignFault;
      }
      rules := Drop(rules, id);
      r := Cleared;
    }

    method TakeSnapshot() returns (r: Outcome)
      modifies `snapshots
      ensures (View(), r) == Step(world, old(View()), Snapshot)
    {
      var ref := SnapshotRef(|snapshots| + 1, handle, world.digest(state), time);
      snapshots := snapshots + [(ref, state)];
      r := Took(ref);
    }

    method RestoreSnapshot(ref: SnapshotRef) returns (r: Outcome)
      modifies `state, `time
      ensures (View(), r) == Step(world, old(View()), Restore(ref))
    {
      if !(ref.handle == handle && 1 <= ref.id <= |snapshots| && snapshots[ref.id - 1].0 == ref) {
        return SnapshotUnknown;
      }
      state, time := snapshots[ref.id - 1].1, ref.time;
      r := Restored(world.digest(state) == ref.digest);
    }

    method ResetWorld() returns (r: Outcome)
      modifies `state, `time, `rules
      ensures (View(), r) == Step(world, old(View()), Reset)
    {
      state, time, rules := initial, 0, [];
      r := WasReset(world.digest(state) == initialDigest);
    }
  }

  lemma {:induction false} ScanNext(items: seq<Rule>, n: nat, tool: Name)
    requires n < |items|
    ensures var rule, rest := items[n], Scan(items[n + 1..], tool);
      var counted := rule.(seen := rule.seen + 1);
      Scan(items[n..], tool) ==
        if rule.tool != tool then ([rule] + rest.0, rest.1)
        else if counted.seen == counted.occurrence then (items[n + 1..], Some(rule.id))
        else ([counted] + rest.0, rest.1)
  {
    assert items[n..][1..] == items[n + 1..];
  }

  lemma {:induction false} CountAt(rules: seq<Rule>, n: nat, counted: Rule, rest: seq<Rule>)
    requires n < |rules|
    ensures rules[n := counted][..n + 1] + rest == rules[..n] + ([counted] + rest)
    ensures rules[n := counted][n + 1..] == rules[n + 1..] == rules[n..][1..]
    ensures rules[n] == counted ==> rules[n := counted] == rules
  {
  }
}
