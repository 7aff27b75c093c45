/** The Security profile's reference monitor: the Episode-scoped policy with its denial log
    (src/avp_ref/security/capability_policy.py) and the guarded subject adapter that binds it
    (src/avp_ref/security/subject_adapter.py).

    The wrapped adapter is arbitrary: it may raise, and it may call tools through any gateway
    it was ever given, at any time. */
module CapabilityGuard {
  import opened Common

  type Name = Text

  type EpisodeId = Text

  // Compiling a Scenario's capabilities.

  const MCP: Text := [109, 99, 112, 58, 47, 47]

  const SUBJECT: Name := [115, 117, 98, 106, 101, 99, 116]

  /** `rsplit("/", 1)[-1]`: what follows the last slash. */
  function ToolName(s: Text): Text {
    if |s| == 0 || s[|s| - 1] == 47 then [] else ToolName(s[..|s| - 1]) + [s[|s| - 1]]
  }

  predicate IsMcpTool(s: Text) {
    StartsWith(s, MCP)
  }

  lemma {:induction false} SuffixGrows(front: Text, name: Text, c: CodePoint)
    requires EndsWith(front, name)
    ensures EndsWith(front + [c], name + [c])
  {
    var k := |front| - |name|;
    assert (front + [c])[k..] == front[k..] + [c];
  }

  /** The longest suffix without a slash. */
  predicate LastSegment(s: Text, name: Text) {
    && EndsWith(s, name) && 47 !in name
    && (|name| < |s| ==> s[|s| - |name| - 1] == 47)
  }

  lemma {:induction false} SegmentStarts(front: Text)
    ensures LastSegment([], []) && LastSegment(front + [47], [])
  {
  }

  lemma {:induction false} SegmentGrows(front: Text, name: Text, c: CodePoint)
    requires c != 47 && LastSegment(front, name)
    ensures LastSegment(front + [c], name + [c])
  {
    SuffixGrows(front, name, c);
    if |name| < |front| {
      assert (front + [c])[|front| - |name| - 1] == front[|front| - |name| - 1];
    }
  }

  /** The tool name is a suffix without a slash, and nothing longer is. */
  lemma {:induction false} ToolNameIsLastSegment(s: Text)
    ensures LastSegment(s, ToolName(s))
  {
    if |s| == 0 {
      SegmentStarts([]);
    } else {
      var front, c := s[..|s| - 1], s[|s| - 1];
      assert s == front + [c];
      if c == 47 {
        SegmentStarts(front);
      } else {
        ToolNameIsLastSegment(front);
        SegmentGrows(front, ToolName(front), c);
      }
    }
  }

  type Capabilities = map<Name, seq<Text>>

  type Compiled = map<Name, set<Name>>

  function CompileList(include_: seq<Text>): set<Name> {
    set i | 0 <= i < |include_| && IsMcpTool(include_[i]) :: ToolName(include_[i])
  }

  function Compile(c: Capabilities): Compiled {
    map actor | actor in c :: CompileList(c[actor])
  }

  function Allowed(compiled: Compiled, actor: Name): set<Name> {
    if actor in compiled then compiled[actor] else {}
  }

  // The policy.

  datatype DenialCode = POLICY_UNAVAILABLE | CAPABILITY_DENIED

  datatype Denial = Denial(episode: EpisodeId, actor: Name, capability: Name, code: DenialCode, policyDigest: Option<int>)

  datatype Policy = Policy(allowed: map<EpisodeId, Compiled>, denials: map<EpisodeId, seq<Denial>>)

  datatype PolicyError = EmptyEpisode | AlreadyBound

  function Bind(p: Policy, episode: EpisodeId, compiled: Compiled): (Policy, Option<PolicyError>) {
    if |episode| == 0 then (p, Some(EmptyEpisode))
    else if episode in p.allowed then (p, Some(AlreadyBound))
    else (Policy(p.allowed[episode := compiled], p.denials[episode := []]), None)
  }

  function DenialLog(p: Policy, episode: EpisodeId): seq<Denial> {
    if episode in p.denials then p.denials[episode] else []
  }

  /** `authorize`: absent policy and absent capability are denied, and every denial is logged. */
  function Authorize(p: Policy, digest: Compiled -> int, episode: EpisodeId, actor: Name, capability: Name): (Policy, Option<Denial>) {
    var denial :=
      if episode !in p.allowed then Some(Denial(episode, actor, capability, POLICY_UNAVAILABLE, None))
      else if capability !in Allowed(p.allowed[episode], actor) then
        Some(Denial(episode, actor, capability, CAPABILITY_DENIED, Some(digest(p.allowed[episode]))))
      else None;
    if denial.None? then (p, None)
    else (p.(denials := p.denials[episode := DenialLog(p, episode) + [denial.value]]), denial)
  }

  function Unbind(p: Policy, episode: EpisodeId): Policy {
    Policy(p.allowed - {episode}, p.denials - {episode})
  }

  // The guarded adapter with its own policy.

  datatype Config = Config(capabilities: Capabilities, digest: Compiled -> int)

  /** `handles` maps the outer handles that are open to the Episode each is bound to. */
  datatype Guard = Guard(policy: Policy, handles: map<Name, Option<EpisodeId>>)

  datatype Op =
    | Open(handle: Name, innerOpens: bool)
    | Invoke(handle: Name, genuine: bool, episode: EpisodeId)
    | CallTool(episode: EpisodeId, capability: Name)
    | Release(handle: Name, genuine: bool, innerRaises: bool)

  datatype Reply =
    | Opened | InnerFailed | UnknownHandle | OtherEpisode | BindFailed(error: PolicyError) | Invoked
    | Forwarded | Denied(denial: Denial) | Released

  function StepInvoke(c: Config, g: Guard, handle: Name, genuine: bool, episode: EpisodeId): (Guard, Reply) {
    if handle !in g.handles || !genuine then (g, UnknownHandle)
    else
      match g.handles[handle]
      case Some(bound) => (g, if bound != episode then OtherEpisode else Invoked)
      case None =>
        var (policy, error) := Bind(g.policy, episode, Compile(c.capabilities));
        if error.Some? then (g, BindFailed(error.value))
        else (Guard(policy, g.handles[handle := Some(episode)]), Invoked)
  }

  /** `release`: policy and handle are dropped even when the wrapped adapter raises. */
  function StepRelease(g: Guard, handle: Name, genuine: bool, innerRaises: bool): (Guard, Reply) {
    if handle !in g.handles || !genuine then (g, UnknownHandle)
    else
      var policy := if g.handles[handle].Some? then Unbind(g.policy, g.handles[handle].value) else g.policy;
      (Guard(policy, g.handles - {handle}), if innerRaises then InnerFailed else Released)
  }

  function Step(c: Config, g: Guard, op: Op): (Guard, Reply) {
    match op
    case Open(handle, innerOpens) =>
      if innerOpens then (g.(handles := g.handles[handle := None]), Opened) else (g, InnerFailed)
    case Invoke(handle, genuine, episode) => StepInvoke(c, g, handle, genuine, episode)
    case CallTool(episode, capability) =>
      var (policy, denial) := Authorize(g.policy, c.digest, episode, SUBJECT, capability);
      (g.(policy := policy), if denial.Some? then Denied(denial.value) else Forwarded)
    case Release(handle, genuine, innerRaises) => StepRelease(g, handle, genuine, innerRaises)
  }

  const NEW: Guard := Guard(Policy(map[], map[]), map[])

  function After(c: Config, ops: seq<Op>): Guard {
    if |ops| == 0 then NEW else Step(c, After(c, ops[..|ops| - 1]), ops[|ops| - 1]).0
  }

  function ReplyAt(c: Config, ops: seq<Op>, n: nat): Reply
    requires n < |ops|
  {
    Step(c, After(c, ops[..n]), ops[n]).1
  }

  /** Handle identifiers are fresh random values: one is never given out twice. */
  ghost predicate FreshHandles(ops: seq<Op>) {
    forall i, j :: 0 <= i < j < |ops| && ops[i].Open? && ops[j].Open? ==> ops[i].handle != ops[j].handle
  }

  /** The two tables agree: an Episode is bound exactly while one open handle holds it, and
      what is bound is the compiled Scenario. */
  ghost predicate Coupled(c: Config, g: Guard) {
    && (forall e :: e in g.policy.allowed ==> Held(g, e) && g.policy.allowed[e] == Compile(c.capabilities) && |e| != 0)
    && (forall h :: h in g.handles && g.handles[h].Some? ==> g.handles[h].value in g.policy.allowed)
    && (forall h, k :: h in g.handles && k in g.handles && h != k && g.handles[h].Some? ==> g.handles[h] != g.handles[k])
  }

  ghost predicate Held(g: Guard, e: EpisodeId) {
    exists h :: h in g.handles && g.handles[h] == Some(e)
  }

  lemma {:induction false} HeldElsewhere(g: Guard, n: Guard, e: EpisodeId)
    requires Held(g, e) && forall h :: h in g.handles && g.handles[h] == Some(e) ==> h in n.handles && n.handles[h] == Some(e)
    ensures Held(n, e)
  {
    var h :| h in g.handles && g.handles[h] == Some(e);
    assert h in n.handles && n.handles[h] == Some(e);
  }

  lemma {:induction false} OpenKeepsCoupled(c: Config, g: Guard, handle: Name)
    requires Coupled(c, g) && handle !in g.handles
    ensures Coupled(c, g.(handles := g.handles[handle := None]))
  {
    var n := g.(handles := g.handles[handle := None]);
    forall e | e in n.policy.allowed ensures Held(n, e) {
      HeldElsewhere(g, n, e);
    }
  }

  lemma {:induction false} InvokeKeepsCoupled(c: Config, g: Guard, handle: Name, genuine: bool, episode: EpisodeId)
    requires Coupled(c, g)
    ensures Coupled(c, StepInvoke(c, g, handle, genuine, episode).0)
  {
    var n := StepInvoke(c, g, handle, genuine, episode).0;
    if n != g {
      forall e | e in n.policy.allowed ensures Held(n, e) {
        if e == episode {
          assert handle in n.handles && n.handles[handle] == Some(e);
        } else {
          HeldElsewhere(g, n, e);
        }
      }
    }
  }

  lemma {:induction false} ReleaseKeepsCoupled(c: Config, g: Guard, handle: Name, genuine: bool, innerRaises: bool)
    requires Coupled(c, g)
    ensures Coupled(c, StepRelease(g, handle, genuine, innerRaises).0)
  {
    var n := StepRelease(g, handle, genuine, innerRaises).0;
    if n != g {
      forall e | e in n.policy.allowed ensures Held(n, e) {
        HeldElsewhere(g, n, e);
      }
    }
  }

  lemma {:induction false} HandlesWereOpened(c: Config, ops: seq<Op>, h: Name)
    requires h in After(c, ops).handles
    ensures exists i :: 0 <= i < |ops| && ops[i].Open? && ops[i].handle == h
  {
    var last := |ops| - 1;
    if h in After(c, ops[..last]).handles {
      HandlesWereOpened(c, ops[..last], h);
      var i :| 0 <= i < last && ops[..last][i].Open? && ops[..last][i].handle == h;
      assert ops[i].Open? && ops[i].handle == h;
    } else {
      assert ops[last].Open? && ops[last].handle == h;
    }
  }

  lemma {:induction false} CallKeepsCoupled(c: Config, g: Guard, episode: EpisodeId, capability: Name)
    requires Coupled(c, g)
    ensures Coupled(c, Step(c, g, CallTool(episode, capability)).0)
  {
    var n := Step(c, g, CallTool(episode, capability)).0;
    forall e | e in n.policy.allowed ensures Held(n, e) {
      HeldElsewhere(g, n, e);
    }
  }

  lemma {:induction false} StepKeepsCoupled(c: Config, g: Guard, op: Op)
    requires Coupled(c, g) && (op.Open? ==> op.handle !in g.handles)
    ensures Coupled(c, Step(c, g, op).0)
  {
    match op {
      case Open(handle, _) => OpenKeepsCoupled(c, g, handle);
      case Invoke(handle, genuine, episode) => InvokeKeepsCoupled(c, g, handle, genuine, episode);
      case Release(handle, genuine, innerRaises) => ReleaseKeepsCoupled(c, g, handle, genuine, innerRaises);
      case CallTool(episode, capability) => CallKeepsCoupled(c, g, episode, capability);
    }
  }

  /** On every run the policy's bound Episodes are exactly those of the live bound handles, one
      handle each, and every bound policy is the compiled Scenario. */
  lemma {:induction false} TablesStayCoupled(c: Config, ops: seq<Op>)
    requires FreshHandles(ops)
    ensures Coupled(c, After(c, ops))
  {
    if |ops| != 0 {
      var front, op := ops[..|ops| - 1], ops[|ops| - 1];
      assert forall i :: 0 <= i < |front| ==> front[i] == ops[i];
      TablesStayCoupled(c, front);
      if op.Open? && op.handle in After(c, front).handles {
        HandlesWereOpened(c, front, op.handle);
      }
      StepKeepsCoupled(c, After(c, front), op);
    }
  }

  /** A tool call reaches the wrapped gateway exactly when its Episode is bound by an open
      handle at that moment and the tool is one the Scenario gives the Subject. Calls through
      a gateway kept after release are therefore denied unless the Episode is bound again. */
  lemma {:induction false} ForwardedExactly(c: Config, ops: seq<Op>, n: nat)
    requires FreshHandles(ops) && n < |ops| && ops[n].CallTool?
    ensures ReplyAt(c, ops, n) == Forwarded <==>
      && Held(After(c, ops[..n]), ops[n].episode)
      && ops[n].capability in Allowed(Compile(c.capabilities), SUBJECT)
    ensures ReplyAt(c, ops, n) != Forwarded ==> ReplyAt(c, ops, n).Denied?
  {
    assert forall i :: 0 <= i < n ==> ops[..n][i] == ops[i];
    TablesStayCoupled(c, ops[..n]);
    var g := After(c, ops[..n]);
    if Held(g, ops[n].episode) {
      var h :| h in g.handles && g.handles[h] == Some(ops[n].episode);
    }
  }

  /** A forwarded tool was listed for the Subject in the Scenario as an MCP capability. */
  lemma {:induction false} ForwardedToolsAreListed(c: Config, ops: seq<Op>, n: nat)
    requires FreshHandles(ops) && n < |ops| && ops[n].CallTool? && ReplyAt(c, ops, n) == Forwarded
    ensures SUBJECT in c.capabilities
    ensures exists i ::
      0 <= i < |c.capabilities[SUBJECT]| && IsMcpTool(c.capabilities[SUBJECT][i])
      && LastSegment(c.capabilities[SUBJECT][i], ops[n].capability)
  {
    ForwardedExactly(c, ops, n);
    var listed := c.capabilities[SUBJECT];
    var i :| 0 <= i < |listed| && IsMcpTool(listed[i]) && ToolName(listed[i]) == ops[n].capability;
    ToolNameIsLastSegment(listed[i]);
  }

  /** Releasing denies at once: whatever the wrapped adapter's release does, a gateway kept for
      the Episode is refused with POLICY_UNAVAILABLE. */
  lemma {:induction false} ReleaseRevokes(c: Config, ops: seq<Op>, handle: Name, innerRaises: bool, capability: Name)
    requires FreshHandles(ops) && handle in After(c, ops).handles && After(c, ops).handles[handle].Some?
    ensures var e := After(c, ops).handles[handle].value;
      var g := Step(c, After(c, ops), Release(handle, true, innerRaises)).0;
      && Step(c, g, CallTool(e, capability)).1 == Denied(Denial(e, SUBJECT, capability, POLICY_UNAVAILABLE, None))
      && !Held(g, e)
  {
    TablesStayCoupled(c, ops);
  }

  // The denial log.

  /** The denials of an Episode since it was last bound or released. */
  function SinceReset(c: Config, ops: seq<Op>, e: EpisodeId): seq<Denial> {
    if |ops| == 0 then []
    else
      var front, op := ops[..|ops| - 1], ops[|ops| - 1];
      var g, reply := After(c, front), ReplyAt(c, ops, |ops| - 1);
      if op.Invoke? && op.episode == e && reply == Invoked && op.handle in g.handles && g.handles[op.handle].None? then []
      else if op.Release? && reply != UnknownHandle && op.handle in g.handles && g.handles[op.handle] == Some(e) then []
      else if reply.Denied? && reply.denial.episode == e then SinceReset(c, front, e) + [reply.denial]
      else SinceReset(c, front, e)
  }

  /** Every denial is logged: the log of an Episode holds exactly its denials since it was last
      bound or released, in order. (Binding forgets denials made before.) */
  lemma {:induction false} EveryDenialIsLogged(c: Config, ops: seq<Op>, e: EpisodeId)
    ensures DenialLog(After(c, ops).policy, e) == SinceReset(c, ops, e)
  {
    if |ops| != 0 {
      EveryDenialIsLogged(c, ops[..|ops| - 1], e);
    }
  }

  lemma {:induction false} AfterOneMore(c: Config, ops: seq<Op>, op: Op)
    ensures After(c, ops + [op]) == Step(c, After(c, ops), op).0
    ensures ReplyAt(c, ops + [op], |ops|) == Step(c, After(c, ops), op).1
  {
    assert (ops + [op])[..|ops|] == ops;
  }

  /** Binding forgets: after any run, an Episode that becomes bound has an empty log, whatever was
      denied for it before. */
  lemma {:induction false} BindingForgets(c: Config, ops: seq<Op>, h: Name, e: EpisodeId)
    requires |e| > 0 && e !in After(c, ops).policy.allowed
    requires h in After(c, ops).handles && After(c, ops).handles[h].None?
    ensures ReplyAt(c, ops + [Invoke(h, true, e)], |ops|) == Invoked
    ensures DenialLog(After(c, ops + [Invoke(h, true, e)]).policy, e) == []
  {
    AfterOneMore(c, ops, Invoke(h, true, e));
  }

  /** A denial that is forgotten: open, call before the Episode is bound, bind. */
  lemma {:induction false} EarlyDenialIsForgotten(c: Config, h: Name, e: EpisodeId, capability: Name)
    requires |e| > 0
    ensures var ops := [Open(h, true)] + [CallTool(e, capability)];
      && ReplyAt(c, ops, 1).Denied? && |DenialLog(After(c, ops).policy, e)| == 1
      && DenialLog(After(c, ops + [Invoke(h, true, e)]).policy, e) == []
  {
    AfterOneMore(c, [], Open(h, true));
    assert [] + [Open(h, true)] == [Open(h, true)];
    AfterOneMore(c, [Open(h, true)], CallTool(e, capability));
    BindingForgets(c, [Open(h, true)] + [CallTool(e, capability)], h, e);
  }

  // In place.

  class CapabilityGuardPolicy {
    var allowed: map<EpisodeId, Compiled>
    var denials: map<EpisodeId, seq<Denial>>

    function View(): Policy
      reads this
    {
      Policy(allowed, denials)
    }

    constructor ()
      ensures View() == Policy(map[], map[])
    {
      allowed, denials := map[], map[];
    }

    method BindEpisode(episode: EpisodeId, capabilities: Capabilities) returns (error: Option<PolicyError>)
      modifies this
      ensures (View(), error) == Bind(old(View()), episode, Compile(capabilities))
    {
      if |episode| == 0 {
        return Some(EmptyEpisode);
      }
      if episode in allowed {
        return Some(AlreadyBound);
      }
      allowed := allowed[episode := Compile(capabilities)];
      denials := denials[episode := []];
      error := None;
    }

    method AuthorizeCall(digest: Compiled -> int, episode: EpisodeId, actor: Name, capability: Name) returns (denial: Option<Denial>)
      modifies `denials
      ensures (View(), denial) == Authorize(old(View()), digest, episode, actor, capability)
    {
      if episode !in allowed {
        denial := Some(Denial(episode, actor, capability, POLICY_UNAVAILABLE, None));
        Log(episode, denial.value);
        return;
      }
      var policyDigest := digest(allowed[episode]);
      if capability !in Allowed(allowed[episode], actor) {
        denial := Some(Denial(episode, actor, capability, CAPABILITY_DENIED, Some(policyDigest)));
        Log(episode, denial.value);
        return;
      }
      denial := None;
    }

    /** `setdefault(...).append(...)`. */
    method Log(episode: EpisodeId, denial: Denial)
      modifies `denials
      ensures denials == old(denials)[episode := DenialLog(old(View()), episode) + [denial]]
    {
      if episode !in denials {
        denials := denials[episode := []];
      }
      denials := denials[episode := denials[episode] + [denial]];
    }

    method ReleaseEpisode(episode: EpisodeId)
      modifies this
      ensures View() == Unbind(old(View()), episode)
    {
      allowed := allowed - {episode};
      denials := denials - {episode};
    }
  }

  class CapabilityGuardedSubjectAdapter {
    const config: Config
    const policy: CapabilityGuardPolicy
    var handles: map<Name, Option<EpisodeId>>

    function View(): Guard
      reads this, policy
    {
      Guard(policy.View(), handles)
    }

    constructor (config: Config)
      ensures View() == NEW && this.config == config && fresh(policy)
    {
      this.config := config;
      policy := new CapabilityGuardPolicy();
      handles := map[];
    }

    method OpenHandle(handle: Name, innerOpens: bool) returns (r: Reply)
      modifies `handles
      ensures (View(), r) == Step(config, old(View()), Open(handle, innerOpens))
    {
      if !innerOpens {
        return InnerFailed;
      }
      handles := handles[handle := None];
      r := Opened;
    }

    method InvokeSubject(handle: Name, genuine: bool, episode: EpisodeId) returns (r: Reply)
      modifies `handles, policy
      ensures (View(), r) == Step(config, old(View()), Invoke(handle, genuine, episode))
    {
      if handle !in handles || !genuine {
        return UnknownHandle;
      }
      var bound := handles[handle];
      if bound.Some? && bound.value != episode {
        return OtherEpisode;
      }
      if bound.None? {
        var error := policy.BindEpisode(episode, config.capabilities);
        if error.Some? {
          return BindFailed(error.value);
        }
        handles := handles[handle := Some(episode)];
      }
      r := Invoked;
    }

    /** `_GuardedGateway.call_tool` of a gateway made for this Episode. */
    method CallThroughGateway(episode: EpisodeId, capability: Name) returns (r: Reply)
      modifies policy
      ensures (View(), r) == Step(config, old(View()), CallTool(episode, capability))
    {
      var denial := policy.AuthorizeCall(config.digest, episode, SUBJECT, capability);
      r := if denial.Some? then Denied(denial.value) else Forwarded;
    }

    method ReleaseHandle(handle: Name, genuine: bool, innerRaises: bool) returns (r: Reply)
      modifies `handles, policy
      ensures (View(), r) == Step(config, old(View()), Release(handle, genuine, innerRaises))
    {
      if handle !in handles || !genuine {
        return UnknownHandle;
      }
      var bound := handles[handle];
      if bound.Some? {
        policy.ReleaseEpisode(bound.value);
      }
      handles := handles - {handle};
      r := if innerRaises then InnerFailed else Released;
    }
  }
}
