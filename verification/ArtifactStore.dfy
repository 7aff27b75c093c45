/** `put_stream` as one caller runs it (src/avp_ref/artifacts/filesystem.py): the loop over
    the stream, the link and the verification loops, shown to be a run of the publication
    protocol and to publish exactly the streamed octets. */
module ArtifactStore {
  import opened Common
  import opened Publication

  const CHUNK_SIZE: nat := 64 * 1024

  function Concat(chunks: seq<Octets>): Octets {
    if |chunks| == 0 then [] else Concat(chunks[..|chunks| - 1]) + chunks[|chunks| - 1]
  }

  lemma {:induction false} ConcatGrows(chunks: seq<Octets>, n: nat)
    requires n <= |chunks|
    ensures |Concat(chunks[..n])| <= |Concat(chunks)|
    decreases |chunks|
  {
    if n == |chunks| {
      assert chunks[..n] == chunks;
    } else {
      assert chunks[..|chunks| - 1][..n] == chunks[..n];
      ConcatGrows(chunks[..|chunks| - 1], n);
    }
  }

  lemma {:induction false} RunAppend(store: Store, w: World, steps: seq<(Pid, Action)>, a: Action)
    ensures Run(store, w, steps + [(0, a)]) == Step(store, Run(store, w, steps), 0, a)
    decreases |steps|
  {
    if |steps| == 0 {
      assert steps + [(0, a)] == [(0, a)];
    } else {
      assert (steps + [(0, a)])[1..] == steps[1..] + [(0, a)];
      RunAppend(store, Step(store, w, steps[0].0, steps[0].1), steps[1..], a);
    }
  }

  lemma {:induction false} RunJoin(store: Store, w: World, a: seq<(Pid, Action)>, b: seq<(Pid, Action)>)
    ensures Run(store, w, a + b) == Run(store, Run(store, w, a), b)
    decreases |a|
  {
    if |a| == 0 {
      assert a + b == b;
    } else {
      assert (a + b)[1..] == a[1..] + b;
      RunJoin(store, Step(store, w, a[0].0, a[0].1), a[1..], b);
    }
  }

  /** A world with one process. */
  function Alone(w: World, expected: Option<int>, p: Phase): World {
    w.(procs := map[0 := Process(expected, p)])
  }

  datatype Proposal = Proposal(name: FileName, ino: Inode, hashed: Octets, published: bool, last: bool)

  function Opened(v: Proposal): Phase {
    Opening(v.name, v.ino, v.hashed, v.published, v.last)
  }

  function Verifying(v: Proposal, o: Inode, seen: Octets): Phase {
    Checking(v.name, v.ino, v.hashed, v.published, v.last, o, seen)
  }

  function AfterVerification(store: Store, v: Proposal, ok: bool): Phase {
    if !ok then Unlinking(v.name, v.published, None)
    else if v.last then Unlinking(v.name, v.published, Some(RefOf(store, v.hashed)))
    else Opening(v.name, v.ino, v.hashed, v.published, true)
  }

  lemma {:induction false} OpenAlone(store: Store, w: World, e: Option<int>, v: Proposal)
    ensures Step(store, Alone(w, e, Opened(v)), 0, Open) == Alone(w, e,
      if store.hash(v.hashed) in w.objects then Verifying(v, w.objects[store.hash(v.hashed)], [])
      else AfterVerification(store, v, false))
  {
  }

  lemma {:induction false} ReadAlone(store: Store, w: World, e: Option<int>, v: Proposal, o: Inode, seen: Octets, count: nat)
    requires o in w.inodes
    ensures Step(store, Alone(w, e, Verifying(v, o, seen)), 0, ReadChunk(count)) ==
      Alone(w, e, Verifying(v, o, seen + More(w.inodes[o], seen, count)))
  {
  }

  lemma {:induction false} CompareAlone(store: Store, w: World, e: Option<int>, v: Proposal, o: Inode, seen: Octets)
    requires o in w.inodes && w.inodes[o] == seen
    ensures Step(store, Alone(w, e, Verifying(v, o, seen)), 0, Compare) ==
      Alone(w, e, AfterVerification(store, v, RefOf(store, seen) == RefOf(store, v.hashed)))
  {
  }

  lemma {:induction false} MakeTempAlone(store: Store, w: World, e: Option<int>, name: FileName, ino: Inode)
    requires name !in w.temps && ino !in w.inodes
    ensures Step(store, Alone(w, e, Waiting), 0, MakeTemp(name, ino)) ==
      Alone(w.(inodes := w.inodes[ino := []], temps := w.temps[name := ino]), e, Writing(name, ino, [], []))
  {
  }

  lemma {:induction false} FeedAlone(store: Store, w: World, e: Option<int>, name: FileName, ino: Inode,
                                     hashed: Octets, buffered: Octets, chunk: Octets)
    ensures Step(store, Alone(w, e, Writing(name, ino, hashed, buffered)), 0, Feed(chunk)) == Alone(w, e,
      if |hashed| + |chunk| > store.limit then Aborting(name, ino, buffered)
      else Writing(name, ino, hashed + chunk, buffered + chunk))
  {
  }

  function Holding(complete: bool, name: FileName, ino: Inode, hashed: Octets, buffered: Octets): Phase {
    if complete then Writing(name, ino, hashed, buffered) else Aborting(name, ino, buffered)
  }

  lemma {:induction false} DrainAlone(store: Store, w: World, e: Option<int>, complete: bool, name: FileName, ino: Inode,
                                      hashed: Octets, buffered: Octets)
    requires ino in w.inodes
    ensures Step(store, Alone(w, e, Holding(complete, name, ino, hashed, buffered)), 0, Drain(|buffered|)) ==
      Alone(w.(inodes := w.inodes[ino := w.inodes[ino] + buffered]), e, Holding(complete, name, ino, hashed, []))
  {
    assert buffered[..|buffered|] == buffered && buffered[|buffered|..] == [];
  }

  lemma {:induction false} CloseAlone(store: Store, w: World, e: Option<int>, complete: bool, name: FileName, ino: Inode,
                                      hashed: Octets)
    ensures Step(store, Alone(w, e, Holding(complete, name, ino, hashed, [])), 0, Close) ==
      Alone(w, e, if complete then Closed(name, ino, hashed) else Unlinking(name, false, None))
  {
  }

  lemma {:induction false} CheckAlone(store: Store, w: World, e: Option<int>, name: FileName, ino: Inode, hashed: Octets)
    ensures Step(store, Alone(w, e, Closed(name, ino, hashed)), 0, CheckExpected) == Alone(w, e,
      if e.None? || e.value == store.hash(hashed) then Linking(name, ino, hashed) else Unlinking(name, false, None))
  {
  }

  lemma {:induction false} LinkAlone(store: Store, w: World, e: Option<int>, name: FileName, ino: Inode, hashed: Octets)
    requires name in w.temps && w.temps[name] == ino
    ensures Step(store, Alone(w, e, Linking(name, ino, hashed)), 0, Link) ==
      if store.hash(hashed) in w.objects then Alone(w, e, Opening(name, ino, hashed, false, false))
      else Alone(w.(objects := w.objects[store.hash(hashed) := ino]), e, Opening(name, ino, hashed, true, true))
  {
  }

  lemma {:induction false} UnlinkAlone(store: Store, w: World, e: Option<int>, name: FileName, published: bool, outcome: Option<Ref>)
    ensures Step(store, Alone(w, e, Unlinking(name, published, outcome)), 0, Unlink(true)) ==
      Alone(w.(temps := w.temps - {name}), e, Finished(outcome, None))
  {
  }

  /** Within the limit, and with the expected digest if one was given. */
  predicate Wanted(store: Store, all: Octets, expected: Option<int>) {
    |all| <= store.limit && (expected.None? || expected.value == store.hash(all))
  }

  /** An object already at the stream's path has the stream's size. */
  predicate SizeAgrees(store: Store, w: World, all: Octets) {
    var digest := store.hash(all);
    digest in w.objects && w.objects[digest] in w.inodes ==> |w.inodes[w.objects[digest]]| == |all|
  }

  class LocalFilesystemArtifactStore {
    const store: Store
    var inodes: map<Inode, Octets>
    var temps: map<FileName, Inode>
    var objects: map<int, Inode>

    ghost function Files(): World
      reads this
    {
      World(inodes, temps, objects, map[])
    }

    ghost predicate Valid()
      reads this
    {
      ObjectsOk(store, Files())
    }

    constructor (store: Store)
      ensures Valid() && this.store == store && Files() == World(map[], map[], map[], map[])
    {
      this.store := store;
      inodes := map[];
      temps := map[];
      objects := map[];
    }

    /** `_verify_path`: read the object to its end, hashing and counting. */
    method VerifyPath(hashed: Octets, ghost e: Option<int>, ghost v: Proposal)
      returns (ok: bool, ghost trace: seq<(Pid, Action)>)
      requires Valid() && v.hashed == hashed
      ensures ok <==>
        && store.hash(hashed) in objects && objects[store.hash(hashed)] in inodes
        && RefOf(store, inodes[objects[store.hash(hashed)]]) == RefOf(store, hashed)
      ensures Run(store, Alone(Files(), e, Opened(v)), trace) == Alone(Files(), e, AfterVerification(store, v, ok))
    {
      ghost var w := Alone(Files(), e, Opened(v));
      OpenAlone(store, Files(), e, v);
      trace := [(0, Open)];
      RunAppend(store, w, [], Open);
      assert [] + [(0, Open)] == trace;
      var digest := store.hash(hashed);
      if digest !in objects {
        return false, trace;
      }
      var o := objects[digest];
      assert Files().objects[digest] in Files().inodes;
      var content := inodes[o];
      var seen: Octets := [];
      while |seen| < |content|
        invariant IsPrefix(seen, content)
        invariant Run(store, w, trace) == Alone(Files(), e, Verifying(v, o, seen))
        decreases |content| - |seen|
      {
        ReadAlone(store, Files(), e, v, o, seen, CHUNK_SIZE);
        RunAppend(store, w, trace, ReadChunk(CHUNK_SIZE));
        trace := trace + [(0, ReadChunk(CHUNK_SIZE))];
        seen := seen + More(content, seen, CHUNK_SIZE);
      }
      CompareAlone(store, Files(), e, v, o, seen);
      RunAppend(store, w, trace, Compare);
      trace := trace + [(0, Compare)];
      ok := RefOf(store, seen) == RefOf(store, hashed);
    }

    /** `mkstemp`: an empty file under a name and inode the operating system chose. */
    method MakeTempFile(name: FileName, ino: Inode, ghost e: Option<int>) returns (ghost trace: seq<(Pid, Action)>)
      requires name !in temps && ino !in inodes
      modifies `inodes, `temps
      ensures inodes == old(inodes)[ino := []] && temps == old(temps)[name := ino]
      ensures Run(store, old(Alone(Files(), e, Waiting)), trace) == Alone(Files(), e, Writing(name, ino, [], []))
    {
      MakeTempAlone(store, Files(), e, name, ino);
      trace := [(0, MakeTemp(name, ino))];
      RunAppend(store, Alone(Files(), e, Waiting), [], MakeTemp(name, ino));
      assert [] + [(0, MakeTemp(name, ino))] == trace;
      inodes := inodes[ino := []];
      temps := temps[name := ino];
    }

    /** The streaming loop: every chunk counted, checked against the limit, written and hashed.
        `over` tells that the limit was exceeded. */
    method StreamChunks(chunks: seq<Octets>, name: FileName, ino: Inode, ghost e: Option<int>,
                        ghost w: World, ghost before: seq<(Pid, Action)>)
      returns (over: bool, buffered: Octets, ghost trace: seq<(Pid, Action)>)
      requires Run(store, w, before) == Alone(Files(), e, Writing(name, ino, [], []))
      ensures over <==> |Concat(chunks)| > store.limit
      ensures !over ==> buffered == Concat(chunks)
      ensures Run(store, w, trace) == Alone(Files(), e, Holding(!over, name, ino, Concat(chunks), buffered))
    {
      trace := before;
      buffered := [];
      for n := 0 to |chunks|
        invariant buffered == Concat(chunks[..n]) && |buffered| <= store.limit
        invariant Run(store, w, trace) == Alone(Files(), e, Writing(name, ino, buffered, buffered))
      {
        assert chunks[..n + 1][..n] == chunks[..n];
        ConcatGrows(chunks, n + 1);
        FeedAlone(store, Files(), e, name, ino, buffered, buffered, chunks[n]);
        RunAppend(store, w, trace, Feed(chunks[n]));
        trace := trace + [(0, Feed(chunks[n]))];
        if |buffered| + |chunks[n]| > store.limit {
          return true, buffered, trace;
        }
        buffered := buffered + chunks[n];
      }
      assert chunks[..|chunks|] == chunks;
      over := false;
    }

    /** Leaving the `with` block: whatever is buffered reaches the file. */
    method FlushAndClose(complete: bool, ghost name: FileName, ino: Inode, ghost hashed: Octets, buffered: Octets,
                         ghost e: Option<int>, ghost w: World, ghost before: seq<(Pid, Action)>)
      returns (ghost trace: seq<(Pid, Action)>)
      requires ino in inodes
      requires Run(store, w, before) == Alone(Files(), e, Holding(complete, name, ino, hashed, buffered))
      modifies `inodes
      ensures inodes == old(inodes)[ino := old(inodes)[ino] + buffered]
      ensures Run(store, w, trace) == Alone(Files(), e,
        if complete then Closed(name, ino, hashed) else Unlinking(name, false, None))
    {
      DrainAlone(store, Files(), e, complete, name, ino, hashed, buffered);
      RunAppend(store, w, before, Drain(|buffered|));
      trace := before + [(0, Drain(|buffered|))];
      inodes := inodes[ino := inodes[ino] + buffered];
      CloseAlone(store, Files(), e, complete, name, ino, hashed);
      RunAppend(store, w, trace, Close);
      trace := trace + [(0, Close)];
    }

    /** Everything inside the `with` block. */
    method WriteTemp(chunks: seq<Octets>, name: FileName, ino: Inode, ghost e: Option<int>)
      returns (over: bool, hashed: Octets, ghost trace: seq<(Pid, Action)>)
      requires Valid() && name !in temps && ino !in inodes
      modifies `inodes, `temps
      ensures Valid() && temps == old(temps)[name := ino]
      ensures ino in inodes && inodes == old(inodes)[ino := hashed]
      ensures over <==> |Concat(chunks)| > store.limit
      ensures !over ==> hashed == Concat(chunks)
      ensures Run(store, old(Alone(Files(), e, Waiting)), trace) == Alone(Files(), e,
        if over then Unlinking(name, false, None) else Closed(name, ino, hashed))
    {
      ghost var w := Alone(Files(), e, Waiting);
      assert forall d :: d in objects ==> Files().objects[d] in Files().inodes;
      trace := MakeTempFile(name, ino, e);
      over, hashed, trace := StreamChunks(chunks, name, ino, e, w, trace);
      trace := FlushAndClose(!over, name, ino, Concat(chunks), hashed, e, w, trace);
      assert [] + hashed == hashed;
    }

    /** The `finally` block when removal works. */
    method Cleanup(name: FileName, ghost published: bool, ghost outcome: Option<Ref>,
                   ghost e: Option<int>, ghost w: World, ghost before: seq<(Pid, Action)>)
      returns (ghost trace: seq<(Pid, Action)>)
      requires Run(store, w, before) == Alone(Files(), e, Unlinking(name, published, outcome))
      modifies `temps
      ensures temps == old(temps) - {name}
      ensures Run(store, w, trace) == Alone(Files(), e, Finished(outcome, None))
    {
      UnlinkAlone(store, Files(), e, name, published, outcome);
      RunAppend(store, w, before, Unlink(true));
      temps := temps - {name};
      trace := before + [(0, Unlink(true))];
    }

    /** From the closed temporary file to the last verification. */
    method LinkAndVerify(name: FileName, ino: Inode, hashed: Octets, expected: Option<int>,
                         ghost w: World, ghost before: seq<(Pid, Action)>)
      returns (ok: bool, ghost published: bool, ghost trace: seq<(Pid, Action)>)
      requires Valid() && name in temps && temps[name] == ino && ino in inodes && inodes[ino] == hashed
      requires |hashed| <= store.limit
      requires Run(store, w, before) == Alone(Files(), expected, Closed(name, ino, hashed))
      modifies `objects
      ensures Valid()
      ensures objects ==
        if Wanted(store, hashed, expected) && store.hash(hashed) !in old(objects)
        then old(objects)[store.hash(hashed) := ino] else old(objects)
      ensures ok <==> Wanted(store, hashed, expected) && SizeAgrees(store, old(Files()), hashed)
      ensures Run(store, w, trace) ==
        Alone(Files(), expected, Unlinking(name, published, if ok then Some(RefOf(store, hashed)) else None))
    {
      var digest := store.hash(hashed);
      CheckAlone(store, Files(), expected, name, ino, hashed);
      RunAppend(store, w, before, CheckExpected);
      trace := before + [(0, CheckExpected)];
      published := false;
      if expected.Some? && expected.value != digest {
        return false, published, trace;
      }
      LinkAlone(store, Files(), expected, name, ino, hashed);
      RunAppend(store, w, trace, Link);
      trace := trace + [(0, Link)];
      ghost var more;
      if digest in objects {
        assert Files().objects[digest] in Files().inodes;
        ok, more := VerifyPath(hashed, expected, Proposal(name, ino, hashed, false, false));
        RunJoin(store, w, trace, more);
        trace := trace + more;
        if !ok {
          return false, published, trace;
        }
      } else {
        objects := objects[digest := ino];
        published := true;
      }
      ok, more := VerifyPath(hashed, expected, Proposal(name, ino, hashed, published, true));
      RunJoin(store, w, trace, more);
      trace := trace + more;
    }

    /** `put_stream` without operating-system failures: it succeeds exactly when the stream is
        within the limit, has the expected digest, and any object already there has its size;
        then the reference names the stream, a new object holds exactly the streamed octets,
        nothing published changes and no temporary file remains. The execution is a run of
        the protocol. */
    method PutStream(chunks: seq<Octets>, expected: Option<int>, name: FileName, ino: Inode)
      returns (outcome: Option<Ref>, ghost trace: seq<(Pid, Action)>)
      requires Valid() && name !in temps && ino !in inodes
      modifies this
      ensures Valid() && temps == old(temps)
      ensures outcome ==
        if Wanted(store, Concat(chunks), expected) && SizeAgrees(store, old(Files()), Concat(chunks))
        then Some(RefOf(store, Concat(chunks))) else None
      ensures objects ==
        if Wanted(store, Concat(chunks), expected) && store.hash(Concat(chunks)) !in old(objects)
        then old(objects)[store.hash(Concat(chunks)) := ino] else old(objects)
      ensures ino in inodes && inodes == old(inodes)[ino := inodes[ino]]
      ensures Wanted(store, Concat(chunks), expected) ==> inodes[ino] == Concat(chunks)
      ensures Run(store, old(Alone(Files(), expected, Waiting)), trace) == Alone(Files(), expected, Finished(outcome, None))
    {
      ghost var w := Alone(Files(), expected, Waiting);
      var over, hashed;
      over, hashed, trace := WriteTemp(chunks, name, ino, expected);
      if over {
        outcome := None;
        trace := Cleanup(name, false, None, expected, w, trace);
      } else {
        var ok;
        ghost var published;
        ok, published, trace := LinkAndVerify(name, ino, hashed, expected, w, trace);
        outcome := if ok then Some(RefOf(store, hashed)) else None;
        trace := Cleanup(name, published, outcome, expected, w, trace);
      }
    }
  }
}
