/** Concurrent content-addressed publication (src/avp_ref/artifacts/filesystem.py).

    Publishers and readers take one file-system step at a time, in any order; any step may
    fail and any process may crash. SHA-256 is an arbitrary function. */
module Publication {
  import opened Common

  type Pid = nat

  type FileName = nat

  type Inode = nat

  datatype Ref = Ref(digest: int, size: nat)

  datatype Phase =
    | Waiting
    | Writing(name: FileName, ino: Inode, hashed: Octets, buffered: Octets)
    | Aborting(name: FileName, ino: Inode, buffered: Octets)
    | Closed(name: FileName, ino: Inode, hashed: Octets)
    | Linking(name: FileName, ino: Inode, hashed: Octets)
    | Opening(name: FileName, ino: Inode, hashed: Octets, published: bool, last: bool)
    | Checking(name: FileName, ino: Inode, hashed: Octets, published: bool, last: bool, target: Inode, seen: Octets)
    | Unlinking(name: FileName, published: bool, outcome: Option<Ref>)
    | Finished(outcome: Option<Ref>, leaked: Option<FileName>)
    | Seeking(wanted: Ref)
    | Scanning(wanted: Ref, target: Inode, seen: Octets)
    | Ready(wanted: Ref, target: Inode, got: Octets)
    | Refused
    | Crashed(litter: Option<FileName>)

  /** The expected digest is a publisher's argument; readers have none. */
  datatype Process = Process(expected: Option<int>, phase: Phase)

  datatype World = World(
    inodes: map<Inode, Octets>, temps: map<FileName, Inode>, objects: map<int, Inode>, procs: map<Pid, Process>)

  datatype Store = Store(hash: Octets -> int, limit: nat)

  datatype Action =
    | MakeTemp(name: FileName, ino: Inode)
    | Feed(chunk: Octets)
    | Drain(count: nat)
    | Close
    | CheckExpected
    | Link
    | Open
    | ReadChunk(count: nat)
    | Compare
    | Unlink(works: bool)
    | Fail
    | Crash

  function RefOf(store: Store, hashed: Octets): Ref {
    Ref(store.hash(hashed), |hashed|)
  }

  /** The temporary file a process is responsible for. */
  function NameOf(p: Phase): Option<FileName> {
    match p
    case Writing(name, _, _, _) => Some(name)
    case Aborting(name, _, _) => Some(name)
    case Closed(name, _, _) => Some(name)
    case Linking(name, _, _) => Some(name)
    case Opening(name, _, _, _, _) => Some(name)
    case Checking(name, _, _, _, _, _, _) => Some(name)
    case Unlinking(name, _, _) => Some(name)
    case Finished(_, leaked) => leaked
    case Crashed(litter) => litter
    case _ => None
  }

  function Min(a: nat, b: nat): nat {
    if a < b then a else b
  }

  /** The next octets a sequential read of at most `count` delivers. */
  function More(content: Octets, seen: Octets, count: nat): Octets {
    if |seen| <= |content| then content[|seen|..Min(|seen| + count, |content|)] else []
  }

  function ToCleanup(p: Phase): Phase {
    match p
    case Waiting => Finished(None, None)
    case Writing(name, ino, _, buffered) => Aborting(name, ino, buffered)
    case Aborting(name, _, _) => Unlinking(name, false, None)
    case Closed(name, _, _) => Unlinking(name, false, None)
    case Linking(name, _, _) => Unlinking(name, false, None)
    case Opening(name, _, _, published, _) => Unlinking(name, published, None)
    case Checking(name, _, _, published, _, _, _) => Unlinking(name, published, None)
    case Seeking(_) => Refused
    case Scanning(_, _, _) => Refused
    case Ready(_, _, _) => Refused
    case _ => p
  }

  function With(w: World, pid: Pid, p: Phase): World
    requires pid in w.procs
  {
    w.(procs := w.procs[pid := w.procs[pid].(phase := p)])
  }

  /** `mkstemp`: a name and an inode nobody has. */
  function StepMakeTemp(w: World, pid: Pid, name: FileName, ino: Inode): World
    requires pid in w.procs
  {
    if w.procs[pid].phase.Waiting? && name !in w.temps && ino !in w.inodes then
      With(w.(inodes := w.inodes[ino := []], temps := w.temps[name := ino]), pid, Writing(name, ino, [], []))
    else w
  }

  /** One chunk of the stream: the limit is checked before the chunk is written and hashed. */
  function StepFeed(store: Store, w: World, pid: Pid, chunk: Octets): World
    requires pid in w.procs
  {
    match w.procs[pid].phase
    case Writing(name, ino, hashed, buffered) =>
      if |hashed| + |chunk| > store.limit then With(w, pid, Aborting(name, ino, buffered))
      else With(w, pid, Writing(name, ino, hashed + chunk, buffered + chunk))
    case _ => w
  }

  /** The file object hands part of its buffer to the operating system: while streaming, on
      flush, or when closed after an error. */
  function StepDrain(w: World, pid: Pid, count: nat): World
    requires pid in w.procs
  {
    match w.procs[pid].phase
    case Writing(name, ino, hashed, buffered) =>
      if count <= |buffered| && ino in w.inodes then
        With(w.(inodes := w.inodes[ino := w.inodes[ino] + buffered[..count]]), pid, Writing(name, ino, hashed, buffered[count..]))
      else w
    case Aborting(name, ino, buffered) =>
      if count <= |buffered| && ino in w.inodes then
        With(w.(inodes := w.inodes[ino := w.inodes[ino] + buffered[..count]]), pid, Aborting(name, ino, buffered[count..]))
      else w
    case _ => w
  }

  function StepClose(w: World, pid: Pid): World
    requires pid in w.procs
  {
    match w.procs[pid].phase
    case Writing(name, ino, hashed, buffered) => if buffered == [] then With(w, pid, Closed(name, ino, hashed)) else w
    case Aborting(name, _, _) => With(w, pid, Unlinking(name, false, None))
    case _ => w
  }

  function StepCheckExpected(store: Store, w: World, pid: Pid): World
    requires pid in w.procs
  {
    match w.procs[pid].phase
    case Closed(name, ino, hashed) =>
      if w.procs[pid].expected.None? || w.procs[pid].expected.value == store.hash(hashed) then
        With(w, pid, Linking(name, ino, hashed))
      else With(w, pid, Unlinking(name, false, None))
    case _ => w
  }

  /** `os.link` creates the object path or reports that it exists; a temporary name that is
      gone is an error. */
  function StepLink(store: Store, w: World, pid: Pid): World
    requires pid in w.procs
  {
    match w.procs[pid].phase
    case Linking(name, ino, hashed) =>
      if store.hash(hashed) in w.objects then With(w, pid, Opening(name, ino, hashed, false, false))
      else if name in w.temps then
        With(w.(objects := w.objects[store.hash(hashed) := w.temps[name]]), pid, Opening(name, ino, hashed, true, true))
      else With(w, pid, Unlinking(name, false, None))
    case _ => w
  }

  function StepOpen(store: Store, w: World, pid: Pid): World
    requires pid in w.procs
  {
    match w.procs[pid].phase
    case Opening(name, ino, hashed, published, last) =>
      if store.hash(hashed) in w.objects then
        With(w, pid, Checking(name, ino, hashed, published, last, w.objects[store.hash(hashed)], []))
      else With(w, pid, Unlinking(name, published, None))
    case Seeking(wanted) =>
      if wanted.digest in w.objects then With(w, pid, Scanning(wanted, w.objects[wanted.digest], []))
      else With(w, pid, Refused)
    case _ => w
  }

  function StepRead(w: World, pid: Pid, count: nat): World
    requires pid in w.procs
  {
    match w.procs[pid].phase
    case Checking(name, ino, hashed, published, last, o, seen) =>
      if o in w.inodes then With(w, pid, Checking(name, ino, hashed, published, last, o, seen + More(w.inodes[o], seen, count)))
      else w
    case Scanning(wanted, o, seen) =>
      if o in w.inodes then With(w, pid, Scanning(wanted, o, seen + More(w.inodes[o], seen, count))) else w
    case Ready(wanted, o, got) =>
      if o in w.inodes then With(w, pid, Ready(wanted, o, got + More(w.inodes[o], got, count))) else w
    case _ => w
  }

  /** The end of a verification: at end of file, digest and size are compared. A publisher that
      found the object existing verifies it twice; a reader rewinds and returns its handle. */
  function StepCompare(store: Store, w: World, pid: Pid): World
    requires pid in w.procs
  {
    match w.procs[pid].phase
    case Checking(name, ino, hashed, published, last, o, seen) =>
      if !(o in w.inodes && |w.inodes[o]| <= |seen|) then w
      else if RefOf(store, seen) != RefOf(store, hashed) then With(w, pid, Unlinking(name, published, None))
      else if last then With(w, pid, Unlinking(name, published, Some(RefOf(store, hashed))))
      else With(w, pid, Opening(name, ino, hashed, published, true))
    case Scanning(wanted, o, seen) =>
      if !(o in w.inodes && |w.inodes[o]| <= |seen|) then w
      else if RefOf(store, seen) != wanted then With(w, pid, Refused)
      else With(w, pid, Ready(wanted, o, []))
    case _ => w
  }

  /** The cleanup in `finally`: a failure to remove the temporary file is reported only after
      a publication without another error. */
  function StepUnlink(w: World, pid: Pid, works: bool): World
    requires pid in w.procs
  {
    match w.procs[pid].phase
    case Unlinking(name, published, outcome) =>
      if works then With(w.(temps := w.temps - {name}), pid, Finished(outcome, None))
      else With(w, pid, Finished(if published then None else outcome, Some(name)))
    case _ => w
  }

  /** One step of one process; an action that is not possible now changes nothing. */
  function Step(store: Store, w: World, pid: Pid, a: Action): World {
    if pid !in w.procs || w.procs[pid].phase.Crashed? then w
    else
      match a
      case MakeTemp(name, ino) => StepMakeTemp(w, pid, name, ino)
      case Feed(chunk) => StepFeed(store, w, pid, chunk)
      case Drain(count) => StepDrain(w, pid, count)
      case Close => StepClose(w, pid)
      case CheckExpected => StepCheckExpected(store, w, pid)
      case Link => StepLink(store, w, pid)
      case Open => StepOpen(store, w, pid)
      case ReadChunk(count) => StepRead(w, pid, count)
      case Compare => StepCompare(store, w, pid)
      case Unlink(works) => StepUnlink(w, pid, works)
      case Fail => With(w, pid, ToCleanup(w.procs[pid].phase))
      case Crash => With(w, pid, Crashed(NameOf(w.procs[pid].phase)))
  }

  // The invariant.

  /** The inode a publisher created and has not let go of. */
  function OwnInode(p: Phase): Option<Inode> {
    match p
    case Writing(_, ino, _, _) => Some(ino)
    case Aborting(_, ino, _) => Some(ino)
    case Closed(_, ino, _) => Some(ino)
    case Linking(_, ino, _) => Some(ino)
    case _ => None
  }

  ghost predicate Linked(w: World, ino: Inode) {
    exists d :: d in w.objects && w.objects[d] == ino
  }

  predicate IsPrefix(a: Octets, b: Octets) {
    |a| <= |b| && a == b[..|a|]
  }

  /** The object at this path is complete and has this digest and size. */
  predicate Holds(store: Store, w: World, r: Ref) {
    r.digest in w.objects && w.objects[r.digest] in w.inodes && RefOf(store, w.inodes[w.objects[r.digest]]) == r
  }

  predicate IsObject(w: World, digest: int, ino: Inode) {
    digest in w.objects && w.objects[digest] == ino && ino in w.inodes
  }

  /** A publisher before publication: its file is its own, not linked, named by its temporary
      name. */
  ghost predicate Private(w: World, name: FileName, ino: Inode) {
    ino in w.inodes && !Linked(w, ino) && name in w.temps && w.temps[name] == ino
  }

  ghost predicate PhaseOk(store: Store, w: World, p: Phase) {
    match p
    case Writing(name, ino, hashed, buffered) =>
      Private(w, name, ino) && w.inodes[ino] + buffered == hashed && |hashed| <= store.limit
    case Aborting(name, ino, _) => Private(w, name, ino)
    case Closed(name, ino, hashed) => Private(w, name, ino) && w.inodes[ino] == hashed && |hashed| <= store.limit
    case Linking(name, ino, hashed) => Private(w, name, ino) && w.inodes[ino] == hashed && |hashed| <= store.limit
    case Opening(_, ino, hashed, published, last) => Proposed(store, w, ino, hashed, published)
    case Checking(_, ino, hashed, published, last, o, seen) =>
      && Proposed(store, w, ino, hashed, published)
      && IsObject(w, store.hash(hashed), o) && IsPrefix(seen, w.inodes[o])
    case Unlinking(_, _, Some(r)) => Holds(store, w, r)
    case Finished(Some(r), _) => Holds(store, w, r)
    case Scanning(wanted, o, seen) => IsObject(w, wanted.digest, o) && IsPrefix(seen, w.inodes[o])
    case Ready(wanted, o, got) => Holds(store, w, wanted) && IsObject(w, wanted.digest, o) && IsPrefix(got, w.inodes[o])
    case _ => true
  }

  /** After `os.link`: the object exists, and is this publisher's file if it linked it. */
  ghost predicate Proposed(store: Store, w: World, ino: Inode, hashed: Octets, published: bool) {
    && store.hash(hashed) in w.objects && w.objects[store.hash(hashed)] in w.inodes
    && (published ==> w.objects[store.hash(hashed)] == ino && w.inodes[ino] == hashed)
  }

  ghost predicate ObjectsOk(store: Store, w: World) {
    forall d :: d in w.objects ==>
      && w.objects[d] in w.inodes && store.hash(w.inodes[w.objects[d]]) == d
      && |w.inodes[w.objects[d]]| <= store.limit
  }

  ghost predicate Apart(w: World) {
    forall p, q :: p in w.procs && q in w.procs && p != q && OwnInode(w.procs[p].phase).Some? ==>
      OwnInode(w.procs[p].phase) != OwnInode(w.procs[q].phase)
  }

  /** No two processes are responsible for one temporary file. */
  ghost predicate NamesApart(w: World) {
    forall p, q :: p in w.procs && q in w.procs && p != q && NameOf(w.procs[p].phase).Some? ==>
      NameOf(w.procs[p].phase) != NameOf(w.procs[q].phase)
  }

  ghost predicate NamesExist(w: World) {
    forall p :: p in w.procs && NameOf(w.procs[p].phase).Some? ==> NameOf(w.procs[p].phase).value in w.temps
  }

  ghost predicate Inv(store: Store, w: World) {
    && ObjectsOk(store, w) && Apart(w) && NamesApart(w) && NamesExist(w)
    && forall p :: p in w.procs ==> PhaseOk(store, w, w.procs[p].phase)
  }

  /** A world at rest: objects as earlier runs left them, every process about to begin. */
  ghost predicate Initial(store: Store, w: World) {
    && ObjectsOk(store, w)
    && forall p :: p in w.procs ==> w.procs[p].phase.Waiting? || w.procs[p].phase.Seeking?
  }

  /** Nothing published is altered: paths keep their inode, linked inodes their content. */
  ghost predicate Preserved(w: World, n: World) {
    forall d :: d in w.objects ==>
      && d in n.objects && n.objects[d] == w.objects[d]
      && (w.objects[d] in w.inodes ==> w.objects[d] in n.inodes && n.inodes[w.objects[d]] == w.inodes[w.objects[d]])
  }

  // Steps keep the invariant.

  /** A step of one process that touches no file. */
  lemma {:induction false} Quiet(store: Store, w: World, pid: Pid, p: Phase)
    requires Inv(store, w) && pid in w.procs && PhaseOk(store, w, p)
    requires OwnInode(p).None? || OwnInode(p) == OwnInode(w.procs[pid].phase)
    requires NameOf(p).None? || NameOf(p) == NameOf(w.procs[pid].phase)
    ensures Inv(store, With(w, pid, p)) && Preserved(w, With(w, pid, p))
  {
    var n := With(w, pid, p);
    forall q | q in n.procs ensures PhaseOk(store, n, n.procs[q].phase) {
      SameFiles(store, w, n, n.procs[q].phase);
      assert q != pid ==> n.procs[q] == w.procs[q];
    }
  }

  lemma {:induction false} SameFiles(store: Store, w: World, n: World, p: Phase)
    requires n.inodes == w.inodes && n.temps == w.temps && n.objects == w.objects
    ensures PhaseOk(store, n, p) == PhaseOk(store, w, p)
  {
    assert forall ino: Inode :: Linked(n, ino) == Linked(w, ino);
  }

  lemma {:induction false} MakeTempOthers(store: Store, w: World, n: World, name: FileName, ino: Inode, p: Phase)
    requires PhaseOk(store, w, p) && name !in w.temps && ino !in w.inodes
    requires n.inodes == w.inodes[ino := []] && n.temps == w.temps[name := ino] && n.objects == w.objects
    ensures PhaseOk(store, n, p) && OwnInode(p) != Some(ino)
  {
    assert forall i: Inode :: Linked(n, i) == Linked(w, i);
  }

  /** Every other process is as it was. */
  ghost predicate OnlyChanges(w: World, n: World, pid: Pid) {
    && pid in w.procs && n.procs.Keys == w.procs.Keys
    && forall q :: q in w.procs && q != pid ==> n.procs[q] == w.procs[q]
  }

  lemma {:induction false} TakeName(w: World, n: World, pid: Pid, name: FileName, ino: Inode)
    requires NamesApart(w) && NamesExist(w) && Apart(w) && OnlyChanges(w, n, pid)
    requires name !in w.temps && n.temps == w.temps[name := ino] && NameOf(n.procs[pid].phase) == Some(name)
    requires OwnInode(n.procs[pid].phase) == Some(ino)
    requires forall q :: q in w.procs && q != pid ==> OwnInode(w.procs[q].phase) != Some(ino)
    ensures NamesApart(n) && NamesExist(n) && Apart(n)
  {
    forall q | q in w.procs && q != pid ensures NameOf(w.procs[q].phase) != Some(name) {
    }
  }

  lemma {:induction false} DropName(w: World, n: World, pid: Pid, name: FileName)
    requires NamesApart(w) && NamesExist(w) && Apart(w) && OnlyChanges(w, n, pid)
    requires NameOf(w.procs[pid].phase) == Some(name) && NameOf(n.procs[pid].phase).None?
    requires OwnInode(n.procs[pid].phase).None? && n.temps == w.temps - {name}
    ensures NamesApart(n) && NamesExist(n) && Apart(n)
  {
  }

  lemma {:induction false} MakeTempPhases(store: Store, w: World, pid: Pid, name: FileName, ino: Inode)
    requires Inv(store, w) && pid in w.procs && w.procs[pid].phase.Waiting? && name !in w.temps && ino !in w.inodes
    ensures var n := StepMakeTemp(w, pid, name, ino);
      forall q :: q in n.procs ==>
        PhaseOk(store, n, n.procs[q].phase) && (q != pid ==> OwnInode(w.procs[q].phase) != Some(ino))
  {
    var n := StepMakeTemp(w, pid, name, ino);
    forall q | q in n.procs
      ensures PhaseOk(store, n, n.procs[q].phase) && (q != pid ==> OwnInode(w.procs[q].phase) != Some(ino))
    {
      if q != pid {
        MakeTempOthers(store, w, n, name, ino, w.procs[q].phase);
      } else {
        assert !Linked(n, ino);
      }
    }
  }

  lemma {:induction false} MakeTempKeeps(store: Store, w: World, pid: Pid, name: FileName, ino: Inode)
    requires Inv(store, w) && pid in w.procs
    ensures Inv(store, StepMakeTemp(w, pid, name, ino)) && Preserved(w, StepMakeTemp(w, pid, name, ino))
  {
    if w.procs[pid].phase.Waiting? && name !in w.temps && ino !in w.inodes {
      MakeTempPhases(store, w, pid, name, ino);
      TakeName(w, StepMakeTemp(w, pid, name, ino), pid, name, ino);
    }
  }

  lemma {:induction false} DrainOthers(store: Store, w: World, n: World, ino: Inode, p: Phase)
    requires ObjectsOk(store, w) && !Linked(w, ino) && ino in w.inodes && PhaseOk(store, w, p) && OwnInode(p) != Some(ino)
    requires n.temps == w.temps && n.objects == w.objects && ino in n.inodes && n.inodes == w.inodes[ino := n.inodes[ino]]
    ensures PhaseOk(store, n, p)
  {
    assert forall i: Inode :: Linked(n, i) == Linked(w, i);
    assert forall d :: d in w.objects ==> w.objects[d] != ino;
  }

  /** Writing to a private file is invisible to everyone else. */
  lemma {:induction false} DrainKeeps(store: Store, w: World, pid: Pid, count: nat)
    requires Inv(store, w) && pid in w.procs
    ensures Inv(store, StepDrain(w, pid, count)) && Preserved(w, StepDrain(w, pid, count))
  {
    var n := StepDrain(w, pid, count);
    var p := w.procs[pid].phase;
    if n != w {
      var ino := if p.Writing? then p.ino else p.ino;
      assert PhaseOk(store, w, p);
      assert forall i: Inode :: Linked(n, i) == Linked(w, i);
      assert forall d :: d in w.objects ==> w.objects[d] != ino;
      forall q | q in n.procs ensures PhaseOk(store, n, n.procs[q].phase) {
        if q != pid {
          DrainOthers(store, w, n, ino, w.procs[q].phase);
        } else if p.Writing? {
          assert p.buffered[..count] + p.buffered[count..] == p.buffered;
        }
      }
    }
  }

  lemma {:induction false} LinkOthers(store: Store, w: World, n: World, ino: Inode, d: int, p: Phase)
    requires PhaseOk(store, w, p) && OwnInode(p) != Some(ino)
    requires d !in w.objects && n.objects == w.objects[d := ino] && n.temps == w.temps && n.inodes == w.inodes
    ensures PhaseOk(store, n, p)
  {
    assert forall i: Inode :: i != ino && !Linked(w, i) ==> !Linked(n, i);
  }

  /** Publishing: the path appears with complete, correctly hashed content. */
  lemma {:induction false} LinkKeeps(store: Store, w: World, pid: Pid)
    requires Inv(store, w) && pid in w.procs && w.procs[pid].phase.Linking?
    requires store.hash(w.procs[pid].phase.hashed) !in w.objects
    ensures Inv(store, StepLink(store, w, pid)) && Preserved(w, StepLink(store, w, pid))
  {
    var n := StepLink(store, w, pid);
    var p := w.procs[pid].phase;
    assert PhaseOk(store, w, p);
    forall q | q in n.procs ensures PhaseOk(store, n, n.procs[q].phase) {
      if q != pid {
        LinkOthers(store, w, n, p.ino, store.hash(p.hashed), w.procs[q].phase);
      }
    }
  }

  lemma {:induction false} UnlinkOthers(store: Store, w: World, n: World, name: FileName, p: Phase)
    requires PhaseOk(store, w, p) && NameOf(p) != Some(name)
    requires n.inodes == w.inodes && n.objects == w.objects && n.temps == w.temps - {name}
    ensures PhaseOk(store, n, p)
  {
    assert forall i: Inode :: Linked(n, i) == Linked(w, i);
  }

  lemma {:induction false} RemoveKeeps(store: Store, w: World, pid: Pid)
    requires Inv(store, w) && pid in w.procs && w.procs[pid].phase.Unlinking?
    ensures Inv(store, StepUnlink(w, pid, true)) && Preserved(w, StepUnlink(w, pid, true))
  {
    var n := StepUnlink(w, pid, true);
    var p := w.procs[pid].phase;
    assert PhaseOk(store, w, p);
    forall q | q in w.procs && q != pid ensures PhaseOk(store, n, n.procs[q].phase) {
      UnlinkOthers(store, w, n, p.name, w.procs[q].phase);
    }
    DropName(w, n, pid, p.name);
    assert PhaseOk(store, n, n.procs[pid].phase);
  }

  lemma {:induction false} UnlinkKeeps(store: Store, w: World, pid: Pid, works: bool)
    requires Inv(store, w) && pid in w.procs
    ensures Inv(store, StepUnlink(w, pid, works)) && Preserved(w, StepUnlink(w, pid, works))
  {
    var p := w.procs[pid].phase;
    if p.Unlinking? {
      if works {
        RemoveKeeps(store, w, pid);
      } else {
        assert PhaseOk(store, w, p);
        Quiet(store, w, pid, StepUnlink(w, pid, works).procs[pid].phase);
      }
    }
  }

  lemma {:induction false} FeedKeeps(store: Store, w: World, pid: Pid, chunk: Octets)
    requires Inv(store, w) && pid in w.procs
    ensures Inv(store, StepFeed(store, w, pid, chunk)) && Preserved(w, StepFeed(store, w, pid, chunk))
  {
    var p := w.procs[pid].phase;
    if p.Writing? {
      assert PhaseOk(store, w, p);
      assert w.inodes[p.ino] + (p.buffered + chunk) == p.hashed + chunk;
      Quiet(store, w, pid, StepFeed(store, w, pid, chunk).procs[pid].phase);
    }
  }

  lemma {:induction false} CloseKeeps(store: Store, w: World, pid: Pid)
    requires Inv(store, w) && pid in w.procs
    ensures Inv(store, StepClose(w, pid)) && Preserved(w, StepClose(w, pid))
  {
    var p := w.procs[pid].phase;
    if (p.Writing? && p.buffered == []) || p.Aborting? {
      assert PhaseOk(store, w, p);
      Quiet(store, w, pid, StepClose(w, pid).procs[pid].phase);
    }
  }

  lemma {:induction false} CheckExpectedKeeps(store: Store, w: World, pid: Pid)
    requires Inv(store, w) && pid in w.procs
    ensures Inv(store, StepCheckExpected(store, w, pid)) && Preserved(w, StepCheckExpected(store, w, pid))
  {
    var p := w.procs[pid].phase;
    if p.Closed? {
      assert PhaseOk(store, w, p);
      Quiet(store, w, pid, StepCheckExpected(store, w, pid).procs[pid].phase);
    }
  }

  lemma {:induction false} AnyLinkKeeps(store: Store, w: World, pid: Pid)
    requires Inv(store, w) && pid in w.procs
    ensures Inv(store, StepLink(store, w, pid)) && Preserved(w, StepLink(store, w, pid))
  {
    var p := w.procs[pid].phase;
    if p.Linking? {
      assert PhaseOk(store, w, p);
      if store.hash(p.hashed) in w.objects {
        var d := store.hash(p.hashed);
        assert w.objects[d] in w.inodes;
        Quiet(store, w, pid, Opening(p.name, p.ino, p.hashed, false, false));
      } else {
        LinkKeeps(store, w, pid);
      }
    }
  }

  lemma {:induction false} OpenKeeps(store: Store, w: World, pid: Pid)
    requires Inv(store, w) && pid in w.procs
    ensures Inv(store, StepOpen(store, w, pid)) && Preserved(w, StepOpen(store, w, pid))
  {
    var p := w.procs[pid].phase;
    if p.Opening? || p.Seeking? {
      assert PhaseOk(store, w, p);
      Quiet(store, w, pid, StepOpen(store, w, pid).procs[pid].phase);
    }
  }

  lemma {:induction false} MorePrefix(content: Octets, seen: Octets, count: nat)
    requires IsPrefix(seen, content)
    ensures IsPrefix(seen + More(content, seen, count), content)
  {
  }

  lemma {:induction false} ReadKeeps(store: Store, w: World, pid: Pid, count: nat)
    requires Inv(store, w) && pid in w.procs
    ensures Inv(store, StepRead(w, pid, count)) && Preserved(w, StepRead(w, pid, count))
  {
    var p := w.procs[pid].phase;
    if p.Checking? || p.Scanning? || p.Ready? {
      assert PhaseOk(store, w, p);
      var o := if p.Checking? then p.target else if p.Scanning? then p.target else p.target;
      var seen := if p.Checking? then p.seen else if p.Scanning? then p.seen else p.got;
      MorePrefix(w.inodes[o], seen, count);
      Quiet(store, w, pid, StepRead(w, pid, count).procs[pid].phase);
    }
  }

  lemma {:induction false} CompareKeeps(store: Store, w: World, pid: Pid)
    requires Inv(store, w) && pid in w.procs
    ensures Inv(store, StepCompare(store, w, pid)) && Preserved(w, StepCompare(store, w, pid))
  {
    var p := w.procs[pid].phase;
    if p.Checking? || p.Scanning? {
      assert PhaseOk(store, w, p);
      var o := if p.Checking? then p.target else p.target;
      var seen := if p.Checking? then p.seen else p.seen;
      assert |w.inodes[o]| <= |seen| ==> seen == w.inodes[o];
      if StepCompare(store, w, pid) != w {
        Quiet(store, w, pid, StepCompare(store, w, pid).procs[pid].phase);
      }
    }
  }

  lemma {:induction false} EndKeeps(store: Store, w: World, pid: Pid, crash: bool)
    requires Inv(store, w) && pid in w.procs
    ensures var p := w.procs[pid].phase;
      var n := With(w, pid, if crash then Crashed(NameOf(p)) else ToCleanup(p));
      Inv(store, n) && Preserved(w, n)
  {
    var p := w.procs[pid].phase;
    assert PhaseOk(store, w, p);
    Quiet(store, w, pid, if crash then Crashed(NameOf(p)) else ToCleanup(p));
  }

  /** Whatever one process does next, published content is intact and the invariant holds. */
  lemma {:induction false} StepKeeps(store: Store, w: World, pid: Pid, a: Action)
    requires Inv(store, w)
    ensures Inv(store, Step(store, w, pid, a)) && Preserved(w, Step(store, w, pid, a))
  {
    if pid in w.procs && !w.procs[pid].phase.Crashed? {
      match a {
        case MakeTemp(name, ino) => MakeTempKeeps(store, w, pid, name, ino);
        case Feed(chunk) => FeedKeeps(store, w, pid, chunk);
        case Drain(count) => DrainKeeps(store, w, pid, count);
        case Close => CloseKeeps(store, w, pid);
        case CheckExpected => CheckExpectedKeeps(store, w, pid);
        case Link => AnyLinkKeeps(store, w, pid);
        case Open => OpenKeeps(store, w, pid);
        case ReadChunk(count) => ReadKeeps(store, w, pid, count);
        case Compare => CompareKeeps(store, w, pid);
        case Unlink(works) => UnlinkKeeps(store, w, pid, works);
        case Fail => EndKeeps(store, w, pid, false);
        case Crash => EndKeeps(store, w, pid, true);
      }
    }
  }

  // Runs.

  function Run(store: Store, w: World, steps: seq<(Pid, Action)>): World
    decreases |steps|
  {
    if |steps| == 0 then w else Run(store, Step(store, w, steps[0].0, steps[0].1), steps[1..])
  }

  lemma {:induction false} InitialInv(store: Store, w: World)
    requires Initial(store, w)
    ensures Inv(store, w)
  {
  }

  lemma {:induction false} PreservedChain(a: World, b: World, c: World)
    requires Preserved(a, b) && Preserved(b, c)
    ensures Preserved(a, c)
  {
  }

  /** Under any interleaving of any processes, with failures and crashes anywhere: a path once
      present keeps its inode forever, no step writes that inode again, and everything present hashes to its
      path and respects the size limit. */
  lemma {:induction false} PublishedIsForever(store: Store, w: World, steps: seq<(Pid, Action)>)
    requires Inv(store, w)
    ensures Inv(store, Run(store, w, steps)) && Preserved(w, Run(store, w, steps))
    decreases |steps|
  {
    if |steps| != 0 {
      var n := Step(store, w, steps[0].0, steps[0].1);
      StepKeeps(store, w, steps[0].0, steps[0].1);
      PublishedIsForever(store, n, steps[1..]);
      PreservedChain(w, n, Run(store, n, steps[1..]));
    }
  }

  /** A reference that a publisher returned names an object with that digest and size, at the
      time and for as long as the store exists. */
  lemma {:induction false} ReturnedRefsHold(store: Store, w: World, pid: Pid, steps: seq<(Pid, Action)>)
    requires Inv(store, w) && pid in w.procs && w.procs[pid].phase.Finished? && w.procs[pid].phase.outcome.Some?
    ensures Holds(store, Run(store, w, steps), w.procs[pid].phase.outcome.value)
  {
    PublishedIsForever(store, w, steps);
    assert PhaseOk(store, w, w.procs[pid].phase);
  }

  /** What a successful reader has read so far is a prefix of the object at its path, which has
      the digest and size of the reference, now and later. */
  lemma {:induction false} ReadsAgree(store: Store, w: World, pid: Pid, steps: seq<(Pid, Action)>)
    requires Inv(store, w) && pid in w.procs && w.procs[pid].phase.Ready?
    ensures var r, n := w.procs[pid].phase, Run(store, w, steps);
      && Holds(store, n, r.wanted) && IsPrefix(r.got, n.inodes[n.objects[r.wanted.digest]])
      && (|r.got| == r.wanted.size ==> store.hash(r.got) == r.wanted.digest)
  {
    PublishedIsForever(store, w, steps);
    var r := w.procs[pid].phase;
    assert PhaseOk(store, w, r);
    assert |r.got| == r.wanted.size ==> r.got == w.inodes[w.objects[r.wanted.digest]];
  }

  // What a publisher's reference says about its stream.

  /** The octets a publisher has taken from its stream and not given up. */
  function Streamed(p: Phase): Option<Octets> {
    match p
    case Waiting => Some([])
    case Writing(_, _, hashed, _) => Some(hashed)
    case Closed(_, _, hashed) => Some(hashed)
    case Linking(_, _, hashed) => Some(hashed)
    case Opening(_, _, hashed, _, _) => Some(hashed)
    case Checking(_, _, hashed, _, _, _, _) => Some(hashed)
    case _ => None
  }

  /** The reference a process is about to return, or has returned. */
  function Outcome(p: Phase): Option<Ref> {
    match p
    case Unlinking(_, _, outcome) => outcome
    case Finished(outcome, _) => outcome
    case _ => None
  }

  /** The chunk process `pid` takes in this step. */
  function Taken(w: World, pid: Pid, actor: Pid, a: Action): Octets {
    if actor == pid && a.Feed? && pid in w.procs && w.procs[pid].phase.Writing? then a.chunk else []
  }

  /** Everything process `pid` takes from its stream in a run, in order. */
  function Fed(store: Store, w: World, pid: Pid, steps: seq<(Pid, Action)>): Octets
    decreases |steps|
  {
    if |steps| == 0 then []
    else Taken(w, pid, steps[0].0, steps[0].1) + Fed(store, Step(store, w, steps[0].0, steps[0].1), pid, steps[1..])
  }

  /** What a step does to its own process: the temporary name stays in charge, and stream and
      outcome develop lawfully. */
  ghost predicate Lawful(store: Store, p: Phase, a: Action, q: Phase) {
    && (!a.MakeTemp? && !a.Unlink? ==> NameOf(q) == NameOf(p))
    && (Streamed(p).None? ==> Streamed(q).None? && (Outcome(q).Some? ==> Outcome(q) == Outcome(p)))
    && (Streamed(p).Some? ==>
          var taken := if a.Feed? && p.Writing? then a.chunk else [];
          if Streamed(q).Some? then Streamed(q).value == Streamed(p).value + taken
          else Outcome(q).Some? ==> Outcome(q) == Some(RefOf(store, Streamed(p).value)) && taken == [])
  }

  /** Only the acting process changes phase. */
  ghost predicate Acts(store: Store, w: World, pid: Pid, a: Action, n: World) {
    && n.procs.Keys == w.procs.Keys && pid in w.procs
    && (forall q :: q in w.procs && q != pid ==> n.procs[q] == w.procs[q])
    && (!a.MakeTemp? && !a.Unlink? ==> n.temps == w.temps)
    && Lawful(store, w.procs[pid].phase, a, n.procs[pid].phase)
  }

  lemma {:induction false} WritingActs(store: Store, w: World, pid: Pid, a: Action)
    requires pid in w.procs && !w.procs[pid].phase.Crashed?
    ensures a.Feed? ==> Acts(store, w, pid, a, StepFeed(store, w, pid, a.chunk))
    ensures a.Drain? ==> Acts(store, w, pid, a, StepDrain(w, pid, a.count))
    ensures a.Close? ==> Acts(store, w, pid, a, StepClose(w, pid))
  {
  }

  lemma {:induction false} LinkingActs(store: Store, w: World, pid: Pid, a: Action)
    requires pid in w.procs && !w.procs[pid].phase.Crashed?
    ensures a.CheckExpected? ==> Acts(store, w, pid, a, StepCheckExpected(store, w, pid))
    ensures a.Link? ==> Acts(store, w, pid, a, StepLink(store, w, pid))
  {
  }

  lemma {:induction false} OpeningActs(store: Store, w: World, pid: Pid, a: Action)
    requires pid in w.procs && !w.procs[pid].phase.Crashed?
    ensures a.Open? ==> Acts(store, w, pid, a, StepOpen(store, w, pid))
  {
  }

  lemma {:induction false} ReadingActs(store: Store, w: World, pid: Pid, a: Action)
    requires pid in w.procs && !w.procs[pid].phase.Crashed?
    ensures a.ReadChunk? ==> Acts(store, w, pid, a, StepRead(w, pid, a.count))
    ensures a.Compare? ==> Acts(store, w, pid, a, StepCompare(store, w, pid))
  {
  }

  lemma {:induction false} EndingActs(store: Store, w: World, pid: Pid, a: Action)
    requires pid in w.procs && !w.procs[pid].phase.Crashed?
    ensures a.MakeTemp? ==> Acts(store, w, pid, a, StepMakeTemp(w, pid, a.name, a.ino))
    ensures a.Unlink? ==> Acts(store, w, pid, a, StepUnlink(w, pid, a.works))
    ensures a.Fail? ==> Acts(store, w, pid, a, With(w, pid, ToCleanup(w.procs[pid].phase)))
    ensures a.Crash? ==> Acts(store, w, pid, a, With(w, pid, Crashed(NameOf(w.procs[pid].phase))))
  {
  }

  lemma {:induction false} StepActs(store: Store, w: World, pid: Pid, a: Action)
    requires pid in w.procs && !w.procs[pid].phase.Crashed?
    ensures Acts(store, w, pid, a, Step(store, w, pid, a))
  {
    WritingActs(store, w, pid, a);
    LinkingActs(store, w, pid, a);
    OpeningActs(store, w, pid, a);
    ReadingActs(store, w, pid, a);
    EndingActs(store, w, pid, a);
  }

  lemma {:induction false} StreamStep(store: Store, w: World, pid: Pid, actor: Pid, a: Action)
    requires pid in w.procs && Streamed(w.procs[pid].phase).Some?
    ensures pid in Step(store, w, actor, a).procs
    ensures var was, now := Streamed(w.procs[pid].phase).value, Step(store, w, actor, a).procs[pid].phase;
      if Streamed(now).Some? then Streamed(now).value == was + Taken(w, pid, actor, a)
      else Outcome(now).Some? ==> Outcome(now) == Some(RefOf(store, was)) && Taken(w, pid, actor, a) == []
  {
    if actor in w.procs && !w.procs[actor].phase.Crashed? {
      StepActs(store, w, actor, a);
    }
  }

  lemma {:induction false} DoneStep(store: Store, w: World, pid: Pid, actor: Pid, a: Action)
    requires pid in w.procs && Streamed(w.procs[pid].phase).None?
    ensures pid in Step(store, w, actor, a).procs && Taken(w, pid, actor, a) == []
    ensures var now := Step(store, w, actor, a).procs[pid].phase;
      Streamed(now).None? && (Outcome(now).Some? ==> Outcome(now) == Outcome(w.procs[pid].phase))
  {
    if actor in w.procs && !w.procs[actor].phase.Crashed? {
      StepActs(store, w, actor, a);
    }
  }

  lemma {:induction false} DoneStays(store: Store, w: World, pid: Pid, steps: seq<(Pid, Action)>)
    requires pid in w.procs && Streamed(w.procs[pid].phase).None?
    ensures pid in Run(store, w, steps).procs && Fed(store, w, pid, steps) == []
    ensures var now := Run(store, w, steps).procs[pid].phase;
      Outcome(now).Some? ==> Outcome(now) == Outcome(w.procs[pid].phase)
    decreases |steps|
  {
    if |steps| != 0 {
      DoneStep(store, w, pid, steps[0].0, steps[0].1);
      DoneStays(store, Step(store, w, steps[0].0, steps[0].1), pid, steps[1..]);
    }
  }

  /** A returned reference has the digest and the size of exactly the octets streamed. */
  lemma {:induction false} RefNamesTheStream(store: Store, w: World, pid: Pid, steps: seq<(Pid, Action)>)
    requires pid in w.procs && Streamed(w.procs[pid].phase).Some?
    ensures pid in Run(store, w, steps).procs
    ensures var now := Run(store, w, steps).procs[pid].phase;
      Outcome(now).Some? ==>
        Outcome(now) == Some(RefOf(store, Streamed(w.procs[pid].phase).value + Fed(store, w, pid, steps)))
    decreases |steps|
  {
    if |steps| != 0 {
      var n := Step(store, w, steps[0].0, steps[0].1);
      var was, taken := Streamed(w.procs[pid].phase).value, Taken(w, pid, steps[0].0, steps[0].1);
      StreamStep(store, w, pid, steps[0].0, steps[0].1);
      var rest := Fed(store, n, pid, steps[1..]);
      if Streamed(n.procs[pid].phase).Some? {
        RefNamesTheStream(store, n, pid, steps[1..]);
        assert was + (taken + rest) == was + taken + rest;
      } else {
        DoneStays(store, n, pid, steps[1..]);
        assert taken == [] ==> was + (taken + rest) == was;
      }
    }
  }

  /** From rest, with a hash that distinguishes contents: the object a returned reference
      names holds exactly the octets its publisher streamed, whoever published it first. */
  lemma {:induction false} ObjectsHoldTheStream(store: Store, w: World, pid: Pid, steps: seq<(Pid, Action)>)
    requires Initial(store, w) && pid in w.procs && w.procs[pid].phase.Waiting?
    requires forall a, b :: store.hash(a) == store.hash(b) ==> a == b
    ensures pid in Run(store, w, steps).procs
    ensures var n := Run(store, w, steps);
      var p := n.procs[pid].phase;
      p.Finished? && p.outcome.Some? ==>
        Holds(store, n, p.outcome.value) && n.inodes[n.objects[p.outcome.value.digest]] == Fed(store, w, pid, steps)
  {
    InitialInv(store, w);
    PublishedIsForever(store, w, steps);
    RefNamesTheStream(store, w, pid, steps);
    var n := Run(store, w, steps);
    assert PhaseOk(store, n, n.procs[pid].phase);
    assert [] + Fed(store, w, pid, steps) == Fed(store, w, pid, steps);
  }

  // Verifications.

  /** The process has read its object to the end: its next step compares digest and size. */
  predicate AtEnd(w: World, p: Phase) {
    match p
    case Checking(_, _, _, _, _, o, seen) => o in w.inodes && |w.inodes[o]| <= |seen|
    case Scanning(_, o, seen) => o in w.inodes && |w.inodes[o]| <= |seen|
    case _ => false
  }

  /** The comparison has failed: a publisher gives up, a reader is refused. */
  predicate Mismatched(p: Phase) {
    p.Refused? || (p.Unlinking? && p.outcome.None?)
  }

  lemma {:induction false} WholeObjectSeen(w: World, o: Inode, seen: Octets)
    requires o in w.inodes && IsPrefix(seen, w.inodes[o]) && |w.inodes[o]| <= |seen|
    ensures seen == w.inodes[o]
  {
  }

  /** On every run a comparison fails exactly if the object at the path is of another size than
      the stream, which takes a collision, or than the reader's reference. */
  lemma {:induction false} ComparisonFailsExactly(store: Store, w: World, steps: seq<(Pid, Action)>, pid: Pid)
    requires Inv(store, w)
    requires var n := Run(store, w, steps); pid in n.procs && AtEnd(n, n.procs[pid].phase)
    ensures var n := Run(store, w, steps);
      && pid in Step(store, n, pid, Compare).procs
      && (Mismatched(Step(store, n, pid, Compare).procs[pid].phase) <==>
            match n.procs[pid].phase
            case Checking(_, _, hashed, _, _, o, _) => o in n.inodes && |n.inodes[o]| != |hashed|
            case Scanning(wanted, o, _) => o in n.inodes && |n.inodes[o]| != wanted.size
            case _ => false)
  {
    PublishedIsForever(store, w, steps);
    var n := Run(store, w, steps);
    assert PhaseOk(store, n, n.procs[pid].phase);
    match n.procs[pid].phase {
      case Checking(_, _, _, _, _, o, seen) => WholeObjectSeen(n, o, seen);
      case Scanning(_, o, seen) => WholeObjectSeen(n, o, seen);
    }
  }

  /** With a hash that distinguishes contents, no publisher's verification ever fails. */
  lemma {:induction false} PublishersNeverMismatch(store: Store, w: World, steps: seq<(Pid, Action)>, pid: Pid)
    requires Inv(store, w) && forall a, b :: store.hash(a) == store.hash(b) ==> a == b
    requires var n := Run(store, w, steps);
      pid in n.procs && n.procs[pid].phase.Checking? && AtEnd(n, n.procs[pid].phase)
    ensures var n := Run(store, w, steps);
      pid in Step(store, n, pid, Compare).procs && !Mismatched(Step(store, n, pid, Compare).procs[pid].phase)
  {
    ComparisonFailsExactly(store, w, steps, pid);
    PublishedIsForever(store, w, steps);
    var n := Run(store, w, steps);
    assert PhaseOk(store, n, n.procs[pid].phase);
  }

  /** A reader of a reference that holds is never refused by the comparison. */
  lemma {:induction false} ReadersOfHeldRefsSucceed(store: Store, w: World, steps: seq<(Pid, Action)>, pid: Pid)
    requires Inv(store, w)
    requires var n := Run(store, w, steps);
      pid in n.procs && n.procs[pid].phase.Scanning? && AtEnd(n, n.procs[pid].phase) && Holds(store, n, n.procs[pid].phase.wanted)
    ensures var n := Run(store, w, steps);
      pid in Step(store, n, pid, Compare).procs && Step(store, n, pid, Compare).procs[pid].phase.Ready?
  {
    ComparisonFailsExactly(store, w, steps, pid);
    PublishedIsForever(store, w, steps);
    var n := Run(store, w, steps);
    assert PhaseOk(store, n, n.procs[pid].phase);
  }

  // Temporary files.

  ghost predicate Attended(w: World, t: FileName) {
    exists p :: p in w.procs && NameOf(w.procs[p].phase) == Some(t)
  }

  /** Every temporary file is older litter or some process answers for it. */
  ghost predicate Tended(w: World, litter: set<FileName>) {
    forall t :: t in w.temps ==> t in litter || Attended(w, t)
  }

  lemma {:induction false} StepNames(store: Store, w: World, pid: Pid, a: Action)
    requires !a.MakeTemp? && !a.Unlink?
    ensures var n := Step(store, w, pid, a);
      n.temps == w.temps && n.procs.Keys == w.procs.Keys
      && forall q :: q in w.procs ==> NameOf(n.procs[q].phase) == NameOf(w.procs[q].phase)
  {
    if pid in w.procs && !w.procs[pid].phase.Crashed? {
      StepActs(store, w, pid, a);
    }
  }

  lemma {:induction false} StillAttended(w: World, n: World, t: FileName)
    requires Attended(w, t)
    requires forall q :: q in w.procs && NameOf(w.procs[q].phase) == Some(t) ==>
      q in n.procs && NameOf(n.procs[q].phase) == Some(t)
    ensures Attended(n, t)
  {
    var p :| p in w.procs && NameOf(w.procs[p].phase) == Some(t);
    assert p in n.procs && NameOf(n.procs[p].phase) == Some(t);
  }

  lemma {:induction false} StepTends(store: Store, w: World, pid: Pid, a: Action, litter: set<FileName>)
    requires Tended(w, litter)
    ensures Tended(Step(store, w, pid, a), litter)
  {
    var n := Step(store, w, pid, a);
    if !a.MakeTemp? && !a.Unlink? {
      StepNames(store, w, pid, a);
    }
    forall t | t in n.temps && t !in litter ensures Attended(n, t) {
      if t in w.temps {
        StillAttended(w, n, t);
      } else {
        assert NameOf(n.procs[pid].phase) == Some(t);
      }
    }
  }

  /** No temporary file is left behind unnoticed: after any run each one is older than the run,
      or its publisher is still at work, crashed, or was told that removing it failed. */
  lemma {:induction false} TempFilesAreTended(store: Store, w: World, steps: seq<(Pid, Action)>, litter: set<FileName>)
    requires Tended(w, litter)
    ensures Tended(Run(store, w, steps), litter)
    decreases |steps|
  {
    if |steps| != 0 {
      StepTends(store, w, steps[0].0, steps[0].1, litter);
      TempFilesAreTended(store, Step(store, w, steps[0].0, steps[0].1), steps[1..], litter);
    }
  }
}
