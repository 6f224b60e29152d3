/**
  The reference machine of the memory system: every address space owns its pages, fork copies
  all of them, and a fork, process creation or store that waits for memory is merely unfinished.
 */
module Reference {
  import opened Sv39
  import opened Pool
  import opened Mm
  import opened Fork
  import opened Fault

  /** A request; ResumeOp continues the creation of the address space `child`, RetryOp the store of task r. */
  datatype Op =
    | SpawnOp
    | ForkOp(parent: nat, first: Vpn)
    | ResumeOp(child: nat)
    | StoreOp(r: nat, v: Vpn, x: nat, w: Word)
    | RetryOp(r: nat)
    | LoadOp(r: nat, v: Vpn, x: nat)
    | UnmapOp(r: nat, v: Vpn)
    | ExitOp(r: nat)

  /**
    What came of it.  Slept: the kernel waits for a free page, nothing else has changed.
    Began: the same, with the address space `child` begun for the task `caller`.  Waited: the same, and
    the task sleeps in the middle of its store.
   */
  datatype Event =
    | Ignored
    | Slept
    | Began(child: nat, caller: Option<nat>)
    | Waited(key: Key, x: nat, w: Word)
    | Spawned(r: nat)
    | Forked(parent: nat, child: nat)
    | Stored(key: Key, x: nat, w: Word)
    | Loaded(key: Key, x: nat, w: Word)
    | Unmapped(key: Key)
    | Exited(r: nat)

  type Spaces = map<Key, Frame>

  /** The word that an unfinished store will write. */
  datatype Wish = Wish(v: Vpn, x: nat, w: Word)

  /** The pages of all spaces, the live tasks, the unfinished children with their parents, and the unfinished stores. */
  datatype Ref = Ref(c: Spaces, live: set<nat>, halves: map<nat, Option<nat>>, stores: map<nat, Wish>)

  ghost function PageAt(c: Spaces, key: Key): Frame {
    if key in c then c[key] else ZeroFrame()
  }

  /** A task that is not asleep in a fork or a store of its own. */
  ghost predicate Awake(q: Ref, r: nat) {
    r in q.live && r !in q.stores && forall child :: child in q.halves ==> q.halves[child] != Some(r)
  }

  ghost predicate Fresh(q: Ref, r: nat) { r !in q.live && r !in q.halves }

  ghost predicate Room(q: Ref) { |q.live| + |q.halves| < MAX_TASKS }

  /** Whether the kernel acts on the request at all. */
  ghost predicate Enabled(ker: Frame, q: Ref, op: Op)
    requires |ker| == ENTRIES
  {
    match op
    case SpawnOp => Room(q)
    case ForkOp(parent, first) => Room(q) && Awake(q, parent) && StackEnds(ker, q.c.Keys, parent, first)
    case ResumeOp(child) => child in q.halves
    case StoreOp(r, v, x, _) => Awake(q, r) && User(ker, v) && x < ENTRIES
    case RetryOp(r) => r in q.stores
    case LoadOp(r, v, x) => Awake(q, r) && User(ker, v) && x < ENTRIES
    case UnmapOp(r, v) => Awake(q, r) && (r, v) in q.c
    case ExitOp(r) => Awake(q, r)
  }

  ghost function RefStep(q: Ref, e: Event): Ref {
    match e
    case Began(child, caller) => q.(halves := q.halves[child := caller])
    case Waited(key, x, w) => q.(stores := q.stores[key.0 := Wish(key.1, x, w)])
    case Spawned(r) => q.(live := q.live + {r}, halves := q.halves - {r})
    case Forked(parent, child) =>
      Ref(EagerFork(q.c, parent, child), q.live + {child}, q.halves - {child}, q.stores)
    case Stored(key, x, w) =>
      if x < |PageAt(q.c, key)| then q.(c := q.c[key := PageAt(q.c, key)[x := w]], stores := q.stores - {key.0}) else q
    case Loaded(key, _, _) => q.(c := Present(q.c, key))
    case Unmapped(key) => q.(c := q.c - {key})
    case Exited(r) => q.(c := WithoutSpace(q.c, r), live := q.live - {r})
    case _ => q
  }

  ghost function RefAfter(q: Ref, es: seq<Event>): Ref {
    if es == [] then q else RefStep(RefAfter(q, es[..|es| - 1]), es[|es| - 1])
  }

  predicate Sleeps(e: Event) { e.Slept? || e.Began? || e.Waited? }

  /**
    The event answers the request: it is ignored exactly when it is not enabled, a new address
    space is one not in use, and a load reports what the reference machine holds.
   */
  ghost predicate Answers(ker: Frame, q: Ref, op: Op, e: Event)
    requires |ker| == ENTRIES
  {
    && (e.Ignored? <==> !Enabled(ker, q, op))
    && match e
       case Ignored => true
       case Slept => !op.UnmapOp? && !op.ExitOp?
       case Began(child, caller) =>
         && Fresh(q, child)
         && ((op.SpawnOp? && caller == None) || (op.ForkOp? && caller == Some(op.parent)))
       case Spawned(r) =>
         (op.SpawnOp? && Fresh(q, r)) || (op == ResumeOp(r) && r in q.halves && q.halves[r] == None)
       case Forked(parent, child) =>
         || (op.ForkOp? && op.parent == parent && Fresh(q, child))
         || (op == ResumeOp(child) && child in q.halves && q.halves[child] == Some(parent))
       case Waited(key, x, w) => op == StoreOp(key.0, key.1, x, w) && key in q.c
       case Stored(key, x, w) =>
         || op == StoreOp(key.0, key.1, x, w)
         || (op == RetryOp(key.0) && key.0 in q.stores && q.stores[key.0] == Wish(key.1, x, w))
       case Loaded(key, x, w) =>
         op == LoadOp(key.0, key.1, x) && x < |PageAt(q.c, key)| && w == PageAt(q.c, key)[x]
       case Unmapped(key) => op == UnmapOp(key.0, key.1)
       case Exited(r) => op == ExitOp(r)
  }

  /** Every event of the run answers its request on the reference machine. */
  ghost predicate AllAnswered(ker: Frame, q: Ref, ops: seq<Op>, es: seq<Event>)
    requires |ker| == ENTRIES
  {
    |es| <= |ops| && forall n :: 0 <= n < |es| ==> Answers(ker, RefAfter(q, es[..n]), ops[n], es[n])
  }

  lemma RefAfterAppend(ker: Frame, q: Ref, ops: seq<Op>, es: seq<Event>, e: Event)
    requires |ker| == ENTRIES && AllAnswered(ker, q, ops, es) && |es| < |ops|
    requires Answers(ker, RefAfter(q, es), ops[|es|], e)
    ensures RefAfter(q, es + [e]) == RefStep(RefAfter(q, es), e)
    ensures AllAnswered(ker, q, ops, es + [e])
  {
    hide Answers, RefStep;
    assert (es + [e])[..|es|] == es;
    forall n | 0 <= n < |es| + 1 ensures Answers(ker, RefAfter(q, (es + [e])[..n]), ops[n], (es + [e])[n]) {
      if n < |es| { assert (es + [e])[..n] == es[..n]; }
    }
  }

  /** A creation that begins and ends in one request shows only its end. */
  lemma BeganThenDone(q: Ref, child: nat, caller: Option<nat>, parent: nat)
    requires Fresh(q, child)
    ensures RefStep(RefStep(q, Began(child, caller)), Spawned(child)) == RefStep(q, Spawned(child))
    ensures RefStep(RefStep(q, Began(child, caller)), Forked(parent, child)) == RefStep(q, Forked(parent, child))
  {
    assert q.halves[child := caller] - {child} == q.halves == q.halves - {child};
  }
}
