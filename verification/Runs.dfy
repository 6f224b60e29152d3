/**
  Whole runs of the memory system: any sequence of process creations, forks, stores, loads,
  unmappings and exits behaves as if fork copied every page, also when forks and creations
  have to wait for free pages while the other tasks go on.
 */
module Runs {
  import opened Seqs
  import opened Sv39
  import opened Ownership
  import opened Pool
  import opened Mm
  import opened Fork
  import opened Fault
  import opened Teardown
  import opened Reference
  import opened Halves

  lemma GrowsKinds(s: Vm, t: Vm)
    requires Grows(s, t, {})
    ensures Roots(t) == Roots(s) && HeldPages(t) == HeldPages(s)
  {
  }

  lemma RootKinds(s: Vm, t: Vm, root: nat)
    requires Grows(s, t, {root}) && root < |s.roles| && s.roles[root] == Free && t.roles[root] == Root
    ensures Roots(t) == Roots(s) + {root} && HeldPages(t) == HeldPages(s) && root !in Roots(s)
  {
  }

  lemma AllocKinds(s: Vm, n: nat)
    requires s.free != [] && n == s.free[0] && n < |s.frames| == |s.share| == |s.roles| && s.roles[n] == Free
    ensures Roots(Alloc(s)) == Roots(s) && HeldPages(Alloc(s)) == HeldPages(s) + {n} && n !in HeldPages(s)
  {
  }

  lemma UnmapKinds(s: Vm, t: Vm)
    requires |t.roles| == |s.roles|
    requires forall f: nat :: f < |t.roles| ==> t.roles[f] == s.roles[f] || (s.roles[f] == Data && t.roles[f] == Free)
    ensures Roots(t) == Roots(s) && HeldPages(t) == HeldPages(s)
  {
  }

  lemma ReleaseKinds(s: Vm, n: nat)
    requires n < |s.share| == |s.roles| && s.share[n] > 0 && s.roles[n] == Held
    ensures Roots(Release(s, n)) == Roots(s) && HeldPages(Release(s, n)) == HeldPages(s) - {n}
    ensures |Release(s, n).roles| == |s.roles|
  {
  }

  lemma DropKinds(s: Vm, r: nat, share: seq<nat>, free: seq<nat>)
    requires Inv(s) && IsRoot(s, r) && |s.share| == |s.roles| && Dropped(s, r, share, free)
    ensures Roots(Drop(s, r, share, free)) == Roots(s) - {r}
    ensures HeldPages(Drop(s, r, share, free)) == HeldPages(s) && |Drop(s, r, share, free).roles| == |s.roles|
  {
    hide Tree, CowOk, OnceOk, Slots, NoDup;
    forall f: nat | f < |s.roles| && Maps(s.pt, r, f) ensures s.roles[f] == Data {
      var v: Vpn :| (r, v) in s.pt && Node(s.pt[(r, v)]) == f;
      assert Points(s.pt[(r, v)], s.roles, Data);
    }
    assert HeldBy(s, r, r);
  }

  lemma IsStack(s: Vm, t: Table, held: set<nat>, r: nat)
    requires Ok(s, t, held) && r in t.stacks
    ensures t.stacks[r] < |s.roles| && s.roles[t.stacks[r]] == Held
  {
    hide Inv, Contents, BuiltExcept, ParentsOk;
    assert t.stacks[r] in Stacks(t.stacks);
    assert t.stacks[r] in HeldPages(s);
  }

  /** The kernel is in state m, with task table t. */
  ghost predicate At(m: Memory, t: Table, held: set<nat>)
    reads m
  {
    m.Valid() && Ok(m.View(), t, held)
  }

  ghost function RefOf(m: Memory, t: Table, held: set<nat>): Ref
    reads m
    requires At(m, t, held)
  {
    Abs(m.Spaces(), t)
  }

  /** allocPage for the kernel stack of an unfinished space. */
  method StackStage(m: Memory, t: Table, ghost held: set<nat>, child: nat) returns (ok: bool, t': Table)
    requires At(m, t, held) && child in t.halves && !HasStack(t.halves[child])
    modifies m
    ensures At(m, t', held) && |m.roles| == old(|m.roles|)
    ensures ok && t.halves[child].SpawnStack? ==> RefOf(m, t', held) == RefStep(old(RefOf(m, t, held)), Spawned(child))
    ensures ok && t.halves[child].ForkStack? ==> RefOf(m, t', held) == old(RefOf(m, t, held))
    ensures ok && t.halves[child].ForkStack? ==>
              child in t'.halves && t'.halves[child] == ForkPages(t.halves[child].parent, t.halves[child].first, t.halves[child].first)
    ensures !ok ==> t' == t && m.free == [] == old(m.free) && RefOf(m, t', held) == old(RefOf(m, t, held))
  {
    if m.free == [] {
      return false, t;
    }
    ghost var s := m.View();
    EmptySoFar(s, t, held, child);
    hide Inv, Contents, Ok, Abs, Roots, HeldPages, NoPages;
    var kstack := m.AllocPage();
    AllocKinds(s, kstack);
    t' := Stacked(t, child, kstack);
    StackedOk(s, m.View(), t, held, child, kstack);
    if t.halves[child].SpawnStack? {
      AbsSpawned(m.Spaces(), t, child, kstack);
    } else {
      AbsStacked(m.Spaces(), t, child, kstack);
    }
    ok := true;
  }

  lemma EmptySoFar(s: Vm, t: Table, held: set<nat>, child: nat)
    requires Ok(s, t, held) && child in t.halves && !HasStack(t.halves[child])
    ensures NoPages(Contents(s), child)
  {
    hide Inv, Contents, TableOk, StackEnds;
    assert Built(s.ker, s.pt, Contents(s), child, t.halves[child]);
  }

  lemma BuiltSoFar(s: Vm, t: Table, held: set<nat>, child: nat)
    requires Ok(s, t, held) && child in t.halves && HasStack(t.halves[child])
    ensures |s.ker| == ENTRIES && Built(s.ker, s.pt, Contents(s), child, t.halves[child])
    ensures IsRoot(s, child) && IsRoot(s, t.halves[child].parent) && t.halves[child].parent != child
    ensures t.halves[child].parent in Live(t) && child in t.stacks
  {
    hide Inv, Contents, StackEnds, Built;
    assert t.halves[child].parent in Live(t);
    LiveRoots(s, t, held, child);
    LiveRoots(s, t, held, t.halves[child].parent);
  }

  /** The stack loop of do_clone, from the page where it waits. */
  method PagesStage(m: Memory, t: Table, ghost held: set<nat>, child: nat) returns (ok: bool, t': Table)
    requires At(m, t, held) && child in t.halves && t.halves[child].ForkPages?
    modifies m
    ensures At(m, t', held) && |m.roles| == old(|m.roles|) && RefOf(m, t', held) == old(RefOf(m, t, held))
    ensures ok ==> child in t'.halves && t'.halves[child] == ForkShare(t.halves[child].parent, t.halves[child].first)
    ensures ok ==> StackPrivate(m.pt, t.halves[child].parent, child, t.halves[child].first)
    ensures ok ==> forall v: Vpn :: (child, v) in m.pt <==>
                     InStack(old(m.pt.Keys), t.halves[child].parent, t.halves[child].first, v)
    ensures !ok ==> m.free == [] && child in t'.halves && t'.halves[child].ForkPages?
    ensures !ok ==> StackSoFar(m.pt, t.halves[child].parent, child, t.halves[child].first, t'.halves[child].at)
  {
    hide Inv, Contents, Ok, Abs, Roots, HeldPages, StackEnds, StackCopied, StackSoFar, StackPrivate, InStack;
    hide Mirrors, Aligned, OthersSame, KeptOutside, Touches;
    ghost var s := m.View();
    BuiltSoFar(s, t, held, child);
    SpaceKeys(s);
    var parent := t.halves[child].parent;
    var u;
    var first := t.halves[child].first;
    ok, u := CopyStack(m, parent, child, first, t.halves[child].at);
    GrowsKinds(s, m.View());
    SpaceKeys(m.View());
    KeptMore(s.pt, m.pt, child, parent);
    TouchesOf(s.pt, Contents(s), m.pt, m.Spaces(), {parent, child}, child);
    var h := if ok then ForkShare(parent, first) else ForkPages(parent, first, u);
    StageOk(s, m.View(), t, held, child, h);
    AbsMoved(Contents(s), m.Spaces(), t, child, h);
    t' := WithHalf(t, child, h);
  }

  lemma KeptMore(pt: map<Key, Word>, pt': map<Key, Word>, child: nat, parent: nat)
    requires KeptOutside(pt, pt', {child})
    ensures KeptOutside(pt, pt', {parent, child})
  {
  }

  /** copy_on_write; after a sleep it passes over the pages it has shared already. */
  method ShareStage(m: Memory, t: Table, ghost held: set<nat>, child: nat) returns (ok: bool, t': Table)
    requires At(m, t, held) && child in t.halves && t.halves[child].ForkShare?
    modifies m
    ensures At(m, t', held) && |m.roles| == old(|m.roles|)
    ensures ok ==> RefOf(m, t', held) == RefStep(old(RefOf(m, t, held)), Forked(t.halves[child].parent, child))
    ensures StackPrivate(m.pt, t.halves[child].parent, child, t.halves[child].first)
    ensures !ok ==> m.free == [] && RefOf(m, t', held) == old(RefOf(m, t, held))
  {
    hide Inv, Contents, Ok, Abs, Roots, HeldPages, Mirrors, Aligned, OthersSame, KeptOutside, Touches, EagerFork, StackPrivate, HandedAt;
    ghost var s := m.View();
    BuiltSoFar(s, t, held, child);
    var h := t.halves[child];
    ok := CopyOnWrite(m, h.parent, child);
    GrowsKinds(s, m.View());
    HandedPrivate(s.pt, m.pt, h.parent, child, h.first);
    TouchesOf(s.pt, Contents(s), m.pt, m.Spaces(), {h.parent, child}, child);
    StageOk(s, m.View(), t, held, child, h);
    AbsMoved(Contents(s), m.Spaces(), t, child, h);
    assert WithHalf(t, child, h) == t;
    t' := t;
    if ok {
      FinishOk(m.View(), t, held, child);
      AbsForked(Contents(s), t, child, h.parent);
      t' := Finished(t, child);
    }
  }

  /** Sharing the other pages leaves the copies of the stack private. */
  lemma HandedPrivate(pt: map<Key, Word>, pt': map<Key, Word>, parent: nat, child: nat, first: Vpn)
    requires Handed(pt, pt', parent, child) && StackPrivate(pt, parent, child, first)
    ensures StackPrivate(pt', parent, child, first)
  {
    forall v: Vpn | InStack(pt'.Keys, parent, first, v) ensures PrivateAt(pt', parent, child, v) {
      forall t: Vpn | InRange(t) && !Before(t, v) && !Before(first, t) ensures (parent, t) in pt.Keys {
        assert (parent, t) in pt'.Keys;
        assert HandedAt(pt, pt', parent, child, t);
      }
      assert InStack(pt.Keys, parent, first, v);
      assert HandedAt(pt, pt', parent, child, v);
    }
  }

  /** A task that sleeps in allocPage on behalf of `child` goes on until it is done or sleeps again. */
  method Resume(m: Memory, t: Table, ghost held: set<nat>, child: nat) returns (e: Event, t': Table)
    requires At(m, t, held) && child in t.halves
    modifies m
    ensures At(m, t', held) && |m.roles| == old(|m.roles|)
    ensures RefOf(m, t', held) == RefStep(old(RefOf(m, t, held)), e)
    ensures e == (if e.Slept? then Slept else if t.halves[child].SpawnStack? then Spawned(child)
                  else Forked(t.halves[child].parent, child))
    ensures e.Slept? ==> m.free == [] && (t.halves[child].SpawnStack? ==> old(m.free) == [])
    ensures e.Forked? ==> StackPrivate(m.pt, e.parent, child, t.halves[child].first)
  {
    hide At, RefOf, EagerFork, StackPrivate, StackSoFar, InStack;
    var ok;
    t' := t;
    if !HasStack(t.halves[child]) {
      ok, t' := StackStage(m, t, held, child);
      if !ok {
        return Slept, t';
      }
      if t.halves[child].SpawnStack? {
        return Spawned(child), t';
      }
    }
    if t'.halves[child].ForkPages? {
      ok, t' := PagesStage(m, t', held, child);
      if !ok {
        return Slept, t';
      }
    }
    ok, t' := ShareStage(m, t', held, child);
    e := if ok then Forked(t.halves[child].parent, child) else Slept;
  }

  /** A new root for the space that h describes. */
  method Begin(m: Memory, t: Table, ghost held: set<nat>, h: Half) returns (root: nat, t': Table)
    requires At(m, t, held) && m.free != [] && |Live(t)| + |t.halves| < MAX_TASKS && !HasStack(h)
    requires h.ForkStack? ==> AwakeIn(t, h.parent) && |m.ker| == ENTRIES && StackEnds(m.ker, m.pt.Keys, h.parent, h.first)
    modifies m
    ensures At(m, t', held) && |m.roles| == old(|m.roles|) && t' == WithHalf(t, root, h)
    ensures Fresh(old(RefOf(m, t, held)), root)
    ensures RefOf(m, t', held) == RefStep(old(RefOf(m, t, held)), Began(root, ParentOf(h)))
    ensures m.free == old(m.free)[1..]
  {
    hide Inv, Contents, Roots, HeldPages, StackEnds, Abs, AwakeIn, BuiltExcept, ParentsOk, StacksOk;
    ghost var s := m.View();
    TableCount(t, Roots(s));
    root := NewSpace(m);
    RootKinds(s, m.View(), root);
    SpaceKeys(m.View());
    t' := WithHalf(t, root, h);
    BegunOk(s, m.View(), t, held, root, h);
    hide Ok;
    AbsBegun(m.Spaces(), t, root, h);
  }

  /** do_clone, or do_exec without the loader. */
  method Create(m: Memory, t: Table, ghost held: set<nat>, h: Half) returns (e: Event, t': Table, root: nat)
    requires At(m, t, held) && |Live(t)| + |t.halves| < MAX_TASKS && !HasStack(h)
    requires h.ForkStack? ==> AwakeIn(t, h.parent) && |m.ker| == ENTRIES && StackEnds(m.ker, m.pt.Keys, h.parent, h.first)
    modifies m
    ensures At(m, t', held) && |m.roles| == old(|m.roles|)
    ensures RefOf(m, t', held) == RefStep(old(RefOf(m, t, held)), e)
    ensures e.Slept? || (Fresh(old(RefOf(m, t, held)), root) &&
              (e == Began(root, ParentOf(h)) || e == (if h.SpawnStack? then Spawned(root) else Forked(h.parent, root))))
    ensures Sleeps(e) ==> m.free == [] && (h.SpawnStack? ==> |old(m.free)| < 2)
    ensures e.Forked? ==> StackPrivate(m.pt, h.parent, root, h.first)
  {
    hide At, RefOf, RefStep, StackEnds, AwakeIn, Fresh, StackPrivate;
    e, t', root := Slept, t, 0;
    ghost var q := RefOf(m, t, held);
    if m.free == [] {
      assert RefStep(q, Slept) == q by { RefSlept(q); }
      return;
    }
    root, t' := Begin(m, t, held, h);
    BeganThenDone(q, root, ParentOf(h), if h.SpawnStack? then 0 else h.parent);
    RefSlept(RefStep(q, Began(root, ParentOf(h))));
    e, t' := Resume(m, t', held, root);
    if e == Slept {
      e := Began(root, ParentOf(h));
    }
  }

  lemma RefSlept(q: Ref)
    ensures RefStep(q, Slept) == q == RefStep(q, Ignored)
  {
  }

  /** There are not enough free pages for the request to go through whatever it meets. */
  predicate Short(op: Op, pages: nat) {
    match op
    case SpawnOp => pages < 2
    case StoreOp(_, _, _, _) => pages < 3
    case RetryOp(_) => pages == 0
    case LoadOp(_, _, _) => pages < 3
    case _ => true
  }

  /** The request is a store that has to sleep in deal_no_W. */
  ghost predicate Stalls(s: Vm, t: Table, op: Op)
    requires Inv(s) && |s.ker| == ENTRIES
  {
    op.StoreOp? && Enabled(s.ker, Abs(Contents(s), t), op) && NeedsCopy(s, (op.r, op.v))
  }

  /**
    The request takes a page from tasks that sleep in deal_no_W for it: a store that takes it over, or an
    unmapping or exit that gives it up, by its only holder that is awake.
   */
  ghost predicate Breaks(s: Vm, t: Table, op: Op)
    requires Inv(s) && |s.ker| == ENTRIES
  {
    && Enabled(s.ker, Abs(Contents(s), t), op)
    && match op
       case StoreOp(r, v, _, _) => TakesOver(s, (r, v))
       case UnmapOp(r, v) => Contested(s, (r, v))
       case ExitOp(r) => AnyContested(s, r)
       case _ => false
  }

  /**
    One request has been served: the reference machine makes the step of event e, which answers
    the request; a task sleeps only when the free pages have run out, and in the middle of a store exactly
    when it has to copy a page for it; and nobody has lost a page.
   */
  ghost predicate Served(held: set<nat>, s: Vm, t: Table, op: Op, e: Event, s': Vm, t': Table) {
    && Ok(s, t, held) && Ok(s', t', held) && s'.ker == s.ker && |s'.roles| == |s.roles|
    && Answers(s.ker, Abs(Contents(s), t), op, e)
    && Abs(Contents(s'), t') == RefStep(Abs(Contents(s), t), e)
    && (Sleeps(e) ==> s'.free == [] && Short(op, |s.free|))
    && (e.Waited? <==> Stalls(s, t, op))
    && !Breaks(s, t, op)
  }

  /** With three free pages, nobody is ignored or put to sleep who is live and not already asleep. */
  lemma ServedNow(held: set<nat>, s: Vm, t: Table, op: Op, e: Event, s': Vm, t': Table, r: nat)
    requires Served(held, s, t, op, e, s', t') && |s.free| >= 3
    requires var q := Abs(Contents(s), t); r in q.live && r !in q.stores && Some(r) !in q.halves.Values
    ensures Inv(s) && |s.ker| == ENTRIES
    ensures var q := Abs(Contents(s), t);
            && (op.LoadOp? && op.r == r && User(s.ker, op.v) && op.x < ENTRIES ==>
                  var page := if (r, op.v) in q.c then q.c[(r, op.v)] else ZeroFrame();
                  op.x < |page| && e == Loaded((r, op.v), op.x, page[op.x]))
            && (op.StoreOp? && op.r == r && User(s.ker, op.v) && op.x < ENTRIES ==> e == Stored((r, op.v), op.x, op.w))
            && (op.UnmapOp? && op.r == r && (r, op.v) in q.c ==> e == Unmapped((r, op.v)))
            && (op == ExitOp(r) ==> e == Exited(r))
            && (op.ForkOp? && op.parent == r && |q.live| + |q.halves| < 100 && StackEnds(s.ker, q.c.Keys, r, op.first) ==>
                  e.Forked? || e.Began? || e.Slept?)
  {
    hide Inv, Contents, TableOk, BuiltExcept, RefStep, Abs, StackEnds;
  }

  /** The same of a process creation while there is a slot, and of a store that was asleep. */
  lemma ResumedNow(held: set<nat>, s: Vm, t: Table, op: Op, e: Event, s': Vm, t': Table)
    requires Served(held, s, t, op, e, s', t') && |s.free| >= 2
    ensures Inv(s)
    ensures var q := Abs(Contents(s), t);
            && (op.SpawnOp? && |q.live| + |q.halves| < 100 ==> e.Spawned?)
            && (op.RetryOp? && op.r in q.stores ==>
                  var wish := q.stores[op.r]; e == Stored((op.r, wish.v), wish.x, wish.w))
  {
    hide Inv, Contents, TableOk, BuiltExcept, RefStep, Abs, StackEnds;
  }

  /** What a request leaves behind: it breaks exactly when it says so beforehand, and then for good. */
  ghost predicate Outcome(held: set<nat>, s: Vm, t: Table, op: Op, e: Event, s': Vm, t': Table, stop: bool) {
    if stop then Ok(s, t, held) && Breaks(s, t, op) && Lost(s') else Served(held, s, t, op, e, s', t')
  }

  lemma IgnoredOk(held: set<nat>, s: Vm, t: Table, op: Op)
    requires Ok(s, t, held) && !Enabled(s.ker, Abs(Contents(s), t), op)
    ensures Served(held, s, t, op, Ignored, s, t)
  {
    hide Inv, Contents, Enabled;
  }

  /** Accesses of a live task to its own space, on the reference machine. */
  lemma OwnPages(c: Spaces, t: Table, key: Key, x: nat, w: Word)
    requires key.0 in Live(t) && key.0 !in t.stores && x < |PageAt(c, key)|
    ensures x < |Present(c, key)[key]| && PageAt(Abs(c, t).c, key) == PageAt(c, key) == Present(c, key)[key]
    ensures key in Abs(c, t).c <==> key in c
    ensures Abs(StoreWord(c, key, x, w), t) == RefStep(Abs(c, t), Stored(key, x, w))
    ensures Abs(Present(c, key), t) == RefStep(Abs(c, t), Loaded(key, x, w))
    ensures OthersSame(c, StoreWord(c, key, x, w), key.0) && OthersSame(c, Present(c, key), key.0)
  {
    VisibleSet(c, t.halves.Keys, key, ZeroFrame());
    VisibleAt(c, t.halves.Keys, key);
    AbsStored(c, t, key, x, w);
    assert t.(stores := t.stores - {key.0}) == t;
    hide Visible, Live;
  }

  lemma OwnLeaves(c: Spaces, t: Table, key: Key)
    requires key.0 in Live(t)
    ensures key in Abs(c, t).c <==> key in c
    ensures Abs(c - {key}, t) == RefStep(Abs(c, t), Unmapped(key))
    ensures Abs(WithoutSpace(c, key.0), TaskGone(t, key.0)) == RefStep(Abs(c, t), Exited(key.0))
    ensures OthersSame(c, c - {key}, key.0) && OthersSame(c, WithoutSpace(c, key.0), key.0)
  {
    VisibleDrop(c, t.halves.Keys, key);
    VisibleExit(c, t.halves.Keys, key.0);
    VisibleAt(c, t.halves.Keys, key);
    assert Live(TaskGone(t, key.0)) == Live(t) - {key.0};
  }

  /** A request of r on its own space, answered by e. */
  lemma OwnServed(held: set<nat>, s: Vm, s': Vm, t: Table, op: Op, e: Event, r: nat)
    requires Ok(s, t, held) && Inv(s') && LagOk(s') && AwakeIn(t, r)
    requires s'.ker == s.ker && s'.lag == s.lag && |s'.roles| == |s.roles|
    requires Roots(s') == Roots(s) && HeldPages(s') == HeldPages(s) && KeptOutside(s.pt, s'.pt, {r})
    requires OthersSame(Contents(s), Contents(s'), r)
    requires Answers(s.ker, Abs(Contents(s), t), op, e) && Abs(Contents(s'), t) == RefStep(Abs(Contents(s), t), e)
    requires Sleeps(e) ==> s'.free == [] && Short(op, |s.free|)
    requires !e.Waited? && !Stalls(s, t, op) && !Breaks(s, t, op)
    ensures Served(held, s, t, op, e, s', t)
  {
    hide Inv, Contents, Stalls, Breaks, Answers, RefStep, Roots, HeldPages, KeptOutside, OthersSame, AwakeIn, Touches;
    TouchesOf(s.pt, Contents(s), s'.pt, Contents(s'), {r}, r);
    OwnStep(s, s', t, held, r);
  }

  /** A task that may act is the root of a space. */
  lemma AwakeRoot(s: Vm, t: Table, held: set<nat>, r: nat)
    requires Ok(s, t, held)
    ensures |s.ker| == ENTRIES && (Awake(Abs(Contents(s), t), r) <==> AwakeIn(t, r))
    ensures AwakeIn(t, r) ==> IsRoot(s, r) && r in Live(t) && r in t.stacks && r !in t.stores
  {
    AwakeAbs(Contents(s), t, r);
    hide Inv, Contents;
    if AwakeIn(t, r) { LiveRoots(s, t, held, r); }
  }

  /** Somebody sleeps in deal_no_W for page p. */
  predicate SleptFor(t: Table, p: nat) { exists r :: r in t.stores && t.stores[r].page == p }

  lemma SleptForIff(s: Vm, t: Table, held: set<nat>, p: nat)
    requires Ok(s, t, held) && p < |s.lag|
    ensures s.lag[p] > 0 <==> SleptFor(t, p)
  {
    hide Inv, Contents, TableOk, BuiltExcept, OneSleep, Waiting;
    assert s.lag[p] == |Sleepers(t.stores, p)|;
    if SleptFor(t, p) {
      var r :| r in t.stores && t.stores[r].page == p;
      assert r in Sleepers(t.stores, p);
    } else {
      assert Sleepers(t.stores, p) == {};
    }
  }

  /** A store that sleeps in deal_no_W for page p. */
  lemma WaitedServed(held: set<nat>, s: Vm, s': Vm, t: Table, r: nat, st: Stall)
    requires Ok(s, t, held) && Inv(s') && LagOk(s') && AwakeIn(t, r)
    requires Waits(s, s', (r, st.wish.v)) && st.page == Node(s.pt[(r, st.wish.v)]) && st.wish.x < ENTRIES
    requires KeptOutside(s.pt, s'.pt, {r}) && Contents(s') == Contents(s)
    requires var op := StoreOp(r, st.wish.v, st.wish.x, st.wish.w);
             Stalls(s, t, op) && !Breaks(s, t, op) && Answers(s.ker, Abs(Contents(s), t), op, Waited((r, st.wish.v), st.wish.x, st.wish.w))
    ensures Served(held, s, t, StoreOp(r, st.wish.v, st.wish.x, st.wish.w),
                   Waited((r, st.wish.v), st.wish.x, st.wish.w), s', t.(stores := t.stores[r := st]))
  {
    hide Inv, Contents, Breaks, Answers, RefStep, KeptOutside, OthersSame, Touches, Abs, AwakeIn;
    SameOthers(Contents(s), r);
    TouchesOf(s.pt, Contents(s), s'.pt, Contents(s'), {r}, r);
    assert Roots(s') == Roots(s) && HeldPages(s') == HeldPages(s);
    StalledOk(s, s', t, held, r, st);
    AbsWaited(Contents(s), t, r, st);
    hide Ok;
  }

  /** The page behind an entry, and whether a store through it, or giving it up, takes it from sleepers. */
  method Inspect(m: Memory, t: Table, ghost held: set<nat>, r: nat, v: Vpn) returns (mapped: bool, page: nat, takes: bool, gives: bool)
    requires At(m, t, held) && IsRoot(m.View(), r) && User(m.ker, v)
    ensures mapped <==> (r, v) in m.pt
    ensures mapped ==> Node(m.pt[(r, v)]) == page
    ensures takes <==> TakesOver(m.View(), (r, v))
    ensures gives <==> Contested(m.View(), (r, v))
  {
    hide Inv, Contents, Ok, SleptFor;
    var third := m.GetPte(r, v);
    mapped, page, takes, gives := third >= 0, 0, false, false;
    if mapped {
      Mapped(m.View(), r, v);
      page := Node(m.frames[third][v.k]);
      SleptForIff(m.View(), t, held, page);
      gives := m.share[page] == 1 && SleptFor(t, page);
      takes := gives && !m.frames[third][v.k].w;
    }
  }

  /** A store by a live task to a user page. */
  method TryStore(m: Memory, t: Table, ghost held: set<nat>, r: nat, v: Vpn, x: nat, w: Word)
    returns (e: Event, t': Table, stop: bool)
    requires At(m, t, held)
    modifies m
    ensures m.Valid() <==> !stop
    ensures Outcome(held, old(m.View()), t, StoreOp(r, v, x, w), e, m.View(), t', stop)
  {
    hide Inv, Contents, Ok, Abs, Roots, HeldPages, AwakeIn, KeptOutside, OthersSame, Present, Lost, SleptFor, NeedsCopy, Waits;
    e, t', stop := Ignored, t, false;
    ghost var s, op := m.View(), StoreOp(r, v, x, w);
    AwakeRoot(s, t, held, r);
    ShapeOf(s);
    if !AwakeIn(t, r) || !User(m.ker, v) || x >= ENTRIES {
      IgnoredOk(held, s, t, op);
      return;
    }
    SpaceKeys(s);
    PageSize(s, (r, v));
    OwnPages(Contents(s), t, (r, v), x, w);
    var mapped, page, gives;
    mapped, page, stop, gives := Inspect(m, t, held, r, v);
    Unguarded(s, (r, v));
    hide TakesOver, Contested;
    var ok := UserStore(m, r, v, x, w);
    if stop {
      return;
    }
    if !ok && mapped {
      e, t' := Waited((r, v), x, w), t.(stores := t.stores[r := Stall(Wish(v, x, w), page)]);
      WaitedServed(held, s, m.View(), t, r, Stall(Wish(v, x, w), page));
      return;
    }
    e := if ok then Stored((r, v), x, w) else Slept;
    GrowsKinds(s, m.View());
    SameOthers(Contents(s), r);
    OwnServed(held, s, m.View(), t, op, e, r);
  }

  /** A store that sleeps in deal_no_W goes on. */
  method TryRetry(m: Memory, t: Table, ghost held: set<nat>, r: nat) returns (e: Event, t': Table)
    requires At(m, t, held)
    modifies m
    ensures m.Valid() && Served(held, old(m.View()), t, RetryOp(r), e, m.View(), t')
  {
    hide Inv, Contents, Ok, Abs, Roots, HeldPages, KeptOutside, OthersSame;
    e, t' := Ignored, t;
    ghost var s := m.View();
    AwakeRoot(s, t, held, r);
    if r !in t.stores {
      NoStore(Contents(s), t, r);
      IgnoredOk(held, s, t, RetryOp(r));
      return;
    }
    var wish := t.stores[r].wish;
    Sleeping(s, t, held, r);
    PageSize(s, (r, wish.v));
    ContentsAt(s, (r, wish.v));
    var ok := ResumeStore(m, r, wish.v, wish.x, wish.w);
    if ok {
      e, t' := Stored((r, wish.v), wish.x, wish.w), t.(stores := t.stores - {r});
      WokenServed(held, s, m.View(), t, r);
    } else {
      e := Slept;
      NoStore(Contents(s), t, r);
    }
  }

  lemma NoStore(c: Spaces, t: Table, r: nat)
    ensures r in Abs(c, t).stores <==> r in t.stores
    ensures r in t.stores ==> Abs(c, t).stores[r] == t.stores[r].wish
  {
  }

  /** What the table says about a task asleep in a store. */
  lemma Sleeping(s: Vm, t: Table, held: set<nat>, r: nat)
    requires Ok(s, t, held) && r in t.stores
    ensures var key, p := (r, t.stores[r].wish.v), t.stores[r].page;
            && key in s.pt && Node(s.pt[key]) == p < |s.lag| && s.lag[p] > 0 && r in Live(t) && t.stores[r].wish.x < ENTRIES
  {
    hide Inv, Contents, TableOk, BuiltExcept;
    assert WaitsAt(s.pt, r, t.stores[r]);
    Mapped(s, r, t.stores[r].wish.v);
    var p := t.stores[r].page;
    assert r in Sleepers(t.stores, p);
    assert s.lag[p] == |Sleepers(t.stores, p)|;
  }

  lemma WokenServed(held: set<nat>, s: Vm, s': Vm, t: Table, r: nat)
    requires Ok(s, t, held) && Inv(s') && LagOk(s') && r in t.stores && |s'.roles| == |s.roles|
    requires KeptOutside(s.pt, s'.pt, {r}) && Grows(s, s'.(lag := s.lag), {}) && t.stores[r].page < |s.lag| && s.lag[t.stores[r].page] > 0
    requires s'.lag == s.lag[t.stores[r].page := s.lag[t.stores[r].page] - 1] && r in Live(t)
    requires var st := t.stores[r];
             && st.wish.x < |PageAt(Contents(s), (r, st.wish.v))|
             && Contents(s') == Contents(s)[(r, st.wish.v) := PageAt(Contents(s), (r, st.wish.v))[st.wish.x := st.wish.w]]
    ensures var wish := t.stores[r].wish;
            Served(held, s, t, RetryOp(r), Stored((r, wish.v), wish.x, wish.w), s', t.(stores := t.stores - {r}))
  {
    hide Inv, Contents, RefStep, KeptOutside, OthersSame, Touches, Live, Roots, HeldPages;
    var wish := t.stores[r].wish;
    GrowsKinds(s, s'.(lag := s.lag));
    assert Roots(s') == Roots(s'.(lag := s.lag)) && HeldPages(s') == HeldPages(s'.(lag := s.lag)) by { SameKinds(s', s.lag); }
    StoreOthers(Contents(s), (r, wish.v), PageAt(Contents(s), (r, wish.v))[wish.x := wish.w]);
    TouchesOf(s.pt, Contents(s), s'.pt, Contents(s'), {r}, r);
    WokenOk(s, s', t, held, r);
    AbsStored(Contents(s), t, (r, wish.v), wish.x, wish.w);
    NoStore(Contents(s), t, r);
    hide Ok;
  }

  lemma SameKinds(s: Vm, lag: seq<nat>)
    ensures Roots(s.(lag := lag)) == Roots(s) && HeldPages(s.(lag := lag)) == HeldPages(s)
  {
  }

  lemma StoreOthers(c: Spaces, key: Key, f: Frame)
    ensures OthersSame(c, c[key := f], key.0)
  {
  }

  lemma PageSize(s: Vm, key: Key)
    requires Inv(s)
    ensures |PageAt(Contents(s), key)| == ENTRIES
  {
    if key in Contents(s) { ContentsAt(s, key); }
  }

  lemma SameOthers(c: Spaces, r: nat)
    ensures OthersSame(c, c, r)
  {
  }

  /** A load by a live task from a user page. */
  method TryLoad(m: Memory, t: Table, ghost held: set<nat>, r: nat, v: Vpn, x: nat) returns (e: Event)
    requires At(m, t, held)
    modifies m
    ensures m.Valid() && Served(held, old(m.View()), t, LoadOp(r, v, x), e, m.View(), t)
  {
    hide Inv, Contents, Ok, Abs, Roots, HeldPages, AwakeIn, KeptOutside, OthersSame, Present;
    e := Ignored;
    ghost var s, op := m.View(), LoadOp(r, v, x);
    AwakeRoot(s, t, held, r);
    ShapeOf(s);
    if !AwakeIn(t, r) || !User(m.ker, v) || x >= ENTRIES {
      IgnoredOk(held, s, t, op);
      return;
    }
    PageSize(s, (r, v));
    var ok, w := UserLoad(m, r, v, x);
    OwnPages(Contents(s), t, (r, v), x, w);
    e := if ok then Loaded((r, v), x, w) else Slept;
    GrowsKinds(s, m.View());
    SameOthers(Contents(s), r);
    OwnServed(held, s, m.View(), t, op, e, r);
  }

  lemma KeptWithout(pt: map<Key, Word>, r: nat)
    ensures KeptOutside(pt, Without(pt, r), {r})
    ensures forall v: Vpn :: KeptOutside(pt, pt - {(r, v)}, {r})
  {
  }

  /** An unmapping by a live task of a mapped page. */
  method TryUnmap(m: Memory, t: Table, ghost held: set<nat>, r: nat, v: Vpn) returns (e: Event, stop: bool)
    requires At(m, t, held)
    modifies m
    ensures m.Valid() <==> !stop
    ensures Outcome(held, old(m.View()), t, UnmapOp(r, v), e, m.View(), t, stop)
  {
    hide Inv, Contents, Ok, Abs, Roots, HeldPages, AwakeIn, KeptOutside, OthersSame, Lost, SleptFor;
    e, stop := Ignored, false;
    ghost var s, op := m.View(), UnmapOp(r, v);
    AwakeRoot(s, t, held, r);
    ShapeOf(s);
    SpaceKeys(s);
    if !AwakeIn(t, r) {
      IgnoredOk(held, s, t, op);
      return;
    }
    OwnLeaves(Contents(s), t, (r, v));
    var mapped := false;
    if User(m.ker, v) {
      var page, takes;
      mapped, page, takes, stop := Inspect(m, t, held, r, v);
    } else if (r, v) in m.pt {
      Mapped(s, r, v);
      assert false;
    }
    hide Contested;
    if !mapped {
      IgnoredOk(held, s, t, op);
      return Ignored, false;
    }
    FreePageHelper(m, r, v);
    if stop {
      return;
    }
    e := Unmapped((r, v));
    UnmapKinds(s, m.View());
    KeptWithout(s.pt, r);
    OwnServed(held, s, m.View(), t, op, e, r);
  }

  /** handle_exit_pcb of a live task: the address space, then the kernel stack. */
  method TryExit(m: Memory, t: Table, ghost held: set<nat>, r: nat) returns (e: Event, t': Table, stop: bool)
    requires At(m, t, held)
    modifies m
    ensures m.Valid() <==> !stop
    ensures Outcome(held, old(m.View()), t, ExitOp(r), e, m.View(), t', stop)
  {
    hide Inv, Contents, Ok, Abs, Roots, HeldPages, AwakeIn, KeptOutside, OthersSame, Drop, Dropped, WithoutSpace, Touches, Lost, AnyContested;
    e, t', stop := Ignored, t, false;
    ghost var s := m.View();
    AwakeRoot(s, t, held, r);
    if !AwakeIn(t, r) {
      IgnoredOk(held, s, t, ExitOp(r));
      return;
    }
    OwnLeaves(Contents(s), t, (r, Vpn(0, 0, 0)));
    IsStack(s, t, held, r);
    ShapeOf(s);
    ghost var share := m.share;
    var count := RecyclePages(m, r);
    PagesInRange(s, t, held);
    stop := exists q :: q in t.stores && m.share[t.stores[q].page] == 0;
    GivenUp(s, t, held, r, share, m.share);
    if stop {
      return;
    }
    ghost var all := m.View().share;
    DropKinds(s, r, all, m.free);
    ghost var u := m.View();
    DropStack(s, r, all, m.free, t.stacks[r]);
    m.FreeHeld(t.stacks[r]);
    ReleaseKinds(u, t.stacks[r]);
    TouchesOf(s.pt, Contents(s), m.pt, m.Spaces(), {r}, r);
    t', e := TaskGone(t, r), Exited(r);
    GoneOk(s, m.View(), t, held, r);
  }

  lemma PagesInRange(s: Vm, t: Table, held: set<nat>)
    requires Ok(s, t, held)
    ensures |s.share| == |s.lag| && forall q :: q in t.stores ==> t.stores[q].page < |s.lag|
  {
    forall q | q in t.stores ensures t.stores[q].page < |s.lag| { Sleeping(s, t, held, q); }
    hide Inv, Contents, TableOk, BuiltExcept, StallsOk;
  }

  /** Exit gives a page up under its sleepers exactly when the page of one of them has lost its last count. */
  lemma GivenUp(s: Vm, t: Table, held: set<nat>, r: nat, share: seq<nat>, share': seq<nat>)
    requires Ok(s, t, held) && |share'| == |share| == |s.share| == |s.lag| && s.share == Plus(share, s.lag)
    requires forall f: nat :: f < |share'| ==> share'[f] + (if HeldBy(s, r, f) then 1 else 0) == share[f]
    requires forall q :: q in t.stores ==> t.stores[q].page < |s.lag|
    ensures (exists q :: q in t.stores && share'[t.stores[q].page] == 0) <==> AnyContested(s, r)
  {
    hide Inv, Contents, TableOk, BuiltExcept, StallsOk;
    if q :| q in t.stores && share'[t.stores[q].page] == 0 {
      Sleeping(s, t, held, q);
      var p := t.stores[q].page;
      assert s.share[p] > s.lag[p];
      HeldContested(s, r, p);
    }
    if v: Vpn :| Contested(s, (r, v)) {
      var p := Node(s.pt[(r, v)]);
      SleptForIff(s, t, held, p);
      HeldData(s, p);
      var q :| q in t.stores && t.stores[q].page == p;
      assert Maps(s.pt, r, p);
      assert HeldBy(s, r, p);
      assert share'[t.stores[q].page] == 0;
    }
  }

  lemma DropStack(s: Vm, r: nat, share: seq<nat>, free: seq<nat>, k: nat)
    requires |s.share| == |s.roles| && Dropped(s, r, share, free) && k < |s.roles| && s.roles[k] == Held
    requires HeldPages(Drop(s, r, share, free)) == HeldPages(s) && |Drop(s, r, share, free).roles| == |s.roles|
    ensures Drop(s, r, share, free).roles[k] == Held && KeptOutside(s.pt, Drop(s, r, share, free).pt, {r})
    ensures Drop(s, r, share, free).ker == s.ker
  {
    assert k in HeldPages(s);
    KeptWithout(s.pt, r);
  }

  lemma RoomAbs(s: Vm, t: Table, held: set<nat>)
    requires Ok(s, t, held)
    ensures Room(Abs(Contents(s), t)) <==> |Live(t)| + |t.halves| < MAX_TASKS
  {
    hide Inv, Contents, BuiltExcept, ParentsOk, StacksOk;
    TableCount(t, Roots(s));
  }

  lemma EndsAbs(s: Vm, t: Table, held: set<nat>, parent: nat, first: Vpn)
    requires Ok(s, t, held) && parent in Live(t) && |s.ker| == ENTRIES
    ensures StackEnds(s.ker, Abs(Contents(s), t).c.Keys, parent, first) <==> StackEnds(s.ker, s.pt.Keys, parent, first)
  {
    SpaceKeys(s);
    hide Inv, Ok, Contents;
    var c := Contents(s);
    forall v: Vpn ensures (parent, v) in Visible(c, t.halves.Keys).Keys <==> (parent, v) in s.pt.Keys {
      VisibleAt(c, t.halves.Keys, (parent, v));
    }
    hide Visible;
    if StackEnds(s.ker, Abs(c, t).c.Keys, parent, first) {
      StackEndsKept(s.ker, Abs(c, t).c.Keys, s.pt.Keys, parent, first);
    }
    if StackEnds(s.ker, s.pt.Keys, parent, first) {
      StackEndsKept(s.ker, s.pt.Keys, Abs(c, t).c.Keys, parent, first);
    }
  }

  lemma CreateServed(held: set<nat>, s: Vm, s': Vm, t: Table, t': Table, op: Op, h: Half, e: Event, root: nat)
    requires Ok(s, t, held) && Ok(s', t', held) && s'.ker == s.ker && |s'.roles| == |s.roles|
    requires Abs(Contents(s'), t') == RefStep(Abs(Contents(s), t), e) && (Sleeps(e) ==> s'.free == [] && Short(op, |s.free|))
    requires e.Slept? || (Fresh(Abs(Contents(s), t), root) &&
               (e == Began(root, ParentOf(h)) || e == (if h.SpawnStack? then Spawned(root) else Forked(h.parent, root))))
    requires Enabled(s.ker, Abs(Contents(s), t), op)
    requires (op.SpawnOp? && h == SpawnStack) || (op.ForkOp? && h == ForkStack(op.parent, op.first))
    ensures Served(held, s, t, op, e, s', t')
  {
    hide Ok, Enabled, Abs, RefStep, Contents, Fresh;
  }

  /** A new process, when there is a task slot. */
  method TrySpawn(m: Memory, t: Table, ghost held: set<nat>) returns (e: Event, t': Table)
    requires At(m, t, held)
    modifies m
    ensures m.Valid() && Served(held, old(m.View()), t, SpawnOp, e, m.View(), t')
  {
    hide Inv, Contents, Ok, Abs, Room;
    e, t' := Ignored, t;
    ghost var s := m.View();
    AwakeRoot(s, t, held, 0);
    RoomAbs(s, t, held);
    if |Live(t)| + |t.halves| >= MAX_TASKS {
      IgnoredOk(held, s, t, SpawnOp);
      return;
    }
    var root;
    e, t', root := Create(m, t, held, SpawnStack);
    CreateServed(held, s, m.View(), t, t', SpawnOp, SpawnStack, e, root);
  }

  /** A fork, refused without a task slot or when the stack runs out of the user pages. */
  method TryFork(m: Memory, t: Table, ghost held: set<nat>, parent: nat, first: Vpn) returns (e: Event, t': Table)
    requires At(m, t, held)
    modifies m
    ensures m.Valid() && Served(held, old(m.View()), t, ForkOp(parent, first), e, m.View(), t')
  {
    hide Inv, Contents, Ok, Abs, Room, AwakeIn, StackBounded, StackEnds;
    e, t' := Ignored, t;
    ghost var s := m.View();
    AwakeRoot(s, t, held, parent);
    RoomAbs(s, t, held);
    ShapeOf(s);
    if |Live(t)| + |t.halves| >= MAX_TASKS || !AwakeIn(t, parent) {
      IgnoredOk(held, s, t, ForkOp(parent, first));
      return;
    }
    EndsAbs(s, t, held, parent, first);
    BoundedIffEnds(s, parent, first);
    if !StackBounded(m.ker, m.frames, parent, first) {
      IgnoredOk(held, s, t, ForkOp(parent, first));
      return;
    }
    var root;
    e, t', root := Create(m, t, held, ForkStack(parent, first));
    CreateServed(held, s, m.View(), t, t', ForkOp(parent, first), ForkStack(parent, first), e, root);
  }

  /** A sleeping creation goes on. */
  method TryResume(m: Memory, t: Table, ghost held: set<nat>, child: nat) returns (e: Event, t': Table)
    requires At(m, t, held)
    modifies m
    ensures m.Valid() && Served(held, old(m.View()), t, ResumeOp(child), e, m.View(), t')
  {
    hide Inv, Contents, Ok, Visible, RefStep;
    e, t' := Ignored, t;
    ghost var s := m.View();
    AwakeRoot(s, t, held, 0);
    if child !in t.halves {
      IgnoredOk(held, s, t, ResumeOp(child));
      return;
    }
    e, t' := Resume(m, t, held, child);
  }

  /** One request; `stop` when it takes a page from tasks that sleep in deal_no_W for it. */
  method Step(m: Memory, t: Table, ghost held: set<nat>, op: Op) returns (e: Event, t': Table, stop: bool)
    requires At(m, t, held)
    modifies m
    ensures m.Valid() <==> !stop
    ensures Outcome(held, old(m.View()), t, op, e, m.View(), t', stop)
  {
    hide Inv, Ok, Served, Breaks, Lost;
    e, t', stop := Ignored, t, false;
    match op
    case SpawnOp => e, t' := TrySpawn(m, t, held);
    case ForkOp(parent, first) => e, t' := TryFork(m, t, held, parent, first);
    case ResumeOp(child) => e, t' := TryResume(m, t, held, child);
    case StoreOp(r, v, x, w) => e, t', stop := TryStore(m, t, held, r, v, x, w);
    case RetryOp(r) => e, t' := TryRetry(m, t, held, r);
    case LoadOp(r, v, x) => e := TryLoad(m, t, held, r, v, x);
    case UnmapOp(r, v) => e, stop := TryUnmap(m, t, held, r, v);
    case ExitOp(r) => e, t', stop := TryExit(m, t, held, r);
  }

  /** The kernel's memory and task table between two requests. */
  datatype Snap = Snap(vm: Vm, table: Table)

  /** Every request of the run has been served, through the states of the trace. */
  ghost predicate History(held: set<nat>, trace: seq<Snap>, ops: seq<Op>, events: seq<Event>) {
    && |trace| == |events| + 1 && |events| <= |ops|
    && forall n :: 0 <= n < |events| ==>
         Served(held, trace[n].vm, trace[n].table, ops[n], events[n], trace[n + 1].vm, trace[n + 1].table)
  }

  lemma HistoryNext(held: set<nat>, trace: seq<Snap>, ops: seq<Op>, events: seq<Event>, e: Event, next: Snap)
    requires History(held, trace, ops, events) && |events| < |ops|
    requires var last := trace[|events|];
             Served(held, last.vm, last.table, ops[|events|], e, next.vm, next.table)
    ensures History(held, trace + [next], ops, events + [e])
  {
    hide Served;
    var more, all := trace + [next], events + [e];
    forall n | 0 <= n < |all|
      ensures Served(held, more[n].vm, more[n].table, ops[n], all[n], more[n + 1].vm, more[n + 1].table)
    {
      if n < |events| {
        assert more[n] == trace[n] && more[n + 1] == trace[n + 1];
      }
    }
  }

  /** The reference machine follows the trace, and answers every request. */
  lemma {:induction false} HistoryRefines(held: set<nat>, trace: seq<Snap>, ops: seq<Op>, events: seq<Event>)
    requires History(held, trace, ops, events) && Ok(trace[0].vm, trace[0].table, held)
    ensures var q, last := Abs(Contents(trace[0].vm), trace[0].table), trace[|events|];
            && AllAnswered(trace[0].vm.ker, q, ops, events) && Ok(last.vm, last.table, held)
            && last.vm.ker == trace[0].vm.ker && |last.vm.roles| == |trace[0].vm.roles|
            && Abs(Contents(last.vm), last.table) == RefAfter(q, events)
    decreases |events|
  {
    hide Inv, Contents, Abs, Answers, RefStep, TableOk, BuiltExcept;
    if events != [] {
      var n := |events| - 1;
      HistoryRefines(held, trace[..|events|], ops, events[..n]);
      assert events == events[..n] + [events[n]];
      assert Served(held, trace[n].vm, trace[n].table, ops[n], events[n], trace[n + 1].vm, trace[n + 1].table);
      RefAfterAppend(trace[0].vm.ker, Abs(Contents(trace[0].vm), trace[0].table), ops, events[..n], events[n]);
    }
  }

  /**
    A whole run: any list of requests.  The events are answered as on the reference machine in
    which fork copies every page eagerly, every load returns the reference contents, and when
    no task and no unfinished child is left the free pages are as many as when none had been
    started.  A task sleeps only in a state without a free page, be it in a fork, a fault or in the
    middle of deal_no_W, and may go on later.  The run stops early exactly at the first request that
    takes a page from tasks asleep in deal_no_W, which no account of the pages can mend.
   */
  method Run(m: Memory, t: Table, ops: seq<Op>, ghost held: set<nat>)
    returns (events: seq<Event>, t': Table, ghost trace: seq<Snap>)
    requires At(m, t, held)
    modifies m
    ensures History(held, trace, ops, events) && trace[0] == Snap(old(m.View()), t)
    ensures |m.ker| == ENTRIES && AllAnswered(m.ker, old(RefOf(m, t, held)), ops, events)
    ensures trace[|events|].table == t' && Ok(trace[|events|].vm, t', held)
    ensures Abs(Contents(trace[|events|].vm), t') == RefAfter(old(RefOf(m, t, held)), events)
    ensures m.Valid() <==> |events| == |ops|
    ensures m.Valid() ==> m.View() == trace[|events|].vm
    ensures !m.Valid() ==> Breaks(trace[|events|].vm, t', ops[|events|]) && Lost(m.View())
    ensures m.Valid() && t' == Table(map[], map[], map[]) ==> |m.free| + |held| == |m.roles| == old(|m.roles|)
  {
    events, t', trace := [], t, [Snap(m.View(), t)];
    ghost var q := RefOf(m, t, held);
    hide Inv, Contents, Abs, Served, Breaks, Lost, AllAnswered, TableOk, BuiltExcept, StallsOk;
    HistoryRefines(held, trace, ops, events);
    var i := 0;
    while i < |ops|
      invariant m.Valid() && |events| == i <= |ops| && History(held, trace, ops, events)
      invariant trace[0] == Snap(old(m.View()), t) && trace[i] == Snap(m.View(), t')
    {
      ghost var s := m.View();
      HistoryRefines(held, trace, ops, events);
      var e, next, stop := Step(m, t', held, ops[i]);
      if stop {
        return;
      }
      HistoryNext(held, trace, ops, events, e, Snap(m.View(), next));
      events, trace, t' := events + [e], trace + [Snap(m.View(), next)], next;
      i := i + 1;
    }
    HistoryRefines(held, trace, ops, events);
    if t' == Table(map[], map[], map[]) {
      NoTasks(m.View(), held);
    }
  }

  lemma NoTasks(s: Vm, held: set<nat>)
    requires Ok(s, Table(map[], map[], map[]), held)
    ensures |s.free| + |held| == |s.roles|
  {
    ShapeOf(s);
    hide Inv, Roots, HeldPages, BuiltExcept;
    assert Stacks(map[]) == {};
    AllFreed(s);
  }

  /** With at most NUM_MAX_TASK tasks every share_num fits in its eight bits. */
  lemma ShareFitsByte(s: Vm, t: Table, held: set<nat>, f: nat)
    requires Ok(s, t, held) && f < |s.roles|
    ensures |s.share| == |s.roles| && s.share[f] <= MAX_TASKS < 256
  {
    hide Inv, HeldPages, BuiltExcept, ParentsOk, StacksOk;
    ShareBound(s, f);
  }

  lemma BootOk(ker: Frame, n: nat)
    requires |ker| == ENTRIES
    ensures Ok(Boot(ker, n), Table(map[], map[], map[]), {}) && |Boot(ker, n).roles| == n && Boot(ker, n).ker == ker
    ensures Abs(Contents(Boot(ker, n)), Table(map[], map[], map[])) == Ref(map[], {}, map[], map[])
  {
    BootInv(ker, n);
    hide Inv;
    assert Stacks(map[]) == {};
    assert Roots(Boot(ker, n)) == {} && HeldPages(Boot(ker, n)) == {};
    assert Parents(Table(map[], map[], map[])) == map[];
  }

  /** A run from boot, with n pages: once every task has exited, all n pages are free again. */
  method RunFromBoot(ker: Frame, n: nat, ops: seq<Op>)
    returns (m: Memory, events: seq<Event>, t: Table, ghost trace: seq<Snap>)
    requires |ker| == ENTRIES
    ensures fresh(m) && m.ker == ker && |trace| == |events| + 1 && trace[0] == Snap(Boot(ker, n), Table(map[], map[], map[]))
    ensures History({}, trace, ops, events) && AllAnswered(ker, Ref(map[], {}, map[], map[]), ops, events)
    ensures trace[|events|].table == t && Ok(trace[|events|].vm, t, {})
    ensures Abs(Contents(trace[|events|].vm), t) == RefAfter(Ref(map[], {}, map[], map[]), events)
    ensures m.Valid() <==> |events| == |ops|
    ensures m.Valid() ==> m.View() == trace[|events|].vm
    ensures !m.Valid() ==> Breaks(trace[|events|].vm, t, ops[|events|]) && Lost(m.View())
    ensures m.Valid() && t == Table(map[], map[], map[]) ==> |m.free| == n
  {
    hide Inv, Contents, Ok, Abs, Served, AllAnswered, Breaks, Lost, Boot;
    m := new Memory(ker, n);
    BootOk(ker, n);
    events, t, trace := Run(m, Table(map[], map[], map[]), ops, {});
  }
}
