/**
  Address spaces under construction: the tables of the tasks and of the forks that wait for
  memory, and how they show on the reference machine.
 */
module Halves {
  import opened Sv39
  import opened Pool
  import opened Mm
  import opened Fork
  import opened Fault
  import opened Reference
  import Ownership

  /**
    Where the creation of an address space waits: for its kernel stack, for the private copy of
    the stack page `at`, or for a table of the shared pages.  The stack to be copied goes down from
    page `first`.
   */
  datatype Half =
    | SpawnStack
    | ForkStack(parent: nat, first: Vpn)
    | ForkPages(parent: nat, first: Vpn, at: Vpn)
    | ForkShare(parent: nat, first: Vpn)

  function ParentOf(h: Half): Option<nat> { if h.SpawnStack? then None else Some(h.parent) }

  predicate SameParent(h: Half, h': Half) { !h.SpawnStack? && ParentOf(h) == ParentOf(h') }

  predicate HasStack(h: Half) { h.ForkPages? || h.ForkShare? }

  /** A store that sleeps in deal_no_W, with the page that it will copy. */
  datatype Stall = Stall(wish: Wish, page: nat)

  /** Kernel stacks by root, the unfinished roots, and the tasks asleep in a store. */
  datatype Table = Table(stacks: map<nat, nat>, halves: map<nat, Half>, stores: map<nat, Stall>)

  function Live(t: Table): set<nat> { t.stacks.Keys - t.halves.Keys }

  function Parents(t: Table): map<nat, Option<nat>> { map child | child in t.halves :: ParentOf(t.halves[child]) }

  function Wishes(t: Table): map<nat, Wish> { map r | r in t.stores :: t.stores[r].wish }

  ghost function Stacks(stacks: map<nat, nat>): set<nat> { set r | r in stacks :: stacks[r] }

  /** Each address space is live or unfinished. */
  ghost predicate RootsOk(roots: set<nat>, stacks: set<nat>, halves: set<nat>) {
    stacks + halves == roots && |roots| <= MAX_TASKS
  }

  /** Besides the pages `held`, the kernel holds exactly one stack for each entry of the table. */
  ghost predicate StacksOk(pages: set<nat>, stacks: map<nat, nat>, held: set<nat>) {
    && (forall r :: r in stacks ==> stacks[r] !in held)
    && (forall r, r' :: r in stacks && r' in stacks && stacks[r] == stacks[r'] ==> r == r')
    && pages == held + Stacks(stacks)
  }

  /** A parent is live and waits for one child only. */
  ghost predicate ParentsOk(t: Table) {
    && (forall child :: child in t.halves ==> (child in t.stacks <==> HasStack(t.halves[child])))
    && (forall child :: child in t.halves && ParentOf(t.halves[child]).Some? ==> t.halves[child].parent in Live(t))
    && (forall a, b :: a in t.halves && b in t.halves && SameParent(t.halves[a], t.halves[b]) ==> a == b)
  }

  ghost predicate TableOk(roots: set<nat>, pages: set<nat>, t: Table, held: set<nat>) {
    RootsOk(roots, t.stacks.Keys, t.halves.Keys) && StacksOk(pages, t.stacks, held) && ParentsOk(t)
  }

  /** What has been built of the unfinished space `child`. */
  ghost predicate Built(ker: Frame, pt: map<Key, Word>, c: Spaces, child: nat, h: Half)
    requires |ker| == ENTRIES
  {
    match h
    case SpawnStack => NoPages(c, child)
    case ForkStack(parent, first) => NoPages(c, child) && StackEnds(ker, c.Keys, parent, first)
    case ForkPages(parent, first, at) =>
      && Aligned(pt, parent, child) && StackCopied(c, parent, child, at) && StackEnds(ker, c.Keys, parent, at)
      && StackSoFar(pt, parent, child, first, at)
    case ForkShare(parent, first) =>
      Aligned(pt, parent, child) && Mirrors(c, parent, child) && StackPrivate(pt, parent, child, first)
  }

  ghost predicate NoPages(c: Spaces, r: nat) { forall v: Vpn :: (r, v) !in c }

  ghost predicate BuiltExcept(ker: Frame, pt: map<Key, Word>, c: Spaces, halves: map<nat, Half>, skip: set<nat>)
    requires |ker| == ENTRIES
  {
    forall child :: child in halves && child !in skip ==> Built(ker, pt, c, child, halves[child])
  }

  /** A task asleep in a store is live and not asleep in a fork. */
  ghost predicate OneSleep(t: Table) {
    forall r :: r in t.stores ==>
      r in Live(t) && forall child :: child in t.halves ==> ParentOf(t.halves[child]) != Some(r)
  }

  /** It sleeps for a page that its space still maps read-only. */
  ghost predicate Waiting(pt: map<Key, Word>, stores: map<nat, Stall>) {
    forall r: nat :: r in stores ==> WaitsAt(pt, r, stores[r])
  }

  ghost predicate WaitsAt(pt: map<Key, Word>, r: nat, st: Stall) {
    && (r, st.wish.v) in pt && !pt[(r, st.wish.v)].w && Node(pt[(r, st.wish.v)]) == st.page && st.wish.x < ENTRIES
  }

  ghost function Sleepers(stores: map<nat, Stall>, f: nat): set<nat> { set r | r in stores && stores[r].page == f }

  /** The pages whose share_num deal_no_W has lowered are those that tasks sleep for, with their numbers. */
  ghost predicate LagsOk(lag: seq<nat>, stores: map<nat, Stall>) {
    forall f: nat :: f < |lag| ==> lag[f] == |Sleepers(stores, f)|
  }

  ghost predicate StallsOk(pt: map<Key, Word>, lag: seq<nat>, t: Table) {
    OneSleep(t) && Waiting(pt, t.stores) && LagsOk(lag, t.stores)
  }

  /** The invariant of the task table. */
  ghost predicate Ok(s: Vm, t: Table, held: set<nat>) {
    && Inv(s) && LagOk(s) && |s.ker| == ENTRIES
    && TableOk(Roots(s), HeldPages(s), t, held)
    && BuiltExcept(s.ker, s.pt, Contents(s), t.halves, {})
    && StallsOk(s.pt, s.lag, t)
  }

  /** The spaces without those under construction. */
  ghost function Visible(c: Spaces, halves: set<nat>): Spaces {
    map key | key in c && key.0 !in halves :: c[key]
  }

  /** The reference machine that the kernel state stands for. */
  ghost function Abs(c: Spaces, t: Table): Ref {
    Ref(Visible(c, t.halves.Keys), Live(t), Parents(t), Wishes(t))
  }

  // Frames.

  /** Entries and contents of the spaces outside `roots` are unchanged. */
  ghost predicate Touches(pt: map<Key, Word>, c: Spaces, pt': map<Key, Word>, c': Spaces, roots: set<nat>) {
    KeptOutside(pt, pt', roots) && forall r: nat, v: Vpn :: r !in roots ==> Same(c', (r, v), c, (r, v))
  }

  lemma TouchesOf(pt: map<Key, Word>, c: Spaces, pt': map<Key, Word>, c': Spaces, roots: set<nat>, dst: nat)
    requires KeptOutside(pt, pt', roots) && OthersSame(c, c', dst) && dst in roots
    ensures Touches(pt, c, pt', c', roots)
  {
    hide KeptOutside, Same;
  }

  lemma StackKept(pt: map<Key, Word>, pt': map<Key, Word>, parent: nat, child: nat, first: Vpn)
    requires forall v: Vpn :: SameEntry(pt, pt', (child, v)) && SameEntry(pt, pt', (parent, v))
    ensures StackPrivate(pt, parent, child, first) ==> StackPrivate(pt', parent, child, first)
  {
    forall v: Vpn | InStack(pt'.Keys, parent, first, v) ensures InStack(pt.Keys, parent, first, v) {
      forall t: Vpn | InRange(t) && !Before(t, v) && !Before(first, t) ensures (parent, t) in pt.Keys {
        assert (parent, t) in pt'.Keys;
        assert SameEntry(pt, pt', (parent, t));
      }
    }
    assert forall v: Vpn :: SameEntry(pt, pt', (child, v)) && SameEntry(pt, pt', (parent, v));
  }

  lemma SoFarKept(pt: map<Key, Word>, pt': map<Key, Word>, parent: nat, child: nat, first: Vpn, u: Vpn)
    requires forall v: Vpn :: SameEntry(pt, pt', (child, v)) && SameEntry(pt, pt', (parent, v))
    requires StackSoFar(pt, parent, child, first, u)
    ensures StackSoFar(pt', parent, child, first, u)
  {
    forall v: Vpn | (child, v) in pt' ensures PrivateAt(pt', parent, child, v) {
      assert SameEntry(pt, pt', (child, v));
      assert PrivateAt(pt, parent, child, v);
    }
    forall v: Vpn ensures (child, v) in pt' <==> InRange(v) && Before(u, v) && !Before(first, v) {
      assert SameEntry(pt, pt', (child, v));
    }
  }

  lemma BuiltKept(ker: Frame, pt: map<Key, Word>, c: Spaces, pt': map<Key, Word>, c': Spaces, roots: set<nat>, child: nat, h: Half)
    requires |ker| == ENTRIES && Touches(pt, c, pt', c', roots) && Built(ker, pt, c, child, h)
    requires child !in roots && (ParentOf(h).Some? ==> h.parent !in roots)
    ensures Built(ker, pt', c', child, h)
  {
    assert forall v: Vpn :: Same(c', (child, v), c, (child, v)) && SameEntry(pt, pt', (child, v));
    if ParentOf(h).Some? {
      var p := h.parent;
      assert forall v: Vpn :: Same(c', (p, v), c, (p, v)) && SameEntry(pt, pt', (p, v));
      if h.ForkStack? { StackEndsKept(ker, c.Keys, c'.Keys, p, h.first); }
      if h.ForkPages? { StackEndsKept(ker, c.Keys, c'.Keys, p, h.at); }
      StackKept(pt, pt', p, child, h.first);
      if h.ForkPages? && StackSoFar(pt, p, child, h.first, h.at) { SoFarKept(pt, pt', p, child, h.first, h.at); }
      hide StackEnds, Touches, StackSoFar, StackPrivate;
    }
  }

  /** The unfinished spaces whose child and parent are not touched stay as they are. */
  lemma BuiltFrame(ker: Frame, pt: map<Key, Word>, c: Spaces, pt': map<Key, Word>, c': Spaces, roots: set<nat>,
                   halves: map<nat, Half>, skip: set<nat>)
    requires |ker| == ENTRIES && Touches(pt, c, pt', c', roots) && BuiltExcept(ker, pt, c, halves, skip)
    requires forall child :: child in halves && child !in skip ==>
               child !in roots && (ParentOf(halves[child]).Some? ==> halves[child].parent !in roots)
    ensures BuiltExcept(ker, pt', c', halves, skip)
  {
    hide Touches, Built;
    forall child | child in halves && child !in skip ensures Built(ker, pt', c', child, halves[child]) {
      BuiltKept(ker, pt, c, pt', c', roots, child, halves[child]);
    }
  }

  /** A live task that is not asleep in a fork or a store of its own. */
  predicate AwakeIn(t: Table, r: nat) {
    r in Live(t) && r !in t.stores && forall child :: child in t.halves ==> ParentOf(t.halves[child]) != Some(r)
  }

  lemma AwakeAbs(c: Spaces, t: Table, r: nat)
    ensures Awake(Abs(c, t), r) <==> AwakeIn(t, r)
  {
    assert forall child :: child in t.halves ==> Parents(t)[child] == ParentOf(t.halves[child]);
  }

  /** Sleeping stores do not notice what happens in other spaces. */
  lemma StallsFrame(pt: map<Key, Word>, pt': map<Key, Word>, lag: seq<nat>, t: Table, roots: set<nat>)
    requires StallsOk(pt, lag, t) && KeptOutside(pt, pt', roots) && forall r :: r in t.stores ==> r !in roots
    ensures StallsOk(pt', lag, t)
  {
    hide OneSleep, LagsOk;
    forall r: nat | r in t.stores ensures WaitsAt(pt', r, t.stores[r]) {
      assert SameEntry(pt, pt', (r, t.stores[r].wish.v));
    }
  }

  /** A request of r that touches no other space keeps the task table. */
  lemma OwnStep(s: Vm, s': Vm, t: Table, held: set<nat>, r: nat)
    requires Ok(s, t, held) && Inv(s') && LagOk(s') && AwakeIn(t, r) && s'.ker == s.ker && s'.lag == s.lag
    requires Roots(s') == Roots(s) && HeldPages(s') == HeldPages(s)
    requires Touches(s.pt, Contents(s), s'.pt, Contents(s'), {r})
    ensures Ok(s', t, held)
  {
    hide Inv, LagOk, Contents, Roots, HeldPages, TableOk, KeptOutside, Built, StallsOk;
    BuiltFrame(s.ker, s.pt, Contents(s), s'.pt, Contents(s'), {r}, t.halves, {});
    StallsFrame(s.pt, s'.pt, s.lag, t, {r});
  }

  // Visible spaces.

  lemma VisibleSet(c: Spaces, halves: set<nat>, key: Key, f: Frame)
    requires key.0 !in halves
    ensures Visible(c[key := f], halves) == Visible(c, halves)[key := f]
    ensures key in Visible(c, halves) <==> key in c
    ensures PageAt(Visible(c, halves), key) == PageAt(c, key)
  {
  }

  lemma VisibleDrop(c: Spaces, halves: set<nat>, key: Key)
    ensures Visible(c - {key}, halves) == Visible(c, halves) - {key}
  {
  }

  lemma VisibleExit(c: Spaces, halves: set<nat>, r: nat)
    ensures Visible(WithoutSpace(c, r), halves) == WithoutSpace(Visible(c, halves), r)
  {
  }

  lemma VisibleOthers(c: Spaces, c': Spaces, halves: set<nat>, child: nat)
    requires OthersSame(c, c', child) && child in halves
    ensures Visible(c', halves) == Visible(c, halves)
  {
    forall key ensures Same(Visible(c', halves), key, Visible(c, halves), key) {
      if key.0 != child { assert Same(c', (key.0, key.1), c, (key.0, key.1)); }
    }
  }

  lemma VisibleEmpty(c: Spaces, halves: set<nat>, r: nat)
    requires NoPages(c, r)
    ensures Visible(c, halves + {r}) == Visible(c, halves) == Visible(c, halves - {r})
  {
    forall key | key in c ensures key.0 != r { assert key == (key.0, key.1); }
  }

  lemma VisibleAt(c: Spaces, halves: set<nat>, key: Key)
    ensures key.0 in halves ==> key !in Visible(c, halves)
    ensures key.0 !in halves ==> Same(Visible(c, halves), key, c, key)
  {
  }

  lemma VisibleFork(c: Spaces, halves: set<nat>, parent: nat, child: nat)
    requires parent !in halves && child in halves
    ensures Visible(EagerFork(c, parent, child), halves - {child}) == EagerFork(Visible(c, halves), parent, child)
  {
    hide EagerFork, Visible;
    var all, seen := EagerFork(c, parent, child), Visible(c, halves);
    var a, b := Visible(all, halves - {child}), EagerFork(seen, parent, child);
    forall key ensures (key in a <==> key in b) && (key in a ==> a[key] == b[key]) {
      var (r, v) := key;
      var from := if r == child then parent else r;
      VisibleAt(all, halves - {child}, key);
      EagerForkAt(c, parent, child, r, v);
      EagerForkAt(seen, parent, child, r, v);
      VisibleAt(c, halves, (from, v));
    }
  }

  // The table.

  lemma StacksAdd(stacks: map<nat, nat>, root: nat, kstack: nat)
    requires root !in stacks
    ensures Stacks(stacks[root := kstack]) == Stacks(stacks) + {kstack}
    ensures forall r :: r in stacks ==> stacks[r] in Stacks(stacks)
  {
    var stacks' := stacks[root := kstack];
    forall k | k in Stacks(stacks) ensures k in Stacks(stacks') {
      var r :| r in stacks && stacks[r] == k;
      assert r in stacks' && stacks'[r] == k;
    }
    assert root in stacks' && stacks'[root] == kstack;
  }

  lemma StacksRemove(stacks: map<nat, nat>, root: nat)
    requires root in stacks
    requires forall r, r' :: r in stacks && r' in stacks && stacks[r] == stacks[r'] ==> r == r'
    ensures Stacks(stacks - {root}) == Stacks(stacks) - {stacks[root]}
  {
    var stacks' := stacks - {root};
    forall k | k in Stacks(stacks) && k != stacks[root] ensures k in Stacks(stacks') {
      var r :| r in stacks && stacks[r] == k;
      assert r in stacks' && stacks'[r] == k;
    }
  }

  lemma StackAdded(pages: set<nat>, stacks: map<nat, nat>, held: set<nat>, root: nat, kstack: nat)
    requires StacksOk(pages, stacks, held) && root !in stacks && kstack !in pages
    ensures StacksOk(pages + {kstack}, stacks[root := kstack], held)
  {
    StacksAdd(stacks, root, kstack);
    hide Stacks;
  }

  lemma StackRemoved(pages: set<nat>, stacks: map<nat, nat>, held: set<nat>, root: nat)
    requires StacksOk(pages, stacks, held) && root in stacks
    ensures StacksOk(pages - {stacks[root]}, stacks - {root}, held)
  {
    StacksRemove(stacks, root);
    hide Stacks;
  }

  lemma KeysWith<V>(m: map<nat, V>, k: nat, x: V)
    ensures m[k := x].Keys == m.Keys + {k}
  {
  }

  /** A space begins, or moves on to its next stage. */
  function WithHalf(t: Table, child: nat, h: Half): Table { t.(halves := t.halves[child := h]) }

  function WithStack(t: Table, child: nat, kstack: nat): Table { t.(stacks := t.stacks[child := kstack]) }

  /** An unfinished space becomes live. */
  function Finished(t: Table, child: nat): Table { t.(halves := t.halves - {child}) }

  function TaskGone(t: Table, r: nat): Table { t.(stacks := t.stacks - {r}) }

  lemma RootsChange(roots: set<nat>, stacks: set<nat>, halves: set<nat>, r: nat)
    requires RootsOk(roots, stacks, halves)
    ensures r !in roots ==> r !in stacks && r !in halves
    ensures r !in roots && |roots| < MAX_TASKS ==> RootsOk(roots + {r}, stacks, halves + {r})
    ensures r in halves ==> RootsOk(roots, stacks + {r}, halves)
    ensures r in stacks ==> RootsOk(roots, stacks, halves - {r})
    ensures r !in halves ==> RootsOk(roots - {r}, stacks - {r}, halves)
  {
  }

  lemma ParentsBegun(t: Table, root: nat, h: Half)
    requires ParentsOk(t) && root !in t.stacks && root !in t.halves
    requires !HasStack(h) && (ParentOf(h).Some? ==> AwakeIn(t, h.parent))
    ensures ParentsOk(WithHalf(t, root, h))
  {
    assert Live(WithHalf(t, root, h)) == Live(t);
  }

  lemma TableBegun(roots: set<nat>, pages: set<nat>, t: Table, held: set<nat>, root: nat, h: Half)
    requires TableOk(roots, pages, t, held) && root !in roots && |roots| < MAX_TASKS
    requires !HasStack(h) && (ParentOf(h).Some? ==> AwakeIn(t, h.parent))
    ensures TableOk(roots + {root}, pages, WithHalf(t, root, h), held)
  {
    hide ParentsOk, StacksOk, RootsOk, AwakeIn;
    RootsChange(roots, t.stacks.Keys, t.halves.Keys, root);
    ParentsBegun(t, root, h);
    KeysWith(t.halves, root, h);
  }

  lemma ParentsStacked(t: Table, child: nat, kstack: nat, h: Half)
    requires ParentsOk(t) && child in t.halves && HasStack(h) && ParentOf(h) == ParentOf(t.halves[child])
    ensures ParentsOk(WithHalf(WithStack(t, child, kstack), child, h))
  {
    assert Live(WithHalf(WithStack(t, child, kstack), child, h)) == Live(t);
  }

  lemma TableStacked(roots: set<nat>, pages: set<nat>, t: Table, held: set<nat>, child: nat, kstack: nat, h: Half)
    requires TableOk(roots, pages, t, held) && child in t.halves && child !in t.stacks && kstack !in pages
    requires HasStack(h) && ParentOf(h) == ParentOf(t.halves[child])
    ensures TableOk(roots, pages + {kstack}, WithHalf(WithStack(t, child, kstack), child, h), held)
  {
    ParentsStacked(t, child, kstack, h);
    StackAdded(pages, t.stacks, held, child, kstack);
    RootsChange(roots, t.stacks.Keys, t.halves.Keys, child);
    hide ParentsOk, StacksOk, RootsOk;
    KeysWith(t.stacks, child, kstack);
    KeysWith(t.halves, child, h);
    assert t.halves.Keys + {child} == t.halves.Keys;
  }

  lemma ParentsMoved(t: Table, child: nat, h: Half)
    requires ParentsOk(t) && child in t.halves && HasStack(h) && HasStack(t.halves[child])
    requires h.parent == t.halves[child].parent
    ensures ParentsOk(WithHalf(t, child, h))
  {
    assert Live(WithHalf(t, child, h)) == Live(t);
  }

  lemma TableMoved(roots: set<nat>, pages: set<nat>, t: Table, held: set<nat>, child: nat, h: Half)
    requires TableOk(roots, pages, t, held) && child in t.halves && HasStack(h) && HasStack(t.halves[child])
    requires h.parent == t.halves[child].parent
    ensures TableOk(roots, pages, WithHalf(t, child, h), held)
  {
    ParentsMoved(t, child, h);
    hide ParentsOk, StacksOk, RootsOk;
    assert t.halves[child := h].Keys == t.halves.Keys;
  }

  lemma ParentsFinished(t: Table, child: nat)
    requires ParentsOk(t) && child in t.halves
    ensures ParentsOk(Finished(t, child))
  {
    assert Live(t) <= Live(Finished(t, child));
  }

  lemma TableFinished(roots: set<nat>, pages: set<nat>, t: Table, held: set<nat>, child: nat)
    requires TableOk(roots, pages, t, held) && child in t.halves && child in t.stacks
    ensures TableOk(roots, pages, Finished(t, child), held)
  {
    ParentsFinished(t, child);
    RootsChange(roots, t.stacks.Keys, t.halves.Keys, child);
    hide ParentsOk, StacksOk, RootsOk;
    assert Finished(t, child).halves.Keys == t.halves.Keys - {child};
  }

  lemma ParentsGone(t: Table, r: nat)
    requires ParentsOk(t) && AwakeIn(t, r)
    ensures ParentsOk(TaskGone(t, r))
  {
    assert Live(TaskGone(t, r)) == Live(t) - {r};
  }

  lemma TableGone(roots: set<nat>, pages: set<nat>, t: Table, held: set<nat>, r: nat)
    requires TableOk(roots, pages, t, held) && AwakeIn(t, r)
    ensures TableOk(roots - {r}, pages - {t.stacks[r]}, TaskGone(t, r), held)
  {
    ParentsGone(t, r);
    StackRemoved(pages, t.stacks, held, r);
    RootsChange(roots, t.stacks.Keys, t.halves.Keys, r);
    hide ParentsOk, StacksOk, RootsOk;
    assert TaskGone(t, r).stacks.Keys == t.stacks.Keys - {r};
  }

  lemma TableCount(t: Table, roots: set<nat>)
    requires RootsOk(roots, t.stacks.Keys, t.halves.Keys)
    ensures |Live(t)| + |t.halves| == |roots| && |Parents(t)| == |t.halves|
  {
    assert Live(t) + t.halves.Keys == roots && Live(t) !! t.halves.Keys;
    assert Parents(t).Keys == t.halves.Keys;
  }

  // Stages.

  /** The space gets its kernel stack; without a parent it is then complete. */
  function Stacked(t: Table, child: nat, kstack: nat): Table
    requires child in t.halves
  {
    var h := t.halves[child];
    if h.SpawnStack? then Finished(WithStack(t, child, kstack), child)
    else WithHalf(WithStack(t, child, kstack), child, ForkPages(h.parent, h.first, h.first))
  }

  lemma LiveRoots(s: Vm, t: Table, held: set<nat>, r: nat)
    requires Ok(s, t, held) && (r in t.stacks || r in t.halves)
    ensures IsRoot(s, r)
  {
    assert r in Roots(s);
  }

  lemma BuiltWith(ker: Frame, pt: map<Key, Word>, c: Spaces, halves: map<nat, Half>, child: nat, h: Half)
    requires |ker| == ENTRIES && BuiltExcept(ker, pt, c, halves, {child}) && Built(ker, pt, c, child, h)
    ensures BuiltExcept(ker, pt, c, halves[child := h], {})
  {
    hide Built;
  }

  lemma Unrelated(roots: set<nat>, pages: set<nat>, t: Table, held: set<nat>, child: nat)
    requires TableOk(roots, pages, t, held) && child in t.halves && HasStack(t.halves[child])
    ensures forall ch :: ch in t.halves && ch != child ==>
              && ch != t.halves[child].parent
              && (ParentOf(t.halves[ch]).Some? ==> t.halves[ch].parent != child && t.halves[ch].parent != t.halves[child].parent)
  {
    forall ch | ch in t.halves && ch != child
      ensures ParentOf(t.halves[ch]).Some? ==> t.halves[ch].parent != t.halves[child].parent
    {
      assert !SameParent(t.halves[child], t.halves[ch]);
    }
  }

  /** An unfinished space moves on, touching itself and at most its parent. */
  lemma StageOk(s: Vm, s': Vm, t: Table, held: set<nat>, child: nat, h: Half)
    requires Ok(s, t, held) && Inv(s') && LagOk(s') && s'.ker == s.ker && s'.lag == s.lag && child in t.halves
    requires Roots(s') == Roots(s) && HeldPages(s') == HeldPages(s)
    requires HasStack(t.halves[child]) && HasStack(h) && h.parent == t.halves[child].parent
    requires Touches(s.pt, Contents(s), s'.pt, Contents(s'), {h.parent, child})
    requires |s.ker| == ENTRIES && Built(s'.ker, s'.pt, Contents(s'), child, h)
    ensures Ok(s', WithHalf(t, child, h), held)
  {
    hide Inv, LagOk, Contents, Roots, HeldPages, KeptOutside, Same, Built, BuiltExcept, TableOk, StallsOk;
    assert BuiltExcept(s.ker, s.pt, Contents(s), t.halves, {child}) by { BuiltLess(s.ker, s.pt, Contents(s), t.halves, child); }
    Unrelated(Roots(s), HeldPages(s), t, held, child);
    TableMoved(Roots(s), HeldPages(s), t, held, child, h);
    BuiltFrame(s.ker, s.pt, Contents(s), s'.pt, Contents(s'), {h.parent, child}, t.halves, {child});
    BuiltWith(s'.ker, s'.pt, Contents(s'), t.halves, child, h);
    StallsStage(s.pt, s'.pt, s.lag, t, child, h);
  }

  lemma StallsStage(pt: map<Key, Word>, pt': map<Key, Word>, lag: seq<nat>, t: Table, child: nat, h: Half)
    requires StallsOk(pt, lag, t) && child in t.halves && HasStack(t.halves[child]) && HasStack(h)
    requires h.parent == t.halves[child].parent && KeptOutside(pt, pt', {h.parent, child})
    ensures StallsOk(pt', lag, WithHalf(t, child, h))
  {
    assert forall r :: r in t.stores ==> r != h.parent && r != child;
    hide KeptOutside;
    StallsFrame(pt, pt', lag, t, {h.parent, child});
    hide LagsOk, Waiting;
    assert Live(WithHalf(t, child, h)) == Live(t);
  }

  lemma StallsBegun(pt: map<Key, Word>, lag: seq<nat>, t: Table, root: nat, h: Half)
    requires StallsOk(pt, lag, t) && root !in t.stacks && (ParentOf(h).Some? ==> AwakeIn(t, h.parent))
    ensures StallsOk(pt, lag, WithHalf(t, root, h))
  {
    hide LagsOk, Waiting;
    assert Live(WithHalf(t, root, h)) == Live(t);
  }

  lemma StallsStacked(pt: map<Key, Word>, lag: seq<nat>, t: Table, child: nat, kstack: nat)
    requires StallsOk(pt, lag, t) && child in t.halves && !HasStack(t.halves[child])
    ensures StallsOk(pt, lag, Stacked(t, child, kstack))
  {
    hide LagsOk, Waiting;
    assert Live(t) <= Live(Stacked(t, child, kstack));
  }

  lemma StallsFinished(pt: map<Key, Word>, lag: seq<nat>, t: Table, child: nat)
    requires StallsOk(pt, lag, t) && child in t.halves
    ensures StallsOk(pt, lag, Finished(t, child))
  {
    hide LagsOk, Waiting;
    assert Live(t) <= Live(Finished(t, child));
  }

  lemma StallsGone(pt: map<Key, Word>, pt': map<Key, Word>, lag: seq<nat>, t: Table, r: nat)
    requires StallsOk(pt, lag, t) && AwakeIn(t, r) && KeptOutside(pt, pt', {r})
    ensures StallsOk(pt', lag, TaskGone(t, r))
  {
    StallsFrame(pt, pt', lag, t, {r});
    hide LagsOk, Waiting, KeptOutside;
    assert Live(TaskGone(t, r)) == Live(t) - {r};
  }

  lemma BuiltLess(ker: Frame, pt: map<Key, Word>, c: Spaces, halves: map<nat, Half>, child: nat)
    requires |ker| == ENTRIES && BuiltExcept(ker, pt, c, halves, {})
    ensures BuiltExcept(ker, pt, c, halves, {child}) && BuiltExcept(ker, pt, c, halves - {child}, {})
    ensures child in halves ==> Built(ker, pt, c, child, halves[child])
  {
    hide Built;
  }

  lemma FinishOk(s: Vm, t: Table, held: set<nat>, child: nat)
    requires Ok(s, t, held) && child in t.halves && child in t.stacks
    ensures Ok(s, Finished(t, child), held)
  {
    hide Inv, LagOk, Contents, Roots, HeldPages, Built, BuiltExcept, StallsOk;
    BuiltLess(s.ker, s.pt, Contents(s), t.halves, child);
    StallsFinished(s.pt, s.lag, t, child);
    TableFinished(Roots(s), HeldPages(s), t, held, child);
  }

  lemma ParentsSpawned(t: Table, child: nat, kstack: nat)
    requires ParentsOk(t) && child in t.halves && t.halves[child].SpawnStack?
    ensures ParentsOk(Finished(WithStack(t, child, kstack), child))
  {
    assert Live(Finished(WithStack(t, child, kstack), child)) == Live(t) + {child};
  }

  lemma TableSpawned(roots: set<nat>, pages: set<nat>, t: Table, held: set<nat>, child: nat, kstack: nat)
    requires TableOk(roots, pages, t, held) && child in t.halves && t.halves[child].SpawnStack?
    requires child !in t.stacks && kstack !in pages
    ensures TableOk(roots, pages + {kstack}, Finished(WithStack(t, child, kstack), child), held)
  {
    hide ParentsOk, StacksOk, RootsOk;
    ParentsSpawned(t, child, kstack);
    StackAdded(pages, t.stacks, held, child, kstack);
    KeysWith(t.stacks, child, kstack);
    RootsChange(roots, t.stacks.Keys, t.halves.Keys, child);
    RootsChange(roots, t.stacks.Keys + {child}, t.halves.Keys, child);
    assert (t.halves - {child}).Keys == t.halves.Keys - {child};
  }

  lemma NoStackYet(t: Table, child: nat)
    requires ParentsOk(t) && child in t.halves && !HasStack(t.halves[child])
    ensures child !in t.stacks
  {
  }

  lemma BuiltStacked(ker: Frame, pt: map<Key, Word>, c: Spaces, child: nat, h: Half)
    requires |ker| == ENTRIES && h.ForkStack? && Built(ker, pt, c, child, h) && pt.Keys == c.Keys
    ensures Built(ker, pt, c, child, ForkPages(h.parent, h.first, h.first))
  {
    assert User(ker, h.first);
    hide StackEnds;
    assert forall v: Vpn :: (child, v) !in pt.Keys;
  }

  /** The space has its kernel stack. */
  lemma StackedOk(s: Vm, s': Vm, t: Table, held: set<nat>, child: nat, kstack: nat)
    requires Ok(s, t, held) && Inv(s') && LagOk(s') && s'.ker == s.ker && s'.lag == s.lag
    requires child in t.halves && !HasStack(t.halves[child])
    requires Roots(s') == Roots(s) && HeldPages(s') == HeldPages(s) + {kstack} && kstack !in HeldPages(s)
    requires s'.pt == s.pt && Contents(s') == Contents(s)
    ensures Ok(s', Stacked(t, child, kstack), held)
  {
    hide Inv, LagOk, Contents, Roots, HeldPages, Built, BuiltExcept, RootsOk, StacksOk, ParentsOk, StallsOk;
    StallsStacked(s.pt, s.lag, t, child, kstack);
    var h, c := t.halves[child], Contents(s);
    NoStackYet(t, child);
    BuiltLess(s.ker, s.pt, c, t.halves, child);
    if h.SpawnStack? {
      TableSpawned(Roots(s), HeldPages(s), t, held, child, kstack);
    } else {
      var next := ForkPages(h.parent, h.first, h.first);
      TableStacked(Roots(s), HeldPages(s), t, held, child, kstack, next);
      SpaceKeys(s);
      BuiltStacked(s.ker, s.pt, c, child, h);
      BuiltWith(s.ker, s.pt, c, t.halves, child, next);
    }
  }

  lemma NotInTable(roots: set<nat>, pages: set<nat>, t: Table, held: set<nat>, r: nat)
    requires TableOk(roots, pages, t, held) && r !in roots
    ensures r !in t.stacks && r !in t.halves
  {
    hide StacksOk, ParentsOk;
  }

  /** A new, empty space begins. */
  lemma BegunOk(s: Vm, s': Vm, t: Table, held: set<nat>, root: nat, h: Half)
    requires Ok(s, t, held) && Inv(s') && LagOk(s') && s'.ker == s.ker && s'.lag == s.lag
    requires root !in Roots(s) && |Roots(s)| < MAX_TASKS
    requires Roots(s') == Roots(s) + {root} && HeldPages(s') == HeldPages(s)
    requires s'.pt == s.pt && Contents(s') == Contents(s)
    requires !HasStack(h) && (ParentOf(h).Some? ==> AwakeIn(t, h.parent))
    requires |s.ker| == ENTRIES && Built(s'.ker, s'.pt, Contents(s'), root, h)
    ensures Ok(s', WithHalf(t, root, h), held)
  {
    hide Inv, LagOk, Contents, Roots, HeldPages, Built, BuiltExcept, TableOk, StallsOk, AwakeIn;
    NotInTable(Roots(s), HeldPages(s), t, held, root);
    StallsBegun(s.pt, s.lag, t, root, h);
    TableBegun(Roots(s), HeldPages(s), t, held, root, h);
    BuiltLess(s.ker, s.pt, Contents(s), t.halves, root);
    BuiltWith(s'.ker, s'.pt, Contents(s'), t.halves, root, h);
  }

  /** A task has gone, with its space and its kernel stack. */
  lemma GoneOk(s: Vm, s': Vm, t: Table, held: set<nat>, r: nat)
    requires Ok(s, t, held) && Inv(s') && LagOk(s') && s'.ker == s.ker && s'.lag == s.lag && AwakeIn(t, r)
    requires Roots(s') == Roots(s) - {r} && HeldPages(s') == HeldPages(s) - {t.stacks[r]}
    requires Touches(s.pt, Contents(s), s'.pt, Contents(s'), {r})
    ensures Ok(s', TaskGone(t, r), held)
  {
    hide Inv, LagOk, Contents, Roots, HeldPages, TableOk, KeptOutside, Built, StallsOk;
    StallsGone(s.pt, s'.pt, s.lag, t, r);
    TableGone(Roots(s), HeldPages(s), t, held, r);
    BuiltFrame(s.ker, s.pt, Contents(s), s'.pt, Contents(s'), {r}, t.halves, {});
  }

  // What the stages show on the reference machine.

  lemma AbsMoved(c: Spaces, c': Spaces, t: Table, child: nat, h: Half)
    requires child in t.halves && ParentOf(h) == ParentOf(t.halves[child]) && OthersSame(c, c', child)
    ensures Abs(c', WithHalf(t, child, h)) == Abs(c, t)
  {
    VisibleOthers(c, c', t.halves.Keys, child);
    hide Visible, OthersSame;
    assert WithHalf(t, child, h).halves.Keys == t.halves.Keys;
  }

  lemma AbsForked(c: Spaces, t: Table, child: nat, parent: nat)
    requires child in t.halves && child in t.stacks && parent in Live(t)
    ensures Abs(EagerFork(c, parent, child), Finished(t, child)) == RefStep(Abs(c, t), Forked(parent, child))
  {
    VisibleFork(c, t.halves.Keys, parent, child);
    hide Visible, EagerFork;
    assert Finished(t, child).halves.Keys == t.halves.Keys - {child};
  }

  lemma AbsBegun(c: Spaces, t: Table, root: nat, h: Half)
    requires NoPages(c, root) && root !in t.stacks && root !in t.halves
    ensures Abs(c, WithHalf(t, root, h)) == RefStep(Abs(c, t), Began(root, ParentOf(h))) && Fresh(Abs(c, t), root)
  {
    VisibleEmpty(c, t.halves.Keys, root);
    hide Visible;
    assert WithHalf(t, root, h).halves.Keys == t.halves.Keys + {root};
  }

  lemma AbsSpawned(c: Spaces, t: Table, child: nat, kstack: nat)
    requires NoPages(c, child) && child in t.halves && t.halves[child].SpawnStack?
    ensures Abs(c, Stacked(t, child, kstack)) == RefStep(Abs(c, t), Spawned(child))
  {
    VisibleEmpty(c, t.halves.Keys, child);
    hide Visible, NoPages;
    assert (t.halves - {child}).Keys == t.halves.Keys - {child};
    assert Live(Stacked(t, child, kstack)) == Live(t) + {child};
  }

  lemma AbsStacked(c: Spaces, t: Table, child: nat, kstack: nat)
    requires child in t.halves && t.halves[child].ForkStack?
    ensures Abs(c, Stacked(t, child, kstack)) == Abs(c, t)
  {
    hide Visible;
    assert Stacked(t, child, kstack).halves.Keys == t.halves.Keys;
    assert Live(Stacked(t, child, kstack)) == Live(t);
  }

  // Sleeping stores.

  lemma SleepersAdd(stores: map<nat, Stall>, r: nat, st: Stall, f: nat)
    requires r !in stores
    ensures |Sleepers(stores[r := st], f)| == |Sleepers(stores, f)| + if st.page == f then 1 else 0
  {
    assert Sleepers(stores[r := st], f) == Sleepers(stores, f) + if st.page == f then {r} else {};
  }

  lemma SleepersDrop(stores: map<nat, Stall>, r: nat, f: nat)
    requires r in stores
    ensures |Sleepers(stores, f)| == |Sleepers(stores - {r}, f)| + if stores[r].page == f then 1 else 0
  {
    assert Sleepers(stores, f) == Sleepers(stores - {r}, f) + if stores[r].page == f then {r} else {};
  }

  lemma TableStores(roots: set<nat>, pages: set<nat>, t: Table, held: set<nat>, stores: map<nat, Stall>)
    requires TableOk(roots, pages, t, held)
    ensures TableOk(roots, pages, t.(stores := stores), held)
  {
    hide StacksOk, RootsOk;
  }

  lemma StallsAdded(pt: map<Key, Word>, pt': map<Key, Word>, lag: seq<nat>, t: Table, r: nat, st: Stall)
    requires StallsOk(pt, lag, t) && KeptOutside(pt, pt', {r}) && AwakeIn(t, r) && WaitsAt(pt', r, st) && st.page < |lag|
    ensures StallsOk(pt', lag[st.page := lag[st.page] + 1], t.(stores := t.stores[r := st]))
  {
    StallsFrame(pt, pt', lag, t, {r});
    hide KeptOutside, Sleepers;
    var lag', stores' := lag[st.page := lag[st.page] + 1], t.stores[r := st];
    forall f: nat | f < |lag'| ensures lag'[f] == |Sleepers(stores', f)| {
      SleepersAdd(t.stores, r, st, f);
    }
  }

  lemma StallsRemoved(pt: map<Key, Word>, pt': map<Key, Word>, lag: seq<nat>, t: Table, r: nat)
    requires StallsOk(pt, lag, t) && KeptOutside(pt, pt', {r}) && r in t.stores && t.stores[r].page < |lag|
    ensures lag[t.stores[r].page] > 0
    ensures StallsOk(pt', lag[t.stores[r].page := lag[t.stores[r].page] - 1], t.(stores := t.stores - {r}))
  {
    var p, rest := t.stores[r].page, t.(stores := t.stores - {r});
    SleepersDrop(t.stores, r, p);
    assert LagsOk(lag, t.stores);
    forall f: nat | f < |lag| ensures lag[p := lag[p] - 1][f] == |Sleepers(rest.stores, f)| {
      SleepersDrop(t.stores, r, f);
    }
    hide Sleepers;
    forall q: nat | q in rest.stores ensures WaitsAt(pt', q, rest.stores[q]) {
      assert SameEntry(pt, pt', (q, t.stores[q].wish.v));
    }
  }

  /** A store falls asleep in deal_no_W. */
  lemma StalledOk(s: Vm, s': Vm, t: Table, held: set<nat>, r: nat, st: Stall)
    requires Ok(s, t, held) && Inv(s') && LagOk(s') && AwakeIn(t, r) && s'.ker == s.ker
    requires Roots(s') == Roots(s) && HeldPages(s') == HeldPages(s)
    requires Touches(s.pt, Contents(s), s'.pt, Contents(s'), {r}) && WaitsAt(s'.pt, r, st)
    requires st.page < |s.lag| && s'.lag == s.lag[st.page := s.lag[st.page] + 1]
    ensures Ok(s', t.(stores := t.stores[r := st]), held)
  {
    hide Inv, LagOk, Contents, Roots, HeldPages, TableOk, KeptOutside, Built, StallsOk, WaitsAt;
    BuiltFrame(s.ker, s.pt, Contents(s), s'.pt, Contents(s'), {r}, t.halves, {});
    StallsAdded(s.pt, s'.pt, s.lag, t, r, st);
    TableStores(Roots(s), HeldPages(s), t, held, t.stores[r := st]);
  }

  /** It is woken and finished. */
  lemma WokenOk(s: Vm, s': Vm, t: Table, held: set<nat>, r: nat)
    requires Ok(s, t, held) && Inv(s') && LagOk(s') && r in t.stores && s'.ker == s.ker
    requires Roots(s') == Roots(s) && HeldPages(s') == HeldPages(s)
    requires Touches(s.pt, Contents(s), s'.pt, Contents(s'), {r})
    requires t.stores[r].page < |s.lag| && s.lag[t.stores[r].page] > 0
    requires s'.lag == s.lag[t.stores[r].page := s.lag[t.stores[r].page] - 1]
    ensures Ok(s', t.(stores := t.stores - {r}), held)
  {
    hide Inv, LagOk, Contents, Roots, HeldPages, TableOk, KeptOutside, Built, WaitsAt, LagsOk, Waiting;
    NotParent(t, r);
    BuiltFrame(s.ker, s.pt, Contents(s), s'.pt, Contents(s'), {r}, t.halves, {});
    hide OneSleep;
    StallsRemoved(s.pt, s'.pt, s.lag, t, r);
    TableStores(Roots(s), HeldPages(s), t, held, t.stores - {r});
  }

  lemma NotParent(t: Table, r: nat)
    requires OneSleep(t) && r in t.stores
    ensures forall child :: child in t.halves ==> child != r && (ParentOf(t.halves[child]).Some? ==> t.halves[child].parent != r)
  {
  }

  lemma AbsWaited(c: Spaces, t: Table, r: nat, st: Stall)
    ensures Abs(c, t.(stores := t.stores[r := st])) ==
            RefStep(Abs(c, t), Waited((r, st.wish.v), st.wish.x, st.wish.w))
  {
    hide Visible;
  }

  /** A store of a live task, direct or woken, on the reference machine. */
  lemma AbsStored(c: Spaces, t: Table, key: Key, x: nat, w: Word)
    requires key.0 in Live(t) && x < |PageAt(c, key)|
    ensures Abs(c[key := PageAt(c, key)[x := w]], t.(stores := t.stores - {key.0})) ==
            RefStep(Abs(c, t), Stored(key, x, w))
  {
    VisibleSet(c, t.halves.Keys, key, PageAt(c, key)[x := w]);
    hide Visible;
  }

  /** The leaf entries at which the tasks rs sleep. */
  ghost function SleepingKeys(stores: map<nat, Stall>, rs: set<nat>): set<Key>
    requires rs <= stores.Keys
  {
    set r | r in rs :: (r, stores[r].wish.v)
  }

  lemma {:induction false} SleepingKeysSize(stores: map<nat, Stall>, rs: set<nat>)
    requires rs <= stores.Keys
    ensures |SleepingKeys(stores, rs)| == |rs|
  {
    if rs != {} {
      var r :| r in rs;
      SleepingKeysSize(stores, rs - {r});
      var rest := SleepingKeys(stores, rs - {r});
      assert SleepingKeys(stores, rs) == rest + {(r, stores[r].wish.v)};
      assert (r, stores[r].wish.v) !in rest;
      assert rs == (rs - {r}) + {r};
    }
  }

  /** The tasks asleep for page p account for some of the entries that map it, and for all that they have. */
  lemma SleepingSlots(s: Vm, stores: map<nat, Stall>, p: nat)
    requires Inv(s) && Waiting(s.pt, stores)
    ensures Sleepers(stores, p) <= stores.Keys && SleepingKeys(stores, Sleepers(stores, p)) <= Ownership.Slots(s.pt, p)
    ensures forall a :: a in Ownership.Slots(s.pt, p) && a.0 in Sleepers(stores, p) ==>
              a in SleepingKeys(stores, Sleepers(stores, p))
  {
    hide Inv;
    var keys := SleepingKeys(stores, Sleepers(stores, p));
    forall r: nat | r in Sleepers(stores, p) ensures (r, stores[r].wish.v) in Ownership.Slots(s.pt, p) {
      assert WaitsAt(s.pt, r, stores[r]);
    }
    forall a | a in Ownership.Slots(s.pt, p) && a.0 in Sleepers(stores, p) ensures a in keys {
      var b := (a.0, stores[a.0].wish.v);
      assert b in keys;
      if a != b { OneKeyEach(s, a, b); }
    }
  }

  /**
    The guard of the failing case in terms of the tasks: somebody sleeps in deal_no_W for the page, and
    whoever else has the page sleeps there too.
   */
  lemma ContestedIff(s: Vm, t: Table, held: set<nat>, key: Key)
    requires Ok(s, t, held) && key in s.pt && key.0 !in t.stores
    ensures 0 <= Node(s.pt[key])
    ensures Contested(s, key) <==>
              && Sleepers(t.stores, Node(s.pt[key])) != {}
              && forall a :: a in s.pt && a != key && Node(s.pt[a]) == Node(s.pt[key]) ==>
                   a.0 in Sleepers(t.stores, Node(s.pt[key]))
  {
    hide Inv, Contents, TableOk, BuiltExcept;
    Mapped(s, key.0, key.1);
    var p := Node(s.pt[key]);
    var rs, slots := Sleepers(t.stores, p), Ownership.Slots(s.pt, p);
    SleepingSlots(s, t.stores, p);
    SleepingKeysSize(t.stores, rs);
    SlotCount(s, p);
    assert s.lag[p] == |rs|;
    var keys := SleepingKeys(t.stores, rs);
    assert key in slots && key !in keys;
    SetOneMore(keys, slots, key);
    assert forall a :: a in keys ==> a.0 in rs;
    hide Sleepers, SleepingKeys, StallsOk;
  }

  lemma SlotCount(s: Vm, p: nat)
    requires Inv(s) && p < |s.roles| && s.roles[p] == Data
    ensures p < |s.share| && s.share[p] == |Ownership.Slots(s.pt, p)|
  {
    hide Tree, Ownership.Slots;
  }

  lemma SetOneMore<T>(a: set<T>, b: set<T>, x: T)
    requires a <= b && x in b && x !in a
    ensures |b| == |a| + 1 <==> b == a + {x}
  {
    if |b| == |a| + 1 && b != a + {x} {
      var y :| y in b && y !in a + {x};
      assert a + {x, y} <= b;
      assert |a + {x, y}| == |a| + 2;
      SubsetSize(a + {x, y}, b);
    }
  }

  lemma SubsetSize<T>(a: set<T>, b: set<T>)
    requires a <= b
    ensures |a| <= |b|
  {
    assert b == a + (b - a);
  }
}
