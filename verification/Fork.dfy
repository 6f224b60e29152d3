/**
  Fork by sharing read-only pages (kernel/sched/init.c, the address-space part of
  do_clone in kernel/sched/sched.c).
 */
module Fork {
  import opened Sv39
  import opened Pool
  import opened Mm
  import Ownership

  /**
    Midway through copy_on_write from src to dst: the pages before cur have been copied,
    the pages of dst from cur on and all other spaces read as at the start.
   */
  ghost predicate Copied(was: map<Key, Frame>, now: map<Key, Frame>, src: nat, dst: nat, cur: Vpn) {
    && (forall r: nat, v: Vpn :: r != dst ==> Same(now, (r, v), was, (r, v)))
    && (forall v: Vpn :: Before(v, cur) ==> Same(now, (dst, v), was, (src, v)))
    && (forall v: Vpn :: !Before(v, cur) ==> Same(now, (dst, v), was, (dst, v)))
    && (forall v: Vpn :: (dst, v) in was ==> Same(was, (dst, v), was, (src, v)))
  }

  lemma CopiedNext(was: map<Key, Frame>, now: map<Key, Frame>, src: nat, dst: nat, v: Vpn)
    requires Copied(was, now, src, dst, v) && src != dst
    ensures (src, v) !in now || (dst, v) in now ==>
              Copied(was, now, src, dst, v.(k := v.k + 1))
    ensures (src, v) in now && (dst, v) !in now ==>
              Copied(was, now[(dst, v) := now[(src, v)]], src, dst, v.(k := v.k + 1))
  {
  }

  lemma CopiedRow(was: map<Key, Frame>, now: map<Key, Frame>, src: nat, dst: nat, i: nat, j: nat)
    requires Copied(was, now, src, dst, Vpn(i, j, ENTRIES)) && KeysInRange(was)
    ensures Copied(was, now, src, dst, Vpn(i, j + 1, 0))
  {
  }

  /** All spaces but dst read the same. */
  ghost predicate OthersSame(was: map<Key, Frame>, now: map<Key, Frame>, dst: nat) {
    forall r: nat, v: Vpn :: r != dst ==> Same(now, (r, v), was, (r, v))
  }

  /** Every page that dst has reads as the page of src. */
  ghost predicate Mirrors(c: map<Key, Frame>, src: nat, dst: nat) {
    forall v: Vpn :: (dst, v) in c ==> Same(c, (dst, v), c, (src, v))
  }

  /** The reference semantics of fork: dst becomes a private copy of every page of src. */
  ghost function EagerFork(c: map<Key, Frame>, src: nat, dst: nat): map<Key, Frame> {
    (map key | key in c && key.0 != dst :: c[key])
    + (map key | key in c && key.0 == src :: (dst, key.1) := c[key])
  }

  lemma CopiedSkip(was: map<Key, Frame>, now: map<Key, Frame>, src: nat, dst: nat, cur: Vpn, next: Vpn)
    requires Copied(was, now, src, dst, cur) && src != dst
    requires forall v: Vpn :: Before(v, cur) ==> Before(v, next)
    requires forall v: Vpn :: !Before(v, cur) && Before(v, next) ==> (src, v) !in now
    ensures Copied(was, now, src, dst, next)
  {
    forall v: Vpn | Before(v, next) ensures Same(now, (dst, v), was, (src, v)) {
      assert Same(now, (src, v), was, (src, v));
    }
  }

  lemma CopiedOthers(was: map<Key, Frame>, now: map<Key, Frame>, src: nat, dst: nat, cur: Vpn)
    requires Copied(was, now, src, dst, cur) && src != dst
    ensures OthersSame(was, now, dst) && Mirrors(now, src, dst)
  {
    forall v: Vpn | (dst, v) in now ensures Same(now, (dst, v), now, (src, v)) {
      assert Same(now, (src, v), was, (src, v));
    }
  }

  lemma CopiedPlane(was: map<Key, Frame>, now: map<Key, Frame>, src: nat, dst: nat, i: nat)
    requires Copied(was, now, src, dst, Vpn(i, ENTRIES, 0)) && KeysInRange(was)
    ensures Copied(was, now, src, dst, Vpn(i + 1, 0, 0))
  {
  }

  lemma CopiedAll(was: map<Key, Frame>, now: map<Key, Frame>, src: nat, dst: nat)
    requires Copied(was, now, src, dst, Vpn(ENTRIES, 0, 0)) && KeysInRange(was) && src != dst
    ensures now == EagerFork(was, src, dst)
  {
    var fork := EagerFork(was, src, dst);
    forall r: nat, v: Vpn ensures Same(now, (r, v), fork, (r, v)) {
      if r == dst {
        assert (dst, v) in fork <==> (src, v) in was;
        assert (src, v) in was ==> Before(v, Vpn(ENTRIES, 0, 0));
        assert (dst, v) in was ==> Before(v, Vpn(ENTRIES, 0, 0));
      } else {
        assert Same(now, (r, v), was, (r, v));
      }
    }
    assert forall key :: key in now ==> key == (key.0, key.1) && Same(now, (key.0, key.1), fork, (key.0, key.1));
    assert forall key :: key in fork ==> key == (key.0, key.1) && Same(now, (key.0, key.1), fork, (key.0, key.1));
  }

  /** One step of copy_on_write: the page at v loses W in src and is shared with dst. */
  method ShareOne(m: Memory, src: nat, dst: nat, v: Vpn, ls: nat, ld: nat)
    requires m.Valid() && IsRoot(m.View(), src) && IsRoot(m.View(), dst) && src != dst && User(m.ker, v)
    requires src < |m.frames| && dst < |m.frames| && LowAt(m.frames, src, v) == ls && LowAt(m.frames, dst, v) == ld
    requires (src, v) in m.pt && (dst, v) !in m.pt && Aligned(m.pt, src, dst)
    modifies m
    ensures m.Valid() && Aligned(m.pt, src, dst) && m.roles == old(m.roles) && m.free == old(m.free) && m.lag == old(m.lag)
    ensures (src, v) in old(m.Spaces()) && m.Spaces() == old(m.Spaces())[(dst, v) := old(m.Spaces())[(src, v)]]
    ensures m.pt == Ownership.Shared(old(m.pt), (src, v), (dst, v)) && Node(m.pt[(dst, v)]) == Node(old(m.pt[(src, v)]))
    ensures forall acc :: acc != StoreAccess && Admits(old(m.pt[(src, v)]), acc) ==>
              Admits(m.pt[(src, v)], acc) && Admits(m.pt[(dst, v)], acc)
    ensures !Admits(m.pt[(src, v)], StoreAccess) && !Admits(m.pt[(dst, v)], StoreAccess)
  {
    hide Inv, Contents, LowAt, Aligned;
    ShapeOf(m.View());
    Mapped(m.View(), src, v);
    SpaceKeys(m.View());
    ShareLeafInv(m.View(), src, dst, v);
    WalkEntry(m.View(), src, v);
    WalkEntry(m.View(), dst, v);
    var e := m.frames[ls][v.k];
    m.frames := m.frames[ls := m.frames[ls][v.k := e.(w := false)]];
    m.frames := m.frames[ld := m.frames[ld][v.k := m.frames[ls][v.k]]];
    PlusSet(m.share, m.lag, Node(e), 1);
    m.share := m.share[Node(e) := m.share[Node(e)] + 1];
    m.pt := m.pt[(src, v) := e.(w := false)][(dst, v) := e.(w := false)];
    assert m.View() == ShareLeaf(old(m.View()), src, dst, v);
  }

  /**
    What copy_on_write does to the entries of page v: where dst had no page and has one now, both have
    the old entry of src without W; elsewhere nothing.
   */
  ghost predicate HandedAt(pt0: map<Key, Word>, pt: map<Key, Word>, src: nat, dst: nat, v: Vpn) {
    && ((src, v) in pt <==> (src, v) in pt0)
    && if (dst, v) in pt && (dst, v) !in pt0
       then (src, v) in pt0 && pt[(src, v)] == pt[(dst, v)] == pt0[(src, v)].(w := false)
       else SameEntry(pt0, pt, (src, v)) && SameEntry(pt0, pt, (dst, v))
  }

  ghost predicate Handed(pt0: map<Key, Word>, pt: map<Key, Word>, src: nat, dst: nat) {
    KeptOutside(pt0, pt, {src, dst}) && forall v: Vpn :: HandedAt(pt0, pt, src, dst, v)
  }

  lemma HandedNext(pt0: map<Key, Word>, pt: map<Key, Word>, src: nat, dst: nat, v: Vpn)
    requires Handed(pt0, pt, src, dst) && src != dst && (src, v) in pt && (dst, v) !in pt
    ensures Handed(pt0, Ownership.Shared(pt, (src, v), (dst, v)), src, dst)
  {
    var pt' := Ownership.Shared(pt, (src, v), (dst, v));
    assert HandedAt(pt0, pt, src, dst, v);
    forall u: Vpn ensures HandedAt(pt0, pt', src, dst, u) {
      assert HandedAt(pt0, pt, src, dst, u);
    }
    forall r: nat, u: Vpn | r !in {src, dst} ensures SameEntry(pt0, pt', (r, u)) {
      assert SameEntry(pt0, pt, (r, u));
    }
  }

  /**
    Midway through copy_on_write, for the leaf entries pt and the spaces `now`: the pages before
    cur are done, and compared with pt0 only entries have been handed on.
   */
  ghost predicate Sharing(was: map<Key, Frame>, now: map<Key, Frame>, pt0: map<Key, Word>, pt: map<Key, Word>,
                          src: nat, dst: nat, cur: Vpn) {
    Copied(was, now, src, dst, cur) && Aligned(pt, src, dst) && Handed(pt0, pt, src, dst) && KeysInRange(was)
  }

  lemma SharingNext(was: map<Key, Frame>, now: map<Key, Frame>, pt0: map<Key, Word>, pt: map<Key, Word>,
                    src: nat, dst: nat, v: Vpn)
    requires Sharing(was, now, pt0, pt, src, dst, v) && src != dst && now.Keys == pt.Keys
    ensures (src, v) !in pt || (dst, v) in pt ==> Sharing(was, now, pt0, pt, src, dst, v.(k := v.k + 1))
    ensures (src, v) in pt && (dst, v) !in pt ==>
              var pt' := Ownership.Shared(pt, (src, v), (dst, v));
              Aligned(pt', src, dst) ==>
                Sharing(was, now[(dst, v) := now[(src, v)]], pt0, pt', src, dst, v.(k := v.k + 1))
  {
    CopiedNext(was, now, src, dst, v);
    if (src, v) in pt && (dst, v) !in pt { HandedNext(pt0, pt, src, dst, v); }
    hide Copied, Aligned, Handed, KeysInRange;
  }

  lemma SharingSkip(was: map<Key, Frame>, now: map<Key, Frame>, pt0: map<Key, Word>, pt: map<Key, Word>,
                    src: nat, dst: nat, cur: Vpn, next: Vpn)
    requires Sharing(was, now, pt0, pt, src, dst, cur) && src != dst && now.Keys == pt.Keys
    requires forall v: Vpn :: Before(v, cur) ==> Before(v, next)
    requires forall v: Vpn :: !Before(v, cur) && Before(v, next) ==> (src, v) !in pt
    ensures Sharing(was, now, pt0, pt, src, dst, next)
  {
    CopiedSkip(was, now, src, dst, cur, next);
  }

  /** The innermost loop of copy_on_write: the entries of one third-level table. */
  method CopyThird(m: Memory, src: nat, dst: nat, i: nat, j: nat, ls: nat, ld: nat,
                   ghost was: map<Key, Frame>, ghost pt0: map<Key, Word>)
    requires m.Valid() && i < ENTRIES && j < ENTRIES && src != dst
    requires ls < |m.roles| && m.roles[ls] == Low(src, i, j) && ld < |m.roles| && m.roles[ld] == Low(dst, i, j)
    requires Sharing(was, m.Spaces(), pt0, m.pt, src, dst, Vpn(i, j, 0))
    modifies m
    ensures m.Valid() && m.roles == old(m.roles) && m.free == old(m.free) && m.lag == old(m.lag)
    ensures Sharing(was, m.Spaces(), pt0, m.pt, src, dst, Vpn(i, j + 1, 0))
  {
    hide Inv, Contents, LowAt, Sharing, Lookup, Admits;
    for k := 0 to ENTRIES
      invariant m.Valid() && m.roles == old(m.roles) && m.free == old(m.free) && m.lag == old(m.lag)
      invariant Sharing(was, m.Spaces(), pt0, m.pt, src, dst, Vpn(i, j, k))
    {
      var v := Vpn(i, j, k);
      LowEntries(m.View(), src, v, ls);
      LowEntries(m.View(), dst, v, ld);
      SpaceKeys(m.View());
      SharingNext(was, m.Spaces(), pt0, m.pt, src, dst, v);
      if m.frames[ls][k] == Zero || m.frames[ld][k] != Zero {
        continue;
      }
      SharingAligned(was, m.Spaces(), pt0, m.pt, src, dst, v);
      hide Aligned;
      ShareOne(m, src, dst, v, ls, ld);
    }
    SharingRow(was, m.Spaces(), pt0, m.pt, src, dst, i, j);
  }

  lemma SharingAligned(was: map<Key, Frame>, now: map<Key, Frame>, pt0: map<Key, Word>, pt: map<Key, Word>,
                       src: nat, dst: nat, cur: Vpn)
    requires Sharing(was, now, pt0, pt, src, dst, cur)
    ensures Aligned(pt, src, dst)
  {
  }

  lemma SharingRow(was: map<Key, Frame>, now: map<Key, Frame>, pt0: map<Key, Word>, pt: map<Key, Word>,
                   src: nat, dst: nat, i: nat, j: nat)
    requires Sharing(was, now, pt0, pt, src, dst, Vpn(i, j, ENTRIES))
    ensures Sharing(was, now, pt0, pt, src, dst, Vpn(i, j + 1, 0))
  {
    CopiedRow(was, now, src, dst, i, j);
  }

  lemma SharingPlane(was: map<Key, Frame>, now: map<Key, Frame>, pt0: map<Key, Word>, pt: map<Key, Word>,
                     src: nat, dst: nat, i: nat)
    requires Sharing(was, now, pt0, pt, src, dst, Vpn(i, ENTRIES, 0))
    ensures Sharing(was, now, pt0, pt, src, dst, Vpn(i + 1, 0, 0))
  {
    CopiedPlane(was, now, src, dst, i);
  }

  /** The middle loop of copy_on_write: the entries of one second-level table. */
  method CopySecond(m: Memory, src: nat, dst: nat, i: nat, ms: nat, md: nat,
                    ghost was: map<Key, Frame>, ghost pt0: map<Key, Word>) returns (ok: bool, ghost cur: Vpn)
    requires m.Valid() && i < ENTRIES && src != dst
    requires ms < |m.roles| && m.roles[ms] == Mid(src, i) && md < |m.roles| && m.roles[md] == Mid(dst, i)
    requires Sharing(was, m.Spaces(), pt0, m.pt, src, dst, Vpn(i, 0, 0))
    modifies m
    ensures m.Valid() && Grows(old(m.View()), m.View(), {})
    ensures Sharing(was, m.Spaces(), pt0, m.pt, src, dst, cur)
    ensures ok ==> cur == Vpn(i + 1, 0, 0)
    ensures !ok ==> m.free == []
  {
    hide Inv, Contents, LowAt, Sharing, Lookup;
    for j := 0 to ENTRIES
      invariant m.Valid() && Grows(old(m.View()), m.View(), {})
      invariant Sharing(was, m.Spaces(), pt0, m.pt, src, dst, Vpn(i, j, 0))
    {
      MidEntries(m.View(), src, i, j, ms);
      MidEntries(m.View(), dst, i, j, md);
      if m.frames[ms][j] == Zero {
        SpaceKeys(m.View());
        SharingSkip(was, m.Spaces(), pt0, m.pt, src, dst, Vpn(i, j, 0), Vpn(i, j + 1, 0));
        continue;
      }
      var ls := Node(m.frames[ms][j]);
      if !m.frames[md][j].v && m.free == [] {
        return false, Vpn(i, j, 0);
      }
      var ld := m.CheckPage(md, j);
      CopyThird(m, src, dst, i, j, ls, ld, was, pt0);
    }
    SharingPlane(was, m.Spaces(), pt0, m.pt, src, dst, i);
    ok, cur := true, Vpn(i + 1, 0, 0);
  }

  lemma SharingStart(c: map<Key, Frame>, pt: map<Key, Word>, src: nat, dst: nat)
    requires Aligned(pt, src, dst) && Mirrors(c, src, dst) && KeysInRange(c)
    ensures Sharing(c, c, pt, pt, src, dst, Vpn(0, 0, 0))
  {
  }

  lemma SharingOthers(was: map<Key, Frame>, now: map<Key, Frame>, pt0: map<Key, Word>, pt: map<Key, Word>,
                      src: nat, dst: nat, cur: Vpn)
    requires Sharing(was, now, pt0, pt, src, dst, cur) && src != dst
    ensures OthersSame(was, now, dst) && Mirrors(now, src, dst) && Aligned(pt, src, dst) && Handed(pt0, pt, src, dst)
    ensures cur == Vpn(ENTRIES, 0, 0) ==> now == EagerFork(was, src, dst)
  {
    CopiedOthers(was, now, src, dst, cur);
    if cur == Vpn(ENTRIES, 0, 0) { CopiedAll(was, now, src, dst); }
    hide Copied, Mirrors, OthersSame, EagerFork;
  }

  /**
    copy_on_write: share every page of src with dst, except where dst already has one.
    ok is false when the kernel has to sleep for a free page; then too no other space
    has changed, the invariant holds, and the call can be made again.
   */
  method CopyOnWrite(m: Memory, src: nat, dst: nat) returns (ok: bool)
    requires m.Valid() && IsRoot(m.View(), src) && IsRoot(m.View(), dst) && src != dst
    requires Aligned(m.pt, src, dst) && Mirrors(m.Spaces(), src, dst)
    modifies m
    ensures m.Valid() && Grows(old(m.View()), m.View(), {})
    ensures ok ==> m.Spaces() == EagerFork(old(m.Spaces()), src, dst)
    ensures OthersSame(old(m.Spaces()), m.Spaces(), dst) && Handed(old(m.pt), m.pt, src, dst)
    ensures Aligned(m.pt, src, dst) && Mirrors(m.Spaces(), src, dst)
    ensures !ok ==> m.free == []
  {
    hide Inv, Contents, LowAt, Lookup, Sharing, KeysInRange, OthersSame, Mirrors, Aligned, Handed;
    ghost var was, pt0 := m.Spaces(), m.pt;
    SpaceKeys(m.View());
    SharingStart(was, pt0, src, dst);
    for i := 0 to ENTRIES
      invariant m.Valid() && Grows(old(m.View()), m.View(), {})
      invariant Sharing(was, m.Spaces(), pt0, m.pt, src, dst, Vpn(i, 0, 0))
    {
      RootEntries(m.View(), src, i);
      RootEntries(m.View(), dst, i);
      if m.ker[i] != Zero || m.frames[src][i] == Zero {
        SpaceKeys(m.View());
        SharingSkip(was, m.Spaces(), pt0, m.pt, src, dst, Vpn(i, 0, 0), Vpn(i + 1, 0, 0));
        continue;
      }
      var ms := Node(m.frames[src][i]);
      if !m.frames[dst][i].v && m.free == [] {
        SharingOthers(was, m.Spaces(), pt0, m.pt, src, dst, Vpn(i, 0, 0));
        return false;
      }
      var md := m.CheckPage(dst, i);
      ghost var cur;
      ok, cur := CopySecond(m, src, dst, i, ms, md, was, pt0);
      if !ok {
        SharingOthers(was, m.Spaces(), pt0, m.pt, src, dst, cur);
        return;
      }
    }
    SharingOthers(was, m.Spaces(), pt0, m.pt, src, dst, Vpn(ENTRIES, 0, 0));
    ok := true;
  }

  datatype Option<T> = None | Some(value: T)

  /** The virtual page below v. */
  function Prev(v: Vpn): (u: Option<Vpn>)
    requires InRange(v)
    ensures u.Some? ==> InRange(u.value) && Before(u.value, v)
    ensures u.None? <==> v == Vpn(0, 0, 0)
  {
    if v.k > 0 then Some(v.(k := v.k - 1))
    else if v.j > 0 then Some(Vpn(v.i, v.j - 1, ENTRIES - 1))
    else if v.i > 0 then Some(Vpn(v.i - 1, ENTRIES - 1, ENTRIES - 1))
    else None
  }

  /** Going down from v one meets an unmapped page before leaving the user pages. */
  ghost predicate StackEnds(ker: Frame, keys: set<Key>, r: nat, v: Vpn)
    requires |ker| == ENTRIES
    decreases v.i, v.j, v.k
  {
    && User(ker, v)
    && ((r, v) in keys ==> Prev(v).Some? && StackEnds(ker, keys, r, Prev(v).value))
  }

  /** The same, as the kernel sees it in its tables. */
  predicate StackBounded(ker: Frame, frames: seq<Frame>, r: nat, v: Vpn)
    requires |ker| == ENTRIES && r < |frames|
    requires forall f :: 0 <= f < |frames| ==> |frames[f]| == ENTRIES
    decreases v.i, v.j, v.k
  {
    && User(ker, v)
    && (Walk(frames, r, v) != Zero ==> Prev(v).Some? && StackBounded(ker, frames, r, Prev(v).value))
  }

  lemma BoundedIffEnds(s: Vm, r: nat, v: Vpn)
    requires Inv(s) && IsRoot(s, r)
    ensures Shape(s.ker, s.frames, s.roles)
    ensures StackBounded(s.ker, s.frames, r, v) <==> StackEnds(s.ker, s.pt.Keys, r, v)
    decreases v.i, v.j, v.k
  {
    ShapeOf(s);
    hide Inv, Walk;
    if User(s.ker, v) {
      WalkAt(s, r, v);
      if Prev(v).Some? { BoundedIffEnds(s, r, Prev(v).value); }
    }
  }

  lemma WalkAt(s: Vm, r: nat, v: Vpn)
    requires Inv(s) && IsRoot(s, r) && |s.ker| == ENTRIES && User(s.ker, v)
    ensures Shape(s.ker, s.frames, s.roles)
    ensures (r, v) in s.pt <==> Walk(s.frames, r, v) != Zero
  {
    hide RootDown, MidDown, LowDown, MidUp, LowUp, LowAt, Ownership.Owned;
    WalkIsLookup(s.ker, s.frames, s.roles, s.pt, r, v);
  }

  /** Midway through copying the stack: the pages that child has are above u and read as those of parent. */
  ghost predicate StackCopied(c: map<Key, Frame>, parent: nat, child: nat, u: Vpn) {
    forall v: Vpn :: (child, v) in c ==> Before(u, v) && Same(c, (child, v), c, (parent, v))
  }

  /** Page v belongs to the stack of r below `first`: all pages from v up to first are mapped. */
  ghost predicate InStack(keys: set<Key>, r: nat, first: Vpn, v: Vpn) {
    && InRange(v) && !Before(first, v)
    && forall t: Vpn :: InRange(t) && !Before(t, v) && !Before(first, t) ==> (r, t) in keys
  }

  /** Child has a writable page of its own at v, which parent maps too. */
  ghost predicate PrivateAt(pt: map<Key, Word>, parent: nat, child: nat, v: Vpn) {
    && (child, v) in pt && (parent, v) in pt
    && pt[(child, v)].w && Node(pt[(child, v)]) != Node(pt[(parent, v)])
  }

  /** The stack pages from `first` down to u, exclusive, have been copied, and child has no other page. */
  ghost predicate StackSoFar(pt: map<Key, Word>, parent: nat, child: nat, first: Vpn, u: Vpn) {
    && InRange(first) && InRange(u) && !Before(first, u)
    && (forall v: Vpn :: (child, v) in pt <==> InRange(v) && Before(u, v) && !Before(first, v))
    && (forall v: Vpn :: (child, v) in pt ==> PrivateAt(pt, parent, child, v))
  }

  /** Child has a page of its own for every page of the stack of parent. */
  ghost predicate StackPrivate(pt: map<Key, Word>, parent: nat, child: nat, first: Vpn) {
    forall v: Vpn :: InStack(pt.Keys, parent, first, v) ==> PrivateAt(pt, parent, child, v)
  }

  /** The pages above the next one down. */
  lemma PrevAbove(u: Vpn, t: Vpn)
    requires InRange(u) && Prev(u).Some? && InRange(t)
    ensures Before(Prev(u).value, t) <==> Before(u, t) || t == u
  {
  }

  lemma StackSoFarNext(pt: map<Key, Word>, pt': map<Key, Word>, parent: nat, child: nat, first: Vpn, u: Vpn)
    requires StackSoFar(pt, parent, child, first, u) && parent != child && (parent, u) in pt && Prev(u).Some?
    requires (child, u) in pt' && pt' == pt[(child, u) := pt'[(child, u)]] && PrivateAt(pt', parent, child, u)
    ensures StackSoFar(pt', parent, child, first, Prev(u).value)
  {
    var w := Prev(u).value;
    forall v: Vpn ensures (child, v) in pt' <==> InRange(v) && Before(w, v) && !Before(first, v) {
      if InRange(v) { PrevAbove(u, v); }
    }
    forall v: Vpn | (child, v) in pt' ensures PrivateAt(pt', parent, child, v) {
      assert v != u ==> PrivateAt(pt, parent, child, v);
    }
  }

  /** At the first page that parent does not map, the copies are those of the whole stack. */
  lemma StackSoFarAll(pt: map<Key, Word>, parent: nat, child: nat, first: Vpn, u: Vpn)
    requires StackSoFar(pt, parent, child, first, u) && (parent, u) !in pt
    ensures forall v: Vpn :: (child, v) in pt <==> InStack(pt.Keys, parent, first, v)
    ensures StackPrivate(pt, parent, child, first)
  {
    forall v: Vpn ensures (child, v) in pt <==> InStack(pt.Keys, parent, first, v) {
      if (child, v) in pt {
        forall t: Vpn | InRange(t) && !Before(t, v) && !Before(first, t) ensures (parent, t) in pt.Keys {
          assert (child, t) in pt;
          assert PrivateAt(pt, parent, child, t);
        }
      } else if InRange(v) && !Before(first, v) {
        assert !Before(u, v);
        assert (parent, u) !in pt.Keys;
      }
    }
  }

  /** A page that was free before is mapped by no other space. */
  lemma AlignedFresh(s: Vm, pt: map<Key, Word>, src: nat, dst: nat, v: Vpn, e: Word)
    requires Inv(s) && Aligned(s.pt, src, dst) && src != dst
    requires 0 <= Node(e) < |s.roles| && s.roles[Node(e)] == Free && pt == s.pt[(dst, v) := e]
    ensures Aligned(pt, src, dst)
  {
    forall a: Vpn, b: Vpn | (src, a) in pt && (dst, b) in pt && Node(pt[(src, a)]) == Node(pt[(dst, b)])
      ensures a == b
    {
      Mapped(s, src, a);
    }
  }

  /** One turn of the stack loop of do_clone. */
  method CopyStackPage(m: Memory, parent: nat, child: nat, u: Vpn) returns (ok: bool)
    requires m.Valid() && IsRoot(m.View(), parent) && IsRoot(m.View(), child) && parent != child
    requires User(m.ker, u) && (parent, u) in m.pt && (child, u) !in m.pt && Aligned(m.pt, parent, child)
    modifies m
    ensures m.Valid() && Grows(old(m.View()), m.View(), {}) && Aligned(m.pt, parent, child)
    ensures ok ==> (parent, u) in old(m.Spaces()) && m.Spaces() == old(m.Spaces())[(child, u) := old(m.Spaces())[(parent, u)]]
    ensures ok ==> (child, u) in m.pt && m.pt == old(m.pt)[(child, u) := m.pt[(child, u)]]
    ensures ok ==> PrivateAt(m.pt, parent, child, u)
    ensures KeptOutside(old(m.pt), m.pt, {child})
    ensures !ok ==> m.free == [] && m.Spaces() == old(m.Spaces()) && m.pt == old(m.pt)
  {
    hide Inv, Contents, Aligned;
    SpaceKeys(m.View());
    ghost var s := m.View();
    var n;
    ok, n := m.AllocPageHelper(child, u);
    if !ok {
      return;
    }
    AlignedFresh(s, m.pt, parent, child, u, UserLeaf(n));
    Mapped(s, parent, u);
    SoleWriter(m.View(), child, u);
    ShapeOf(m.View());
    SpaceKeys(m.View());
    Mapped(m.View(), parent, u);
    ContentsAt(m.View(), (parent, u));
    var l := m.GetPte(parent, u);
    var from := Node(m.frames[l][u.k]);
    FillSole(m.View(), (child, u), m.frames[from]);
    m.frames := m.frames[n := m.frames[from]];
  }

  lemma {:induction false} StackEndsKept(ker: Frame, keys: set<Key>, keys': set<Key>, r: nat, v: Vpn)
    requires |ker| == ENTRIES && StackEnds(ker, keys, r, v)
    requires forall u: Vpn :: (r, u) in keys' ==> (r, u) in keys
    ensures StackEnds(ker, keys', r, v)
    decreases v.i, v.j, v.k
  {
    if (r, v) in keys && Prev(v).Some? { StackEndsKept(ker, keys, keys', r, Prev(v).value); }
  }

  lemma StackCopiedNext(c: map<Key, Frame>, c': map<Key, Frame>, was: map<Key, Frame>, parent: nat, child: nat, u: Vpn, t: Vpn)
    requires parent != child && StackCopied(c, parent, child, u) && OthersSame(was, c, child)
    requires (parent, u) in c && c' == c[(child, u) := c[(parent, u)]] && Before(t, u)
    ensures StackCopied(c', parent, child, t) && OthersSame(was, c', child)
  {
    forall r: nat, v: Vpn | r != child ensures Same(c', (r, v), was, (r, v)) {
      assert Same(c, (r, v), was, (r, v));
    }
    forall v: Vpn | (child, v) in c' ensures Before(t, v) && Same(c', (child, v), c', (parent, v)) {
      assert v != u ==> Same(c, (child, v), c, (parent, v));
    }
  }

  /**
    The stack loop of do_clone, which began at page `first` and has come to page `at`: private copies of
    the mapped pages, going down.  When the kernel has to sleep, u is the page whose copy is missing.
   */
  method CopyStack(m: Memory, parent: nat, child: nat, first: Vpn, at: Vpn) returns (ok: bool, u: Vpn)
    requires m.Valid() && IsRoot(m.View(), parent) && IsRoot(m.View(), child) && parent != child
    requires |m.ker| == ENTRIES && StackEnds(m.ker, m.pt.Keys, parent, at)
    requires Aligned(m.pt, parent, child) && StackCopied(m.Spaces(), parent, child, at)
    requires StackSoFar(m.pt, parent, child, first, at)
    modifies m
    ensures m.Valid() && Grows(old(m.View()), m.View(), {}) && Aligned(m.pt, parent, child)
    ensures OthersSame(old(m.Spaces()), m.Spaces(), child) && KeptOutside(old(m.pt), m.pt, {child})
    ensures ok ==> Mirrors(m.Spaces(), parent, child) && StackPrivate(m.pt, parent, child, first)
    ensures ok ==> forall v: Vpn :: (child, v) in m.pt <==> InStack(old(m.pt.Keys), parent, first, v)
    ensures !ok ==> m.free == [] && StackCopied(m.Spaces(), parent, child, u) && StackEnds(m.ker, m.pt.Keys, parent, u)
    ensures !ok ==> StackSoFar(m.pt, parent, child, first, u) && (parent, u) in m.pt
  {
    hide Inv, Contents, StackSoFar, StackEnds, StackCopied, Aligned, Mirrors, OthersSame, KeptOutside, StackPrivate, InStack;
    u := at;
    SpaceKeys(m.View());
    ghost var was, pt0 := m.Spaces(), m.pt;
    StackingStart(m.ker, was, pt0, parent, child, first, at);
    hide Stacking;
    var l := m.GetPte(parent, u);
    while l >= 0
      invariant m.Valid() && Grows(old(m.View()), m.View(), {}) && User(m.ker, u)
      invariant Stacking(m.ker, was, m.Spaces(), pt0, m.pt, parent, child, first, u)
      invariant l >= 0 <==> (parent, u) in m.pt
      decreases u.i, u.j, u.k
    {
      SpaceKeys(m.View());
      ghost var s := m.View();
      StackingHere(m.ker, was, m.Spaces(), pt0, m.pt, parent, child, first, u);
      ok := CopyStackPage(m, parent, child, u);
      if !ok {
        StackingHere(m.ker, was, m.Spaces(), pt0, m.pt, parent, child, first, u);
        return;
      }
      StackingNext(m.ker, was, Contents(s), m.Spaces(), pt0, s.pt, m.pt, parent, child, first, u);
      u := Prev(u).value;
      StackingHere(m.ker, was, m.Spaces(), pt0, m.pt, parent, child, first, u);
      l := m.GetPte(parent, u);
    }
    StackingHere(m.ker, was, m.Spaces(), pt0, m.pt, parent, child, first, u);
    CopiedMirrors(m.Spaces(), parent, child, u);
    StackSoFarAll(m.pt, parent, child, first, u);
    SameStack(pt0, m.pt, parent, child, first);
    ok := true;
  }

  /** Midway through the stack loop, at page u, which began with the entries pt0 and the spaces `was`. */
  ghost predicate Stacking(ker: Frame, was: map<Key, Frame>, now: map<Key, Frame>, pt0: map<Key, Word>, pt: map<Key, Word>,
                           parent: nat, child: nat, first: Vpn, u: Vpn)
    requires |ker| == ENTRIES
  {
    && StackEnds(ker, pt.Keys, parent, u) && StackSoFar(pt, parent, child, first, u) && StackCopied(now, parent, child, u)
    && Aligned(pt, parent, child) && OthersSame(was, now, child) && KeptOutside(pt0, pt, {child})
  }

  lemma StackingStart(ker: Frame, c: map<Key, Frame>, pt: map<Key, Word>, parent: nat, child: nat, first: Vpn, u: Vpn)
    requires |ker| == ENTRIES && StackEnds(ker, pt.Keys, parent, u) && StackSoFar(pt, parent, child, first, u)
    requires StackCopied(c, parent, child, u) && Aligned(pt, parent, child)
    ensures Stacking(ker, c, c, pt, pt, parent, child, first, u) && User(ker, u)
  {
    hide StackSoFar, StackCopied, Aligned;
  }

  lemma StackingHere(ker: Frame, was: map<Key, Frame>, now: map<Key, Frame>, pt0: map<Key, Word>, pt: map<Key, Word>,
                     parent: nat, child: nat, first: Vpn, u: Vpn)
    requires |ker| == ENTRIES && Stacking(ker, was, now, pt0, pt, parent, child, first, u)
    ensures User(ker, u) && (child, u) !in pt && ((parent, u) in pt ==> Prev(u).Some?)
    ensures StackEnds(ker, pt.Keys, parent, u) && StackSoFar(pt, parent, child, first, u) && StackCopied(now, parent, child, u)
    ensures Aligned(pt, parent, child) && OthersSame(was, now, child) && KeptOutside(pt0, pt, {child})
  {
    StackEndsHere(ker, pt.Keys, parent, u);
    NotYetCopied(pt, parent, child, first, u);
    hide StackEnds, StackSoFar, StackCopied, Aligned, OthersSame, KeptOutside;
  }

  lemma StackingNext(ker: Frame, was: map<Key, Frame>, c: map<Key, Frame>, c': map<Key, Frame>, pt0: map<Key, Word>,
                     pt: map<Key, Word>, pt': map<Key, Word>, parent: nat, child: nat, first: Vpn, u: Vpn)
    requires |ker| == ENTRIES && Stacking(ker, was, c, pt0, pt, parent, child, first, u) && parent != child
    requires (parent, u) in pt && (parent, u) in c && c' == c[(child, u) := c[(parent, u)]]
    requires (child, u) in pt' && pt' == pt[(child, u) := pt'[(child, u)]] && PrivateAt(pt', parent, child, u)
    requires KeptOutside(pt, pt', {child}) && Aligned(pt', parent, child)
    ensures Prev(u).Some? && Stacking(ker, was, c', pt0, pt', parent, child, first, Prev(u).value)
  {
    hide StackSoFar, StackCopied, Aligned, OthersSame, KeptOutside, PrivateAt;
    StackEndsHere(ker, pt.Keys, parent, u);
    StackEndsKept(ker, pt.Keys, pt'.Keys, parent, Prev(u).value);
    KeptTrans(pt0, pt, pt', {child}, {child});
    StackCopiedNext(c, c', was, parent, child, u, Prev(u).value);
    StackSoFarNext(pt, pt', parent, child, first, u);
    hide StackEnds;
  }

  lemma StackEndsHere(ker: Frame, keys: set<Key>, r: nat, v: Vpn)
    requires |ker| == ENTRIES && StackEnds(ker, keys, r, v)
    ensures User(ker, v) && ((r, v) in keys ==> Prev(v).Some? && StackEnds(ker, keys, r, Prev(v).value))
  {
  }

  lemma NotYetCopied(pt: map<Key, Word>, parent: nat, child: nat, first: Vpn, u: Vpn)
    requires StackSoFar(pt, parent, child, first, u)
    ensures (child, u) !in pt
  {
  }

  lemma CopiedMirrors(c: map<Key, Frame>, parent: nat, child: nat, u: Vpn)
    requires StackCopied(c, parent, child, u)
    ensures Mirrors(c, parent, child)
  {
  }

  /** Copies in another space do not change what the stack is. */
  lemma SameStack(pt: map<Key, Word>, pt': map<Key, Word>, parent: nat, child: nat, first: Vpn)
    requires KeptOutside(pt, pt', {child}) && parent != child
    ensures forall v: Vpn :: InStack(pt'.Keys, parent, first, v) <==> InStack(pt.Keys, parent, first, v)
  {
    assert forall t: Vpn :: SameEntry(pt, pt', (parent, t));
  }

  /** A page with a copy of the kernel root: an empty address space. */
  method NewSpace(m: Memory) returns (root: nat)
    requires m.Valid() && m.free != []
    modifies m
    ensures m.Valid() && m.Spaces() == old(m.Spaces()) && m.pt == old(m.pt)
    ensures Grows(old(m.View()), m.View(), {root}) && root < |old(m.roles)| && old(m.roles)[root] == Free
    ensures IsRoot(m.View(), root) && (forall v: Vpn :: (root, v) !in m.pt) && m.free == old(m.free)[1..]
  {
    hide Inv, Contents;
    root := m.AllocPage();
    NewRootInv(m.View(), root);
    m.frames := m.frames[root := m.ker];
    m.roles := m.roles[root := Root];
  }

  /** Page v of space r after an eager fork. */
  lemma EagerForkAt(c: map<Key, Frame>, src: nat, dst: nat, r: nat, v: Vpn)
    requires src != dst
    ensures Same(EagerFork(c, src, dst), (r, v), c, (if r == dst then src else r, v))
  {
  }
}
