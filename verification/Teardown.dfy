/**
  Address-space teardown (recycle_page_default in kernel/mm/recycle.c).
 */
module Teardown {
  import opened Seqs
  import opened Sv39
  import opened Ownership
  import opened Pool
  import opened Mm

  /** The page f of space r has been released when the walk of r has come to cur. */
  ghost predicate Released(s: Vm, r: nat, cur: Vpn, f: nat)
    requires f < |s.roles|
  {
    match s.roles[f]
    case Data => exists v: Vpn :: Before(v, cur) && (r, v) in s.pt && Node(s.pt[(r, v)]) == f
    case Low(root, i, j) => root == r && (i < cur.i || (i == cur.i && j < cur.j))
    case Mid(root, i) => root == r && i < cur.i
    case _ => false
  }

  ghost function Gone(s: Vm, r: nat, cur: Vpn): set<nat> {
    set f: nat | 0 <= f < |s.roles| && Released(s, r, cur, f)
  }

  /**
    Midway through the teardown of r: the pages released so far have lost one holder each,
    those without a holder are on the free list, and `count` pages have been released.
   */
  ghost predicate Progress(s: Vm, gone: set<nat>, share: seq<nat>, free: seq<nat>, num: nat, count: nat) {
    && |share| == |s.share| == |s.roles| == |s.lag|
    && (forall f: nat :: f < |share| ==> share[f] + s.lag[f] + (if f in gone then 1 else 0) == s.share[f])
    && NoDup(free)
    && (forall f :: f in free ==> f < |share|)
    && (forall f: nat :: f < |share| ==> (f in free <==> share[f] == 0))
    && num == |free|
    && count == |gone|
  }

  lemma ProgressStep(s: Vm, gone: set<nat>, share: seq<nat>, free: seq<nat>, num: nat, count: nat, n: nat)
    requires Progress(s, gone, share, free, num, count)
    requires LagOk(s) && n < |s.roles| && n !in gone && s.share[n] > 0
    ensures n < |share| && share[n] > 0
    ensures Progress(s, gone + {n}, share[n := share[n] - 1], if share[n] == 1 then [n] + free else free,
                     if share[n] == 1 then num + 1 else num, count + 1)
  {
    if share[n] == 1 {
      assert n !in free;
      assert forall f :: f in [n] + free <==> f == n || f in free;
    }
  }

  /** Visiting leaf v releases exactly its page. */
  lemma ReleaseLeaf(s: Vm, r: nat, v: Vpn)
    requires Inv(s) && (r, v) in s.pt
    ensures 0 <= Node(s.pt[(r, v)]) < |s.roles| == |s.share| && s.share[Node(s.pt[(r, v)])] > 0
    ensures Node(s.pt[(r, v)]) !in Gone(s, r, v)
    ensures Gone(s, r, v.(k := v.k + 1)) == Gone(s, r, v) + {Node(s.pt[(r, v)])}
  {
    hide RootDown, MidDown, LowDown, MidUp, LowUp, PtUp, CountOk, CowOk;
    Mapped(s, r, v);
    var next := v.(k := v.k + 1);
    assert forall u: Vpn :: Before(u, next) <==> u == v || Before(u, v);
  }

  lemma SkipLeaf(s: Vm, r: nat, v: Vpn)
    requires (r, v) !in s.pt
    ensures Gone(s, r, v.(k := v.k + 1)) == Gone(s, r, v)
  {
    var next := v.(k := v.k + 1);
    assert forall u: Vpn :: Before(u, next) <==> u == v || Before(u, v);
  }

  /** After its leaves, a third-level table is released. */
  lemma ReleaseLow(s: Vm, r: nat, i: nat, j: nat, l: nat)
    requires Inv(s) && l < |s.roles| && s.roles[l] == Low(r, i, j)
    ensures |s.share| == |s.roles| && s.share[l] > 0 && l !in Gone(s, r, Vpn(i, j, ENTRIES))
    ensures Gone(s, r, Vpn(i, j + 1, 0)) == Gone(s, r, Vpn(i, j, ENTRIES)) + {l}
  {
    hide RootDown, MidDown, LowDown, LowAt, CowOk, OnceOk;
    var cur, next := Vpn(i, j, ENTRIES), Vpn(i, j + 1, 0);
    assert forall u: Vpn :: InRange(u) ==> (Before(u, next) <==> Before(u, cur));
    forall f: nat | f < |s.roles| ensures Released(s, r, next, f) <==> f == l || Released(s, r, cur, f) {
      if s.roles[f] == Low(r, i, j) { assert f == l; }
    }
  }

  /** An empty entry of a second-level table releases nothing. */
  lemma SkipLow(s: Vm, r: nat, i: nat, j: nat, m: nat)
    requires Inv(s) && m < |s.roles| && s.roles[m] == Mid(r, i) && j < ENTRIES
    requires |s.frames| == |s.roles| && |s.frames[m]| == ENTRIES && s.frames[m][j] == Zero
    ensures Gone(s, r, Vpn(i, j + 1, 0)) == Gone(s, r, Vpn(i, j, 0))
  {
    hide RootDown, MidDown, LowDown, Owned;
    MidEntries(s, r, i, j, m);
    var cur, next := Vpn(i, j, 0), Vpn(i, j + 1, 0);
    assert forall u: Vpn :: Before(u, next) <==> (u.i == i && u.j == j) || Before(u, cur);
    assert forall f: nat :: f < |s.roles| ==> s.roles[f] != Low(r, i, j);
  }

  /** After its tables, a second-level table is released. */
  lemma ReleaseMid(s: Vm, r: nat, i: nat, m: nat)
    requires Inv(s) && m < |s.roles| && s.roles[m] == Mid(r, i)
    ensures |s.share| == |s.roles| && s.share[m] > 0 && m !in Gone(s, r, Vpn(i, ENTRIES, 0))
    ensures Gone(s, r, Vpn(i + 1, 0, 0)) == Gone(s, r, Vpn(i, ENTRIES, 0)) + {m}
  {
    hide RootDown, MidDown, LowDown, LowAt, CowOk, OnceOk;
    var cur, next := Vpn(i, ENTRIES, 0), Vpn(i + 1, 0, 0);
    assert forall u: Vpn :: InRange(u) ==> (Before(u, next) <==> Before(u, cur));
    forall f: nat | f < |s.roles| ensures Released(s, r, next, f) <==> f == m || Released(s, r, cur, f) {
      if s.roles[f] == Mid(r, i) { assert f == m; }
    }
  }

  /** A kernel entry or an empty entry of the root releases nothing. */
  lemma SkipMid(s: Vm, r: nat, i: nat)
    requires Inv(s) && IsRoot(s, r) && i < ENTRIES
    requires |s.ker| == ENTRIES && |s.frames| == |s.roles| && |s.frames[r]| == ENTRIES
    requires s.ker[i] != Zero || s.frames[r][i] == Zero
    ensures Gone(s, r, Vpn(i + 1, 0, 0)) == Gone(s, r, Vpn(i, 0, 0))
  {
    hide RootDown, MidDown, LowDown, Owned;
    RootEntries(s, r, i);
    var cur, next := Vpn(i, 0, 0), Vpn(i + 1, 0, 0);
    assert forall u: Vpn :: Before(u, next) <==> u.i == i || Before(u, cur);
    assert forall f: nat :: f < |s.roles| ==> s.roles[f] != Mid(r, i);
    assert forall f: nat :: f < |s.roles| && s.roles[f].Low? ==> s.roles[f].root != r || s.roles[f].i != i;
  }

  /** The whole walk releases what r holds, except the root itself. */
  lemma GoneAll(s: Vm, r: nat)
    requires Inv(s) && IsRoot(s, r)
    ensures |s.share| == |s.roles| && s.share[r] > 0 && r !in Gone(s, r, Vpn(ENTRIES, 0, 0))
    ensures forall f: nat :: HeldBy(s, r, f) <==> f in Gone(s, r, Vpn(ENTRIES, 0, 0)) + {r}
  {
    hide RootDown, MidDown, LowDown, LowAt, CowOk, OnceOk;
    var end := Vpn(ENTRIES, 0, 0);
    assert forall u: Vpn :: InRange(u) ==> Before(u, end);
    forall f: nat | f < |s.roles| ensures HeldBy(s, r, f) <==> f == r || Released(s, r, end, f) {
      if Maps(s.pt, r, f) {
        var v: Vpn :| (r, v) in s.pt && Node(s.pt[(r, v)]) == f;
        assert Points(s.pt[(r, v)], s.roles, Data);
      }
    }
  }

  /** The teardown of the pool state s has come to the pages `gone`. */
  ghost predicate At(m: Memory, s: Vm, gone: set<nat>, count: nat)
    reads m
  {
    && Inv(s) && LagOk(s) && m.lag == s.lag
    && m.ker == s.ker && m.frames == s.frames && m.roles == s.roles && m.pt == s.pt
    && Progress(s, gone, m.share, m.free, m.sourceNum, count)
  }

  /** freePage of the next page of the walk. */
  method ReleasePage(m: Memory, n: nat, count: nat, ghost s: Vm, ghost gone: set<nat>) returns (count': nat)
    requires At(m, s, gone, count) && n < |s.roles| == |s.share| && n !in gone && s.share[n] > 0
    modifies m`share, m`free, m`sourceNum
    ensures count' == count + 1 && At(m, s, gone + {n}, count')
  {
    hide Inv;
    ProgressStep(s, gone, m.share, m.free, m.sourceNum, count, n);
    m.FreePage(n);
    count' := count + 1;
  }

  /** The innermost loop of recycle_page_default. */
  method RecycleThird(m: Memory, r: nat, i: nat, j: nat, l: nat, count: nat, ghost s: Vm) returns (count': nat)
    requires At(m, s, Gone(s, r, Vpn(i, j, 0)), count) && l < |s.roles| && s.roles[l] == Low(r, i, j)
    modifies m`share, m`free, m`sourceNum
    ensures At(m, s, Gone(s, r, Vpn(i, j, ENTRIES)), count')
  {
    hide Inv, Gone, Progress, LowAt;
    count' := count;
    for k := 0 to ENTRIES
      invariant At(m, s, Gone(s, r, Vpn(i, j, k)), count')
    {
      var v := Vpn(i, j, k);
      LowEntries(s, r, v, l);
      if m.frames[l][k] == Zero {
        SkipLeaf(s, r, v);
        continue;
      }
      ReleaseLeaf(s, r, v);
      count' := ReleasePage(m, Node(m.frames[l][k]), count', s, Gone(s, r, v));
    }
  }

  /** The middle loop of recycle_page_default. */
  method RecycleSecond(m: Memory, r: nat, i: nat, second: nat, count: nat, ghost s: Vm) returns (count': nat)
    requires At(m, s, Gone(s, r, Vpn(i, 0, 0)), count) && second < |s.roles| && s.roles[second] == Mid(r, i)
    modifies m`share, m`free, m`sourceNum
    ensures At(m, s, Gone(s, r, Vpn(i, ENTRIES, 0)), count')
  {
    hide Inv, Gone, Progress;
    count' := count;
    for j := 0 to ENTRIES
      invariant At(m, s, Gone(s, r, Vpn(i, j, 0)), count')
    {
      MidEntries(s, r, i, j, second);
      if m.frames[second][j] == Zero {
        SkipLow(s, r, i, j, second);
        continue;
      }
      var third := Node(m.frames[second][j]);
      count' := RecycleThird(m, r, i, j, third, count', s);
      ReleaseLow(s, r, i, j, third);
      count' := ReleasePage(m, third, count', s, Gone(s, r, Vpn(i, j, ENTRIES)));
    }
  }

  /** The pages that space r holds: its tables and the pages it maps. */
  ghost function Holdings(s: Vm, r: nat): set<nat> {
    set f: nat | 0 <= f < |s.roles| && HeldBy(s, r, f)
  }

  /** Some page of space r has other holders that sleep in deal_no_W, and none that is awake. */
  ghost predicate AnyContested(s: Vm, r: nat) { exists v: Vpn :: Contested(s, (r, v)) }

  /**
    recycle_page_default: every page held by r loses exactly one holder, pages without a
    holder go back to the free list, no other space notices; the result counts the pages.
    The invariant fails exactly when one of the pages goes back while its other holders sleep in
    deal_no_W for it.
   */
  method RecyclePages(m: Memory, r: nat) returns (count: nat)
    requires m.Valid() && IsRoot(m.View(), r)
    modifies m
    ensures m.pt == Without(old(m.pt), r) && m.lag == old(m.lag)
    ensures m.Valid() <==> !AnyContested(old(m.View()), r)
    ensures !m.Valid() ==> Lost(m.View())
    ensures m.Valid() ==> !IsRoot(m.View(), r) && m.Spaces() == WithoutSpace(old(m.Spaces()), r)
    ensures m.Valid() ==> |old(m.View()).share| == |old(m.roles)| && Dropped(old(m.View()), r, m.View().share, m.free)
    ensures m.Valid() ==> m.View() == Drop(old(m.View()), r, m.View().share, m.free)
    ensures |m.share| == |old(m.share)| && forall f: nat :: f < |m.share| ==>
              m.share[f] + (if HeldBy(old(m.View()), r, f) then 1 else 0) == old(m.share)[f]
    ensures count == |Holdings(old(m.View()), r)|
  {
    hide Inv, Gone, LowAt, Contents;
    ghost var s := m.View();
    count := 0;
    Start(m);
    GoneNone(s, r);
    hide Progress;
    for i := 0 to ENTRIES
      invariant At(m, s, Gone(s, r, Vpn(i, 0, 0)), count)
    {
      RootEntries(s, r, i);
      if m.ker[i] != Zero || m.frames[r][i] == Zero {
        SkipMid(s, r, i);
        continue;
      }
      var second := Node(m.frames[r][i]);
      count := RecycleSecond(m, r, i, second, count, s);
      ReleaseMid(s, r, i, second);
      count := ReleasePage(m, second, count, s, Gone(s, r, Vpn(i, ENTRIES, 0)));
    }
    GoneAll(s, r);
    count := ReleasePage(m, r, count, s, Gone(s, r, Vpn(ENTRIES, 0, 0)));
    ghost var gone := Gone(s, r, Vpn(ENTRIES, 0, 0)) + {r};
    AllCounted(s, r, gone, m.share, m.free, m.sourceNum, count);
    m.roles := DropRoles(s, Plus(m.share, m.lag));
    m.pt := Without(s.pt, r);
    if AnyContested(s, r) {
      ghost var v: Vpn :| Contested(s, (r, v));
      FinishLost(s, m.View(), r, v, gone, m.share, m.free, m.sourceNum, count);
      LostNow(m.View());
    } else {
      Finish(s, r, gone, m.share, m.free, m.sourceNum, count);
    }
  }

  lemma AllCounted(s: Vm, r: nat, gone: set<nat>, share: seq<nat>, free: seq<nat>, num: nat, count: nat)
    requires Progress(s, gone, share, free, num, count) && forall f: nat :: HeldBy(s, r, f) <==> f in gone
    ensures |share| == |s.roles| == |s.share| == |s.lag| && num == |free| && count == |Holdings(s, r)|
    ensures forall f: nat :: f < |share| ==> share[f] + (if HeldBy(s, r, f) then 1 else 0) == s.share[f] - s.lag[f]
  {
    assert Holdings(s, r) == gone by {
      forall f: nat | f in gone ensures f < |s.roles| { assert HeldBy(s, r, f); }
    }
  }

  lemma Start(m: Memory)
    requires m.Valid()
    ensures At(m, m.View(), {}, 0)
  {
    hide Tree, CountOk, LeafOk, CowOk, OnceOk;
  }

  lemma GoneNone(s: Vm, r: nat)
    ensures Gone(s, r, Vpn(0, 0, 0)) == {}
  {
  }

  /** Without a contested page, the free list is right for the counts with the sleepers in them. */
  lemma DroppedAll(s: Vm, r: nat, gone: set<nat>, share: seq<nat>, free: seq<nat>, num: nat, count: nat)
    requires Inv(s) && LagOk(s) && IsRoot(s, r) && Progress(s, gone, share, free, num, count)
    requires forall f: nat :: HeldBy(s, r, f) <==> f in gone
    requires !AnyContested(s, r)
    ensures |s.share| == |s.roles| && Dropped(s, r, Plus(share, s.lag), free)
  {
    hide Inv, AnyContested;
    forall f: nat | f < |share| && s.lag[f] > 0 ensures share[f] > 0 {
      if share[f] == 0 { HeldContested(s, r, f); }
    }
  }

  /** A page with two holders is a data page. */
  lemma HeldData(s: Vm, f: nat)
    requires Inv(s) && f < |s.share| && s.share[f] > 1
    ensures |s.share| == |s.roles| && s.roles[f] == Data
  {
    hide Tree, LeafOk, CowOk, OnceOk;
  }

  lemma HeldContested(s: Vm, r: nat, f: nat)
    requires Inv(s) && LagOk(s) && HeldBy(s, r, f) && f < |s.lag| && s.lag[f] > 0 && s.share[f] == s.lag[f] + 1
    ensures AnyContested(s, r)
  {
    hide Inv;
    HeldData(s, f);
    var v: Vpn :| (r, v) in s.pt && Node(s.pt[(r, v)]) == f;
    assert Contested(s, (r, v));
  }

  lemma Finish(s: Vm, r: nat, gone: set<nat>, share: seq<nat>, free: seq<nat>, num: nat, count: nat)
    requires Inv(s) && LagOk(s) && IsRoot(s, r) && Progress(s, gone, share, free, num, count)
    requires forall f: nat :: HeldBy(s, r, f) <==> f in gone
    requires !AnyContested(s, r)
    ensures var all := Plus(share, s.lag);
            && |s.share| == |s.roles| && Dropped(s, r, all, free)
            && Inv(Drop(s, r, all, free)) && LagOk(Drop(s, r, all, free)) && !IsRoot(Drop(s, r, all, free), r)
            && Contents(Drop(s, r, all, free)) == WithoutSpace(Contents(s), r)
  {
    hide Tree, CountOk, LeafOk, CowOk, OnceOk, FreeOk, AnyContested;
    DroppedAll(s, r, gone, share, free, num, count);
    var all := Plus(share, s.lag);
    DropInv(s, r, all, free);
    RootShare(s, r);
    assert HeldBy(s, r, r);
  }

  lemma FinishLost(s: Vm, s': Vm, r: nat, v: Vpn, gone: set<nat>, share: seq<nat>, free: seq<nat>, num: nat, count: nat)
    requires Inv(s) && Progress(s, gone, share, free, num, count) && Contested(s, (r, v))
    requires forall f: nat :: HeldBy(s, r, f) <==> f in gone
    requires s'.pt == Without(s.pt, r) && s'.free == free
    ensures Lost(s')
  {
    hide Inv, Lost;
    var p := Node(s.pt[(r, v)]);
    HeldData(s, p);
    assert Maps(s.pt, r, p);
    assert HeldBy(s, r, p);
    assert share[p] == 0;
    var other := OtherHolder(s, (r, v));
    FreedLost(s', other);
  }

  lemma RootShare(s: Vm, r: nat)
    requires Inv(s) && IsRoot(s, r)
    ensures |s.share| == |s.roles| && s.share[r] == 1
  {
    hide Tree;
  }
}
