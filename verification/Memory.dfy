/**
  The page allocator, page-table editing, copy-on-write fork and teardown
  (kernel/mm/mm.c, kernel/mm/mmirq.c, kernel/mm/recycle.c, kernel/sched/init.c,
  kernel/sched/sched.c), for status_ctx == 0.
 */
module Mm {
  import opened Sv39
  import opened Pool

  /** NUM_MAX_TASK */
  const MAX_TASKS: nat := 100

  /** Every page in use keeps its role and its sleepers; kernel pages and roots are new only among `news`. */
  ghost predicate Grows(s: Vm, t: Vm, news: set<nat>) {
    && t.ker == s.ker && t.lag == s.lag
    && |t.roles| == |s.roles|
    && (forall f: nat :: f < |s.roles| && s.roles[f] != Free ==> t.roles[f] == s.roles[f])
    && (forall f: nat :: f < |s.roles| && (t.roles[f] == Held || t.roles[f] == Root) && f !in news ==>
          s.roles[f] == t.roles[f])
  }

  /** The leaf entries of all spaces outside `roots` stay. */
  ghost predicate KeptOutside(pt: map<Key, Word>, pt': map<Key, Word>, roots: set<nat>) {
    forall r: nat, v: Vpn :: r !in roots ==> SameEntry(pt, pt', (r, v))
  }

  ghost predicate SameEntry(pt: map<Key, Word>, pt': map<Key, Word>, key: Key) {
    (key in pt <==> key in pt') && (key in pt ==> pt'[key] == pt[key])
  }

  lemma KeptTrans(a: map<Key, Word>, b: map<Key, Word>, c: map<Key, Word>, some: set<nat>, roots: set<nat>)
    requires KeptOutside(a, b, some) && KeptOutside(b, c, roots) && some <= roots
    ensures KeptOutside(a, c, roots)
  {
    forall r: nat, v: Vpn | r !in roots ensures SameEntry(a, c, (r, v)) {
      assert SameEntry(a, b, (r, v)) && SameEntry(b, c, (r, v));
    }
  }

  /** The holders of each page, from share_num and the sleepers of deal_no_W. */
  ghost function Plus(share: seq<nat>, lag: seq<nat>): (all: seq<nat>)
    ensures |all| == |share|
  {
    seq(|share|, f requires 0 <= f < |share| => share[f] + if f < |lag| then lag[f] else 0)
  }

  lemma PlusSet(share: seq<nat>, lag: seq<nat>, f: nat, d: int)
    requires f < |share| && share[f] + d >= 0
    ensures Plus(share, lag)[f] + d >= 0
    ensures Plus(share[f := share[f] + d], lag) == Plus(share, lag)[f := Plus(share, lag)[f] + d]
  {
  }

  lemma PlusLag(share: seq<nat>, lag: seq<nat>, f: nat, d: int)
    requires f < |share| == |lag| && lag[f] + d >= 0
    ensures Plus(share, lag)[f] + d >= 0
    ensures Plus(share, lag[f := lag[f] + d]) == Plus(share, lag)[f := Plus(share, lag)[f] + d]
  {
  }

  class Memory {
    const ker: Frame              // the kernel's own root table
    var frames: seq<Frame>        // page contents
    var share: seq<nat>           // pageRecyc[].share_num
    var free: seq<nat>            // free_source_list
    var sourceNum: nat            // source_num
    ghost var lag: seq<nat>       // the tasks that sleep in deal_no_W, by page
    ghost var roles: seq<Role>
    ghost var pt: map<Key, Word>  // the leaf entries of all address spaces

    ghost function View(): Vm
      reads this
    {
      Vm(ker, frames, Plus(share, lag), lag, free, roles, pt)
    }

    ghost predicate Valid()
      reads this
    {
      Inv(View()) && LagOk(View()) && sourceNum == |free|
    }

    /** share_num is exact: the invariant holds of the counts as the kernel has them. */
    ghost predicate Exact()
      reads this
    {
      Inv(View().(share := share))
    }

    /** What the address spaces read. */
    ghost function Spaces(): map<Key, Frame>
      requires Valid()
      reads this
    {
      Contents(View())
    }

    /** init_mem */
    constructor (ker: Frame, n: nat)
      requires |ker| == ENTRIES
      ensures Valid() && View() == Boot(ker, n)
      ensures |free| == sourceNum == |frames| == n && forall f: nat :: f < n ==> free[f] == f && AllZero(frames[f]) && share[f] == 0
    {
      BootInv(ker, n);
      var boot := Boot(ker, n);
      this.ker := ker;
      frames := boot.frames;
      share := boot.share;
      lag := boot.lag;
      free := boot.free;
      sourceNum := n;
      roles := boot.roles;
      pt := boot.pt;
      new;
      assert Plus(share, lag) == share;
    }

    /** The list, count and clearing steps of allocPage. */
    method TakePage() returns (n: nat)
      requires free != [] && sourceNum == |free| && free[0] < |frames| == |share| == |roles|
      modifies this
      ensures n == old(free[0]) && View() == Alloc(old(View())) && sourceNum == |free|
      ensures share == old(share[free[0] := share[free[0]] + 1])
    {
      n := free[0];
      PlusSet(share, lag, n, 1);
      share := share[n := share[n] + 1];
      free := free[1..];
      sourceNum := sourceNum - 1;
      frames := frames[n := ZeroFrame()];
      roles := roles[n := Held];
    }

    /** allocPage, called with a page available. */
    method AllocPage() returns (n: nat)
      requires Valid() && free != []
      modifies this
      ensures Valid() && Spaces() == old(Spaces())
      ensures n == old(free[0]) && n < |old(roles)| && old(roles)[n] == Free
      ensures |old(frames)| == |old(share)| == |old(roles)| && View() == Alloc(old(View()))
      ensures free == old(free)[1..] && sourceNum == |free| && old(share)[n] == 0 && share == old(share)[n := 1]
      ensures n < |frames| && |frames[n]| == ENTRIES && AllZero(frames[n]) && frames == old(frames)[n := frames[n]]
      ensures roles == old(roles)[n := Held] && pt == old(pt)
    {
      hide Inv, Contents;
      AllocInv(View());
      assert View().share[free[0]] == Plus(share, lag)[free[0]];
      n := TakePage();
    }

    /**
      freePage: one holder less; the last holder puts the page at the head of the free list.
      The proof's view of the pool (roles and leaves) is the caller's business.
     */
    method FreePage(n: nat)
      requires n < |share| && share[n] > 0
      modifies this`share, this`free, this`sourceNum
      ensures share == old(share)[n := old(share)[n] - 1]
      ensures free == if old(share)[n] == 1 then [n] + old(free) else old(free)
      ensures sourceNum == if old(share)[n] == 1 then old(sourceNum) + 1 else old(sourceNum)
    {
      share := share[n := share[n] - 1];
      if share[n] != 0 {
        return;
      }
      free := [n] + free;
      sourceNum := sourceNum + 1;
    }

    /** freePage of a kernel-held page (a kernel stack). */
    method FreeHeld(n: nat)
      requires Valid() && n < |roles| && roles[n] == Held
      modifies this
      ensures Valid() && Spaces() == old(Spaces())
      ensures |old(share)| == |old(roles)| && old(share)[n] == 1 && View() == Release(old(View()), n)
      ensures free == [n] + old(free) && share == old(share)[n := 0] && roles == old(roles)[n := Free]
    {
      hide Inv, Contents;
      ReleaseInv(View(), n);
      assert share[n] == 1 && lag[n] == 0;
      PlusSet(share, lag, n, -1);
      FreePage(n);
      roles := roles[n := Free];
    }

    /**
      check_page_set_flag on a non-leaf entry: follow it, or hang a fresh table below it.
     */
    method CheckPage(t: nat, x: nat) returns (n: nat)
      requires Valid() && t < |roles| && x < ENTRIES
      requires (roles[t] == Root && ker[x] == Zero) || roles[t].Mid?
      requires t < |frames| && x < |frames[t]| && (frames[t][x].v || free != [])
      modifies this
      ensures Valid() && Spaces() == old(Spaces()) && pt == old(pt)
      ensures Grows(old(View()), View(), {})
      ensures n < |roles| && roles[n] == Below(roles[t], t, x)
      ensures t < |frames| && x < |frames[t]| && IsPointer(frames[t][x]) && Node(frames[t][x]) == n
      ensures old(frames[t][x]).v ==> View() == old(View())
      ensures !old(frames[t][x]).v ==> |free| == |old(free)| - 1
    {
      if frames[t][x].v {
        n := Node(frames[t][x]);
      } else {
        n := AllocPage();
        LinkTableInv(View(), t, x, n);
        frames := frames[t := frames[t][x := TableEntry(n)]];
        roles := roles[n := Below(roles[t], t, x)];
      }
    }

    /** check_page_set_flag on the leaf entry of (r, v): follow it, or map a fresh page. */
    method CheckLeaf(l: nat, r: nat, v: Vpn) returns (n: nat)
      requires Valid() && IsRoot(View(), r) && User(ker, v)
      requires r < |frames| && LowAt(frames, r, v) == l
      requires l < |frames| && v.k < |frames[l]| && (frames[l][v.k].v || free != [])
      modifies this
      ensures Valid() && Grows(old(View()), View(), {})
      ensures (r, v) in pt && n < |roles| && Node(pt[(r, v)]) == n
      ensures (r, v) in old(pt) ==> View() == old(View())
      ensures (r, v) !in old(pt) ==> forall acc :: Admits(pt[(r, v)].(a := true, d := true), acc)
      ensures (r, v) !in old(pt) ==>
                && pt == old(pt)[(r, v) := UserLeaf(n)]
                && Spaces() == old(Spaces())[(r, v) := ZeroFrame()]
                && n < |old(roles)| && old(roles)[n] == Free
    {
      hide RootDown, MidDown, MidUp, LowUp, Ownership.CountOk, Ownership.CowOk, Ownership.OnceOk;
      LowAtRole(ker, frames, roles, pt, r, v);
      assert frames[l][v.k] == Lookup(pt, r, v);
      if frames[l][v.k].v {
        Mapped(View(), r, v);
        n := Node(frames[l][v.k]);
      } else {
        MappedIfAny(View(), r, v);
        n := LinkLeaf(l, r, v);
      }
    }

    method LinkLeaf(l: nat, r: nat, v: Vpn) returns (n: nat)
      requires Valid() && IsRoot(View(), r) && User(ker, v)
      requires r < |frames| && LowAt(frames, r, v) == l && l < |frames| && v.k < |frames[l]|
      requires (r, v) !in pt && free != []
      modifies this
      ensures Valid() && Grows(old(View()), View(), {})
      ensures pt == old(pt)[(r, v) := UserLeaf(n)]
      ensures Spaces() == old(Spaces())[(r, v) := ZeroFrame()]
      ensures n < |old(roles)| && old(roles)[n] == Free
    {
      hide Inv, Contents, LowAt;
      AllocLowAt(View(), r, v);
      n := AllocPage();
      MapLeafInv(View(), r, v, n);
      frames := frames[l := frames[l][v.k := UserLeaf(n)]];
      roles := roles[n := Data];
      pt := pt[(r, v) := UserLeaf(n)];
    }

    /** The two table levels of alloc_page_helper. */
    method TablesFor(r: nat, v: Vpn) returns (ok: bool, l: nat)
      requires Valid() && IsRoot(View(), r) && User(ker, v)
      modifies this
      ensures Valid() && Grows(old(View()), View(), {}) && pt == old(pt) && Spaces() == old(Spaces())
      ensures ok ==> r < |frames| && l < |frames| && v.k < |frames[l]| && LowAt(frames, r, v) == l
      ensures ok ==> frames[l][v.k] == Lookup(pt, r, v) && ((r, v) in pt ==> frames[l][v.k].v)
      ensures (r, v) in pt ==> View() == old(View())
      ensures |old(free)| <= |free| + 2
      ensures !ok ==> free == [] && (r, v) !in pt
    {
      hide Inv, Contents, LowAt, Lookup;
      ok, l := false, 0;
      ShapeOf(View());
      RootShape(View(), r, v);
      if !frames[r][v.i].v && free == [] {
        return;
      }
      var m := CheckPage(r, v.i);
      MidShape(View(), r, v, m);
      if !frames[m][v.j].v && free == [] {
        return;
      }
      l := CheckPage(m, v.j);
      ShapeOf(View());
      LowShape(View(), r, v, m, l);
      ok := true;
    }

    /**
      alloc_page_helper for a user page: a map update on the three-level tree.
      When a page is needed and none is free the kernel sleeps in allocPage; ok is then
      false, nothing is mapped, and the invariant holds at that sleep.
     */
    method AllocPageHelper(r: nat, v: Vpn) returns (ok: bool, n: nat)
      requires Valid() && IsRoot(View(), r) && User(ker, v)
      modifies this
      ensures Valid() && Grows(old(View()), View(), {})
      ensures ok ==> (r, v) in pt && Node(pt[(r, v)]) == n && n < |roles|
      ensures ok && (r, v) in old(pt) ==> View() == old(View())
      ensures ok && (r, v) !in old(pt) ==> forall acc :: Admits(pt[(r, v)].(a := true, d := true), acc)
      ensures ok && (r, v) !in old(pt) ==>
                && pt == old(pt)[(r, v) := UserLeaf(n)]
                && Spaces() == old(Spaces())[(r, v) := ZeroFrame()]
                && n < |old(roles)| && old(roles)[n] == Free
      ensures !ok ==> free == [] && (r, v) !in pt && pt == old(pt) && Spaces() == old(Spaces()) && |old(free)| < 3
    {
      hide Inv, Contents, LowAt, Lookup;
      var l;
      ok, l := TablesFor(r, v);
      n := 0;
      if !ok {
        return;
      }
      if !frames[l][v.k].v && free == [] {
        return false, 0;
      }
      n := CheckLeaf(l, r, v);
    }

    /** get_PTE_of: the third-level table holding the entry of (r, v); -1 when v is unmapped. */
    method GetPte(r: nat, v: Vpn) returns (l: int)
      requires Valid() && IsRoot(View(), r) && User(ker, v)
      ensures (r, v) in pt <==> l >= 0
      ensures l >= 0 ==> r < |frames| && l == LowAt(frames, r, v) && l < |frames| && v.k < |frames[l]|
      ensures l >= 0 ==> frames[l][v.k] == pt[(r, v)]
    {
      hide RootDown, MidDown, LowDown, MidUp, LowUp, Ownership.Owned;
      ghost var s := View();
      RootEntries(s, r, v.i);
      if frames[r][v.i] == Zero {
        return -1;
      }
      var m := Node(frames[r][v.i]);
      MidEntries(s, r, v.i, v.j, m);
      if frames[m][v.j] == Zero {
        return -1;
      }
      l := Node(frames[m][v.j]);
      LowEntries(s, r, v, l);
      if frames[l][v.k] == Zero {
        return -1;
      }
    }
  }

  lemma MappedIfAny(s: Vm, r: nat, v: Vpn)
    requires Inv(s)
    ensures (r, v) in s.pt ==> s.pt[(r, v)].v
  {
    if (r, v) in s.pt { Mapped(s, r, v); }
  }

  /** Allocating a page moves no table. */
  lemma AllocLowAt(s: Vm, r: nat, v: Vpn)
    requires Inv(s) && s.free != [] && IsRoot(s, r) && User(s.ker, v)
    ensures s.free[0] < |s.frames| == |s.share| == |s.roles| && r < |s.frames|
    ensures Inv(Alloc(s)) && LowAt(Alloc(s).frames, r, v) == LowAt(s.frames, r, v)
    ensures LowAt(s.frames, r, v) != s.free[0]
  {
    hide MidUp, LowUp, PtUp, LowDown, Ownership.CountOk, Ownership.CowOk, Ownership.OnceOk;
    AllocInv(s);
    LowAtRole(s.ker, s.frames, s.roles, s.pt, r, v);
  }

  lemma ShapeOf(s: Vm)
    requires Inv(s)
    ensures Shape(s.ker, s.frames, s.roles) && |s.share| == |s.roles|
  {
  }

  /** The walk of v, level by level: a missing level means an unmapped page. */
  lemma RootShape(s: Vm, r: nat, v: Vpn)
    requires Inv(s) && IsRoot(s, r) && |s.ker| == ENTRIES && User(s.ker, v)
    ensures |s.frames| == |s.roles| && |s.frames[r]| == ENTRIES
    ensures !s.frames[r][v.i].v ==> (r, v) !in s.pt
  {
    hide MidUp, LowUp, MidDown, LowDown, Ownership.Owned;
  }

  lemma MidShape(s: Vm, r: nat, v: Vpn, m: nat)
    requires Inv(s) && IsRoot(s, r) && |s.ker| == ENTRIES && User(s.ker, v)
    requires m < |s.roles| && s.roles[m] == Mid(r, v.i)
    ensures |s.frames| == |s.roles| && |s.frames[m]| == ENTRIES
    ensures !s.frames[m][v.j].v ==> (r, v) !in s.pt
  {
    hide LowUp, LowDown, Ownership.Owned;
  }

  lemma LowShape(s: Vm, r: nat, v: Vpn, m: nat, l: nat)
    requires Inv(s) && IsRoot(s, r) && |s.ker| == ENTRIES && User(s.ker, v)
    requires m < |s.roles| == |s.frames| && |s.frames[m]| == ENTRIES && s.roles[m] == Mid(r, v.i)
    requires l < |s.roles| && Node(s.frames[m][v.j]) == l && s.frames[m][v.j] != Zero
    ensures |s.frames[l]| == ENTRIES && LowAt(s.frames, r, v) == l
    ensures s.frames[l][v.k] == Lookup(s.pt, r, v)
    ensures (r, v) in s.pt ==> s.frames[l][v.k].v
  {
    hide LowUp, Ownership.CountOk, Ownership.CowOk, Ownership.OnceOk;
    LowAtRole(s.ker, s.frames, s.roles, s.pt, r, v);
    MappedIfAny(s, r, v);
  }

  /** The kernel's counts are exact iff nobody sleeps in deal_no_W. */
  lemma ExactIff(m: Memory)
    requires m.Valid()
    ensures m.Exact() <==> forall f :: 0 <= f < |m.lag| ==> m.lag[f] == 0
  {
    hide Inv;
    assert m.share == Raw(m.View());
    if f: nat :| f < |m.lag| && m.lag[f] > 0 {
      LagBreaks(m.View(), f);
    } else {
      assert m.View().(share := m.share) == m.View();
    }
  }

  lemma WalkEntry(s: Vm, r: nat, v: Vpn)
    requires Inv(s) && IsRoot(s, r) && |s.ker| == ENTRIES && User(s.ker, v)
    requires r < |s.frames| && Shape(s.ker, s.frames, s.roles) && LowAt(s.frames, r, v) >= 0
    ensures LowAt(s.frames, r, v) < |s.frames|
    ensures s.frames[LowAt(s.frames, r, v)][v.k] == Lookup(s.pt, r, v)
  {
    hide RootDown, MidDown, MidUp, LowUp, PtUp, LowAt, Ownership.Owned;
    LowAtRole(s.ker, s.frames, s.roles, s.pt, r, v);
  }

  /** A third-level table of r is where the walk arrives, and holds the leaves. */
  lemma LowEntries(s: Vm, r: nat, v: Vpn, l: nat)
    requires Inv(s) && l < |s.roles| && s.roles[l] == Low(r, v.i, v.j) && v.k < ENTRIES
    ensures Shape(s.ker, s.frames, s.roles)
    ensures IsRoot(s, r) && User(s.ker, v) && LowAt(s.frames, r, v) == l
    ensures s.frames[l][v.k] == Lookup(s.pt, r, v)
    ensures (r, v) in s.pt <==> s.frames[l][v.k] != Zero
  {
    hide RootDown, MidDown, Ownership.Owned;
  }

  ghost predicate KeysInRange(c: map<Key, Frame>) {
    forall r: nat, v: Vpn :: (r, v) in c ==> InRange(v)
  }

  lemma SpaceKeys(s: Vm)
    requires Inv(s)
    ensures Contents(s).Keys == s.pt.Keys && KeysInRange(Contents(s))
  {
    hide RootDown, MidDown, LowDown, MidUp, LowUp, LowAt, Ownership.CountOk, Ownership.CowOk, Ownership.OnceOk;
  }

  /** Key k reads the same in c and c'. */
  ghost predicate Same(c: map<Key, Frame>, k: Key, c': map<Key, Frame>, k': Key) {
    (k in c <==> k' in c') && (k in c ==> c[k] == c'[k'])
  }

  lemma MidEntries(s: Vm, r: nat, i: nat, j: nat, m: nat)
    requires Inv(s) && m < |s.roles| && s.roles[m] == Mid(r, i) && j < ENTRIES
    ensures Shape(s.ker, s.frames, s.roles) && IsRoot(s, r) && i < ENTRIES
    ensures s.frames[m][j] != Zero ==> Points(s.frames[m][j], s.roles, Low(r, i, j))
    ensures s.frames[m][j] == Zero ==> forall v: Vpn :: v.i == i && v.j == j ==> (r, v) !in s.pt
  {
    hide RootDown, LowDown, LowUp, Ownership.Owned;
    if s.frames[m][j] == Zero {
      NoLeafBelow(s.ker, s.frames, s.roles, s.pt, m, j);
      forall v: Vpn | v.i == i && v.j == j ensures (r, v) !in s.pt { assert v == Vpn(i, j, v.k); }
    }
  }

  lemma RootEntries(s: Vm, r: nat, i: nat)
    requires Inv(s) && IsRoot(s, r) && i < ENTRIES
    ensures Shape(s.ker, s.frames, s.roles)
    ensures s.ker[i] == Zero && s.frames[r][i] != Zero ==> Points(s.frames[r][i], s.roles, Mid(r, i))
    ensures s.ker[i] != Zero || s.frames[r][i] == Zero ==> forall v: Vpn :: v.i == i ==> (r, v) !in s.pt
  {
    hide MidDown, MidUp, LowDown, LowUp, Ownership.Owned;
  }
}
