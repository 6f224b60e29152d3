/**
  The state of the page pool, its invariant, and what each elementary step of
  kernel/mm/mm.c and kernel/mm/mmirq.c does to it.
 */
module Pool {
  import opened Seqs
  import opened Sv39
  import opened Ownership

  datatype Vm = Vm(
    ker: Frame,             // the kernel's own root table
    frames: seq<Frame>,     // page contents
    share: seq<nat>,        // the holders of each page: share_num, and the sleepers of deal_no_W
    lag: seq<nat>,          // how many of them sleep in deal_no_W, which has lowered share_num for them
    free: seq<nat>,         // the free list
    roles: seq<Role>,
    pt: map<Key, Word>)     // the leaf entries of all address spaces

  ghost predicate Inv(s: Vm) {
    Tree(s.ker, s.frames, s.roles, s.pt) && Owned(s.pt, s.share, s.free, s.roles)
  }

  ghost predicate IsRoot(s: Vm, r: nat) { r < |s.roles| && s.roles[r] == Root }

  /** What the address spaces read: the contents behind every leaf entry. */
  ghost function Contents(s: Vm): map<Key, Frame>
    requires Inv(s)
  {
    map key | key in s.pt :: s.frames[Node(s.pt[key])]
  }

  function ZeroFrame(): (f: Frame)
    ensures |f| == ENTRIES && AllZero(f)
  {
    seq(ENTRIES, i => Zero)
  }

  /** init_mem: every page free, in address order. */
  function Boot(ker: Frame, n: nat): Vm {
    Vm(ker, seq(n, i => ZeroFrame()), seq(n, i => 0), seq(n, i => 0), seq(n, i => i), seq(n, i => Free), map[])
  }

  lemma BootInv(ker: Frame, n: nat)
    requires |ker| == ENTRIES
    ensures Inv(Boot(ker, n))
  {
    var s := Boot(ker, n);
    forall f: nat | f < n ensures f in s.free { assert s.free[f] == f; }
    assert FreeOk(s.share, s.free, s.roles);
  }

  /** allocPage: the first free page, cleared. */
  ghost function Alloc(s: Vm): Vm
    requires s.free != [] && s.free[0] < |s.frames| == |s.share| == |s.roles|
  {
    var n := s.free[0];
    s.(frames := s.frames[n := ZeroFrame()], share := s.share[n := s.share[n] + 1],
       free := s.free[1..], roles := s.roles[n := Held])
  }

  lemma AllocInv(s: Vm)
    requires Inv(s) && s.free != []
    ensures s.free[0] < |s.frames| == |s.share| == |s.roles|
    ensures s.roles[s.free[0]] == Free && s.share[s.free[0]] == 0
    ensures Inv(Alloc(s)) && Contents(Alloc(s)) == Contents(s)
  {
    var n := s.free[0];
    OwnedAlloc(s.pt, s.share, s.free, s.roles);
    TreeStable(s.ker, s.frames, s.roles, s.pt, s.frames[n := ZeroFrame()], s.roles[n := Held]);
  }

  /** freePage of a page with a single holder. */
  ghost function Release(s: Vm, n: nat): Vm
    requires n < |s.share| == |s.roles| && s.share[n] > 0
  {
    s.(share := s.share[n := s.share[n] - 1], free := [n] + s.free, roles := s.roles[n := Free])
  }

  lemma ReleaseInv(s: Vm, n: nat)
    requires Inv(s) && n < |s.roles| && s.roles[n] == Held
    ensures |s.share| == |s.roles| && s.share[n] == 1
    ensures Inv(Release(s, n)) && Contents(Release(s, n)) == Contents(s)
  {
    OwnedFree(s.pt, s.share, s.free, s.roles, n);
    TreeStable(s.ker, s.frames, s.roles, s.pt, s.frames, s.roles[n := Free]);
  }

  /** The role of a page behind entry x of table t. */
  function Below(role: Role, t: nat, x: nat): Role {
    if role == Root then Mid(t, x) else if role.Mid? then Low(role.root, role.i, x) else Data
  }

  /** check_page_set_flag: the cleared page n goes behind the empty entry x of table t. */
  ghost function LinkTable(s: Vm, t: nat, x: nat, n: nat): Vm
    requires t < |s.frames| == |s.roles| && x < |s.frames[t]| && n < |s.roles|
  {
    s.(frames := s.frames[t := s.frames[t][x := TableEntry(n)]], roles := s.roles[n := Below(s.roles[t], t, x)])
  }

  lemma LinkTableInv(s: Vm, t: nat, x: nat, n: nat)
    requires Inv(s) && t < |s.roles| && x < ENTRIES && n < |s.roles|
    requires (s.roles[t] == Root && s.ker[x] == Zero) || s.roles[t].Mid?
    requires s.frames[t][x] == Zero && s.roles[n] == Held && AllZero(s.frames[n])
    ensures Inv(LinkTable(s, t, x, n)) && Contents(LinkTable(s, t, x, n)) == Contents(s)
  {
    hide RootDown, MidDown, LowDown, MidUp, LowUp, PtUp, CountOk, CowOk, OnceOk;
    if s.roles[t] == Root {
      TreeLinkMid(s.ker, s.frames, s.roles, s.pt, t, x, n);
    } else {
      TreeLinkLow(s.ker, s.frames, s.roles, s.pt, t, x, n);
    }
    OwnedRole(s.pt, s.share, s.free, s.roles, n, Below(s.roles[t], t, x));
  }

  /** Writing the leaf entry of (r, v) in its third-level table. */
  ghost function PutLeaf(s: Vm, r: nat, v: Vpn, e: Word): Vm
    requires Shape(s.ker, s.frames, s.roles) && r < |s.frames| && InRange(v)
    requires LowAt(s.frames, r, v) >= 0
  {
    var l := LowAt(s.frames, r, v);
    s.(frames := s.frames[l := s.frames[l][v.k := e]], pt := SetLeaf(s.pt, r, v, e))
  }

  /** What the invariant says about a mapped page. */
  lemma Mapped(s: Vm, r: nat, v: Vpn)
    requires Inv(s) && (r, v) in s.pt
    ensures IsRoot(s, r) && User(s.ker, v) && r < |s.frames| && LowAt(s.frames, r, v) >= 0
    ensures |s.share| == |s.roles| == |s.frames|
    ensures 0 <= Node(s.pt[(r, v)]) < |s.share|
    ensures s.roles[Node(s.pt[(r, v)])] == Data && s.share[Node(s.pt[(r, v)])] > 0
    ensures s.pt[(r, v)].v && UserPage(s.pt[(r, v)])
  {
    assert Points(s.pt[(r, v)], s.roles, Data);
  }

  lemma ContentsAt(s: Vm, key: Key)
    requires Inv(s) && key in s.pt
    ensures 0 <= Node(s.pt[key]) < |s.frames| && key in Contents(s) && Contents(s)[key] == s.frames[Node(s.pt[key])]
  {
    Mapped(s, key.0, key.1);
  }

  /** A writable page has a single holder. */
  lemma SoleWriter(s: Vm, r: nat, v: Vpn)
    requires Inv(s) && (r, v) in s.pt && s.pt[(r, v)].w
    ensures 0 <= Node(s.pt[(r, v)]) < |s.share| == |s.roles| == |s.frames| && s.share[Node(s.pt[(r, v)])] == 1
  {
    hide RootDown, MidDown, LowDown, MidUp, LowUp, PtUp, CountOk, OnceOk;
    Mapped(s, r, v);
  }

  /** share_num of a page never runs out while a task sleeps in deal_no_W for it. */
  ghost predicate LagOk(s: Vm) {
    |s.lag| == |s.share| && forall f: nat :: f < |s.lag| && s.lag[f] > 0 ==> s.lag[f] < s.share[f]
  }

  /** share_num */
  ghost function Raw(s: Vm): (raw: seq<nat>)
    requires LagOk(s)
    ensures |raw| == |s.share|
  {
    seq(|s.share|, f requires 0 <= f < |s.share| => s.share[f] - s.lag[f])
  }

  /** While a task sleeps in deal_no_W, share_num is not the number of leaf entries that map the page. */
  lemma LagBreaks(s: Vm, f: nat)
    requires Inv(s) && LagOk(s) && f < |s.lag| && s.lag[f] > 0
    ensures !Inv(s.(share := Raw(s)))
  {
    hide Tree, LeafOk, CowOk, OnceOk, Slots;
    assert s.roles[f] == Data;
    assert Raw(s)[f] != |Slots(s.pt, f)|;
  }

  /** One task alone is awake among the holders of the page behind key, and others sleep in deal_no_W for it. */
  ghost predicate Contested(s: Vm, key: Key) {
    && key in s.pt && 0 <= Node(s.pt[key]) < |s.share| == |s.lag|
    && s.lag[Node(s.pt[key])] > 0 && s.share[Node(s.pt[key])] == s.lag[Node(s.pt[key])] + 1
  }

  lemma InvLag(s: Vm, lag: seq<nat>)
    requires Inv(s)
    ensures Inv(s.(lag := lag)) && Contents(s.(lag := lag)) == Contents(s)
  {
    hide Tree, Owned;
  }

  /** A page with two holders has another entry. */
  lemma OtherHolder(s: Vm, key: Key) returns (other: Key)
    requires Inv(s) && key in s.pt && 0 <= Node(s.pt[key]) < |s.share| && s.share[Node(s.pt[key])] > 1
    ensures other in s.pt && other.0 != key.0 && Node(s.pt[other]) == Node(s.pt[key])
  {
    hide Tree, FreeOk, CowOk;
    var p := Node(s.pt[key]);
    assert Points(s.pt[key], s.roles, Data);
    var rest := Slots(s.pt, p) - {key};
    assert Slots(s.pt, p) == rest + {key};
    other :| other in rest;
    assert other == (other.0, other.1) && key == (key.0, key.1);
  }

  ghost function Recounted(s: Vm, share: seq<nat>, roles: seq<Role>): Vm { s.(share := share, roles := roles) }

  /** No account of the holders makes the invariant hold again. */
  ghost predicate Lost(s: Vm) {
    forall share: seq<nat>, roles: seq<Role> :: !Inv(Recounted(s, share, roles))
  }

  /** A writable entry and a second entry for the same page. */
  lemma WriterLost(s: Vm, a: Key, b: Key)
    requires a in s.pt && b in s.pt && a != b && Node(s.pt[a]) == Node(s.pt[b]) && s.pt[b].w
    ensures Lost(s)
  {
    forall share: seq<nat>, roles: seq<Role> ensures !Inv(Recounted(s, share, roles)) {
      if Inv(Recounted(s, share, roles)) {
        hide Tree, FreeOk, OnceOk;
        assert Points(s.pt[b], roles, Data);
        SoleMapping(s.pt, share, roles, b);
      }
    }
  }

  /** A mapped page on the free list. */
  lemma FreedLost(s: Vm, a: Key)
    requires a in s.pt && 0 <= Node(s.pt[a]) && Node(s.pt[a]) in s.free
    ensures Lost(s)
  {
    hide Tree, CountOk, CowOk, OnceOk;
  }

  lemma LostNow(s: Vm)
    requires Lost(s)
    ensures !Inv(s)
  {
    assert s == Recounted(s, s.share, s.roles);
  }

  /** Editing a leaf moves no third-level table. */
  lemma LowAtKeeps(s: Vm, r: nat, v: Vpn, e: Word, r': nat, v': Vpn)
    requires Inv(s) && IsRoot(s, r) && User(s.ker, v) && LowAt(s.frames, r, v) >= 0
    requires IsRoot(s, r') && User(s.ker, v')
    ensures LowAt(PutLeaf(s, r, v, e).frames, r', v') == LowAt(s.frames, r', v')
  {
    LowAtRole(s.ker, s.frames, s.roles, s.pt, r, v);
  }

  /** The frames that leaf entries refer to are no tables. */
  lemma PutLeafKeeps(s: Vm, r: nat, v: Vpn, e: Word)
    requires Inv(s) && IsRoot(s, r) && User(s.ker, v) && LowAt(s.frames, r, v) >= 0
    ensures forall f: nat :: f < |s.roles| && !IsTable(s.roles[f]) ==>
              PutLeaf(s, r, v, e).frames[f] == s.frames[f]
  {
    LowAtRole(s.ker, s.frames, s.roles, s.pt, r, v);
  }

  /** Mapping held page n at the unmapped page (r, v). */
  ghost function MapLeaf(s: Vm, r: nat, v: Vpn, n: nat): Vm
    requires Shape(s.ker, s.frames, s.roles) && r < |s.frames| && InRange(v) && n < |s.roles|
    requires LowAt(s.frames, r, v) >= 0
  {
    PutLeaf(s, r, v, UserLeaf(n)).(roles := s.roles[n := Data])
  }

  lemma MapLeafInv(s: Vm, r: nat, v: Vpn, n: nat)
    requires Inv(s) && IsRoot(s, r) && User(s.ker, v) && LowAt(s.frames, r, v) >= 0
    requires n < |s.roles| && s.roles[n] == Held && (r, v) !in s.pt
    ensures Inv(MapLeaf(s, r, v, n)) && Contents(MapLeaf(s, r, v, n)) == Contents(s)[(r, v) := s.frames[n]]
  {
    hide RootDown, MidDown, LowDown, MidUp, LowUp, PtUp, LowAt, CountOk, CowOk, OnceOk;

    var e := UserLeaf(n);
    var t := PutLeaf(s, r, v, e);
    TreeSetLeaf(s.ker, s.frames, s.roles, s.pt, r, v, e);
    TreeStable(t.ker, t.frames, t.roles, t.pt, t.frames, t.roles[n := Data]);
    OwnedMap(s.pt, s.share, s.free, s.roles, (r, v), n, e);
    PutLeafKeeps(s, r, v, e);
  }

  /** One page of src becomes shared with dst: both entries lose W (copy_on_write). */
  ghost function ShareLeaf(s: Vm, src: nat, dst: nat, v: Vpn): Vm
    requires Shape(s.ker, s.frames, s.roles) && src < |s.frames| && dst < |s.frames| && InRange(v)
    requires LowAt(s.frames, src, v) >= 0 && LowAt(s.frames, dst, v) >= 0
    requires (src, v) in s.pt && 0 <= Node(s.pt[(src, v)]) < |s.share|
  {
    var e := s.pt[(src, v)].(w := false);
    var p := Node(e);
    var l, m := LowAt(s.frames, src, v), LowAt(s.frames, dst, v);
    var frames := s.frames[l := s.frames[l][v.k := e]];
    s.(frames := frames[m := frames[m][v.k := e]],
       pt := s.pt[(src, v) := e][(dst, v) := e],
       share := s.share[p := s.share[p] + 1])
  }

  /** dst maps no page of src, except at the same virtual page. */
  ghost predicate Aligned(pt: map<Key, Word>, src: nat, dst: nat) {
    forall v: Vpn, v': Vpn :: (src, v) in pt && (dst, v') in pt && Node(pt[(src, v)]) == Node(pt[(dst, v')])
      ==> v == v'
  }

  lemma ShareLeafTree(s: Vm, src: nat, dst: nat, v: Vpn)
    requires Inv(s) && IsRoot(s, src) && IsRoot(s, dst) && src != dst && User(s.ker, v)
    requires LowAt(s.frames, src, v) >= 0 && LowAt(s.frames, dst, v) >= 0 && (src, v) in s.pt
    ensures 0 <= Node(s.pt[(src, v)]) < |s.share|
    ensures var t := ShareLeaf(s, src, dst, v);
            && Tree(t.ker, t.frames, t.roles, t.pt)
            && forall f: nat :: f < |s.roles| && !IsTable(s.roles[f]) ==> t.frames[f] == s.frames[f]
  {
    hide RootDown, MidDown, LowDown, MidUp, LowUp, PtUp, LowAt, CountOk, CowOk, OnceOk;

    var e := s.pt[(src, v)].(w := false);
    Mapped(s, src, v);
    LowAtRole(s.ker, s.frames, s.roles, s.pt, src, v);
    LowAtRole(s.ker, s.frames, s.roles, s.pt, dst, v);
    TreeSetLeaf(s.ker, s.frames, s.roles, s.pt, src, v, e);
    var u := PutLeaf(s, src, v, e);
    LowAtKeeps(s, src, v, e, dst, v);
    TreeSetLeaf(u.ker, u.frames, u.roles, u.pt, dst, v, e);
  }

  lemma ShareLeafInv(s: Vm, src: nat, dst: nat, v: Vpn)
    requires Inv(s) && IsRoot(s, src) && IsRoot(s, dst) && src != dst && User(s.ker, v)
    requires LowAt(s.frames, src, v) >= 0 && LowAt(s.frames, dst, v) >= 0
    requires (src, v) in s.pt && (dst, v) !in s.pt && Aligned(s.pt, src, dst)
    ensures 0 <= Node(s.pt[(src, v)]) < |s.share|
    ensures var t := ShareLeaf(s, src, dst, v);
            && Inv(t) && Aligned(t.pt, src, dst)
            && Contents(t) == Contents(s)[(dst, v) := Contents(s)[(src, v)]]
  {
    hide RootDown, MidDown, LowDown, MidUp, LowUp, PtUp, LowAt, CountOk, CowOk;
    Mapped(s, src, v);
    ShareLeafTree(s, src, dst, v);
    OwnedShare(s.pt, s.share, s.free, s.roles, (src, v), (dst, v));
    assert LeafOk(s.pt, s.roles);
  }

  /** Changing the attribute bits of a mapped leaf. */
  lemma FlagsInv(s: Vm, r: nat, v: Vpn, e: Word)
    requires Inv(s) && IsRoot(s, r) && User(s.ker, v) && (r, v) in s.pt
    requires e.v && UserPage(e) && e.pfn == s.pt[(r, v)].pfn
    requires e.w ==> s.pt[(r, v)].w || (0 <= Node(e) < |s.share| && s.share[Node(e)] == 1)
    ensures LowAt(s.frames, r, v) >= 0
    ensures Inv(PutLeaf(s, r, v, e)) && Contents(PutLeaf(s, r, v, e)) == Contents(s)
  {
    hide RootDown, MidDown, LowDown, MidUp, LowUp, PtUp, LowAt, CountOk, CowOk, OnceOk;

    Mapped(s, r, v);
    PutLeafKeeps(s, r, v, e);
    TreeSetLeaf(s.ker, s.frames, s.roles, s.pt, r, v, e);
    OwnedFlags(s.pt, s.share, s.free, s.roles, (r, v), e);
  }

  /** deal_no_W on a shared page: (r, v) moves to held page n. */
  ghost function SplitLeaf(s: Vm, r: nat, v: Vpn, n: nat, e: Word): Vm
    requires Shape(s.ker, s.frames, s.roles) && r < |s.frames| && InRange(v) && n < |s.roles|
    requires LowAt(s.frames, r, v) >= 0
    requires (r, v) in s.pt && 0 <= Node(s.pt[(r, v)]) < |s.share| && s.share[Node(s.pt[(r, v)])] > 0
  {
    var p := Node(s.pt[(r, v)]);
    PutLeaf(s, r, v, e).(roles := s.roles[n := Data], share := s.share[p := s.share[p] - 1])
  }

  lemma SplitLeafInv(s: Vm, r: nat, v: Vpn, n: nat, e: Word)
    requires Inv(s) && IsRoot(s, r) && User(s.ker, v) && (r, v) in s.pt
    requires n < |s.roles| && s.roles[n] == Held && e.v && UserPage(e) && Node(e) == n
    requires 0 <= Node(s.pt[(r, v)]) < |s.share| && s.share[Node(s.pt[(r, v)])] > 1
    ensures LowAt(s.frames, r, v) >= 0
    ensures Inv(SplitLeaf(s, r, v, n, e))
    ensures Contents(SplitLeaf(s, r, v, n, e)) == Contents(s)[(r, v) := s.frames[n]]
  {
    hide RootDown, MidDown, LowDown, MidUp, LowUp, PtUp, LowAt, CountOk, CowOk, OnceOk;

    Mapped(s, r, v);
    PutLeafKeeps(s, r, v, e);
    var t := PutLeaf(s, r, v, e);
    TreeSetLeaf(s.ker, s.frames, s.roles, s.pt, r, v, e);
    TreeStable(t.ker, t.frames, t.roles, t.pt, t.frames, t.roles[n := Data]);
    OwnedSplit(s.pt, s.share, s.free, s.roles, (r, v), n, e);
  }

  /** Writing a page that is no table. */
  ghost function Fill(s: Vm, p: nat, c: Frame): Vm
    requires p < |s.frames|
  {
    s.(frames := s.frames[p := c])
  }

  lemma FillInv(s: Vm, p: nat, c: Frame)
    requires Inv(s) && p < |s.roles| && !IsTable(s.roles[p]) && |c| == ENTRIES
    ensures p < |s.frames| && Inv(Fill(s, p, c))
    ensures Contents(Fill(s, p, c)) == map key | key in s.pt :: if Node(s.pt[key]) == p then c else Contents(s)[key]
  {
    TreeStable(s.ker, s.frames, s.roles, s.pt, s.frames[p := c], s.roles);
  }

  /** Writing through a page with a single mapping changes that mapping alone. */
  lemma FillSole(s: Vm, key: Key, c: Frame)
    requires Inv(s) && key in s.pt && |c| == ENTRIES
    requires 0 <= Node(s.pt[key]) < |s.share| && s.share[Node(s.pt[key])] == 1
    ensures Node(s.pt[key]) < |s.frames| && Inv(Fill(s, Node(s.pt[key]), c))
    ensures Contents(Fill(s, Node(s.pt[key]), c)) == Contents(s)[key := c]
  {
    hide RootDown, MidDown, LowDown, MidUp, LowUp, PtUp, CowOk, OnceOk;
    assert Points(s.pt[key], s.roles, Data);
    SoleMapping(s.pt, s.share, s.roles, key);
    FillInv(s, Node(s.pt[key]), c);
  }

  /** free_page_helper: the leaf entry is cleared and its page loses a holder. */
  ghost function Unmap(s: Vm, r: nat, v: Vpn): Vm
    requires Shape(s.ker, s.frames, s.roles) && r < |s.frames| && InRange(v)
    requires LowAt(s.frames, r, v) >= 0
    requires (r, v) in s.pt && 0 <= Node(s.pt[(r, v)]) < |s.share| == |s.roles| && s.share[Node(s.pt[(r, v)])] > 0
  {
    var p := Node(s.pt[(r, v)]);
    PutLeaf(s, r, v, Zero).(share := s.share[p := s.share[p] - 1],
      free := if s.share[p] == 1 then [p] + s.free else s.free,
      roles := if s.share[p] == 1 then s.roles[p := Free] else s.roles)
  }

  lemma UnmapTree(s: Vm, r: nat, v: Vpn)
    requires Inv(s) && IsRoot(s, r) && User(s.ker, v) && (r, v) in s.pt
    ensures LowAt(s.frames, r, v) >= 0
    ensures 0 <= Node(s.pt[(r, v)]) < |s.share| == |s.roles| && s.share[Node(s.pt[(r, v)])] > 0
    ensures var t := Unmap(s, r, v);
            && Tree(t.ker, t.frames, t.roles, t.pt)
            && forall f: nat :: f < |s.roles| && !IsTable(s.roles[f]) ==> t.frames[f] == s.frames[f]
  {
    hide RootDown, MidDown, LowDown, MidUp, LowUp, PtUp, LowAt, CountOk, CowOk, OnceOk;
    Mapped(s, r, v);
    PutLeafKeeps(s, r, v, Zero);
    var t := PutLeaf(s, r, v, Zero);
    TreeSetLeaf(s.ker, s.frames, s.roles, s.pt, r, v, Zero);
    TreeStable(t.ker, t.frames, t.roles, t.pt, t.frames, Unmap(s, r, v).roles);
  }

  lemma UnmapInv(s: Vm, r: nat, v: Vpn)
    requires Inv(s) && IsRoot(s, r) && User(s.ker, v) && (r, v) in s.pt
    ensures LowAt(s.frames, r, v) >= 0
    ensures 0 <= Node(s.pt[(r, v)]) < |s.share| == |s.roles| && s.share[Node(s.pt[(r, v)])] > 0
    ensures Inv(Unmap(s, r, v)) && Contents(Unmap(s, r, v)) == Contents(s) - {(r, v)}
  {
    hide Tree, LowAt, CountOk, CowOk, OnceOk;
    UnmapTree(s, r, v);
    OwnedUnmap(s.pt, s.share, s.free, s.roles, (r, v));
  }

  /** The page n, holding a copy of the kernel root, becomes the root of a new space. */
  ghost function NewRoot(s: Vm, n: nat): Vm
    requires n < |s.frames| == |s.roles|
  {
    s.(frames := s.frames[n := s.ker], roles := s.roles[n := Root])
  }

  lemma NewRootInv(s: Vm, n: nat)
    requires Inv(s) && n < |s.roles| && s.roles[n] == Held
    ensures |s.frames| == |s.roles|
    ensures Inv(NewRoot(s, n)) && Contents(NewRoot(s, n)) == Contents(s)
    ensures forall v: Vpn :: (n, v) !in s.pt
  {
    TreeNewRoot(s.ker, s.frames, s.roles, s.pt, n);
    OwnedRole(s.pt, s.share, s.free, s.roles, n, Root);
    hide RootDown, MidDown, LowDown, MidUp, LowUp, CountOk, CowOk, OnceOk;
    assert LeafOk(s.pt, s.roles);
  }

  /** The accessed bit of a non-leaf entry. */
  ghost function Touch(s: Vm, t: nat, x: nat): Vm
    requires t < |s.frames| && x < |s.frames[t]|
  {
    s.(frames := s.frames[t := s.frames[t][x := s.frames[t][x].(a := true)]])
  }

  lemma TouchInv(s: Vm, t: nat, x: nat)
    requires Inv(s) && t < |s.roles| && x < ENTRIES && s.frames[t][x] != Zero
    requires (s.roles[t] == Root && s.ker[x] == Zero) || s.roles[t].Mid?
    ensures Inv(Touch(s, t, x)) && Contents(Touch(s, t, x)) == Contents(s)
  {
    hide RootDown, MidDown, LowDown, MidUp, LowUp, PtUp, LowAt, CountOk, CowOk, OnceOk;

    TreeTouch(s.ker, s.frames, s.roles, s.pt, t, x);
  }

  /** The reference semantics of exit: the pages of r are gone. */
  ghost function WithoutSpace(c: map<Key, Frame>, r: nat): map<Key, Frame> {
    map key | key in c && key.0 != r :: c[key]
  }

  /** Address space r maps pool page f. */
  ghost predicate Maps(pt: map<Key, Word>, r: nat, f: nat) {
    exists v: Vpn :: (r, v) in pt && Node(pt[(r, v)]) == f
  }

  /** Pool page f is a table of root r, or mapped by it. */
  ghost predicate HeldBy(s: Vm, r: nat, f: nat) {
    f < |s.roles| && (TableOf(s.roles[f], f, r) || Maps(s.pt, r, f))
  }

  /** Without the space r, a page loses the one mapping that r had of it. */
  lemma DropCount(pt: map<Key, Word>, r: nat, f: nat)
    requires OnceOk(pt)
    ensures |Slots(Without(pt, r), f)| == |Slots(pt, f)| - (if Maps(pt, r, f) then 1 else 0)
  {
    if Maps(pt, r, f) {
      var v: Vpn :| (r, v) in pt && Node(pt[(r, v)]) == f;
      assert forall v': Vpn :: (r, v') in pt && Node(pt[(r, v')]) == f ==> v' == v;
      assert Slots(pt, f) == Slots(Without(pt, r), f) + {(r, v)};
    } else {
      forall key | key in Slots(pt, f) ensures key.0 != r {
        var (r', v) := key;
        assert r' == r ==> Maps(pt, r, f);
      }
      assert Slots(pt, f) == Slots(Without(pt, r), f);
    }
  }

  /** The counts after every page held by r has lost one holder. */
  ghost predicate Dropped(s: Vm, r: nat, share: seq<nat>, free: seq<nat>)
    requires |s.share| == |s.roles|
  {
    && |share| == |s.share|
    && (forall f: nat :: f < |share| ==> share[f] + (if HeldBy(s, r, f) then 1 else 0) == s.share[f])
    && NoDup(free)
    && (forall f :: f in free ==> f < |share|)
    && (forall f: nat :: f < |share| ==> (f in free <==> share[f] == 0))
  }

  ghost function DropRoles(s: Vm, share: seq<nat>): (roles: seq<Role>)
    requires |share| == |s.roles|
    ensures |roles| == |s.roles|
    ensures forall f: nat :: f < |roles| ==> roles[f] == if share[f] == 0 then Free else s.roles[f]
  {
    seq(|s.roles|, f requires 0 <= f < |s.roles| => if share[f] == 0 then Free else s.roles[f])
  }

  ghost function Drop(s: Vm, r: nat, share: seq<nat>, free: seq<nat>): Vm
    requires |share| == |s.roles|
  {
    s.(share := share, free := free, roles := DropRoles(s, share), pt := Without(s.pt, r))
  }

  lemma DropCountOk(s: Vm, r: nat, share: seq<nat>, free: seq<nat>)
    requires Owned(s.pt, s.share, s.free, s.roles)
    requires r < |s.roles| && s.roles[r] == Root && Dropped(s, r, share, free)
    ensures CountOk(Without(s.pt, r), share, DropRoles(s, share))
    ensures LeafOk(Without(s.pt, r), DropRoles(s, share))
  {
    hide CowOk, NoDup, Slots;
    var roles := DropRoles(s, share);
    var pt := Without(s.pt, r);
    forall f: nat | f < |roles| && roles[f] == Data ensures share[f] == |Slots(pt, f)| {
      DropCount(s.pt, r, f);
    }
    forall f: nat | f < |roles| && roles[f] != Data && roles[f] != Free ensures share[f] == 1 {
      assert s.roles[f] == roles[f];
    }
    forall key | key in pt ensures Points(pt[key], roles, Data) && UserPage(pt[key]) {
      assert Points(s.pt[key], s.roles, Data);
      DropCount(s.pt, r, Node(pt[key]));
      SlotIn(pt, key);
    }
  }

  lemma SlotIn(pt: map<Key, Word>, key: Key)
    requires key in pt
    ensures |Slots(pt, Node(pt[key]))| > 0
  {
    assert key in Slots(pt, Node(pt[key]));
  }

  lemma DropOwned(s: Vm, r: nat, share: seq<nat>, free: seq<nat>)
    requires Owned(s.pt, s.share, s.free, s.roles)
    requires r < |s.roles| && s.roles[r] == Root && Dropped(s, r, share, free)
    ensures Owned(Without(s.pt, r), share, free, DropRoles(s, share))
  {
    hide Slots;
    var pt := Without(s.pt, r);
    DropCountOk(s, r, share, free);
    assert FreeOk(share, free, DropRoles(s, share));
    forall key | key in pt && pt[key].w && 0 <= Node(pt[key]) < |share| ensures share[Node(pt[key])] == 1 {
      assert Points(s.pt[key], s.roles, Data);
      SoleMapping(s.pt, s.share, s.roles, key);
      assert !Maps(s.pt, r, Node(pt[key]));
    }
    hide CountOk;
    assert CowOk(pt, share);
    assert OnceOk(pt);
  }

  lemma DropTables(s: Vm, r: nat, share: seq<nat>, free: seq<nat>)
    requires Owned(s.pt, s.share, s.free, s.roles) && Dropped(s, r, share, free)
    ensures forall f: nat :: f < |s.roles| ==>
              if TableOf(s.roles[f], f, r) then !IsTable(DropRoles(s, share)[f])
              else if IsTable(s.roles[f]) then DropRoles(s, share)[f] == s.roles[f]
              else !IsTable(DropRoles(s, share)[f])
  {
    hide CowOk, OnceOk, Slots, NoDup;
    forall f: nat | f < |s.roles| && Maps(s.pt, r, f) ensures s.roles[f] == Data {
      var v: Vpn :| (r, v) in s.pt && Node(s.pt[(r, v)]) == f;
      assert Points(s.pt[(r, v)], s.roles, Data);
    }
  }

  /** After teardown of r the invariant holds and the other spaces read as before. */
  lemma DropInv(s: Vm, r: nat, share: seq<nat>, free: seq<nat>)
    requires Inv(s) && IsRoot(s, r) && Dropped(s, r, share, free)
    ensures Inv(Drop(s, r, share, free))
    ensures Contents(Drop(s, r, share, free)) == WithoutSpace(Contents(s), r)
  {
    hide RootDown, MidDown, LowDown, MidUp, LowUp, PtUp, LowAt, CountOk, CowOk, OnceOk;
    DropTables(s, r, share, free);
    DropOwned(s, r, share, free);
    hide Dropped;
    TreeDropRoot(s.ker, s.frames, s.roles, s.pt, r, DropRoles(s, share));
  }

  /** The pages the kernel holds for itself. */
  ghost function HeldPages(s: Vm): set<nat> { set f: nat | 0 <= f < |s.roles| && s.roles[f] == Held }

  ghost function Roots(s: Vm): set<nat> { set f: nat | 0 <= f < |s.roles| && s.roles[f] == Root }

  /** The numbers below n. */
  ghost function FirstN(n: nat): (q: set<nat>)
    ensures |q| == n && forall f: nat :: f in q <==> f < n
  {
    if n == 0 then {} else FirstN(n - 1) + {n - 1}
  }

  ghost function Elems(q: seq<nat>): set<nat> { set f | f in q }

  lemma CountNoDup(q: seq<nat>)
    requires NoDup(q)
    ensures |Elems(q)| == |q|
  {
    if q != [] {
      var rest := q[1..];
      assert forall a :: 0 <= a < |rest| ==> rest[a] == q[a + 1];
      assert q[0] !in Elems(rest);
      CountNoDup(rest);
      assert Elems(q) == Elems(rest) + {q[0]};
    }
  }

  lemma TablesHaveRoots(s: Vm)
    requires Inv(s)
    ensures forall f: nat :: f < |s.roles| && (s.roles[f].Mid? || s.roles[f].Low?) ==> s.roles[f].root in Roots(s)
  {
    hide RootDown, MidDown, LowDown, PtUp, LowAt, Owned;
  }

  /** When the last address space is gone, every page not held by the kernel is free again. */
  lemma AllFreed(s: Vm)
    requires Inv(s) && Roots(s) == {}
    ensures s.pt == map[]
    ensures |s.free| + |HeldPages(s)| == |s.frames|
  {
    hide RootDown, MidDown, LowDown, LowAt, CowOk, OnceOk;
    forall key | key in s.pt.Keys ensures key.0 in Roots(s) { Mapped(s, key.0, key.1); }
    assert s.pt.Keys == {};
    TablesHaveRoots(s);
    assert forall f: nat :: f < |s.roles| && s.roles[f] == Root ==> f in Roots(s);
    forall f: nat | f < |s.roles| ensures s.roles[f] != Data {
      assert Slots(s.pt, f) == {};
    }
    FreeAndHeld(s);
  }

  lemma FreeAndHeld(s: Vm)
    requires FreeOk(s.share, s.free, s.roles)
    requires forall f: nat :: f < |s.roles| ==> s.roles[f] == Free || s.roles[f] == Held
    ensures |s.free| + |HeldPages(s)| == |s.roles|
  {
    CountNoDup(s.free);
    hide NoDup;
    assert FirstN(|s.roles|) == Elems(s.free) + HeldPages(s);
    assert Elems(s.free) !! HeldPages(s);
  }

  lemma {:induction false} OneKeyPerRoot(keys: set<Key>, roots: set<nat>)
    requires forall key :: key in keys ==> key.0 in roots
    requires forall key, key' :: key in keys && key' in keys && key.0 == key'.0 ==> key == key'
    ensures |keys| <= |roots|
  {
    if keys != {} {
      var key :| key in keys;
      OneKeyPerRoot(keys - {key}, roots - {key.0});
    }
  }

  /** NUM_MAX_TASK address spaces at most: every share_num fits its eight bits. */
  lemma ShareBound(s: Vm, f: nat)
    requires Inv(s) && f < |s.roles|
    ensures |s.share| == |s.roles| && (s.share[f] <= 1 || s.share[f] <= |Roots(s)|)
  {
    hide RootDown, MidDown, LowDown, MidUp, LowUp, LowAt, CowOk;
    if s.roles[f] == Data {
      var keys := Slots(s.pt, f);
      forall key | key in keys ensures key.0 in Roots(s) { Mapped(s, key.0, key.1); }
      forall key, key' | key in keys && key' in keys && key.0 == key'.0 ensures key == key' {
        assert (key.0, key.1) in s.pt && (key'.0, key'.1) in s.pt;
      }
      OneKeyPerRoot(keys, Roots(s));
    }
  }
}
