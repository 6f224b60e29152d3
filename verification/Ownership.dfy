/**
  Who holds a pool page: share_num, the free list and the leaf entries
  (kernel/mm/mm.c, kernel/mm/mmirq.c).
 */
module Ownership {
  import opened Seqs
  import opened Sv39

  /** All leaf entries, of all address spaces, that map pool page p. */
  ghost function Slots(pt: map<Key, Word>, p: int): set<Key> {
    set key | key in pt && Node(pt[key]) == p
  }

  /** On the free list, once, iff free; the count is zero iff free. */
  ghost predicate FreeOk(share: seq<nat>, free: seq<nat>, roles: seq<Role>) {
    && |share| == |roles|
    && NoDup(free)
    && (forall f :: f in free ==> f < |roles|)
    && (forall f: nat :: f < |roles| ==> (roles[f] == Free <==> f in free))
    && (forall f: nat :: f < |roles| ==> (roles[f] == Free <==> share[f] == 0))
  }

  /** share_num counts the leaf entries of a data page, and is one for every other used page. */
  ghost predicate CountOk(pt: map<Key, Word>, share: seq<nat>, roles: seq<Role>)
    requires |share| == |roles|
  {
    && (forall f: nat :: f < |roles| && roles[f] == Data ==> share[f] == |Slots(pt, f)|)
    && (forall f: nat :: f < |roles| && roles[f] != Data && roles[f] != Free ==> share[f] == 1)
  }

  /** Leaf entries are present, of a program, not swapped out, and map data pages. */
  ghost predicate LeafOk(pt: map<Key, Word>, roles: seq<Role>) {
    forall key :: key in pt ==> Points(pt[key], roles, Data) && UserPage(pt[key])
  }

  /** A writable leaf entry is the only mapping of its page. */
  ghost predicate CowOk(pt: map<Key, Word>, share: seq<nat>) {
    forall key :: key in pt && pt[key].w && 0 <= Node(pt[key]) < |share| ==> share[Node(pt[key])] == 1
  }

  /** One address space maps a page at most once. */
  ghost predicate OnceOk(pt: map<Key, Word>) {
    forall r: nat, v: Vpn, v': Vpn ::
      (r, v) in pt && (r, v') in pt && Node(pt[(r, v)]) == Node(pt[(r, v')]) ==> v == v'
  }

  ghost predicate Owned(pt: map<Key, Word>, share: seq<nat>, free: seq<nat>, roles: seq<Role>) {
    && FreeOk(share, free, roles)
    && CountOk(pt, share, roles)
    && LeafOk(pt, roles)
    && CowOk(pt, share)
    && OnceOk(pt)
  }

  /** Taking the first free page: it becomes a held page with one holder. */
  lemma OwnedAlloc(pt: map<Key, Word>, share: seq<nat>, free: seq<nat>, roles: seq<Role>)
    requires Owned(pt, share, free, roles) && free != []
    ensures free[0] < |roles| && share[free[0]] == 0
    ensures Owned(pt, share[free[0] := 1], free[1..], roles[free[0] := Held])
  {
    var n := free[0];
    assert n in free;
    assert forall f :: f in free <==> f == n || f in free[1..];
  }

  /** A held page becomes a table page, or back. */
  lemma OwnedRole(pt: map<Key, Word>, share: seq<nat>, free: seq<nat>, roles: seq<Role>, n: nat, role: Role)
    requires Owned(pt, share, free, roles)
    requires n < |roles| && roles[n] == Held && role != Data && role != Free
    ensures Owned(pt, share, free, roles[n := role])
  {
  }

  /** freePage on a page with one holder. */
  lemma OwnedFree(pt: map<Key, Word>, share: seq<nat>, free: seq<nat>, roles: seq<Role>, n: nat)
    requires Owned(pt, share, free, roles)
    requires n < |roles| && roles[n] == Held
    ensures Owned(pt, share[n := 0], [n] + free, roles[n := Free])
  {
    assert forall f :: f in [n] + free <==> f == n || f in free;
  }

  /** Mapping a held page at an unmapped key. */
  lemma OwnedMap(pt: map<Key, Word>, share: seq<nat>, free: seq<nat>, roles: seq<Role>,
                 key: Key, n: nat, e: Word)
    requires Owned(pt, share, free, roles)
    requires n < |roles| && roles[n] == Held && key !in pt && e.v && UserPage(e) && Node(e) == n
    ensures Owned(pt[key := e], share, free, roles[n := Data])
  {
    var pt' := pt[key := e];
    assert Slots(pt', n) == {key};
    assert forall p: nat :: p < |roles| && p != n ==> Slots(pt', p) == Slots(pt, p);
  }

  lemma SameElement<T>(q: set<T>, a: T, b: T)
    requires |q| == 1 && a in q && b in q
    ensures a == b
  {
    assert |q - {a}| == 0;
    assert a != b ==> b in q - {a};
  }

  /** The only mapping of a page with share_num one. */
  lemma SoleMapping(pt: map<Key, Word>, share: seq<nat>, roles: seq<Role>, key: Key)
    requires |share| == |roles| && CountOk(pt, share, roles) && LeafOk(pt, roles)
    requires key in pt && share[Node(pt[key])] == 1
    ensures forall key' :: key' in pt && Node(pt[key']) == Node(pt[key]) ==> key' == key
  {
    var p := Node(pt[key]);
    assert Points(pt[key], roles, Data);
    forall key' | key' in pt && Node(pt[key']) == p ensures key' == key {
      SameElement(Slots(pt, p), key, key');
    }
  }

  /** One more, or one less, entry in one set of slots, the others unchanged. */
  lemma CountStep(pt: map<Key, Word>, share: seq<nat>, roles: seq<Role>,
                  pt': map<Key, Word>, share': seq<nat>, p: nat, key: Key, more: bool)
    requires |share| == |roles| && CountOk(pt, share, roles)
    requires p < |roles| && roles[p] == Data
    requires forall q: nat :: q < |roles| && q != p && roles[q] == Data ==> Slots(pt', q) == Slots(pt, q)
    requires more ==> key !in Slots(pt, p) && Slots(pt', p) == Slots(pt, p) + {key} && share' == share[p := share[p] + 1]
    requires !more ==> key !in Slots(pt', p) && Slots(pt, p) == Slots(pt', p) + {key}
                       && share[p] > 0 && share' == share[p := share[p] - 1]
    ensures CountOk(pt', share', roles)
  {
  }

  lemma CountShare(pt: map<Key, Word>, share: seq<nat>, free: seq<nat>, roles: seq<Role>, src: Key, dst: Key)
    requires Owned(pt, share, free, roles)
    requires src in pt && dst !in pt
    ensures var p := Node(pt[src]); var e := pt[src].(w := false);
            0 <= p < |share| && CountOk(pt[src := e][dst := e], share[p := share[p] + 1], roles)
  {
    var p := Node(pt[src]);
    var e := pt[src].(w := false);
    var pt' := pt[src := e][dst := e];
    assert Points(pt[src], roles, Data);
    assert Slots(pt', p) == Slots(pt, p) + {dst};
    assert forall q: nat :: q < |roles| && q != p ==> Slots(pt', q) == Slots(pt, q);
    CountStep(pt, share, roles, pt', share[p := share[p] + 1], p, dst, true);
  }

  /** The entries after sharing the page of src with dst. */
  ghost function Shared(pt: map<Key, Word>, src: Key, dst: Key): map<Key, Word>
    requires src in pt
  {
    pt[src := pt[src].(w := false)][dst := pt[src].(w := false)]
  }

  lemma LeafShare(pt: map<Key, Word>, roles: seq<Role>, src: Key, dst: Key)
    requires LeafOk(pt, roles) && src in pt
    ensures LeafOk(Shared(pt, src, dst), roles)
  {
    assert Points(pt[src], roles, Data) && UserPage(pt[src]);
  }

  lemma CowShare(pt: map<Key, Word>, share: seq<nat>, roles: seq<Role>, src: Key, dst: Key)
    requires CowOk(pt, share) && LeafOk(pt, roles) && |share| == |roles| && CountOk(pt, share, roles)
    requires src in pt && dst !in pt && 0 <= Node(pt[src]) < |share|
    ensures CowOk(Shared(pt, src, dst), share[Node(pt[src]) := share[Node(pt[src])] + 1])
  {
    assert Points(pt[src], roles, Data);
    var p := Node(pt[src]);
    if share[p] == 1 { SoleMapping(pt, share, roles, src); }
    hide CountOk, LeafOk;
    assert forall key :: key in pt && Node(pt[key]) == p && key != src ==> !pt[key].w || share[p] != 1;
  }

  lemma OnceShare(pt: map<Key, Word>, src: Key, dst: Key)
    requires OnceOk(pt) && src in pt && dst !in pt && src.0 != dst.0
    requires forall v: Vpn :: (dst.0, v) in pt ==> Node(pt[(dst.0, v)]) != Node(pt[src])
    ensures OnceOk(Shared(pt, src, dst))
  {
  }

  /** Sharing the page of src with dst: both entries lose W, one more holder. */
  lemma OwnedShare(pt: map<Key, Word>, share: seq<nat>, free: seq<nat>, roles: seq<Role>, src: Key, dst: Key)
    requires Owned(pt, share, free, roles)
    requires src in pt && dst !in pt && src.0 != dst.0
    requires forall v: Vpn :: (dst.0, v) in pt ==> Node(pt[(dst.0, v)]) != Node(pt[src])
    ensures var p := Node(pt[src]); var e := pt[src].(w := false);
            0 <= p < |share| &&
            Owned(pt[src := e][dst := e], share[p := share[p] + 1], free, roles)
  {
    var p := Node(pt[src]);
    assert Points(pt[src], roles, Data);
    CountShare(pt, share, free, roles, src, dst);
    LeafShare(pt, roles, src, dst);
    CowShare(pt, share, roles, src, dst);
    OnceShare(pt, src, dst);
    assert FreeOk(share[p := share[p] + 1], free, roles);
    hide CountOk, Slots, LeafOk, CowOk, OnceOk, FreeOk;
  }

  /** Changing attribute bits only. */
  lemma OwnedFlags(pt: map<Key, Word>, share: seq<nat>, free: seq<nat>, roles: seq<Role>, key: Key, e: Word)
    requires Owned(pt, share, free, roles)
    requires key in pt && e.v && UserPage(e) && e.pfn == pt[key].pfn
    requires e.w ==> pt[key].w || (0 <= Node(e) < |share| && share[Node(e)] == 1)
    ensures Owned(pt[key := e], share, free, roles)
  {
    var pt' := pt[key := e];
    assert forall q: int :: Slots(pt', q) == Slots(pt, q);
  }

  lemma CountSplit(pt: map<Key, Word>, share: seq<nat>, free: seq<nat>, roles: seq<Role>,
                   key: Key, n: nat, e: Word)
    requires Owned(pt, share, free, roles)
    requires key in pt && n < |roles| && roles[n] == Held && e.v && UserPage(e) && Node(e) == n
    requires 0 <= Node(pt[key]) < |share| && share[Node(pt[key])] > 1
    ensures var p := Node(pt[key]);
            CountOk(pt[key := e], share[p := share[p] - 1], roles[n := Data])
  {
    var p := Node(pt[key]);
    var pt' := pt[key := e];
    assert Points(pt[key], roles, Data);
    assert Slots(pt, p) == Slots(pt', p) + {key};
    assert forall q: nat :: q < |roles| && q != p && q != n ==> Slots(pt', q) == Slots(pt, q);
    CountStep(pt, share, roles, pt', share[p := share[p] - 1], p, key, false);
    assert Slots(pt', n) == {key};
  }

  /** Splitting a shared page: key moves to a private copy, the old page loses one holder. */
  lemma OwnedSplit(pt: map<Key, Word>, share: seq<nat>, free: seq<nat>, roles: seq<Role>,
                   key: Key, n: nat, e: Word)
    requires Owned(pt, share, free, roles)
    requires key in pt && n < |roles| && roles[n] == Held && e.v && UserPage(e) && Node(e) == n
    requires 0 <= Node(pt[key]) < |share| && share[Node(pt[key])] > 1
    ensures var p := Node(pt[key]);
            Owned(pt[key := e], share[p := share[p] - 1], free, roles[n := Data])
  {
    var p := Node(pt[key]);
    var pt' := pt[key := e];
    var share' := share[p := share[p] - 1];
    assert Points(pt[key], roles, Data);
    CountSplit(pt, share, free, roles, key, n, e);
    assert share[n] == 1;
    hide CountOk;
    hide Slots;
    assert FreeOk(share', free, roles[n := Data]);
    assert LeafOk(pt', roles[n := Data]);
    assert CowOk(pt', share');
    assert OnceOk(pt');
  }

  lemma CountUnmap(pt: map<Key, Word>, share: seq<nat>, free: seq<nat>, roles: seq<Role>, key: Key)
    requires Owned(pt, share, free, roles)
    requires key in pt
    ensures var p := Node(pt[key]);
            0 <= p < |share| && share[p] > 0 && CountOk(pt - {key}, share[p := share[p] - 1], roles)
  {
    var p := Node(pt[key]);
    var pt' := pt - {key};
    assert Points(pt[key], roles, Data);
    assert Slots(pt, p) == Slots(pt', p) + {key};
    assert forall q: nat :: q < |roles| && q != p ==> Slots(pt', q) == Slots(pt, q);
    CountStep(pt, share, roles, pt', share[p := share[p] - 1], p, key, false);
  }

  /** Unmapping key: its page loses one holder and is freed with the last one. */
  lemma OwnedUnmap(pt: map<Key, Word>, share: seq<nat>, free: seq<nat>, roles: seq<Role>, key: Key)
    requires Owned(pt, share, free, roles)
    requires key in pt
    ensures var p := Node(pt[key]);
            0 <= p < |share| && share[p] > 0 &&
            Owned(pt - {key}, share[p := share[p] - 1],
                  if share[p] == 1 then [p] + free else free,
                  if share[p] == 1 then roles[p := Free] else roles)
  {
    var p := Node(pt[key]);
    var pt' := pt - {key};
    var share' := share[p := share[p] - 1];
    assert Points(pt[key], roles, Data);
    CountUnmap(pt, share, free, roles, key);
    if share[p] == 1 {
      SoleMapping(pt, share, roles, key);
      assert CountOk(pt', share', roles[p := Free]);
      assert forall f :: f in [p] + free <==> f == p || f in free;
      assert FreeOk(share', [p] + free, roles[p := Free]);
      assert LeafOk(pt', roles[p := Free]);
    }
    hide CountOk;
    hide Slots;
    assert CowOk(pt', share');
    assert OnceOk(pt');
  }
}
