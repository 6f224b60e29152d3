/**
  Page faults and user memory accesses (kernel/mm/mmirq.c, check_W_SD_and_set_AD in
  kernel/mm/mm.c, the fault handlers of kernel/irq/irq.c), for status_ctx == 0.
 */
module Fault {
  import opened Sv39
  import opened Pool
  import opened Mm

  /** What check_W_SD_and_set_AD reports; Nothing is its -1. */
  datatype Code = NoAlloc | AllocNoAd | InSd | InSdNoW | NoW | Nothing

  /** What check_W_SD_and_set_AD does with a leaf entry, once both table levels are there. */
  function CheckEntry(e: Word, store: bool): (Code, Word) {
    if e.sd then
      if !e.w && store then (InSdNoW, e.(v := true, a := true, d := true))
      else (InSd, e.(v := true, a := true, d := e.d || store))
    else if e.v then
      if !e.w && store then (NoW, e.(a := true, d := true))
      else if (!store && e.a) || (store && (e.a || e.d)) then (Nothing, e)
      else (AllocNoAd, e.(a := true, d := e.d || store))
    else (NoAlloc, e)
  }

  /**
    The entry after the store-fault handler has dealt with a resident page, or with a page that
    was missing (e == Zero) and is now mapped to frame pfn.
   */
  function AfterStoreFault(e: Word, pfn: nat): Word {
    var (code, e') := CheckEntry(e, true);
    if code == NoAlloc then UserLeaf(0).(pfn := pfn)
    else if code == NoW then e'.(w := true, d := true, pfn := pfn)
    else e'
  }

  /** The bits that the fault handlers leave alone: present, read, execute, user, and the frame of a resident page. */
  predicate SamePermissions(e: Word, e': Word) {
    e'.v == e.v && e'.r == e.r && e'.x == e.x && e'.u == e.u && e'.g == e.g && e'.soft == e.soft && e'.sd == e.sd
  }

  /** A load fault makes the load possible exactly when the page is mapped, and changes A alone. */
  lemma LoadFaultProgress(e: Word)
    requires e.v ==> UserPage(e)
    ensures !e.sd ==> (Admits(CheckEntry(e, false).1, LoadAccess) <==> e.v)
    ensures !e.sd ==> CheckEntry(e, false).1 == e.(a := e.a || e.v)
    ensures !e.sd && !e.v ==> CheckEntry(e, false).0 == NoAlloc
  {
  }

  /**
    On hardware that traps on a clear A or D bit, one store fault makes the store possible
    exactly when the page is mapped and its entry is not already writable with one of the two
    bits set; a missing page takes a second fault.  The page keeps its other permissions.
   */
  lemma StoreFaultProgress(e: Word, pfn: nat, pfn': nat)
    requires !e.sd && (e.v ==> UserPage(e)) && !Admits(e, StoreAccess)
    ensures Admits(AfterStoreFault(e, pfn), StoreAccess) <==> e.v && !(e.w && (e.a || e.d))
    ensures !e.v ==> Admits(AfterStoreFault(AfterStoreFault(e, pfn), pfn'), StoreAccess)
    ensures e.v ==> SamePermissions(e, AfterStoreFault(e, pfn)) && AfterStoreFault(e, pfn).w
    ensures e.v && e.w ==> AfterStoreFault(e, pfn).pfn == e.pfn
  {
  }

  /** The failing case is reached by loading from a fresh page first, and is then permanent. */
  lemma LoadThenStoreStuck(n: nat, pfn: nat)
    ensures var e := CheckEntry(UserLeaf(n), false).1;
            !Admits(e, StoreAccess) && AfterStoreFault(e, pfn) == e
  {
  }

  /** The two table levels of check_W_SD_and_set_AD: set A on both; -1 when one is missing. */
  method TouchTables(m: Memory, r: nat, v: Vpn) returns (third: int)
    requires m.Valid() && IsRoot(m.View(), r) && User(m.ker, v)
    modifies m`frames
    ensures m.Valid() && m.Spaces() == old(m.Spaces())
    ensures third < 0 ==> (r, v) !in m.pt
    ensures third >= 0 ==> third < |m.roles| && m.roles[third] == Low(r, v.i, v.j)
    ensures r < |m.frames| == |old(m.frames)| && |m.frames[r]| == |old(m.frames[r])| == ENTRIES
    ensures old(m.frames[r][v.i]).v ==> m.frames[r][v.i] == old(m.frames[r][v.i]).(a := true)
    ensures third >= 0 ==>
              var second := Node(m.frames[r][v.i]);
              0 <= second < |m.frames| && v.j < |m.frames[second]| && m.frames[second][v.j].a && Node(m.frames[second][v.j]) == third
  {
    hide Inv, Contents;
    RootEntries(m.View(), r, v.i);
    if !m.frames[r][v.i].v {
      return -1;
    }
    TouchInv(m.View(), r, v.i);
    m.frames := m.frames[r := m.frames[r][v.i := m.frames[r][v.i].(a := true)]];
    RootEntries(m.View(), r, v.i);
    var second := Node(m.frames[r][v.i]);
    MidEntries(m.View(), r, v.i, v.j, second);
    if !m.frames[second][v.j].v {
      return -1;
    }
    TouchInv(m.View(), second, v.j);
    m.frames := m.frames[second := m.frames[second][v.j := m.frames[second][v.j].(a := true)]];
    MidEntries(m.View(), r, v.i, v.j, second);
    third := Node(m.frames[second][v.j]);
  }

  /**
    check_W_SD_and_set_AD: classify the fault and set A (and D for a store) on the way.
    Nothing that the address spaces read changes.
   */
  method CheckWSdAndSetAd(m: Memory, r: nat, v: Vpn, store: bool) returns (code: Code)
    requires m.Valid() && IsRoot(m.View(), r) && User(m.ker, v)
    modifies m`frames, m`pt
    ensures m.Valid() && m.Spaces() == old(m.Spaces())
    ensures (r, v) !in old(m.pt) ==> code == NoAlloc && m.pt == old(m.pt)
    ensures (r, v) in old(m.pt) ==>
              && m.pt == old(m.pt)[(r, v) := CheckEntry(old(m.pt[(r, v)]), store).1]
              && code == CheckEntry(old(m.pt[(r, v)]), store).0
    ensures (r, v) in old(m.pt) ==>
              var e := old(m.pt[(r, v)]);
              && (code == NoW <==> store && !e.w)
              && (code == Nothing <==> if store then e.w && (e.a || e.d) else e.a)
              && code in {NoW, Nothing, AllocNoAd}
              && m.pt == old(m.pt)[(r, v) := if code == Nothing then e else e.(a := true, d := e.d || store)]
  {
    hide Inv, Contents, LowAt;
    var third := TouchTables(m, r, v);
    if third < 0 {
      return NoAlloc;
    }
    LowEntries(m.View(), r, v, third);
    var e := m.frames[third][v.k];
    if (r, v) in m.pt {
      Mapped(m.View(), r, v);
      FlagsInv(m.View(), r, v, CheckEntry(e, store).1);
    }
    if e.sd {
      assert false;
    } else if e.v {
      if !e.w && store {
        code, e := NoW, e.(a := true, d := true);
      } else if (!store && e.a) || (store && (e.a || e.d)) {
        return Nothing;
      } else {
        code, e := AllocNoAd, e.(a := true, d := e.d || store);
      }
      m.frames := m.frames[third := m.frames[third][v.k := e]];
      m.pt := m.pt[(r, v) := e];
    } else {
      code := NoAlloc;
    }
  }

  lemma LowAtFill(s: Vm, p: nat, c: Frame, r: nat, v: Vpn)
    requires Inv(s) && p < |s.roles| && !IsTable(s.roles[p]) && |c| == ENTRIES
    requires IsRoot(s, r) && |s.ker| == ENTRIES && User(s.ker, v)
    ensures p < |s.frames| && r < |s.frames| && Shape(s.ker, s.frames, s.roles)
    ensures LowAt(Fill(s, p, c).frames, r, v) == LowAt(s.frames, r, v) != p
  {
    hide MidUp, LowUp, PtUp, LowDown, Ownership.Owned;
    LowAtRole(s.ker, s.frames, s.roles, s.pt, r, v);
  }

  /** A held page, filled, is read by nobody. */
  lemma FillHeld(s: Vm, p: nat, c: Frame)
    requires Inv(s) && p < |s.roles| && s.roles[p] == Held && |c| == ENTRIES
    ensures p < |s.frames| && Inv(Fill(s, p, c)) && Contents(Fill(s, p, c)) == Contents(s)
  {
    hide RootDown, MidDown, LowDown, MidUp, LowUp, PtUp, Ownership.CountOk, Ownership.CowOk, Ownership.OnceOk;
    FillInv(s, p, c);
  }

  /** The held page n gets the contents of the page of (r, v), and (r, v) moves there. */
  lemma CopyLeaf(s: Vm, r: nat, v: Vpn, n: nat, e: Word)
    requires Inv(s) && (r, v) in s.pt && n < |s.roles| && s.roles[n] == Held && e.v && UserPage(e) && Node(e) == n
    requires 0 <= Node(s.pt[(r, v)]) < |s.share| && s.share[Node(s.pt[(r, v)])] > 1
    ensures Node(s.pt[(r, v)]) < |s.frames| == |s.roles| && r < |s.frames| && Shape(s.ker, s.frames, s.roles) && InRange(v)
    ensures var t := Fill(s, n, s.frames[Node(s.pt[(r, v)])]);
            && Shape(t.ker, t.frames, t.roles) && LowAt(t.frames, r, v) == LowAt(s.frames, r, v) >= 0
            && LowAt(s.frames, r, v) != n
            && Inv(SplitLeaf(t, r, v, n, e)) && Contents(SplitLeaf(t, r, v, n, e)) == Contents(s)
  {
    hide Inv, Contents, LowAt;
    Mapped(s, r, v);
    ShapeOf(s);
    ContentsAt(s, (r, v));
    var c := s.frames[Node(s.pt[(r, v)])];
    FillHeld(s, n, c);
    LowAtFill(s, n, c, r, v);
    var t := Fill(s, n, c);
    ShapeOf(t);
    SplitLeafInv(t, r, v, n, e);
    assert Contents(s)[(r, v) := c] == Contents(s);
  }

  /** The shared page is copied to the page n, and the entry of (r, v), whose task has been asleep, moves there. */
  method MoveLeaf(m: Memory, r: nat, v: Vpn, third: nat, n: nat)
    requires m.Valid() && (r, v) in m.pt && n < |m.roles| && m.roles[n] == Held
    requires 0 <= Node(m.pt[(r, v)]) < |m.lag| && m.lag[Node(m.pt[(r, v)])] > 0
    requires IsRoot(m.View(), r) && User(m.ker, v) && r < |m.frames| && LowAt(m.frames, r, v) == third
    requires third < |m.frames| && v.k < |m.frames[third]| && m.frames[third][v.k] == m.pt[(r, v)]
    modifies m`frames, m`pt, m`roles, m`lag
    ensures m.Valid() && m.Spaces() == old(m.Spaces()) && m.roles == old(m.roles)[n := Data]
    ensures m.lag == old(m.lag)[Node(old(m.pt[(r, v)])) := old(m.lag)[Node(old(m.pt[(r, v)]))] - 1]
    ensures m.pt == old(m.pt)[(r, v) := old(m.pt[(r, v)]).(pfn := n + FREEMEM_PFN, w := true, d := true)]
  {
    hide Inv, Contents, LowAt, Plus;
    ghost var s := m.View();
    var e := m.frames[third][v.k];
    var e' := e.(pfn := n + FREEMEM_PFN, w := true, d := true);
    ghost var shared := Node(e);
    Mapped(s, r, v);
    LagBelow(s, shared);
    CopyLeaf(s, r, v, n, e');
    PlusLag(m.share, m.lag, shared, -1);
    m.frames := m.frames[n := m.frames[Node(e)]];
    m.frames := m.frames[third := m.frames[third][v.k := e']];
    m.pt := m.pt[(r, v) := e'];
    m.roles := m.roles[n := Data];
    m.lag := m.lag[shared := m.lag[shared] - 1];
    ghost var t := SplitLeaf(Fill(s, n, s.frames[shared]), r, v, n, e');
    InvLag(t, m.lag);
    assert m.View() == t.(lag := m.lag);
    LagLess(s, m.View(), shared);
  }

  /**
    The copying half of deal_no_W, after share_sub, also when it has slept in between: (r, v) moves to a
    private copy of its page.
   */
  method SplitPage(m: Memory, r: nat, v: Vpn, third: nat)
    requires m.Valid() && (r, v) in m.pt && m.free != []
    requires 0 <= Node(m.pt[(r, v)]) < |m.lag| && m.lag[Node(m.pt[(r, v)])] > 0
    requires IsRoot(m.View(), r) && User(m.ker, v) && r < |m.frames| && LowAt(m.frames, r, v) == third
    requires third < |m.frames| && v.k < |m.frames[third]| && m.frames[third][v.k] == m.pt[(r, v)]
    modifies m
    ensures m.Valid() && m.Spaces() == old(m.Spaces()) && Grows(old(m.View()), m.View().(lag := old(m.lag)), {})
    ensures m.free == old(m.free)[1..]
    ensures var p := Node(old(m.pt[(r, v)])); m.lag == old(m.lag)[p := old(m.lag)[p] - 1]
    ensures m.pt == old(m.pt)[(r, v) := old(m.pt[(r, v)]).(pfn := old(m.free)[0] + FREEMEM_PFN, w := true, d := true)]
  {
    hide Inv, Contents, LowAt;
    ghost var s := m.View();
    AllocLowAt(s, r, v);
    Mapped(s, r, v);
    ShapeOf(s);
    var n := m.AllocPage();
    MoveLeaf(m, r, v, third, n);
  }

  lemma LagBelow(s: Vm, p: nat)
    requires LagOk(s) && p < |s.lag| && s.lag[p] > 0
    ensures |s.share| == |s.lag| && s.lag[p] < s.share[p]
  {
  }

  /** One sleeper less, and one holder less. */
  lemma LagLess(s: Vm, s': Vm, p: nat)
    requires LagOk(s) && p < |s.lag| && s.lag[p] > 0 && s.share[p] > 0
    requires s'.lag == s.lag[p := s.lag[p] - 1] && s'.share == s.share[p := s.share[p] - 1]
    ensures LagOk(s')
  {
  }

  /** A store to page (r, v) has to copy the page, and no page is free: the guard of the sleep in deal_no_W. */
  ghost predicate NeedsCopy(s: Vm, key: Key) {
    && key in s.pt && !s.pt[key].w && 0 <= Node(s.pt[key]) < |s.share| == |s.lag|
    && s.share[Node(s.pt[key])] != s.lag[Node(s.pt[key])] + 1 && s.free == []
  }

  /** A store to page (r, v) takes over a page for which other holders sleep in deal_no_W. */
  ghost predicate TakesOver(s: Vm, key: Key) { Contested(s, key) && !s.pt[key].w }

  /** share_num of the page behind key is one. */
  ghost predicate Sole(s: Vm, key: Key) {
    && key in s.pt && 0 <= Node(s.pt[key]) < |s.share| == |s.lag|
    && s.share[Node(s.pt[key])] == s.lag[Node(s.pt[key])] + 1
  }

  /** One more task sleeps in deal_no_W for page p. */
  ghost function Stalled(s: Vm, p: nat): Vm
    requires p < |s.lag|
  {
    s.(lag := s.lag[p := s.lag[p] + 1])
  }

  /** The page behind key has the same number and contents in both states. */
  ghost predicate SamePage(s: Vm, s': Vm, key: Key) {
    && key in s.pt && key in s'.pt && s'.pt[key].pfn == s.pt[key].pfn
    && 0 <= Node(s.pt[key]) < |s.frames| == |s'.frames|
    && s'.frames[Node(s.pt[key])] == s.frames[Node(s.pt[key])]
  }

  /** share_sub of a page that the caller goes on mapping until it has its copy. */
  method ShareSub(m: Memory, p: nat)
    requires m.Valid() && p < |m.share| && m.share[p] > 1
    modifies m`share, m`lag
    ensures m.Valid() && p < |old(m.lag)| && m.View() == Stalled(old(m.View()), p) && m.Spaces() == old(m.Spaces())
    ensures m.share == old(m.share)[p := old(m.share)[p] - 1] && !m.Exact()
  {
    hide Inv, Contents;
    ghost var s := m.View();
    PlusSet(m.share, m.lag, p, -1);
    m.share := m.share[p := m.share[p] - 1];
    PlusLag(m.share, m.lag, p, 1);
    m.lag := m.lag[p := m.lag[p] + 1];
    assert m.View() == Stalled(s, p);
    InvLag(s, m.lag);
    ExactIff(m);
  }

  /**
    deal_no_W: take the page over when its count is one, else lower the count and move to a private
    copy.  ok is false when no page is free for the copy; the kernel then sleeps in allocPage with the
    count already lowered.  The page that is taken over may have other holders that sleep here.
   */
  method DealNoW(m: Memory, r: nat, v: Vpn) returns (ok: bool)
    requires m.Valid() && (r, v) in m.pt && !m.pt[(r, v)].w
    modifies m
    ensures m.Valid() <==> !TakesOver(old(m.View()), (r, v))
    ensures !m.Valid() ==> Lost(m.View()) && m.lag == old(m.lag)
    ensures !ok <==> NeedsCopy(old(m.View()), (r, v))
    ensures ok && m.Valid() ==> m.Spaces() == old(m.Spaces()) && Grows(old(m.View()), m.View(), {})
    ensures ok ==> (r, v) in m.pt && m.pt == old(m.pt)[(r, v) := m.pt[(r, v)]]
    ensures ok ==> m.pt[(r, v)] == old(m.pt[(r, v)]).(w := true, d := m.pt[(r, v)].d, pfn := m.pt[(r, v)].pfn)
    ensures ok ==> m.pt[(r, v)].d || (!old(m.pt[(r, v)]).d && Sole(old(m.View()), (r, v)))
    ensures Sole(old(m.View()), (r, v)) ==> SamePage(old(m.View()), m.View(), (r, v))
    ensures ok && !Sole(old(m.View()), (r, v)) ==>
              old(m.free) != [] && m.pt[(r, v)].pfn == old(m.free)[0] + FREEMEM_PFN
    ensures !ok ==> 0 <= Node(old(m.pt[(r, v)])) < |old(m.lag)|
    ensures !ok ==> m.View() == Stalled(old(m.View()), Node(old(m.pt[(r, v)])))
  {
    hide Inv, Contents, LowAt;
    ghost var s := m.View();
    Mapped(s, r, v);
    var third := m.GetPte(r, v);
    var e := m.frames[third][v.k];
    ghost var p := Node(e);
    if m.share[Node(e)] == 1 {
      ShapeOf(s);
      PutLeafKeeps(s, r, v, e.(w := true));
      m.frames := m.frames[third := m.frames[third][v.k := e.(w := true)]];
      m.pt := m.pt[(r, v) := e.(w := true)];
      if m.lag[p] == 0 {
        FlagsInv(s, r, v, e.(w := true));
      } else {
        ghost var other := OtherHolder(s, (r, v));
        WriterLost(m.View(), other, (r, v));
        LostNow(m.View());
      }
      return true;
    }
    ShareSub(m, Node(e));
    if m.free == [] {
      return false;
    }
    SplitPage(m, r, v, third);
    assert m.lag == s.lag;
    ok := true;
  }

  /** A page that is touched for the first time reads as zeros. */
  ghost function Present(c: map<Key, Frame>, key: Key): map<Key, Frame> {
    if key in c then c else c[key := ZeroFrame()]
  }

  ghost function EntryOf(pt: map<Key, Word>, key: Key): Word { if key in pt then pt[key] else Zero }

  /** What a sleep in deal_no_W for the page of key leaves: one more sleeper on an entry that is still read-only. */
  ghost predicate Waits(s: Vm, s': Vm, key: Key) {
    && key in s.pt && key in s'.pt && !s'.pt[key].w && s'.pt[key].pfn == s.pt[key].pfn
    && 0 <= Node(s.pt[key]) < |s.lag| && s'.lag == s.lag[Node(s.pt[key]) := s.lag[Node(s.pt[key])] + 1]
    && s'.ker == s.ker && s'.roles == s.roles && s'.share == s.share && s'.free == s.free
  }

  lemma OneKept(pt: map<Key, Word>, pt': map<Key, Word>, r: nat, v: Vpn)
    requires pt' == pt || ((r, v) in pt' && pt' == pt[(r, v) := pt'[(r, v)]])
    ensures KeptOutside(pt, pt', {r})
  {
  }

  /** The fault handler sets A and D first; what deal_no_W will do does not depend on them. */
  lemma FlagsKeepGuards(s: Vm, s': Vm, key: Key)
    requires key in s.pt && key in s'.pt && s'.pt[key].pfn == s.pt[key].pfn && s'.pt[key].w == s.pt[key].w
    requires s'.share == s.share && s'.lag == s.lag && s'.free == s.free
    ensures TakesOver(s', key) == TakesOver(s, key) && NeedsCopy(s', key) == NeedsCopy(s, key) && Sole(s', key) == Sole(s, key)
  {
  }

  lemma FlagsKeepPage(s: Vm, s': Vm, key: Key)
    requires Inv(s) && Inv(s') && key in s.pt && key in s'.pt && s'.pt[key].pfn == s.pt[key].pfn
    requires Contents(s') == Contents(s) && |s'.frames| == |s.frames|
    ensures SamePage(s, s', key)
  {
    hide Inv, Contents;
    ContentsAt(s, key);
    ContentsAt(s', key);
  }

  /** A and D have been set in the entry of key, in state s. */
  ghost predicate Flagged(s: Vm, s': Vm, key: Key) {
    && key in s.pt && s'.pt == s.pt[key := s.pt[key].(a := true, d := true)]
    && s' == s.(frames := s'.frames, pt := s'.pt) && |s'.frames| == |s.frames|
  }

  /** deal_no_W in the fault of a store to a page that was mapped read-only in state s. */
  method NoWFault(m: Memory, r: nat, v: Vpn, ghost s: Vm) returns (ok: bool)
    requires m.Valid() && Inv(s) && Flagged(s, m.View(), (r, v)) && !s.pt[(r, v)].w && m.Spaces() == Contents(s)
    modifies m
    ensures m.Valid() <==> !TakesOver(s, (r, v))
    ensures !m.Valid() ==> Lost(m.View()) && m.lag == s.lag
    ensures !ok <==> NeedsCopy(s, (r, v))
    ensures KeptOutside(s.pt, m.pt, {r})
    ensures ok && m.Valid() ==> m.Spaces() == Contents(s) && Grows(s, m.View(), {})
    ensures ok ==> (r, v) in m.pt && m.pt[(r, v)].w
    ensures ok ==> m.pt[(r, v)] == AfterStoreFault(s.pt[(r, v)], m.pt[(r, v)].pfn)
    ensures !ok ==> m.Spaces() == Contents(s) && Waits(s, m.View(), (r, v))
    ensures Sole(s, (r, v)) ==> SamePage(s, m.View(), (r, v))
  {
    hide Inv, Contents, AfterStoreFault, Lost, KeptOutside, TakesOver, NeedsCopy, Sole;
    ghost var s1 := m.View();
    Mapped(s, r, v);
    FlagsKeepGuards(s, s1, (r, v));
    FlagsKeepPage(s, s1, (r, v));
    OneKept(s.pt, s1.pt, r, v);
    ok := DealNoW(m, r, v);
    if ok {
      OneKept(s1.pt, m.pt, r, v);
      AfterNoW(s.pt[(r, v)], m.pt[(r, v)].pfn);
    } else {
      OneKept(s1.pt, m.pt, r, v);
      InvLag(s1, m.lag);
    }
    KeptTrans(s.pt, s1.pt, m.pt, {r}, {r});
  }

  /**
    handle_page_fault_store.  Afterwards the page is there and writable, and all spaces read as before
    except that a missing page now reads as zeros.  ok is false when the kernel has to sleep for a free
    page.  The invariant fails exactly when the page is taken over from holders that sleep in deal_no_W,
    and the kernel's counts stop being exact exactly when the fault itself sleeps there.
   */
  method HandleStoreFault(m: Memory, r: nat, v: Vpn) returns (ok: bool)
    requires m.Valid() && IsRoot(m.View(), r) && User(m.ker, v)
    modifies m
    ensures m.Valid() <==> !TakesOver(old(m.View()), (r, v))
    ensures !m.Valid() ==> ok && Lost(m.View()) && m.lag == old(m.lag)
    ensures KeptOutside(old(m.pt), m.pt, {r})
    ensures (r, v) in old(m.pt) ==> (!ok <==> NeedsCopy(old(m.View()), (r, v)))
    ensures old(m.Exact()) ==> (m.Exact() <==> !NeedsCopy(old(m.View()), (r, v)))
    ensures m.Valid() && (ok || (r, v) !in old(m.pt)) ==> Grows(old(m.View()), m.View(), {})
    ensures ok ==> (r, v) in m.pt && m.pt[(r, v)].w
    ensures ok ==> m.pt[(r, v)] == AfterStoreFault(EntryOf(old(m.pt), (r, v)), m.pt[(r, v)].pfn)
    ensures m.Valid() && ok ==> m.Spaces() == Present(old(m.Spaces()), (r, v))
    ensures !ok ==> m.Valid() && m.free == [] && |old(m.free)| < 3 && m.Spaces() == old(m.Spaces())
    ensures !ok && (r, v) in old(m.pt) ==> Waits(old(m.View()), m.View(), (r, v))
    ensures Sole(old(m.View()), (r, v)) ==> SamePage(old(m.View()), m.View(), (r, v))
  {
    hide Inv, Contents, CheckEntry, AfterStoreFault, Lost, KeptOutside, TakesOver, NeedsCopy, Sole;
    SpaceKeys(m.View());
    ghost var s := m.View();
    ghost var e := EntryOf(m.pt, (r, v));
    assert m.share == Raw(s);
    ShapeOf(s);
    Unguarded(s, (r, v));
    if (r, v) in m.pt { Mapped(s, r, v); StoreKinds(e); }
    var code := CheckWSdAndSetAd(m, r, v, true);
    ghost var s1 := m.View();
    ShapeOf(s1);
    if code == NoW {
      ok := NoWFault(m, r, v, s);
    } else if code == NoAlloc {
      var n;
      ok, n := m.AllocPageHelper(r, v);
      OneKept(s.pt, m.pt, r, v);
      AfterMissing(n);
    } else {
      ok := true;
      OneKept(s.pt, m.pt, r, v);
      FlagsKeepPage(s, s1, (r, v));
    }
    StillExact(s, m, (r, v));
  }

  /** share_num stays exact unless a task falls asleep in deal_no_W. */
  lemma StillExact(s: Vm, m: Memory, key: Key)
    requires Inv(s) && LagOk(s) && (!m.Valid() ==> TakesOver(s, key))
    requires m.Valid() ==> if NeedsCopy(s, key) then Waits(s, m.View(), key) else m.lag == s.lag
    ensures Inv(s.(share := Raw(s))) ==> (m.Exact() <==> !NeedsCopy(s, key))
  {
    hide Inv;
    if f: nat :| f < |s.lag| && s.lag[f] > 0 {
      LagBreaks(s, f);
    } else if m.Valid() {
      ExactIff(m);
    }
  }

  /** The guards of deal_no_W speak of read-only pages. */
  lemma Unguarded(s: Vm, key: Key)
    ensures key !in s.pt ==> !TakesOver(s, key) && !Sole(s, key) && !NeedsCopy(s, key)
    ensures key in s.pt && s.pt[key].w ==> !TakesOver(s, key) && !NeedsCopy(s, key)
    ensures NeedsCopy(s, key) ==> s.free == [] && !Sole(s, key)
    ensures TakesOver(s, key) ==> Sole(s, key)
  {
  }

  /** A store fault on a resident page: read-only, or writable and perhaps without A or D. */
  lemma StoreKinds(e: Word)
    requires e.v && !e.sd
    ensures !e.w ==> CheckEntry(e, true) == (NoW, e.(a := true, d := true))
    ensures e.w ==> CheckEntry(e, true).0 == AllocNoAd || CheckEntry(e, true).0 == Nothing
    ensures CheckEntry(e, true).1.pfn == e.pfn
    ensures e.w ==> CheckEntry(e, true).1.w && forall pfn :: AfterStoreFault(e, pfn) == CheckEntry(e, true).1
  {
  }

  lemma AfterNoW(e: Word, pfn: nat)
    requires e.v && !e.sd && !e.w
    ensures AfterStoreFault(e, pfn) == e.(a := true, d := true, w := true, pfn := pfn)
  {
  }

  lemma AfterMissing(n: nat)
    ensures AfterStoreFault(Zero, n + FREEMEM_PFN) == UserLeaf(n)
  {
  }

  /** What a leaf entry reads, whether or not the invariant holds. */
  ghost function Reads(s: Vm, key: Key): Frame
    requires key in s.pt && 0 <= Node(s.pt[key]) < |s.frames|
  {
    s.frames[Node(s.pt[key])]
  }

  /** The reference semantics of a store. */
  ghost function StoreWord(c: map<Key, Frame>, key: Key, x: nat, w: Word): map<Key, Frame>
    requires key in Present(c, key) && x < |Present(c, key)[key]|
  {
    c[key := Present(c, key)[key][x := w]]
  }

  lemma FrameSizes(s: Vm, key: Key)
    requires Inv(s)
    ensures key in Present(Contents(s), key) && |Present(Contents(s), key)[key]| == ENTRIES
  {
    if key in Contents(s) { ContentsAt(s, key); }
  }

  /** What is stored through key shows at every other entry for its page. */
  ghost predicate Leaks(s: Vm, s': Vm, key: Key, x: nat, w: Word) {
    forall a :: a in s.pt && key in s.pt && a != key && Node(s.pt[a]) == Node(s.pt[key]) ==>
      LeaksTo(s, s', a, x, w)
  }

  ghost predicate LeaksTo(s: Vm, s': Vm, a: Key, x: nat, w: Word) {
    && a in s.pt && a in s'.pt && s'.pt[a] == s.pt[a]
    && 0 <= Node(s.pt[a]) < |s.frames| == |s'.frames| && x < |Reads(s, a)|
    && Reads(s', a) == Reads(s, a)[x := w]
  }

  /**
    A user store: when the entry is missing or not writable the processor traps and retries,
    otherwise it writes, setting A and D.  The other spaces never see the store, unless it takes over a
    page for which other holders sleep in deal_no_W: then they all do.
   */
  method UserStore(m: Memory, r: nat, v: Vpn, x: nat, w: Word) returns (ok: bool)
    requires m.Valid() && IsRoot(m.View(), r) && User(m.ker, v) && x < ENTRIES
    modifies m
    ensures m.Valid() <==> !TakesOver(old(m.View()), (r, v))
    ensures !m.Valid() ==> ok && Lost(m.View()) && Leaks(old(m.View()), m.View(), (r, v), x, w)
    ensures KeptOutside(old(m.pt), m.pt, {r})
    ensures (r, v) in old(m.pt) ==> (!ok <==> NeedsCopy(old(m.View()), (r, v)))
    ensures old(m.Exact()) ==> (m.Exact() <==> !NeedsCopy(old(m.View()), (r, v)))
    ensures m.Valid() && (ok || (r, v) !in old(m.pt)) ==> Grows(old(m.View()), m.View(), {})
    ensures (r, v) in Present(old(m.Spaces()), (r, v)) && |Present(old(m.Spaces()), (r, v))[(r, v)]| == ENTRIES
    ensures m.Valid() && ok ==> m.Spaces() == StoreWord(old(m.Spaces()), (r, v), x, w)
    ensures m.Valid() && ok ==>
              var page := if (r, v) in old(m.Spaces()) then old(m.Spaces())[(r, v)] else ZeroFrame();
              |page| == ENTRIES && m.Spaces() == old(m.Spaces())[(r, v) := page[x := w]]
    ensures m.Valid() && ok ==> (r, v) in m.pt && Admits(m.pt[(r, v)], StoreAccess)
    ensures !ok ==> m.free == [] && |old(m.free)| < 3 && m.Spaces() == old(m.Spaces())
    ensures !ok && (r, v) in old(m.pt) ==> Waits(old(m.View()), m.View(), (r, v))
  {
    hide Inv, Contents, LowAt, AfterStoreFault, Lost, KeptOutside;
    ghost var s := m.View();
    assert m.share == Raw(s);
    FrameSizes(s, (r, v));
    SpaceKeys(s);
    Unguarded(s, (r, v));
    var third := m.GetPte(r, v);
    if (r, v) in m.pt { Mapped(s, r, v); }
    if third >= 0 && !m.frames[third][v.k].w && m.share[Node(m.frames[third][v.k])] == 1 {
      StoreInPlace(m, r, v, Node(m.frames[third][v.k]), x, w);
      StillExact(s, m, (r, v));
      return true;
    }
    if third < 0 || !m.frames[third][v.k].w {
      ok := HandleStoreFault(m, r, v);
      if !ok {
        return;
      }
      third := m.GetPte(r, v);
    } else {
      OneKept(s.pt, m.pt, r, v);
    }
    ghost var pt := m.pt;
    WriteWord(m, r, v, third, x, w);
    OneKept(pt, m.pt, r, v);
    KeptTrans(s.pt, pt, m.pt, {r}, {r});
    StillExact(s, m, (r, v));
    ok := true;
  }

  /** A store whose page p, with a share_num of one, becomes writable in place before it is tried again. */
  method StoreInPlace(m: Memory, r: nat, v: Vpn, p: nat, x: nat, w: Word)
    requires m.Valid() && Sole(m.View(), (r, v)) && !m.pt[(r, v)].w && Node(m.pt[(r, v)]) == p && x < ENTRIES
    modifies m
    ensures m.Valid() <==> !TakesOver(old(m.View()), (r, v))
    ensures !m.Valid() ==> Lost(m.View()) && Leaks(old(m.View()), m.View(), (r, v), x, w)
    ensures KeptOutside(old(m.pt), m.pt, {r})
    ensures m.Valid() ==> Grows(old(m.View()), m.View(), {})
    ensures (r, v) in old(m.Spaces()) && x < |old(m.Spaces())[(r, v)]|
    ensures m.Valid() ==> m.Spaces() == old(m.Spaces())[(r, v) := old(m.Spaces())[(r, v)][x := w]]
    ensures (r, v) in m.pt && Admits(m.pt[(r, v)], StoreAccess)
  {
    hide Inv, Contents, AfterStoreFault, Lost, KeptOutside, Leaks;
    ghost var s := m.View();
    Mapped(s, r, v);
    AfterNoW(m.pt[(r, v)], m.pt[(r, v)].pfn);
    ContentsAt(s, (r, v));
    ShapeOf(s);
    Unguarded(s, (r, v));
    SpaceKeys(s);
    var ok := HandleStoreFault(m, r, v);
    ghost var s1 := m.View();
    m.frames := m.frames[p := m.frames[p][x := w]];
    if s.lag[p] == 0 {
      ContentsAt(s1, (r, v));
      SoleWriter(s1, r, v);
      FillSole(s1, (r, v), s1.frames[p][x := w]);
    } else {
      TakenOver(s, m.View(), (r, v), p, x, w);
      LostNow(m.View());
    }
  }

  /** A store to a page taken over from sleeping holders, in the memory s, shows in all their spaces. */
  lemma TakenOver(s: Vm, s': Vm, key: Key, p: nat, x: nat, w: Word)
    requires Inv(s) && key in s.pt && Node(s.pt[key]) == p < |s.share| && s.share[p] > 1 && p < |s.frames| == |s'.frames|
    requires key in s'.pt && s'.pt[key].w && Node(s'.pt[key]) == p && KeptOutside(s.pt, s'.pt, {key.0})
    requires x < |s.frames[p]| && s'.frames[p] == s.frames[p][x := w]
    ensures Lost(s') && Leaks(s, s', key, x, w)
  {
    hide Inv, Lost;
    var other := OtherHolder(s, key);
    assert SameEntry(s.pt, s'.pt, (other.0, other.1));
    WriterLost(s', other, key);
    forall a | a in s.pt && a != key && Node(s.pt[a]) == p ensures LeaksTo(s, s', a, x, w) {
      OneKeyEach(s, a, key);
      assert SameEntry(s.pt, s'.pt, (a.0, a.1));
    }
  }

  /** Two entries for one page are in different spaces. */
  lemma OneKeyEach(s: Vm, a: Key, b: Key)
    requires Inv(s) && a in s.pt && b in s.pt && a != b && Node(s.pt[a]) == Node(s.pt[b])
    ensures a.0 != b.0
  {
    hide Tree;
    assert a == (a.0, a.1) && b == (b.0, b.1);
  }

  /** The store itself, through a writable entry. */
  method WriteWord(m: Memory, r: nat, v: Vpn, third: nat, x: nat, w: Word)
    requires m.Valid() && (r, v) in m.pt && m.pt[(r, v)].w && x < ENTRIES
    requires IsRoot(m.View(), r) && User(m.ker, v) && r < |m.frames| && LowAt(m.frames, r, v) == third
    requires third < |m.frames| && v.k < |m.frames[third]| && m.frames[third][v.k] == m.pt[(r, v)]
    modifies m`frames, m`pt
    ensures m.Valid()
    ensures (r, v) in old(m.Spaces()) && x < |old(m.Spaces())[(r, v)]|
    ensures m.Spaces() == old(m.Spaces())[(r, v) := old(m.Spaces())[(r, v)][x := w]]
    ensures m.pt == old(m.pt)[(r, v) := old(m.pt[(r, v)]).(a := true, d := true)]
    ensures Admits(m.pt[(r, v)], StoreAccess)
  {
    hide Inv, Contents, LowAt;
    Mapped(m.View(), r, v);
    var e := m.frames[third][v.k].(a := true, d := true);
    FlagsInv(m.View(), r, v, e);
    m.frames := m.frames[third := m.frames[third][v.k := e]];
    m.pt := m.pt[(r, v) := e];
    ContentsAt(m.View(), (r, v));
    ShapeOf(m.View());
    SoleWriter(m.View(), r, v);
    var p := Node(e);
    FillSole(m.View(), (r, v), m.frames[p][x := w]);
    m.frames := m.frames[p := m.frames[p][x := w]];
  }

  /** A user load: a missing page is mapped first. */
  method UserLoad(m: Memory, r: nat, v: Vpn, x: nat) returns (ok: bool, w: Word)
    requires m.Valid() && IsRoot(m.View(), r) && User(m.ker, v) && x < ENTRIES
    modifies m
    ensures m.Valid() && Grows(old(m.View()), m.View(), {}) && KeptOutside(old(m.pt), m.pt, {r})
    ensures (r, v) in Present(old(m.Spaces()), (r, v)) && |Present(old(m.Spaces()), (r, v))[(r, v)]| == ENTRIES
    ensures ok ==> m.Spaces() == Present(old(m.Spaces()), (r, v)) && w == Present(old(m.Spaces()), (r, v))[(r, v)][x]
    ensures ok ==>
              var page := if (r, v) in old(m.Spaces()) then old(m.Spaces())[(r, v)] else ZeroFrame();
              |page| == ENTRIES && w == page[x] && m.Spaces() == old(m.Spaces())[(r, v) := page]
    ensures ok ==> (r, v) in m.pt && Admits(m.pt[(r, v)].(a := true), LoadAccess)
    ensures ok && (r, v) in old(m.pt) ==> Admits(m.pt[(r, v)], LoadAccess)
    ensures !ok ==> m.free == [] && m.Spaces() == old(m.Spaces()) && |old(m.free)| < 3
  {
    hide Inv, Contents, LowAt;
    FrameSizes(m.View(), (r, v));
    SpaceKeys(m.View());
    ok, w := true, Zero;
    var third := m.GetPte(r, v);
    if third < 0 {
      var n;
      ok, n := m.AllocPageHelper(r, v);
      if !ok {
        return;
      }
      third := m.GetPte(r, v);
    } else {
      var code := CheckWSdAndSetAd(m, r, v, false);
      third := m.GetPte(r, v);
    }
    ContentsAt(m.View(), (r, v));
    Mapped(m.View(), r, v);
    w := m.frames[Node(m.frames[third][v.k])][x];
  }

  /**
    A store that sleeps in deal_no_W is woken: it goes on with the copy, or sleeps again when the pool is
    still empty, and is then tried again.
   */
  method ResumeStore(m: Memory, r: nat, v: Vpn, x: nat, w: Word) returns (ok: bool)
    requires m.Valid() && (r, v) in m.pt && x < ENTRIES
    requires 0 <= Node(m.pt[(r, v)]) < |m.lag| && m.lag[Node(m.pt[(r, v)])] > 0
    modifies m
    ensures m.Valid() && KeptOutside(old(m.pt), m.pt, {r}) && (ok <==> old(m.free) != [])
    ensures Grows(old(m.View()), m.View().(lag := old(m.lag)), {})
    ensures (r, v) in old(m.Spaces()) && x < |old(m.Spaces())[(r, v)]|
    ensures ok ==> m.Spaces() == old(m.Spaces())[(r, v) := old(m.Spaces())[(r, v)][x := w]]
    ensures ok ==> var p := Node(old(m.pt[(r, v)])); m.lag == old(m.lag)[p := old(m.lag)[p] - 1]
    ensures !ok ==> m.View() == old(m.View())
  {
    hide Inv, Contents, LowAt, KeptOutside;
    ghost var s := m.View();
    Mapped(s, r, v);
    ContentsAt(s, (r, v));
    ShapeOf(s);
    OneKept(s.pt, s.pt, r, v);
    ok := m.free != [];
    if ok {
      var third := m.GetPte(r, v);
      SplitPage(m, r, v, third);
      third := m.GetPte(r, v);
      WriteWord(m, r, v, third, x, w);
      OneKept(s.pt, m.pt, r, v);
    }
  }

  /** A woken task copies the page of key to page n. */
  ghost function CopiedTo(s: Vm, key: Key, n: nat): Vm
    requires key in s.pt && 0 <= Node(s.pt[key]) < |s.frames| && n < |s.frames|
  {
    s.(frames := s.frames[n := Reads(s, key)], pt := s.pt[key := s.pt[key].(pfn := n + FREEMEM_PFN)])
  }

  /** A store that leaks to a sleeper is in the copy that the sleeper makes when it is woken with page n. */
  lemma SleepLeaks(s: Vm, s': Vm, a: Key, b: Key, x: nat, w: Word, n: nat)
    requires a in s.pt && b in s.pt && a != b && Node(s.pt[a]) == Node(s.pt[b]) && Leaks(s, s', b, x, w)
    requires 0 <= Node(s.pt[a]) < |s.frames| == |s'.frames| && n < |s.frames| && x < |Reads(s, a)|
    ensures a in s'.pt && 0 <= Node(s'.pt[a]) < |s'.frames|
    ensures Reads(CopiedTo(s', a, n), a) == Reads(s, a)[x := w]
  {
    assert LeaksTo(s, s', a, x, w);
  }

  /**
    When the only awake holder gives the page up instead, the page is at the head of the free list: the
    sleeper is woken with that very page, cleared, and copies zeros.
   */
  lemma FreeLeaks(s: Vm, a: Key)
    requires a in s.pt && 0 <= Node(s.pt[a]) < |s.frames| == |s.share| == |s.roles|
    requires s.free != [] && s.free[0] == Node(s.pt[a])
    ensures Reads(CopiedTo(Alloc(s), a, s.free[0]), a) == ZeroFrame()
  {
  }

  /**
    free_page_helper on a mapped page.  The invariant fails exactly when the page goes to the free list
    while other holders sleep in deal_no_W for it.
   */
  method FreePageHelper(m: Memory, r: nat, v: Vpn)
    requires m.Valid() && (r, v) in m.pt
    modifies m
    ensures m.pt == old(m.pt) - {(r, v)} && m.lag == old(m.lag)
    ensures m.Valid() <==> !Contested(old(m.View()), (r, v))
    ensures m.Valid() ==> m.Spaces() == old(m.Spaces()) - {(r, v)}
    ensures !m.Valid() ==> Lost(m.View()) && m.free == [Node(old(m.pt[(r, v)]))] + old(m.free)
    ensures 0 <= Node(old(m.pt[(r, v)])) < |old(m.share)| == |m.share|
    ensures var p := Node(old(m.pt[(r, v)]));
            old(m.share[p]) > 0 && m.share == old(m.share)[p := old(m.share[p]) - 1]
    ensures |m.roles| == |old(m.roles)|
    ensures forall f: nat :: f < |m.roles| ==>
              m.roles[f] == old(m.roles)[f] || (old(m.roles)[f] == Data && m.roles[f] == Free)
  {
    hide Inv, Contents, LowAt, Lost;
    ghost var s := m.View();
    Mapped(s, r, v);
    UnmapInv(s, r, v);
    ShapeOf(s);
    var third := m.GetPte(r, v);
    var p := Node(m.frames[third][v.k]);
    ghost var last := m.share[p] == 1;
    PlusSet(m.share, m.lag, p, -1);
    m.FreePage(p);
    m.frames := m.frames[third := m.frames[third][v.k := Zero]];
    m.pt := m.pt - {(r, v)};
    m.roles := if last then m.roles[p := Free] else m.roles;
    if Contested(s, (r, v)) {
      ghost var other := OtherHolder(s, (r, v));
      FreedLost(m.View(), other);
      LostNow(m.View());
    } else {
      assert m.View() == Unmap(s, r, v);
    }
  }
}
