/**
  Swapping private pages out and in (clock_algorithm in kernel/swap/swap.c, get_swap_sec in
  include/swap/swap.h, deal_in_SD and the swapping part of deal_no_alloc in kernel/mm/mmirq.c).
 */
module Swap {
  import opened Clock

  const SEC_NUM_PAGE: nat := 8
  const FIRST_SLOT: nat := 4      // the initial swap_offset

  /** The PTE of a virtual page; a Fixed page is in memory but not on swapPageList. */
  datatype Pte = Unmapped | Here(f: nat) | Fixed(data: Data, sdSec: nat) | InSd(sec: nat)

  type Card = map<nat, seq<bv8>>

  /** The eight sectors of the slot that starts at sector w. */
  function ReadSlot(sd: Card, w: nat): (data: Data)
    ensures |data| == SEC_NUM_PAGE && forall i: nat :: i < 8 && w + i in sd ==> data[i] == sd[w + i]
  {
    seq(SEC_NUM_PAGE, i requires 0 <= i => if w + i in sd then sd[w + i] else [])
  }

  function WriteSlot(sd: Card, w: nat, data: Data): (r: Card)
    requires |data| == SEC_NUM_PAGE
    ensures forall k :: k in r <==> k in sd || w <= k < w + 8
    ensures forall k :: k in r ==> r[k] == if w <= k < w + 8 then data[k - w] else sd[k]
  {
    sd[w := data[0]][w + 1 := data[1]][w + 2 := data[2]][w + 3 := data[3]]
      [w + 4 := data[4]][w + 5 := data[5]][w + 6 := data[6]][w + 7 := data[7]]
  }

  predicate IsSlot(w: nat) { w >= FIRST_SLOT && w % SEC_NUM_PAGE == FIRST_SLOT }

  /** Reading a slot gives what was written to it last: slots do not overlap. */
  lemma SlotReadBack(sd: Card, w: nat, data: Data, u: nat)
    requires |data| == SEC_NUM_PAGE && IsSlot(w) && IsSlot(u)
    ensures ReadSlot(WriteSlot(sd, w, data), u) == if u == w then data else ReadSlot(sd, u)
  {
    assert u != w ==> u + SEC_NUM_PAGE <= w || w + SEC_NUM_PAGE <= u;
  }

  /** PTEs and the page nodes of the list point at each other. */
  ghost predicate Linked(ptes: seq<Pte>, pages: seq<Node>) {
    && (forall v :: 0 <= v < |ptes| && ptes[v].Here? ==> ptes[v].f < |pages| && pages[ptes[v].f].owner == Page(v))
    && (forall f :: 0 <= f < |pages| && pages[f].owner.Page? ==>
          pages[f].owner.v < |ptes| && ptes[pages[f].owner.v] == Here(f))
  }

  /** The slot a virtual page owns, or 0. */
  function SlotOf(ptes: seq<Pte>, pages: seq<Node>, v: nat): nat
    requires v < |ptes| && (ptes[v].Here? ==> ptes[v].f < |pages|)
  {
    match ptes[v]
    case Unmapped => 0
    case Here(f) => pages[f].sdSec
    case Fixed(_, sec) => sec
    case InSd(sec) => sec
  }

  predicate Issued(w: nat, offset: nat) { w == 0 || (IsSlot(w) && w < offset) }

  /** Slots in use were issued, and no two virtual pages own the same one. */
  ghost predicate SlotsOk(ptes: seq<Pte>, pages: seq<Node>, offset: nat)
    requires Linked(ptes, pages)
  {
    && IsSlot(offset)
    && (forall v :: 0 <= v < |ptes| && ptes[v].InSd? ==> ptes[v].sec != 0)
    && (forall v :: 0 <= v < |ptes| ==> Issued(SlotOf(ptes, pages, v), offset))
    && (forall u, v :: 0 <= u < v < |ptes| && SlotOf(ptes, pages, u) != 0 ==> SlotOf(ptes, pages, u) != SlotOf(ptes, pages, v))
  }

  predicate CopyOk(p: Node, sd: Card) {
    && |p.data| == SEC_NUM_PAGE
    && (p.owner.Page? && !p.d && p.sdSec != 0 ==> ReadSlot(sd, p.sdSec) == p.data)
  }

  /** A clean page that has been swapped before still has its copy on the card. */
  ghost predicate CopiesOk(pages: seq<Node>, sd: Card) {
    forall f :: 0 <= f < |pages| ==> CopyOk(pages[f], sd)
  }

  datatype State = State(ptes: seq<Pte>, pages: seq<Node>, sd: Card, offset: nat)

  ghost predicate SwapOk(s: State) {
    Linked(s.ptes, s.pages) && SlotsOk(s.ptes, s.pages, s.offset) && CopiesOk(s.pages, s.sd)
  }

  function ZeroPage(): (data: Data)
    ensures |data| == SEC_NUM_PAGE && forall i :: 0 <= i < 8 ==> |data[i]| == 512 && forall j :: 0 <= j < 512 ==> data[i][j] == 0
  {
    seq(SEC_NUM_PAGE, i => seq(512, j => 0))
  }

  /** What a program sees in virtual page v; an untouched page reads as zero. */
  function Mem(s: State, v: nat): Data
    requires v < |s.ptes| && (s.ptes[v].Here? ==> s.ptes[v].f < |s.pages|)
  {
    match s.ptes[v]
    case Unmapped => ZeroPage()
    case Here(f) => s.pages[f].data
    case Fixed(data, _) => data
    case InSd(sec) => ReadSlot(s.sd, sec)
  }

  // ----- Swapping out

  /** Steps 2 to 5 of clock_algorithm on page node f, which then belongs to nobody. */
  function Evict(s: State, f: nat): State
    requires f < |s.pages| && s.pages[f].owner.Page? && s.pages[f].owner.v < |s.ptes|
    requires |s.pages[f].data| == SEC_NUM_PAGE
  {
    var p := s.pages[f];
    var w := if p.sdSec != 0 then p.sdSec else s.offset;
    State(s.ptes[p.owner.v := InSd(w)], s.pages[f := p.(owner := Nobody)],
          if p.d || p.sdSec == 0 then WriteSlot(s.sd, w, p.data) else s.sd,
          if p.sdSec == 0 then s.offset + SEC_NUM_PAGE else s.offset)
  }

  lemma EvictLinked(s: State, f: nat)
    requires SwapOk(s) && f < |s.pages| && s.pages[f].owner.Page?
    ensures |s.pages[f].data| == SEC_NUM_PAGE
    ensures Linked(Evict(s, f).ptes, Evict(s, f).pages)
  {
    assert CopyOk(s.pages[f], s.sd);
  }

  lemma EvictSlots(s: State, f: nat)
    requires SwapOk(s) && f < |s.pages| && s.pages[f].owner.Page? && |s.pages[f].data| == SEC_NUM_PAGE
    requires Linked(Evict(s, f).ptes, Evict(s, f).pages)
    ensures SlotsOk(Evict(s, f).ptes, Evict(s, f).pages, Evict(s, f).offset)
  {
    var t := Evict(s, f);
    var v0 := s.pages[f].owner.v;
    assert Issued(SlotOf(s.ptes, s.pages, v0), s.offset);
    forall v | 0 <= v < |s.ptes| ensures SlotOf(t.ptes, t.pages, v) == if v == v0 then t.ptes[v0].sec else SlotOf(s.ptes, s.pages, v) {
    }
    assert forall v :: 0 <= v < |s.ptes| ==> Issued(SlotOf(s.ptes, s.pages, v), s.offset);
  }

  /** The sector where page node f goes. */
  function EvictTo(s: State, f: nat): nat
    requires f < |s.pages|
  {
    if s.pages[f].sdSec != 0 then s.pages[f].sdSec else s.offset
  }

  /** It is nobody else's slot. */
  lemma OtherSlot(s: State, f: nat, v: nat)
    requires SwapOk(s) && f < |s.pages| && s.pages[f].owner.Page? && v < |s.ptes| && v != s.pages[f].owner.v
    ensures var u := SlotOf(s.ptes, s.pages, v); IsSlot(EvictTo(s, f)) && (u != 0 ==> IsSlot(u) && u != EvictTo(s, f))
  {
    var v0 := s.pages[f].owner.v;
    assert Issued(SlotOf(s.ptes, s.pages, v), s.offset) && Issued(SlotOf(s.ptes, s.pages, v0), s.offset);
  }

  lemma EvictCopies(s: State, f: nat)
    requires SwapOk(s) && f < |s.pages| && s.pages[f].owner.Page? && |s.pages[f].data| == SEC_NUM_PAGE
    ensures CopiesOk(Evict(s, f).pages, Evict(s, f).sd)
  {
    hide ReadSlot, WriteSlot, SlotsOk;
    var t := Evict(s, f);
    forall g | 0 <= g < |s.pages| ensures CopyOk(t.pages[g], t.sd) {
      assert CopyOk(s.pages[g], s.sd);
      if g != f && s.pages[g].owner.Page? && s.pages[g].sdSec != 0 {
        OtherSlot(s, f, s.pages[g].owner.v);
        SlotReadBack(s.sd, EvictTo(s, f), s.pages[f].data, s.pages[g].sdSec);
      }
    }
  }

  /** Swapping out changes what no program sees. */
  lemma EvictMem(s: State, f: nat, v: nat)
    requires SwapOk(s) && f < |s.pages| && s.pages[f].owner.Page? && |s.pages[f].data| == SEC_NUM_PAGE
    requires Linked(Evict(s, f).ptes, Evict(s, f).pages) && v < |s.ptes|
    ensures Mem(Evict(s, f), v) == Mem(s, v)
  {
    var v0, w := s.pages[f].owner.v, EvictTo(s, f);
    assert Issued(SlotOf(s.ptes, s.pages, v0), s.offset) && CopyOk(s.pages[f], s.sd);
    assert s.ptes[v].InSd? ==> s.ptes[v].sec != 0;
    hide ReadSlot, WriteSlot, SlotsOk;
    if v == v0 {
      SlotReadBack(s.sd, w, s.pages[f].data, w);
    } else {
      OtherSlot(s, f, v);
      if s.ptes[v].InSd? {
        SlotReadBack(s.sd, w, s.pages[f].data, s.ptes[v].sec);
      }
    }
  }

  lemma EvictOk(s: State, f: nat)
    requires SwapOk(s) && f < |s.pages| && s.pages[f].owner.Page?
    ensures |s.pages[f].data| == SEC_NUM_PAGE && SwapOk(Evict(s, f))
    ensures forall v :: 0 <= v < |s.ptes| ==> Mem(Evict(s, f), v) == Mem(s, v)
  {
    EvictLinked(s, f);
    EvictSlots(s, f);
    EvictCopies(s, f);
    hide Linked, SlotsOk, CopiesOk, Mem, Evict;
    forall v | 0 <= v < |s.ptes| ensures Mem(Evict(s, f), v) == Mem(s, v) {
      EvictMem(s, f, v);
    }
  }

  // ----- Mapping

  /** alloc_page_point_phyc: virtual page v gets the free page node f. */
  function MapTo(s: State, v: nat, f: nat, data: Data, sec: nat, a: bool, d: bool): State
    requires v < |s.ptes| && f < |s.pages|
  {
    s.(ptes := s.ptes[v := Here(f)], pages := s.pages[f := Node(Page(v), a, d, true, data, sec)])
  }

  lemma MapOk(s: State, v: nat, f: nat, data: Data, sec: nat, a: bool, d: bool)
    requires SwapOk(s) && v < |s.ptes| && f < |s.pages| && s.pages[f].owner.Nobody? && |data| == SEC_NUM_PAGE
    requires (s.ptes[v] == InSd(sec) && data == ReadSlot(s.sd, sec)) || (s.ptes[v] == Unmapped && sec == 0)
    ensures SwapOk(MapTo(s, v, f, data, sec, a, d))
    ensures forall u :: 0 <= u < |s.ptes| ==> Mem(MapTo(s, v, f, data, sec, a, d), u) == if u == v then data else Mem(s, u)
  {
    var t := MapTo(s, v, f, data, sec, a, d);
    hide ReadSlot;
    assert Linked(t.ptes, t.pages);
    assert forall u :: 0 <= u < |s.ptes| ==> SlotOf(t.ptes, t.pages, u) == SlotOf(s.ptes, s.pages, u);
    forall g | 0 <= g < |s.pages| ensures CopyOk(t.pages[g], t.sd) {
      assert CopyOk(s.pages[g], s.sd);
    }
  }

  /** Accessed bits decide which page goes, nothing else. */
  lemma ClearedOk(s: State, hand: nat, k: nat)
    requires SwapOk(s) && hand < |s.pages|
    ensures SwapOk(s.(pages := Cleared(s.pages, hand, k)))
    ensures forall v :: 0 <= v < |s.ptes| ==> Mem(s.(pages := Cleared(s.pages, hand, k)), v) == Mem(s, v)
  {
    hide ReadSlot;
    var t := s.(pages := Cleared(s.pages, hand, k));
    forall f | 0 <= f < |s.pages| ensures CopyOk(t.pages[f], s.sd) {
      assert CopyOk(s.pages[f], s.sd);
    }
    assert forall v :: 0 <= v < |s.ptes| && s.ptes[v].Here? ==> t.pages[s.ptes[v].f].sdSec == s.pages[s.ptes[v].f].sdSec;
    assert forall v :: 0 <= v < |s.ptes| ==> SlotOf(t.ptes, t.pages, v) == SlotOf(s.ptes, s.pages, v);
  }

  /** The pages an operation may not touch: those that are not on the list. */
  ghost predicate SameOffList(was: seq<Pte>, now: seq<Pte>) {
    |was| == |now| && forall v :: 0 <= v < |was| && !was[v].Here? ==> now[v] == was[v]
  }

  ghost predicate SameMem(s: State, t: State) {
    && Linked(s.ptes, s.pages) && Linked(t.ptes, t.pages) && |s.ptes| == |t.ptes|
    && forall v :: 0 <= v < |s.ptes| ==> Mem(t, v) == Mem(s, v)
  }

  lemma FixedOk(s: State, v: nat)
    requires SwapOk(s) && v < |s.ptes| && s.ptes[v].InSd?
    ensures var t := s.(ptes := s.ptes[v := Fixed(ReadSlot(s.sd, s.ptes[v].sec), s.ptes[v].sec)]);
            SwapOk(t) && SameMem(s, t)
  {
    hide ReadSlot;
    var t := s.(ptes := s.ptes[v := Fixed(ReadSlot(s.sd, s.ptes[v].sec), s.ptes[v].sec)]);
    assert Linked(t.ptes, t.pages);
    assert forall u :: 0 <= u < |s.ptes| ==> SlotOf(t.ptes, t.pages, u) == SlotOf(s.ptes, s.pages, u);
  }

  /** list_add_tail of a page that is still free. */
  lemma AppendOk(s: State)
    requires SwapOk(s)
    ensures var t := s.(pages := s.pages + [Node(Nobody, false, false, false, ZeroPage(), 0)]);
            SwapOk(t) && SameMem(s, t)
  {
    hide ReadSlot, ZeroPage;
    var t := s.(pages := s.pages + [Node(Nobody, false, false, false, ZeroPage(), 0)]);
    assert Linked(t.ptes, t.pages);
    assert forall u :: 0 <= u < |s.ptes| ==> SlotOf(t.ptes, t.pages, u) == SlotOf(s.ptes, s.pages, u);
    assert forall f :: 0 <= f < |s.pages| ==> t.pages[f] == s.pages[f];
  }

  /** A load keeps the bytes and the dirty bit, a store sets the dirty bit. */
  lemma AccessOk(s: State, v: nat, data: Data, d: bool)
    requires SwapOk(s) && v < |s.ptes| && s.ptes[v].Here? && |data| == SEC_NUM_PAGE
    requires d || (data == s.pages[s.ptes[v].f].data && d == s.pages[s.ptes[v].f].d)
    ensures var f := s.ptes[v].f;
            var t := s.(pages := s.pages[f := s.pages[f].(data := data, a := true, d := d)]);
            && SwapOk(t) && (forall u :: 0 <= u < |s.ptes| ==> Mem(t, u) == if u == v then data else Mem(s, u))
  {
    hide ReadSlot;
    var f := s.ptes[v].f;
    var t := s.(pages := s.pages[f := s.pages[f].(data := data, a := true, d := d)]);
    assert Linked(t.ptes, t.pages);
    assert forall u :: 0 <= u < |s.ptes| ==> SlotOf(t.ptes, t.pages, u) == SlotOf(s.ptes, s.pages, u);
    forall g | 0 <= g < |s.pages| ensures CopyOk(t.pages[g], t.sd) {
      assert CopyOk(s.pages[g], s.sd);
    }
  }

  lemma TouchOk(s: State, v: nat)
    requires SwapOk(s) && v < |s.ptes| && s.ptes[v].Here?
    ensures var f := s.ptes[v].f;
            var t := s.(pages := s.pages[f := s.pages[f].(a := true)]);
            SwapOk(t) && SameMem(s, t)
  {
    var f := s.ptes[v].f;
    assert CopyOk(s.pages[f], s.sd);
    AccessOk(s, v, s.pages[f].data, s.pages[f].d);
    hide SlotsOk, CopiesOk;
    assert s.pages[f].(data := s.pages[f].data, a := true, d := s.pages[f].d) == s.pages[f].(a := true);
  }

  lemma StoreFixedOk(s: State, v: nat, data: Data)
    requires SwapOk(s) && v < |s.ptes| && s.ptes[v].Fixed?
    ensures var t := s.(ptes := s.ptes[v := s.ptes[v].(data := data)]);
            && SwapOk(t) && (forall u :: 0 <= u < |s.ptes| ==> Mem(t, u) == if u == v then data else Mem(s, u))
  {
    hide ReadSlot;
    var t := s.(ptes := s.ptes[v := s.ptes[v].(data := data)]);
    assert Linked(t.ptes, t.pages);
    assert forall u :: 0 <= u < |s.ptes| ==> SlotOf(t.ptes, t.pages, u) == SlotOf(s.ptes, s.pages, u);
  }

  // ----- Runs

  /** A program's access; `low` says that the kernel is short of pages at that moment. */
  datatype Access = Load(v: nat, low: bool) | Store(v: nat, data: Data, low: bool)

  ghost predicate Legal(op: Access, n: nat) { op.v < n && (op.Store? ==> |op.data| == SEC_NUM_PAGE) }

  /** Plain memory: every virtual page keeps its own bytes. */
  ghost function Apply(mem: seq<Data>, op: Access): seq<Data> {
    if op.Store? && op.v < |mem| then mem[op.v := op.data] else mem
  }

  ghost function Plain(mem: seq<Data>, ops: seq<Access>): (r: seq<Data>)
    ensures |r| == |mem|
  {
    if ops == [] then mem else Apply(Plain(mem, ops[..|ops| - 1]), ops[|ops| - 1])
  }

  /** Plain memory holds what was stored last, or what it held at first. */
  lemma {:induction false} PlainLast(mem: seq<Data>, ops: seq<Access>, v: nat, n: nat)
    requires v < |mem| && n <= |ops| && forall k :: n <= k < |ops| ==> ops[k].Load? || ops[k].v != v
    ensures n == 0 ==> Plain(mem, ops)[v] == mem[v]
    ensures n > 0 && ops[n - 1].Store? && ops[n - 1].v == v ==> Plain(mem, ops)[v] == ops[n - 1].data
  {
    if n < |ops| { PlainLast(mem, ops[..|ops| - 1], v, n); }
  }

  ghost function Memory(s: State): (mem: seq<Data>)
    requires Linked(s.ptes, s.pages)
    ensures |mem| == |s.ptes|
  {
    seq(|s.ptes|, v requires 0 <= v < |s.ptes| => Mem(s, v))
  }

  /** Memory is short, page v has to come in, and no page can be swapped out for it. */
  ghost predicate Starved(s: State, v: nat, low: bool) {
    low && v < |s.ptes| && (s.ptes[v].InSd? || s.ptes[v].Unmapped?) && !Has(s.pages, Any)
  }

  class Swapper {
    const clock: List
    var ptes: seq<Pte>
    var sd: Card
    var offset: nat

    ghost function View(): State
      reads this, clock
    {
      State(ptes, clock.pages, sd, offset)
    }

    ghost predicate Valid()
      reads this, clock
    {
      SwapOk(View()) && (clock.hand == 0 || clock.hand < |clock.pages|)
    }

    constructor (n: nat)
      ensures Valid() && fresh(clock) && |ptes| == n && offset == FIRST_SLOT
      ensures forall v :: 0 <= v < n ==> Mem(View(), v) == ZeroPage()
    {
      clock := new List([]);
      ptes := seq(n, i => Unmapped);
      sd := map[];
      offset := FIRST_SLOT;
    }

    /** get_swap_sec */
    method GetSwapSec() returns (w: nat)
      modifies this`offset
      ensures w == old(offset) && offset == w + SEC_NUM_PAGE
    {
      w := offset;
      offset := offset + SEC_NUM_PAGE;
    }

    /** clock_algorithm: afterwards page node f is free and programs see what they saw before. */
    method ClockAlgorithm() returns (f: nat)
      requires Valid() && Has(clock.pages, Any)
      modifies this, clock
      ensures Valid() && f < |clock.pages| == old(|clock.pages|) && clock.pages[f].owner.Nobody?
      ensures FirstFit(old(clock.pages), old(clock.hand), Choice(old(clock.pages)), f)
      ensures clock.hand == Next(|clock.pages|, f)
      ensures SameMem(old(View()), View()) && SameOffList(old(ptes), ptes)
    {
      hide SwapOk, FirstFit, Choice, Mem, Evict;
      ghost var s0, hand0 := View(), clock.hand;
      Linked0(s0);
      f := clock.FindSwapPage();
      ghost var k :| 0 <= k <= |clock.pages| && clock.pages == Cleared(s0.pages, hand0, k);
      ClearedOk(s0, hand0, k);
      clock.hand := Next(|clock.pages|, f);
      WriteOut(f);
    }

    /** Steps 2 to 5 of clock_algorithm. */
    method WriteOut(f: nat)
      requires SwapOk(View()) && f < |clock.pages| && clock.pages[f].owner.Page?
      modifies this, clock`pages
      ensures SwapOk(View()) && |clock.pages| == old(|clock.pages|) && clock.pages[f].owner.Nobody?
      ensures SameMem(old(View()), View()) && SameOffList(old(ptes), ptes)
      ensures var p := old(clock.pages[f]);
              var w := if p.sdSec != 0 then p.sdSec else old(offset);
              && p.owner.v < |old(ptes)| && |p.data| == SEC_NUM_PAGE
              && ptes == old(ptes)[p.owner.v := InSd(w)] && clock.pages == old(clock.pages)[f := p.(owner := Nobody)]
              && sd == (if p.d || p.sdSec == 0 then WriteSlot(old(sd), w, p.data) else old(sd))
              && offset == old(offset) + if p.sdSec == 0 then SEC_NUM_PAGE else 0
    {
      ghost var s := View();
      EvictOk(s, f);
      hide Mem, ReadSlot, WriteSlot, SlotsOk, CopiesOk;
      var p := clock.pages[f];
      var w;
      if p.d {
        if p.sdSec != 0 { w := p.sdSec; } else { w := GetSwapSec(); }
        sd := WriteSlot(sd, w, p.data);
      } else if p.sdSec == 0 {
        w := GetSwapSec();
        sd := WriteSlot(sd, w, p.data);
      } else {
        w := p.sdSec;
      }
      ptes := ptes[p.owner.v := InSd(w)];
      clock.pages := clock.pages[f := p.(owner := Nobody)];
      assert View() == Evict(s, f);
    }

    /** alloc_page_point_phyc on a page node that is free. */
    method MapPage(v: nat, f: nat, data: Data, sec: nat, a: bool, d: bool)
      requires SwapOk(View()) && v < |ptes| && f < |clock.pages| && clock.pages[f].owner.Nobody? && |data| == SEC_NUM_PAGE
      requires (ptes[v] == InSd(sec) && data == ReadSlot(sd, sec)) || (ptes[v] == Unmapped && sec == 0 && data == ZeroPage())
      modifies this`ptes, clock`pages
      ensures SwapOk(View()) && |clock.pages| == old(|clock.pages|) && ptes == old(ptes)[v := Here(f)]
      ensures SameMem(old(View()), View()) && Has(clock.pages, Any)
    {
      MapOk(View(), v, f, data, sec, a, d);
      hide SlotsOk, CopiesOk, ReadSlot;
      clock.pages := clock.pages[f := Node(Page(v), a, d, true, data, sec)];
      ptes := ptes[v := Here(f)];
      assert Fits(clock.pages[f], Any);
    }

    /** deal_in_SD: page v comes back from the card. */
    method DealInSd(v: nat, low: bool)
      requires Valid() && v < |ptes| && ptes[v].InSd? && (low ==> Has(clock.pages, Any))
      modifies this, clock
      ensures Valid() && SameMem(old(View()), View())
      ensures if low then ptes[v].Here? else ptes[v].Fixed?
      ensures |clock.pages| == old(|clock.pages|)
      ensures low ==> FirstFit(old(clock.pages), old(clock.hand), Choice(old(clock.pages)), ptes[v].f)
      ensures Has(old(clock.pages), Any) ==> Has(clock.pages, Any)
    {
      hide SwapOk, Mem, ReadSlot, Has;
      var sec := ptes[v].sec;
      Linked0(View());
      if low {
        var f := ClockAlgorithm();
        MapPage(v, f, ReadSlot(sd, sec), sec, false, false);
      } else {
        FixedOk(View(), v);
        ptes := ptes[v := Fixed(ReadSlot(sd, sec), sec)];
      }
    }

    /** deal_no_alloc: page v is touched for the first time. */
    method DealNoAlloc(v: nat, store: bool, low: bool)
      requires Valid() && v < |ptes| && ptes[v].Unmapped? && (low ==> Has(clock.pages, Any))
      modifies this, clock
      ensures Valid() && SameMem(old(View()), View()) && ptes[v].Here? && Has(clock.pages, Any)
      ensures |clock.pages| == old(|clock.pages|) + if low then 0 else 1
      ensures if low then FirstFit(old(clock.pages), old(clock.hand), Choice(old(clock.pages)), ptes[v].f)
              else ptes[v].f == old(|clock.pages|)
    {
      hide SwapOk, Mem, ZeroPage, Has;
      Linked0(View());
      if low {
        var f := ClockAlgorithm();
        MapPage(v, f, ZeroPage(), 0, !store, store);
      } else {
        AppendOk(View());
        clock.pages := clock.pages + [Node(Nobody, false, false, false, ZeroPage(), 0)];
        MapPage(v, |clock.pages| - 1, ZeroPage(), 0, !store, store);
      }
    }

    /** The fault handler on an access to page v: afterwards the page is in memory. */
    method HandleFault(v: nat, store: bool, low: bool)
      requires Valid() && v < |ptes| && !Starved(View(), v, low)
      modifies this, clock
      ensures Valid() && SameMem(old(View()), View()) && (ptes[v].Here? || ptes[v].Fixed?)
      ensures Has(old(clock.pages), Any) || old(ptes[v]).Unmapped? ==> Has(clock.pages, Any)
    {
      Linked0(View());
      hide SwapOk, Has, Mem;
      if ptes[v].InSd? {
        DealInSd(v, low);
      } else if ptes[v].Unmapped? {
        DealNoAlloc(v, store, low);
      }
    }

    /** A program's load, with the fault it may take first. */
    method UserLoad(v: nat, low: bool) returns (data: Data)
      requires Valid() && v < |ptes| && !Starved(View(), v, low)
      modifies this, clock
      ensures Valid() && SameMem(old(View()), View()) && data == Mem(old(View()), v)
      ensures ptes[v].Here? ==> ptes[v].f < |clock.pages| && clock.pages[ptes[v].f].a
      ensures Has(old(clock.pages), Any) || old(ptes[v]).Unmapped? ==> Has(clock.pages, Any)
    {
      Linked0(View());
      hide SwapOk, Has;
      HandleFault(v, false, low);
      match ptes[v]
      case Here(f) =>
        TouchOk(View(), v);
        data := clock.pages[f].data;
        HasTouched(clock.pages, f, clock.pages[f].(a := true));
        clock.pages := clock.pages[f := clock.pages[f].(a := true)];
      case Fixed(d, _) => data := d;
    }

    /** A program's store to a page, with the fault it may take first; it sets the dirty bit. */
    method UserStore(v: nat, data: Data, low: bool)
      requires Valid() && v < |ptes| && |data| == SEC_NUM_PAGE && !Starved(View(), v, low)
      modifies this, clock
      ensures Valid() && |ptes| == old(|ptes|)
      ensures forall u :: 0 <= u < |ptes| ==> Mem(View(), u) == if u == v then data else Mem(old(View()), u)
      ensures ptes[v].Here? ==> ptes[v].f < |clock.pages| && clock.pages[ptes[v].f].a && clock.pages[ptes[v].f].d
      ensures Has(old(clock.pages), Any) || old(ptes[v]).Unmapped? ==> Has(clock.pages, Any)
    {
      Linked0(View());
      hide SwapOk, Has;
      HandleFault(v, true, low);
      match ptes[v]
      case Here(f) =>
        AccessOk(View(), v, data, true);
        HasTouched(clock.pages, f, clock.pages[f].(data := data, a := true, d := true));
        clock.pages := clock.pages[f := clock.pages[f].(data := data, a := true, d := true)];
      case Fixed(_, sec) =>
        StoreFixedOk(View(), v, data);
        ptes := ptes[v := Fixed(data, sec)];
    }

    /**
      Any run of loads and stores, short of memory or not: each load gives the bytes stored last.
      The run goes through the states of the trace, each access from one to the next, and stops
      exactly at the first access for which there is no page to swap out.  No access uses up the
      pages that can be swapped out, so with one of them the run does not stop at all.
     */
    method Run(ops: seq<Access>) returns (out: seq<Data>, ghost trace: seq<State>)
      requires Valid() && forall i :: 0 <= i < |ops| ==> Legal(ops[i], |ptes|)
      modifies this, clock
      ensures Valid() && |out| <= |ops| && Story(trace, ops[..|out|], out)
      ensures trace[0] == old(View()) && trace[|out|] == View()
      ensures forall i :: 0 <= i < |ops| ==> ops[i].v < |Memory(old(View()))|
      ensures forall i :: 0 <= i < |out| && ops[i].Load? ==> out[i] == Plain(Memory(old(View())), ops[..i])[ops[i].v]
      ensures Memory(View()) == Plain(Memory(old(View())), ops[..|out|])
      ensures |out| < |ops| ==> Starved(trace[|out|], ops[|out|].v, ops[|out|].low)
      ensures Has(old(clock.pages), Any) ==> |out| == |ops|
    {
      hide SwapOk, Memory, Starved, Served, Has;
      out, trace := [], [View()];
      while |out| < |ops|
        invariant Valid() && |out| <= |ops| && |ptes| == old(|ptes|)
        invariant Story(trace, ops[..|out|], out) && trace[0] == old(View()) && trace[|out|] == View()
      {
        var i := |out|;
        var ok, d := Do(ops[i]);
        if !ok {
          break;
        }
        assert ops[..i + 1] == ops[..i] + [ops[i]];
        StoryNext(trace, ops[..i], out, View(), ops[i], d);
        out, trace := out + [d], trace + [View()];
      }
      Linked0(trace[0]);
      Told(trace, ops, out);
    }

    /** One access; it is served exactly when it does not need a page that no other can make room for. */
    method Do(op: Access) returns (ok: bool, data: Data)
      requires Valid() && Legal(op, |ptes|)
      modifies this, clock
      ensures Valid() && |ptes| == old(|ptes|) && (ok <==> !Starved(old(View()), op.v, op.low))
      ensures ok ==> Served(old(View()), op, data, View())
      ensures ok ==> Memory(View()) == Apply(Memory(old(View())), op)
      ensures ok && op.Load? ==> data == Memory(old(View()))[op.v]
      ensures ok ==> forall u :: 0 <= u < |ptes| ==>
                Memory(View())[u] == if op.Store? && u == op.v then op.data else Memory(old(View()))[u]
      ensures !ok ==> View() == old(View())
    {
      Linked0(View());
      hide SwapOk, Mem;
      ok, data := true, [];
      var fault := ptes[op.v].InSd? || ptes[op.v].Unmapped?;
      if op.low && fault && !Has(clock.pages, Any) {
        return false, [];
      }
      hide Has;
      match op
      case Load(v, low) => data := UserLoad(v, low);
      case Store(v, d, low) => UserStore(v, d, low);
      Linked0(View());
    }
  }

  /**
    An access has been served: plain memory moves as it says, there was a page to swap out if one was
    needed, and there still is one if there was one before or a page has been touched for the first time.
   */
  ghost predicate Served(s: State, op: Access, data: Data, s': State) {
    && Linked(s.ptes, s.pages) && Linked(s'.ptes, s'.pages) && op.v < |s.ptes| && !Starved(s, op.v, op.low)
    && Memory(s') == Apply(Memory(s), op) && (op.Load? ==> data == Memory(s)[op.v])
    && (Has(s.pages, Any) || s.ptes[op.v].Unmapped? ==> Has(s'.pages, Any))
  }

  /** The accesses ops have been served one after the other, through the states of the trace. */
  ghost predicate Story(trace: seq<State>, ops: seq<Access>, out: seq<Data>) {
    && |trace| == |ops| + 1 && |out| == |ops|
    && forall n :: 0 <= n < |ops| ==> Served(trace[n], ops[n], out[n], trace[n + 1])
  }

  lemma StoryNext(trace: seq<State>, ops: seq<Access>, out: seq<Data>, s: State, op: Access, data: Data)
    requires Story(trace, ops, out) && Served(trace[|ops|], op, data, s)
    ensures Story(trace + [s], ops + [op], out + [data])
  {
    hide Served;
    var t, o, d := trace + [s], ops + [op], out + [data];
    forall n | 0 <= n < |o| ensures Served(t[n], o[n], d[n], t[n + 1]) {
      if n < |ops| { assert t[n] == trace[n] && t[n + 1] == trace[n + 1] && o[n] == ops[n] && d[n] == out[n]; }
    }
  }

  /** A page that can be swapped out is there for ever. */
  lemma {:induction false} StoryHas(trace: seq<State>, ops: seq<Access>, out: seq<Data>, n: nat)
    requires Story(trace, ops, out) && Has(trace[0].pages, Any) && n <= |ops|
    ensures Has(trace[n].pages, Any)
  {
    if n > 0 {
      StoryHas(trace, ops, out, n - 1);
      assert Served(trace[n - 1], ops[n - 1], out[n - 1], trace[n]);
    }
  }

  /** The memory of a run is the plain memory. */
  lemma {:induction false} StoryMemory(trace: seq<State>, ops: seq<Access>, out: seq<Data>, n: nat)
    requires Story(trace, ops, out) && n <= |ops| && Linked(trace[0].ptes, trace[0].pages)
    ensures Linked(trace[n].ptes, trace[n].pages) && Memory(trace[n]) == Plain(Memory(trace[0]), ops[..n])
  {
    hide Memory, Has, Starved;
    if n > 0 {
      StoryMemory(trace, ops, out, n - 1);
      assert Served(trace[n - 1], ops[n - 1], out[n - 1], trace[n]);
      assert ops[..n][..n - 1] == ops[..n - 1];
    }
  }

  /** So every load gives what was stored last, and the run has stopped only for want of a page. */
  lemma Told(trace: seq<State>, ops: seq<Access>, out: seq<Data>)
    requires |out| <= |ops| && Story(trace, ops[..|out|], out) && Linked(trace[0].ptes, trace[0].pages)
    ensures Linked(trace[|out|].ptes, trace[|out|].pages)
    ensures Memory(trace[|out|]) == Plain(Memory(trace[0]), ops[..|out|])
    ensures forall i :: 0 <= i < |out| && ops[i].Load? ==>
              ops[i].v < |trace[0].ptes| && out[i] == Plain(Memory(trace[0]), ops[..i])[ops[i].v]
    ensures |out| < |ops| && Starved(trace[|out|], ops[|out|].v, ops[|out|].low) ==> !Has(trace[0].pages, Any)
  {
    var done := ops[..|out|];
    StoryMemory(trace, done, out, |out|);
    assert done[..|out|] == done;
    forall i | 0 <= i < |out| && ops[i].Load?
      ensures ops[i].v < |trace[0].ptes| && out[i] == Plain(Memory(trace[0]), ops[..i])[ops[i].v]
    {
      StoryMemory(trace, done, out, i);
      assert done[..i] == ops[..i] && done[i] == ops[i];
      assert Served(trace[i], done[i], out[i], trace[i + 1]);
    }
    if |out| < |ops| && Starved(trace[|out|], ops[|out|].v, ops[|out|].low) {
      NotYet(trace, done, out, ops[|out|]);
    }
  }

  lemma NotYet(trace: seq<State>, ops: seq<Access>, out: seq<Data>, op: Access)
    requires Story(trace, ops, out) && Starved(trace[|ops|], op.v, op.low)
    ensures !Has(trace[0].pages, Any)
  {
    if Has(trace[0].pages, Any) { StoryHas(trace, ops, out, |ops|); }
  }

  lemma HasTouched(pages: seq<Node>, f: nat, p: Node)
    requires f < |pages| && p.owner == pages[f].owner && p.w == pages[f].w
    ensures Has(pages[f := p], Any) <==> Has(pages, Any)
  {
    assert forall i :: 0 <= i < |pages| ==> (Fits(pages[f := p][i], Any) <==> Fits(pages[i], Any));
  }

  lemma Linked0(s: State)
    requires SwapOk(s)
    ensures Linked(s.ptes, s.pages)
  {
  }
}
