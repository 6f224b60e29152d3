/**
  The clock scan that chooses a page to swap out (kernel/swap/swap.c).  Positions are places in
  swapPageList; the hand never stands on the list head.
 */
module Clock {

  /** The contents of a page, sector by sector. */
  type Data = seq<seq<bv8>>

  /** A virtual page, as the owner of a physical page; Nobody is a null page_pte. */
  datatype Owner = Nobody | Page(v: nat)

  /** A page_node_t on the list, with the accessed, dirty and write bits of its PTE. */
  datatype Node = Node(owner: Owner, a: bool, d: bool, w: bool, data: Data, sdSec: nat)

  predicate Swappable(p: Node) { p.owner.Page? && p.w }

  datatype Want = Clean | Idle | Any

  /** What the passes of the scan look for. */
  predicate Fits(p: Node, want: Want) {
    Swappable(p) && (want.Any? || !p.a) && (want.Clean? ==> !p.d)
  }

  function Next(n: nat, q: nat): (r: nat)
    requires q < n
    ensures r < n && r == (q + 1) % n
  {
    if q + 1 == n then 0 else q + 1
  }

  /** How many steps the hand needs to get to position i. */
  function Off(n: nat, hand: nat, i: nat): (k: nat)
    requires hand < n && i < n
    ensures k < n && (hand + k) % n == i
  {
    assert (i + n) % n == i;
    if i >= hand then i - hand else i - hand + n
  }

  /** r is the first position from the hand on that fits. */
  ghost predicate FirstFit(pages: seq<Node>, hand: nat, want: Want, r: nat) {
    && hand < |pages| && r < |pages| && Fits(pages[r], want)
    && (forall i :: 0 <= i < |pages| && Off(|pages|, hand, i) < Off(|pages|, hand, r) ==> !Fits(pages[i], want))
  }

  predicate Has(pages: seq<Node>, want: Want) {
    exists i :: 0 <= i < |pages| && Fits(pages[i], want)
  }

  /** The pages after the scan has cleared the accessed bits of the first k positions from the hand. */
  function Cleared(pages: seq<Node>, hand: nat, k: nat): (r: seq<Node>)
    requires hand < |pages|
    ensures |r| == |pages|
  {
    seq(|pages|, i requires 0 <= i < |pages| =>
      if Off(|pages|, hand, i) < k && pages[i].owner.Page? then pages[i].(a := false) else pages[i])
  }

  lemma OffNext(n: nat, hand: nat, q: nat)
    requires hand < n && q < n
    ensures Off(n, hand, Next(n, q)) == if Next(n, q) == hand then 0 else Off(n, hand, q) + 1
    ensures Next(n, q) == hand <==> Off(n, hand, q) == n - 1
    ensures Next(n, q) == q <==> n == 1
  {
  }

  /** Where find_swap_A is: in its first sweep from the hand, or in its second. */
  ghost predicate ScanInv(p0: seq<Node>, pages: seq<Node>, hand: nat, q: nat, second: bool) {
    var n := |p0|;
    && hand < n && q < n && (n == 1 || Has(p0, Any))
    && (second ==> n > 1 && !Has(p0, Idle))
    && pages == Cleared(p0, hand, if second then n else Off(n, hand, q))
    && (forall i :: 0 <= i < n && Off(n, hand, i) < Off(n, hand, q) ==> !Fits(p0[i], if second then Any else Idle))
  }

  /** The test of find_swap_A. */
  predicate Hit(p: Node) { p.owner.Page? && !p.a && p.w }

  function Pass(pages: seq<Node>, q: nat): seq<Node>
    requires q < |pages|
  {
    if pages[q].owner.Page? then pages[q := pages[q].(a := false)] else pages
  }

  lemma ScanHit(p0: seq<Node>, pages: seq<Node>, hand: nat, q: nat, second: bool)
    requires ScanInv(p0, pages, hand, q, second) && Hit(pages[q])
    ensures Fits(pages[q], Idle) && FirstFit(p0, hand, if Has(p0, Idle) then Idle else Any, q)
  {
    assert pages[q] == if second then p0[q].(a := false) else p0[q];
    if !second { assert Fits(p0[q], Idle); }
  }

  lemma PassCleared(p0: seq<Node>, hand: nat, q: nat)
    requires hand < |p0| && q < |p0|
    ensures Pass(Cleared(p0, hand, Off(|p0|, hand, q)), q) == Cleared(p0, hand, Off(|p0|, hand, q) + 1)
    ensures Pass(Cleared(p0, hand, |p0|), q) == Cleared(p0, hand, |p0|)
  {
  }

  lemma ScanBegin(p0: seq<Node>, hand: nat)
    requires hand < |p0| && (|p0| == 1 || Has(p0, Any))
    ensures ScanInv(p0, p0, hand, hand, false)
  {
    assert p0 == Cleared(p0, hand, 0);
  }

  lemma ScanMiss(p0: seq<Node>, pages: seq<Node>, hand: nat, q: nat, second: bool)
    requires ScanInv(p0, pages, hand, q, second) && !Hit(pages[q])
    ensures var n, q' := |p0|, Next(|p0|, q);
            && (n == 1 ==> !Fits(p0[0], Idle) && Pass(pages, q) == Cleared(p0, hand, 1))
            && (n > 1 ==> ScanInv(p0, Pass(pages, q), hand, q', second || q' == hand))
            && (n > 1 && q' == hand ==> !second)
            && (n > 1 && q' != hand ==> Off(n, hand, q') == Off(n, hand, q) + 1)
  {
    var n, q' := |p0|, Next(|p0|, q);
    PassCleared(p0, hand, q);
    OffNext(n, hand, q);
    var want := if second then Any else Idle;
    assert pages[q] == if second && p0[q].owner.Page? then p0[q].(a := false) else p0[q];
    assert !Fits(p0[q], want);
    assert forall i :: 0 <= i < n && Off(n, hand, i) <= Off(n, hand, q) ==> i == q || Off(n, hand, i) < Off(n, hand, q);
    hide Cleared, Pass;
    if Off(n, hand, q) == n - 1 {
      assert !Has(p0, want);
    }
  }

  // ----- When find_swap_A stops

  /** Before a round of its loop, or after the loop; r == |pages| stands for NULL. */
  datatype Scan = At(pages: seq<Node>, q: nat) | Stopped(pages: seq<Node>, r: nat)

  function Round(s: Scan): Scan {
    match s
    case Stopped(_, _) => s
    case At(pages, q) =>
      if q >= |pages| then s
      else if Hit(pages[q]) then Stopped(pages, q)
      else if Next(|pages|, q) == q then Stopped(Pass(pages, q), |pages|)
      else At(Pass(pages, q), Next(|pages|, q))
  }

  function Rounds(s: Scan, k: nat): Scan
    decreases k
  {
    if k == 0 then s else Rounds(Round(s), k - 1)
  }

  lemma {:induction false} StaysStopped(s: Scan, k: nat)
    requires s.Stopped?
    ensures Rounds(s, k) == s
  {
    if k > 0 { StaysStopped(s, k - 1); }
  }

  lemma {:induction false} StopsInTime(p0: seq<Node>, pages: seq<Node>, hand: nat, q: nat, second: bool, k: nat)
    requires ScanInv(p0, pages, hand, q, second)
    requires k + Off(|p0|, hand, q) >= |p0| + if second then 0 else |p0|
    ensures Rounds(At(pages, q), k).Stopped?
    decreases k
  {
    hide Has, Cleared, Pass;
    var n := |p0|;
    var s := Round(At(pages, q));
    if Hit(pages[q]) || n == 1 {
      OffNext(n, hand, q);
      StaysStopped(s, k - 1);
    } else {
      ScanMiss(p0, pages, hand, q, second);
      OffNext(n, hand, q);
      StopsInTime(p0, Pass(pages, q), hand, Next(n, q), second || Next(n, q) == hand, k - 1);
    }
  }

  lemma {:induction false} NeverStops(pages: seq<Node>, q: nat, k: nat)
    requires q < |pages| && |pages| > 1 && !Has(pages, Any)
    ensures Rounds(At(pages, q), k).At?
    decreases k
  {
    if k > 0 {
      assert !Fits(pages[q], Any);
      var next := Pass(pages, q);
      assert forall i :: 0 <= i < |pages| ==> (Fits(next[i], Any) <==> Fits(pages[i], Any));
      assert Round(At(pages, q)) == At(next, Next(|pages|, q));
      NeverStops(next, Next(|pages|, q), k - 1);
    }
  }

  /** find_swap_A stops if and only if a page can be swapped or the list has one page; then two sweeps are enough. */
  lemma ScanStops(pages: seq<Node>, hand: nat)
    requires hand < |pages|
    ensures (exists k: nat :: Rounds(At(pages, hand), k).Stopped?) <==> |pages| == 1 || Has(pages, Any)
    ensures |pages| == 1 || Has(pages, Any) ==> Rounds(At(pages, hand), 2 * |pages|).Stopped?
  {
    if |pages| == 1 || Has(pages, Any) {
      ScanBegin(pages, hand);
      StopsInTime(pages, pages, hand, hand, false, 2 * |pages|);
    } else {
      forall k: nat ensures Rounds(At(pages, hand), k).At? {
        NeverStops(pages, hand, k);
      }
    }
  }

  ghost function Choice(pages: seq<Node>): Want {
    if Has(pages, Clean) then Clean else if Has(pages, Idle) then Idle else Any
  }

  class List {
    var pages: seq<Node>
    var hand: nat

    constructor (pages: seq<Node>)
      ensures this.pages == pages && hand == 0
    {
      this.pages, hand := pages, 0;
    }

    /** find_swap_AD: the first clean and unaccessed page from the hand on; |pages| stands for NULL. */
    method FindAD() returns (r: nat)
      requires hand < |pages|
      ensures if r < |pages| then FirstFit(pages, hand, Clean, r) else !Has(pages, Clean)
      ensures r < |pages| ==> pages[r].owner.Page? && pages[r].w && !pages[r].a && !pages[r].d
      ensures r >= |pages| ==> forall i :: 0 <= i < |pages| ==> pages[i].owner.Nobody? || !pages[i].w || pages[i].a || pages[i].d
    {
      ghost var n := |pages|;
      var q: nat := hand;
      while true
        invariant q < n && forall i :: 0 <= i < n && Off(n, hand, i) < Off(n, hand, q) ==> !Fits(pages[i], Clean)
        decreases n - Off(n, hand, q)
      {
        if pages[q].owner.Page? && !(pages[q].a || pages[q].d) && pages[q].w {
          return q;
        }
        OffNext(n, hand, q);
        q := Next(|pages|, q);
        if q == hand { break; }
      }
      r := |pages|;
    }

    /**
      find_swap_A.  The loop test compares with the page just left, so only a list of one page
      ends without finding anything.
     */
    method FindA() returns (r: nat)
      requires hand < |pages| && (|pages| == 1 || Has(pages, Any))
      modifies this`pages
      ensures |pages| == old(|pages|) && (r < |pages| ==> Fits(pages[r], Idle))
      ensures if r < |pages| then FirstFit(old(pages), hand, if Has(old(pages), Idle) then Idle else Any, r)
              else |pages| == 1 && !Fits(old(pages[0]), Idle) && pages == Cleared(old(pages), hand, 1)
      ensures exists k :: 0 <= k <= |pages| && pages == Cleared(old(pages), hand, k)
    {
      hide Has, Cleared, FirstFit, Off;
      ghost var p0, n, second := pages, |pages|, false;
      ScanBegin(pages, hand);
      var q: nat := hand;
      while true
        invariant q < n && ScanInv(p0, pages, hand, q, second)
        decreases !second, n - Off(n, hand, q)
      {
        ghost var p := pages;
        if pages[q].owner.Page? {
          if !pages[q].a && pages[q].w {
            ScanHit(p0, pages, hand, q, second);
            return q;
          }
          pages := pages[q := pages[q].(a := false)];
        }
        ScanMiss(p0, p, hand, q, second);
        var left := q;
        q := Next(|pages|, q);
        if q == left { break; }
        second := second || q == hand;
      }
      r := |pages|;
    }

    /**
      find_swap_page: a clean unaccessed page if there is one, else an unaccessed page, else any
      page that can be swapped; always the first one from the hand on.
     */
    method FindSwapPage() returns (r: nat)
      requires hand < |pages| && Has(pages, Any)
      modifies this`pages
      ensures |pages| == old(|pages|) && r < |pages| && Fits(pages[r], Idle)
      ensures FirstFit(old(pages), hand, Choice(old(pages)), r)
      ensures Has(old(pages), Clean) ==> pages == old(pages)
      ensures old(pages)[r].owner.Page? && old(pages)[r].w
      ensures forall i :: 0 <= i < |pages| && old(pages)[i].owner.Page? && old(pages)[i].w && !old(pages)[i].a ==>
                !old(pages)[r].a && (!old(pages)[i].d ==> !old(pages)[r].d)
      ensures exists k :: 0 <= k <= |pages| && pages == Cleared(old(pages), hand, k)
    {
      r := FindAD();
      if r < |pages| {
        ScanBegin(pages, hand);
        return;
      }
      r := FindA();
      if r < |pages| { return; }
      r := FindAD();
      if r < |pages| { return; }
      r := FindA();
    }
  }
}
