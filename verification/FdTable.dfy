/** Descriptor numbers (kernel/fat32/file.c). */
module FdTable {

  /** Slot i is in use for descriptor fd. */
  predicate Names(used: seq<bool>, num: seq<int>, i: nat, fd: int) {
    i < |used| && i < |num| && used[i] && num[i] == fd
  }

  predicate InUse(used: seq<bool>, num: seq<int>, fd: int) { exists i: nat | i < |used| :: Names(used, num, i, fd) }

  /** No two slots in use have the same number. */
  ghost predicate Distinct(used: seq<bool>, num: seq<int>) {
    |used| == |num| && forall i: nat, j: nat, fd :: Names(used, num, i, fd) && Names(used, num, j, fd) ==> i == j
  }

  /** The lowest number that is not in use. */
  ghost predicate IsLowest(used: seq<bool>, num: seq<int>, fd: nat) {
    !InUse(used, num, fd) && forall k :: 0 <= k < fd ==> InUse(used, num, k)
  }

  /** The slots in use for numbers in a range. */
  ghost function SlotsFrom(used: seq<bool>, num: seq<int>, lo: int): set<nat>
    requires |used| == |num|
  {
    set i: nat | i < |used| && used[i] && num[i] >= lo
  }

  ghost function SlotsBelow(used: seq<bool>, num: seq<int>, hi: int): set<nat>
    requires |used| == |num|
  {
    set i: nat | i < |used| && used[i] && 0 <= num[i] < hi
  }

  /** Numbers 0 to fd - 1 in use take fd different slots. */
  lemma {:induction false} Pigeonhole(used: seq<bool>, num: seq<int>, fd: nat)
    requires |used| == |num| && forall k :: 0 <= k < fd ==> InUse(used, num, k)
    ensures |SlotsBelow(used, num, fd)| >= fd
  {
    if fd > 0 {
      Pigeonhole(used, num, fd - 1);
      assert InUse(used, num, fd - 1);
      var i: nat :| i < |used| && Names(used, num, i, fd - 1);
      var less := SlotsBelow(used, num, fd - 1);
      assert less + {i} <= SlotsBelow(used, num, fd);
      SubsetSize(less + {i}, SlotsBelow(used, num, fd));
    }
  }

  lemma {:induction false} SubsetSize(a: set<nat>, b: set<nat>)
    requires a <= b
    ensures |a| <= |b|
  {
    if a != {} {
      var x :| x in a;
      SubsetSize(a - {x}, b - {x});
    }
  }

  lemma {:induction false} BelowSize(s: set<nat>, n: nat)
    requires forall i :: i in s ==> i < n
    ensures |s| <= n
  {
    if n > 0 {
      BelowSize(s - {n - 1}, n - 1);
    } else {
      assert s == {};
    }
  }

  /** With a free slot, the lowest number that is not in use is below the number of slots. */
  lemma LowestInRange(used: seq<bool>, num: seq<int>, fd: nat, slot: nat)
    requires |used| == |num| && IsLowest(used, num, fd) && slot < |used| && !used[slot]
    ensures fd < |used|
  {
    Pigeonhole(used, num, fd);
    var s := SlotsBelow(used, num, fd);
    BelowSize(s + {slot}, |used|);
  }

  class Table {
    var used: seq<bool>
    var num: seq<int>

    ghost predicate Valid()
      reads this
    {
      Distinct(used, num)
    }

    constructor (n: nat)
      ensures Valid() && |used| == n && forall i :: 0 <= i < n ==> !used[i]
    {
      used := seq(n, i => false);
      num := seq(n, i => 0);
    }

    /** get_fd_index_without_redirect */
    method GetFdIndex(fd: int) returns (index: int)
      requires Valid()
      ensures -1 <= index < |used|
      ensures index >= 0 ==> Names(used, num, index, fd)
      ensures index == -1 <==> !InUse(used, num, fd)
    {
      for i := 0 to |used|
        invariant forall j: nat :: j < i ==> !Names(used, num, j, fd)
      {
        if used[i] && num[i] == fd {
          assert Names(used, num, i, fd);
          return i;
        }
      }
      index := -1;
    }

    /** get_one_fd: the lowest number not in use, or -1 when every slot is taken. */
    method GetOneFd() returns (fd: int)
      requires Valid()
      modifies this
      ensures Valid() && |used| == old(|used|)
      ensures fd == -1 <==> forall i :: 0 <= i < |used| ==> old(used[i])
      ensures fd == -1 ==> unchanged(this)
      ensures fd != -1 ==> 0 <= fd < |used| && IsLowest(old(used), old(num), fd) && InUse(used, num, fd)
      ensures forall k :: k != fd ==> (InUse(used, num, k) <==> old(InUse(used, num, k)))
    {
      var alloc: nat := LowestUnused();
      for i := 0 to |used|
        invariant forall j :: 0 <= j < i ==> used[j]
      {
        if !used[i] {
          LowestInRange(used, num, alloc, i);
          ghost var used0, num0 := used, num;
          used := used[i := true];
          num := num[i := alloc];
          Taken(used0, num0, i, alloc);
          return alloc;
        }
      }
      fd := -1;
    }

    /** The search loops of get_one_fd; they end because every round passes a slot in use. */
    method LowestUnused() returns (alloc: nat)
      requires |used| == |num|
      ensures IsLowest(used, num, alloc)
    {
      alloc := 0;
      var ok := false;
      while !ok
        invariant forall k :: 0 <= k < alloc ==> InUse(used, num, k)
        invariant ok ==> !InUse(used, num, alloc)
        decreases !ok, SlotsFrom(used, num, alloc)
      {
        ok := true;
        ghost var was := alloc;
        for i := 0 to |used|
          invariant ok && alloc == was && forall j: nat :: j < i ==> !Names(used, num, j, alloc)
        {
          if used[i] && num[i] == alloc {
            assert Names(used, num, i, alloc);
            assert i in SlotsFrom(used, num, was) && i !in SlotsFrom(used, num, was + 1);
            ok := false;
            alloc := alloc + 1;
            break;
          }
        }
      }
    }
  }

  /** Slot i, free before, is now in use for fd. */
  lemma Taken(used: seq<bool>, num: seq<int>, i: nat, fd: nat)
    requires Distinct(used, num) && i < |used| && !used[i] && !InUse(used, num, fd)
    ensures Distinct(used[i := true], num[i := fd]) && InUse(used[i := true], num[i := fd], fd)
    ensures forall k :: k != fd ==> (InUse(used[i := true], num[i := fd], k) <==> InUse(used, num, k))
  {
    var used', num' := used[i := true], num[i := fd];
    assert forall j: nat, k :: Names(used', num', j, k) <==> Names(used, num, j, k) || (j == i && k == fd);
    assert Names(used', num', i, fd);
  }
}
