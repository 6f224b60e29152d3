/**
  Futexes (kernel/locking/futex.c, include/os/futex.h): 60 futex nodes hashed by user address
  into 100 buckets, each with a queue of blocked tasks.
 */
module Futex {
  import opened Sched
  import opened Seqs

  const BUCKETS: nat := 100   // FUTEX_BUCKETS
  const NODES: nat := 60      // MAX_FUTEX_NUM

  /** Node i's block_queue is wait queue BASE + i of the scheduler. */
  const BASE: nat := 1

  const EAGAIN := 11

  /** futex_hash. */
  function Hash(x: bv64): (k: nat)
    ensures k < BUCKETS
  {
    var x1 := (x ^ (x >> 30)) * 0xbf58476d1ce4e5b9;
    var x2 := (x1 ^ (x1 >> 27)) * 0x94d049bb133111eb;
    (x2 ^ (x2 >> 31)) as nat % BUCKETS
  }

  datatype Table = Table(
    keys: seq<bv64>,            // futex_key of each node
    used: seq<nat>,             // futex_node_used: creator, or 0
    buckets: seq<seq<nat>>)     // futex_buckets

  /** Node n is in use for address a. */
  predicate At(t: Table, a: bv64, n: nat) {
    n < |t.used| && n < |t.keys| && t.used[n] != 0 && t.keys[n] == a
  }

  predicate InBucket(t: Table, n: nat, b: nat) {
    n < |t.used| && n < |t.keys| && t.used[n] != 0 && Hash(t.keys[n]) == b
  }

  /** Every node in use is in the bucket of its address, once, and no address has two nodes. */
  ghost predicate TableOk(t: Table) {
    && |t.keys| == |t.used| == NODES && |t.buckets| == BUCKETS
    && (forall b :: 0 <= b < BUCKETS ==> NoDup(t.buckets[b]))
    && (forall b: nat, n: nat :: b < BUCKETS ==> (n in t.buckets[b] <==> InBucket(t, n, b)))
    && (forall a, n: nat, m: nat :: At(t, a, n) && At(t, a, m) ==> n == m)
  }

  /** Address a has no node. */
  ghost predicate Lacks(t: Table, a: bv64) { forall n: nat :: !At(t, a, n) }

  /** How many of the addresses a and a2 have no node. */
  ghost function Lacking(t: Table, a: bv64, a2: bv64): nat {
    (if Lacks(t, a) then 1 else 0) + if a2 != a && Lacks(t, a2) then 1 else 0
  }

  /** How many nodes are not in use. */
  function Unused(used: seq<nat>): nat {
    if used == [] then 0 else (if used[0] == 0 then 1 else 0) + Unused(used[1..])
  }

  lemma {:induction false} UnusedNone(used: seq<nat>)
    ensures Unused(used) == 0 <==> 0 !in used
  {
    if used != [] {
      UnusedNone(used[1..]);
      assert used == [used[0]] + used[1..];
    }
  }

  lemma {:induction false} UnusedTake(used: seq<nat>, i: nat, who: nat)
    requires i < |used| && used[i] == 0 && who != 0
    ensures Unused(used[i := who]) == Unused(used) - 1
  {
    if i > 0 {
      UnusedTake(used[1..], i - 1, who);
      assert used[i := who][1..] == used[1..][i - 1 := who];
    }
  }

  lemma Lengths(t: Table)
    requires TableOk(t)
    ensures |t.keys| == |t.used| == NODES && |t.buckets| == BUCKETS
  {
  }

  lemma OneNode(t: Table, a: bv64, n: nat, m: nat)
    requires TableOk(t) && At(t, a, n) && At(t, a, m)
    ensures n == m
  {
  }

  /** A node nobody uses has nobody waiting. */
  ghost predicate Unwaited(t: Table, waits: seq<seq<nat>>) {
    && BASE + |t.used| <= |waits|
    && (forall n :: 0 <= n < |t.used| && t.used[n] == 0 ==> waits[BASE + n] == [])
  }

  ghost predicate FutexOk(t: Table, s: Tasks) {
    TableOk(t) && Inv(s) && Unwaited(t, s.waits)
  }

  /** The tasks waiting on address a, the last one to wait first. */
  ghost function Queue(t: Table, waits: seq<seq<nat>>, a: bv64): seq<nat>
    requires BASE + |t.used| <= |waits|
  {
    if exists n: nat :: At(t, a, n) then var n: nat :| At(t, a, n); waits[BASE + n] else []
  }

  lemma QueueAt(t: Table, waits: seq<seq<nat>>, a: bv64, n: nat)
    requires TableOk(t) && BASE + |t.used| <= |waits| && At(t, a, n)
    ensures Queue(t, waits, a) == waits[BASE + n]
  {
  }

  lemma NoQueue(t: Table, waits: seq<seq<nat>>, a: bv64)
    requires BASE + |t.used| <= |waits| && forall n: nat :: !At(t, a, n)
    ensures Queue(t, waits, a) == []
  {
  }

  /** Changing the queue of the node of a changes what waits on a, and on no other address. */
  lemma QueueSet(t: Table, waits: seq<seq<nat>>, a: bv64, n: nat, w: seq<nat>)
    requires TableOk(t) && Unwaited(t, waits) && At(t, a, n)
    ensures Unwaited(t, waits[BASE + n := w])
    ensures forall b :: Queue(t, waits[BASE + n := w], b) == if b == a then w else Queue(t, waits, b)
  {
    var waits' := waits[BASE + n := w];
    forall b ensures Queue(t, waits', b) == if b == a then w else Queue(t, waits, b) {
      if m: nat :| At(t, b, m) {
        QueueAt(t, waits', b, m);
        QueueAt(t, waits, b, m);
      }
    }
  }

  /** The table step of get_node with create set, on slot i. */
  function Insert(t: Table, i: nat, a: bv64, who: nat): Table
    requires i < |t.used| == |t.keys| && Hash(a) < |t.buckets|
  {
    Table(t.keys[i := a], t.used[i := who], t.buckets[Hash(a) := t.buckets[Hash(a)] + [i]])
  }

  lemma InsertOk(t: Table, i: nat, a: bv64, who: nat)
    requires TableOk(t) && i < NODES && t.used[i] == 0 && who != 0 && forall n: nat :: !At(t, a, n)
    ensures TableOk(Insert(t, i, a, who)) && At(Insert(t, i, a, who), a, i)
    ensures forall b, n: nat :: At(Insert(t, i, a, who), b, n) <==> (b == a && n == i) || At(t, b, n)
  {
    hide Hash;
    var t' := Insert(t, i, a, who);
    assert forall b: nat :: !InBucket(t, i, b);
    forall b: nat, n: nat | b < BUCKETS ensures n in t'.buckets[b] <==> InBucket(t', n, b) {
      assert n in t'.buckets[b] <==> n in t.buckets[b] || (b == Hash(a) && n == i);
    }
    forall b: nat | b < BUCKETS ensures NoDup(t'.buckets[b]) {
      assert i !in t.buckets[b];
    }
    forall b, n: nat, m: nat | At(t', b, n) && At(t', b, m) ensures n == m {
      assert (b == a && n == i) || At(t, b, n);
      assert (b == a && m == i) || At(t, b, m);
    }
  }

  /** Creating a node changes nobody's queue. */
  lemma InsertQueues(t: Table, waits: seq<seq<nat>>, i: nat, a: bv64, who: nat)
    requires TableOk(t) && Unwaited(t, waits) && i < NODES && t.used[i] == 0 && who != 0
    requires forall n: nat :: !At(t, a, n)
    ensures Unwaited(Insert(t, i, a, who), waits)
    ensures forall b :: Queue(Insert(t, i, a, who), waits, b) == Queue(t, waits, b)
  {
    InsertOk(t, i, a, who);
    hide Hash, TableOk;
    var t' := Insert(t, i, a, who);
    forall b ensures Queue(t', waits, b) == Queue(t, waits, b) {
      if b == a {
        QueueAt(t', waits, b, i);
      } else if n: nat :| At(t, b, n) {
        QueueAt(t, waits, b, n);
        QueueAt(t', waits, b, n);
      }
    }
  }

  // ----- Requeueing

  /** list_del and list_add of the first task of queue p to queue q. */
  function Move(s: Tasks, p: nat, q: nat): Tasks
    requires p < |s.waits| && q < |s.waits| && s.waits[p] != [] && s.waits[p][0] < |s.home|
  {
    var t := s.waits[p][0];
    var w := s.waits[p := s.waits[p][1..]];
    s.(waits := w[q := [t] + w[q]], home := s.home[t := q])
  }

  lemma MoveWaits(s: Tasks, p: nat, q: nat)
    requires WaitsOk(s.waits, s.status, s.home) && p < |s.waits| && q < |s.waits| && s.waits[p] != []
    ensures s.waits[p][0] < |s.home| && WaitsOk(Move(s, p, q).waits, s.status, Move(s, p, q).home)
  {
    var t, w := s.waits[p][0], s.waits[p];
    assert t in s.waits[p];
    assert BlockedOn(s.status, s.home, t, p);
    DropAt(w, 0);
    assert w[..0] + w[1..] == w[1..];
    var s' := Move(s, p, q);
    assert forall r: nat :: r != p ==> !BlockedOn(s.status, s.home, t, r);
    forall r: nat, u: nat | r < |s.waits| ensures u in s'.waits[r] <==> BlockedOn(s.status, s'.home, u, r) {
      assert u in s'.waits[r] <==> if u == t then r == q else u in s.waits[r];
    }
    var rest := s.waits[p := w[1..]][q];
    assert t !in rest && NoDup(rest) && s'.waits[q] == [t] + rest;
    assert NoDup([t] + rest);
  }

  lemma MoveOk(s: Tasks, p: nat, q: nat)
    requires Inv(s) && p < |s.waits| && q < |s.waits| && s.waits[p] != []
    ensures s.waits[p][0] < |s.home| && Inv(Move(s, p, q))
  {
    hide WaitsOk, Holds, RunOk, BuildOk;
    MoveWaits(s, p, q);
  }

  /** k moves from queue p to queue q: the first k waiters of p, in reverse order, in front of q. */
  function Requeued(waits: seq<seq<nat>>, p: nat, q: nat, k: nat): seq<seq<nat>>
    requires p < |waits| && q < |waits| && k <= |waits[p]|
  {
    if p == q then waits else waits[p := waits[p][k..]][q := Reversed(waits[p][..k]) + waits[q]]
  }

  lemma RequeuedStep(s: Tasks, waits: seq<seq<nat>>, p: nat, q: nat, k: nat)
    requires p < |waits| && q < |waits| && k < |waits[p]| && s.waits == Requeued(waits, p, q, k)
    requires s.waits[p] != [] && s.waits[p][0] < |s.home|
    ensures Move(s, p, q).waits == Requeued(waits, p, q, k + 1)
  {
    var w := waits[p];
    if p == q {
      assert [w[0]] + w[1..] == w;
    } else {
      ReversedAppend(w[..k], w[k]);
      assert w[..k] + [w[k]] == w[..k + 1];
      assert [w[k]] + (Reversed(w[..k]) + waits[q]) == Reversed(w[..k + 1]) + waits[q];
    }
  }

  /** The queue of address b, at first `w`, after a wake-up of at most num tasks waiting on a. */
  function AfterWake(w: seq<nat>, a: bv64, num: int, b: bv64): seq<nat> {
    if b == a then w[AtMost(num, |w|)..] else w
  }

  /** The tasks that wake-up makes ready, last one first. */
  function Woke(w: seq<nat>, num: int): seq<nat> { Reversed(w[..AtMost(num, |w|)]) }

  /** The queue of address b, at first `w`, after requeueing at most num of the tasks `wa` waiting on a to a2. */
  function AfterRequeue(wa: seq<nat>, w: seq<nat>, a: bv64, a2: bv64, num: int, b: bv64): seq<nat> {
    if a == a2 || (b != a && b != a2) then w
    else if b == a then wa[AtMost(num, |wa|)..]
    else Woke(wa, num) + w
  }

  lemma {:induction false} ReversedSame(q: seq<nat>)
    ensures |Reversed(q)| == |q| && multiset(Reversed(q)) == multiset(q)
  {
    if q != [] {
      ReversedSame(q[1..]);
      assert q == [q[0]] + q[1..];
    }
  }

  /** Waking keeps every waiter: min(num, waiting) become ready, the others stay. */
  lemma WakeConserves(w: seq<nat>, a: bv64, num: int)
    ensures |Woke(w, num)| == AtMost(num, |w|)
    ensures multiset(Woke(w, num)) + multiset(AfterWake(w, a, num, a)) == multiset(w)
  {
    var k := AtMost(num, |w|);
    ReversedSame(w[..k]);
    assert w == w[..k] + w[k..];
  }

  /** Requeueing between two addresses keeps every waiter of the two and changes min(num, waiting) queues. */
  lemma RequeueConserves(wa: seq<nat>, wa2: seq<nat>, a: bv64, a2: bv64, num: int)
    requires a != a2
    ensures var ra, ra2 := AfterRequeue(wa, wa, a, a2, num, a), AfterRequeue(wa, wa2, a, a2, num, a2);
            multiset(ra) + multiset(ra2) == multiset(wa) + multiset(wa2) && |ra2| == |wa2| + AtMost(num, |wa|)
  {
    WakeConserves(wa, a, num);
  }

  lemma RequeueQueues(t: Table, waits: seq<seq<nat>>, a: bv64, n: nat, a2: bv64, n2: nat, num: int)
    requires TableOk(t) && Unwaited(t, waits) && At(t, a, n) && At(t, a2, n2)
    ensures BASE + n < |waits| && BASE + n2 < |waits|
    ensures var waits' := Requeued(waits, BASE + n, BASE + n2, AtMost(num, |waits[BASE + n]|));
            && Unwaited(t, waits') && |waits'| == |waits|
            && forall b :: Queue(t, waits', b) == AfterRequeue(waits[BASE + n], Queue(t, waits, b), a, a2, num, b)
  {
    hide TableOk, Queue;
    var p, q := BASE + n, BASE + n2;
    var k := AtMost(num, |waits[p]|);
    if a == a2 {
      QueueAt(t, waits, a, n);
      QueueAt(t, waits, a, n2);
      assert At(t, a, n) && At(t, a, n2);
      OneNode(t, a, n, n2);
    } else {
      QueueAt(t, waits, a2, n2);
      var waits1 := waits[p := waits[p][k..]];
      QueueSet(t, waits, a, n, waits[p][k..]);
      QueueSet(t, waits1, a2, n2, Reversed(waits[p][..k]) + waits[q]);
    }
  }

  class FutexTable {
    const sched: Scheduler
    var keys: seq<bv64>
    var used: seq<nat>
    var buckets: seq<seq<nat>>

    ghost function View(): Table
      reads this
    {
      Table(keys, used, buckets)
    }

    ghost predicate Valid()
      reads this, sched
    {
      FutexOk(View(), sched.View())
    }

    /** init_system_futex. */
    constructor (sched: Scheduler)
      requires Inv(sched.View()) && BASE + NODES <= |sched.waits|
      requires forall q :: BASE <= q < BASE + NODES ==> sched.waits[q] == []
      ensures Valid() && this.sched == sched
      ensures forall a :: Queue(View(), sched.waits, a) == []
    {
      this.sched := sched;
      keys := seq(NODES, i => 0);
      used := seq(NODES, i => 0);
      buckets := seq(BUCKETS, i => []);
      new;
      assert forall a, n: nat :: !At(View(), a, n);
      assert forall b: nat, n: nat :: !InBucket(View(), n, b);
    }

    /** The search loop of get_node: the node of the address, or NODES. */
    method FindNode(a: bv64) returns (n: nat)
      requires TableOk(View())
      ensures n < NODES ==> At(View(), a, n)
      ensures n >= NODES ==> Lacks(View(), a)
    {
      var key := Hash(a);
      var chain := buckets[key];
      for p := 0 to |chain|
        invariant forall j :: 0 <= j < p ==> !At(View(), a, chain[j])
      {
        assert chain[p] in buckets[key];
        assert InBucket(View(), chain[p], key);
        if keys[chain[p]] == a {
          return chain[p];
        }
      }
      n := NODES;
      forall m: nat ensures !At(View(), a, m) {
        assert At(View(), a, m) ==> InBucket(View(), m, key);
      }
    }

    /** get_node.  NODES stands for NULL and, with create set, for the failed assertion of a full table. */
    method GetNode(a: bv64, create: bool) returns (n: nat)
      requires Valid() && (create ==> sched.current != 0)
      modifies this
      ensures Valid()
      ensures n < NODES <==> !Lacks(old(View()), a) || (create && 0 in old(used))
      ensures n < NODES ==> At(View(), a, n)
      ensures n >= NODES || !Lacks(old(View()), a) ==> View() == old(View())
      ensures n < NODES && Lacks(old(View()), a) ==> Unused(used) == Unused(old(used)) - 1
      ensures forall b, m: nat :: At(View(), b, m) <==> At(old(View()), b, m) || (n < NODES && b == a && m == n)
      ensures forall b :: Queue(View(), sched.waits, b) == old(Queue(View(), sched.waits, b))
    {
      hide Hash, Inv, Queue, TableOk;
      n := FindNode(a);
      if n < NODES {
        forall m: nat | At(View(), a, m) ensures m == n { OneNode(View(), a, m, n); }
        return;
      }
      if !create {
        return;
      }
      n := 0;
      assert |used| == NODES by { Lengths(View()); }
      while n < NODES && used[n] != 0
        invariant n <= NODES && forall j :: 0 <= j < n ==> used[j] != 0
      {
        n := n + 1;
      }
      if n < NODES {
        Lengths(View());
        UnusedTake(used, n, sched.current);
        InsertOk(View(), n, a, sched.current);
        InsertQueues(View(), sched.waits, n, a, sched.current);
        keys := keys[n := a];
        used := used[n := sched.current];
        buckets := buckets[Hash(a) := buckets[Hash(a)] + [n]];
      }
    }

    /**
      do_futex_wait without timeout: the caller blocks in front of the queue of the address.  It fails
      exactly when the address has no node and no node is left for it.
     */
    method Wait(a: bv64) returns (n: nat)
      requires Valid() && sched.current != 0
      modifies this, sched
      ensures Valid() && |sched.waits| == old(|sched.waits|)
      ensures n >= NODES <==> Lacks(old(View()), a) && 0 !in old(used)
      ensures n >= NODES ==> View() == old(View()) && unchanged(sched)
      ensures n < NODES ==> At(View(), a, n) && Blocks(old(sched.View()), sched.View(), BASE + n)
      ensures forall b :: Queue(View(), sched.waits, b) ==
                (if n < NODES && b == a then [old(sched.current)] else []) + old(Queue(View(), sched.waits, b))
    {
      hide Hash, TableOk, Holds, WaitsOk, RunOk, BuildOk, Queue, Switch;
      n := GetNode(a, true);
      if n < NODES {
        Lengths(View());
        QueueAt(View(), sched.waits, a, n);
        QueueSet(View(), sched.waits, a, n, [sched.current] + sched.waits[BASE + n]);
        sched.DoBlock(BASE + n);
      }
    }

    /** do_futex_wakeup: the first min(num, waiting) tasks of the queue become ready. */
    method WakeUp(a: bv64, num: int)
      requires Valid()
      modifies sched`waits, sched`status, sched`ready
      ensures Valid() && |sched.waits| == old(|sched.waits|)
      ensures sched.ready == Woke(old(Queue(View(), sched.waits, a)), num) + old(sched.ready)
      ensures forall b :: Queue(View(), sched.waits, b) == AfterWake(old(Queue(View(), sched.waits, b)), a, num, b)
    {
      hide Hash, TableOk, Settled, Queue;
      Lengths(View());
      var n := FindNode(a);
      if n < NODES {
        ghost var s0 := sched.View();
        QueueAt(View(), sched.waits, a, n);
        QueueSet(View(), sched.waits, a, n, sched.waits[BASE + n][AtMost(num, |sched.waits[BASE + n]|)..]);
        sched.WakeUpTo(BASE + n, num);
      } else {
        NoQueue(View(), sched.waits, a);
      }
    }

    /** The loop of do_futex_requeue, from queue p to queue q. */
    method MoveUpTo(p: nat, q: nat, num: int)
      requires Inv(sched.View()) && p < |sched.waits| && q < |sched.waits|
      modifies sched`waits, sched`home
      ensures Inv(sched.View())
      ensures sched.waits == Requeued(old(sched.waits), p, q, AtMost(num, old(|sched.waits[p]|)))
    {
      hide Inv;
      ghost var waits0 := sched.waits;
      var i := 0;
      assert Reversed(waits0[p][..0]) + waits0[q] == waits0[q];
      while i < num && sched.waits[p] != []
        invariant 0 <= i && (i == 0 || i <= num) && |sched.waits| == |waits0| && Inv(sched.View())
        invariant p == q || i <= |waits0[p]|
        invariant sched.waits == Requeued(waits0, p, q, AtMost(i, |waits0[p]|))
        modifies sched`waits, sched`home
      {
        MoveOk(sched.View(), p, q);
        RequeuedStep(sched.View(), waits0, p, q, if p == q then 0 else i);
        var t := sched.waits[p][0];
        sched.waits := sched.waits[p := sched.waits[p][1..]];
        sched.waits := sched.waits[q := [t] + sched.waits[q]];
        sched.home := sched.home[t := q];
        i := i + 1;
      }
    }

    /** The two lookups of do_futex_requeue, with the nodes it creates; NODES stands for a failed assertion. */
    method GetBoth(a: bv64, a2: bv64) returns (n: nat, n2: nat)
      requires Valid() && sched.current != 0
      modifies this
      ensures Valid()
      ensures n < NODES && n2 < NODES <==> Lacking(old(View()), a, a2) <= Unused(old(used))
      ensures n < NODES ==> At(View(), a, n)
      ensures n < NODES && n2 < NODES ==> At(View(), a2, n2)
      ensures forall b :: Queue(View(), sched.waits, b) == old(Queue(View(), sched.waits, b))
    {
      hide Hash, FutexOk, Queue, At;
      UnusedNone(used);
      n := GetNode(a, false);
      n2 := GetNode(a2, false);
      if n >= NODES {
        n := GetNode(a, true);
        if n >= NODES { return; }
      }
      UnusedNone(used);
      if n2 >= NODES {
        n2 := GetNode(a2, true);
      }
    }

    /**
      do_futex_requeue: min(num, waiting) tasks change queues, unless both addresses are the same.  It
      fails exactly when more of the two addresses lack a node than there are nodes left.
     */
    method Requeue(a: bv64, a2: bv64, num: int) returns (ok: bool)
      requires Valid() && sched.current != 0
      modifies this, sched`waits, sched`home
      ensures Valid() && |sched.waits| == old(|sched.waits|)
      ensures ok <==> Lacking(old(View()), a, a2) <= Unused(old(used))
      ensures !ok ==> unchanged(sched)
      ensures forall b :: Queue(View(), sched.waits, b) ==
                var w := old(Queue(View(), sched.waits, b));
                if ok then AfterRequeue(old(Queue(View(), sched.waits, a)), w, a, a2, num, b) else w
    {
      hide Hash, TableOk, Settled, Queue, Requeued, AfterRequeue, At, Lacking, Unused;
      Lengths(View());
      var n, n2 := GetBoth(a, a2);
      ok := n < NODES && n2 < NODES;
      if ok {
        Lengths(View());
        QueueAt(View(), sched.waits, a, n);
        RequeueQueues(View(), sched.waits, a, n, a2, n2, num);
        MoveUpTo(BASE + n, BASE + n2, num);
      }
    }

    /**
      do_futex.  A set low bit wakes and, with the next bit also set, then requeues; every other
      operation code waits.  `word` is what the user address holds.  ok is false when get_node fails its
      assertion, which depends on the nodes before the call alone.
     */
    method DoFutex(a: bv64, word: int, op: bv32, val: int, timeout: int, a2: bv64) returns (r: int, ok: bool)
      requires Valid() && sched.current != 0
      modifies this, sched
      ensures Valid()
      ensures r == if op & 1 == 0 && word != val then -EAGAIN else 0
      ensures ok <==> if op & 1 == 0 then word != val || !Lacks(old(View()), a) || 0 in old(used)
                      else op & 2 == 0 || Lacking(old(View()), a, a2) <= Unused(old(used))
      ensures op & 1 == 0 && (word != val || !ok) ==> View() == old(View()) && unchanged(sched)
      ensures op & 1 == 0 && word == val && ok ==>
                exists n: nat :: At(View(), a, n) && Blocks(old(sched.View()), sched.View(), BASE + n)
      ensures op & 1 == 0 && word == val ==> forall b :: (Queue(View(), sched.waits, b) ==
                (if ok && b == a then [old(sched.current)] else []) + old(Queue(View(), sched.waits, b)))
      ensures op & 1 == 1 ==> sched.ready == Woke(old(Queue(View(), sched.waits, a)), val) + old(sched.ready)
      ensures op & 1 == 1 ==> forall b :: (Queue(View(), sched.waits, b) ==
                var w := AfterWake(old(Queue(View(), sched.waits, b)), a, val, b);
                if op & 2 == 0 || !ok then w
                else AfterRequeue(AfterWake(old(Queue(View(), sched.waits, a)), a, val, a), w, a, a2, timeout, b))
    {
      hide Hash, FutexOk, Queue, AfterRequeue, AfterWake, Woke, Lacks, Lacking, Unused, Blocks, At;
      r, ok := 0, true;
      if op & 1 == 1 {
        WakeUp(a, val);
      } else if word == val {
        var n := Wait(a);
        ok := n < NODES;
      } else {
        r := -EAGAIN;
        return;
      }
      if op & 3 == 3 {
        ok := Requeue(a, a2, timeout);
      }
    }
  }
}
