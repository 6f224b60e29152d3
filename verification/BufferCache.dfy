/**
  The state of the write-back buffer cache (drivers/sdcard/bio.c) with its per-buffer sleep
  locks (kernel/smp/sleeplock.c), and what each elementary step does to it.

  The kernel runs one process until it blocks, so these are the states that processes see at
  the yield points inside acquiresleep and sleep.  The fields of struct buf are kept as one
  sequence per field, indexed by buffer.
 */
module BufferCache {
  import opened Seqs

  /** BCACHE_TABLE_SIZE for BNUM == 1600. */
  const TABLE: nat := 150

  type Pid = nat
  type Sector = seq<bv8>

  /** Where a process stands inside the cache code. */
  datatype Proc =
    | Holds(b: nat, x: nat)       // owns the lock of buffer b for sector x
    | LockWait(b: nat, x: nat)    // asleep in acquiresleep
    | LockRetry(b: nat, x: nat)   // has a reference on b, about to test its lock
    | BufWait(x: nat)             // asleep in bget for lack of a buffer
    | BufRetry(x: nat)            // woken there, about to rescan

  type Procs = map<Pid, Proc>

  /** Buffer b is on a hash chain. */
  predicate Hashed(sector: seq<nat>, cached: map<nat, nat>, b: nat) {
    b < |sector| && sector[b] in cached && cached[sector[b]] == b
  }

  /** The hash table: one buffer per sector at most, on the chain of its sector. */
  ghost predicate TableOk(sector: seq<nat>, chains: seq<seq<nat>>, cached: map<nat, nat>) {
    && |chains| == TABLE
    && (forall x :: x in cached ==> cached[x] < |sector| && sector[cached[x]] == x)
    && (forall c :: 0 <= c < TABLE ==> NoDup(chains[c]))
    && (forall c, b: nat :: 0 <= c < TABLE ==>
          (b in chains[c] <==> Hashed(sector, cached, b) && sector[b] % TABLE == c))
  }

  /** Unreferenced buffers, and only those, are on the LRU list; used buffers are hashed. */
  ghost predicate LruOk(refcnt: seq<nat>, lru: seq<nat>, sector: seq<nat>, cached: map<nat, nat>) {
    && |refcnt| == |sector|
    && NoDup(lru)
    && (forall b :: b in lru ==> b < |refcnt|)
    && (forall b: nat :: b < |refcnt| ==> (b in lru <==> refcnt[b] == 0))
    && (forall b: nat :: b < |refcnt| && refcnt[b] > 0 ==> Hashed(sector, cached, b))
  }

  /** Clean buffers agree with the disk. */
  ghost predicate DataOk(valid: seq<bool>, dirty: seq<bool>, data: seq<Sector>, disk: seq<Sector>,
                         sector: seq<nat>, cached: map<nat, nat>) {
    && |valid| == |dirty| == |data| == |sector|
    && (forall x :: x in cached ==> x < |disk|)
    && (forall b: nat :: b < |valid| && valid[b] ==> Hashed(sector, cached, b))
    && (forall b: nat :: b < |valid| && dirty[b] ==> valid[b])
    && (forall b: nat :: b < |valid| && valid[b] && !dirty[b] ==> sector[b] < |disk| && data[b] == disk[sector[b]])
  }

  predicate HasRef(q: Proc) { q.Holds? || q.LockWait? || q.LockRetry? }

  /** The processes with a reference on buffer b. */
  ghost function Users(procs: Procs, b: nat): set<Pid> {
    set p | p in procs && HasRef(procs[p]) && procs[p].b == b
  }

  /** References are counted, and the buffer of a process keeps the sector it asked for. */
  ghost predicate RefsOk(refcnt: seq<nat>, sector: seq<nat>, procs: Procs) {
    && |refcnt| == |sector|
    && (forall b: nat :: b < |refcnt| ==> refcnt[b] == |Users(procs, b)|)
    && (forall p :: p in procs && HasRef(procs[p]) ==> procs[p].b < |sector| && sector[procs[p].b] == procs[p].x)
  }

  ghost predicate HoldsBuf(procs: Procs, p: Pid, b: nat) { p in procs && procs[p].Holds? && procs[p].b == b }

  predicate SleepsOn(procs: Procs, p: Pid, b: nat) { p in procs && procs[p].LockWait? && procs[p].b == b }

  /** One holder per locked buffer; nobody sleeps on a free lock. */
  ghost predicate LocksOk(locked: seq<bool>, queue: seq<seq<Pid>>, procs: Procs) {
    && |queue| == |locked|
    && (forall p, b: nat :: HoldsBuf(procs, p, b) ==> b < |locked| && locked[b])
    && (forall p, p', b: nat :: HoldsBuf(procs, p, b) && HoldsBuf(procs, p', b) ==> p == p')
    && (forall b: nat :: b < |locked| && locked[b] ==> exists p :: HoldsBuf(procs, p, b))
    && (forall b: nat :: b < |locked| && queue[b] != [] ==> locked[b])
    && (forall b: nat :: b < |locked| ==> NoDup(queue[b]))
    && (forall p, b: nat :: SleepsOn(procs, p, b) ==> b < |locked|)
    && (forall p, b: nat :: b < |locked| ==> (p in queue[b] <==> SleepsOn(procs, p, b)))
  }

  predicate ShortOfBuf(q: Proc) { q.BufWait? || q.BufRetry? }

  ghost function Waiters(procs: Procs): set<Pid> {
    set p | p in procs && ShortOfBuf(procs[p])
  }

  /** nwait counts the processes short of a buffer; none sleeps while a buffer is free. */
  ghost predicate WaitOk(nwait: nat, waitq: seq<Pid>, lru: seq<nat>, procs: Procs) {
    && nwait == |Waiters(procs)|
    && NoDup(waitq)
    && (forall p :: p in waitq <==> p in procs && procs[p].BufWait?)
    && (waitq != [] ==> lru == [])
  }

  /** The contents of sector x as the clients see it. */
  ghost function At(valid: seq<bool>, data: seq<Sector>, disk: seq<Sector>, cached: map<nat, nat>, x: nat): Sector
    requires x < |disk| && |valid| == |data|
  {
    if x in cached && cached[x] < |valid| && valid[cached[x]] then data[cached[x]] else disk[x]
  }

  /** All sectors as the clients see them. */
  ghost function Image(valid: seq<bool>, data: seq<Sector>, disk: seq<Sector>, cached: map<nat, nat>): (q: seq<Sector>)
    requires |valid| == |data|
    ensures |q| == |disk|
    ensures forall x: nat :: x < |disk| ==> q[x] == At(valid, data, disk, cached, x)
  {
    seq(|disk|, x requires 0 <= x < |disk| => At(valid, data, disk, cached, x))
  }

  /** list_del of an element. */
  function Remove<T(==)>(q: seq<T>, e: T): (r: seq<T>)
    ensures forall x :: x in r ==> x in q
    ensures e !in q ==> r == q
  {
    if q == [] then [] else if q[0] == e then q[1..] else [q[0]] + Remove(q[1..], e)
  }

  /** The others keep their order. */
  lemma {:induction false} RemoveIs<T>(q: seq<T>, i: nat)
    requires i < |q| && q[i] !in q[..i]
    ensures Remove(q, q[i]) == q[..i] + q[i + 1..]
  {
    if i > 0 {
      assert q[0] in q[..i] && q[1..][..i - 1] == q[..i][1..];
      RemoveIs(q[1..], i - 1);
    }
  }

  lemma RemoveNoDup<T>(q: seq<T>, e: T)
    requires NoDup(q)
    ensures NoDup(Remove(q, e))
    ensures forall x :: x in Remove(q, e) <==> x in q && x != e
  {
    if q != [] {
      assert forall i :: 0 <= i < |q[1..]| ==> q[1..][i] == q[i + 1];
      if q[0] != e {
        RemoveNoDup(q[1..], e);
        assert q[0] !in q[1..];
      }
    }
  }

  // ----- Hash table and LRU list

  /** Reordering a chain. */
  lemma TableReorder(sector: seq<nat>, chains: seq<seq<nat>>, cached: map<nat, nat>, c: nat, chain: seq<nat>)
    requires TableOk(sector, chains, cached) && c < TABLE
    requires NoDup(chain) && forall a :: a in chain <==> a in chains[c]
    ensures TableOk(sector, chains[c := chain], cached)
  {
  }

  /** The first reference takes a buffer off the LRU list. */
  lemma LruTake(refcnt: seq<nat>, lru: seq<nat>, sector: seq<nat>, cached: map<nat, nat>, b: nat)
    requires LruOk(refcnt, lru, sector, cached) && Hashed(sector, cached, b)
    ensures LruOk(refcnt[b := refcnt[b] + 1], if refcnt[b] == 0 then Remove(lru, b) else lru, sector, cached)
  {
    RemoveNoDup(lru, b);
  }

  /** The last reference puts it back at the front. */
  lemma LruPut(refcnt: seq<nat>, lru: seq<nat>, sector: seq<nat>, cached: map<nat, nat>, b: nat)
    requires LruOk(refcnt, lru, sector, cached) && b < |refcnt| && refcnt[b] > 0
    ensures LruOk(refcnt[b := refcnt[b] - 1], if refcnt[b] == 1 then [b] + lru else lru, sector, cached)
  {
    assert forall a :: a in [b] + lru <==> a == b || a in lru;
  }

  // ----- Processes

  /** A change of process states that moves no reference. */
  lemma RefsMorph(refcnt: seq<nat>, sector: seq<nat>, procs: Procs, procs': Procs)
    requires RefsOk(refcnt, sector, procs)
    requires forall p :: p in procs && HasRef(procs[p]) ==>
               p in procs' && HasRef(procs'[p]) && procs'[p].b == procs[p].b && procs'[p].x == procs[p].x
    requires forall p :: p in procs' && HasRef(procs'[p]) ==> p in procs && HasRef(procs[p])
    ensures RefsOk(refcnt, sector, procs')
  {
    assert forall b: nat :: Users(procs', b) == Users(procs, b);
  }

  lemma RefsAdd(refcnt: seq<nat>, sector: seq<nat>, procs: Procs, p: Pid, b: nat)
    requires RefsOk(refcnt, sector, procs) && p !in procs && b < |refcnt|
    ensures RefsOk(refcnt[b := refcnt[b] + 1], sector, procs[p := LockRetry(b, sector[b])])
  {
    var procs' := procs[p := LockRetry(b, sector[b])];
    assert Users(procs', b) == Users(procs, b) + {p};
    assert forall c: nat :: c != b ==> Users(procs', c) == Users(procs, c);
  }

  lemma RefsRemove(refcnt: seq<nat>, sector: seq<nat>, procs: Procs, p: Pid)
    requires RefsOk(refcnt, sector, procs) && p in procs && procs[p].LockRetry?
    ensures procs[p].b < |refcnt| && refcnt[procs[p].b] > 0
    ensures RefsOk(refcnt[procs[p].b := refcnt[procs[p].b] - 1], sector, procs - {p})
  {
    var procs' := procs - {p};
    var b := procs[p].b;
    assert Users(procs, b) == Users(procs', b) + {p};
    assert forall c: nat :: c != b ==> Users(procs', c) == Users(procs, c);
  }

  /** A change of process states that concerns no lock. */
  lemma LocksMorph(locked: seq<bool>, queue: seq<seq<Pid>>, procs: Procs, procs': Procs)
    requires LocksOk(locked, queue, procs)
    requires forall p, b: nat :: HoldsBuf(procs', p, b) <==> HoldsBuf(procs, p, b)
    requires forall p, b: nat :: SleepsOn(procs', p, b) <==> SleepsOn(procs, p, b)
    ensures LocksOk(locked, queue, procs')
  {
    forall b: nat | b < |locked| && locked[b] ensures exists p :: HoldsBuf(procs', p, b) {
      var p :| HoldsBuf(procs, p, b);
      assert HoldsBuf(procs', p, b);
    }
  }

  /** Taking a free lock. */
  lemma LocksTake(locked: seq<bool>, queue: seq<seq<Pid>>, procs: Procs, p: Pid)
    requires LocksOk(locked, queue, procs) && p in procs && procs[p].LockRetry?
    requires procs[p].b < |locked| && !locked[procs[p].b]
    ensures LocksOk(locked[procs[p].b := true], queue, procs[p := Holds(procs[p].b, procs[p].x)])
  {
    var b := procs[p].b;
    var procs' := procs[p := Holds(b, procs[p].x)];
    assert HoldsBuf(procs', p, b);
    assert forall q, a: nat :: HoldsBuf(procs', q, a) <==> (q == p && a == b) || HoldsBuf(procs, q, a);
    assert forall q, a: nat :: SleepsOn(procs', q, a) <==> SleepsOn(procs, q, a);
  }

  /** Going to sleep on a taken lock. */
  lemma LocksSleep(locked: seq<bool>, queue: seq<seq<Pid>>, procs: Procs, p: Pid)
    requires LocksOk(locked, queue, procs) && p in procs && procs[p].LockRetry?
    requires procs[p].b < |locked| && locked[procs[p].b]
    ensures LocksOk(locked, queue[procs[p].b := [p] + queue[procs[p].b]], procs[p := LockWait(procs[p].b, procs[p].x)])
  {
    var b := procs[p].b;
    var procs' := procs[p := LockWait(b, procs[p].x)];
    assert forall q, a: nat :: HoldsBuf(procs', q, a) <==> HoldsBuf(procs, q, a);
    assert forall q, a: nat :: SleepsOn(procs', q, a) <==> (q == p && a == b) || SleepsOn(procs, q, a);
    assert !SleepsOn(procs, p, b);
    forall a: nat | a < |locked| && locked[a] ensures exists q :: HoldsBuf(procs', q, a) {
      var q :| HoldsBuf(procs, q, a);
      assert HoldsBuf(procs', q, a);
    }
  }

  /** releasesleep: the holder p keeps its reference, all sleepers of its buffer wake up. */
  function Unlocked(procs: Procs, p: Pid): Procs
    requires p in procs && procs[p].Holds?
  {
    map q | q in procs ::
      if q == p || SleepsOn(procs, q, procs[p].b) then LockRetry(procs[p].b, procs[q].x) else procs[q]
  }

  lemma LocksRelease(locked: seq<bool>, queue: seq<seq<Pid>>, procs: Procs, p: Pid)
    requires LocksOk(locked, queue, procs) && p in procs && procs[p].Holds?
    ensures procs[p].b < |locked| && locked[procs[p].b]
    ensures LocksOk(locked[procs[p].b := false], queue[procs[p].b := []], Unlocked(procs, p))
  {
    var b := procs[p].b;
    assert HoldsBuf(procs, p, b);
    var procs' := Unlocked(procs, p);
    forall q, a: nat
      ensures HoldsBuf(procs', q, a) <==> a != b && HoldsBuf(procs, q, a)
      ensures SleepsOn(procs', q, a) <==> a != b && SleepsOn(procs, q, a)
    {
      assert HoldsBuf(procs, q, b) ==> q == p;
      if q in procs {
        assert procs'[q] == if q == p || SleepsOn(procs, q, b) then LockRetry(b, procs[q].x) else procs[q];
      }
    }
    forall a: nat | a < |locked| && a != b && locked[a] ensures exists q :: HoldsBuf(procs', q, a) {
      var q :| HoldsBuf(procs, q, a);
      assert HoldsBuf(procs', q, a);
    }
  }

  // ----- Waiting for a buffer

  /** A change of process states that concerns nobody short of a buffer; the LRU list may shrink. */
  lemma WaitMorph(nwait: nat, waitq: seq<Pid>, lru: seq<nat>, procs: Procs, lru': seq<nat>, procs': Procs)
    requires WaitOk(nwait, waitq, lru, procs)
    requires forall p :: p in procs && ShortOfBuf(procs[p]) ==> p in procs' && procs'[p] == procs[p]
    requires forall p :: p in procs' && ShortOfBuf(procs'[p]) ==> p in procs && procs'[p] == procs[p]
    requires lru == [] ==> lru' == []
    ensures WaitOk(nwait, waitq, lru', procs')
  {
    assert Waiters(procs') == Waiters(procs);
  }

  lemma WaitSleep(nwait: nat, waitq: seq<Pid>, lru: seq<nat>, procs: Procs, p: Pid, x: nat)
    requires WaitOk(nwait, waitq, lru, procs) && p !in procs && lru == []
    ensures WaitOk(nwait + 1, [p] + waitq, lru, procs[p := BufWait(x)])
  {
    assert Waiters(procs[p := BufWait(x)]) == Waiters(procs) + {p};
    hide Waiters;
    assert p !in waitq;
  }

  lemma WaitLeave(nwait: nat, waitq: seq<Pid>, lru: seq<nat>, procs: Procs, p: Pid)
    requires WaitOk(nwait, waitq, lru, procs) && p in procs && procs[p].BufRetry?
    ensures nwait > 0 && WaitOk(nwait - 1, waitq, lru, procs - {p})
  {
    assert Waiters(procs) == Waiters(procs - {p}) + {p};
  }

  /** wakeup(&nwait_sleep_queue) */
  function Woken(procs: Procs): Procs {
    map q | q in procs :: if procs[q].BufWait? then BufRetry(procs[q].x) else procs[q]
  }

  /** A buffer came free and all sleepers were woken. */
  lemma WaitWake(nwait: nat, waitq: seq<Pid>, lru: seq<nat>, procs: Procs, lru': seq<nat>)
    requires WaitOk(nwait, waitq, lru, procs)
    ensures WaitOk(nwait, [], lru', Woken(procs))
  {
    assert Waiters(Woken(procs)) == Waiters(procs);
  }

  // ----- Data

  /** bread's read of an invalid buffer. */
  lemma DataLoad(valid: seq<bool>, dirty: seq<bool>, data: seq<Sector>, disk: seq<Sector>,
                 sector: seq<nat>, cached: map<nat, nat>, b: nat)
    requires DataOk(valid, dirty, data, disk, sector, cached) && Hashed(sector, cached, b) && !valid[b]
    requires forall x :: x in cached ==> cached[x] < |sector| && sector[cached[x]] == x
    ensures sector[b] < |disk|
    ensures DataOk(valid[b := true], dirty, data[b := disk[sector[b]]], disk, sector, cached)
    ensures Image(valid[b := true], data[b := disk[sector[b]]], disk, cached) == Image(valid, data, disk, cached)
  {
  }

  /** The holder overwrites the buffer: the sector changes, all others stay. */
  lemma DataWrite(valid: seq<bool>, dirty: seq<bool>, data: seq<Sector>, disk: seq<Sector>,
                  sector: seq<nat>, cached: map<nat, nat>, b: nat, d: Sector)
    requires DataOk(valid, dirty, data, disk, sector, cached) && Hashed(sector, cached, b)
    requires forall x :: x in cached ==> cached[x] < |sector| && sector[cached[x]] == x
    ensures DataOk(valid[b := true], dirty[b := true], data[b := d], disk, sector, cached)
    ensures sector[b] < |disk|
    ensures Image(valid[b := true], data[b := d], disk, cached) == Image(valid, data, disk, cached)[sector[b] := d]
  {
  }

  /** Writing a dirty buffer back changes nothing for the clients. */
  lemma DataFlush(valid: seq<bool>, dirty: seq<bool>, data: seq<Sector>, disk: seq<Sector>,
                  sector: seq<nat>, cached: map<nat, nat>, b: nat)
    requires DataOk(valid, dirty, data, disk, sector, cached) && b < |dirty| && dirty[b]
    requires forall x :: x in cached ==> cached[x] < |sector| && sector[cached[x]] == x
    ensures sector[b] < |disk|
    ensures DataOk(valid, dirty[b := false], data, disk[sector[b] := data[b]], sector, cached)
    ensures Image(valid, data, disk[sector[b] := data[b]], cached) == Image(valid, data, disk, cached)
  {
    assert valid[b] && Hashed(sector, cached, b);
  }

  // ----- Eviction: the clean, unreferenced buffer b is given to sector x

  ghost function Rehashed(sector: seq<nat>, cached: map<nat, nat>, b: nat, x: nat): map<nat, nat>
    requires b < |sector|
  {
    (if Hashed(sector, cached, b) then cached - {sector[b]} else cached)[x := b]
  }

  /** b leaves its old chain, if it was on one, and goes to the front of the chain of x. */
  ghost function Rechained(sector: seq<nat>, chains: seq<seq<nat>>, cached: map<nat, nat>, b: nat, x: nat): seq<seq<nat>>
    requires b < |sector| && |chains| == TABLE
  {
    var off := if Hashed(sector, cached, b)
               then chains[sector[b] % TABLE := Remove(chains[sector[b] % TABLE], b)] else chains;
    off[x % TABLE := [b] + off[x % TABLE]]
  }

  lemma TableOff(sector: seq<nat>, chains: seq<seq<nat>>, cached: map<nat, nat>, b: nat)
    requires TableOk(sector, chains, cached) && Hashed(sector, cached, b)
    ensures var c := sector[b] % TABLE;
            TableOk(sector, chains[c := Remove(chains[c], b)], cached - {sector[b]})
  {
    var c := sector[b] % TABLE;
    RemoveNoDup(chains[c], b);
    assert forall a: nat :: Hashed(sector, cached - {sector[b]}, a) <==> a != b && Hashed(sector, cached, a);
  }

  lemma TableOn(sector: seq<nat>, chains: seq<seq<nat>>, cached: map<nat, nat>, b: nat, x: nat)
    requires TableOk(sector, chains, cached) && b < |sector| && !Hashed(sector, cached, b) && x !in cached
    ensures TableOk(sector[b := x], chains[x % TABLE := [b] + chains[x % TABLE]], cached[x := b])
  {
    var sector', chains', cached' := sector[b := x], chains[x % TABLE := [b] + chains[x % TABLE]], cached[x := b];
    forall c, a: nat | 0 <= c < TABLE
      ensures a in chains'[c] <==> Hashed(sector', cached', a) && sector'[a] % TABLE == c
    {
      assert a in chains'[c] <==> a in chains[c] || (a == b && c == x % TABLE);
      assert Hashed(sector', cached', a) <==> a == b || Hashed(sector, cached, a);
    }
    forall y | y in cached' ensures cached'[y] < |sector'| && sector'[cached'[y]] == y {
      assert y in cached && cached[y] == b ==> Hashed(sector, cached, b);
    }
    assert b !in chains[x % TABLE];
  }

  lemma TableEvict(sector: seq<nat>, chains: seq<seq<nat>>, cached: map<nat, nat>, b: nat, x: nat)
    requires TableOk(sector, chains, cached) && b < |sector| && x !in cached
    ensures TableOk(sector[b := x], Rechained(sector, chains, cached, b, x), Rehashed(sector, cached, b, x))
  {
    assert |chains| == TABLE;
    hide TableOk;
    if Hashed(sector, cached, b) {
      var c := sector[b] % TABLE;
      TableOff(sector, chains, cached, b);
      TableOn(sector, chains[c := Remove(chains[c], b)], cached - {sector[b]}, b, x);
    } else {
      TableOn(sector, chains, cached, b, x);
    }
  }

  lemma LruEvict(refcnt: seq<nat>, lru: seq<nat>, sector: seq<nat>, cached: map<nat, nat>, x: nat)
    requires LruOk(refcnt, lru, sector, cached) && lru != [] && x !in cached
    requires forall y :: y in cached ==> cached[y] < |sector| && sector[cached[y]] == y
    ensures var b := lru[|lru| - 1];
            b < |refcnt| && refcnt[b] == 0 &&
            LruOk(refcnt[b := 1], lru[..|lru| - 1], sector[b := x], Rehashed(sector, cached, b, x))
  {
    var b := lru[|lru| - 1];
    var rest := lru[..|lru| - 1];
    assert b in lru && b !in rest;
    assert forall a :: a in lru <==> a == b || a in rest;
    assert forall y :: y in cached && cached[y] == b ==> Hashed(sector, cached, b);
    assert forall a: nat :: a < |sector| && a != b && Hashed(sector, cached, a) ==>
      Hashed(sector[b := x], Rehashed(sector, cached, b, x), a);
  }

  lemma DataEvict(valid: seq<bool>, dirty: seq<bool>, data: seq<Sector>, disk: seq<Sector>,
                  sector: seq<nat>, cached: map<nat, nat>, b: nat, x: nat)
    requires DataOk(valid, dirty, data, disk, sector, cached) && b < |sector| && !dirty[b]
    requires x !in cached && x < |disk|
    requires forall y :: y in cached ==> cached[y] < |sector| && sector[cached[y]] == y
    ensures DataOk(valid[b := false], dirty, data, disk, sector[b := x], Rehashed(sector, cached, b, x))
    ensures Image(valid[b := false], data, disk, Rehashed(sector, cached, b, x)) == Image(valid, data, disk, cached)
  {
  }

  lemma RefsEvict(refcnt: seq<nat>, sector: seq<nat>, procs: Procs, p: Pid, b: nat, x: nat)
    requires RefsOk(refcnt, sector, procs) && p !in procs && b < |refcnt| && refcnt[b] == 0
    ensures RefsOk(refcnt[b := 1], sector[b := x], procs[p := LockRetry(b, x)])
  {
    var procs' := procs[p := LockRetry(b, x)];
    forall q | q in procs && HasRef(procs[q]) ensures procs[q].b != b {
      assert q in Users(procs, procs[q].b);
    }
    assert Users(procs', b) == {p};
    assert forall c: nat :: c != b ==> Users(procs', c) == Users(procs, c);
  }

  // ----- The whole state

  datatype Cache = Cache(
    sector: seq<nat>, refcnt: seq<nat>, valid: seq<bool>, dirty: seq<bool>, data: seq<Sector>,
    locked: seq<bool>, queue: seq<seq<Pid>>,    // the sleep locks
    chains: seq<seq<nat>>,                      // bcache[]
    lru: seq<nat>,                              // lru_head, front first
    nwait: nat, waitq: seq<Pid>,                // nwait_sleep_queue
    disk: seq<Sector>,
    cached: map<nat, nat>,                      // proof only: the buffer of each hashed sector
    procs: Procs)                               // proof only: the processes inside the cache

  ghost predicate Inv(s: Cache) {
    && |s.locked| == |s.sector|
    && TableOk(s.sector, s.chains, s.cached)
    && LruOk(s.refcnt, s.lru, s.sector, s.cached)
    && DataOk(s.valid, s.dirty, s.data, s.disk, s.sector, s.cached)
    && RefsOk(s.refcnt, s.sector, s.procs)
    && LocksOk(s.locked, s.queue, s.procs)
    && WaitOk(s.nwait, s.waitq, s.lru, s.procs)
    && (forall p :: p in s.procs ==> s.procs[p].x < |s.disk|)
  }

  /** The sectors as the clients see them. */
  ghost function Contents(s: Cache): seq<Sector>
    requires |s.valid| == |s.data|
  {
    Image(s.valid, s.data, s.disk, s.cached)
  }

  lemma Sizes(s: Cache)
    requires Inv(s)
    ensures |s.sector| == |s.refcnt| == |s.valid| == |s.dirty| == |s.data| == |s.locked| == |s.queue|
    ensures |s.chains| == TABLE
    ensures forall x :: x in s.cached ==> s.cached[x] < |s.sector| && s.sector[s.cached[x]] == x < |s.disk|
    ensures forall b :: b in s.lru ==> b < |s.sector|
    ensures forall p :: p in s.procs && HasRef(s.procs[p]) ==>
              s.procs[p].b < |s.sector| && s.sector[s.procs[p].b] == s.procs[p].x
  {
  }

  /** bget finds sector x in the cache: a reference, and the chain reordered. */
  ghost function Hit(s: Cache, p: Pid, x: nat, chain: seq<nat>): Cache
    requires x in s.cached && s.cached[x] < |s.refcnt| && |s.chains| == TABLE
  {
    var b := s.cached[x];
    s.(chains := s.chains[x % TABLE := chain],
       refcnt := s.refcnt[b := s.refcnt[b] + 1],
       lru := if s.refcnt[b] == 0 then Remove(s.lru, b) else s.lru,
       procs := s.procs[p := LockRetry(b, x)])
  }

  lemma HitInv(s: Cache, p: Pid, x: nat, chain: seq<nat>)
    requires Inv(s) && p !in s.procs && x in s.cached
    requires |s.chains| == TABLE && NoDup(chain) && forall a :: a in chain <==> a in s.chains[x % TABLE]
    ensures s.cached[x] < |s.refcnt| && Inv(Hit(s, p, x, chain))
  {
    hide TableOk, LruOk, DataOk, RefsOk, LocksOk, WaitOk;
    Sizes(s);
    var b := s.cached[x];
    TableReorder(s.sector, s.chains, s.cached, x % TABLE, chain);
    LruTake(s.refcnt, s.lru, s.sector, s.cached, b);
    RefsAdd(s.refcnt, s.sector, s.procs, p, b);
    LocksMorph(s.locked, s.queue, s.procs, s.procs[p := LockRetry(b, x)]);
    WaitMorph(s.nwait, s.waitq, s.lru, s.procs, Hit(s, p, x, chain).lru, s.procs[p := LockRetry(b, x)]);
  }

  /** acquiresleep tests the lock once. */
  ghost function TryLock(s: Cache, p: Pid): Cache
    requires p in s.procs && s.procs[p].LockRetry? && s.procs[p].b < |s.locked| == |s.queue|
  {
    var b, x := s.procs[p].b, s.procs[p].x;
    if s.locked[b] then s.(queue := s.queue[b := [p] + s.queue[b]], procs := s.procs[p := LockWait(b, x)])
    else s.(locked := s.locked[b := true], procs := s.procs[p := Holds(b, x)])
  }

  lemma TryLockInv(s: Cache, p: Pid)
    requires Inv(s) && p in s.procs && s.procs[p].LockRetry?
    ensures s.procs[p].b < |s.locked| == |s.queue| && Inv(TryLock(s, p))
  {
    hide TableOk, LruOk, DataOk, RefsOk, LocksOk, WaitOk;
    Sizes(s);
    var t := TryLock(s, p);
    if s.locked[s.procs[p].b] {
      LocksSleep(s.locked, s.queue, s.procs, p);
    } else {
      LocksTake(s.locked, s.queue, s.procs, p);
    }
    RefsMorph(s.refcnt, s.sector, s.procs, t.procs);
    WaitMorph(s.nwait, s.waitq, s.lru, s.procs, s.lru, t.procs);
  }

  /** disk_write_bio of a dirty buffer. */
  ghost function Flush(s: Cache, b: nat): Cache
    requires b < |s.sector| == |s.data| == |s.dirty| && (s.dirty[b] ==> s.sector[b] < |s.disk|)
  {
    if s.dirty[b] then s.(disk := s.disk[s.sector[b] := s.data[b]], dirty := s.dirty[b := false]) else s
  }

  lemma FlushInv(s: Cache, b: nat)
    requires Inv(s) && b < |s.sector|
    ensures |s.sector| == |s.data| == |s.dirty| == |s.valid| && (s.dirty[b] ==> s.sector[b] < |s.disk|)
    ensures Inv(Flush(s, b)) && Contents(Flush(s, b)) == Contents(s) && !Flush(s, b).dirty[b]
  {
    hide TableOk, LruOk, DataOk, RefsOk, LocksOk, WaitOk, Image;
    Sizes(s);
    if s.dirty[b] {
      DataFlush(s.valid, s.dirty, s.data, s.disk, s.sector, s.cached, b);
    }
  }

  /** bget misses: the least recently used buffer, clean by now, is given to sector x. */
  ghost function Evict(s: Cache, p: Pid, x: nat): Cache
    requires s.lru != [] && s.lru[|s.lru| - 1] < |s.sector| == |s.refcnt| == |s.valid| && |s.chains| == TABLE
  {
    var b := s.lru[|s.lru| - 1];
    s.(sector := s.sector[b := x], refcnt := s.refcnt[b := 1], valid := s.valid[b := false],
       lru := s.lru[..|s.lru| - 1],
       chains := Rechained(s.sector, s.chains, s.cached, b, x),
       cached := Rehashed(s.sector, s.cached, b, x),
       procs := s.procs[p := LockRetry(b, x)])
  }

  lemma EvictInv(s: Cache, p: Pid, x: nat)
    requires Inv(s) && p !in s.procs && s.lru != [] && x !in s.cached && x < |s.disk|
    requires s.lru[|s.lru| - 1] < |s.dirty| && !s.dirty[s.lru[|s.lru| - 1]]
    ensures |s.sector| == |s.refcnt| == |s.valid| == |s.data| == |s.dirty| == |s.locked| && |s.chains| == TABLE
    ensures Inv(Evict(s, p, x)) && Contents(Evict(s, p, x)) == Contents(s)
    ensures !s.locked[s.lru[|s.lru| - 1]]
  {
    hide TableOk, LruOk, DataOk, RefsOk, LocksOk, WaitOk, Image;
    Sizes(s);
    var b := s.lru[|s.lru| - 1];
    TableEvict(s.sector, s.chains, s.cached, b, x);
    LruEvict(s.refcnt, s.lru, s.sector, s.cached, x);
    DataEvict(s.valid, s.dirty, s.data, s.disk, s.sector, s.cached, b, x);
    RefsEvict(s.refcnt, s.sector, s.procs, p, b, x);
    LocksMorph(s.locked, s.queue, s.procs, s.procs[p := LockRetry(b, x)]);
    WaitMorph(s.nwait, s.waitq, s.lru, s.procs, s.lru[..|s.lru| - 1], s.procs[p := LockRetry(b, x)]);
    UnusedUnlocked(s, b);
  }

  /** A buffer without references is unlocked and has no sleepers. */
  lemma UnusedUnlocked(s: Cache, b: nat)
    requires Inv(s) && b < |s.refcnt| && s.refcnt[b] == 0
    ensures b < |s.locked| == |s.queue| && !s.locked[b] && s.queue[b] == []
  {
    hide TableOk, LruOk, DataOk, WaitOk;
    assert forall p :: HoldsBuf(s.procs, p, b) ==> p in Users(s.procs, b);
  }

  /** bget finds no buffer at all. */
  ghost function SleepForBuf(s: Cache, p: Pid, x: nat): Cache {
    s.(nwait := s.nwait + 1, waitq := [p] + s.waitq, procs := s.procs[p := BufWait(x)])
  }

  lemma SleepForBufInv(s: Cache, p: Pid, x: nat)
    requires Inv(s) && p !in s.procs && s.lru == [] && x < |s.disk|
    ensures Inv(SleepForBuf(s, p, x))
  {
    hide TableOk, LruOk, DataOk, RefsOk, LocksOk, WaitOk;
    WaitSleep(s.nwait, s.waitq, s.lru, s.procs, p, x);
    RefsMorph(s.refcnt, s.sector, s.procs, s.procs[p := BufWait(x)]);
    LocksMorph(s.locked, s.queue, s.procs, s.procs[p := BufWait(x)]);
  }

  /** A process woken in bget runs again, about to rescan. */
  ghost function Leave(s: Cache, p: Pid): Cache
    requires s.nwait > 0
  {
    s.(nwait := s.nwait - 1, procs := s.procs - {p})
  }

  lemma LeaveInv(s: Cache, p: Pid)
    requires Inv(s) && p in s.procs && s.procs[p].BufRetry?
    ensures s.nwait > 0 && Inv(Leave(s, p)) && s.procs[p].x < |s.disk|
  {
    hide TableOk, LruOk, DataOk, RefsOk, LocksOk, WaitOk;
    WaitLeave(s.nwait, s.waitq, s.lru, s.procs, p);
    RefsMorph(s.refcnt, s.sector, s.procs, s.procs - {p});
    LocksMorph(s.locked, s.queue, s.procs, s.procs - {p});
  }

  /** releasesleep */
  ghost function Unlock(s: Cache, p: Pid): Cache
    requires p in s.procs && s.procs[p].Holds? && s.procs[p].b < |s.locked| == |s.queue|
  {
    var b := s.procs[p].b;
    s.(locked := s.locked[b := false], queue := s.queue[b := []], procs := Unlocked(s.procs, p))
  }

  lemma UnlockInv(s: Cache, p: Pid)
    requires Inv(s) && p in s.procs && s.procs[p].Holds?
    ensures s.procs[p].b < |s.locked| == |s.queue| && Inv(Unlock(s, p))
  {
    hide TableOk, LruOk, DataOk, RefsOk, LocksOk, WaitOk;
    Sizes(s);
    LocksRelease(s.locked, s.queue, s.procs, p);
    RefsMorph(s.refcnt, s.sector, s.procs, Unlocked(s.procs, p));
    WaitMorph(s.nwait, s.waitq, s.lru, s.procs, s.lru, Unlocked(s.procs, p));
  }

  /** bput: the last reference frees the buffer and wakes everyone short of one. */
  ghost function Put(s: Cache, p: Pid): Cache
    requires p in s.procs && HasRef(s.procs[p]) && s.procs[p].b < |s.refcnt| && s.refcnt[s.procs[p].b] > 0
  {
    var b := s.procs[p].b;
    var t := s.(refcnt := s.refcnt[b := s.refcnt[b] - 1], procs := s.procs - {p});
    if s.refcnt[b] != 1 then t
    else if s.nwait > 0 then t.(lru := [b] + s.lru, waitq := [], procs := Woken(s.procs - {p}))
    else t.(lru := [b] + s.lru)
  }

  lemma PutInv(s: Cache, p: Pid)
    requires Inv(s) && p in s.procs && s.procs[p].LockRetry?
    ensures s.procs[p].b < |s.refcnt| && s.refcnt[s.procs[p].b] > 0 && Inv(Put(s, p))
  {
    hide TableOk, LruOk, DataOk, RefsOk, LocksOk;
    Sizes(s);
    var b := s.procs[p].b;
    var procs := s.procs - {p};
    RefsRemove(s.refcnt, s.sector, s.procs, p);
    LruPut(s.refcnt, s.lru, s.sector, s.cached, b);
    LocksMorph(s.locked, s.queue, s.procs, procs);
    WaitMorph(s.nwait, s.waitq, s.lru, s.procs, s.lru, procs);
    if s.refcnt[b] == 1 {
      if s.nwait > 0 {
        var refcnt := s.refcnt[b := s.refcnt[b] - 1];
        RefsMorph(refcnt, s.sector, procs, Woken(procs));
        LocksMorph(s.locked, s.queue, procs, Woken(procs));
        WaitWake(s.nwait, s.waitq, s.lru, procs, [b] + s.lru);
      } else {
        NobodyWaits(s.nwait, s.waitq, s.lru, procs, [b] + s.lru);
      }
    }
    hide WaitOk;
  }

  lemma NobodyWaits(nwait: nat, waitq: seq<Pid>, lru: seq<nat>, procs: Procs, lru': seq<nat>)
    requires WaitOk(nwait, waitq, lru, procs) && nwait == 0
    ensures WaitOk(nwait, waitq, lru', procs)
  {
    SleeperCounts(nwait, waitq, lru, procs);
  }

  lemma SleeperCounts(nwait: nat, waitq: seq<Pid>, lru: seq<nat>, procs: Procs)
    requires WaitOk(nwait, waitq, lru, procs)
    ensures waitq != [] ==> nwait > 0
  {
    if waitq != [] {
      assert waitq[0] in waitq;
      assert waitq[0] in Waiters(procs);
    }
  }

  /** bread's read from the disk. */
  ghost function Load(s: Cache, b: nat): Cache
    requires b < |s.sector| == |s.valid| == |s.data| && s.sector[b] < |s.disk|
  {
    if s.valid[b] then s else s.(valid := s.valid[b := true], data := s.data[b := s.disk[s.sector[b]]])
  }

  lemma LoadInv(s: Cache, p: Pid)
    requires Inv(s) && p in s.procs && s.procs[p].Holds?
    ensures var b := s.procs[p].b;
            && b < |s.sector| == |s.valid| == |s.data| && s.sector[b] == s.procs[p].x < |s.disk|
            && Inv(Load(s, b)) && Contents(Load(s, b)) == Contents(s)
            && Load(s, b).data[b] == Contents(s)[s.procs[p].x]
  {
    hide TableOk, RefsOk, LocksOk, WaitOk;
    Sizes(s);
    var b := s.procs[p].b;
    HeldHashed(s, p);
    if !s.valid[b] { DataLoad(s.valid, s.dirty, s.data, s.disk, s.sector, s.cached, b); }
    hide DataOk;
  }

  /** The buffer of a process with a reference is in the hash table. */
  lemma HeldHashed(s: Cache, p: Pid)
    requires Inv(s) && p in s.procs && HasRef(s.procs[p])
    ensures Hashed(s.sector, s.cached, s.procs[p].b)
  {
    hide TableOk, DataOk, LocksOk, WaitOk;
    assert p in Users(s.procs, s.procs[p].b);
  }

  /** The holder overwrites the whole sector. */
  ghost function Write(s: Cache, b: nat, d: Sector): Cache
    requires b < |s.valid| == |s.dirty| == |s.data|
  {
    s.(valid := s.valid[b := true], dirty := s.dirty[b := true], data := s.data[b := d])
  }

  lemma WriteInv(s: Cache, p: Pid, d: Sector)
    requires Inv(s) && p in s.procs && s.procs[p].Holds?
    ensures s.procs[p].b < |s.valid| == |s.dirty| == |s.data| && s.procs[p].x < |s.disk|
    ensures Inv(Write(s, s.procs[p].b, d)) && Contents(Write(s, s.procs[p].b, d)) == Contents(s)[s.procs[p].x := d]
  {
    hide TableOk, LruOk, DataOk, RefsOk, LocksOk, WaitOk, Image;
    Sizes(s);
    HeldHashed(s, p);
    DataWrite(s.valid, s.dirty, s.data, s.disk, s.sector, s.cached, s.procs[p].b, d);
  }

  lemma StartInv(n: nat, disk: seq<Sector>)
    ensures Inv(Start(n, disk)) && Contents(Start(n, disk)) == disk
  {
    var s := Start(n, disk);
    forall b: nat | b < n ensures b in s.lru { assert s.lru[b] == b; }
    assert forall b: nat :: Users(s.procs, b) == {};
    assert Waiters(s.procs) == {};
  }

  /** binit: all buffers unhashed on the LRU list. */
  function Start(n: nat, disk: seq<Sector>): Cache {
    Cache(seq(n, i => 0), seq(n, i => 0), seq(n, i => false), seq(n, i => false), seq(n, i => []),
          seq(n, i => false), seq(n, i => []), seq(TABLE, i => []), seq(n, i => i), 0, [], disk, map[], map[])
  }
}
