/**
  The buffer cache as the kernel runs it (drivers/sdcard/bio.c, kernel/smp/sleeplock.c).
  Every method is one stretch of kernel code between two yield points, run by process p.
 */
module BioCode {
  import opened BufferCache
  import opened Seqs

  /** How bget comes back: with the locked buffer, or asleep in one of its two places. */
  datatype Outcome = Got(b: nat) | OnLock(b: nat) | OnBuf

  class Bio {
    var sector: seq<nat>
    var refcnt: seq<nat>
    var valid: seq<bool>
    var dirty: seq<bool>
    var data: seq<Sector>
    var locked: seq<bool>
    var queue: seq<seq<Pid>>
    var chains: seq<seq<nat>>
    var lru: seq<nat>
    var nwait: nat
    var waitq: seq<Pid>
    var disk: seq<Sector>
    ghost var cached: map<nat, nat>
    ghost var procs: Procs

    ghost function View(): Cache
      reads this
    {
      Cache(sector, refcnt, valid, dirty, data, locked, queue, chains, lru, nwait, waitq, disk, cached, procs)
    }

    ghost predicate Valid()
      reads this
    {
      Inv(View())
    }

    /** The sectors as the clients see them. */
    ghost function Sectors(): seq<Sector>
      requires Valid()
      reads this
    {
      Contents(View())
    }

    /** binit */
    constructor (n: nat, disk: seq<Sector>)
      ensures Valid() && View() == Start(n, disk) && Sectors() == disk
      ensures |sector| == |lru| == n && (forall b :: 0 <= b < n ==> lru[b] == b && !dirty[b]) && cached == map[] && procs == map[]
    {
      StartInv(n, disk);
      var s := Start(n, disk);
      sector, refcnt, valid, dirty, data := s.sector, s.refcnt, s.valid, s.dirty, s.data;
      locked, queue, chains, lru := s.locked, s.queue, s.chains, s.lru;
      nwait, waitq, this.disk, cached, procs := s.nwait, s.waitq, s.disk, s.cached, s.procs;
    }

    /** The scan of one hash chain: the position of the buffer of sector x, or the chain's length. */
    method FindInChain(x: nat) returns (i: nat)
      requires Valid()
      ensures |chains| == TABLE && i <= |chains[x % TABLE]|
      ensures i < |chains[x % TABLE]| ==> x in cached && chains[x % TABLE][i] == cached[x]
      ensures i == |chains[x % TABLE]| ==> x !in cached
    {
      hide LruOk, DataOk, RefsOk, LocksOk, WaitOk;
      var chain := chains[x % TABLE];
      assert forall k :: 0 <= k < |chain| ==> chain[k] in chains[x % TABLE] && Hashed(sector, cached, chain[k]);
      assert x in cached ==> Hashed(sector, cached, cached[x]) && cached[x] in chain;
      i := 0;
      while i < |chain| && sector[chain[i]] != x
        invariant i <= |chain|
        invariant forall k :: 0 <= k < i ==> sector[chain[k]] != x
      {
        i := i + 1;
      }
    }

    /** One test of the lock in acquiresleep: take it, or go to sleep on it. */
    method AcquireSleep(p: Pid, b: nat) returns (got: bool)
      requires Valid() && p in procs && procs[p].LockRetry? && procs[p].b == b
      modifies this`locked, this`queue, this`procs
      ensures Valid() && Sectors() == old(Sectors())
      ensures b < |old(locked)| == |old(queue)| && View() == TryLock(old(View()), p)
      ensures got <==> !old(locked)[b]
    {
      hide Inv, Contents;
      TryLockInv(View(), p);
      SameContents(View(), TryLock(View(), p));
      if locked[b] {
        queue := queue[b := [p] + queue[b]];
        procs := procs[p := LockWait(b, procs[p].x)];
        return false;
      }
      locked := locked[b := true];
      procs := procs[p := Holds(b, procs[p].x)];
      got := true;
    }

    /** bget, hit at position i of the chain: to the front of the chain, one more reference. */
    method TakeRef(p: Pid, x: nat, i: nat) returns (b: nat)
      requires Valid() && p !in procs && x in cached
      requires |chains| == TABLE && i < |chains[x % TABLE]| && chains[x % TABLE][i] == cached[x]
      modifies this`chains, this`refcnt, this`lru, this`procs
      ensures Valid() && Sectors() == old(Sectors())
      ensures b == cached[x] && procs == old(procs)[p := LockRetry(b, x)]
      ensures b < |old(refcnt)| && lru == if old(refcnt)[b] == 0 then Remove(old(lru), b) else old(lru)
      ensures refcnt == old(refcnt)[b := old(refcnt)[b] + 1]
      ensures |chains| == TABLE && (forall c :: 0 <= c < TABLE && c != x % TABLE ==> chains[c] == old(chains)[c])
      ensures chains[x % TABLE] != [] && chains[x % TABLE][0] == b
    {
      hide Inv, Contents, Fronted, Remove;
      HitFront(View(), p, x, i);
      var chain := chains[x % TABLE];
      b := chain[i];
      chains := chains[x % TABLE := Fronted(chain, i)];
      if refcnt[b] == 0 {
        lru := Remove(lru, b);
      }
      refcnt := refcnt[b := refcnt[b] + 1];
      procs := procs[p := LockRetry(b, x)];
    }

    /** if (b->dirty) disk_write_bio(b, 1); b->dirty = 0; */
    method WriteBack(b: nat)
      requires Valid() && b < |sector|
      modifies this`disk, this`dirty
      ensures Valid() && Sectors() == old(Sectors()) && |disk| == old(|disk|)
      ensures b < |dirty| == old(|dirty|) && dirty == old(dirty)[b := false]
    {
      hide Inv, Contents;
      FlushInv(View(), b);
      if dirty[b] {
        disk := disk[sector[b] := data[b]];
      }
      dirty := dirty[b := false];
      assert View() == Flush(old(View()), b);
    }

    /** list_del(&b->hash) if b was on a hash list; list_add(&b->hash, &bcache[idx]). */
    method Rehash(b: nat, x: nat) returns (table: seq<seq<nat>>)
      requires Valid() && b < |sector|
      ensures |chains| == TABLE && table == Rechained(sector, chains, cached, b, x)
    {
      hide LruOk, DataOk, RefsOk, LocksOk, WaitOk, Image;
      OffChain(View(), b, x);
      hide TableOk;
      table := chains;
      if b in table[sector[b] % TABLE] {
        table := table[sector[b] % TABLE := Remove(table[sector[b] % TABLE], b)];
      }
      table := table[x % TABLE := [b] + table[x % TABLE]];
    }

    /** bget, miss: the clean least recently used buffer is handed to sector x. */
    method GiveTo(p: Pid, b: nat, x: nat)
      requires Valid() && p !in procs && x !in cached && x < |disk|
      requires lru != [] && b == lru[|lru| - 1] && b < |dirty| && !dirty[b]
      modifies this`chains, this`sector, this`refcnt, this`valid, this`lru, this`cached, this`procs
      ensures Valid() && Sectors() == old(Sectors())
      ensures procs == old(procs)[p := LockRetry(b, x)] && b < |locked| && !locked[b] && |sector| == old(|sector|)
      ensures lru == old(lru[..|lru| - 1])
    {
      hide Inv, Contents, Rechained, Rehashed, Image, Hashed;
      ghost var s := View();
      EvictInv(s, p, x);
      var table := Rehash(b, x);
      chains, sector, refcnt, valid, lru := table, sector[b := x], refcnt[b := 1], valid[b := false], lru[..|lru| - 1];
      cached, procs := Rehashed(s.sector, s.cached, b, x), s.procs[p := LockRetry(b, x)];
      assert View() == Evict(s, p, x);
    }

    /** bget, miss with a free buffer: write the victim back if dirty, hand it to sector x. */
    method Recycle(p: Pid, x: nat) returns (b: nat)
      requires Valid() && p !in procs && x !in cached && x < |disk| && lru != []
      modifies this
      ensures Valid() && Sectors() == old(Sectors())
      ensures procs == old(procs)[p := LockRetry(b, x)] && b < |locked| && !locked[b]
      ensures |disk| == old(|disk|) && |sector| == old(|sector|)
      ensures b == old(lru[|lru| - 1]) && lru == old(lru[..|lru| - 1])
    {
      hide Inv, Contents;
      LastFree(View());
      b := lru[|lru| - 1];
      WriteBack(b);
      GiveTo(p, b, x);
    }

    /** bget from the label rescan on. */
    method Bget(p: Pid, x: nat) returns (r: Outcome)
      requires Valid() && p !in procs && x < |disk|
      modifies this
      ensures Valid() && Sectors() == old(Sectors()) && |disk| == old(|disk|)
      ensures r.Got? ==> procs == old(procs)[p := Holds(r.b, x)]
      ensures r.OnLock? ==> procs == old(procs)[p := LockWait(r.b, x)]
      ensures r.OnBuf? ==> procs == old(procs)[p := BufWait(x)]
      ensures r.OnBuf? <==> x !in old(cached) && old(lru) == []
      ensures r.OnLock? <==> x in old(cached) && old(cached)[x] < |old(locked)| && old(locked)[old(cached)[x]]
      ensures x in old(cached) ==> !r.OnBuf? && r.b == old(cached)[x]
      ensures r.Got? && x !in old(cached) ==> old(lru) != [] && r.b == old(lru[|lru| - 1]) && lru == old(lru[..|lru| - 1])
      ensures |sector| == old(|sector|)
    {
      hide Inv, Contents;
      var i := FindInChain(x);
      if i < |chains[x % TABLE]| {
        var b := TakeRef(p, x, i);
        var got := AcquireSleep(p, b);
        return if got then Got(b) else OnLock(b);
      }
      if lru != [] {
        var b := Recycle(p, x);
        var got := AcquireSleep(p, b);
        assert got;
        return Got(b);
      }
      SleepForBufInv(View(), p, x);
      SameContents(View(), SleepForBuf(View(), p, x));
      nwait := nwait + 1;
      waitq := [p] + waitq;
      procs := procs[p := BufWait(x)];
      r := OnBuf;
    }

    /** A process woken in bget: nwait--, goto rescan. */
    method Rescan(p: Pid, x: nat) returns (r: Outcome)
      requires Valid() && p in procs && procs[p] == BufRetry(x)
      modifies this
      ensures Valid() && Sectors() == old(Sectors()) && |disk| == old(|disk|) && |sector| == old(|sector|)
      ensures r.Got? ==> procs == old(procs)[p := Holds(r.b, x)]
      ensures r.OnLock? ==> procs == old(procs)[p := LockWait(r.b, x)]
      ensures r.OnBuf? ==> procs == old(procs)[p := BufWait(x)]
      ensures r.OnBuf? <==> x !in old(cached) && old(lru) == []
      ensures r.OnLock? <==> x in old(cached) && old(cached)[x] < |old(locked)| && old(locked)[old(cached)[x]]
      ensures x in old(cached) ==> !r.OnBuf? && r.b == old(cached)[x]
      ensures r.Got? && x !in old(cached) ==> old(lru) != [] && r.b == old(lru[|lru| - 1])
    {
      hide Inv, Contents;
      LeaveInv(View(), p);
      SameContents(View(), Leave(View(), p));
      nwait := nwait - 1;
      procs := procs - {p};
      r := Bget(p, x);
    }

    /** A process woken in acquiresleep tests the lock again. */
    method Relock(p: Pid, b: nat) returns (r: Outcome)
      requires Valid() && p in procs && procs[p].LockRetry? && procs[p].b == b
      modifies this`locked, this`queue, this`procs
      ensures Valid() && Sectors() == old(Sectors())
      ensures b < |old(locked)| && r == if old(locked)[b] then OnLock(b) else Got(b)
      ensures r == Got(b) ==> procs == old(procs)[p := Holds(b, old(procs)[p].x)]
      ensures r == OnLock(b) ==> procs == old(procs)[p := LockWait(b, old(procs)[p].x)]
    {
      hide Inv, Contents;
      var got := AcquireSleep(p, b);
      r := if got then Got(b) else OnLock(b);
    }

    /** bread after bget: the holder's buffer gets the sector's contents. */
    method Fill(p: Pid, b: nat)
      requires Valid() && p in procs && procs[p].Holds? && procs[p].b == b
      modifies this`valid, this`data
      ensures Valid() && Sectors() == old(Sectors())
      ensures b < |data| && procs[p].x < |disk| && data[b] == Sectors()[procs[p].x]
    {
      hide Inv, Contents;
      LoadInv(View(), p);
      if !valid[b] {
        data := data[b := disk[sector[b]]];
        valid := valid[b := true];
      }
    }

    /** The holder overwrites its buffer: valid = dirty = 1. */
    method Overwrite(p: Pid, b: nat, d: Sector)
      requires Valid() && p in procs && procs[p].Holds? && procs[p].b == b
      modifies this`valid, this`dirty, this`data
      ensures Valid() && procs[p].x < |disk| && Sectors() == old(Sectors())[procs[p].x := d]
    {
      hide Inv, Contents;
      WriteInv(View(), p, d);
      data := data[b := d];
      valid := valid[b := true];
      dirty := dirty[b := true];
    }

    /** releasesleep: free the lock, wake all its sleepers. */
    method ReleaseSleep(p: Pid, b: nat)
      requires Valid() && p in procs && procs[p].Holds? && procs[p].b == b
      modifies this`locked, this`queue, this`procs
      ensures Valid() && Sectors() == old(Sectors()) && procs == Unlocked(old(procs), p)
    {
      hide Inv, Contents, Unlocked;
      UnlockInv(View(), p);
      SameContents(View(), Unlock(View(), p));
      locked := locked[b := false];
      ghost var queue0 := queue;
      while queue[b] != []
        invariant |queue| == |queue0| && b < |queue| && queue == queue0[b := queue[b]]
        decreases |queue[b]|
        modifies this`queue
      {
        queue := queue[b := queue[b][1..]];
      }
      procs := Unlocked(procs, p);
    }

    /** wakeup(&nwait_sleep_queue): everyone short of a buffer may run again. */
    method WakeAll()
      modifies this`waitq, this`procs
      ensures waitq == [] && procs == Woken(old(procs))
    {
      while waitq != []
        modifies this`waitq
      {
        waitq := waitq[1..];
      }
      procs := Woken(procs);
    }

    /** bput: the last reference frees the buffer and wakes everyone short of one. */
    method Bput(p: Pid, b: nat)
      requires Valid() && p in procs && procs[p].LockRetry? && procs[p].b == b
      modifies this`refcnt, this`lru, this`waitq, this`procs
      ensures Valid() && Sectors() == old(Sectors())
      ensures b < |old(refcnt)|
      ensures procs == if old(refcnt)[b] == 1 && nwait > 0 then Woken(old(procs) - {p}) else old(procs) - {p}
      ensures lru == if old(refcnt)[b] == 1 then [b] + old(lru) else old(lru)
    {
      hide Inv, Contents, Woken, Image, NoDup, Hashed, At;
      ghost var s := View();
      PutInv(s, p);
      SameContents(s, Put(s, p));
      refcnt, procs := refcnt[b := refcnt[b] - 1], procs - {p};
      if refcnt[b] == 0 {
        lru := [b] + lru;
        if nwait > 0 {
          WakeAll();
        }
      }
      assert View() == Put(s, p);
    }

    /** brelse */
    method Brelse(p: Pid, b: nat)
      requires Valid() && p in procs && procs[p].Holds? && procs[p].b == b
      modifies this`locked, this`queue, this`refcnt, this`lru, this`waitq, this`procs
      ensures Valid() && Sectors() == old(Sectors()) && procs.Keys == old(procs).Keys - {p}
      ensures b < |old(refcnt)|
      ensures procs == if old(refcnt)[b] == 1 && nwait > 0 then Woken(Unlocked(old(procs), p) - {p})
                       else Unlocked(old(procs), p) - {p}
      ensures lru == if old(refcnt)[b] == 1 then [b] + old(lru) else old(lru)
    {
      hide Inv, Contents;
      ReleaseSleep(p, b);
      Bput(p, b);
    }

    /** bsync: write back every dirty buffer of the LRU list. */
    method Bsync()
      requires Valid()
      modifies this`disk, this`dirty
      ensures Valid() && Sectors() == old(Sectors()) && |disk| == old(|disk|)
      ensures procs == map[] ==> disk == Sectors()
      ensures forall x: nat :: x < |disk| && NobodyUses(procs, x) ==> disk[x] == Sectors()[x]
    {
      hide Inv, Contents;
      for i := 0 to |lru|
        invariant Valid() && Sectors() == old(Sectors()) && |disk| == old(|disk|)
        invariant forall k :: 0 <= k < i && lru[k] < |dirty| ==> !dirty[lru[k]]
      {
        Sizes(View());
        assert lru[i] in lru;
        var b := lru[i];
        WriteBack(b);
      }
      forall x: nat | x < |disk| && NobodyUses(procs, x) ensures x < |Sectors()| && disk[x] == Sectors()[x] {
        CleanUnused(View(), x);
      }
      if procs == map[] { AllClean(View()); }
    }
  }

  lemma LastFree(s: Cache)
    requires Inv(s) && s.lru != []
    ensures s.lru[|s.lru| - 1] < |s.sector|
  {
    assert s.lru[|s.lru| - 1] in s.lru;
  }

  lemma SameContents(s: Cache, t: Cache)
    requires Inv(s) && t.valid == s.valid && t.data == s.data && t.disk == s.disk && t.cached == s.cached
    ensures |s.valid| == |s.data| && Contents(t) == Contents(s)
  {
  }

  /** The chain with element i moved to the front: list_del, list_add. */
  function Fronted(chain: seq<nat>, i: nat): (r: seq<nat>)
    requires i < |chain|
    ensures r != [] && r[0] == chain[i]
  {
    if i != 0 then [chain[i]] + Remove(chain, chain[i]) else chain
  }

  lemma FrontOfChain(s: Cache, c: nat, i: nat)
    requires Inv(s) && c < TABLE == |s.chains| && i < |s.chains[c]|
    ensures NoDup(Fronted(s.chains[c], i))
    ensures forall a :: a in Fronted(s.chains[c], i) <==> a in s.chains[c]
  {
    hide LruOk, DataOk, RefsOk, LocksOk, WaitOk;
    var chain := s.chains[c];
    RemoveNoDup(chain, chain[i]);
    assert chain[i] in chain && chain[i] !in Remove(chain, chain[i]);
  }

  lemma HitFront(s: Cache, p: Pid, x: nat, i: nat)
    requires Inv(s) && p !in s.procs && x in s.cached
    requires |s.chains| == TABLE && i < |s.chains[x % TABLE]|
    ensures s.cached[x] < |s.refcnt|
    ensures var t := Hit(s, p, x, Fronted(s.chains[x % TABLE], i)); Inv(t) && Contents(t) == Contents(s)
  {
    hide Inv, Contents;
    var chain' := Fronted(s.chains[x % TABLE], i);
    FrontOfChain(s, x % TABLE, i);
    HitInv(s, p, x, chain');
    SameContents(s, Hit(s, p, x, chain'));
  }

  lemma OffChain(s: Cache, b: nat, x: nat)
    requires Inv(s) && b < |s.sector| && |s.chains| == TABLE
    ensures var c := s.sector[b] % TABLE;
            var off := if b in s.chains[c] then s.chains[c := Remove(s.chains[c], b)] else s.chains;
            off[x % TABLE := [b] + off[x % TABLE]] == Rechained(s.sector, s.chains, s.cached, b, x)
  {
    hide LruOk, DataOk, RefsOk, LocksOk, WaitOk;
    assert b in s.chains[s.sector[b] % TABLE] <==> Hashed(s.sector, s.cached, b);
  }

  /** No process has the buffer of sector x, asleep or not. */
  predicate NobodyUses(procs: Procs, x: nat) {
    forall p | p in procs :: !(HasRef(procs[p]) && procs[p].x == x)
  }

  lemma CleanUnused(s: Cache, x: nat)
    requires Inv(s) && x < |s.disk| && NobodyUses(s.procs, x)
    requires forall k :: 0 <= k < |s.lru| && s.lru[k] < |s.dirty| ==> !s.dirty[s.lru[k]]
    ensures |s.valid| == |s.data| && |Contents(s)| == |s.disk| && Contents(s)[x] == s.disk[x]
  {
    hide LocksOk, WaitOk;
    if x in s.cached {
      var b := s.cached[x];
      assert Users(s.procs, b) == {};
      assert b in s.lru;
    }
  }

  /** With nobody inside the cache all buffers are on the LRU list; once clean, the disk is current. */
  lemma AllClean(s: Cache)
    requires Inv(s) && s.procs == map[]
    requires forall k :: 0 <= k < |s.lru| && s.lru[k] < |s.dirty| ==> !s.dirty[s.lru[k]]
    ensures |s.valid| == |s.data| && Contents(s) == s.disk
  {
    hide LocksOk, WaitOk;
    forall b: nat | b < |s.dirty| ensures !s.dirty[b] {
      assert Users(s.procs, b) == {};
      assert b in s.lru;
    }
  }
}
