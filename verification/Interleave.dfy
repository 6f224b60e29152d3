/**
  The buffer cache under every interleaving of processes at the kernel's yield points.
 */
module Interleave {
  import opened BufferCache
  import opened BioCode

  /** What the scheduler lets happen next. */
  datatype Step =
    | Enter(p: Pid, x: nat)            // p calls bget for sector x
    | Resume(p: Pid)                   // p, woken, runs on
    | ReadBuf(p: Pid)                  // the holder p reads its sector
    | WriteBuf(p: Pid, d: Sector)      // the holder p overwrites its sector
    | Exit(p: Pid)                     // the holder p calls brelse
    | SyncAll

  /** What the clients saw and did, in order. */
  datatype Entry = Saw(x: nat, d: Sector) | Put(x: nat, d: Sector)

  /** The reference: a plain array of sectors. */
  ghost function Apply(q: seq<Sector>, log: seq<Entry>): (q': seq<Sector>)
    ensures |q'| == |q|
  {
    if log == [] then q
    else
      var before := Apply(q, log[..|log| - 1]);
      var e := log[|log| - 1];
      if e.Put? && e.x < |q| then before[e.x := e.d] else before
  }

  /** Every read of the log returned the last write to its sector, or its first contents. */
  ghost predicate Explained(q: seq<Sector>, log: seq<Entry>) {
    forall i :: 0 <= i < |log| && log[i].Saw? ==>
      log[i].x < |q| && log[i].d == Apply(q, log[..i])[log[i].x]
  }

  lemma ExplainedAppend(q: seq<Sector>, log: seq<Entry>, e: Entry)
    requires Explained(q, log) && e.x < |q| && (e.Saw? ==> e.d == Apply(q, log)[e.x])
    ensures Explained(q, log + [e])
    ensures Apply(q, log + [e]) == if e.Put? then Apply(q, log)[e.x := e.d] else Apply(q, log)
  {
    var log' := log + [e];
    assert log'[..|log|] == log;
    forall i | 0 <= i < |log'| && log'[i].Saw? ensures log'[i].x < |q| && log'[i].d == Apply(q, log'[..i])[log'[i].x] {
      if i < |log| { assert log'[..i] == log[..i]; }
    }
  }

  /** The plain array holds what was written last, or what it held at first. */
  lemma {:induction false} ApplyLast(q: seq<Sector>, log: seq<Entry>, x: nat, n: nat)
    requires x < |q| && n <= |log| && forall k :: n <= k < |log| ==> log[k].Saw? || log[k].x != x
    ensures n == 0 ==> Apply(q, log)[x] == q[x]
    ensures n > 0 && log[n - 1].Put? && log[n - 1].x == x ==> Apply(q, log)[x] == log[n - 1].d
  {
    if n < |log| { ApplyLast(q, log[..|log| - 1], x, n); }
  }

  /** The safety properties that hold at every yield point. */
  lemma Safe(s: Cache)
    requires Inv(s)
    // at most one buffer per sector
    ensures forall b: nat, c: nat :: Hashed(s.sector, s.cached, b) && Hashed(s.sector, s.cached, c) && s.sector[b] == s.sector[c] ==> b == c
    // on the LRU list iff unreferenced, and then unlocked and without sleepers
    ensures |s.refcnt| == |s.sector| == |s.locked| == |s.queue|
    ensures forall b: nat :: b < |s.refcnt| ==> (b in s.lru <==> s.refcnt[b] == 0)
    ensures forall b: nat :: b < |s.refcnt| && s.refcnt[b] == 0 ==> !s.locked[b] && s.queue[b] == []
    // a process keeps its sector's buffer from bget to brelse, asleep or not
    ensures forall p :: p in s.procs && HasRef(s.procs[p]) ==>
              Hashed(s.sector, s.cached, s.procs[p].b) && s.sector[s.procs[p].b] == s.procs[p].x
    // nobody sleeps on a free lock, nobody sleeps for a buffer while one is free
    ensures forall p, b: nat :: SleepsOn(s.procs, p, b) ==> b < |s.locked| && s.locked[b]
    ensures s.lru != [] ==> forall p :: p in s.procs ==> !s.procs[p].BufWait?
    // one holder at a time
    ensures forall p, p', b: nat :: HoldsBuf(s.procs, p, b) && HoldsBuf(s.procs, p', b) ==> p == p'
  {
    forall b: nat | b < |s.refcnt| && s.refcnt[b] == 0 ensures !s.locked[b] && s.queue[b] == [] {
      UnusedUnlocked(s, b);
    }
    forall p | p in s.procs && HasRef(s.procs[p]) ensures Hashed(s.sector, s.cached, s.procs[p].b) {
      HeldHashed(s, p);
    }
    forall p, b: nat | SleepsOn(s.procs, p, b) ensures b < |s.locked| && s.locked[b] {
      assert p in s.queue[b];
    }
    hide TableOk, DataOk, RefsOk;
    forall p | p in s.procs && s.procs[p].BufWait? ensures s.lru == [] {
      assert p in s.waitq;
    }
  }

  /** Where bget for sector x leaves its process. */
  ghost function Found(s: Cache, x: nat): Proc {
    if x in s.cached then
      var b := s.cached[x];
      if b < |s.locked| && s.locked[b] then LockWait(b, x) else Holds(b, x)
    else if s.lru != [] then Holds(s.lru[|s.lru| - 1], x)
    else BufWait(x)
  }

  predicate IsHolder(procs: Procs, p: Pid) { p in procs && procs[p].Holds? }

  /** The processes after a step; a step its process is not ready for does nothing. */
  ghost function Moves(s: Cache, step: Step): Procs {
    match step
    case Enter(p, x) => if p !in s.procs && x < |s.disk| then s.procs[p := Found(s, x)] else s.procs
    case Resume(p) =>
      if p in s.procs && s.procs[p].BufRetry? then s.procs[p := Found(s, s.procs[p].x)]
      else if p in s.procs && s.procs[p].LockRetry? then
        var b, x := s.procs[p].b, s.procs[p].x;
        s.procs[p := if b < |s.locked| && s.locked[b] then LockWait(b, x) else Holds(b, x)]
      else s.procs
    case Exit(p) =>
      if !IsHolder(s.procs, p) then s.procs
      else if s.procs[p].b < |s.refcnt| && s.refcnt[s.procs[p].b] == 1 && s.nwait > 0
      then Woken(Unlocked(s.procs, p) - {p}) else Unlocked(s.procs, p) - {p}
    case _ => s.procs
  }

  /** What the step contributes to the log: the access of a holder to its sector, and nothing else. */
  ghost function Entries(s: Cache, step: Step): seq<Entry>
    requires Inv(s)
  {
    ContentsSize(s);
    match step
    case ReadBuf(p) => if IsHolder(s.procs, p) then [Saw(s.procs[p].x, Contents(s)[s.procs[p].x])] else []
    case WriteBuf(p, d) => if IsHolder(s.procs, p) then [Put(s.procs[p].x, d)] else []
    case _ => []
  }

  /** One step, from cache state s to cache state t. */
  ghost predicate Stepped(s: Cache, step: Step, t: Cache) {
    && Inv(s) && Inv(t) && |t.disk| == |s.disk|
    && t.procs == Moves(s, step)
    && Contents(t) == Apply(Contents(s), Entries(s, step))
  }

  /** A holder sees its sector as it is and changes it to what it writes; nobody else sees or changes anything. */
  lemma AccessesAre(s: Cache, step: Step, t: Cache)
    requires Stepped(s, step, t)
    ensures |Contents(s)| == |s.disk| == |Contents(t)| && forall p :: p in s.procs ==> s.procs[p].x < |s.disk|
    ensures step.ReadBuf? && IsHolder(s.procs, step.p) ==>
              Entries(s, step) == [Saw(s.procs[step.p].x, Contents(s)[s.procs[step.p].x])]
    ensures step.WriteBuf? && IsHolder(s.procs, step.p) ==>
              && Entries(s, step) == [Put(s.procs[step.p].x, step.d)]
              && Contents(t) == Contents(s)[s.procs[step.p].x := step.d]
    ensures !(step.WriteBuf? && IsHolder(s.procs, step.p)) ==> Contents(t) == Contents(s)
  {
    ContentsSize(s);
    ContentsSize(t);
    ApplyOne(Contents(s));
    hide Inv, Contents, Moves, Apply;
  }

  /** A process that is let in, or woken, holds its buffer at once unless the buffer is locked or none is free. */
  lemma MovesAre(s: Cache, step: Step, t: Cache)
    requires Stepped(s, step, t) && (step.Enter? || step.Resume? || step.Exit?)
    ensures step.Enter? && step.p !in s.procs && step.x < |s.disk| ==>
              step.p in t.procs && Waits(s, step.x, t.procs[step.p])
    ensures step.Resume? && step.p in s.procs && s.procs[step.p].BufRetry? ==>
              step.p in t.procs && Waits(s, s.procs[step.p].x, t.procs[step.p])
    ensures step.Resume? && step.p in s.procs && s.procs[step.p].LockRetry? ==>
              && step.p in t.procs && t.procs[step.p].x == s.procs[step.p].x
              && s.procs[step.p].b < |s.locked|
              && if s.locked[s.procs[step.p].b] then t.procs[step.p].LockWait? else t.procs[step.p].Holds?
    ensures step.Exit? && IsHolder(s.procs, step.p) ==> step.p !in t.procs
  {
    if step.Resume? && step.p in s.procs && s.procs[step.p].LockRetry? { HeldHashed(s, step.p); }
    hide TableOk, DataOk, RefsOk;
  }

  /** The process has gone to sleep for a buffer, for the lock of its buffer, or for neither. */
  ghost predicate Waits(s: Cache, x: nat, p: Proc) {
    && p.x == x && !p.LockRetry? && !p.BufRetry?
    && (p.BufWait? <==> x !in s.cached && s.lru == [])
    && (p.LockWait? <==> x in s.cached && s.cached[x] < |s.locked| && s.locked[s.cached[x]])
  }

  method Do(bio: Bio, pcs: Procs, step: Step) returns (pcs': Procs, log: seq<Entry>)
    requires bio.Valid() && pcs == bio.procs
    modifies bio
    ensures bio.Valid() && pcs' == bio.procs
    ensures log == Entries(old(bio.View()), step) && Stepped(old(bio.View()), step, bio.View())
    ensures step == SyncAll ==> forall x: nat :: x < |bio.disk| && NobodyUses(pcs, x) ==> bio.disk[x] == bio.Sectors()[x]
  {
    hide Inv, Contents, Woken, Unlocked;
    pcs', log := pcs, [];
    ContentsSize(bio.View());
    ghost var s := bio.View();
    ApplyOne(bio.Sectors());
    hide Apply;
    match step
    case Enter(p, x) =>
      if p !in pcs && x < |bio.disk| {
        var r := bio.Bget(p, x);
        pcs' := pcs[p := Standing(r, x)];
      }
    case Resume(p) =>
      if p in pcs && pcs[p].BufRetry? {
        var r := bio.Rescan(p, pcs[p].x);
        pcs' := pcs[p := Standing(r, pcs[p].x)];
      } else if p in pcs && pcs[p].LockRetry? {
        var r := bio.Relock(p, pcs[p].b);
        pcs' := pcs[p := Standing(r, pcs[p].x)];
      }
    case ReadBuf(p) =>
      if p in pcs && pcs[p].Holds? {
        bio.Fill(p, pcs[p].b);
        log := [Saw(pcs[p].x, bio.data[pcs[p].b])];
      }
    case WriteBuf(p, d) =>
      if p in pcs && pcs[p].Holds? {
        bio.Overwrite(p, pcs[p].b, d);
        log := [Put(pcs[p].x, d)];
      }
    case Exit(p) =>
      if p in pcs && pcs[p].Holds? {
        Sizes(bio.View());
        var last := bio.refcnt[pcs[p].b] == 1 && bio.nwait > 0;
        bio.Brelse(p, pcs[p].b);
        pcs' := if last then Woken(Unlocked(pcs, p) - {p}) else Unlocked(pcs, p) - {p};
      }
    case SyncAll =>
      bio.Bsync();
  }

  lemma ApplyOne(q: seq<Sector>)
    ensures Apply(q, []) == q
    ensures forall e: Entry :: Apply(q, [e]) == if e.Put? && e.x < |q| then q[e.x := e.d] else q
  {
    forall e: Entry ensures Apply(q, [e]) == if e.Put? && e.x < |q| then q[e.x := e.d] else q {
      assert [e][..0] == [];
    }
  }

  /** Where the outcome of bget leaves its process. */
  function Standing(r: Outcome, x: nat): Proc {
    match r
    case Got(b) => Holds(b, x)
    case OnLock(b) => LockWait(b, x)
    case OnBuf => BufWait(x)
  }

  lemma ContentsSize(s: Cache)
    requires Inv(s)
    ensures |s.valid| == |s.data| && |Contents(s)| == |s.disk|
    ensures forall p :: p in s.procs ==> s.procs[p].x < |s.disk|
  {
  }

  /** The entries of all steps, in order, each read off the state in which its step was taken. */
  ghost function LogOf(trace: seq<Cache>, steps: seq<Step>): seq<Entry>
    requires |trace| >= |steps| && forall i :: 0 <= i < |trace| ==> Inv(trace[i])
  {
    if steps == [] then []
    else LogOf(trace, steps[..|steps| - 1]) + Entries(trace[|steps| - 1], steps[|steps| - 1])
  }

  /** A history of the cache for the schedule. */
  ghost predicate History(trace: seq<Cache>, steps: seq<Step>) {
    && |trace| == |steps| + 1
    && (forall i :: 0 <= i < |trace| ==> Inv(trace[i]))
    && (forall i :: 0 <= i < |steps| ==> Stepped(trace[i], steps[i], trace[i + 1]))
  }

  lemma HistoryNext(trace: seq<Cache>, steps: seq<Step>, step: Step, t: Cache)
    requires History(trace, steps) && Stepped(trace[|steps|], step, t)
    ensures History(trace + [t], steps + [step])
    ensures LogOf(trace + [t], steps + [step]) == LogOf(trace, steps) + Entries(trace[|steps|], step)
  {
    hide Inv, Moves, Contents, Apply, Entries, Stepped;
    var trace', steps' := trace + [t], steps + [step];
    StepInv(trace[|steps|], step, t);
    forall i | 0 <= i < |steps'| ensures Stepped(trace'[i], steps'[i], trace'[i + 1]) {
      if i < |steps| { assert Stepped(trace[i], steps[i], trace[i + 1]); }
    }
    assert steps'[..|steps|] == steps;
    LogPrefix(trace, t, steps);
  }

  lemma StepInv(s: Cache, step: Step, t: Cache)
    requires Stepped(s, step, t)
    ensures Inv(s) && Inv(t)
  {
  }

  lemma {:induction false} LogPrefix(trace: seq<Cache>, t: Cache, steps: seq<Step>)
    requires |trace| >= |steps| && Inv(t) && forall i :: 0 <= i < |trace| ==> Inv(trace[i])
    ensures LogOf(trace + [t], steps) == LogOf(trace, steps)
  {
    hide Inv, Entries;
    if steps != [] {
      LogPrefix(trace, t, steps[..|steps| - 1]);
    }
  }

  /** The entries of a step report the state in which it was taken. */
  lemma EntriesFit(s: Cache, step: Step)
    requires Inv(s)
    ensures |Entries(s, step)| <= 1
    ensures forall e :: e in Entries(s, step) ==> e.x < |Contents(s)| && (e.Saw? ==> e.d == Contents(s)[e.x])
  {
    ContentsSize(s);
    hide Inv, Contents;
  }

  /**
    Every schedule: whatever the processes do and in whatever order they run, the log consists
    of exactly the accesses of the holders, in order, each read sees the last write to its
    sector, and the invariant holds throughout.
   */
  method Schedule(bio: Bio, pcs: Procs, steps: seq<Step>) returns (log: seq<Entry>, ghost trace: seq<Cache>)
    requires bio.Valid() && pcs == bio.procs
    modifies bio
    ensures bio.Valid() && History(trace, steps) && trace[0] == old(bio.View()) && trace[|steps|] == bio.View()
    ensures log == LogOf(trace, steps)
    ensures Explained(old(bio.Sectors()), log)
    ensures bio.Sectors() == Apply(old(bio.Sectors()), log)
  {
    hide Inv, Contents, Explained, Apply, Entries, Moves, LogOf;
    ghost var q := bio.Sectors();
    log, trace := [], [bio.View()];
    var now := pcs;
    HistoryBegins(bio.View());
    NothingYet(q);
    for i := 0 to |steps|
      invariant bio.Valid() && now == bio.procs && |trace| == i + 1
      invariant History(trace, steps[..i]) && trace[0] == old(bio.View()) && trace[i] == bio.View()
      invariant log == LogOf(trace, steps[..i])
      invariant Explained(q, log) && bio.Sectors() == Apply(q, log)
    {
      var more;
      ghost var s := bio.View();
      EntriesFit(s, steps[i]);
      ApplyOne(bio.Sectors());
      now, more := Do(bio, now, steps[i]);
      HistoryNext(trace, steps[..i], steps[i], bio.View());
      assert steps[..i] + [steps[i]] == steps[..i + 1];
      trace := trace + [bio.View()];
      if more != [] {
        assert more == [more[0]] && more[0] in more;
        ExplainedAppend(q, log, more[0]);
        log := log + [more[0]];
      }
    }
    assert steps[..|steps|] == steps;
  }

  lemma HistoryBegins(s: Cache)
    requires Inv(s)
    ensures History([s], []) && LogOf([s], []) == []
  {
  }

  lemma NothingYet(q: seq<Sector>)
    ensures Explained(q, []) && Apply(q, []) == q
  {
  }
}
