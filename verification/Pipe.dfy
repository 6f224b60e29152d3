/**
  Pipes (kernel/fat32/pipe.c): a ring buffer between blocking readers and writers.  A task that
  finds nothing to do sleeps and tries again when it is woken, so a run is a sequence of
  attempts, each by the task that is running.
 */
module Pipe {
  import opened RingBuffer
  import opened Seqs
  import opened Sched

  const EINVAL := 22

  /** A pipe as its users see it, with the tasks of the kernel; room is the free space. */
  datatype State = State(bytes: seq<Byte>, room: nat, rValid: nat, wValid: nat, tasks: Tasks)

  /** The wait queues r_list and w_list. */
  datatype Ends = Ends(rq: nat, wq: nat)

  /** A retry is the pass of the loop after a wake-up, which skips the argument checks. */
  datatype PipeOp =
    | ReadOp(count: nat, retry: bool)
    | WriteOp(data: seq<Byte>, retry: bool)
    | CloseOp(read: bool)
    | Other(op: Op)

  /** Sleeping readers mean an empty pipe, sleeping writers a full one. */
  ghost predicate PipeOk(s: State, e: Ends) {
    && Entered(s.tasks) && |s.bytes| + s.room > 0
    && PCB_WAIT < e.rq < |s.tasks.waits| && PCB_WAIT < e.wq < |s.tasks.waits| && e.rq != e.wq
    && (s.tasks.waits[e.rq] != [] ==> s.bytes == [])
    && (s.tasks.waits[e.wq] != [] ==> s.room == 0)
  }

  /** Whether the operation gets as far as the ring buffer. */
  predicate Attempts(s: State, op: PipeOp) {
    && s.tasks.current != 0
    && match op
       case ReadOp(count, retry) => count > 0 && (retry || s.rValid > 0)
       case WriteOp(_, retry) => retry || s.wValid > 0
       case _ => false
  }

  /** The bytes that a read takes and a write adds. */
  function Got(s: State, op: PipeOp): (b: seq<Byte>)
    ensures b <= s.bytes
  {
    if op.ReadOp? && Attempts(s, op) then s.bytes[..Min(|s.bytes|, op.count)] else []
  }

  function Put(s: State, op: PipeOp): (b: seq<Byte>)
    ensures |b| <= s.room
  {
    if op.WriteOp? && Attempts(s, op) then op.data[..Min(s.room, |op.data|)] else []
  }

  /** What the operation asks of the scheduler: nothing is an out-of-range wake-up. */
  function TaskOp(s: State, e: Ends, op: PipeOp): Op {
    match op
    case ReadOp(_, _) =>
      if !Attempts(s, op) then WakeQueue(|s.tasks.waits|)
      else if Got(s, op) != [] then WakeQueue(e.wq)
      else if s.wValid > 0 then Sleep(e.rq) else WakeQueue(|s.tasks.waits|)
    case WriteOp(_, _) =>
      if !Attempts(s, op) then WakeQueue(|s.tasks.waits|)
      else if Put(s, op) != [] then WakeQueue(e.rq)
      else if s.rValid > 0 then Sleep(e.wq) else WakeQueue(|s.tasks.waits|)
    case CloseOp(_) => WakeQueue(|s.tasks.waits|)
    case Other(o) => o
  }

  ghost function PipeNext(s: State, e: Ends, op: PipeOp): State
    requires Entered(s.tasks)
  {
    State((s.bytes + Put(s, op))[|Got(s, op)|..], s.room - |Put(s, op)| + |Got(s, op)|,
          if op == CloseOp(true) && s.rValid > 0 then s.rValid - 1 else s.rValid,
          if op == CloseOp(false) && s.wValid > 0 then s.wValid - 1 else s.wValid,
          Next(s.tasks, TaskOp(s, e, op)))
  }

  /** Writes carry something, and nobody else sleeps on the pipe's own lists. */
  predicate Fair(e: Ends, op: PipeOp) {
    match op
    case WriteOp(data, _) => data != []
    case Other(o) => o != Sleep(e.rq) && o != Sleep(e.wq)
    case _ => true
  }

  /** Queues that an entry does not put the running task on do not become longer. */
  lemma QuietQueue(t: Tasks, op: Op, q: nat)
    requires Entered(t) && PCB_WAIT < q < |t.waits| && op != Sleep(q) && t.waits[q] == []
    ensures Next(t, op).waits[q] == []
  {
    hide Holds, WaitsOk, RunOk, BuildOk;
  }

  lemma WokenQueue(t: Tasks, q: nat)
    requires Entered(t) && q < |t.waits|
    ensures Next(t, WakeQueue(q)).waits == t.waits[q := []]
  {
    assert t.waits[q][|t.waits[q]|..] == [];
  }

  lemma {:induction false} PipeNextOk(s: State, e: Ends, op: PipeOp)
    requires PipeOk(s, e) && Fair(e, op)
    ensures PipeOk(PipeNext(s, e, op), e)
  {
    hide Next, Entered;
    var t := TaskOp(s, e, op);
    if s.tasks.waits[e.rq] == [] && t != Sleep(e.rq) { QuietQueue(s.tasks, t, e.rq); }
    if s.tasks.waits[e.wq] == [] && t != Sleep(e.wq) { QuietQueue(s.tasks, t, e.wq); }
    if t == WakeQueue(e.rq) { WokenQueue(s.tasks, e.rq); }
    if t == WakeQueue(e.wq) { WokenQueue(s.tasks, e.wq); }
  }

  /** A write of nothing keeps "sleeping writers mean a full pipe" exactly when it does not sleep below that. */
  lemma ZeroWrite(s: State, e: Ends, retry: bool)
    requires PipeOk(s, e)
    ensures PipeOk(PipeNext(s, e, WriteOp([], retry)), e) <==>
              !Attempts(s, WriteOp([], retry)) || s.rValid == 0 || s.room == 0
  {
  }

  /** One pass of a read, over what the pipe holds: at the end of the file it returns without sleeping. */
  lemma ReadMoves(s: State, e: Ends, count: nat, retry: bool)
    requires PipeOk(s, e)
    ensures var r, t := PipeNext(s, e, ReadOp(count, retry)), s.tasks;
            if t.current == 0 || count == 0 || (!retry && s.rValid == 0) || (s.bytes == [] && s.wValid == 0) then r == s
            else if s.bytes == [] then
              && r.bytes == [] && r.tasks.waits == t.waits[e.rq := [t.current] + t.waits[e.rq]]
              && r.tasks.status[t.current] == Blocked
            else
              && r.bytes == s.bytes[if count < |s.bytes| then count else |s.bytes|..]
              && r.tasks.waits == t.waits[e.wq := []] && r.tasks.ready == Reversed(t.waits[e.wq]) + t.ready
              && r.tasks.current == t.current
  {
    hide Next, Entered;
    if s.tasks.current != 0 { SleepMoves(s.tasks, Sleep(e.rq), e.rq); }
    AllWoken(s.tasks, e.wq);
  }

  /** The same of a write: with no reader left it returns without sleeping. */
  lemma WriteMoves(s: State, e: Ends, data: seq<Byte>, retry: bool)
    requires PipeOk(s, e)
    ensures var r, t := PipeNext(s, e, WriteOp(data, retry)), s.tasks;
            if t.current == 0 || (!retry && s.wValid == 0) || ((data == [] || s.room == 0) && s.rValid == 0) then r == s
            else if data == [] || s.room == 0 then
              && r.bytes == s.bytes && r.tasks.waits == t.waits[e.wq := [t.current] + t.waits[e.wq]]
              && r.tasks.status[t.current] == Blocked
            else
              && r.bytes == s.bytes + data[..if s.room < |data| then s.room else |data|]
              && r.tasks.waits == t.waits[e.rq := []] && r.tasks.ready == Reversed(t.waits[e.rq]) + t.ready
              && r.tasks.current == t.current
  {
    hide Next, Entered;
    if s.tasks.current != 0 { SleepMoves(s.tasks, Sleep(e.wq), e.wq); }
    AllWoken(s.tasks, e.rq);
  }

  lemma AllWoken(t: Tasks, q: nat)
    requires Entered(t) && q < |t.waits|
    ensures var r := Next(t, WakeQueue(q));
            r.waits == t.waits[q := []] && r.ready == Reversed(t.waits[q]) + t.ready && r.current == t.current
    ensures Next(t, WakeQueue(|t.waits|)) == t
  {
    if t.waits[q] == [] {
      NoneWoken(t, q);
      assert t.waits[q := []] == t.waits;
    } else {
      WakeMoves(t, q, 0);
    }
  }

  /** Whoever sleeps on the pipe has somebody at the other end who can wake it. */
  ghost predicate NoOrphans(s: State, e: Ends)
    requires e.rq < |s.tasks.waits| && e.wq < |s.tasks.waits|
  {
    (s.tasks.waits[e.rq] != [] ==> s.wValid > 0) && (s.tasks.waits[e.wq] != [] ==> s.rValid > 0)
  }

  /** Closing the last end of one side leaves behind whoever sleeps on the other. */
  predicate Abandons(s: State, e: Ends, op: PipeOp)
    requires e.rq < |s.tasks.waits| && e.wq < |s.tasks.waits|
  {
    || (op == CloseOp(false) && s.wValid == 1 && s.tasks.waits[e.rq] != [])
    || (op == CloseOp(true) && s.rValid == 1 && s.tasks.waits[e.wq] != [])
  }

  /** Every step keeps this but the close of the last end while somebody sleeps at the other. */
  lemma OrphansIff(s: State, e: Ends, op: PipeOp)
    requires PipeOk(s, e) && Fair(e, op) && NoOrphans(s, e)
    ensures PipeOk(PipeNext(s, e, op), e) && (NoOrphans(PipeNext(s, e, op), e) <==> !Abandons(s, e, op))
  {
    hide Next, Entered;
    PipeNextOk(s, e, op);
    var t := TaskOp(s, e, op);
    if s.tasks.waits[e.rq] == [] && t != Sleep(e.rq) { QuietQueue(s.tasks, t, e.rq); }
    if s.tasks.waits[e.wq] == [] && t != Sleep(e.wq) { QuietQueue(s.tasks, t, e.wq); }
    if op.CloseOp? { AllWoken(s.tasks, e.rq); }
  }

  ghost function PipeAfter(s: State, e: Ends, ops: seq<PipeOp>): (r: State)
    requires Entered(s.tasks)
    ensures Entered(r.tasks)
  {
    if ops == [] then s else PipeNext(PipeAfter(s, e, ops[..|ops| - 1]), e, ops[|ops| - 1])
  }

  /** Everything the reads of a run take, and everything its writes add, in order. */
  ghost function AllGot(s: State, e: Ends, ops: seq<PipeOp>): seq<Byte>
    requires Entered(s.tasks)
  {
    if ops == [] then [] else
      AllGot(s, e, ops[..|ops| - 1]) + Got(PipeAfter(s, e, ops[..|ops| - 1]), ops[|ops| - 1])
  }

  ghost function AllPut(s: State, e: Ends, ops: seq<PipeOp>): seq<Byte>
    requires Entered(s.tasks)
  {
    if ops == [] then [] else
      AllPut(s, e, ops[..|ops| - 1]) + Put(PipeAfter(s, e, ops[..|ops| - 1]), ops[|ops| - 1])
  }

  /** A step that neither wakes the readers from outside nor continues a write begun before. */
  predicate LeavesReaders(e: Ends, op: PipeOp) {
    match op
    case WriteOp(_, retry) => !retry
    case Other(o) => o != WakeQueue(e.rq) && (o.WakeOne? ==> o.q != e.rq)
    case _ => true
  }

  lemma StaysAsleep(t: Tasks, op: Op, q: nat, u: nat)
    requires Entered(t) && PCB_WAIT < q < |t.waits| && u in t.waits[q]
    requires op != WakeQueue(q) && (op.WakeOne? ==> op.q != q)
    ensures u in Next(t, op).waits[q]
  {
    hide Holds, WaitsOk, RunOk, BuildOk;
  }

  /** Reader u sleeps on an empty pipe that nobody can write to. */
  ghost predicate Orphan(s: State, e: Ends, u: nat) {
    Entered(s.tasks) && PCB_WAIT < e.rq < |s.tasks.waits| && u in s.tasks.waits[e.rq] && s.wValid == 0 && s.bytes == []
  }

  lemma OrphanStep(s: State, e: Ends, op: PipeOp, u: nat)
    requires Orphan(s, e, u) && LeavesReaders(e, op)
    ensures Orphan(PipeNext(s, e, op), e, u)
  {
    hide Next, Entered;
    StaysAsleep(s.tasks, TaskOp(s, e, op), e.rq, u);
  }

  /** The end of the file does not wake a sleeping reader: one that is left behind sleeps for ever. */
  lemma {:induction false} OrphanSleeps(s: State, e: Ends, ops: seq<PipeOp>, u: nat)
    requires Orphan(s, e, u) && forall i :: 0 <= i < |ops| ==> LeavesReaders(e, ops[i])
    ensures Orphan(PipeAfter(s, e, ops), e, u)
  {
    assert Entered(s.tasks);
    hide Orphan, LeavesReaders, PipeNext;
    if ops != [] {
      var n := |ops| - 1;
      OrphanSleeps(s, e, ops[..n], u);
      OrphanStep(PipeAfter(s, e, ops[..n]), e, ops[n], u);
    }
  }

  /**
    Every interleaving: what was in the pipe and what the writes added is what the reads took
    and what is in the pipe, in order; and readers and writers never sleep together.
   */
  lemma {:induction false} Stream(s: State, e: Ends, ops: seq<PipeOp>)
    requires PipeOk(s, e) && forall i :: 0 <= i < |ops| ==> Fair(e, ops[i])
    ensures var r := PipeAfter(s, e, ops);
            && PipeOk(r, e) && s.bytes + AllPut(s, e, ops) == AllGot(s, e, ops) + r.bytes
            && (r.tasks.waits[e.rq] == [] || r.tasks.waits[e.wq] == [])
  {
    if ops != [] {
      var n := |ops| - 1;
      Stream(s, e, ops[..n]);
      var u := PipeAfter(s, e, ops[..n]);
      PipeNextOk(u, e, ops[n]);
      hide Next, PipeOk, Entered, Fair, TaskOp, Got, Put;
      Conserve(s.bytes, AllPut(s, e, ops[..n]), Put(u, ops[n]), AllGot(s, e, ops[..n]), u.bytes, Got(u, ops[n]));
    }
    NotBoth(PipeAfter(s, e, ops), e);
  }

  lemma NotBoth(s: State, e: Ends)
    requires PipeOk(s, e)
    ensures e.rq < |s.tasks.waits| && e.wq < |s.tasks.waits| && (s.tasks.waits[e.rq] == [] || s.tasks.waits[e.wq] == [])
  {
  }

  lemma Conserve(start: seq<Byte>, put: seq<Byte>, p: seq<Byte>, got: seq<Byte>, bytes: seq<Byte>, g: seq<Byte>)
    requires start + put == got + bytes && g <= bytes
    ensures start + (put + p) == (got + g) + (bytes + p)[|g|..]
  {
    assert start + (put + p) == (got + bytes) + p;
    assert bytes == g + bytes[|g|..];
    assert (bytes + p)[|g|..] == bytes[|g|..] + p;
  }

  // ----- The code

  datatype Outcome = Done(r: int) | Slept

  class Pipe {
    const ring: Ring
    const sched: Scheduler
    const ends: Ends
    var rValid: nat
    var wValid: nat

    ghost predicate Valid()
      reads this, ring, sched
    {
      && ring.Valid() && Entered(sched.View())
      && PCB_WAIT < ends.rq < |sched.waits| && PCB_WAIT < ends.wq < |sched.waits| && ends.rq != ends.wq
    }

    ghost function View(): State
      requires ring.Valid()
      reads this, ring, ring.buf, sched
    {
      State(ring.Contents(), ring.size - 1 - |ring.Contents()|, rValid, wValid, sched.View())
    }

    /** alloc_one_pipe, for the pipe it has found. */
    constructor (ring: Ring, sched: Scheduler, ends: Ends)
      requires ring.Valid() && ring.Contents() == [] && Entered(sched.View())
      requires PCB_WAIT < ends.rq < |sched.waits| && PCB_WAIT < ends.wq < |sched.waits| && ends.rq != ends.wq
      requires sched.waits[ends.rq] == [] && sched.waits[ends.wq] == []
      ensures Valid() && PipeOk(View(), ends) && ring.Contents() == [] && rValid == 1 && wValid == 1
      ensures this.ring == ring && this.sched == sched && this.ends == ends
    {
      this.ring, this.sched, this.ends := ring, sched, ends;
      rValid, wValid := 1, 1;
    }

    /** One pass of the loop of pipe_read, with what follows it when the pass leaves the loop. */
    method TryRead(dst: array<Byte>, count: nat) returns (o: Outcome)
      requires Valid() && sched.current != 0 && 0 < count <= dst.Length && dst != ring.buf
      modifies ring`head, sched, dst
      ensures Valid() && View() == PipeNext(old(View()), ends, ReadOp(count, true))
      ensures o.Slept? <==> old(ring.Contents()) == [] && wValid > 0
      ensures o.Slept? ==> sched.waits == old(sched.waits[ends.rq := [sched.current] + sched.waits[ends.rq]])
      ensures old(ring.Contents()) == [] && wValid == 0 ==> o == Done(0) && sched.View() == old(sched.View())
      ensures o.Done? ==>
                && 0 <= o.r <= count && (o.r == count || ring.Contents() == [])
                && dst[..o.r] == Got(old(View()), ReadOp(count, true)) && dst[..o.r] + ring.Contents() == old(ring.Contents())
      ensures o.Done? && o.r > 0 ==> sched.waits == old(sched.waits)[ends.wq := []]
    {
      hide Settled, Switch, WokenBy, Span, Wake, Collected;
      ghost var s := View();
      var len := ring.Read(dst, count);
      assert dst[..len] == Got(s, ReadOp(count, true));
      if len == 0 && wValid > 0 {
        sched.DoBlock(ends.rq);
        return Slept;
      }
      if len > 0 {
        sched.WakeAll(ends.wq);
      }
      o := Done(len);
    }

    /** One pass of the loop of pipe_write. */
    method TryWrite(src: array<Byte>, count: nat) returns (o: Outcome)
      requires Valid() && sched.current != 0 && count <= src.Length && src != ring.buf
      modifies ring`tail, ring.buf, sched
      ensures Valid() && View() == PipeNext(old(View()), ends, WriteOp(src[..count], true))
      ensures o.Slept? <==> (count == 0 || old(|ring.Contents()|) == ring.size - 1) && rValid > 0
      ensures o.Slept? ==> sched.waits == old(sched.waits[ends.wq := [sched.current] + sched.waits[ends.wq]])
      ensures (count == 0 || old(|ring.Contents()|) == ring.size - 1) && rValid == 0 ==>
                o == Done(0) && sched.View() == old(sched.View())
      ensures o.Done? ==>
                && 0 <= o.r <= count && (o.r == count || |ring.Contents()| == ring.size - 1)
                && src[..o.r] == Put(old(View()), WriteOp(src[..count], true))
                && ring.Contents() == old(ring.Contents()) + src[..o.r]
      ensures o.Done? && o.r > 0 ==> sched.waits == old(sched.waits)[ends.rq := []]
    {
      hide Settled, Switch, WokenBy, Span, Wake, Collected;
      ghost var s := View();
      var len := ring.Write(src, count);
      assert src[..len] == Put(s, WriteOp(src[..count], true));
      if len == 0 && rValid > 0 {
        sched.DoBlock(ends.wq);
        return Slept;
      }
      if len > 0 {
        sched.WakeAll(ends.rq);
      }
      o := Done(len);
    }

    /** pipe_read up to its first sleep. */
    method Read(dst: array<Byte>, count: nat) returns (o: Outcome)
      requires Valid() && sched.current != 0 && count <= dst.Length && dst != ring.buf
      modifies ring`head, sched, dst
      ensures Valid() && View() == PipeNext(old(View()), ends, ReadOp(count, false))
      ensures count == 0 ==> o == Done(0)
      ensures count > 0 && rValid == 0 ==> o == Done(-EINVAL)
      ensures count == 0 || rValid == 0 ==> View() == old(View())
      ensures o.Slept? <==> count > 0 && rValid > 0 && old(ring.Contents()) == [] && wValid > 0
      ensures count > 0 && rValid > 0 && old(ring.Contents()) == [] && wValid == 0 ==>
                o == Done(0) && sched.View() == old(sched.View())
      ensures o.Done? && o.r >= 0 && count > 0 ==>
                && o.r <= count && (o.r == count || ring.Contents() == [])
                && dst[..o.r] + ring.Contents() == old(ring.Contents())
      ensures o.Done? && o.r >= 0 ==> o.r <= count && dst[..o.r] == Got(old(View()), ReadOp(count, false))
      ensures o.Done? && o.r < 0 ==> Got(old(View()), ReadOp(count, false)) == []
    {
      hide Settled, Switch, WokenBy, Span;
      if count == 0 { return Done(0); }
      if rValid == 0 { return Done(-EINVAL); }
      o := TryRead(dst, count);
    }

    /** pipe_write up to its first sleep. */
    method Write(src: array<Byte>, count: nat) returns (o: Outcome)
      requires Valid() && sched.current != 0 && count <= src.Length && src != ring.buf
      modifies ring`tail, ring.buf, sched
      ensures Valid() && View() == PipeNext(old(View()), ends, WriteOp(src[..count], false))
      ensures wValid == 0 ==> o == Done(-EINVAL)
      ensures wValid == 0 ==> View() == old(View())
      ensures o.Slept? <==> wValid > 0 && rValid > 0 && (count == 0 || old(|ring.Contents()|) == ring.size - 1)
      ensures wValid > 0 && rValid == 0 && (count == 0 || old(|ring.Contents()|) == ring.size - 1) ==>
                o == Done(0) && sched.View() == old(sched.View())
      ensures o.Done? && o.r >= 0 ==>
                && o.r <= count && (o.r == count || |ring.Contents()| == ring.size - 1)
                && src[..o.r] == Put(old(View()), WriteOp(src[..count], false))
                && ring.Contents() == old(ring.Contents()) + src[..o.r]
      ensures o.Done? && o.r < 0 ==> Put(old(View()), WriteOp(src[..count], false)) == []
    {
      hide Settled, Switch, WokenBy, Span;
      if wValid == 0 { return Done(-EINVAL); }
      o := TryWrite(src, count);
    }

    /** close_pipe_read and close_pipe_write. */
    method Close(read: bool) returns (r: int)
      requires Valid()
      modifies this`rValid, this`wValid
      ensures Valid() && View() == PipeNext(old(View()), ends, CloseOp(read))
      ensures r == if old(if read then rValid else wValid) == 0 then -EINVAL else 0
      ensures rValid == old(rValid) - (if read && r == 0 then 1 else 0)
      ensures wValid == old(wValid) - (if !read && r == 0 then 1 else 0)
    {
      hide Settled, Switch, WokenBy, Span;
      r := 0;
      if read {
        if rValid == 0 { return -EINVAL; }
        rValid := rValid - 1;
      } else {
        if wValid == 0 { return -EINVAL; }
        wValid := wValid - 1;
      }
    }

    /** One step of the running task: a pipe call, a retry after a wake-up, or anything else it does. */
    method Step(op: PipeOp) returns (got: seq<Byte>, put: seq<Byte>)
      requires Valid()
      modifies this, ring, ring.buf, sched
      ensures Valid() && View() == PipeNext(old(View()), ends, op)
      ensures got == Got(old(View()), op) && put == Put(old(View()), op)
    {
      got, put := [], [];
      match op
      case ReadOp(count, retry) => got := DoRead(count, retry);
      case WriteOp(data, retry) => put := DoWrite(data, retry);
      case CloseOp(read) => var _ := Close(read);
      case Other(o) =>
        hide Next, Settled, Span;
        sched.Step(o);
    }

    method DoRead(count: nat, retry: bool) returns (got: seq<Byte>)
      requires Valid()
      modifies ring`head, sched
      ensures Valid() && View() == PipeNext(old(View()), ends, ReadOp(count, retry))
      ensures got == Got(old(View()), ReadOp(count, retry))
    {
      hide Settled, Switch, WokenBy, Span;
      got := [];
      if sched.current != 0 && (retry ==> count > 0) {
        hide Next;
        var dst := new Byte[count];
        var o;
        if retry { o := TryRead(dst, count); } else { o := Read(dst, count); }
        if o.Done? && o.r >= 0 { got := dst[..o.r]; }
      }
    }

    method DoWrite(data: seq<Byte>, retry: bool) returns (put: seq<Byte>)
      requires Valid()
      modifies ring`tail, ring.buf, sched
      ensures Valid() && View() == PipeNext(old(View()), ends, WriteOp(data, retry))
      ensures put == Put(old(View()), WriteOp(data, retry))
    {
      hide Settled, Switch, WokenBy, Span;
      put := [];
      if sched.current != 0 {
        hide Next;
        var src := new Byte[|data|](i requires 0 <= i < |data| => data[i]);
        assert src[..|data|] == data;
        var o;
        if retry { o := TryWrite(src, |data|); } else { o := Write(src, |data|); }
        if o.Done? && o.r >= 0 { put := src[..o.r]; }
      }
    }

    /**
      Any interleaving.  The bytes returned and accepted are those of the operations, in order;
      if nobody writes nothing, what the reads got is a prefix of what the writes put, the rest
      is in the ring, and readers and writers never sleep at the same time.
     */
    method Run(ops: seq<PipeOp>) returns (got: seq<Byte>, put: seq<Byte>)
      requires Valid()
      modifies this, ring, ring.buf, sched
      ensures Valid() && View() == PipeAfter(old(View()), ends, ops)
      ensures got == AllGot(old(View()), ends, ops) && put == AllPut(old(View()), ends, ops)
      ensures old(PipeOk(View(), ends)) && (forall i :: 0 <= i < |ops| ==> Fair(ends, ops[i])) ==>
                && PipeOk(View(), ends) && old(ring.Contents()) + put == got + ring.Contents()
                && (sched.waits[ends.rq] == [] || sched.waits[ends.wq] == [])
    {
      hide Entered, PipeNext, PipeOk, Fair, Got, Put, Span;
      got, put := [], [];
      ghost var s := View();
      for i := 0 to |ops|
        invariant Valid() && View() == PipeAfter(s, ends, ops[..i])
        invariant got == AllGot(s, ends, ops[..i]) && put == AllPut(s, ends, ops[..i])
      {
        var g, p := Step(ops[i]);
        got, put := got + g, put + p;
        assert ops[..i + 1][..i] == ops[..i];
      }
      assert ops[..|ops|] == ops;
      if PipeOk(s, ends) && forall i :: 0 <= i < |ops| ==> Fair(ends, ops[i]) {
        Stream(s, ends, ops);
      }
    }
  }
}
