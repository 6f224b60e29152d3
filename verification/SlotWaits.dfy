/**
  Tasks that sleep because no slot is free.  free_pcb wakes one of them for each slot it frees,
  and the woken task tries again; here it is shown, over every run, that this is enough.
 */
module SlotWaits {
  import opened Seqs
  import opened Sched

  /** The tasks that were woken from the queue and have not yet tried again. */
  ghost function Trying(s: Tasks, p: set<nat>, op: Op): set<nat>
    requires Entered(s)
  {
    if op == TakeSlot then p - {s.current}
    else p + set u | u in s.waits[PCB_WAIT] && u !in Next(s, op).waits[PCB_WAIT]
  }

  ghost function TryingAfter(s: Tasks, ops: seq<Op>): set<nat>
    requires Entered(s)
  {
    if ops == [] then {}
    else var n := |ops| - 1; Trying(After(s, ops[..n]), TryingAfter(s, ops[..n]), ops[n])
  }

  /** get_free_pcb is the only sleeper on its queue, and its loop tries again as soon as it runs. */
  predicate Loops(s: Tasks, p: set<nat>, op: Op) {
    (s.current in p ==> op == TakeSlot || op == Yield) && op != Sleep(PCB_WAIT)
  }

  ghost predicate LoopsAll(s: Tasks, ops: seq<Op>)
    requires Entered(s)
  {
    ops == [] ||
    var n := |ops| - 1;
    LoopsAll(s, ops[..n]) && Loops(After(s, ops[..n]), TryingAfter(s, ops[..n]), ops[n])
  }

  predicate Awake(s: Tasks, u: nat) { Is(s.status, u, Ready) || Is(s.status, u, Running) }

  /** While somebody sleeps for a slot, each free slot has a task of its own that is awake and will try. */
  ghost predicate Served(s: Tasks, p: set<nat>)
    requires PCB_WAIT < |s.waits|
  {
    && (forall u :: u in p ==> Awake(s, u) && u !in s.building)
    && (forall u :: u in s.waits[PCB_WAIT] ==> u !in s.building)
    && (s.waits[PCB_WAIT] != [] ==> |s.free| <= |p|)
  }

  lemma More(p: set<nat>, p': set<nat>)
    requires p <= p'
    ensures |p| <= |p'|
  {
    assert p' == p + (p' - p);
  }

  /** The tasks of the queue that leave it when its element k does. */
  lemma OneLeaves(q: seq<nat>, k: nat)
    requires NoDup(q) && k < |q|
    ensures (set u | u in q && u !in q[..k] + q[k + 1..]) == {q[k]}
  {
    DropAt(q, k);
  }

  /** Who waits on the queue is blocked, so it is neither current nor awake. */
  lemma WaiterAsleep(s: Tasks, u: nat)
    requires Entered(s) && u in s.waits[PCB_WAIT]
    ensures Is(s.status, u, Blocked) && u != s.current && NoDup(s.waits[PCB_WAIT])
  {
    assert BlockedOn(s.status, s.home, u, PCB_WAIT);
  }

  /** Nobody but the running task itself can put an awake task to sleep or end it. */
  lemma AwakeKept(s: Tasks, op: Op, u: nat)
    requires Entered(s) && Awake(s, u)
    requires u == s.current ==> !Leaves(s, op) || op == Yield
    ensures Awake(Next(s, op), u)
  {
    hide Holds, WaitsOk, RunOk, BuildOk;
    if Leaves(s, op) {
      LeftAwake(s, op, u);
      hide Left;
    } else if op.Reap? && Is(s.status, op.t, Zombie) {
      ReapFrees(s, op.t);
    }
  }

  lemma LeftAwake(s: Tasks, op: Op, u: nat)
    requires Entered(s) && Leaves(s, op) && Awake(s, u) && (u == s.current ==> op == Yield)
    ensures Awake(Left(s, op), u)
  {
    if op == ExitTask(true) { CollectedOk(s, s.current); }
    hide Holds, WaitsOk, RunOk, BuildOk;
  }

  /** A task enters the map of builders only by taking a slot. */
  lemma BuildersKept(s: Tasks, op: Op, u: nat)
    requires Entered(s) && u !in s.building && (u == s.current ==> op != TakeSlot)
    ensures u !in Next(s, op).building
  {
    hide Holds, WaitsOk, RunOk, BuildOk;
  }

  lemma TakeServed(s: Tasks, p: set<nat>)
    requires Entered(s) && Served(s, p)
    ensures Served(Next(s, TakeSlot), Trying(s, p, TakeSlot))
  {
    hide Inv, BuildOk;
    var r, p' := Next(s, TakeSlot), p - {s.current};
    forall u | u in p' ensures Awake(r, u) && u !in r.building {
      AwakeKept(s, TakeSlot, u);
      BuildersKept(s, TakeSlot, u);
    }
    forall u | u in s.waits[PCB_WAIT] ensures u != s.current { WaiterAsleep(s, u); }
    if Leaves(s, TakeSlot) { SleepMoves(s, TakeSlot, PCB_WAIT); }
    CloneMoves(s);
    assert s.current != 0 || s.current !in p;
    if s.current in p { assert |p| == |p'| + 1; } else { assert p' == p; }
  }

  /** Freeing a slot wakes one more task. */
  lemma FreeServed(s: Tasks, p: set<nat>, op: Op)
    requires Entered(s) && Served(s, p) && s.waits[PCB_WAIT] != []
    requires Next(s, op).waits[PCB_WAIT] == s.waits[PCB_WAIT][1..] && |Next(s, op).free| == |s.free| + 1 && op != TakeSlot
    ensures |Next(s, op).free| <= |Trying(s, p, op)|
  {
    hide Inv, Next;
    var q := s.waits[PCB_WAIT];
    WaiterAsleep(s, q[0]);
    OneLeaves(q, 0);
    assert q[..0] + q[1..] == q[1..];
    assert Trying(s, p, op) == p + {q[0]};
    assert q[0] !in p;
  }

  /** How an entry other than get_free_pcb changes the queue and the free list. */
  lemma QueueMoves(s: Tasks, op: Op)
    requires Entered(s) && op != TakeSlot && op != Sleep(PCB_WAIT)
    ensures var r, q := Next(s, op), s.waits[PCB_WAIT];
            && (forall u :: u in r.waits[PCB_WAIT] ==> u in q)
            && (|r.free| == |s.free| || r.waits[PCB_WAIT] == [] ||
                (q != [] && r.waits[PCB_WAIT] == q[1..] && |r.free| == |s.free| + 1))
  {
    match op
    case Yield => YieldMoves(s);
    case Sleep(q) => if Leaves(s, op) { SleepMoves(s, op, q); }
    case WakeOne(q, k) => if q < |s.waits| && k < |s.waits[q]| { WakeMoves(s, q, k); }
    case WakeQueue(q) => if q < |s.waits| && s.waits[q] != [] { WakeMoves(s, q, 0); }
    case MarkSlot => CloneMoves(s);
    case PublishSlot => CloneMoves(s);
    case ExitTask(auto) => if CanLeave(s) { ExitFrees(s, auto); }
    case Reap(t) => if Is(s.status, t, Zombie) { ReapFrees(s, t); }
    hide Inv;
  }

  lemma StepServed(s: Tasks, p: set<nat>, op: Op)
    requires Entered(s) && Served(s, p) && Loops(s, p, op)
    ensures Served(Next(s, op), Trying(s, p, op))
  {
    hide Inv, Next, Is;
    if op == TakeSlot {
      TakeServed(s, p);
    } else {
      var r, p' := Next(s, op), Trying(s, p, op);
      QueueMoves(s, op);
      forall u | u in p' ensures Awake(r, u) && u !in r.building {
        if u in p { AwakeKept(s, op, u); } else { WokenAwake(s, op, u); }
        BuildersKept(s, op, u);
      }
      forall u | u in r.waits[PCB_WAIT] ensures u !in r.building { BuildersKept(s, op, u); }
      More(p, p');
      assert r.waits[PCB_WAIT] != [] ==> r.waits[PCB_WAIT][0] in r.waits[PCB_WAIT];
      if r.waits[PCB_WAIT] != [] && |r.free| != |s.free| { FreeServed(s, p, op); }
    }
  }

  /** Who leaves the queue is awake. */
  lemma WokenAwake(s: Tasks, op: Op, u: nat)
    requires Entered(s) && u in s.waits[PCB_WAIT] && u !in Next(s, op).waits[PCB_WAIT]
    ensures Awake(Next(s, op), u)
  {
    WaiterAsleep(s, u);
    match op
    case Yield => YieldMoves(s);
    case Sleep(q) => if Leaves(s, op) { SleepMoves(s, op, q); }
    case WakeOne(q, k) => if q < |s.waits| && k < |s.waits[q]| { WakeMoves(s, q, k); }
    case WakeQueue(q) => if q < |s.waits| && s.waits[q] != [] { WakeMoves(s, q, 0); }
    case TakeSlot => CloneMoves(s); if Leaves(s, op) { SleepMoves(s, op, PCB_WAIT); }
    case MarkSlot => CloneMoves(s);
    case PublishSlot => CloneMoves(s);
    case ExitTask(auto) => if CanLeave(s) { ExitFrees(s, auto); }
    case Reap(t) => if Is(s.status, t, Zombie) { ReapFrees(s, t); }
    hide Inv;
  }

  /**
    No lost wake-up.  In every run in which the sleepers of get_free_pcb try again when they run,
    there are, as long as somebody sleeps for a slot, at most as many free slots as tasks that
    have been woken and are still to try; all of these are ready or running.
   */
  lemma {:induction false} SlotsServed(s: Tasks, ops: seq<Op>)
    requires Entered(s) && s.waits[PCB_WAIT] == [] && LoopsAll(s, ops)
    ensures var r, p := After(s, ops), TryingAfter(s, ops);
            && (r.waits[PCB_WAIT] != [] ==> |r.free| <= |p|)
            && (forall u :: u in p ==> Awake(r, u))
            && Served(r, p)
  {
    if ops != [] {
      var n := |ops| - 1;
      SlotsServed(s, ops[..n]);
      StepServed(After(s, ops[..n]), TryingAfter(s, ops[..n]), ops[n]);
    }
  }
}
