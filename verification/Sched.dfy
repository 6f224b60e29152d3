/**
  The scheduler's task lists (kernel/sched/sched.c, get_free_pcb and free_pcb in
  kernel/sched/init.c, sleep and wakeup in kernel/smp/sleeplock.c) on one running core.
 */
module Sched {
  import opened Seqs

  datatype Status = Blocked | Running | Ready | Zombie | Exited

  /**
    Task 0 is the idle task pid0, task i + 1 is slot pcb[i].  `building` is the local variable
    initpcb of every task inside do_clone or do_exec: the slot it is filling in.  `home` is
    proof only: the wait queue of each blocked task.
   */
  datatype Tasks = Tasks(
    status: seq<Status>,
    current: nat,
    ready: seq<nat>,          // ready_queue, front first
    waits: seq<seq<nat>>,     // every wait queue of the kernel
    free: seq<nat>,           // available_queue
    building: map<nat, nat>,
    home: seq<nat>)

  /** Task t exists, is not the idle task, and has status st. */
  predicate Is(status: seq<Status>, t: nat, st: Status) { 0 < t < |status| && status[t] == st }

  predicate BlockedOn(status: seq<Status>, home: seq<nat>, t: nat, q: nat) {
    |home| == |status| && Is(status, t, Blocked) && home[t] == q
  }

  predicate Listed(status: seq<Status>, off: set<nat>, t: nat, st: Status) { Is(status, t, st) && t !in off }

  /** The list holds exactly the tasks with the given status that are not under construction, each once. */
  ghost predicate Holds(q: seq<nat>, status: seq<Status>, st: Status, off: set<nat>) {
    && NoDup(q)
    && (forall t: nat :: t in q <==> Listed(status, off, t, st))
  }

  /** Every blocked task is on exactly one wait queue, and nobody else is on one. */
  ghost predicate WaitsOk(waits: seq<seq<nat>>, status: seq<Status>, home: seq<nat>) {
    && |home| == |status|
    && (forall t: nat :: Is(status, t, Blocked) ==> home[t] < |waits|)
    && (forall q :: 0 <= q < |waits| ==> NoDup(waits[q]))
    && (forall q: nat, t: nat :: q < |waits| ==> (t in waits[q] <==> BlockedOn(status, home, t, q)))
  }

  /** Only the current task is Running. */
  ghost predicate RunOk(status: seq<Status>, current: nat) {
    forall t :: 0 < t < |status| && t != current ==> status[t] != Running
  }

  /** A task that can come back to what it was doing. */
  predicate Alive(st: Status) { st == Running || st == Ready || st == Blocked }

  /** A slot under construction has one builder, which is alive; nobody runs or waits in the slot yet. */
  ghost predicate BuildOk(building: map<nat, nat>, status: seq<Status>) {
    && (forall p :: p in building ==>
          && 0 < p < |status| && Alive(status[p]) && p !in building.Values
          && 0 < building[p] < |status| && (status[building[p]] == Exited || status[building[p]] == Ready))
    && (forall p, p' :: p in building && p' in building && building[p] == building[p'] ==> p == p')
  }

  /** What holds inside the kernel when the current task may have just left the processor. */
  ghost predicate Settled(s: Tasks) {
    && s.current < |s.status|
    && (s.status[0] == Ready || s.status[0] == Running)
    && Holds(s.ready, s.status, Ready, s.building.Values)
    && Holds(s.free, s.status, Exited, s.building.Values)
    && WaitsOk(s.waits, s.status, s.home)
    && RunOk(s.status, s.current)
    && BuildOk(s.building, s.status)
  }

  /** What holds whenever a task runs: the current task, and only it, is Running, but for the idle task. */
  ghost predicate Inv(s: Tasks) {
    Settled(s) && (s.status[s.current] == Running || s.current == 0)
  }

  /** do_scheduler (NO_PRIORITY). */
  function Switch(s: Tasks): (r: Tasks)
    requires s.current < |s.status|
    requires forall t :: t in s.ready ==> t < |s.status|
    ensures |r.status| == |s.status| && r.waits == s.waits && r.free == s.free && r.building == s.building
  {
    var s1 := if s.status[s.current] == Running && s.current != 0
              then s.(status := s.status[s.current := Ready], ready := s.ready + [s.current]) else s;
    if s1.ready != [] then
      assert s1.ready[0] in s1.ready;
      s1.(current := s1.ready[0], ready := s1.ready[1..], status := s1.status[s1.ready[0] := Running])
    else if s1.status[s1.current] != Running then s1.(current := 0, status := s1.status[0 := Running])
    else s1.(status := s1.status[s1.current := Running])
  }

  lemma HoldsAdd(q: seq<nat>, q': seq<nat>, status: seq<Status>, st: Status, off: set<nat>, t: nat)
    requires Holds(q, status, st, off) && 0 < t < |status| && status[t] != st && t !in off
    requires q' == [t] + q || q' == q + [t]
    ensures Holds(q', status[t := st], st, off)
  {
    assert !Listed(status, off, t, st);
    NoDupAdd(q, q', t);
    forall u: nat ensures u in q' <==> Listed(status[t := st], off, u, st) {
      assert u in q <==> Listed(status, off, u, st);
    }
  }

  lemma HoldsDrop(q: seq<nat>, status: seq<Status>, st: Status, off: set<nat>, k: nat, st': Status)
    requires Holds(q, status, st, off) && k < |q| && st' != st
    ensures Listed(status, off, q[k], st)
    ensures Holds(q[..k] + q[k + 1..], status[q[k] := st'], st, off)
  {
    assert q[k] in q;
    DropAt(q, k);
    var q', status' := q[..k] + q[k + 1..], status[q[k] := st'];
    forall u: nat ensures u in q' <==> Listed(status', off, u, st) {
      assert u in q <==> Listed(status, off, u, st);
    }
  }

  lemma HoldsOther(q: seq<nat>, status: seq<Status>, st: Status, off: set<nat>, t: nat, st': Status)
    requires Holds(q, status, st, off) && t < |status| && (t == 0 || t in off || (status[t] != st && st' != st))
    ensures Holds(q, status[t := st'], st, off)
  {
    assert forall u: nat :: Listed(status[t := st'], off, u, st) <==> Listed(status, off, u, st);
  }

  /** The first task of a list leaves it with its status. */
  lemma HoldsTake(q: seq<nat>, status: seq<Status>, st: Status, off: set<nat>)
    requires Holds(q, status, st, off) && q != []
    ensures Listed(status, off, q[0], st) && Holds(q[1..], status, st, off + {q[0]})
  {
    assert q[0] in q;
    DropAt(q, 0);
    assert q[..0] + q[1..] == q[1..];
    forall u: nat ensures u in q[1..] <==> Listed(status, off + {q[0]}, u, st) {
      assert u in q <==> Listed(status, off, u, st);
    }
  }

  /** A task under construction joins the list of its status. */
  lemma HoldsPublish(q: seq<nat>, status: seq<Status>, st: Status, off: set<nat>, t: nat)
    requires Holds(q, status, st, off) && Is(status, t, st) && t in off
    ensures Holds([t] + q, status, st, off - {t})
  {
    assert !Listed(status, off, t, st);
    NoDupAdd(q, [t] + q, t);
    forall u: nat ensures u in [t] + q <==> Listed(status, off - {t}, u, st) {
      assert u in q <==> Listed(status, off, u, st);
    }
  }

  /** Being under construction does not matter to a list of another status. */
  lemma HoldsOff(q: seq<nat>, status: seq<Status>, st: Status, off: set<nat>, off': set<nat>, t: nat)
    requires Holds(q, status, st, off) && !Is(status, t, st) && off' - {t} == off - {t}
    ensures Holds(q, status, st, off')
  {
    forall u: nat ensures u in q <==> Listed(status, off', u, st) {
      assert u in q <==> Listed(status, off, u, st);
      assert u != t ==> (u in off' <==> u in off' - {t}) && (u in off <==> u in off - {t});
    }
  }

  lemma WaitsOther(waits: seq<seq<nat>>, status: seq<Status>, home: seq<nat>, t: nat, st': Status)
    requires WaitsOk(waits, status, home) && t < |status| && (t == 0 || (status[t] != Blocked && st' != Blocked))
    ensures WaitsOk(waits, status[t := st'], home)
  {
    assert forall u: nat :: Is(status[t := st'], u, Blocked) <==> Is(status, u, Blocked);
  }

  /** A task other than the running one, or the running one itself, changes status. */
  lemma RunOther(status: seq<Status>, current: nat, t: nat, st': Status)
    requires RunOk(status, current) && t < |status| && st' != Running
    ensures RunOk(status[t := st'], current)
  {
  }

  /** Task t takes over from a task that is not running any more. */
  lemma RunNext(status: seq<Status>, current: nat, t: nat)
    requires RunOk(status, current) && t < |status| && !Is(status, current, Running)
    ensures RunOk(status[t := Running], t)
  {
  }

  lemma BuildOther(building: map<nat, nat>, status: seq<Status>, t: nat, st': Status)
    requires BuildOk(building, status) && t < |status| && t !in building.Values && (t in building ==> Alive(st'))
    ensures BuildOk(building, status[t := st'])
  {
    assert forall p :: p in building ==> building[p] in building.Values;
  }

  /** The current task gives up the processor but stays runnable. */
  lemma RequeueOk(s: Tasks)
    requires Settled(s) && s.current != 0 && s.status[s.current] == Running
    ensures Settled(s.(status := s.status[s.current := Ready], ready := s.ready + [s.current]))
  {
    NotBuilt(s, s.current);
    hide Holds, WaitsOk, RunOk, BuildOk;
    var off := s.building.Values;
    HoldsAdd(s.ready, s.ready + [s.current], s.status, Ready, off, s.current);
    HoldsOther(s.free, s.status, Exited, off, s.current, Ready);
    WaitsOther(s.waits, s.status, s.home, s.current, Ready);
    RunOther(s.status, s.current, s.current, Ready);
    BuildOther(s.building, s.status, s.current, Ready);
  }

  /** The first ready task gets the processor. */
  lemma PickOk(s: Tasks)
    requires Settled(s) && s.ready != [] && (s.current == 0 || s.status[s.current] != Running)
    ensures 0 < s.ready[0] < |s.status|
    ensures Inv(s.(current := s.ready[0], ready := s.ready[1..], status := s.status[s.ready[0] := Running]))
  {
    hide Holds, WaitsOk, RunOk, BuildOk;
    var t, off := s.ready[0], s.building.Values;
    HoldsDrop(s.ready, s.status, Ready, off, 0, Running);
    assert s.ready[..0] + s.ready[1..] == s.ready[1..];
    HoldsOther(s.free, s.status, Exited, off, t, Running);
    WaitsOther(s.waits, s.status, s.home, t, Running);
    RunNext(s.status, s.current, t);
    BuildOther(s.building, s.status, t, Running);
  }

  lemma IdleOk(s: Tasks)
    requires Settled(s) && (s.current == 0 || s.status[s.current] != Running)
    ensures Inv(s.(current := 0, status := s.status[0 := Running]))
  {
    IdleNotBuilt(s.building, s.status);
    hide Holds, WaitsOk, RunOk, BuildOk;
    var off := s.building.Values;
    HoldsOther(s.ready, s.status, Ready, off, 0, Running);
    HoldsOther(s.free, s.status, Exited, off, 0, Running);
    WaitsOther(s.waits, s.status, s.home, 0, Running);
    RunNext(s.status, s.current, 0);
    BuildOther(s.building, s.status, 0, Running);
  }

  lemma ReadyInRange(s: Tasks)
    requires Settled(s)
    ensures forall t :: t in s.ready ==> t < |s.status|
  {
    assert forall t: nat :: t in s.ready ==> Listed(s.status, s.building.Values, t, Ready);
  }

  lemma IdleNotBuilt(building: map<nat, nat>, status: seq<Status>)
    requires BuildOk(building, status)
    ensures 0 !in building.Values && 0 !in building
  {
  }

  /** A slot under construction is neither Running, Blocked nor Zombie. */
  lemma NotBuilt(s: Tasks, t: nat)
    requires Settled(s) && t < |s.status| && (s.status[t] == Running || s.status[t] == Blocked || s.status[t] == Zombie)
    ensures t !in s.building.Values
  {
    IdleNotBuilt(s.building, s.status);
  }

  /** do_scheduler restores the invariant from any settled state. */
  lemma SwitchOk(s: Tasks)
    requires Settled(s)
    ensures (forall t :: t in s.ready ==> t < |s.status|) && Inv(Switch(s))
  {
    ReadyInRange(s);
    hide Holds, WaitsOk, RunOk, BuildOk;
    var s1 := s;
    if s.status[s.current] == Running && s.current != 0 {
      RequeueOk(s);
      s1 := s.(status := s.status[s.current := Ready], ready := s.ready + [s.current]);
      ReadyInRange(s1);
    }
    if s1.ready != [] {
      PickOk(s1);
    } else {
      IdleOk(s1);
    }
  }

  // ----- Blocking and waking

  /** list_add(current, queue); status = TASK_BLOCKED. */
  function Enqueue(s: Tasks, q: nat): Tasks
    requires q < |s.waits| && s.current < |s.status| == |s.home|
  {
    s.(waits := s.waits[q := [s.current] + s.waits[q]], status := s.status[s.current := Blocked],
       home := s.home[s.current := q])
  }

  /** From s, the running task blocks on queue q and r is the state after the switch. */
  ghost predicate Blocks(s: Tasks, r: Tasks, q: nat) {
    && q < |s.waits| && |s.home| == |s.status| && s.current < |s.status|
    && (forall t :: t in s.ready ==> t < |s.status|)
    && r == Switch(Enqueue(s, q))
  }

  lemma EnqueueOk(s: Tasks, q: nat)
    requires Inv(s) && s.current != 0 && q < |s.waits|
    ensures |s.home| == |s.status| && Settled(Enqueue(s, q))
  {
    NotBuilt(s, s.current);
    WaitsEnter(s.waits, s.status, s.home, s.current, q);
    hide Holds, RunOk, BuildOk;
    var off := s.building.Values;
    HoldsOther(s.ready, s.status, Ready, off, s.current, Blocked);
    HoldsOther(s.free, s.status, Exited, off, s.current, Blocked);
    RunOther(s.status, s.current, s.current, Blocked);
    BuildOther(s.building, s.status, s.current, Blocked);
  }

  lemma WaitsEnter(waits: seq<seq<nat>>, status: seq<Status>, home: seq<nat>, t: nat, q: nat)
    requires WaitsOk(waits, status, home) && 0 < t < |status| && status[t] != Blocked && q < |waits|
    ensures WaitsOk(waits[q := [t] + waits[q]], status[t := Blocked], home[t := q])
  {
    var waits' := waits[q := [t] + waits[q]];
    assert t !in waits[q];
    forall p: nat, u: nat | p < |waits| ensures u in waits'[p] <==> BlockedOn(status[t := Blocked], home[t := q], u, p) {
      assert u in waits'[p] <==> (p == q && u == t) || u in waits[p];
      assert !BlockedOn(status, home, t, p);
    }
    assert forall u: nat :: Is(status[t := Blocked], u, Blocked) <==> u == t || Is(status, u, Blocked);
  }

  lemma WaitsLeave(waits: seq<seq<nat>>, status: seq<Status>, home: seq<nat>, q: nat, k: nat)
    requires WaitsOk(waits, status, home) && q < |waits| && k < |waits[q]|
    ensures 0 < waits[q][k] < |status| && status[waits[q][k]] == Blocked
    ensures WaitsOk(waits[q := waits[q][..k] + waits[q][k + 1..]], status[waits[q][k] := Ready], home)
  {
    var t := waits[q][k];
    assert t in waits[q];
    DropAt(waits[q], k);
    var waits' := waits[q := waits[q][..k] + waits[q][k + 1..]];
    var status' := status[t := Ready];
    assert forall u: nat :: Is(status', u, Blocked) <==> Is(status, u, Blocked) && u != t;
    forall p: nat, u: nat | p < |waits| ensures u in waits'[p] <==> BlockedOn(status', home, u, p) {
      assert u in waits'[p] <==> u in waits[p] && (p == q ==> u != t);
      assert BlockedOn(status, home, t, q);
    }
  }

  /** do_unblock of the task at position k of queue q. */
  function Wake(s: Tasks, q: nat, k: nat): Tasks
    requires q < |s.waits| && k < |s.waits[q]| && s.waits[q][k] < |s.status|
  {
    var t := s.waits[q][k];
    s.(waits := s.waits[q := s.waits[q][..k] + s.waits[q][k + 1..]], status := s.status[t := Ready],
       ready := [t] + s.ready)
  }

  lemma WakeOk(s: Tasks, q: nat, k: nat)
    requires Settled(s) && q < |s.waits| && k < |s.waits[q]|
    ensures s.waits[q][k] < |s.status| && Settled(Wake(s, q, k))
    ensures Inv(s) ==> Inv(Wake(s, q, k))
  {
    WaitsLeave(s.waits, s.status, s.home, q, k);
    var t, off := s.waits[q][k], s.building.Values;
    NotBuilt(s, t);
    hide Holds, WaitsOk, RunOk, BuildOk;
    HoldsAdd(s.ready, [t] + s.ready, s.status, Ready, off, t);
    HoldsOther(s.free, s.status, Exited, off, t, Ready);
    RunOther(s.status, s.current, t, Ready);
    BuildOther(s.building, s.status, t, Ready);
  }

  /** The first k tasks of queue q moved, one by one, to the front of the ready queue. */
  function WokenBy(s: Tasks, q: nat, k: nat): (r: Tasks)
    requires q < |s.waits| && k <= |s.waits[q]|
    ensures |r.status| == |s.status| && |r.waits| == |s.waits|
  {
    var w := s.waits[q][..k];
    s.(ready := Reversed(w) + s.ready, waits := s.waits[q := s.waits[q][k..]],
       status := seq(|s.status|, t requires 0 <= t < |s.status| => if t in w then Ready else s.status[t]))
  }

  lemma NoneWoken(s: Tasks, q: nat)
    requires q < |s.waits|
    ensures WokenBy(s, q, 0) == s
  {
    assert s.waits[q := s.waits[q][0..]] == s.waits;
    assert WokenBy(s, q, 0).status == s.status;
  }

  /** One more do_unblock of the first task. */
  lemma WokenNext(s: Tasks, q: nat, k: nat)
    requires q < |s.waits| && k < |s.waits[q]| && s.waits[q][k] < |s.status|
    ensures WokenBy(s, q, k).waits[q] != [] && WokenBy(s, q, k).waits[q][0] == s.waits[q][k]
    ensures Wake(WokenBy(s, q, k), q, 0) == WokenBy(s, q, k + 1)
  {
    var w, t := s.waits[q], s.waits[q][k];
    var a, b := Wake(WokenBy(s, q, k), q, 0), WokenBy(s, q, k + 1);
    ReversedAppend(w[..k], t);
    assert w[..k] + [t] == w[..k + 1];
    assert a.ready == b.ready;
    assert w[k..][..0] + w[k..][1..] == w[k + 1..];
    assert a.status == b.status;
  }

  lemma WaitersInRange(s: Tasks, q: nat)
    requires Settled(s) && q < |s.waits|
    ensures forall u :: u in s.waits[q] ==> u < |s.status|
  {
    assert forall u: nat :: u in s.waits[q] ==> BlockedOn(s.status, s.home, u, q);
  }

  // ----- PCB slots

  /** Index of available_queue.wait_list among the wait queues. */
  const PCB_WAIT: nat := 0

  /** get_free_pcb with a slot available: the slot leaves the free list and keeps its status. */
  function Take(s: Tasks): Tasks
    requires s.free != []
  {
    s.(free := s.free[1..], building := s.building[s.current := s.free[0]])
  }

  lemma TakeOk(s: Tasks)
    requires Inv(s) && s.current != 0 && s.current !in s.building && s.free != []
    ensures Inv(Take(s))
  {
    var t, off := s.free[0], s.building.Values;
    HoldsTake(s.free, s.status, Exited, off);
    assert Take(s).building.Values == off + {t} by { ValuesAdd(s.building, s.current, t); }
    NotBuilt(s, s.current);
    HoldsOff(s.ready, s.status, Ready, off, off + {t}, t);
    BuildTake(s.building, s.status, s.current, t);
    hide Holds, WaitsOk, RunOk, BuildOk;
  }

  lemma BuildTake(building: map<nat, nat>, status: seq<Status>, p: nat, c: nat)
    requires BuildOk(building, status) && Listed(status, building.Values, c, Exited)
    requires 0 < p < |status| && status[p] == Running && p !in building && p !in building.Values
    ensures BuildOk(building[p := c], status)
  {
    ValuesAdd(building, p, c);
    assert forall k :: k in building ==> building[k] in building.Values;
  }

  lemma ValuesAdd(m: map<nat, nat>, p: nat, c: nat)
    requires p !in m
    ensures m[p := c].Values == m.Values + {c}
  {
    var m' := m[p := c];
    assert p in m' && m'[p] == c;
    forall x | x in m.Values ensures x in m'.Values {
      var k :| k in m && m[k] == x;
      assert k in m' && m'[k] == x;
    }
  }

  lemma ValuesRemove(m: map<nat, nat>, p: nat)
    requires p in m && forall k, k' :: k in m && k' in m && m[k] == m[k'] ==> k == k'
    ensures (m - {p}).Values == m.Values - {m[p]}
  {
    var m' := m - {p};
    forall x | x in m.Values && x != m[p] ensures x in m'.Values {
      var k :| k in m && m[k] == x;
      assert k in m' && m'[k] == x;
    }
  }

  /** init_clone_pcb and init_pcb_member: the slot becomes READY while it is on no list. */
  function Mark(s: Tasks): Tasks
    requires s.current in s.building && s.building[s.current] < |s.status|
  {
    s.(status := s.status[s.building[s.current] := Ready])
  }

  lemma MarkOk(s: Tasks)
    requires Inv(s) && s.current in s.building
    ensures s.building[s.current] < |s.status| && Inv(Mark(s))
  {
    var t, off := s.building[s.current], s.building.Values;
    assert t in off;
    assert t != s.current;
    HoldsOther(s.ready, s.status, Ready, off, t, Ready);
    HoldsOther(s.free, s.status, Exited, off, t, Ready);
    WaitsOther(s.waits, s.status, s.home, t, Ready);
    RunOther(s.status, s.current, t, Ready);
    hide Holds, WaitsOk, RunOk;
    assert forall p :: p in s.building ==> s.building[p] in off;
  }

  /** The list_add to the ready queue at the end of do_clone and do_exec. */
  function Publish(s: Tasks): Tasks
    requires s.current in s.building
  {
    s.(ready := [s.building[s.current]] + s.ready, building := s.building - {s.current})
  }

  lemma PublishOk(s: Tasks)
    requires Inv(s) && s.current in s.building && Is(s.status, s.building[s.current], Ready)
    ensures Inv(Publish(s))
  {
    var t, off := s.building[s.current], s.building.Values;
    assert t in off;
    ValuesRemove(s.building, s.current);
    HoldsPublish(s.ready, s.status, Ready, off, t);
    HoldsOff(s.free, s.status, Exited, off, off - {t}, t);
    hide Holds, WaitsOk, RunOk;
    assert Publish(s).building.Values == off - {t};
  }

  /** free_pcb of a task that is on no list: the exiting task itself, or a zombie. */
  function Freed(s: Tasks, t: nat): Tasks
    requires t < |s.status|
  {
    s.(status := s.status[t := Exited], free := [t] + s.free)
  }

  lemma FreePcbOk(s: Tasks, t: nat)
    requires Settled(s) && 0 < t < |s.status| && t !in s.building && (s.status[t] == Zombie || s.status[t] == Running)
    ensures Settled(Freed(s, t))
  {
    NotBuilt(s, t);
    hide Holds, WaitsOk, RunOk, BuildOk;
    var off := s.building.Values;
    HoldsAdd(s.free, [t] + s.free, s.status, Exited, off, t);
    HoldsOther(s.ready, s.status, Ready, off, t, Exited);
    WaitsOther(s.waits, s.status, s.home, t, Exited);
    RunOther(s.status, s.current, t, Exited);
    BuildOther(s.building, s.status, t, Exited);
  }

  /** A zombie builds nothing. */
  lemma ZombieBuildsNothing(s: Tasks, t: nat)
    requires Settled(s) && Is(s.status, t, Zombie)
    ensures t !in s.building
  {
  }

  /** free_pcb with its wake-up of one task waiting for a slot. */
  function Collected(s: Tasks, t: nat): Tasks
    requires t < |s.status| && PCB_WAIT < |s.waits| && forall u :: u in s.waits[PCB_WAIT] ==> u < |s.status|
  {
    var f := Freed(s, t);
    if f.waits[PCB_WAIT] == [] then f else assert f.waits[PCB_WAIT][0] in f.waits[PCB_WAIT]; Wake(f, PCB_WAIT, 0)
  }

  lemma CollectedOk(s: Tasks, t: nat)
    requires Settled(s) && 0 < t < |s.status| && t !in s.building && (s.status[t] == Zombie || s.status[t] == Running)
    requires PCB_WAIT < |s.waits|
    ensures (forall u :: u in s.waits[PCB_WAIT] ==> u < |s.status|) && Settled(Collected(s, t))
    ensures s.status[t] == Zombie && Inv(s) ==> Inv(Collected(s, t))
  {
    WaitersInRange(s, PCB_WAIT);
    FreePcbOk(s, t);
    hide Holds, WaitsOk, RunOk, BuildOk;
    if s.waits[PCB_WAIT] != [] {
      WakeOk(Freed(s, t), PCB_WAIT, 0);
    }
  }

  /** do_exit of a task whose parent has to collect it. */
  lemma ZombieOk(s: Tasks)
    requires Inv(s) && s.current != 0 && s.current !in s.building
    ensures Settled(s.(status := s.status[s.current := Zombie]))
  {
    NotBuilt(s, s.current);
    hide Holds, WaitsOk, RunOk, BuildOk;
    var off := s.building.Values;
    HoldsOther(s.ready, s.status, Ready, off, s.current, Zombie);
    HoldsOther(s.free, s.status, Exited, off, s.current, Zombie);
    WaitsOther(s.waits, s.status, s.home, s.current, Zombie);
    RunOther(s.status, s.current, s.current, Zombie);
    BuildOther(s.building, s.status, s.current, Zombie);
  }

  // ----- Places

  /** The places a task can be in. */
  datatype Place = OnReady | OnWait(q: nat) | OnFree | OnCpu | InBuilding | Nowhere

  ghost predicate IsAt(s: Tasks, t: nat, p: Place) {
    match p
    case OnReady => t in s.ready
    case OnWait(q) => q < |s.waits| && t in s.waits[q]
    case OnFree => t in s.free
    case OnCpu => t == s.current
    case InBuilding => t in s.building.Values
    case Nowhere => t < |s.status| && s.status[t] == Zombie
  }

  /** The place that the status names. */
  ghost function StatusPlace(s: Tasks, t: nat): Place
    requires t < |s.status| == |s.home|
  {
    match s.status[t]
    case Ready => OnReady
    case Blocked => OnWait(s.home[t])
    case Exited => OnFree
    case Running => OnCpu
    case Zombie => Nowhere
  }

  ghost function PlaceOf(s: Tasks, t: nat): Place
    requires t < |s.status| == |s.home|
  {
    if t in s.building.Values then InBuilding else StatusPlace(s, t)
  }

  /** Every task is in exactly one place: none lost, none duplicated. */
  lemma OnePlace(s: Tasks, t: nat, p: Place)
    requires Inv(s) && 0 < t < |s.status|
    ensures |s.home| == |s.status| && (IsAt(s, t, p) <==> p == PlaceOf(s, t))
  {
    if t in s.building.Values {
      assert s.status[t] == Exited || s.status[t] == Ready;
    }
    match p
    case OnReady => assert t in s.ready <==> Listed(s.status, s.building.Values, t, Ready);
    case OnWait(q) => if q < |s.waits| { assert t in s.waits[q] <==> BlockedOn(s.status, s.home, t, q); }
      else { assert Is(s.status, t, Blocked) ==> s.home[t] < |s.waits|; }
    case OnFree => assert t in s.free <==> Listed(s.status, s.building.Values, t, Exited);
    case OnCpu =>
    case InBuilding =>
    case Nowhere =>
  }

  /** The status names the place of a task exactly when the task is not under construction. */
  lemma StatusNamesPlace(s: Tasks, t: nat)
    requires Inv(s) && 0 < t < |s.status|
    ensures |s.home| == |s.status| && (IsAt(s, t, StatusPlace(s, t)) <==> t !in s.building.Values)
    ensures (s.status[t] == Ready <==> t in s.ready) <==> !(t in s.building.Values && s.status[t] == Ready)
    ensures (s.status[t] == Exited <==> t in s.free) <==> !(t in s.building.Values && s.status[t] == Exited)
  {
    OnePlace(s, t, StatusPlace(s, t));
    OnePlace(s, t, OnReady);
    OnePlace(s, t, OnFree);
  }

  /** The next j switches, when nothing else happens in between. */
  ghost function Switches(s: Tasks, j: nat): (r: Tasks)
    requires Inv(s)
    ensures Inv(r)
    decreases j
  {
    SwitchOk(s);
    if j == 0 then s else Switches(Switch(s), j - 1)
  }

  /** Round robin: the task at position k of the ready queue runs after exactly k + 1 switches. */
  lemma {:induction false} RoundRobin(s: Tasks, k: nat)
    requires Inv(s) && k < |s.ready|
    ensures Switches(s, k + 1).current == s.ready[k]
    decreases k
  {
    SwitchOk(s);
    var s' := Switch(s);
    assert Switches(s, k + 1) == Switches(s', k);
    if k > 0 {
      assert s'.ready[k - 1] == s.ready[k];
      RoundRobin(s', k - 1);
    }
  }

  // ----- Kernel entries

  /** What the running task can ask of the scheduler; TakeSlot to PublishSlot are the stages of do_clone. */
  datatype Op =
    | Yield
    | Sleep(q: nat)
    | WakeOne(q: nat, k: nat)
    | WakeQueue(q: nat)
    | TakeSlot
    | MarkSlot
    | PublishSlot
    | ExitTask(auto: bool)
    | Reap(t: nat)

  /** The running task is a task of its own and not in the middle of a clone. */
  predicate CanLeave(s: Tasks) { s.current != 0 && s.current !in s.building }

  /** The entry ends in do_scheduler. */
  predicate Leaves(s: Tasks, op: Op) {
    match op
    case Yield => true
    case Sleep(q) => s.current != 0 && q < |s.waits|
    case TakeSlot => CanLeave(s) && s.free == []
    case ExitTask(_) => CanLeave(s)
    case _ => false
  }

  ghost predicate Entered(s: Tasks) { Inv(s) && PCB_WAIT < |s.waits| }

  /** The state in which do_scheduler is called. */
  ghost function Left(s: Tasks, op: Op): (r: Tasks)
    requires Entered(s) && Leaves(s, op)
    ensures Settled(r) && |r.status| == |s.status| && |r.waits| == |s.waits|
  {
    match op
    case Sleep(q) => EnqueueOk(s, q); Enqueue(s, q)
    case TakeSlot => EnqueueOk(s, PCB_WAIT); Enqueue(s, PCB_WAIT)
    case ExitTask(auto) =>
      if auto then CollectedOk(s, s.current); Collected(s, s.current)
      else ZombieOk(s); s.(status := s.status[s.current := Zombie])
    case _ => s
  }

  /** The state after a kernel entry; one that cannot happen changes nothing. */
  ghost function Next(s: Tasks, op: Op): (r: Tasks)
    requires Entered(s)
    ensures Entered(r) && |r.status| == |s.status| && |r.waits| == |s.waits|
  {
    if Leaves(s, op) then SwitchOk(Left(s, op)); Switch(Left(s, op))
    else match op
      case WakeOne(q, k) => if q < |s.waits| && k < |s.waits[q]| then WakeOk(s, q, k); Wake(s, q, k) else s
      case WakeQueue(q) => if q < |s.waits| then WokenByOk(s, q, |s.waits[q]|); WokenBy(s, q, |s.waits[q]|) else s
      case TakeSlot => if CanLeave(s) then TakeOk(s); Take(s) else s
      case MarkSlot => if s.current in s.building then CurrentBuilds(s); MarkOk(s); Mark(s) else s
      case PublishSlot =>
        if s.current in s.building && Is(s.status, s.building[s.current], Ready) then PublishOk(s); Publish(s) else s
      case Reap(t) =>
        if Is(s.status, t, Zombie) then ZombieBuildsNothing(s, t); CollectedOk(s, t); Collected(s, t) else s
      case _ => s
  }

  lemma CurrentBuilds(s: Tasks)
    requires Inv(s) && s.current in s.building
    ensures s.current != 0
  {
  }

  lemma {:induction false} WokenByOk(s: Tasks, q: nat, k: nat)
    requires Settled(s) && q < |s.waits| && k <= |s.waits[q]|
    ensures Settled(WokenBy(s, q, k)) && (Inv(s) ==> Inv(WokenBy(s, q, k)))
    decreases k
  {
    if k == 0 {
      NoneWoken(s, q);
    } else {
      WokenByOk(s, q, k - 1);
      WaitersInRange(s, q);
      assert s.waits[q][k - 1] in s.waits[q];
      WokenNext(s, q, k - 1);
      WakeOk(WokenBy(s, q, k - 1), q, 0);
    }
  }

  /** The state after a sequence of kernel entries. */
  ghost function After(s: Tasks, ops: seq<Op>): (r: Tasks)
    requires Entered(s)
    ensures Entered(r) && |r.status| == |s.status| && |r.waits| == |s.waits|
  {
    if ops == [] then s else Next(After(s, ops[..|ops| - 1]), ops[|ops| - 1])
  }

  // ----- What each entry does to the lists

  /** wait of a zombie child: its slot is the first free one, and the first task that waits for a slot is ready. */
  lemma ReapFrees(s: Tasks, t: nat)
    requires Entered(s) && Is(s.status, t, Zombie)
    ensures var r := Next(s, Reap(t));
            && r.free == [t] + s.free && r.current == s.current && r.building == s.building && |r.status| == |s.status|
            && (s.waits[PCB_WAIT] == [] ==>
                  r.waits == s.waits && r.ready == s.ready && r.status == s.status[t := Exited])
            && (s.waits[PCB_WAIT] != [] ==>
                  var u := s.waits[PCB_WAIT][0];
                  && r.waits == s.waits[PCB_WAIT := s.waits[PCB_WAIT][1..]] && r.ready == [u] + s.ready
                  && u < |s.status| && r.status == s.status[t := Exited][u := Ready])
  {
    ZombieBuildsNothing(s, t);
    CollectedOk(s, t);
    WaitersInRange(s, PCB_WAIT);
    hide Holds, WaitsOk, RunOk, BuildOk;
    if s.waits[PCB_WAIT] != [] {
      assert s.waits[PCB_WAIT][0] in s.waits[PCB_WAIT];
      assert s.waits[PCB_WAIT][..0] + s.waits[PCB_WAIT][1..] == s.waits[PCB_WAIT][1..];
    }
  }

  /** do_exit: the slot is free at once, or kept as a zombie for the parent; the task never runs again. */
  lemma ExitFrees(s: Tasks, auto: bool)
    requires Entered(s) && CanLeave(s)
    ensures var r := Next(s, ExitTask(auto));
            && r.current != s.current && r.building == s.building
            && r.status[s.current] == (if auto then Exited else Zombie)
            && r.free == (if auto then [s.current] else []) + s.free
            && if auto && s.waits[PCB_WAIT] != []
               then && r.waits == s.waits[PCB_WAIT := s.waits[PCB_WAIT][1..]]
                    && r.current == s.waits[PCB_WAIT][0] && r.ready == s.ready
               else && r.waits == s.waits
                    && if s.ready == [] then r.current == 0 && r.ready == []
                       else r.current == s.ready[0] && r.ready == s.ready[1..]
  {
    CollectedOk(s, s.current);
    WaitersInRange(s, PCB_WAIT);
    assert s.current !in s.ready && s.current !in s.waits[PCB_WAIT];
    hide Holds, WaitsOk, RunOk, BuildOk;
    if auto && s.waits[PCB_WAIT] != [] {
      assert s.waits[PCB_WAIT][0] in s.waits[PCB_WAIT];
      assert s.waits[PCB_WAIT][..0] + s.waits[PCB_WAIT][1..] == s.waits[PCB_WAIT][1..];
    }
  }

  /** A task that blocks is the first of its queue, and the first ready task runs. */
  lemma SleepMoves(s: Tasks, op: Op, q: nat)
    requires Entered(s) && Leaves(s, op) && (op == Sleep(q) || (op == TakeSlot && q == PCB_WAIT))
    ensures var r := Next(s, op);
            && r.status[s.current] == Blocked && r.waits == s.waits[q := [s.current] + s.waits[q]]
            && r.free == s.free && r.building == s.building
            && if s.ready == [] then r.current == 0 && r.ready == []
               else r.current == s.ready[0] && r.ready == s.ready[1..]
  {
    EnqueueOk(s, q);
    assert s.current !in s.ready;
    hide Holds, WaitsOk, RunOk, BuildOk;
  }

  /** A preempted task is the last of the ready queue, and the first runs. */
  lemma YieldMoves(s: Tasks)
    requires Entered(s)
    ensures var r, line := Next(s, Yield), if s.current != 0 then s.ready + [s.current] else s.ready;
            && r.waits == s.waits && r.free == s.free && r.building == s.building
            && if line == [] then r.current == 0 && r.ready == [] else r.current == line[0] && r.ready == line[1..]
  {
    hide Holds, WaitsOk, RunOk, BuildOk;
  }

  /** do_unblock moves one task, and wakeup every task of a queue, to the front of the ready queue. */
  lemma WakeMoves(s: Tasks, q: nat, k: nat)
    requires Entered(s) && q < |s.waits| && k < |s.waits[q]|
    ensures var r, u := Next(s, WakeOne(q, k)), s.waits[q][k];
            && u < |s.status| && r.status == s.status[u := Ready] && r.ready == [u] + s.ready
            && r.waits == s.waits[q := s.waits[q][..k] + s.waits[q][k + 1..]]
            && r.free == s.free && r.building == s.building && r.current == s.current
    ensures var r := Next(s, WakeQueue(q));
            && r.waits == s.waits[q := []] && r.ready == Reversed(s.waits[q]) + s.ready
            && (forall t :: 0 <= t < |s.status| ==> r.status[t] == if t in s.waits[q] then Ready else s.status[t])
            && r.free == s.free && r.building == s.building && r.current == s.current
  {
    WakeOk(s, q, k);
    hide Holds, WaitsOk, RunOk, BuildOk;
    assert s.waits[q][..|s.waits[q]|] == s.waits[q] && s.waits[q][|s.waits[q]|..] == [];
  }

  /** The three steps of a clone: the slot leaves the free list, becomes READY, enters the ready queue. */
  lemma CloneMoves(s: Tasks)
    requires Entered(s)
    ensures CanLeave(s) && s.free != [] ==>
              Next(s, TakeSlot) == s.(free := s.free[1..], building := s.building[s.current := s.free[0]])
    ensures s.current in s.building ==>
              var c := s.building[s.current];
              && c < |s.status| && Next(s, MarkSlot) == s.(status := s.status[c := Ready])
              && Next(s, PublishSlot) ==
                 if s.status[c] == Ready then s.(ready := [c] + s.ready, building := s.building - {s.current}) else s
  {
    if s.current in s.building { MarkOk(s); }
    hide Holds, WaitsOk, RunOk;
  }

  // ----- The idle task

  /** The entry ends in do_scheduler and nobody else can run. */
  ghost predicate GivesIdle(s: Tasks, op: Op)
    requires Entered(s)
  {
    && Leaves(s, op)
    && var u := Left(s, op);
       u.ready == [] && !(u.current != 0 && u.status[u.current] == Running)
  }

  lemma NoIdleOnLists(s: Tasks)
    requires Settled(s)
    ensures 0 !in s.ready && 0 !in s.building.Values && forall q :: 0 <= q < |s.waits| ==> 0 !in s.waits[q]
  {
    IdleNotBuilt(s.building, s.status);
    assert !Listed(s.status, s.building.Values, 0, Ready);
    forall q | 0 <= q < |s.waits| ensures 0 !in s.waits[q] {
      assert !BlockedOn(s.status, s.home, 0, q);
    }
  }

  lemma LeftIdle(s: Tasks, op: Op)
    requires Entered(s) && Leaves(s, op)
    ensures Left(s, op).status[0] == s.status[0] && (op != Yield ==> s.current != 0)
  {
    NoIdleOnLists(s);
    if op.ExitTask? && op.auto {
      var f := Freed(s, s.current);
      if f.waits[PCB_WAIT] != [] { assert f.waits[PCB_WAIT][0] in s.waits[PCB_WAIT]; }
    }
  }

  /** One entry: pid0 becomes Running exactly when it is dispatched, and never anything else afterwards. */
  lemma IdleStep(s: Tasks, op: Op)
    requires Entered(s)
    ensures Next(s, op).status[0] == Running <==> s.status[0] == Running || GivesIdle(s, op)
    ensures Next(s, op).current == 0 <==> if Leaves(s, op) then GivesIdle(s, op) else s.current == 0
  {
    NoIdleOnLists(s);
    if Leaves(s, op) { NoIdleOnLists(Left(s, op)); }
    hide Holds, WaitsOk, RunOk, BuildOk;
    if Leaves(s, op) {
      LeftIdle(s, op);
    } else {
      match op
      case WakeOne(q, k) => if q < |s.waits| && k < |s.waits[q]| { assert s.waits[q][k] in s.waits[q]; }
      case WakeQueue(q) => if q < |s.waits| { assert 0 !in s.waits[q]; }
      case MarkSlot => if s.current in s.building { assert s.building[s.current] in s.building.Values; }
      case Reap(t) =>
        if Is(s.status, t, Zombie) && s.waits[PCB_WAIT] != [] { assert s.waits[PCB_WAIT][0] in s.waits[PCB_WAIT]; }
      case _ =>
    }
  }

  /** At some point of the run the idle task was dispatched. */
  ghost predicate IdleDispatched(s: Tasks, ops: seq<Op>)
    requires Entered(s)
  {
    ops != [] && (IdleDispatched(s, ops[..|ops| - 1]) || GivesIdle(After(s, ops[..|ops| - 1]), ops[|ops| - 1]))
  }

  /** At some point of the run do_scheduler was called. */
  ghost predicate Switched(s: Tasks, ops: seq<Op>)
    requires Entered(s)
  {
    ops != [] && (Switched(s, ops[..|ops| - 1]) || Leaves(After(s, ops[..|ops| - 1]), ops[|ops| - 1]))
  }

  /**
    The idle task over every run from boot.  It has the status Running from its first dispatch
    on, for ever, and READY before.  So "Running iff current" holds of it, before the first
    dispatch, exactly once some task has been dispatched, and afterwards exactly while it is
    current.
   */
  lemma {:induction false} IdleRun(s: Tasks, ops: seq<Op>)
    requires Entered(s) && s.current == 0 && s.status[0] == Ready
    ensures var r, d := After(s, ops), IdleDispatched(s, ops);
            && r.status[0] == (if d then Running else Ready)
            && (!d ==> (r.current != 0 <==> Switched(s, ops)))
            && ((r.status[0] == Running <==> r.current == 0) <==> if d then r.current == 0 else Switched(s, ops))
  {
    if ops != [] {
      var n := |ops| - 1;
      IdleRun(s, ops[..n]);
      IdleStep(After(s, ops[..n]), ops[n]);
      hide Next, GivesIdle, Leaves;
    }
  }

  // ----- The code

  function AtMost(a: int, b: nat): (m: nat)
    ensures m <= b && (a <= 0 ==> m == 0) && (a >= 0 ==> m <= a) && (m == a || m == b || m == 0 > a)
  {
    if a < 0 then 0 else if a < b then a else b
  }

  class Scheduler {
    var status: seq<Status>
    var current: nat
    var ready: seq<nat>
    var waits: seq<seq<nat>>
    var free: seq<nat>
    var building: map<nat, nat>
    ghost var home: seq<nat>

    ghost function View(): Tasks
      reads this
    {
      Tasks(status, current, ready, waits, free, building, home)
    }

    /** pid0, the slot of the shell made ready by init_shell, and init_pcb_queue: all other slots are free. */
    constructor (tasks: nat, queues: nat)
      requires tasks > 1 && queues > PCB_WAIT
      ensures Entered(View()) && |status| == tasks && |waits| == queues
      ensures current == 0 && status[0] == Ready && ready == [1] && building == map[]
      ensures forall t :: 1 < t < tasks ==> t in free
    {
      status := [Ready, Ready] + seq(tasks - 2, i => Exited);
      current := 0;
      ready := [1];
      waits := seq(queues, i => []);
      free := seq(tasks - 2, i => i + 2);
      building := map[];
      home := seq(tasks, i => 0);
      new;
      forall t: nat ensures t in free <==> Listed(status, {}, t, Exited) {
        if 1 < t < tasks { assert free[t - 2] == t; }
      }
    }

    method DoScheduler()
      requires Settled(View())
      modifies this
      ensures forall t :: t in old(ready) ==> t < old(|status|)
      ensures View() == Switch(old(View())) && Inv(View())
      ensures var line := old(if status[current] == Running && current != 0 then ready + [current] else ready);
              if line == [] then current == 0 && ready == [] else current == line[0] && ready == line[1..]
      ensures forall t :: 0 <= t < |status| && t != old(current) && t != current ==> status[t] == old(status[t])
      ensures status[current] == Running
      ensures current != old(current) ==>
                status[old(current)] == if old(current != 0 && status[current] == Running) then Ready else old(status[current])
    {
      ghost var s := View();
      SwitchOk(s);
      hide Settled;
      if status[current] == Running && current != 0 {
        status := status[current := Ready];
        ready := ready + [current];
      }
      if ready != [] {
        assert ready[0] in ready;
        current := ready[0];
        ready := ready[1..];
      } else if status[current] != Running {
        current := 0;
      }
      status := status[current := Running];
    }

    method DoBlock(q: nat)
      requires Inv(View()) && current != 0 && q < |waits|
      modifies this
      ensures Blocks(old(View()), View(), q) && Inv(View())
      ensures |status| == old(|status|) && waits == old(waits[q := [current] + waits[q]])
      ensures status[old(current)] == Blocked && free == old(free) && building == old(building)
      ensures if old(ready) == [] then current == 0 && ready == [] else current == old(ready)[0] && ready == old(ready)[1..]
    {
      EnqueueOk(View(), q);
      ReadyInRange(View());
      assert current !in ready;
      hide Holds, WaitsOk, RunOk, BuildOk;
      waits := waits[q := [current] + waits[q]];
      status := status[current := Blocked];
      home := home[current := q];
      DoScheduler();
    }

    method DoUnblock(q: nat, k: nat)
      requires Settled(View()) && q < |waits| && k < |waits[q]|
      modifies this`waits, this`status, this`ready
      ensures old(waits[q][k]) < old(|status|)
      ensures View() == Wake(old(View()), q, k) && Settled(View())
      ensures old(Inv(View())) ==> Inv(View())
      ensures status == old(status[waits[q][k] := Ready]) && ready == old([waits[q][k]] + ready)
      ensures waits == old(waits[q := waits[q][..k] + waits[q][k + 1..]])
    {
      WakeOk(View(), q, k);
      hide Settled;
      var t := waits[q][k];
      waits := waits[q := waits[q][..k] + waits[q][k + 1..]];
      status := status[t := Ready];
      ready := [t] + ready;
    }

    /** wakeup, and the loop at the end of releasesleep. */
    method WakeAll(q: nat)
      requires Settled(View()) && q < |waits|
      modifies this`waits, this`status, this`ready
      ensures Settled(View()) && View() == WokenBy(old(View()), q, old(|waits[q]|)) && waits[q] == []
      ensures old(Inv(View())) ==> Inv(View())
      ensures ready == Reversed(old(waits[q])) + old(ready) && waits == old(waits)[q := []]
      ensures forall t :: 0 <= t < |status| ==> status[t] == if t in old(waits[q]) then Ready else old(status[t])
    {
      ghost var s0, n := View(), 0;
      NoneWoken(s0, q);
      while waits[q] != []
        invariant q < |waits| && n <= |s0.waits[q]| && View() == WokenBy(s0, q, n)
        modifies this`waits, this`status, this`ready
        decreases |waits[q]|
      {
        WakeFirst(q, s0, n);
        n := n + 1;
      }
      WokenByOk(s0, q, n);
      assert s0.waits[q][..n] == s0.waits[q] && s0.waits[q][n..] == [];
    }

    /** One round of a wake-up loop that started in state s0 and has woken n tasks. */
    method WakeFirst(q: nat, ghost s0: Tasks, ghost n: nat)
      requires Settled(s0) && q < |s0.waits| && n <= |s0.waits[q]| && View() == WokenBy(s0, q, n) && waits[q] != []
      modifies this`waits, this`status, this`ready
      ensures n < |s0.waits[q]| && View() == WokenBy(s0, q, n + 1) && |waits[q]| == old(|waits[q]|) - 1
    {
      WaitersInRange(s0, q);
      assert s0.waits[q][n] in s0.waits[q];
      WokenNext(s0, q, n);
      WokenByOk(s0, q, n);
      hide WokenBy, Settled;
      DoUnblock(q, 0);
    }

    /** The loop of do_futex_wakeup: at most num tasks. */
    method WakeUpTo(q: nat, num: int)
      requires Inv(View()) && q < |waits|
      modifies this`waits, this`status, this`ready
      ensures Inv(View()) && View() == WokenBy(old(View()), q, AtMost(num, old(|waits[q]|)))
      ensures |waits[q]| <= old(|waits[q]|)
      ensures var n := old(|waits[q]|) - |waits[q]|; n <= (if num < 0 then 0 else num) && (waits[q] == [] || num <= n)
    {
      ghost var s0 := View();
      NoneWoken(s0, q);
      var i := 0;
      while i < num && waits[q] != []
        invariant 0 <= i && (i == 0 || i <= num)
        invariant q < |waits| && i <= |s0.waits[q]| && View() == WokenBy(s0, q, i)
        modifies this`waits, this`status, this`ready
      {
        WakeFirst(q, s0, i);
        i := i + 1;
      }
      WokenByOk(s0, q, i);
    }

    /** get_free_pcb: the first free slot, or the caller blocks and tries again when it is woken. */
    method GetFreePcb() returns (got: bool)
      requires Entered(View()) && CanLeave(View())
      modifies this
      ensures Entered(View()) && View() == Next(old(View()), TakeSlot)
      ensures got <==> old(free) != []
      ensures got ==> building == old(building[current := free[0]]) && free == old(free[1..])
      ensures got ==> status == old(status) && ready == old(ready) && waits == old(waits) && current == old(current)
      ensures !got ==> waits == old(waits[PCB_WAIT := [current] + waits[PCB_WAIT]]) && status[old(current)] == Blocked
      ensures !got ==> free == old(free) && building == old(building)
    {
      if free != [] {
        TakeOk(View());
        hide Settled;
        building := building[current := free[0]];
        free := free[1..];
        return true;
      }
      hide Settled;
      DoBlock(PCB_WAIT);
      got := false;
    }

    /** init_clone_pcb, for the task list. */
    method MarkReady()
      requires Entered(View()) && current in building
      modifies this`status
      ensures Entered(View()) && View() == Next(old(View()), MarkSlot)
      ensures building[current] < |status| == old(|status|) && status == old(status)[building[current] := Ready]
    {
      MarkOk(View());
      hide Settled;
      status := status[building[current] := Ready];
    }

    /** The last list operation of do_clone. */
    method AddToReady()
      requires Entered(View()) && current in building && Is(status, building[current], Ready)
      modifies this`ready, this`building
      ensures Entered(View()) && View() == Next(old(View()), PublishSlot)
      ensures ready == old([building[current]] + ready) && building == old(building) - {current}
    {
      PublishOk(View());
      hide Settled;
      ready := [building[current]] + ready;
      building := building - {current};
    }

    /** free_pcb. */
    method FreePcb(t: nat)
      requires Settled(View()) && 0 < t < |status| && t !in building && PCB_WAIT < |waits|
      requires status[t] == Zombie || status[t] == Running
      modifies this`status, this`free, this`waits, this`ready
      ensures Settled(View()) && (old(status[t]) == Zombie && old(Inv(View())) ==> Inv(View()))
      ensures forall u :: u in old(waits[PCB_WAIT]) ==> u < old(|status|)
      ensures View() == Collected(old(View()), t)
      ensures free == [t] + old(free)
      ensures old(waits[PCB_WAIT]) == [] ==>
                waits == old(waits) && ready == old(ready) && status == old(status)[t := Exited]
      ensures old(waits[PCB_WAIT]) != [] ==>
                && waits == old(waits[PCB_WAIT := waits[PCB_WAIT][1..]])
                && ready == old([waits[PCB_WAIT][0]] + ready)
                && old(waits[PCB_WAIT][0]) < |old(status)|
                && status == old(status)[t := Exited][old(waits[PCB_WAIT][0]) := Ready]
    {
      CollectedOk(View(), t);
      FreePcbOk(View(), t);
      assert forall u :: u in waits[PCB_WAIT] ==> u < |status|;
      hide Settled;
      status := status[t := Exited];
      free := [t] + free;
      if waits[PCB_WAIT] != [] {
        assert waits[PCB_WAIT][..0] + waits[PCB_WAIT][1..] == waits[PCB_WAIT][1..];
        DoUnblock(PCB_WAIT, 0);
      }
    }

    /** The scheduling part of do_exit, for both exit modes. */
    method Exit(autoCleanup: bool)
      requires Entered(View()) && CanLeave(View())
      modifies this
      ensures Entered(View()) && View() == Next(old(View()), ExitTask(autoCleanup))
      ensures current != old(current) && status[old(current)] == (if autoCleanup then Exited else Zombie)
      ensures free == (if autoCleanup then [old(current)] else []) + old(free)
      ensures if autoCleanup && old(waits[PCB_WAIT]) != []
              then waits == old(waits[PCB_WAIT := waits[PCB_WAIT][1..]]) && current == old(waits[PCB_WAIT][0]) && ready == old(ready)
              else waits == old(waits) && if old(ready) == [] then current == 0 && ready == [] else
                   current == old(ready[0]) && ready == old(ready[1..])
    {
      ghost var s := View();
      assert current !in ready && current !in waits[PCB_WAIT];
      if autoCleanup {
        FreePcb(current);
      } else {
        ZombieOk(View());
        status := status[current := Zombie];
      }
      assert View() == Left(s, ExitTask(autoCleanup));
      hide Settled, Left;
      DoScheduler();
    }

    /** One kernel entry of the running task. */
    method Step(op: Op)
      requires Entered(View())
      modifies this
      ensures Entered(View()) && View() == Next(old(View()), op)
    {
      ghost var s := View();
      match op
      case Yield => DoScheduler();
      case Sleep(q) => if current != 0 && q < |waits| { DoBlock(q); }
      case WakeOne(q, k) => if q < |waits| && k < |waits[q]| { DoUnblock(q, k); }
      case WakeQueue(q) => if q < |waits| { WakeAll(q); }
      case TakeSlot => if current != 0 && current !in building { var _ := GetFreePcb(); }
      case MarkSlot => if current in building { MarkReady(); }
      case PublishSlot => if current in building && Is(status, building[current], Ready) { AddToReady(); }
      case ExitTask(auto) => if current != 0 && current !in building { Exit(auto); }
      case Reap(t) =>
        if 0 < t < |status| && status[t] == Zombie {
          ZombieBuildsNothing(s, t);
          FreePcb(t);
        }
    }

    /**
      Any sequence of entries, clones interrupted anywhere included: every task is in exactly
      one place, and its status names that place unless the task is under construction.
     */
    method Run(ops: seq<Op>)
      requires Entered(View())
      modifies this
      ensures Entered(View()) && View() == After(old(View()), ops) && |status| == old(|status|) == |home|
      ensures forall t, p :: 0 < t < |status| ==> (IsAt(View(), t, p) <==> p == PlaceOf(View(), t))
      ensures forall t :: 0 < t < |status| ==> (IsAt(View(), t, StatusPlace(View(), t)) <==> t !in building.Values)
    {
      ghost var s := View();
      for i := 0 to |ops|
        invariant Entered(View()) && View() == After(s, ops[..i])
      {
        hide Next;
        Step(ops[i]);
        assert ops[..i + 1][..i] == ops[..i];
      }
      hide Next, After;
      assert ops[..|ops|] == ops;
      forall t, p | 0 < t < |status| ensures IsAt(View(), t, p) <==> p == PlaceOf(View(), t) {
        OnePlace(View(), t, p);
      }
      forall t | 0 < t < |status| ensures IsAt(View(), t, StatusPlace(View(), t)) <==> t !in building.Values {
        StatusNamesPlace(View(), t);
      }
    }
  }
}
