/**
  Runs of cluster allocations by several tasks (create_new and search_empty_cluster in
  kernel/utils/utils.c, fat32_write in kernel/fat32/fat32.c).  Between the scan of the table for a free
  cluster and the writes that take it a task can sleep in kmalloc or bget, so each is a step of its own.
 */
module FatRuns {
  import opened FatTable
  import opened Chains

  ghost predicate IsLowestFree(t: seq<nat>, c: nat) {
    IsFree(t, c) && forall d :: 0 <= d < c ==> t[d] != 0
  }

  ghost predicate SomeFree(t: seq<nat>) { exists f: nat :: IsFree(t, f) }

  lemma LowestFreeUnique(t: seq<nat>, c: nat, d: nat)
    requires IsLowestFree(t, c) && IsLowestFree(t, d)
    ensures c == d
  {
  }

  /** A table in which a new last cluster follows oldClus, or starts a file when oldClus is 0. */
  function Linked(t: seq<nat>, oldClus: nat, newClus: nat): seq<nat>
    requires oldClus < |t| && newClus < |t|
  {
    (if oldClus != 0 then t[oldClus := newClus] else t)[newClus := EOC]
  }

  /** The table, the files, and the clusters that tasks have chosen and not yet taken. */
  datatype Fat = Fat(t: seq<nat>, chains: seq<seq<nat>>, plans: map<nat, nat>)

  /**
    Scan: the task finds cluster c free.  Reserve: it marks its cluster as an end.  NewFile: the same,
    and the cluster becomes a file.  Append: it links its cluster behind `last` and marks it.  Attach: it
    links a cluster that it has reserved behind `last`.
   */
  datatype FatOp =
    | Scan(p: nat, c: nat)
    | Reserve(p: nat)
    | NewFile(p: nat)
    | Append(p: nat, f: nat, last: nat)
    | Attach(p: nat, f: nat, last: nat)

  /** What no step can spoil. */
  ghost predicate Sane(s: Fat) {
    && 2 <= |s.t| <= EOC && s.t[0] != 0 && s.t[1] != 0
    && forall p :: p in s.plans ==> 2 <= s.plans[p] < |s.t|
  }

  ghost predicate FatOk(s: Fat) { Sane(s) && Files(s.t, s.chains) }

  ghost predicate CanDo(s: Fat, op: FatOp) {
    match op
    case Scan(_, c) => IsFree(s.t, c)
    case Reserve(p) => p in s.plans
    case NewFile(p) => p in s.plans
    case Append(p, f, last) => p in s.plans && f < |s.chains| && 2 <= last < |s.t|
    case Attach(p, f, last) => p in s.plans && f < |s.chains| && 2 <= last < |s.t|
  }

  ghost function Next(s: Fat, op: FatOp): (s': Fat)
    requires Sane(s)
    ensures Sane(s')
  {
    if !CanDo(s, op) then s else
    match op
    case Scan(p, c) => s.(plans := s.plans[p := c])
    case Reserve(p) => s.(t := Linked(s.t, 0, s.plans[p]))
    case NewFile(p) => Fat(Linked(s.t, 0, s.plans[p]), s.chains + [[s.plans[p]]], s.plans - {p})
    case Append(p, f, last) =>
      Fat(Linked(s.t, last, s.plans[p]), s.chains[f := s.chains[f] + [s.plans[p]]], s.plans - {p})
    case Attach(p, f, last) =>
      Fat(s.t[last := s.plans[p]], s.chains[f := s.chains[f] + [s.plans[p]]], s.plans - {p})
  }

  ghost predicate InNoChain(chains: seq<seq<nat>>, c: nat) {
    forall f :: 0 <= f < |chains| ==> c !in chains[f]
  }

  ghost predicate IsLast(ch: seq<nat>, c: nat) { ch != [] && ch[|ch| - 1] == c }

  /** The exact condition under which a step keeps the files apart, acyclic and ended. */
  ghost predicate Kept(s: Fat, op: FatOp)
    requires Sane(s)
  {
    CanDo(s, op) ==>
      match op
      case Scan(_, _) => true
      case Reserve(p) => forall f :: 0 <= f < |s.chains| && s.plans[p] in s.chains[f] ==> IsLast(s.chains[f], s.plans[p])
      case NewFile(p) => InNoChain(s.chains, s.plans[p])
      case Append(p, f, last) => InNoChain(s.chains, s.plans[p]) && IsLast(s.chains[f], last)
      case Attach(p, f, last) => InNoChain(s.chains, s.plans[p]) && IsLast(s.chains[f], last) && s.t[s.plans[p]] == EOC
  }

  /** Marking a cluster as an end. */
  lemma MarkIff(t: seq<nat>, chains: seq<seq<nat>>, c: nat)
    requires Files(t, chains) && 2 <= c < |t|
    ensures Files(t[c := EOC], chains) <==> forall f :: 0 <= f < |chains| && c in chains[f] ==> IsLast(chains[f], c)
  {
    var t' := t[c := EOC];
    forall f | 0 <= f < |chains| ensures IsChain(t', chains[f]) <==> (c in chains[f] ==> IsLast(chains[f], c)) {
      MarkChain(t, chains[f], c);
    }
  }

  lemma MarkChain(t: seq<nat>, ch: seq<nat>, c: nat)
    requires |t| <= EOC && IsChain(t, ch) && 2 <= c < |t|
    ensures IsChain(t[c := EOC], ch) <==> (c in ch ==> IsLast(ch, c))
  {
    var t' := t[c := EOC];
    if c in ch {
      var i :| 0 <= i < |ch| && ch[i] == c;
      if i < |ch| - 1 {
        ChainAcyclic(t, ch, i, |ch| - 1);
        assert t'[ch[i]] != ch[i + 1];
      }
    }
  }

  /** A new file of one cluster. */
  lemma NewIff(t: seq<nat>, chains: seq<seq<nat>>, c: nat)
    requires Files(t, chains) && 2 <= c < |t|
    ensures Files(t[c := EOC], chains + [[c]]) <==> InNoChain(chains, c)
  {
    var all := chains + [[c]];
    assert forall g :: 0 <= g < |chains| ==> all[g] == chains[g];
    assert all[|chains|] == [c];
    if InNoChain(chains, c) {
      MarkIff(t, chains, c);
      assert IsChain(t[c := EOC], [c]);
    } else {
      var f :| 0 <= f < |chains| && c in chains[f];
      var i :| 0 <= i < |chains[f]| && chains[f][i] == c;
      assert !Apart(all[f], all[|chains|]);
    }
  }

  /** A cluster that is marked as an end goes behind `last` of file f. */
  lemma AttachIff(t: seq<nat>, chains: seq<seq<nat>>, f: nat, last: nat, c: nat)
    requires Files(t, chains) && 2 <= c < |t| && f < |chains| && 2 <= last < |t|
    ensures Files(t[last := c], chains[f := chains[f] + [c]]) <==>
              InNoChain(chains, c) && IsLast(chains[f], last) && t[c] == EOC
  {
    var ch := chains[f];
    if InNoChain(chains, c) && IsLast(ch, last) && t[c] == EOC {
      NewIff(t, chains, c);
      assert t[c := EOC] == t;
      LinkOk(t, chains, f, c);
    }
    if Files(t[last := c], chains[f := ch + [c]]) {
      AttachOnly(t, chains, f, last, c);
    }
  }

  /** A cluster at the end of a sound file was nowhere before. */
  lemma NotTwice(t: seq<nat>, chains: seq<seq<nat>>, f: nat, c: nat)
    requires f < |chains| && Files(t, chains[f := chains[f] + [c]])
    ensures InNoChain(chains, c)
  {
    var chains', ch', n := chains[f := chains[f] + [c]], chains[f] + [c], |chains[f]|;
    assert chains'[f] == ch' && ch'[n] == c && IsChain(t, ch');
    forall g, i | 0 <= g < |chains| && 0 <= i < |chains[g]| ensures chains[g][i] != c {
      if g == f {
        assert ch'[i] == chains[g][i];
        ChainAcyclic(t, ch', i, n);
      } else {
        assert chains'[g] == chains[g];
        assert if g < f then Apart(chains'[g], chains'[f]) else Apart(chains'[f], chains'[g]);
      }
    }
  }

  /** The conditions are necessary. */
  lemma AttachOnly(t: seq<nat>, chains: seq<seq<nat>>, f: nat, last: nat, c: nat)
    requires Files(t, chains) && 2 <= c < |t| && f < |chains| && 2 <= last < |t|
    requires Files(t[last := c], chains[f := chains[f] + [c]])
    ensures InNoChain(chains, c) && IsLast(chains[f], last) && t[c] == EOC
  {
    var ch, t', chains' := chains[f], t[last := c], chains[f := chains[f] + [c]];
    var ch', n := ch + [c], |ch|;
    assert chains'[f] == ch' && IsChain(t', ch') && IsChain(t, ch);
    assert ch'[n - 1] == ch[n - 1] && ch'[n] == c;
    assert t'[ch[n - 1]] == c && t[ch[n - 1]] == EOC;
    assert last == ch[n - 1];
    NotTwice(t', chains, f, c);
    assert ch[n - 1] in chains[f];
    assert t'[c] == EOC;
  }

  /** write_fat_table_p: link and mark at once. */
  lemma AppendIff(t: seq<nat>, chains: seq<seq<nat>>, f: nat, last: nat, c: nat)
    requires Files(t, chains) && 2 <= c < |t| && f < |chains| && 2 <= last < |t|
    ensures Files(Linked(t, last, c), chains[f := chains[f] + [c]]) <==> InNoChain(chains, c) && IsLast(chains[f], last)
  {
    var t', chains' := Linked(t, last, c), chains[f := chains[f] + [c]];
    if InNoChain(chains, c) && IsLast(chains[f], last) {
      assert last in chains[f];
      MarkIff(t, chains, c);
      AttachIff(t[c := EOC], chains, f, last, c);
      assert t' == t[c := EOC][last := c];
    }
    if Files(t', chains') {
      AppendOnly(t, chains, f, last, c);
    }
  }

  lemma AppendOnly(t: seq<nat>, chains: seq<seq<nat>>, f: nat, last: nat, c: nat)
    requires Files(t, chains) && 2 <= c < |t| && f < |chains| && 2 <= last < |t|
    requires Files(Linked(t, last, c), chains[f := chains[f] + [c]])
    ensures InNoChain(chains, c) && IsLast(chains[f], last)
  {
    var ch, t', chains' := chains[f], Linked(t, last, c), chains[f := chains[f] + [c]];
    var ch', n := ch + [c], |ch|;
    assert chains'[f] == ch' && IsChain(t', ch') && IsChain(t, ch);
    assert ch'[n - 1] == ch[n - 1] && ch'[n] == c;
    assert t'[ch[n - 1]] == c && t[ch[n - 1]] == EOC;
    assert last == ch[n - 1];
    NotTwice(t', chains, f, c);
  }

  /** A step keeps the volume in order exactly when `Kept` says so. */
  lemma StepIff(s: Fat, op: FatOp)
    requires FatOk(s)
    ensures FatOk(Next(s, op)) <==> Kept(s, op)
  {
    hide Files, InNoChain, IsLast;
    if CanDo(s, op) {
      match op
      case Scan(_, _) =>
      case Reserve(p) => MarkIff(s.t, s.chains, s.plans[p]);
      case NewFile(p) => NewIff(s.t, s.chains, s.plans[p]);
      case Append(p, f, last) => AppendIff(s.t, s.chains, f, last, s.plans[p]);
      case Attach(p, f, last) => AttachIff(s.t, s.chains, f, last, s.plans[p]);
    }
  }

  ghost function After(s: Fat, ops: seq<FatOp>): (r: Fat)
    requires Sane(s)
    ensures Sane(r)
  {
    if ops == [] then s else Next(After(s, ops[..|ops| - 1]), ops[|ops| - 1])
  }

  /** Every step of the run meets its condition. */
  ghost predicate AllKept(s: Fat, ops: seq<FatOp>)
    requires Sane(s)
  {
    ops != [] ==>
      var n := |ops| - 1;
      AllKept(s, ops[..n]) && Kept(After(s, ops[..n]), ops[n])
  }

  /** The volume is in order in every state of the run. */
  ghost predicate AlwaysOk(s: Fat, ops: seq<FatOp>)
    requires Sane(s)
  {
    FatOk(After(s, ops)) && (ops != [] ==> AlwaysOk(s, ops[..|ops| - 1]))
  }

  /**
    For every run of scans and writes of any number of tasks: the files are apart, acyclic and ended in
    all states of the run exactly when every step meets its condition.
   */
  lemma {:induction false} RunIff(s: Fat, ops: seq<FatOp>)
    requires FatOk(s)
    ensures AlwaysOk(s, ops) <==> AllKept(s, ops)
  {
    hide Sane, Files, Kept, Next;
    if ops != [] {
      var n := |ops| - 1;
      RunIff(s, ops[..n]);
      if FatOk(After(s, ops[..n])) {
        StepIff(After(s, ops[..n]), ops[n]);
      }
    }
  }

  /** Files only ever gain clusters at their ends. */
  ghost predicate Grown(a: seq<seq<nat>>, b: seq<seq<nat>>) {
    |a| <= |b| && forall f :: 0 <= f < |a| ==> a[f] <= b[f]
  }

  lemma {:induction false} RunGrows(s: Fat, ops: seq<FatOp>)
    requires Sane(s)
    ensures Grown(s.chains, After(s, ops).chains)
  {
    if ops != [] { RunGrows(s, ops[..|ops| - 1]); }
  }

  /**
    A task has the table to itself from its scan to its last write, and extends a file behind its last
    cluster, by a cluster it has reserved where the code reserves it first.
   */
  ghost predicate Alone(s: Fat, op: FatOp)
    requires Sane(s)
  {
    match op
    case Scan(_, _) => s.plans == map[]
    case Append(_, f, last) => f < |s.chains| && IsLast(s.chains[f], last)
    case Attach(p, f, last) => f < |s.chains| && IsLast(s.chains[f], last) && p in s.plans && s.t[s.plans[p]] == EOC
    case _ => true
  }

  ghost predicate AllAlone(s: Fat, ops: seq<FatOp>)
    requires Sane(s)
  {
    ops != [] ==>
      var n := |ops| - 1;
      AllAlone(s, ops[..n]) && Alone(After(s, ops[..n]), ops[n])
  }

  /** At most one cluster is chosen, and it is in no file. */
  ghost predicate OnePlan(s: Fat) {
    && (forall p, q :: p in s.plans && q in s.plans ==> p == q)
    && (forall p :: p in s.plans ==> InNoChain(s.chains, s.plans[p]))
  }

  /** A cluster that is still free is in no file. */
  lemma FreeInNoChain(t: seq<nat>, chains: seq<seq<nat>>, c: nat)
    requires Files(t, chains) && IsFree(t, c)
    ensures InNoChain(chains, c)
  {
    forall f | 0 <= f < |chains| ensures c !in chains[f] { FreeNotInChain(t, chains[f], c); }
  }

  lemma AloneKept(s: Fat, op: FatOp)
    requires FatOk(s) && OnePlan(s) && Alone(s, op)
    ensures Kept(s, op) && OnePlan(Next(s, op))
  {
    if op.Scan? && CanDo(s, op) {
      FreeInNoChain(s.t, s.chains, op.c);
    }
  }

  /** Allocations that do not overlap keep the files apart, acyclic and ended, however many there are. */
  lemma {:induction false} AloneRun(s: Fat, ops: seq<FatOp>)
    requires FatOk(s) && s.plans == map[] && AllAlone(s, ops)
    ensures AlwaysOk(s, ops) && OnePlan(After(s, ops))
  {
    hide Sane, Files, Kept, Next, Alone;
    if ops != [] {
      var n := |ops| - 1;
      AloneRun(s, ops[..n]);
      AloneKept(After(s, ops[..n]), ops[n]);
      StepIff(After(s, ops[..n]), ops[n]);
    }
  }

  /**
    Two tasks that scan before either writes choose the same cluster c, the lowest free one.  The first
    write keeps the volume in order, be it a new file or the growth of one, and the second write of
    whatever kind does not.
   */
  lemma ScansCollide(s: Fat, p: nat, q: nat, c: nat, d: nat, first: FatOp, second: FatOp)
    requires FatOk(s) && IsLowestFree(s.t, c) && IsLowestFree(Next(s, Scan(p, c)).t, d) && p != q
    requires first == NewFile(p) || (first.Append? && first.p == p && first.f < |s.chains| && IsLast(s.chains[first.f], first.last))
    requires second == NewFile(q) || (second.Append? && second.p == q && second.f < |s.chains| && 2 <= second.last < |s.t|)
    ensures var r := Next(Next(Next(s, Scan(p, c)), Scan(q, d)), first); FatOk(r) && !FatOk(Next(r, second))
  {
    LowestFreeUnique(s.t, c, d);
    var r0 := Next(Next(s, Scan(p, c)), Scan(q, c));
    StepIff(s, Scan(p, c));
    StepIff(Next(s, Scan(p, c)), Scan(q, c));
    FreeInNoChain(s.t, s.chains, c);
    StepIff(r0, first);
    var r := Next(r0, first);
    var g := if first.NewFile? then |s.chains| else first.f;
    assert c in r.chains[g];
    StepIff(r, second);
  }
}
