/** Sequences used as lists of distinct numbers. */
module Seqs {

  ghost predicate NoDup<T>(q: seq<T>) {
    forall a, b :: 0 <= a < b < |q| ==> q[a] != q[b]
  }

  lemma NoDupAdd(q: seq<nat>, q': seq<nat>, t: nat)
    requires NoDup(q) && t !in q && (q' == [t] + q || q' == q + [t])
    ensures NoDup(q') && forall u :: u in q' <==> u == t || u in q
  {
  }

  lemma DropAt(q: seq<nat>, k: nat)
    requires NoDup(q) && k < |q|
    ensures NoDup(q[..k] + q[k + 1..])
    ensures forall u :: u in q[..k] + q[k + 1..] <==> u in q && u != q[k]
  {
    var q' := q[..k] + q[k + 1..];
    assert forall i :: 0 <= i < |q'| ==> q'[i] == if i < k then q[i] else q[i + 1];
    forall u | u in q && u != q[k] ensures u in q' {
      var i :| 0 <= i < |q| && q[i] == u;
      assert q'[if i < k then i else i - 1] == u;
    }
  }

  function Reversed(q: seq<nat>): seq<nat> {
    if q == [] then [] else Reversed(q[1..]) + [q[0]]
  }

  lemma {:induction false} ReversedAppend(q: seq<nat>, t: nat)
    ensures Reversed(q + [t]) == [t] + Reversed(q)
  {
    if q != [] {
      assert (q + [t])[1..] == q[1..] + [t];
      ReversedAppend(q[1..], t);
    }
  }
}
