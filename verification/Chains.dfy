/**
  Cluster chains in a file allocation table: what allocating and linking clusters does to the
  files of a volume (write_fat_table and write_fat_table_p in kernel/utils/utils.c, the
  cluster-extension step of fat32_write in kernel/fat32/fat32.c).
 */
module Chains {
  import opened FatTable

  /** The clusters of one file, first to last, linked in the table and ended by the mark. */
  ghost predicate IsChain(t: seq<nat>, ch: seq<nat>) {
    && ch != []
    && (forall i :: 0 <= i < |ch| ==> 2 <= ch[i] < |t|)
    && (forall i :: 0 <= i < |ch| - 1 ==> t[ch[i]] == ch[i + 1])
    && t[ch[|ch| - 1]] == EOC
  }

  ghost predicate Apart(a: seq<nat>, b: seq<nat>) {
    forall i, j :: 0 <= i < |a| && 0 <= j < |b| ==> a[i] != b[j]
  }

  /** The files of a volume do not share clusters. */
  ghost predicate Files(t: seq<nat>, chains: seq<seq<nat>>) {
    && |t| <= EOC
    && (forall f :: 0 <= f < |chains| ==> IsChain(t, chains[f]))
    && (forall f, g :: 0 <= f < g < |chains| ==> Apart(chains[f], chains[g]))
  }

  /** A chain that ends never visits a cluster twice. */
  lemma {:induction false} ChainAcyclic(t: seq<nat>, ch: seq<nat>, i: nat, j: nat)
    requires |t| <= EOC && IsChain(t, ch) && i < j < |ch|
    ensures ch[i] != ch[j]
    decreases |ch| - j
  {
    if j + 1 < |ch| {
      ChainAcyclic(t, ch, i + 1, j + 1);
    } else {
      assert t[ch[i]] == ch[i + 1];
    }
  }

  /** The table says where a chain goes: two chains from the same cluster are the same. */
  lemma {:induction false} ChainUnique(t: seq<nat>, a: seq<nat>, b: seq<nat>)
    requires |t| <= EOC && IsChain(t, a) && IsChain(t, b) && a[0] == b[0]
    ensures a == b
  {
    assert |a| > 1 ==> t[a[0]] == a[1];
    assert |b| > 1 ==> t[b[0]] == b[1];
    if |a| > 1 && |b| > 1 {
      var a', b' := a[1..], b[1..];
      assert IsChain(t, a') && IsChain(t, b');
      ChainUnique(t, a', b');
      assert a == [a[0]] + a' && b == [b[0]] + b';
    }
  }

  ghost predicate IsFree(t: seq<nat>, c: nat) { c < |t| && t[c] == 0 }

  /** A free cluster belongs to nobody. */
  lemma FreeNotInChain(t: seq<nat>, ch: seq<nat>, c: nat)
    requires IsChain(t, ch) && IsFree(t, c)
    ensures c !in ch
  {
    forall i | 0 <= i < |ch| ensures t[ch[i]] != 0 {
      if i < |ch| - 1 { assert t[ch[i]] == ch[i + 1]; }
    }
  }

  /** Storing entries of clusters outside the chain does not affect it. */
  lemma ChainKept(t: seq<nat>, t': seq<nat>, ch: seq<nat>)
    requires IsChain(t, ch) && |t'| == |t| && forall i :: 0 <= i < |ch| ==> t'[ch[i]] == t[ch[i]]
    ensures IsChain(t', ch)
  {
  }

  /** Linking an ended cluster c behind the last cluster of a chain extends the chain. */
  lemma ChainExtended(t: seq<nat>, ch: seq<nat>, c: nat)
    requires |t| <= EOC && IsChain(t, ch) && IsChain(t, [c]) && c !in ch
    ensures ch[|ch| - 1] < |t| && IsChain(t[ch[|ch| - 1] := c], ch + [c])
  {
    var last := |ch| - 1;
    forall i | 0 <= i < last ensures ch[i] != ch[last] {
      ChainAcyclic(t, ch, i, last);
    }
    var ch' := ch + [c];
    assert forall i :: 0 <= i < |ch| ==> ch'[i] == ch[i];
  }

  /** write_fat_table(last, c), where last ends file f and c is a file of its own. */
  lemma LinkOk(t: seq<nat>, chains: seq<seq<nat>>, f: nat, c: nat)
    requires f < |chains| && Files(t, chains + [[c]])
    ensures IsChain(t, chains[f])
    ensures Files(t[chains[f][|chains[f]| - 1] := c], chains[f := chains[f] + [c]])
  {
    var all, ch := chains + [[c]], chains[f];
    assert forall g :: 0 <= g < |chains| ==> all[g] == chains[g];
    assert all[|chains|] == [c];
    forall g | 0 <= g < |chains| ensures IsChain(t, chains[g]) && c !in chains[g] {
      assert Apart(all[g], all[|chains|]);
    }
    ChainExtended(t, ch, c);
    var last, chains' := ch[|ch| - 1], chains[f := ch + [c]];
    var t' := t[last := c];
    forall g | 0 <= g < |chains| && g != f ensures IsChain(t', chains'[g]) {
      if g < f { assert Apart(all[g], all[f]); } else { assert Apart(all[f], all[g]); }
      ChainKept(t, t', chains[g]);
    }
    forall g, h | 0 <= g < h < |chains| ensures Apart(chains'[g], chains'[h]) {
      assert Apart(all[g], all[h]);
      assert forall i :: 0 <= i < |ch + [c]| ==> (ch + [c])[i] == if i < |ch| then ch[i] else c;
    }
  }
}
