/**
  The intrusive circular doubly linked lists of include/os/list.h: each operation on the
  links is the expected operation on the sequence of nodes, and touches no other list.
 */
module List {

  class Node {
    var next: Node?
    var prev: Node?

    constructor ()
      ensures next == null && prev == null
    {
      next, prev := null, null;
    }
  }

  /** The list with sentinel `head` consists of exactly `nodes`, front first. */
  ghost predicate IsList(head: Node, nodes: seq<Node>)
    reads head, nodes
  {
    && head !in nodes
    && (forall i, j :: 0 <= i < j < |nodes| ==> nodes[i] != nodes[j])
    && head.next == (if nodes == [] then head else nodes[0])
    && head.prev == (if nodes == [] then head else nodes[|nodes| - 1])
    && (forall i {:trigger nodes[i].next} :: 0 <= i < |nodes| ==> nodes[i].next == if i + 1 < |nodes| then nodes[i + 1] else head)
    && (forall i {:trigger nodes[i].prev} :: 0 <= i < |nodes| ==> nodes[i].prev == if i > 0 then nodes[i - 1] else head)
  }

  /** init_list */
  method InitList(head: Node)
    modifies head
    ensures IsList(head, [])
  {
    head.next := head;
    head.prev := head;
  }

  /** list_empty */
  method ListEmpty(head: Node, ghost nodes: seq<Node>) returns (empty: bool)
    requires IsList(head, nodes)
    ensures empty <==> nodes == []
  {
    empty := head.next == head;
  }

  /** _list_add between two neighbours. */
  method LinkBetween(node: Node, prev: Node, next: Node)
    requires node != prev && node != next
    modifies node, prev, next
    ensures node.next == next && node.prev == prev && prev.next == node && next.prev == node
    ensures prev != next ==> prev.prev == old(prev.prev) && next.next == old(next.next)
  {
    next.prev := node;
    node.next := next;
    node.prev := prev;
    prev.next := node;
  }

  /** list_add: to the front. */
  method ListAdd(node: Node, head: Node, ghost nodes: seq<Node>)
    requires IsList(head, nodes) && node != head && node !in nodes
    modifies node, head, nodes
    ensures IsList(head, [node] + nodes)
  {
    ghost var all := [node] + nodes;
    assert forall i :: 1 <= i < |all| ==> all[i] == nodes[i - 1];
    LinkBetween(node, head, head.next);
    assert nodes != [] ==> nodes[0].prev == node && nodes[0].next == old(nodes[0].next);
    assert forall i :: 1 <= i < |nodes| ==> nodes[i].next == old(nodes[i].next) && nodes[i].prev == old(nodes[i].prev);
  }

  /** list_add_tail: to the back. */
  method ListAddTail(node: Node, head: Node, ghost nodes: seq<Node>)
    requires IsList(head, nodes) && node != head && node !in nodes
    modifies node, head, nodes
    ensures IsList(head, nodes + [node])
  {
    ghost var last := |nodes| - 1;
    assert forall i :: 0 <= i < last ==> nodes[i] != nodes[last];
    LinkBetween(node, head.prev, head);
    assert nodes != [] ==> nodes[last].next == node && nodes[last].prev == old(nodes[last].prev);
  }

  /** _list_del */
  method Bypass(prev: Node, next: Node)
    modifies prev, next
    ensures next.prev == prev && prev.next == next
    ensures prev != next ==> prev.prev == old(prev.prev) && next.next == old(next.next)
  {
    next.prev := prev;
    prev.next := next;
  }

  /** list_del of a listed node: it leaves the list and its links are cleared. */
  method ListDel(node: Node, head: Node, ghost nodes: seq<Node>, ghost k: nat)
    requires IsList(head, nodes) && k < |nodes| && nodes[k] == node
    modifies head, nodes
    ensures IsList(head, nodes[..k] + nodes[k + 1..])
    ensures node.next == null && node.prev == null
  {
    assert nodes[k].next == if k + 1 < |nodes| then nodes[k + 1] else head;
    assert nodes[k].prev == if k > 0 then nodes[k - 1] else head;
    if node.prev != null && node.next != null {
      Bypass(node.prev, node.next);
      node.prev := null;
      node.next := null;
    }
    Skipped(head, nodes, k);
  }

  /** The links of a list that go around node k. */
  lemma Skipped(head: Node, nodes: seq<Node>, k: nat)
    requires k < |nodes| && head !in nodes && forall i, j :: 0 <= i < j < |nodes| ==> nodes[i] != nodes[j]
    requires head.next == if k > 0 then nodes[0] else if |nodes| > 1 then nodes[1] else head
    requires head.prev == if k + 1 < |nodes| then nodes[|nodes| - 1] else if |nodes| > 1 then nodes[|nodes| - 2] else head
    requires forall j {:trigger nodes[j].next} :: 0 <= j < |nodes| && j != k ==>
               nodes[j].next == var n := if j + 1 == k then k + 1 else j + 1; if n < |nodes| then nodes[n] else head
    requires forall j {:trigger nodes[j].prev} :: 0 <= j < |nodes| && j != k ==>
               nodes[j].prev == var p := if j == k + 1 then k - 1 else j - 1; if p >= 0 then nodes[p] else head
    ensures IsList(head, nodes[..k] + nodes[k + 1..])
  {
    var left := nodes[..k] + nodes[k + 1..];
    assert forall i :: 0 <= i < |left| ==> left[i] == if i < k then nodes[i] else nodes[i + 1];
  }

  /** list_move: from anywhere in one list to the front of another. */
  method ListMove(node: Node, from: Node, to: Node, ghost nodes: seq<Node>, ghost k: nat, ghost others: seq<Node>)
    requires IsList(from, nodes) && k < |nodes| && nodes[k] == node
    requires IsList(to, others) && from != to
    requires to !in nodes && from !in others && forall n :: n in nodes ==> n !in others
    modifies from, nodes, to, others
    ensures IsList(from, nodes[..k] + nodes[k + 1..])
    ensures IsList(to, [node] + others)
  {
    ghost var left := nodes[..k] + nodes[k + 1..];
    Apart(node, from, to, nodes, k, others);
    hide IsList;
    DelBeside(node, from, nodes, k, to, others);
    AddBeside(node, to, others, from, left);
  }

  /** list_move inside one list: to its front. */
  method ListMoveWithin(node: Node, head: Node, ghost nodes: seq<Node>, ghost k: nat)
    requires IsList(head, nodes) && k < |nodes| && nodes[k] == node
    modifies head, nodes
    ensures IsList(head, [node] + (nodes[..k] + nodes[k + 1..]))
  {
    ghost var left := nodes[..k] + nodes[k + 1..];
    assert node != head && node !in left;
    hide IsList;
    ListDel(node, head, nodes, k);
    ListAdd(node, head, left);
  }

  /** list_del leaves any other list alone. */
  method DelBeside(node: Node, from: Node, ghost nodes: seq<Node>, ghost k: nat, ghost to: Node, ghost others: seq<Node>)
    requires IsList(from, nodes) && k < |nodes| && nodes[k] == node && IsList(to, others)
    requires from != to && to !in nodes && forall n :: n in others ==> n !in nodes && n != from
    modifies from, nodes
    ensures IsList(from, nodes[..k] + nodes[k + 1..]) && IsList(to, others)
  {
    ListDel(node, from, nodes, k);
    forall i | 0 <= i < |others|
      ensures others[i].next == old(others[i].next) && others[i].prev == old(others[i].prev)
    {
      assert others[i] in others;
    }
  }

  /** list_add leaves any other list alone. */
  method AddBeside(node: Node, to: Node, ghost others: seq<Node>, ghost from: Node, ghost left: seq<Node>)
    requires IsList(to, others) && node != to && node !in others && IsList(from, left)
    requires from != to && from != node && from !in others
    requires forall n :: n in left ==> n != node && n !in others && n != to
    modifies node, to, others
    ensures IsList(to, [node] + others) && IsList(from, left)
  {
    ListAdd(node, to, others);
    forall i | 0 <= i < |left|
      ensures left[i].next == old(left[i].next) && left[i].prev == old(left[i].prev)
    {
      assert left[i] in left;
    }
  }

  lemma Apart(node: Node, from: Node, to: Node, nodes: seq<Node>, k: nat, others: seq<Node>)
    requires IsList(from, nodes) && k < |nodes| && nodes[k] == node
    requires to !in nodes && from !in others && forall n :: n in nodes ==> n !in others
    ensures node != to && node !in others && node != from
    ensures forall n :: n in others ==> n !in nodes && n != from
    ensures forall n :: n in nodes[..k] + nodes[k + 1..] ==> n in nodes && n != node && n !in others && n != to
  {
    assert node in nodes;
    var left := nodes[..k] + nodes[k + 1..];
    assert forall i :: 0 <= i < |left| ==> left[i] == if i < k then nodes[i] else nodes[i + 1];
  }
}
