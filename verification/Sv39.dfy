/**
  Sv39 page tables in a pool of page frames (arch/riscv/include/pgtable.h,
  include/os/mm.h).

  A 64-bit word is split the way pgtable.h splits it: a page frame number and ten
  attribute bits.  Every word splits in exactly one way, so one frame type serves
  for table pages and data pages alike, as in the kernel's untyped memory.
 */
module Sv39 {

  /** Entries per table page (PTE_NUM). */
  const ENTRIES: nat := 512

  /** Frame number of FREEMEM, the first page of the pool (qemu layout). */
  const FREEMEM_PFN: nat := 0x80302

  datatype Word = Word(
    pfn: nat,
    v: bool, r: bool, w: bool, x: bool, u: bool, g: bool, a: bool, d: bool,
    soft: bool, sd: bool)

  const Zero := Word(0, false, false, false, false, false, false, false, false, false, false)

  /** The contents of one page. */
  type Frame = seq<Word>

  /** GET_MEM_NODE(pa2kva(pfn << 12)): the pool index of the page an entry points to. */
  function Node(e: Word): int { e.pfn - FREEMEM_PFN }

  /** A non-leaf entry for pool page n: set_pfn, then set_attribute(_PAGE_PRESENT). */
  function TableEntry(n: nat): Word {
    Zero.(pfn := n + FREEMEM_PFN, v := true)
  }

  /** A user leaf as alloc_page_helper(.., MAP_USER) builds it: V R W X U, no A or D. */
  function UserLeaf(n: nat): Word {
    Zero.(pfn := n + FREEMEM_PFN, v := true, r := true, w := true, x := true, u := true)
  }

  /** The accesses of a program, which hardware checks against the bits of a leaf entry. */
  datatype Access = LoadAccess | StoreAccess | FetchAccess

  /** A present entry without R, W and X is a pointer to the next table. */
  predicate IsPointer(e: Word) { e.v && !e.r && !e.w && !e.x }

  /**
    The check of section 4.3.2 of the RISC-V privileged architecture for a leaf entry and an access in
    user mode, on hardware that traps on a clear A bit and on a store with a clear D bit.
   */
  predicate Admits(e: Word, acc: Access) {
    && e.v && (e.r || e.x) && !(e.w && !e.r) && e.u && e.a
    && match acc
       case LoadAccess => e.r
       case StoreAccess => e.w && e.d
       case FetchAccess => e.x
  }

  /** A page of a program: in memory, with user, read and execute permission. */
  predicate UserPage(e: Word) { !e.sd && e.u && e.r && e.x }

  /** What the permissions of a page of a program mean: loads and fetches always, stores with W. */
  lemma UserPageAdmits(e: Word)
    requires e.v && UserPage(e)
    ensures Admits(e.(a := true), LoadAccess) && Admits(e.(a := true), FetchAccess)
    ensures Admits(e.(a := true, d := true), StoreAccess) <==> e.w
  {
  }

  /** A virtual page number, as the three nine-bit indices of Sv39. */
  datatype Vpn = Vpn(i: nat, j: nat, k: nat)

  predicate InRange(v: Vpn) { v.i < ENTRIES && v.j < ENTRIES && v.k < ENTRIES }

  /** Lexicographic order: the order in which the kernel's triple loops visit pages. */
  predicate Before(v: Vpn, c: Vpn) {
    v.i < c.i || (v.i == c.i && (v.j < c.j || (v.j == c.j && v.k < c.k)))
  }

  /** A page of one address space: its root table and a virtual page number. */
  type Key = (nat, Vpn)

  /**
    What a pool page is currently used for.  This is bookkeeping of the proof only:
    the kernel stores none of it.
    Held pages belong to the kernel itself (kernel stacks, pages just allocated).
   */
  datatype Role =
    | Free
    | Held
    | Data
    | Root
    | Mid(root: nat, i: nat)            // second-level table behind entry i of root
    | Low(root: nat, i: nat, j: nat)    // third-level table behind entry j of Mid(root, i)

  predicate IsTable(role: Role) { role.Root? || role.Mid? || role.Low? }

  ghost predicate Shape(ker: Frame, frames: seq<Frame>, roles: seq<Role>) {
    && |ker| == ENTRIES
    && |roles| == |frames|
    && (forall f :: 0 <= f < |frames| ==> |frames[f]| == ENTRIES)
  }

  /** Entry e is present and points to a pool page in the given role. */
  ghost predicate Points(e: Word, roles: seq<Role>, role: Role) {
    e.v && 0 <= Node(e) < |roles| && roles[Node(e)] == role
  }

  ghost function Lookup(pt: map<Key, Word>, r: nat, v: Vpn): Word {
    if (r, v) in pt then pt[(r, v)] else Zero
  }

  /** Root tables hold the shared kernel entries, and private tables elsewhere. */
  ghost predicate RootDown(ker: Frame, frames: seq<Frame>, roles: seq<Role>)
    requires Shape(ker, frames, roles)
  {
    forall f: nat, i: nat :: f < |frames| && i < ENTRIES && roles[f] == Root ==>
      if ker[i] != Zero then frames[f][i] == ker[i]
      else frames[f][i] == Zero || (IsPointer(frames[f][i]) && Points(frames[f][i], roles, Mid(f, i)))
  }

  ghost predicate MidDown(ker: Frame, frames: seq<Frame>, roles: seq<Role>)
    requires Shape(ker, frames, roles)
  {
    forall f: nat, j: nat :: f < |frames| && j < ENTRIES && roles[f].Mid? ==>
      || frames[f][j] == Zero
      || (IsPointer(frames[f][j]) && Points(frames[f][j], roles, Low(roles[f].root, roles[f].i, j)))
  }

  /** Third-level tables hold exactly the leaf entries recorded in pt. */
  ghost predicate LowDown(ker: Frame, frames: seq<Frame>, roles: seq<Role>, pt: map<Key, Word>)
    requires Shape(ker, frames, roles)
  {
    forall f: nat, k: nat :: f < |frames| && k < ENTRIES && roles[f].Low? ==>
      frames[f][k] == Lookup(pt, roles[f].root, Vpn(roles[f].i, roles[f].j, k))
  }

  /** Pool page f is the second-level table behind entry i of root r. */
  ghost predicate IsMid(ker: Frame, frames: seq<Frame>, roles: seq<Role>, r: nat, i: nat, f: nat)
    requires Shape(ker, frames, roles)
  {
    && r < |frames| && i < ENTRIES && f < |frames|
    && roles[r] == Root && ker[i] == Zero
    && frames[r][i] != Zero && Node(frames[r][i]) == f
    && roles[f] == Mid(r, i)
  }

  ghost predicate IsLow(ker: Frame, frames: seq<Frame>, roles: seq<Role>, r: nat, i: nat, j: nat, f: nat)
    requires Shape(ker, frames, roles)
  {
    && r < |frames| && i < ENTRIES && j < ENTRIES && f < |frames|
    && var m := Node(frames[r][i]);
    && 0 <= m && IsMid(ker, frames, roles, r, i, m)
    && frames[m][j] != Zero && Node(frames[m][j]) == f
    && roles[f] == Low(r, i, j)
  }

  ghost predicate MidUp(ker: Frame, frames: seq<Frame>, roles: seq<Role>)
    requires Shape(ker, frames, roles)
  {
    forall f: nat :: f < |frames| && roles[f].Mid? ==>
      IsMid(ker, frames, roles, roles[f].root, roles[f].i, f)
  }

  ghost predicate LowUp(ker: Frame, frames: seq<Frame>, roles: seq<Role>)
    requires Shape(ker, frames, roles)
  {
    forall f: nat :: f < |frames| && roles[f].Low? ==>
      IsLow(ker, frames, roles, roles[f].root, roles[f].i, roles[f].j, f)
  }

  /** The third-level table that the walk of v reaches from root r, or -1. */
  function LowAt(frames: seq<Frame>, r: nat, v: Vpn): int
    requires r < |frames| && InRange(v)
    requires forall f :: 0 <= f < |frames| ==> |frames[f]| == ENTRIES
  {
    var e2 := frames[r][v.i];
    if e2 == Zero || !(0 <= Node(e2) < |frames|) then -1 else
    var e1 := frames[Node(e2)][v.j];
    if e1 == Zero || !(0 <= Node(e1) < |frames|) then -1 else Node(e1)
  }

  /** The leaf entry that the walk of v reaches from root r, Zero when a level is missing. */
  function Walk(frames: seq<Frame>, r: nat, v: Vpn): Word
    requires r < |frames| && InRange(v)
    requires forall f :: 0 <= f < |frames| ==> |frames[f]| == ENTRIES
  {
    if LowAt(frames, r, v) < 0 then Zero else frames[LowAt(frames, r, v)][v.k]
  }

  predicate User(ker: Frame, v: Vpn)
    requires |ker| == ENTRIES
  {
    InRange(v) && ker[v.i] == Zero
  }

  /** Every recorded leaf is a user page behind an existing third-level table. */
  ghost predicate PtUp(ker: Frame, frames: seq<Frame>, roles: seq<Role>, pt: map<Key, Word>)
    requires Shape(ker, frames, roles)
  {
    forall r: nat, v: Vpn :: (r, v) in pt ==>
      && r < |frames| && roles[r] == Root && User(ker, v)
      && pt[(r, v)] != Zero
      && LowAt(frames, r, v) >= 0
  }

  /** The pool holds a well-formed forest of private page tables with leaves pt. */
  ghost predicate Tree(ker: Frame, frames: seq<Frame>, roles: seq<Role>, pt: map<Key, Word>) {
    && Shape(ker, frames, roles)
    && RootDown(ker, frames, roles)
    && MidDown(ker, frames, roles)
    && LowDown(ker, frames, roles, pt)
    && MidUp(ker, frames, roles)
    && LowUp(ker, frames, roles)
    && PtUp(ker, frames, roles, pt)
  }

  /** The walk reaches a third-level table only through tables of the right role. */
  lemma LowAtRole(ker: Frame, frames: seq<Frame>, roles: seq<Role>, pt: map<Key, Word>, r: nat, v: Vpn)
    requires Tree(ker, frames, roles, pt)
    requires r < |frames| && roles[r] == Root && User(ker, v)
    ensures LowAt(frames, r, v) >= 0 ==> roles[LowAt(frames, r, v)] == Low(r, v.i, v.j)
    ensures LowAt(frames, r, v) < |frames|
  {
  }

  /** Walking the three levels yields exactly the recorded leaf. */
  lemma WalkIsLookup(ker: Frame, frames: seq<Frame>, roles: seq<Role>, pt: map<Key, Word>, r: nat, v: Vpn)
    requires Tree(ker, frames, roles, pt)
    requires r < |frames| && roles[r] == Root && User(ker, v)
    ensures Walk(frames, r, v) == Lookup(pt, r, v)
  {
    LowAtRole(ker, frames, roles, pt, r, v);
  }

  /** The page that hardware finds for an access of a program to v, -1 for a page fault. */
  function Translate(frames: seq<Frame>, r: nat, v: Vpn, acc: Access): int
    requires r < |frames| && InRange(v)
    requires forall f :: 0 <= f < |frames| ==> |frames[f]| == ENTRIES
  {
    var e2 := frames[r][v.i];
    if !IsPointer(e2) || !(0 <= Node(e2) < |frames|) then -1 else
    var e1 := frames[Node(e2)][v.j];
    if !IsPointer(e1) || !(0 <= Node(e1) < |frames|) then -1 else
    var e0 := frames[Node(e1)][v.k];
    if Admits(e0, acc) then Node(e0) else -1
  }

  /** Hardware reaches exactly the recorded pages, under exactly their permissions. */
  lemma TranslateIff(ker: Frame, frames: seq<Frame>, roles: seq<Role>, pt: map<Key, Word>, r: nat, v: Vpn, acc: Access)
    requires Tree(ker, frames, roles, pt)
    requires r < |frames| && roles[r] == Root && User(ker, v)
    ensures Translate(frames, r, v, acc) == if (r, v) in pt && Admits(pt[(r, v)], acc) then Node(pt[(r, v)]) else -1
  {
    LowAtRole(ker, frames, roles, pt, r, v);
    WalkIsLookup(ker, frames, roles, pt, r, v);
  }

  /** Changing pages that are no tables, before or after, keeps the forest. */
  lemma TreeStable(ker: Frame, frames: seq<Frame>, roles: seq<Role>, pt: map<Key, Word>,
                   frames': seq<Frame>, roles': seq<Role>)
    requires Tree(ker, frames, roles, pt)
    requires Shape(ker, frames', roles') && |frames'| == |frames|
    requires forall f :: 0 <= f < |frames| && (IsTable(roles[f]) || IsTable(roles'[f])) ==>
               roles'[f] == roles[f] && frames'[f] == frames[f]
    ensures Tree(ker, frames', roles', pt)
  {
    assert RootDown(ker, frames', roles');
    assert MidDown(ker, frames', roles');
    assert LowDown(ker, frames', roles', pt);
    assert MidUp(ker, frames', roles');
    assert LowUp(ker, frames', roles');
    assert PtUp(ker, frames', roles', pt);
  }

  /** The leaves after the entry of (r, v) is set to e; a zero entry is an unmapped page. */
  ghost function SetLeaf(pt: map<Key, Word>, r: nat, v: Vpn, e: Word): map<Key, Word> {
    if e == Zero then pt - {(r, v)} else pt[(r, v) := e]
  }

  lemma LowDownSet(ker: Frame, frames: seq<Frame>, roles: seq<Role>, pt: map<Key, Word>,
                   l: nat, v: Vpn, e: Word)
    requires Shape(ker, frames, roles) && LowDown(ker, frames, roles, pt) && LowUp(ker, frames, roles)
    requires l < |frames| && InRange(v) && roles[l].Low? && roles[l].i == v.i && roles[l].j == v.j
    ensures var frames' := frames[l := frames[l][v.k := e]];
            Shape(ker, frames', roles) && LowDown(ker, frames', roles, SetLeaf(pt, roles[l].root, v, e))
  {
    var frames' := frames[l := frames[l][v.k := e]];
    forall f: nat, k: nat | f < |frames| && k < ENTRIES && roles[f].Low?
      ensures frames'[f][k] == Lookup(SetLeaf(pt, roles[l].root, v, e), roles[f].root, Vpn(roles[f].i, roles[f].j, k))
    {
      assert frames[f][k] == Lookup(pt, roles[f].root, Vpn(roles[f].i, roles[f].j, k));
      assert f != l ==> roles[f] != roles[l];
    }
  }

  /** Writing entry v.k of the third-level table of (r, v) is a map update on the leaves. */
  lemma TreeSetLeaf(ker: Frame, frames: seq<Frame>, roles: seq<Role>, pt: map<Key, Word>,
                    r: nat, v: Vpn, e: Word)
    requires Tree(ker, frames, roles, pt)
    requires r < |frames| && roles[r] == Root && User(ker, v)
    requires LowAt(frames, r, v) >= 0
    ensures var l := LowAt(frames, r, v);
            Tree(ker, frames[l := frames[l][v.k := e]], roles, SetLeaf(pt, r, v, e))
  {
    LowAtRole(ker, frames, roles, pt, r, v);
    var l := LowAt(frames, r, v);
    var frames' := frames[l := frames[l][v.k := e]];
    var pt' := SetLeaf(pt, r, v, e);
    LowDownSet(ker, frames, roles, pt, l, v, e);
    assert LowDown(ker, frames', roles, pt');
    hide LowDown;
    assert forall f :: 0 <= f < |frames| && !roles[f].Low? ==> frames'[f] == frames[f];
    assert RootDown(ker, frames', roles);
    assert MidDown(ker, frames', roles);
    assert MidUp(ker, frames', roles);
    assert LowUp(ker, frames', roles);
    assert PtUp(ker, frames', roles, pt');
  }

  predicate AllZero(f: Frame) { forall i :: 0 <= i < |f| ==> f[i] == Zero }

  /** Linking a cleared page behind an empty user entry of a root table. */
  lemma TreeLinkMid(ker: Frame, frames: seq<Frame>, roles: seq<Role>, pt: map<Key, Word>,
                    r: nat, i: nat, n: nat)
    requires Tree(ker, frames, roles, pt)
    requires r < |frames| && i < ENTRIES && n < |frames| && roles[r] == Root
    requires ker[i] == Zero && frames[r][i] == Zero
    requires roles[n] == Held && AllZero(frames[n])
    ensures Tree(ker, frames[r := frames[r][i := TableEntry(n)]], roles[n := Mid(r, i)], pt)
  {
    var frames' := frames[r := frames[r][i := TableEntry(n)]];
    var roles' := roles[n := Mid(r, i)];
    assert RootDown(ker, frames', roles');
    assert MidDown(ker, frames', roles');
    assert LowDown(ker, frames', roles', pt);
    assert MidUp(ker, frames', roles');
    assert LowUp(ker, frames', roles');
    assert PtUp(ker, frames', roles', pt);
  }

  lemma NoLeafBelow(ker: Frame, frames: seq<Frame>, roles: seq<Role>, pt: map<Key, Word>, m: nat, j: nat)
    requires Shape(ker, frames, roles) && MidUp(ker, frames, roles) && PtUp(ker, frames, roles, pt)
    requires m < |frames| && j < ENTRIES && roles[m].Mid? && frames[m][j] == Zero
    ensures forall k: nat :: k < ENTRIES ==> (roles[m].root, Vpn(roles[m].i, j, k)) !in pt
  {
    forall k: nat | k < ENTRIES ensures (roles[m].root, Vpn(roles[m].i, j, k)) !in pt {
      assert LowAt(frames, roles[m].root, Vpn(roles[m].i, j, k)) < 0;
    }
  }

  /** Linking a cleared page behind an empty entry of a second-level table. */
  lemma TreeLinkLow(ker: Frame, frames: seq<Frame>, roles: seq<Role>, pt: map<Key, Word>,
                    m: nat, j: nat, n: nat)
    requires Tree(ker, frames, roles, pt)
    requires m < |frames| && j < ENTRIES && n < |frames| && roles[m].Mid?
    requires frames[m][j] == Zero
    requires roles[n] == Held && AllZero(frames[n])
    ensures Tree(ker, frames[m := frames[m][j := TableEntry(n)]],
                 roles[n := Low(roles[m].root, roles[m].i, j)], pt)
  {
    var r, i := roles[m].root, roles[m].i;
    var frames' := frames[m := frames[m][j := TableEntry(n)]];
    var roles' := roles[n := Low(r, i, j)];
    NoLeafBelow(ker, frames, roles, pt, m, j);
    assert LowDown(ker, frames', roles', pt);
    hide LowDown;
    assert RootDown(ker, frames', roles');
    assert MidDown(ker, frames', roles');
    assert MidUp(ker, frames', roles');
    assert LowUp(ker, frames', roles');
    assert PtUp(ker, frames', roles', pt);
  }

  /** A page that received a copy of the kernel root is the root of an empty address space. */
  lemma TreeNewRoot(ker: Frame, frames: seq<Frame>, roles: seq<Role>, pt: map<Key, Word>, n: nat)
    requires Tree(ker, frames, roles, pt)
    requires n < |frames| && roles[n] == Held
    ensures Tree(ker, frames[n := ker], roles[n := Root], pt)
  {
    var frames' := frames[n := ker];
    var roles' := roles[n := Root];
    assert RootDown(ker, frames', roles');
    assert MidDown(ker, frames', roles');
    assert LowDown(ker, frames', roles', pt);
    assert MidUp(ker, frames', roles');
    assert LowUp(ker, frames', roles');
    assert PtUp(ker, frames', roles', pt);
  }

  /** The table belongs to the tree of root r. */
  predicate TableOf(role: Role, self: nat, r: nat) {
    (role == Root && self == r) || (role.Mid? && role.root == r) || (role.Low? && role.root == r)
  }

  ghost function Without(pt: map<Key, Word>, r: nat): map<Key, Word> {
    map key | key in pt && key.0 != r :: pt[key]
  }

  /** Dropping all tables of one root leaves a well-formed forest of the others. */
  lemma TreeDropRoot(ker: Frame, frames: seq<Frame>, roles: seq<Role>, pt: map<Key, Word>,
                     r: nat, roles': seq<Role>)
    requires Tree(ker, frames, roles, pt)
    requires r < |frames| && roles[r] == Root
    requires |roles'| == |roles|
    requires forall f: nat :: f < |roles| ==>
               if TableOf(roles[f], f, r) then !IsTable(roles'[f])
               else if IsTable(roles[f]) then roles'[f] == roles[f]
               else !IsTable(roles'[f])
    ensures Tree(ker, frames, roles', Without(pt, r))
  {
    var pt' := Without(pt, r);
    assert RootDown(ker, frames, roles');
    assert MidDown(ker, frames, roles');
    assert LowDown(ker, frames, roles', pt');
    assert MidUp(ker, frames, roles');
    assert LowUp(ker, frames, roles');
    assert PtUp(ker, frames, roles', pt');
  }

  /** Marking a non-leaf entry as accessed. */
  lemma TreeTouch(ker: Frame, frames: seq<Frame>, roles: seq<Role>, pt: map<Key, Word>, t: nat, x: nat)
    requires Tree(ker, frames, roles, pt)
    requires t < |frames| && x < ENTRIES && frames[t][x] != Zero
    requires (roles[t] == Root && ker[x] == Zero) || roles[t].Mid?
    ensures Tree(ker, frames[t := frames[t][x := frames[t][x].(a := true)]], roles, pt)
  {
    var e := frames[t][x].(a := true);
    var frames' := frames[t := frames[t][x := e]];
    assert e != Zero && Node(e) == Node(frames[t][x]);
    assert LowDown(ker, frames', roles, pt);
    hide LowDown;
    assert RootDown(ker, frames', roles);
    assert MidDown(ker, frames', roles);
    assert MidUp(ker, frames', roles);
    assert LowUp(ker, frames', roles);
    assert PtUp(ker, frames', roles, pt);
  }
}
