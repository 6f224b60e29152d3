/**
  Cluster allocation and seeking on a FAT32 volume (kernel/utils/utils.c, include/fs/fat32.h,
  kernel/fat32/fat32.c).  The disk is the plain array of sectors that the buffer cache refines.
 */
module FatVolume {
  import opened FatTable
  import opened Chains
  import opened FatRuns
  import opened Arith

  /** From disk to d, entry c of both copies gets the value w and nothing else up to the data sectors changes. */
  ghost predicate EntrySet(b: Bpb, disk: seq<Sector>, d: seq<Sector>, c: nat, w: nat)
    requires LayoutOk(b, |disk|) && |d| == |disk| && c < Entries(b)
  {
    && d[..b.rsvdSecCnt + b.hiddSec] == disk[..b.rsvdSecCnt + b.hiddSec]
    && forall k :: 1 <= k <= 2 ==>
         && Value(EntryBytes(CopyBytes(b, d, k), c)) == w
         && OnlyEntries(CopyBytes(b, disk, k), CopyBytes(b, d, k), {c})
  }

  /** Both copies after one entry has been stored in both. */
  lemma StoreBoth(b: Bpb, disk: seq<Sector>, c: nat, w: nat)
    requires LayoutOk(b, |disk|) && c < Entries(b) && w < 0x1_0000_0000
    ensures var d := StoreEntry(b, StoreEntry(b, disk, 1, c, w), 2, c, w);
            && |d| == |disk| && d[FirstDataSec(b)..] == disk[FirstDataSec(b)..]
            && Copy(b, d, 1) == Copy(b, disk, 1)[c := w] && Copy(b, d, 2) == Copy(b, disk, 2)[c := w]
            && EntrySet(b, disk, d, c, w)
  {
    hide Copy, StoreEntry, CopyBytes;
    var d1 := StoreEntry(b, disk, 1, c, w);
    var d := StoreEntry(b, d1, 2, c, w);
    StoreBytes(b, disk, 1, c, w, 1);
    StoreBytes(b, disk, 1, c, w, 2);
    StoreBytes(b, d1, 2, c, w, 1);
    StoreBytes(b, d1, 2, c, w, 2);
    CopyValue(b, d, 1, c);
    CopyValue(b, d, 2, c);
    StoreOk(b, disk, 1, c, w, 1);
    StoreOk(b, disk, 1, c, w, 2);
    StoreOk(b, d1, 2, c, w, 1);
    StoreOk(b, d1, 2, c, w, 2);
  }

  /** Another entry keeps its bytes. */
  lemma BytesKept(b: Bpb, disk: seq<Sector>, d: seq<Sector>, e: nat, c: nat)
    requires LayoutOk(b, |disk|) && |d| == |disk| && c < Entries(b) && e < Entries(b) && e != c
    requires forall k :: 1 <= k <= 2 ==> OnlyEntries(CopyBytes(b, disk, k), CopyBytes(b, d, k), {c})
    ensures forall k :: 1 <= k <= 2 ==> EntryBytes(CopyBytes(b, d, k), e) == EntryBytes(CopyBytes(b, disk, k), e)
  {
    hide CopyBytes;
    forall k | 1 <= k <= 2 ensures EntryBytes(CopyBytes(b, d, k), e) == EntryBytes(CopyBytes(b, disk, k), e) {
      assert OnlyEntries(CopyBytes(b, disk, k), CopyBytes(b, d, k), {c});
    }
  }

  lemma {:induction false} FlatWord(disk: seq<Sector>, sec: nat, count: nat, i: nat)
    requires sec + count <= |disk| && i < count * PER_SECTOR
    ensures Word(Flat(disk, sec, count), i * 4) == EntryAt(disk, sec, i)
  {
    if i < (count - 1) * PER_SECTOR {
      FlatWord(disk, sec, count - 1, i);
    } else {
      assert i / PER_SECTOR == count - 1;
    }
  }

  lemma ScanStarts(b: Bpb, sectors: nat)
    requires LayoutOk(b, sectors)
    ensures FirstDataSec(b) - 2 * b.fatSz == FatStart(b, 1) < sectors
    ensures FirstDataSec(b) - b.fatSz == FatStart(b, 2)
    ensures FatStart(b, 2) + Entries(b) / PER_SECTOR + b.secPerClus <= sectors && Entries(b) > 0
  {
    ScanStart(b);
  }

  /** Word number f from sector `start` on is zero, and it and `more` sectors from its own on are on the disk. */
  ghost predicate EmptyWord(disk: seq<Sector>, start: nat, f: nat, more: nat) {
    start + f / PER_SECTOR + more <= |disk| && start + f / PER_SECTOR < |disk| && EntryAt(disk, start, f) == 0
  }

  ghost predicate FirstEmpty(disk: seq<Sector>, start: nat, c: nat) {
    EmptyWord(disk, start, c, 1) && forall d :: 0 <= d < c ==> !EmptyWord(disk, start, d, 1)
  }

  ghost predicate SomeEmpty(disk: seq<Sector>, start: nat, more: nat) {
    exists f: nat :: EmptyWord(disk, start, f, more)
  }

  /** A volume with a free cluster has an empty word for each of the scans to find. */
  lemma FreeIsEmpty(b: Bpb, disk: seq<Sector>, copy: nat)
    requires LayoutOk(b, |disk|) && 1 <= copy <= 2 && SomeFree(Copy(b, disk, copy))
    ensures SomeEmpty(disk, FatStart(b, copy), 1) && (copy == 2 ==> SomeEmpty(disk, FatStart(b, copy), ReadMaxSec(b)))
  {
    var f: nat :| IsFree(Copy(b, disk, copy), f);
    EntryWord(b, disk, copy, f);
    CopyInside(b, copy, f);
    assert EmptyWord(disk, FatStart(b, copy), f, 1);
    if copy == 2 { assert EmptyWord(disk, FatStart(b, copy), f, ReadMaxSec(b)); }
  }

  /** The first empty word is the lowest free cluster iff there is a free cluster; else it is past the table. */
  lemma FirstEmptyFree(b: Bpb, disk: seq<Sector>, copy: nat, c: nat)
    requires LayoutOk(b, |disk|) && 1 <= copy <= 2 && FirstEmpty(disk, FatStart(b, copy), c)
    ensures IsLowestFree(Copy(b, disk, copy), c) <==> SomeFree(Copy(b, disk, copy))
    ensures c < Entries(b) <==> SomeFree(Copy(b, disk, copy))
  {
    var t, start := Copy(b, disk, copy), FatStart(b, copy);
    forall d: nat | d < Entries(b) ensures t[d] == 0 <==> EmptyWord(disk, start, d, 1) {
      EntryWord(b, disk, copy, d);
    }
    hide Copy;
    if SomeFree(t) {
      var f: nat :| IsFree(t, f);
      assert EmptyWord(disk, start, f, 1);
      assert c <= f;
    }
  }

  /** Entry e of a copy, as sector and offset. */
  lemma EntryWord(b: Bpb, disk: seq<Sector>, copy: nat, e: nat)
    requires LayoutOk(b, |disk|) && 1 <= copy <= 2 && e < Entries(b)
    ensures FatStart(b, copy) + e / PER_SECTOR < |disk|
    ensures Copy(b, disk, copy)[e] == Word(disk[FatStart(b, copy) + e / PER_SECTOR], e % PER_SECTOR * 4)
  {
    CopyInside(b, copy, e);
  }

  /** The byte index of entry e of a table, as sector and offset. */
  lemma ByteIndex(e: nat)
    ensures e * 4 / SECTOR_SIZE == e / PER_SECTOR && e * 4 % SECTOR_SIZE == e % PER_SECTOR * 4
    ensures e > 0 ==> e / PER_SECTOR == (e - 1) / PER_SECTOR + if e * 4 % SECTOR_SIZE == 0 then 1 else 0
  {
  }

  /** The inner loop of search_empty_cluster. */
  method FourZeros(buf: Sector, off: nat) returns (empty: bool)
    requires off + 4 <= SECTOR_SIZE
    ensures empty <==> Word(buf, off) == 0
  {
    var i := 0;
    while i < 4 && buf[i + off] == 0
      invariant i <= 4 && forall k :: off <= k < i + off ==> buf[k] == 0
    {
      i := i + 1;
    }
    empty := i == 4;
  }

  /** READ_MAX_SEC: a page or a cluster, whichever is smaller. */
  function ReadMaxSec(b: Bpb): (m: nat)
    ensures m == if b.secPerClus < 8 then b.secPerClus else 8
  {
    (if PAGE_SIZE < b.secPerClus * SECTOR_SIZE then PAGE_SIZE else b.secPerClus * SECTOR_SIZE) / SECTOR_SIZE
  }

  lemma ChunkWord(disk: seq<Sector>, start: nat, nowSec: nat, k: nat)
    requires start <= nowSec && nowSec + k / PER_SECTOR < |disk|
    ensures (nowSec - start) * PER_SECTOR + k >= 0
    ensures start + ((nowSec - start) * PER_SECTOR + k) / PER_SECTOR < |disk|
    ensures EntryAt(disk, nowSec, k) == EntryAt(disk, start, (nowSec - start) * PER_SECTOR + k)
  {
  }

  /** The inner loop of find_entry_clus: the first empty word of `count` sectors, or their end. */
  method ScanBuffer(disk: seq<Sector>, sec: nat, count: nat) returns (i: nat)
    requires sec + count <= |disk|
    ensures i <= count * PER_SECTOR && forall k :: 0 <= k < i ==> EntryAt(disk, sec, k) != 0
    ensures i < count * PER_SECTOR ==> EntryAt(disk, sec, i) == 0
  {
    hide Word, Flat;
    var buf := Flat(disk, sec, count);
    i := 0;
    while i < count * PER_SECTOR
      invariant i <= count * PER_SECTOR && forall k :: 0 <= k < i ==> EntryAt(disk, sec, k) != 0
    {
      FlatWord(disk, sec, count, i);
      if Word(buf, i * 4) == 0 { break; }
      i := i + 1;
    }
  }

  /** One buffer of the scan, when word f is empty and all words before the buffer are not. */
  lemma ChunkScanned(disk: seq<Sector>, start: nat, nowSec: nat, count: nat, i: nat, f: nat)
    requires start <= nowSec && nowSec + count <= |disk| && i <= count * PER_SECTOR
    requires forall k :: 0 <= k < i ==> EntryAt(disk, nowSec, k) != 0
    requires i < count * PER_SECTOR ==> EntryAt(disk, nowSec, i) == 0
    requires forall d :: 0 <= d < (nowSec - start) * PER_SECTOR ==> !EmptyWord(disk, start, d, 1)
    requires EmptyWord(disk, start, f, 1)
    ensures (nowSec - start) * PER_SECTOR + i <= f
    ensures forall d :: 0 <= d < (nowSec - start) * PER_SECTOR + i ==> !EmptyWord(disk, start, d, 1)
    ensures i < count * PER_SECTOR ==> EmptyWord(disk, start, (nowSec - start) * PER_SECTOR + i, 1)
  {
    hide EntryAt;
    var base := (nowSec - start) * PER_SECTOR;
    forall d | base <= d < base + i ensures !EmptyWord(disk, start, d, 1) {
      ChunkWord(disk, start, nowSec, d - base);
    }
    if i < count * PER_SECTOR { ChunkWord(disk, start, nowSec, i); }
    assert f >= base + i;
  }

  /** What the table says about cluster k of a chain. */
  lemma ChainEntry(t: seq<nat>, ch: seq<nat>, k: nat)
    requires |t| <= EOC && IsChain(t, ch) && k < |ch|
    ensures 2 <= ch[k] < |t| && t[ch[k]] == if k + 1 < |ch| then ch[k + 1] else EOC
    ensures t[ch[k]] == EOC <==> k + 1 == |ch|
  {
  }

  lemma ChainsHaveEnds(t: seq<nat>, chains: seq<seq<nat>>, f: nat)
    requires Files(t, chains) && f < |chains|
    ensures chains[f] != [] && 2 <= chains[f][|chains[f]| - 1] < |t|
  {
    assert IsChain(t, chains[f]);
  }

  /** first_sec_of_clus */
  function FirstSecOfClus(b: Bpb, c: nat): nat
    requires c >= 2
  {
    (c - 2) * b.secPerClus + FirstDataSec(b)
  }

  /** CLUSTER_SIZE */
  function ClusterSize(b: Bpb): nat { b.secPerClus * SECTOR_SIZE }

  /** The cluster of a file that holds byte pos, and the sector in that cluster. */
  function ClusterIndex(b: Bpb, pos: nat): nat
    requires b.secPerClus > 0
  {
    pos / ClusterSize(b)
  }

  function SectorIndex(b: Bpb, pos: nat): nat
    requires b.secPerClus > 0
  {
    pos % ClusterSize(b) / SECTOR_SIZE
  }

  /** The divisions of the code, by sectors and then by sectors per cluster. */
  lemma SplitPos(b: Bpb, pos: nat)
    requires b.secPerClus > 0
    ensures pos / SECTOR_SIZE / b.secPerClus == ClusterIndex(b, pos)
    ensures pos / SECTOR_SIZE % b.secPerClus == SectorIndex(b, pos) < b.secPerClus
  {
    var s, n := pos / SECTOR_SIZE, b.secPerClus;
    var q, r := s / n, s % n;
    assert pos == (q * n + r) * SECTOR_SIZE + pos % SECTOR_SIZE;
    assert q * (n * SECTOR_SIZE) == q * n * SECTOR_SIZE;
    DivUnique(pos, n * SECTOR_SIZE, q, r * SECTOR_SIZE + pos % SECTOR_SIZE);
    assert (r * SECTOR_SIZE + pos % SECTOR_SIZE) / SECTOR_SIZE == r;
  }

  /** Together they are the sector of the file that holds the position. */
  lemma PosParts(b: Bpb, pos: nat)
    requires b.secPerClus > 0
    ensures ClusterIndex(b, pos) * b.secPerClus + SectorIndex(b, pos) == pos / 512 && SectorIndex(b, pos) < b.secPerClus
  {
    SplitPos(b, pos);
  }

  /** A position below a length that the clusters of the file can hold is inside the chain. */
  lemma PosInside(b: Bpb, pos: nat, length: nat, clusters: nat)
    requires b.secPerClus > 0 && pos < length <= clusters * ClusterSize(b)
    ensures ClusterIndex(b, pos) < clusters
  {
    var m := ClusterSize(b);
    var k := pos / m;
    assert pos >= k * m;
    if k >= clusters {
      MulMono(clusters, k, m);
    }
  }

  /** clus_of_sec and sec_to_clus undo first_sec_of_clus, so no two clusters share a sector. */
  lemma SectorOwner(b: Bpb, c: nat, i: nat)
    requires c >= 2 && i < b.secPerClus
    ensures (FirstSecOfClus(b, c) + i - FirstDataSec(b)) / b.secPerClus + 2 == c
  {
    DivUnique((c - 2) * b.secPerClus + i, b.secPerClus, c - 2, i);
  }

  const EOC_MIN: nat := 0x0FFFFFF8      // the lowest end mark of FAT32

  /** A chain with the end mark `mark`. */
  ghost predicate EndsIn(t: seq<nat>, ch: seq<nat>, mark: nat) {
    && ch != [] && t != []
    && (forall i :: 0 <= i < |ch| ==> 2 <= ch[i] < |t|)
    && (forall i :: 0 <= i < |ch| - 1 ==> t[ch[i]] == ch[i + 1])
    && t[ch[|ch| - 1]] == mark
  }

  class Volume {
    const b: Bpb
    var disk: seq<Sector>
    ghost var chains: seq<seq<nat>>
    ghost var plans: map<nat, nat>    // the clusters that tasks have found free and not yet taken

    /** Both copies of the table agree and entries 0 and 1 are reserved, whatever the files look like. */
    ghost predicate Mirrored()
      reads this
    {
      LayoutOk(b, |disk|) && Copy(b, disk, 1) == Copy(b, disk, 2) && Sane(View())
    }

    /** And the files are sound. */
    ghost predicate Valid()
      reads this
    {
      Mirrored() && FatOk(View())
    }

    /** Mounting a volume that is in order. */
    constructor (b: Bpb, disk: seq<Sector>, ghost chains: seq<seq<nat>>)
      requires LayoutOk(b, |disk|) && Copy(b, disk, 1) == Copy(b, disk, 2) && FatOk(Fat(Copy(b, disk, 1), chains, map[]))
      ensures Valid() && this.b == b && this.disk == disk && this.chains == chains && plans == map[]
    {
      this.b, this.disk, this.chains, this.plans := b, disk, chains, map[];
    }

    ghost function T(): seq<nat>
      requires LayoutOk(b, |disk|)
      reads this
    {
      Copy(b, disk, 1)
    }

    ghost function View(): Fat
      requires LayoutOk(b, |disk|)
      reads this
    {
      Fat(T(), chains, plans)
    }

    /** The data sectors of the volume. */
    ghost function DataSectors(): seq<Sector>
      requires LayoutOk(b, |disk|)
      reads this
    {
      disk[FirstDataSec(b)..]
    }

    /** One read-modify-write of a table sector. */
    method Store(copy: nat, c: nat, w: nat)
      requires LayoutOk(b, |disk|) && 1 <= copy <= 2 && c < Entries(b)
      modifies this`disk
      ensures disk == StoreEntry(b, old(disk), copy, c, w)
    {
      CopyInside(b, copy, c);
      var sec := FatSec(b, c, copy);
      var buff: Sector := SetWord(disk[sec], FatOffset(c), w);
      disk := disk[sec := buff];
    }

    /** write_fat_table */
    method WriteFatTable(oldClus: nat, newClus: nat)
      requires LayoutOk(b, |disk|) && oldClus < Entries(b) && newClus < Entries(b)
      modifies this`disk
      ensures var op := if oldClus != 0 then oldClus else newClus; var w := if oldClus != 0 then newClus else EOC;
              && |disk| == old(|disk|) && disk[FirstDataSec(b)..] == old(disk[FirstDataSec(b)..])
              && Copy(b, disk, 1) == old(Copy(b, disk, 1))[op := w] && Copy(b, disk, 2) == old(Copy(b, disk, 2))[op := w]
              && EntrySet(b, old(disk), disk, op, w)
    {
      var op := if oldClus != 0 then oldClus else newClus;
      hide Copy, EntrySet;
      var w := if oldClus != 0 then newClus % 0x1000_0000 else EOC;
      StoreBoth(b, disk, op, w);
      Store(1, op, w);
      Store(2, op, w);
    }

    /** write_fat_table_p */
    method WriteFatTableP(oldClus: nat, newClus: nat)
      requires LayoutOk(b, |disk|) && oldClus < Entries(b) && newClus < Entries(b)
      modifies this`disk
      ensures |disk| == old(|disk|) && disk[FirstDataSec(b)..] == old(disk[FirstDataSec(b)..])
      ensures forall k :: 1 <= k <= 2 ==> Copy(b, disk, k) == Linked(old(Copy(b, disk, k)), oldClus, newClus)
      ensures disk[..b.rsvdSecCnt + b.hiddSec] == old(disk[..b.rsvdSecCnt + b.hiddSec])
      ensures forall k :: 1 <= k <= 2 ==>
                var f := CopyBytes(b, disk, k);
                && Value(EntryBytes(f, newClus)) == EOC
                && (oldClus != 0 && oldClus != newClus ==> Value(EntryBytes(f, oldClus)) == newClus)
                && OnlyEntries(old(CopyBytes(b, disk, k)), f, if oldClus == 0 then {newClus} else {oldClus, newClus})
    {
      hide Copy, CopyBytes;
      ghost var d0 := disk;
      if oldClus != 0 {
        StoreBoth(b, disk, oldClus, newClus);
        Store(1, oldClus, newClus);
        Store(2, oldClus, newClus);
      }
      ghost var d1 := disk;
      StoreBoth(b, disk, newClus, EOC);
      Store(1, newClus, EOC);
      Store(2, newClus, EOC);
      if oldClus != 0 && oldClus != newClus { BytesKept(b, d1, disk, oldClus, newClus); }
    }

    /** next_cluster */
    method NextCluster(c: nat) returns (next: nat)
      requires LayoutOk(b, |disk|) && c < Entries(b)
      ensures next == T()[c] == Value(EntryBytes(Flat(disk, b.rsvdSecCnt + b.hiddSec, b.fatSz), c))
    {
      CopyInside(b, 1, c);
      CopyValue(b, disk, 1, c);
      next := Word(disk[FatSec(b, c, 1)], FatOffset(c));
    }

    /**
      The scan of search_empty_cluster: byte by byte from the start of copy 1, with no regard to
      where the copy ends.
     */
    method ScanCopyOne() returns (c: nat)
      requires LayoutOk(b, |disk|) && SomeEmpty(disk, FatStart(b, 1), 1)
      ensures FirstEmpty(disk, FatStart(b, 1), c)
      ensures IsLowestFree(T(), c) <==> SomeFree(T())
      ensures c < Entries(b) <==> SomeFree(T())
    {
      hide Word, Copy, LayoutOk, FatStart, FirstDataSec, Entries;
      ScanStarts(b, |disk|);
      ghost var start := FatStart(b, 1);
      ghost var e: nat := 0;
      ghost var f: nat :| EmptyWord(disk, start, f, 1);
      var nowSec := FirstDataSec(b) - 2 * b.fatSz;
      var buf := disk[nowSec];
      var j := 0;
      while true
        invariant j == 4 * e && e <= f && nowSec == start + e / PER_SECTOR < |disk| && buf == disk[nowSec]
        invariant forall d :: 0 <= d < e ==> !EmptyWord(disk, start, d, 1)
        decreases f - e
      {
        ByteIndex(e);
        var empty := FourZeros(buf, j % SECTOR_SIZE);
        assert empty <==> EmptyWord(disk, start, e, 1);
        if empty { break; }
        j := j + 4;
        e := e + 1;
        ByteIndex(e);
        if j % SECTOR_SIZE == 0 {
          nowSec := nowSec + 1;
          buf := disk[nowSec];
        }
      }
      c := j / 4;
      FirstEmptyFree(b, disk, 1, c);
    }

    /**
      find_entry_clus: word by word, a buffer of sectors at a time, from the start of copy 2, with
      no regard to where the copy ends.
     */
    method FindEntryClus() returns (c: nat)
      requires LayoutOk(b, |disk|) && SomeEmpty(disk, FatStart(b, 2), ReadMaxSec(b))
      ensures FirstEmpty(disk, FatStart(b, 2), c)
      ensures IsLowestFree(Copy(b, disk, 2), c) <==> SomeFree(Copy(b, disk, 2))
      ensures c < Entries(b) <==> SomeFree(Copy(b, disk, 2))
    {
      ScanStarts(b, |disk|);
      var max := ReadMaxSec(b);
      hide Word, Copy, LayoutOk, FatStart, FirstDataSec, Entries, Flat, EntryAt;
      ghost var start := FatStart(b, 2);
      ghost var f: nat :| EmptyWord(disk, start, f, max);
      var nowSec := FirstDataSec(b) - b.fatSz;
      c := 0;
      while true
        invariant start <= nowSec && c == (nowSec - start) * PER_SECTOR <= f
        invariant forall d :: 0 <= d < c ==> !EmptyWord(disk, start, d, 1)
        decreases f - c
      {
        assert nowSec <= start + f / PER_SECTOR;
        var i := ScanBuffer(disk, nowSec, max);
        ChunkScanned(disk, start, nowSec, max, i, f);
        c := c + i;
        if i == max * PER_SECTOR {
          nowSec := nowSec + max;
        } else {
          break;
        }
      }
      FirstEmptyFree(b, disk, 2, c);
    }

    /** The two scanners look at different copies in different ways and choose the same cluster. */
    method ScanBoth() returns (c: nat, d: nat)
      requires Mirrored() && SomeFree(T())
      ensures c == d && IsLowestFree(T(), c)
    {
      FreeIsEmpty(b, disk, 1);
      FreeIsEmpty(b, disk, 2);
      c := ScanCopyOne();
      d := FindEntryClus();
      LowestFreeUnique(T(), c, d);
    }

    /** Task p looks for a free cluster, with either scanner. */
    method ScanFor(ghost p: nat, second: bool) returns (c: nat)
      requires Mirrored() && SomeFree(T())
      modifies this`plans
      ensures Mirrored() && View() == Next(old(View()), Scan(p, c)) && p in plans && plans[p] == c && IsLowestFree(T(), c)
    {
      FreeIsEmpty(b, disk, 1);
      FreeIsEmpty(b, disk, 2);
      hide Copy, SomeEmpty, FirstEmpty, SomeFree, LayoutOk, Files;
      if second {
        c := FindEntryClus();
      } else {
        c := ScanCopyOne();
      }
      plans := plans[p := c];
    }

    /** write_fat_table(0, c) for the cluster of task p, as a file of its own or to be linked later. */
    method Mark(c: nat, ghost p: nat, ghost own: bool)
      requires Mirrored() && p in plans && plans[p] == c
      modifies this
      ensures Mirrored() && |disk| == old(|disk|) && DataSectors() == old(DataSectors())
      ensures View() == Next(old(View()), if own then NewFile(p) else Reserve(p))
      ensures old(Valid()) ==> (Valid() <==> Kept(old(View()), if own then NewFile(p) else Reserve(p)))
      ensures T() == old(T())[c := EOC] && chains == old(chains) + if own then [[c]] else []
    {
      ghost var s, op := View(), if own then NewFile(p) else Reserve(p);
      if FatOk(s) { StepIff(s, op); }
      hide Copy, Files, Kept, Sane;
      PlanInside(p);
      WriteFatTable(0, c);
      if own {
        chains, plans := chains + [[c]], plans - {p};
      }
      assert View() == Next(s, op);
    }

    /** The cluster of a plan is an entry of the table. */
    lemma PlanInside(p: nat)
      requires Mirrored() && p in plans
      ensures 2 <= plans[p] < Entries(b) && Entries(b) > 0
    {
    }

    /** write_fat_table_p(0, c) for the cluster of task p. */
    method MarkNew(c: nat, ghost p: nat)
      requires Mirrored() && p in plans && plans[p] == c
      modifies this
      ensures Mirrored() && |disk| == old(|disk|) && DataSectors() == old(DataSectors())
      ensures View() == Next(old(View()), NewFile(p))
      ensures old(Valid()) ==> (Valid() <==> Kept(old(View()), NewFile(p)))
      ensures T() == old(T())[c := EOC] && chains == old(chains) + [[c]] && plans == old(plans) - {p}
    {
      ghost var s := View();
      if FatOk(s) { StepIff(s, NewFile(p)); }
      hide Copy, Files, Kept, Sane;
      PlanInside(p);
      WriteFatTableP(0, c);
      chains, plans := chains + [[c]], plans - {p};
      assert View() == Next(s, NewFile(p));
    }

    /** write_fat_table_p(last, c) for the cluster of task p, which extends file f. */
    method AppendTo(last: nat, c: nat, ghost p: nat, ghost f: nat)
      requires Mirrored() && p in plans && plans[p] == c && f < |chains| && 2 <= last < Entries(b)
      modifies this
      ensures Mirrored() && |disk| == old(|disk|) && DataSectors() == old(DataSectors())
      ensures View() == Next(old(View()), Append(p, f, last))
      ensures old(Valid()) ==> (Valid() <==> Kept(old(View()), Append(p, f, last)))
      ensures T() == old(T())[last := c][c := EOC] && chains == old(chains[f := chains[f] + [c]]) && plans == old(plans) - {p}
    {
      ghost var s := View();
      if FatOk(s) { StepIff(s, Append(p, f, last)); }
      hide Copy, Files, Kept, Sane;
      PlanInside(p);
      WriteFatTableP(last, c);
      chains, plans := chains[f := chains[f] + [c]], plans - {p};
      assert View() == Next(s, Append(p, f, last));
    }

    /** write_fat_table(last, c) for the reserved cluster of task p, which extends file f. */
    method AttachTo(last: nat, c: nat, ghost p: nat, ghost f: nat)
      requires Mirrored() && p in plans && plans[p] == c && f < |chains| && 2 <= last < Entries(b)
      modifies this
      ensures Mirrored() && |disk| == old(|disk|) && DataSectors() == old(DataSectors())
      ensures View() == Next(old(View()), Attach(p, f, last))
      ensures old(Valid()) ==> (Valid() <==> Kept(old(View()), Attach(p, f, last)))
      ensures T() == old(T())[last := c] && chains == old(chains[f := chains[f] + [c]]) && plans == old(plans) - {p}
    {
      ghost var s := View();
      if FatOk(s) { StepIff(s, Attach(p, f, last)); }
      hide Copy, Files, Kept, Sane;
      PlanInside(p);
      WriteFatTable(last, c);
      chains, plans := chains[f := chains[f] + [c]], plans - {p};
      assert View() == Next(s, Attach(p, f, last));
    }

    /** search_empty_cluster without a sleep: the lowest free cluster becomes a file of its own, or is reserved. */
    method SearchEmptyCluster(ghost p: nat, ghost own: bool) returns (c: nat)
      requires Valid() && SomeFree(T())
      modifies this
      ensures Valid() && |disk| == old(|disk|) && DataSectors() == old(DataSectors())
      ensures IsLowestFree(old(T()), c) && T() == old(T())[c := EOC] && InNoChain(old(chains), c)
      ensures own ==> chains == old(chains) + [[c]]
      ensures !own ==> chains == old(chains) && p in plans && plans[p] == c
      ensures View() == Next(Next(old(View()), Scan(p, c)), if own then NewFile(p) else Reserve(p))
    {
      c := ScanFor(p, false);
      FreeInNoChain(T(), chains, c);
      hide Copy, Files;
      Mark(c, p, own);
    }

    /** The allocation of create_new without a sleep. */
    method CreateNew(ghost p: nat) returns (c: nat)
      requires Valid() && SomeFree(T())
      modifies this
      ensures Valid() && |disk| == old(|disk|) && DataSectors() == old(DataSectors())
      ensures IsLowestFree(old(T()), c) && T() == old(T())[c := EOC] && chains == old(chains) + [[c]]
      ensures View() == Next(Next(old(View()), Scan(p, c)), NewFile(p))
    {
      c := ScanFor(p, true);
      FreeInNoChain(T(), chains, c);
      hide Copy, Files;
      MarkNew(c, p);
    }

    /** The allocation of fat32_write: search_empty_cluster, write_fat_table, next_cluster. */
    method Extend(cur: nat, ghost p: nat, ghost f: nat) returns (next: nat)
      requires Valid() && f < |chains| && IsLast(chains[f], cur) && SomeFree(T())
      modifies this
      ensures Valid() && |disk| == old(|disk|) && DataSectors() == old(DataSectors())
      ensures IsLowestFree(old(T()), next) && chains == old(chains[f := chains[f] + [next]])
      ensures View() == Next(Next(Next(old(View()), Scan(p, next)), Reserve(p)), Attach(p, f, cur))
    {
      ChainsHaveEnds(T(), chains, f);
      hide Copy, Files, Value, EntryBytes, Flat, Next;
      var c := SearchEmptyCluster(p, false);
      AttachTo(cur, c, p, f);
      next := NextCluster(cur);
      assert next == c;
    }

    /**
      The step of fat32_write to the next cluster of file f, from its cluster number k, without a sleep:
      past the end the lowest free cluster is allocated and linked.
     */
    method NextForWrite(cur: nat, ghost p: nat, ghost f: nat, ghost k: nat) returns (next: nat)
      requires Valid() && f < |chains| && k < |chains[f]| && chains[f][k] == cur
      requires k + 1 == |chains[f]| ==> SomeFree(T())
      modifies this
      ensures Valid() && |disk| == old(|disk|) && DataSectors() == old(DataSectors())
      ensures k + 1 < old(|chains[f]|) ==> unchanged(this) && next == chains[f][k + 1]
      ensures k + 1 == old(|chains[f]|) ==> IsLowestFree(old(T()), next) && chains == old(chains[f := chains[f] + [next]])
      ensures k + 1 == old(|chains[f]|) ==>
                View() == Next(Next(Next(old(View()), Scan(p, next)), Reserve(p)), Attach(p, f, cur))
    {
      ChainEntry(T(), chains[f], k);
      hide Copy, Value, EntryBytes, Flat;
      next := NextCluster(cur);
      if next == EOC {
        next := Extend(cur, p, f);
      }
    }

    /** Directory growth without a sleep: find_entry_clus, then write_fat_table_p behind the last cluster of chain f. */
    method GrowDirectory(last: nat, ghost p: nat, ghost f: nat) returns (c: nat)
      requires Valid() && f < |chains| && IsLast(chains[f], last) && SomeFree(T())
      modifies this
      ensures Valid() && |disk| == old(|disk|) && DataSectors() == old(DataSectors())
      ensures IsLowestFree(old(T()), c) && chains == old(chains[f := chains[f] + [c]])
      ensures View() == Next(Next(old(View()), Scan(p, c)), Append(p, f, last))
    {
      ChainsHaveEnds(T(), chains, f);
      c := ScanFor(p, true);
      FreeInNoChain(T(), chains, c);
      hide Copy, Files;
      AppendTo(last, c, p, f);
    }

    /**
      The test of fat32_write for the end of a chain, on a chain that ends in any of the marks of FAT32.
      It allocates exactly when the mark is M_FAT32_EOC, and otherwise goes on to a cluster past the table.
     */
    method AtChainEnd(cur: nat, ghost ch: seq<nat>, ghost mark: nat) returns (allocate: bool, next: nat)
      requires LayoutOk(b, |disk|) && EndsIn(T(), ch, mark) && IsLast(ch, cur)
      requires EOC_MIN <= mark <= EOC && Entries(b) <= EOC_MIN
      ensures allocate <==> mark == EOC
      ensures allocate <==> IsChain(T(), ch)
      ensures !allocate ==> next == mark >= |T()|
    {
      next := NextCluster(cur);
      allocate := next == EOC;
    }

    /** update_fd_from_pos, for a position inside the clusters of file f. */
    method UpdateFdFromPos(first: nat, pos: nat, ghost f: nat) returns (curClus: nat, curSec: nat)
      requires Valid() && f < |chains| && ClusterIndex(b, pos) < |chains[f]| && first == chains[f][0]
      ensures curClus == chains[f][ClusterIndex(b, pos)] && curClus >= 2
      ensures curSec == FirstSecOfClus(b, curClus) + SectorIndex(b, pos)
    {
      hide Copy, ClusterIndex, SectorIndex, IsChain, FirstDataSec;
      ghost var ch := chains[f];
      SplitPos(b, pos);
      var sectorOffset := pos / SECTOR_SIZE;
      curClus := first;
      for i := 0 to sectorOffset / b.secPerClus
        invariant curClus == ch[i]
      {
        ChainEntry(T(), ch, i);
        curClus := NextCluster(curClus);
      }
      ChainEntry(T(), ch, ClusterIndex(b, pos));
      curSec := FirstSecOfClus(b, curClus) + sectorOffset % b.secPerClus;
    }
  }
}
