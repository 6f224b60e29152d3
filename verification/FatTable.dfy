/**
  The FAT32 volume layout and the two copies of the file allocation table (include/fs/fat32.h,
  the layout arithmetic of fat32_init in kernel/fat32/fat32.c), as values.
 */
module FatTable {

  const SECTOR_SIZE: nat := 512
  const PER_SECTOR: nat := 128          // table entries in a sector
  const EOC: nat := 0x0FFFFFFF          // M_FAT32_EOC, CLUSER_END, FAT_MASK
  const PAGE_SIZE: nat := 4096

  type Byte = x: int | 0 <= x < 256

  type Sector = s: seq<Byte> | |s| == SECTOR_SIZE witness seq(SECTOR_SIZE, i => 0)

  /** The part of the BIOS parameter block the kernel uses; sectors are 512 bytes. */
  datatype Bpb = Bpb(secPerClus: nat, rsvdSecCnt: nat, fatCnt: nat, hiddSec: nat, fatSz: nat)

  /** first_data_sec */
  function FirstDataSec(b: Bpb): nat { b.rsvdSecCnt + b.hiddSec + b.fatCnt * b.fatSz }

  /** Where copy 1 or 2 of the table starts. */
  function FatStart(b: Bpb, copy: nat): nat
    requires copy > 0
  {
    b.rsvdSecCnt + b.hiddSec + b.fatSz * (copy - 1)
  }

  /** fat_sec_of_clus */
  function FatSec(b: Bpb, c: nat, copy: nat): nat
    requires copy > 0
  {
    b.rsvdSecCnt + b.hiddSec + c * 4 / SECTOR_SIZE + b.fatSz * (copy - 1)
  }

  /** fat_offset_of_clus */
  function FatOffset(c: nat): nat { c * 4 % SECTOR_SIZE }

  function Entries(b: Bpb): nat { b.fatSz * PER_SECTOR }

  /** A FAT32 volume with two tables whose entries fit the 28-bit numbers, and at least one cluster. */
  ghost predicate LayoutOk(b: Bpb, sectors: nat) {
    && b.fatCnt == 2 && b.secPerClus > 0 && b.fatSz > 0 && Entries(b) <= EOC
    && FirstDataSec(b) + b.secPerClus <= sectors
  }

  /** The scans start at first_data_sec minus whole tables: that is copy 1, and copy 2, only with two tables. */
  lemma ScanStart(b: Bpb)
    requires b.fatSz > 0
    ensures FirstDataSec(b) - 2 * b.fatSz == FatStart(b, 1) <==> b.fatCnt == 2
    ensures FirstDataSec(b) - b.fatSz == FatStart(b, 2) <==> b.fatCnt == 2
  {
    if b.fatCnt > 2 {
      assert b.fatCnt * b.fatSz == 2 * b.fatSz + (b.fatCnt - 2) * b.fatSz;
      assert (b.fatCnt - 2) * b.fatSz > 0;
    }
  }

  // ----- Little-endian words

  /** The number that a byte string stands for, lowest byte first. */
  function Value(s: seq<Byte>): nat {
    if s == [] then 0 else s[0] as int + 0x100 * Value(s[1..])
  }

  lemma WordValue(s: seq<Byte>, off: nat)
    requires off + 4 <= |s|
    ensures Word(s, off) == Value(s[off..off + 4])
  {
    var q := s[off..off + 4];
    assert q[1..][1..] == q[2..] && q[2..][1..] == q[3..] && q[3..][1..] == [];
    assert Value(q[3..]) == s[off + 3] as int;
    assert Value(q[2..]) == s[off + 2] as int + 0x100 * Value(q[3..]);
    assert Value(q[1..]) == s[off + 1] as int + 0x100 * Value(q[2..]);
  }

  function Word(s: seq<Byte>, off: nat): (w: nat)
    requires off + 4 <= |s|
    ensures w < 0x1_0000_0000
  {
    s[off] as int + s[off + 1] as int * 0x100 + s[off + 2] as int * 0x1_0000 + s[off + 3] as int * 0x100_0000
  }

  function SetWord(s: seq<Byte>, off: nat, w: nat): (t: seq<Byte>)
    requires off + 4 <= |s|
    ensures |t| == |s|
  {
    s[off := w % 0x100][off + 1 := w / 0x100 % 0x100][off + 2 := w / 0x1_0000 % 0x100][off + 3 := w / 0x100_0000 % 0x100]
  }

  lemma WordBytes(w: nat)
    requires w < 0x1_0000_0000
    ensures w % 0x100 + w / 0x100 % 0x100 * 0x100 + w / 0x1_0000 % 0x100 * 0x1_0000 + w / 0x100_0000 % 0x100 * 0x100_0000 == w
  {
  }

  lemma WordSet(s: seq<Byte>, off: nat, w: nat, at: nat)
    requires off + 4 <= |s| && at + 4 <= |s| && off % 4 == 0 && at % 4 == 0 && w < 0x1_0000_0000
    ensures Word(SetWord(s, off, w), at) == if at == off then w else Word(s, at)
  {
    if at == off {
      WordBytes(w);
    }
  }

  /** `count` sectors read into one buffer. */
  function Flat(disk: seq<Sector>, sec: nat, count: nat): (buf: seq<Byte>)
    requires sec + count <= |disk|
    ensures |buf| == count * SECTOR_SIZE
  {
    if count == 0 then [] else Flat(disk, sec, count - 1) + disk[sec + count - 1]
  }

  lemma {:induction false} FlatByte(disk: seq<Sector>, sec: nat, count: nat, n: nat)
    requires sec + count <= |disk| && n < count * SECTOR_SIZE
    ensures Flat(disk, sec, count)[n] == disk[sec + n / SECTOR_SIZE][n % SECTOR_SIZE]
  {
    if n < (count - 1) * SECTOR_SIZE {
      FlatByte(disk, sec, count - 1, n);
    } else {
      assert n / SECTOR_SIZE == count - 1;
    }
  }

  // ----- A table on the disk

  /** Entry c of the table that starts at sector `start`. */
  function EntryAt(disk: seq<Sector>, start: nat, c: nat): nat
    requires start + c / PER_SECTOR < |disk|
  {
    Word(disk[start + c / PER_SECTOR], c % PER_SECTOR * 4)
  }

  function Table(disk: seq<Sector>, start: nat, n: nat): (t: seq<nat>)
    requires n > 0 ==> start + (n - 1) / PER_SECTOR < |disk|
    ensures |t| == n
  {
    seq(n, c requires 0 <= c < n => EntryAt(disk, start, c))
  }

  /** The table copies of a volume. */
  function Copy(b: Bpb, disk: seq<Sector>, copy: nat): (t: seq<nat>)
    requires LayoutOk(b, |disk|) && 1 <= copy <= 2
    ensures |t| == Entries(b)
  {
    CopyInside(b, copy, Entries(b) - 1);
    Table(disk, FatStart(b, copy), Entries(b))
  }

  lemma CopyInside(b: Bpb, copy: nat, c: nat)
    requires b.fatCnt == 2 && 1 <= copy <= 2 && c < Entries(b)
    ensures FatSec(b, c, copy) == FatStart(b, copy) + c / PER_SECTOR < FatStart(b, copy) + b.fatSz <= FirstDataSec(b)
    ensures FatOffset(c) == c % PER_SECTOR * 4 && FatOffset(c) + 4 <= SECTOR_SIZE
  {
  }

  /** Storing one entry of one copy: the code's read-modify-write of a sector. */
  function StoreEntry(b: Bpb, disk: seq<Sector>, copy: nat, c: nat, w: nat): (d: seq<Sector>)
    requires LayoutOk(b, |disk|) && 1 <= copy <= 2 && c < Entries(b)
    ensures |d| == |disk|
  {
    CopyInside(b, copy, c);
    var sec := FatSec(b, c, copy);
    disk[sec := SetWord(disk[sec], FatOffset(c), w)]
  }

  /** It changes that entry of that copy, no other entry, not the other copy, and no data sector. */
  lemma StoreOk(b: Bpb, disk: seq<Sector>, copy: nat, c: nat, w: nat, other: nat)
    requires LayoutOk(b, |disk|) && 1 <= copy <= 2 && c < Entries(b) && w < 0x1_0000_0000 && 1 <= other <= 2
    ensures var d := StoreEntry(b, disk, copy, c, w);
            && Copy(b, d, other) == (if other == copy then Copy(b, disk, copy)[c := w] else Copy(b, disk, other))
            && d[FirstDataSec(b)..] == disk[FirstDataSec(b)..]
  {
    var d := StoreEntry(b, disk, copy, c, w);
    CopyInside(b, copy, c);
    forall i | 0 <= i < Entries(b)
      ensures Copy(b, d, other)[i] == if other == copy && i == c then w else Copy(b, disk, other)[i]
    {
      StoreEntryAt(b, disk, copy, c, w, other, i);
    }
  }

  lemma StoreEntryAt(b: Bpb, disk: seq<Sector>, copy: nat, c: nat, w: nat, other: nat, i: nat)
    requires LayoutOk(b, |disk|) && 1 <= copy <= 2 && c < Entries(b) && w < 0x1_0000_0000 && 1 <= other <= 2 && i < Entries(b)
    ensures Copy(b, StoreEntry(b, disk, copy, c, w), other)[i] == if other == copy && i == c then w else Copy(b, disk, other)[i]
  {
    CopyInside(b, copy, c);
    CopyInside(b, other, i);
    hide SetWord, Word;
    var sec := FatSec(b, c, copy);
    WordSet(disk[sec], FatOffset(c), w, FatOffset(i));
  }

  // ----- The bytes of a copy

  /** The sectors of copy 1 or 2, one after the other. */
  function CopyBytes(b: Bpb, disk: seq<Sector>, copy: nat): (f: seq<Byte>)
    requires b.fatCnt == 2 && FirstDataSec(b) <= |disk| && 1 <= copy <= 2
    ensures |f| == b.fatSz * SECTOR_SIZE
    ensures f == Flat(disk, b.rsvdSecCnt + b.hiddSec + (if copy == 2 then b.fatSz else 0), b.fatSz)
  {
    Flat(disk, FatStart(b, copy), b.fatSz)
  }

  /** The four bytes of entry c. */
  function EntryBytes(f: seq<Byte>, c: nat): (q: seq<Byte>)
    requires 4 * c + 4 <= |f|
    ensures |q| == 4 && forall i :: 0 <= i < 4 ==> q[i] == f[4 * c + i]
  {
    f[4 * c..4 * c + 4]
  }

  /** Byte i of entry c, as sector and offset. */
  lemma CopyByte(b: Bpb, disk: seq<Sector>, copy: nat, c: nat, i: nat)
    requires LayoutOk(b, |disk|) && 1 <= copy <= 2 && c < Entries(b) && i < 4
    ensures FatSec(b, c, copy) < |disk| && FatOffset(c) + 4 <= SECTOR_SIZE
    ensures CopyBytes(b, disk, copy)[4 * c + i] == disk[FatSec(b, c, copy)][FatOffset(c) + i]
  {
    CopyInside(b, copy, c);
    ByteOf(c, i);
    FlatByte(disk, FatStart(b, copy), b.fatSz, 4 * c + i);
  }

  /** An entry of the table is the value of its four bytes. */
  lemma CopyValue(b: Bpb, disk: seq<Sector>, copy: nat, c: nat)
    requires LayoutOk(b, |disk|) && 1 <= copy <= 2 && c < Entries(b)
    ensures Copy(b, disk, copy)[c] == Value(EntryBytes(CopyBytes(b, disk, copy), c))
  {
    CopyInside(b, copy, c);
    var s, off := disk[FatSec(b, c, copy)], FatOffset(c);
    WordValue(s, off);
    var q := EntryBytes(CopyBytes(b, disk, copy), c);
    forall i | 0 <= i < 4 ensures q[i] == s[off..off + 4][i] {
      CopyByte(b, disk, copy, c, i);
    }
    assert q == s[off..off + 4];
  }

  lemma ByteOf(c: nat, i: nat)
    requires i < 4
    ensures (4 * c + i) / SECTOR_SIZE == c / PER_SECTOR && (4 * c + i) % SECTOR_SIZE == c % PER_SECTOR * 4 + i
  {
  }

  /** From f to f', only the bytes of the entries in cs change. */
  ghost predicate OnlyEntries(f: seq<Byte>, f': seq<Byte>, cs: set<nat>) {
    |f'| == |f| && forall n :: 0 <= n < |f| && n / 4 !in cs ==> f'[n] == f[n]
  }

  /** Different entries have different places. */
  lemma PlacesApart(b: Bpb, copy: nat, c: nat, other: nat, e: nat)
    requires b.fatCnt == 2 && 1 <= copy <= 2 && 1 <= other <= 2 && c < Entries(b) && e < Entries(b)
    requires FatSec(b, e, other) == FatSec(b, c, copy) && (other == copy ==> e != c)
    ensures FatOffset(e) + 4 <= FatOffset(c) || FatOffset(c) + 4 <= FatOffset(e)
  {
    CopyInside(b, copy, c);
    CopyInside(b, other, e);
    assert other == copy;
    assert c / PER_SECTOR == e / PER_SECTOR;
  }

  lemma StoreByte(b: Bpb, disk: seq<Sector>, copy: nat, c: nat, w: nat, other: nat, e: nat, i: nat)
    requires LayoutOk(b, |disk|) && 1 <= copy <= 2 && c < Entries(b) && 1 <= other <= 2
    requires e < Entries(b) && i < 4 && (other == copy ==> e != c)
    ensures CopyBytes(b, StoreEntry(b, disk, copy, c, w), other)[4 * e + i] == CopyBytes(b, disk, other)[4 * e + i]
  {
    var d := StoreEntry(b, disk, copy, c, w);
    CopyByte(b, disk, other, e, i);
    CopyByte(b, d, other, e, i);
    CopyInside(b, copy, c);
    if FatSec(b, e, other) == FatSec(b, c, copy) { PlacesApart(b, copy, c, other, e); }
    hide CopyBytes, FatSec, FatOffset, FatStart, Entries, FirstDataSec;
  }

  /** Storing an entry of one copy changes its four bytes and no other byte of a copy or before them. */
  lemma StoreBytes(b: Bpb, disk: seq<Sector>, copy: nat, c: nat, w: nat, other: nat)
    requires LayoutOk(b, |disk|) && 1 <= copy <= 2 && c < Entries(b) && 1 <= other <= 2
    ensures var d := StoreEntry(b, disk, copy, c, w);
            && OnlyEntries(CopyBytes(b, disk, other), CopyBytes(b, d, other), if other == copy then {c} else {})
            && d[..b.rsvdSecCnt + b.hiddSec] == disk[..b.rsvdSecCnt + b.hiddSec]
  {
    var d := StoreEntry(b, disk, copy, c, w);
    CopyInside(b, copy, c);
    hide CopyBytes;
    var f, f' := CopyBytes(b, disk, other), CopyBytes(b, d, other);
    forall n | 0 <= n < |f| && (other == copy ==> n / 4 != c) ensures f'[n] == f[n] {
      StoreByte(b, disk, copy, c, w, other, n / 4, n % 4);
    }
  }
}
