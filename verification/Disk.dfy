/**
  The client interface of the cache (drivers/sdcard/disk.c): multi-sector reads and writes
  with nobody else inside the cache, and any mix of them.
 */
module Disk {
  import opened BufferCache
  import opened BioCode

  const SECTOR: nat := 512

  /** The client's view is a plain array of 512-byte sectors. */
  ghost predicate Formatted(q: seq<Sector>) {
    forall x :: 0 <= x < |q| ==> |q[x]| == SECTOR
  }

  /** Nobody is inside the cache, and it has at least one buffer. */
  ghost predicate Quiet(bio: Bio)
    reads bio
  {
    bio.Valid() && bio.procs == map[] && bio.sector != [] && Formatted(bio.Sectors())
  }

  /** A lone process gets its buffer at once. */
  lemma QuietFree(s: Cache)
    requires Inv(s) && s.procs == map[] && s.sector != []
    ensures s.lru != []
    ensures forall b: nat :: b < |s.locked| ==> !s.locked[b]
    ensures |s.locked| == |s.sector|
  {
    hide TableOk, DataOk, WaitOk;
    assert forall b: nat :: Users(s.procs, b) == {};
    assert 0 in s.lru;
  }

  /** bget by a lone process. */
  method GetAlone(bio: Bio, p: Pid, x: nat) returns (b: nat)
    requires Quiet(bio) && x < |bio.disk|
    modifies bio
    ensures bio.Valid() && bio.Sectors() == old(bio.Sectors())
    ensures bio.procs == map[p := Holds(b, x)] && |bio.disk| == old(|bio.disk|)
    ensures |bio.sector| == old(|bio.sector|)
  {
    hide Inv, Contents;
    QuietFree(bio.View());
    var r := bio.Bget(p, x);
    assert r.Got?;
    b := r.b;
  }

  /** The bytes of sectors x .. x + n. */
  ghost function Flat(q: seq<Sector>, x: nat, n: nat): (r: seq<bv8>)
    requires x + n <= |q| && Formatted(q)
    ensures |r| == SECTOR * n
  {
    if n == 0 then [] else Flat(q, x, n - 1) + q[x + n - 1]
  }

  lemma {:induction false} FlatAt(q: seq<Sector>, x: nat, n: nat, i: nat)
    requires x + n <= |q| && Formatted(q) && i < n
    ensures |q[x + i]| == SECTOR && Flat(q, x, n)[SECTOR * i..SECTOR * i + SECTOR] == q[x + i]
  {
    if i < n - 1 { FlatAt(q, x, n - 1, i); }
  }

  /** disk_read: the client's buffer receives exactly the sectors, which do not change. */
  method DiskRead(bio: Bio, p: Pid, buff: array<bv8>, sector: nat, count: nat)
    requires Quiet(bio) && sector + count <= |bio.disk| && SECTOR * count <= buff.Length
    modifies bio, buff
    ensures Quiet(bio) && bio.Sectors() == old(bio.Sectors()) && |bio.disk| == old(|bio.disk|)
    ensures buff[..SECTOR * count] == Flat(bio.Sectors(), sector, count)
    ensures buff[SECTOR * count..] == old(buff[SECTOR * count..])
  {
    hide Inv, Contents;
    SameSize(bio.View());
    for i := 0 to count
      invariant Quiet(bio) && bio.Sectors() == old(bio.Sectors()) && |bio.disk| == old(|bio.disk|)
      invariant |bio.Sectors()| == |bio.disk|
      invariant buff[..SECTOR * i] == Flat(bio.Sectors(), sector, i)
      invariant buff[SECTOR * i..] == old(buff[SECTOR * i..])
    {
      ReadOne(bio, p, buff, sector + i, SECTOR * i);
      SameSize(bio.View());
    }
  }

  /** One turn: b = bread(0, x); kmemcpy(buff + at, b->data, 512); brelse(b). */
  method ReadOne(bio: Bio, p: Pid, buff: array<bv8>, x: nat, at: nat)
    requires Quiet(bio) && x < |bio.disk| && at + SECTOR <= buff.Length
    modifies bio, buff
    ensures Quiet(bio) && bio.Sectors() == old(bio.Sectors()) && |bio.disk| == old(|bio.disk|)
    ensures x < |bio.Sectors()| && |bio.Sectors()[x]| == SECTOR
    ensures buff[..] == old(buff[..at]) + bio.Sectors()[x] + old(buff[at + SECTOR..])
  {
    hide Inv, Contents;
    SameSize(bio.View());
    var b := GetAlone(bio, p, x);
    bio.Fill(p, b);
    ghost var d := bio.data[b];
    for k := 0 to SECTOR
      invariant buff[..at + k] == old(buff[..at]) + d[..k]
      invariant buff[at + k..] == old(buff[at + k..])
      modifies buff
    {
      buff[at + k] := bio.data[b][k];
    }
    bio.Brelse(p, b);
    assert bio.procs.Keys == {};
  }

  lemma SameSize(s: Cache)
    requires Inv(s)
    ensures |s.valid| == |s.data| && |Contents(s)| == |s.disk|
  {
  }

  /** The reference semantics of a write: sectors x .. x + n replaced by the bytes. */
  ghost function Written(q: seq<Sector>, x: nat, n: nat, bytes: seq<bv8>): (r: seq<Sector>)
    requires x + n <= |q| && SECTOR * n <= |bytes|
    ensures |r| == |q|
  {
    if n == 0 then q
    else Written(q, x, n - 1, bytes)[x + n - 1 := bytes[SECTOR * (n - 1)..SECTOR * n]]
  }

  /** What the write did, sector by sector. */
  lemma {:induction false} WrittenAt(q: seq<Sector>, x: nat, n: nat, bytes: seq<bv8>, y: nat)
    requires x + n <= |q| && SECTOR * n <= |bytes| && y < |q|
    ensures Written(q, x, n, bytes)[y] ==
            if x <= y < x + n then bytes[SECTOR * (y - x)..SECTOR * (y - x) + SECTOR] else q[y]
  {
    if n > 0 {
      WrittenAt(q, x, n - 1, bytes, y);
    }
  }

  lemma WrittenFormatted(q: seq<Sector>, x: nat, n: nat, bytes: seq<bv8>)
    requires x + n <= |q| && SECTOR * n <= |bytes| && Formatted(q)
    ensures Formatted(Written(q, x, n, bytes))
  {
    forall y: nat | y < |q| ensures |Written(q, x, n, bytes)[y]| == SECTOR { WrittenAt(q, x, n, bytes, y); }
  }

  lemma {:induction false} FlatFrame(q: seq<Sector>, q': seq<Sector>, x: nat, n: nat)
    requires |q'| == |q| && x + n <= |q| && Formatted(q) && Formatted(q')
    requires forall y :: x <= y < x + n ==> q'[y] == q[y]
    ensures Flat(q', x, n) == Flat(q, x, n)
  {
    if n > 0 {
      FlatFrame(q, q', x, n - 1);
    }
  }

  /** A read returns the last write of the same sectors. */
  lemma {:induction false} ReadAfterWrite(q: seq<Sector>, x: nat, n: nat, bytes: seq<bv8>)
    requires x + n <= |q| && SECTOR * n <= |bytes| && Formatted(q)
    ensures Formatted(Written(q, x, n, bytes)) && Flat(Written(q, x, n, bytes), x, n) == bytes[..SECTOR * n]
  {
    WrittenFormatted(q, x, n, bytes);
    if n > 0 {
      WrittenFormatted(q, x, n - 1, bytes);
      ReadAfterWrite(q, x, n - 1, bytes);
      FlatFrame(Written(q, x, n - 1, bytes), Written(q, x, n, bytes), x, n - 1);
      assert bytes[..SECTOR * n] == bytes[..SECTOR * (n - 1)] + bytes[SECTOR * (n - 1)..SECTOR * n];
    }
  }

  /** One turn: b = bget(0, x); kmemcpy(b->data, buff + at, 512); valid = dirty = 1; brelse(b). */
  method WriteOne(bio: Bio, p: Pid, d: Sector, x: nat)
    requires Quiet(bio) && x < |bio.disk| && |d| == SECTOR
    modifies bio
    ensures Quiet(bio) && |bio.disk| == old(|bio.disk|)
    ensures x < |old(bio.Sectors())| && bio.Sectors() == old(bio.Sectors())[x := d]
  {
    hide Inv, Contents;
    SameSize(bio.View());
    var b := GetAlone(bio, p, x);
    bio.Overwrite(p, b, d);
    bio.Brelse(p, b);
    assert bio.procs.Keys == {};
  }

  /** disk_write */
  method DiskWrite(bio: Bio, p: Pid, buff: seq<bv8>, sector: nat, count: nat)
    requires Quiet(bio) && sector + count <= |bio.disk| && SECTOR * count <= |buff|
    modifies bio
    ensures Quiet(bio) && |bio.disk| == old(|bio.disk|) == |old(bio.Sectors())|
    ensures bio.Sectors() == Written(old(bio.Sectors()), sector, count, buff)
  {
    hide Inv, Contents;
    SameSize(bio.View());
    for i := 0 to count
      invariant Quiet(bio) && |bio.disk| == old(|bio.disk|)
      invariant bio.Sectors() == Written(old(bio.Sectors()), sector, i, buff)
    {
      WriteOne(bio, p, buff[SECTOR * i..SECTOR * (i + 1)], sector + i);
    }
  }

  /** A client request. */
  datatype Request =
    | Read(sector: nat, count: nat)
    | Write(sector: nat, count: nat, bytes: seq<bv8>)
    | Sync

  predicate Fits(r: Request, sectors: nat) {
    match r
    case Read(sector, count) => sector + count <= sectors
    case Write(sector, count, bytes) => sector + count <= sectors && SECTOR * count <= |bytes|
    case Sync => true
  }

  /** The reference: a plain array of sectors. */
  ghost function PlainStep(q: seq<Sector>, r: Request): (q': seq<Sector>)
    requires Fits(r, |q|)
    ensures |q'| == |q|
  {
    if r.Write? then Written(q, r.sector, r.count, r.bytes) else q
  }

  ghost function PlainRun(q: seq<Sector>, rs: seq<Request>): (q': seq<Sector>)
    requires forall i :: 0 <= i < |rs| ==> Fits(rs[i], |q|)
    ensures |q'| == |q|
  {
    if rs == [] then q else PlainStep(PlainRun(q, rs[..|rs| - 1]), rs[|rs| - 1])
  }

  /** The request writes sector y. */
  predicate Covers(r: Request, y: nat) { r.Write? && r.sector <= y < r.sector + r.count }

  /** The plain array holds what was written last, or what it held at first. */
  lemma {:induction false} PlainLast(q: seq<Sector>, rs: seq<Request>, y: nat, n: nat)
    requires y < |q| && n <= |rs| && forall i :: 0 <= i < |rs| ==> Fits(rs[i], |q|)
    requires forall k :: n <= k < |rs| ==> !Covers(rs[k], y)
    ensures n == 0 ==> PlainRun(q, rs)[y] == q[y]
    ensures n > 0 && Covers(rs[n - 1], y) ==>
              var k := y - rs[n - 1].sector;
              PlainRun(q, rs)[y] == rs[n - 1].bytes[SECTOR * k..SECTOR * k + SECTOR]
  {
    if rs != [] {
      var before, r := PlainRun(q, rs[..|rs| - 1]), rs[|rs| - 1];
      assert Fits(r, |q|);
      if r.Write? { WrittenAt(before, r.sector, r.count, r.bytes, y); }
      if n < |rs| { PlainLast(q, rs[..|rs| - 1], y, n); }
    }
  }

  lemma PlainRunFormatted(q: seq<Sector>, rs: seq<Request>)
    requires Formatted(q) && forall i :: 0 <= i < |rs| ==> Fits(rs[i], |q|)
    ensures Formatted(PlainRun(q, rs))
  {
    if rs != [] {
      var before := rs[..|rs| - 1];
      var r := rs[|rs| - 1];
      PlainRunFormatted(q, before);
      if r.Write? { WrittenFormatted(PlainRun(q, before), r.sector, r.count, r.bytes); }
    }
  }

  /** The answer of the reference to request i of the run. */
  ghost function PlainAnswer(q: seq<Sector>, rs: seq<Request>, i: nat): seq<bv8>
    requires i < |rs| && Formatted(q) && forall k :: 0 <= k < |rs| ==> Fits(rs[k], |q|)
  {
    PlainRunFormatted(q, rs[..i]);
    assert Fits(rs[i], |q|);
    if rs[i].Read? then Flat(PlainRun(q, rs[..i]), rs[i].sector, rs[i].count) else []
  }

  /**
    Any sequence of reads, writes and syncs, with whatever evictions they cause: every read
    answers as the plain array would, and after a final sync the disk itself is that array.
   */
  method Serve(bio: Bio, p: Pid, rs: seq<Request>) returns (answers: seq<seq<bv8>>)
    requires Quiet(bio) && forall i :: 0 <= i < |rs| ==> Fits(rs[i], |bio.disk|)
    modifies bio
    ensures Quiet(bio) && |bio.disk| == old(|bio.disk|) == |old(bio.Sectors())| && |answers| == |rs|
    ensures bio.Sectors() == PlainRun(old(bio.Sectors()), rs)
    ensures forall i :: 0 <= i < |rs| ==> answers[i] == PlainAnswer(old(bio.Sectors()), rs, i)
    ensures rs != [] && rs[|rs| - 1] == Sync ==> bio.disk == PlainRun(old(bio.Sectors()), rs)
  {
    hide Inv, Contents;
    SameSize(bio.View());
    answers := [];
    assert rs[..0] == [];
    for i := 0 to |rs|
      invariant Quiet(bio) && |bio.disk| == old(|bio.disk|) && |answers| == i
      invariant bio.Sectors() == PlainRun(old(bio.Sectors()), rs[..i])
      invariant forall k :: 0 <= k < i ==> answers[k] == PlainAnswer(old(bio.Sectors()), rs, k)
      invariant i > 0 && rs[i - 1] == Sync ==> bio.disk == bio.Sectors()
    {
      assert rs[..i + 1][..i] == rs[..i];
      var a := ServeOne(bio, p, rs[i]);
      answers := answers + [a];
    }
    assert rs[..|rs|] == rs;
  }

  method ServeOne(bio: Bio, p: Pid, r: Request) returns (a: seq<bv8>)
    requires Quiet(bio) && Fits(r, |bio.disk|)
    modifies bio
    ensures Quiet(bio) && |bio.disk| == old(|bio.disk|) == |old(bio.Sectors())|
    ensures bio.Sectors() == PlainStep(old(bio.Sectors()), r)
    ensures a == if r.Read? then Flat(old(bio.Sectors()), r.sector, r.count) else []
    ensures r == Sync ==> bio.disk == bio.Sectors()
    ensures forall y :: 0 <= y < |bio.Sectors()| ==>
              bio.Sectors()[y] == if Covers(r, y) then r.bytes[SECTOR * (y - r.sector)..SECTOR * (y - r.sector) + SECTOR]
                                  else old(bio.Sectors())[y]
  {
    hide Inv, Contents;
    SameSize(bio.View());
    a := [];
    match r
    case Read(sector, count) =>
      var buff := new bv8[SECTOR * count];
      DiskRead(bio, p, buff, sector, count);
      a := buff[..SECTOR * count];
    case Write(sector, count, bytes) =>
      DiskWrite(bio, p, bytes, sector, count);
      ghost var q := old(bio.Sectors());
      forall y: nat | y < |q|
        ensures Written(q, sector, count, bytes)[y] ==
                if Covers(r, y) then bytes[SECTOR * (y - sector)..SECTOR * (y - sector) + SECTOR] else q[y]
      {
        WrittenAt(q, sector, count, bytes, y);
      }
    case Sync =>
      bio.Bsync();
  }
}
