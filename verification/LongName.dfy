/**
  File names in FAT32 directory entries: the encoder inside create_new and the decoder inside
  search (kernel/utils/utils.c).
 */
module LongName {

  const PART1: nat := 5             // LONG_FILENAME1
  const PART2: nat := 6             // LONG_FILENAME2
  const PART3: nat := 2             // LONG_FILENAME3
  const PER_ENTRY: nat := 13        // LONG_FILENAME
  const MAX_FILENAME: nat := 256    // FAT32_MAX_FILENAME

  /** The name fields and the sequence number of a long-name entry. */
  datatype LongEntry = LongEntry(seqNum: nat, name1: seq<nat>, name2: seq<nat>, name3: seq<nat>)

  ghost predicate Shaped(e: LongEntry) { |e.name1| == PART1 && |e.name2| == PART2 && |e.name3| == PART3 }

  /** The characters that names may hold: a letter, a digit, or one of _ . - and space. */
  predicate InNames(ch: char) {
    'A' <= ch <= 'Z' || 'a' <= ch <= 'z' || '0' <= ch <= '9' || ch == '_' || ch == '.' || ch == ' ' || ch == '-'
  }

  /** char2unicode: the ASCII code of the character, or 0. */
  function CharToUnicode(ch: char): (u: nat)
    ensures u == if InNames(ch) then ch as int else 0
  {
    if 'A' <= ch <= 'Z' then 65 + (ch as int - 'A' as int)
    else if 'a' <= ch <= 'z' then 97 + (ch as int - 'a' as int)
    else if '0' <= ch <= '9' then 48 + (ch as int - '0' as int)
    else if ch == '_' then 95
    else if ch == '.' then 46
    else if ch == ' ' then 0x20
    else if ch == '-' then 45
    else 0
  }

  /** unicode2char: the character with that ASCII code, or 0. */
  function UnicodeToChar(u: nat): (ch: char)
    ensures ch == '\0' || (ch as int == u && InNames(ch))
    ensures forall c: char :: InNames(c) && c as int == u ==> ch == c
  {
    if 65 <= u <= 90 then (u - 65 + 'A' as int) as char
    else if 48 <= u <= 57 then (u - 48 + '0' as int) as char
    else if 97 <= u <= 122 then (u - 97 + 'a' as int) as char
    else if u == 95 then '_'
    else if u == 46 then '.'
    else if u == 0x20 then ' '
    else if u == 45 then '-'
    else '\0'
  }

  predicate Supported(ch: char) { CharToUnicode(ch) != 0 }

  lemma CharRoundTrip(ch: char)
    ensures Supported(ch) ==> UnicodeToChar(CharToUnicode(ch)) == ch && CharToUnicode(ch) != 0xffff
    ensures forall u: nat :: UnicodeToChar(u) == '\0' || Supported(UnicodeToChar(u))
  {
  }

  /** Position j of the 13 that the three parts of an entry hold. */
  function EntryUnit(e: LongEntry, j: nat): nat
    requires Shaped(e) && j < PER_ENTRY
  {
    if j < PART1 then e.name1[j] else if j < PART1 + PART2 then e.name2[j - PART1] else e.name3[j - PART1 - PART2]
  }

  // ----- Encoding

  /** The unit at position k: a character, the terminator, or padding. */
  function Unit(name: string, k: nat): nat {
    if k < |name| then CharToUnicode(name[k]) else if k == |name| then 0 else 0xffff
  }

  /** n entries hold 13 n units. */
  function EntryCount(name: string): nat { |name| / PER_ENTRY + 1 }

  function SeqNum(i: nat, n: nat): nat { if i + 1 == n then 0x40 + (i + 1) else (i + 1) % 16 }

  function Units(name: string, from: nat, count: nat): (u: seq<nat>)
    ensures |u| == count
  {
    seq<nat>(count, j requires 0 <= j => Unit(name, from + j))
  }

  function Encoded(name: string, i: nat): LongEntry {
    LongEntry(SeqNum(i, EntryCount(name)), Units(name, PER_ENTRY * i, PART1),
              Units(name, PER_ENTRY * i + PART1, PART2), Units(name, PER_ENTRY * i + PART1 + PART2, PART3))
  }

  /** Entries on the disk: the last one first. */
  function OnDisk(name: string): (run: seq<LongEntry>)
    ensures |run| == EntryCount(name) && forall k :: 0 <= k < |run| ==> Shaped(run[k])
  {
    seq(EntryCount(name), k requires 0 <= k < EntryCount(name) => Encoded(name, EntryCount(name) - 1 - k))
  }

  /** One of the three inner loops of the encoder. */
  method EncodePart(name: string, len: nat, count: nat) returns (units: seq<nat>, len': nat)
    ensures units == Units(name, len, count) && len' == len + count
  {
    units, len' := [], len;
    for j := 0 to count
      invariant len' == len + j && units == Units(name, len, j)
    {
      units := units + [if len' < |name| then CharToUnicode(name[len']) else if len' == |name| then 0 else 0xffff];
      len' := len' + 1;
      assert Units(name, len, j + 1) == Units(name, len, j) + [Unit(name, len + j)];
    }
  }

  /** The long-entry part of create_new and its copy to the directory, last entry first. */
  method EncodeLong(name: string) returns (run: seq<LongEntry>)
    ensures run == OnDisk(name) && |run| == |name| / 13 + 1 && run[0].seqNum == 0x40 + |run|
    ensures forall k :: 0 < k < |run| ==> run[k].seqNum == (|run| - k) % 16
    ensures forall k, j :: 0 <= k < |run| && 0 <= j < 13 ==>
              EntryUnit(run[k], j) == var p := 13 * (|run| - 1 - k) + j;
                                      if p < |name| then (if InNames(name[p]) then name[p] as int else 0)
                                      else if p == |name| then 0 else 0xffff
  {
    var n := |name| / PER_ENTRY + 1;
    var entries: seq<LongEntry> := [];
    for i := 0 to n
      invariant |entries| == i && forall k :: 0 <= k < i ==> entries[k] == Encoded(name, k)
    {
      var len := PER_ENTRY * i;
      var n1, n2, n3;
      n1, len := EncodePart(name, len, PART1);
      n2, len := EncodePart(name, len, PART2);
      n3, len := EncodePart(name, len, PART3);
      var seqNum := if i + 1 == n then 0x40 + (i + 1) else (i + 1) % 16;
      entries := entries + [LongEntry(seqNum, n1, n2, n3)];
    }
    run := [];
    for i := 0 to n
      invariant |run| == i && forall k :: 0 <= k < i ==> run[k] == Encoded(name, n - 1 - k)
    {
      run := run + [entries[n - 1 - i]];
    }
  }

  // ----- Decoding

  predicate Stops(u: nat) { u == 0 || u == 0xffff }

  /** The units before the first terminator or padding. */
  function Prefix(units: seq<nat>): (p: seq<nat>)
    ensures |p| <= |units| && p == units[..|p|] && (forall i :: 0 <= i < |p| ==> !Stops(p[i]))
    ensures |p| < |units| ==> Stops(units[|p|])
  {
    if units == [] || Stops(units[0]) then [] else [units[0]] + Prefix(units[1..])
  }

  /** What an entry contributes: each part up to its first stop. */
  function Kept(e: LongEntry): seq<nat> { Prefix(e.name1) + Prefix(e.name2) + Prefix(e.name3) }

  /** Character j of the 13 that an entry fills in the name buffer. */
  function SlotAt(e: LongEntry, j: nat): char {
    if j < |Kept(e)| then UnicodeToChar(Kept(e)[j]) else '\0'
  }

  /** No stop among the units of the entry up to position j. */
  ghost predicate Unbroken(e: LongEntry, j: nat)
    requires Shaped(e) && j < PER_ENTRY
  {
    forall m :: 0 <= m <= j ==> !Stops(EntryUnit(e, m))
  }

  /** Up to the first stop the characters are those of the units, in the order of the parts. */
  lemma SlotUnit(e: LongEntry, j: nat)
    requires Shaped(e) && j < PER_ENTRY && Unbroken(e, j)
    ensures SlotAt(e, j) == UnicodeToChar(EntryUnit(e, j))
  {
    hide Prefix, UnicodeToChar;
    var p1, p2, p3 := Prefix(e.name1), Prefix(e.name2), Prefix(e.name3);
    assert |p1| < PART1 ==> Stops(EntryUnit(e, |p1|));
    assert |p2| < PART2 ==> Stops(EntryUnit(e, PART1 + |p2|));
    assert |p3| < PART3 ==> Stops(EntryUnit(e, PART1 + PART2 + |p3|));
  }

  /** One of the three inner loops of the decoder, writing at base + count. */
  method DecodePart(filename: array<char>, base: nat, count: nat, units: seq<nat>) returns (count': nat)
    requires base + count + |units| <= filename.Length
    modifies filename
    ensures count' == count + |Prefix(units)|
    ensures forall k :: 0 <= k < filename.Length ==> (filename[k] ==
              if base + count <= k < base + count' then UnicodeToChar(units[k - base - count])
              else if k == base + count' && |Prefix(units)| < |units| then '\0' else old(filename[k]))
  {
    count' := count;
    for i := 0 to |units|
      invariant count' == count + i <= count + |Prefix(units)|
      invariant forall k :: 0 <= k < filename.Length ==> (filename[k] ==
                  if base + count <= k < base + count' then UnicodeToChar(units[k - base - count]) else old(filename[k]))
    {
      if Stops(units[i]) {
        filename[base + count'] := '\0';
        break;
      } else {
        filename[base + count'] := UnicodeToChar(units[i]);
      }
      count' := count' + 1;
    }
  }

  /** The three inner loops together, on a part of the buffer that is still clear. */
  method DecodeEntry(filename: array<char>, base: nat, e: LongEntry)
    requires Shaped(e) && base + PER_ENTRY <= filename.Length
    requires forall k :: base <= k < base + PER_ENTRY ==> filename[k] == '\0'
    modifies filename
    ensures forall k :: 0 <= k < filename.Length ==> (filename[k] ==
              if base <= k < base + PER_ENTRY then SlotAt(e, k - base) else old(filename[k]))
  {
    hide Prefix, UnicodeToChar;
    var count := DecodePart(filename, base, 0, e.name1);
    count := DecodePart(filename, base, count, e.name2);
    count := DecodePart(filename, base, count, e.name3);
  }

  /** The name buffer after decoding a run of entries. */
  ghost function Buffer(run: seq<LongEntry>): (buf: seq<char>)
    requires run != [] && run[0].seqNum % 16 <= |run|
    ensures |buf| == MAX_FILENAME
  {
    var n := run[0].seqNum % 16;
    seq(MAX_FILENAME, k requires 0 <= k => if k < n * PER_ENTRY then SlotAt(run[n - 1 - k / PER_ENTRY], k % PER_ENTRY) else '\0')
  }

  /** The text before the first c, or everything. */
  function Before(text: seq<char>, c: char): (s: string)
    ensures |s| <= |text| && s == text[..|s|] && c !in s && (|s| < |text| ==> text[|s|] == c)
  {
    if text == [] || text[0] == c then [] else [text[0]] + Before(text[1..], c)
  }

  /** The text of a buffer as a C string. */
  function CString(buf: seq<char>): string { Before(buf, '\0') }

  /** The long-entry branch of search, on a cleared name buffer. */
  method DecodeLong(run: seq<LongEntry>, filename: array<char>)
    requires run != [] && run[0].seqNum % 16 <= |run| && forall i :: 0 <= i < |run| ==> Shaped(run[i])
    requires filename.Length == MAX_FILENAME && forall k :: 0 <= k < MAX_FILENAME ==> filename[k] == '\0'
    modifies filename
    ensures filename[..] == Buffer(run)
    ensures forall i, j :: 0 <= i < run[0].seqNum % 16 && 0 <= j < 13 && Unbroken(run[i], j) ==>
              filename[13 * (run[0].seqNum % 16 - 1 - i) + j] == UnicodeToChar(EntryUnit(run[i], j))
  {
    hide SlotAt;
    var n := run[0].seqNum % 16;
    var num, i := n, 0;
    while num > 0
      invariant num >= 0 && i >= 0 && num + i == n
      invariant forall k :: 0 <= k < num * PER_ENTRY || n * PER_ENTRY <= k < MAX_FILENAME ==> filename[k] == '\0'
      invariant forall k :: num * PER_ENTRY <= k < n * PER_ENTRY ==> filename[k] == SlotAt(run[n - 1 - k / PER_ENTRY], k % PER_ENTRY)
    {
      num := num - 1;
      DecodeEntry(filename, num * PER_ENTRY, run[i]);
      i := i + 1;
    }
    forall i, j | 0 <= i < n && 0 <= j < 13 && Unbroken(run[i], j)
      ensures filename[13 * (n - 1 - i) + j] == UnicodeToChar(EntryUnit(run[i], j))
    {
      SlotUnit(run[i], j);
      assert (13 * (n - 1 - i) + j) / PER_ENTRY == n - 1 - i;
    }
  }

  // ----- The round trip

  ghost predicate AllSupported(name: string) { forall i :: 0 <= i < |name| ==> Supported(name[i]) }

  /** How many of the count positions from `from` on hold a character of the name. */
  function Avail(name: string, from: nat, count: nat): nat {
    if from >= |name| then 0 else if |name| - from < count then |name| - from else count
  }

  lemma PrefixUnits(name: string, from: nat, count: nat)
    requires AllSupported(name)
    ensures Prefix(Units(name, from, count)) == Units(name, from, Avail(name, from, count))
  {
    var units := Units(name, from, count);
    var p := Prefix(units);
    forall j | 0 <= j < count ensures Stops(units[j]) <==> from + j >= |name| {
      assert units[j] == Unit(name, from + j);
      if from + j < |name| {
        assert Supported(name[from + j]);
        CharRoundTrip(name[from + j]);
      }
    }
    assert |p| < count ==> Stops(units[|p|]);
    assert |p| > 0 ==> !Stops(p[|p| - 1]) && p[|p| - 1] == units[|p| - 1];
    assert |p| == Avail(name, from, count);
  }

  lemma KeptUnits(name: string, i: nat)
    requires AllSupported(name)
    ensures Kept(Encoded(name, i)) == Units(name, PER_ENTRY * i, Avail(name, PER_ENTRY * i, PER_ENTRY))
  {
    hide Prefix, Unit;
    var from := PER_ENTRY * i;
    PrefixUnits(name, from, PART1);
    PrefixUnits(name, from + PART1, PART2);
    PrefixUnits(name, from + PART1 + PART2, PART3);
  }

  lemma SlotOfEncoded(name: string, i: nat, j: nat)
    requires AllSupported(name) && j < PER_ENTRY
    ensures SlotAt(Encoded(name, i), j) == if PER_ENTRY * i + j < |name| then name[PER_ENTRY * i + j] else '\0'
  {
    KeptUnits(name, i);
    if PER_ENTRY * i + j < |name| { CharRoundTrip(name[PER_ENTRY * i + j]); }
    hide Encoded, Kept, UnicodeToChar, CharToUnicode;
  }

  /** The number of entries that the decoder sees: the sequence number keeps only four bits. */
  lemma SeenCount(name: string)
    requires |name| < MAX_FILENAME
    ensures OnDisk(name)[0].seqNum % 16 == if |name| <= 194 then EntryCount(name) else EntryCount(name) - 16
    ensures |name| > 194 ==> 16 <= EntryCount(name) <= 20
  {
    assert OnDisk(name)[0] == Encoded(name, EntryCount(name) - 1);
  }

  /** Every character of a decoded buffer is a supported one, or nothing. */
  lemma BufferSupported(run: seq<LongEntry>, k: nat)
    requires run != [] && run[0].seqNum % 16 <= |run| && k < MAX_FILENAME
    ensures Buffer(run)[k] == '\0' || Supported(Buffer(run)[k])
  {
    CharRoundTrip('A');
    hide UnicodeToChar, CharToUnicode;
  }

  lemma BufferOfEncoded(name: string, k: nat)
    requires AllSupported(name) && |name| <= 194 && k < MAX_FILENAME
    ensures OnDisk(name)[0].seqNum % 16 == EntryCount(name)
    ensures Buffer(OnDisk(name))[k] == if k < |name| then name[k] else '\0'
  {
    SeenCount(name);
    var n := EntryCount(name);
    if k < n * PER_ENTRY {
      var i, j := k / PER_ENTRY, k % PER_ENTRY;
      assert OnDisk(name)[n - 1 - i] == Encoded(name, i);
      SlotOfEncoded(name, i, j);
    }
  }

  /**
    Decoding the entries of a name gives the name back exactly when it has at most 194
    characters, all of them supported; this includes the lengths divisible by 13.
   */
  lemma LongNameRoundTrip(name: string)
    requires |name| < MAX_FILENAME && '\0' !in name
    ensures OnDisk(name)[0].seqNum % 16 <= |OnDisk(name)|
    ensures CString(Buffer(OnDisk(name))) == name <==> |name| <= 194 && AllSupported(name)
  {
    SeenCount(name);
    hide Buffer, Encoded, OnDisk, Supported;
    var run := OnDisk(name);
    var buf, got := Buffer(run), CString(Buffer(run));
    if |name| <= 194 && AllSupported(name) {
      forall k | 0 <= k < MAX_FILENAME ensures buf[k] == if k < |name| then name[k] else '\0' {
        BufferOfEncoded(name, k);
      }
      CStringIs(buf, name);
    } else if |name| <= 194 {
      var p :| 0 <= p < |name| && !Supported(name[p]);
      BufferSupported(run, p);
      assert name[p] in name;
      assert forall k :: 0 <= k < |got| ==> got[k] == buf[k];
      assert buf[p] != name[p];
    } else {
      ShortBuffer(run);
    }
  }

  lemma ShortBuffer(run: seq<LongEntry>)
    requires run != [] && run[0].seqNum % 16 <= |run| && run[0].seqNum % 16 <= 4
    ensures |CString(Buffer(run))| < 195
  {
    assert Buffer(run)[run[0].seqNum % 16 * PER_ENTRY] == '\0';
  }

  lemma CStringIs(buf: seq<char>, name: string)
    requires |name| < |buf| && '\0' !in name && buf[..|name|] == name && buf[|name|] == '\0'
    ensures CString(buf) == name
  {
    var got := CString(buf);
    assert forall k :: 0 <= k < |name| ==> buf[k] == name[k] && name[k] in name;
    assert forall k :: 0 <= k < |got| ==> buf[k] == got[k] && got[k] in got;
  }

  /** Encoding and decoding a name, as create_new and a later search do it. */
  method StoreAndSearch(name: string) returns (got: string)
    requires |name| < MAX_FILENAME && '\0' !in name
    ensures got == name <==> |name| <= 194 && AllSupported(name)
  {
    LongNameRoundTrip(name);
    hide Buffer, Before;
    var run := EncodeLong(name);
    var filename := new char[MAX_FILENAME](i => '\0');
    DecodeLong(run, filename);
    got := CString(filename[..]);
  }

  // ----- Short names

  const SHORT_BASE: nat := 8        // SHORT_FILENAME
  const SHORT_EXT: nat := 3         // SHORT_EXTNAME

  datatype ShortEntry = ShortEntry(base: string, ext: string)

  function Upper(ch: char): char { if 'a' <= ch <= 'z' then (ch as int - 'a' as int + 'A' as int) as char else ch }

  function AllUpper(s: string): (u: string)
    ensures |u| == |s|
  {
    seq(|s|, i requires 0 <= i < |s| => Upper(s[i]))
  }

  /** Of a file the text before the first dot, or everything; of a directory everything. */
  function Base(name: string, dir: bool): string { if dir then name else Before(name, '.') }

  /** The text after the first dot, or nothing. */
  function Ext(name: string, dir: bool): string {
    if |Base(name, dir)| < |name| then name[|Base(name, dir)| + 1..] else []
  }

  function Pad(s: string, n: nat): string { if |s| < n then s + seq(n - |s|, i => ' ') else s }

  /** The short entry that create_new writes for a file or directory whose base name has at most 8 characters. */
  function ShortEncoded(name: string, dir: bool): ShortEntry {
    ShortEntry(Pad(Base(name, dir), SHORT_BASE), Pad(AllUpper(Ext(name, dir)), SHORT_EXT))
  }

  /** The two fields of a short entry, character by character. */
  lemma ShortFields(name: string, dir: bool)
    requires |Base(name, dir)| <= SHORT_BASE && |Ext(name, dir)| <= SHORT_EXT
    ensures var e := ShortEncoded(name, dir);
            && |e.base| == 8 && |e.ext| == 3
            && (forall k :: 0 <= k < 8 ==> e.base[k] == if k < |Base(name, dir)| then name[k] else ' ')
            && (forall k :: 0 <= k < 3 ==>
                  var p := |Base(name, dir)| + 1 + k;
                  e.ext[k] == if p >= |name| then ' ' else if 'a' <= name[p] <= 'z' then (name[p] as int - 32) as char else name[p])
  {
    hide Before;
  }

  /** One pair of fill loops of create_new: the text, then spaces. */
  method FillField(text: string, upper: bool, n: nat) returns (field: string)
    requires |text| <= n
    ensures field == Pad(if upper then AllUpper(text) else text, n)
  {
    ghost var whole := if upper then AllUpper(text) else text;
    field := [];
    for i := 0 to |text|
      invariant field == whole[..i]
    {
      field := field + [if upper then Upper(text[i]) else text[i]];
    }
    for i := |text| to n
      invariant field == whole + seq(i - |text|, j => ' ')
    {
      field := field + [' '];
    }
  }

  /** The short-entry part of create_new. */
  method EncodeShort(name: string, dir: bool) returns (e: ShortEntry)
    requires |Base(name, dir)| <= SHORT_BASE && |Ext(name, dir)| <= SHORT_EXT
    ensures e == ShortEncoded(name, dir) && |e.base| == 8 && |e.ext| == 3
    ensures forall k :: 0 <= k < 8 ==> e.base[k] == if k < |Base(name, dir)| then name[k] else ' '
    ensures forall k :: 0 <= k < 3 ==>
              var p := |Base(name, dir)| + 1 + k;
              e.ext[k] == if p >= |name| then ' ' else if 'a' <= name[p] <= 'z' then (name[p] as int - 32) as char else name[p]
  {
    var pos := 0;
    while pos < |name| && (dir || name[pos] != '.')
      invariant pos <= |name| && pos <= |Base(name, dir)|
    {
      assert pos < |Base(name, dir)|;
      pos := pos + 1;
    }
    assert pos == |Base(name, dir)|;
    ShortFields(name, dir);
    hide Pad, AllUpper, Before;
    var base := FillField(name[..pos], false, SHORT_BASE);
    var ext := FillField(if pos < |name| then name[pos + 1..] else [], true, SHORT_EXT);
    e := ShortEntry(base, ext);
  }

  /** The characters before the first space. */
  function BeforeSpace(s: string): string { Before(s, ' ') }

  /** What the short-entry branch makes of the extension field. */
  function ExtText(ext: string): string
    requires ext != []
  {
    (if ext[0] != ' ' then "." else "") + BeforeSpace(ext)
  }

  /** The short-entry branch of search. */
  method DecodeShort(e: ShortEntry) returns (name: string)
    requires |e.base| == SHORT_BASE && |e.ext| == SHORT_EXT
    ensures name == BeforeSpace(e.base) + ExtText(e.ext)
  {
    name := CopyPart("", e.base);
    if e.ext[0] != ' ' {
      name := name + ".";
    }
    name := CopyPart(name, e.ext);
  }

  /** One copy loop of the short branch. */
  method CopyPart(name: string, part: string) returns (r: string)
    ensures r == name + BeforeSpace(part)
  {
    r := name;
    for i := 0 to |part|
      invariant i <= |BeforeSpace(part)| && r == name + part[..i]
    {
      if part[i] == ' ' { break; }
      r := r + [part[i]];
    }
  }

  /** Padding with spaces is undone by reading up to the first space, unless the text holds a space. */
  lemma PadPrefix(s: string, n: nat)
    requires |s| <= n
    ensures |Pad(s, n)| == n
    ensures if ' ' in s then |BeforeSpace(Pad(s, n))| < |s| else BeforeSpace(Pad(s, n)) == s
  {
    hide Before;
    var pad, p := Pad(s, n), BeforeSpace(Pad(s, n));
    assert forall k :: 0 <= k < |p| ==> pad[k] == p[k] && p[k] in p;
    assert forall k :: 0 <= k < |s| ==> pad[k] == s[k] && s[k] in s;
    assert |s| < n ==> pad[|s|] == ' ';
    assert |p| < n ==> pad[|p|] == ' ';
    if ' ' in s {
      var k :| 0 <= k < |s| && s[k] == ' ';
      assert pad[k] == ' ';
    }
  }

  lemma ExtPrefix(ext: string)
    requires |ext| <= SHORT_EXT
    ensures |Pad(AllUpper(ext), SHORT_EXT)| == SHORT_EXT
    ensures var text := ExtText(Pad(AllUpper(ext), SHORT_EXT));
            if ext == [] then text == []
            else if ' ' in ext then |text| < 1 + |ext|
            else text == "." + AllUpper(ext)
  {
    var up := AllUpper(ext);
    PadPrefix(up, SHORT_EXT);
    assert forall k :: 0 <= k < |ext| ==> (up[k] == ' ' <==> ext[k] == ' ');
    assert ' ' in up <==> ' ' in ext;
    assert ext != [] ==> Pad(up, SHORT_EXT)[0] == up[0];
  }

  lemma InConcat(a: string, b: string)
    ensures ' ' in a + b <==> ' ' in a || ' ' in b
  {
  }

  lemma NameParts(name: string, dir: bool)
    ensures name == Base(name, dir) + if |Base(name, dir)| < |name| then "." + Ext(name, dir) else ""
    ensures ' ' in name <==> ' ' in Base(name, dir) || ' ' in Ext(name, dir)
  {
    hide Before;
    var b, x := Base(name, dir), Ext(name, dir);
    if |b| < |name| {
      assert name == b + ("." + x);
      InConcat(b, "." + x);
      InConcat(".", x);
    } else {
      assert name == b;
    }
  }

  lemma UpperTwice(a: string, b: string)
    ensures AllUpper(a + ("." + AllUpper(b))) == AllUpper(a + ("." + b))
  {
  }

  /**
    Short names come back, up to case, exactly when they hold no space and no dot without an
    extension behind it.
   */
  lemma ShortNameRoundTrip(name: string, dir: bool)
    requires |Base(name, dir)| <= SHORT_BASE && |Ext(name, dir)| <= SHORT_EXT
    ensures var e := ShortEncoded(name, dir);
            && |e.base| == SHORT_BASE && |e.ext| == SHORT_EXT
            && (AllUpper(BeforeSpace(e.base) + ExtText(e.ext)) == AllUpper(name) <==>
                ' ' !in name && (|Base(name, dir)| < |name| ==> Ext(name, dir) != []))
  {
    var b, x := Base(name, dir), Ext(name, dir);
    PadPrefix(b, SHORT_BASE);
    ExtPrefix(x);
    NameParts(name, dir);
    UpperTwice(b, x);
    hide BeforeSpace, ExtText, Before, Base, AllUpper, Pad;
  }

  method StoreAndSearchShort(name: string, dir: bool) returns (got: string)
    requires |Base(name, dir)| <= SHORT_BASE && |Ext(name, dir)| <= SHORT_EXT
    ensures AllUpper(got) == AllUpper(name) <==> ' ' !in name && (|Base(name, dir)| < |name| ==> Ext(name, dir) != [])
  {
    ShortNameRoundTrip(name, dir);
    hide BeforeSpace, ExtText, Before, Base, AllUpper, Pad;
    var e := EncodeShort(name, dir);
    got := DecodeShort(e);
  }
}
