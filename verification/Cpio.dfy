/** Archives in the "newc" format of cpio: finding a file, and the archives it can be found in. */
module Cpio {
  import opened Outcomes
  import opened Bytes

  const HEADER_SIZE: nat := 110
  const MAGIC: seq<byte> := [0x30, 0x37, 0x30, 0x37, 0x30, 0x31]
  const TRAILER: seq<byte> := [0x54, 0x52, 0x41, 0x49, 0x4c, 0x45, 0x52, 0x21, 0x21, 0x21]

  // ---- Text ----

  predicate Continues(b: byte) {
    0x80 <= b < 0xc0
  }

  /** How many bytes the first character takes; 0 if it is not well formed. */
  function CharLength(s: seq<byte>): (n: nat)
    requires s != []
    ensures n <= |s|
  {
    var a := s[0];
    if a < 0x80 then 1
    else if |s| >= 2 && 0xc2 <= a < 0xe0 && Continues(s[1]) then 2
    else if |s| >= 3 && 0xe0 <= a < 0xf0 && Continues(s[1]) && Continues(s[2])
            && (a == 0xe0 ==> s[1] >= 0xa0) && (a == 0xed ==> s[1] < 0xa0) then 3
    else if |s| >= 4 && 0xf0 <= a < 0xf5 && Continues(s[1]) && Continues(s[2]) && Continues(s[3])
            && (a == 0xf0 ==> s[1] >= 0x90) && (a == 0xf4 ==> s[1] < 0x90) then 4
    else 0
  }

  /** Well-formed UTF-8. */
  predicate IsText(s: seq<byte>) {
    s == [] || (CharLength(s) > 0 && IsText(s[CharLength(s)..]))
  }

  /** Without the zeros at its end. */
  function Trimmed(s: seq<byte>): seq<byte> {
    if s != [] && s[|s| - 1] == 0 then Trimmed(s[..|s| - 1]) else s
  }

  function DigitValue(c: byte): Option<nat> {
    if 0x30 <= c < 0x3a then Some(c - 0x30)
    else if 0x41 <= c < 0x47 then Some(c - 0x41 + 10)
    else if 0x61 <= c < 0x67 then Some(c - 0x61 + 10)
    else None
  }

  function HexValue(s: seq<byte>): Option<nat> {
    if s == [] then Some(0)
    else
      var high :- HexValue(s[..|s| - 1]);
      var low :- DigitValue(s[|s| - 1]);
      Some(16 * high + low)
  }

  /** A hexadecimal number; a plus sign in front is accepted. */
  function Hex(s: seq<byte>): Option<nat> {
    if |s| > 1 && s[0] == 0x2b then HexValue(s[1..])
    else if s == [] then None
    else HexValue(s)
  }

  // ---- Finding a file ----

  function RoundUp(n: nat): (r: nat)
    ensures n <= r < n + 4
  {
    (n + 3) / 4 * 4
  }

  function Rest(s: seq<byte>, off: nat): seq<byte> {
    if off <= |s| then s[off..] else []
  }

  datatype Entry = Entry(name: seq<byte>, dataStart: nat, fileSize: nat)

  /** The name behind a header, if it is text and not the trailer's. */
  function NameIn(s: seq<byte>, nameSize: nat): Option<seq<byte>> {
    if HEADER_SIZE + nameSize > |s| then None
    else NameFrom(s[HEADER_SIZE..HEADER_SIZE + nameSize])
  }

  function NameFrom(text: seq<byte>): Option<seq<byte>> {
    if !IsText(text) || Trimmed(text) == TRAILER then None else Some(Trimmed(text))
  }

  /** File size and name size in a header. */
  function SizesIn(s: seq<byte>): Option<(nat, nat)> {
    if |s| < HEADER_SIZE || s[..6] != MAGIC then None
    else
      var fileSize :- Hex(s[54..62]);
      var nameSize :- Hex(s[94..102]);
      Some((fileSize, nameSize))
  }

  /** The entry at the front of an archive, if it is well formed and not the trailer. */
  function FirstEntry(s: seq<byte>): (r: Option<Entry>)
    ensures r.Some? ==>
      |s| >= HEADER_SIZE && r.value.dataStart >= HEADER_SIZE && r.value.dataStart + r.value.fileSize <= |s|
  {
    var sizes :- SizesIn(s);
    var name :- NameIn(s, sizes.1);
    var dataStart := RoundUp(HEADER_SIZE + sizes.1);
    if dataStart + sizes.0 > |s| then None else Some(Entry(name, dataStart, sizes.0))
  }

  /** How the front of an archive is read. */
  type Reading = seq<byte> -> Option<Entry>

  ghost predicate InBounds(first: Reading) {
    forall s {:trigger first(s)} :: first(s).Some? ==>
      first(s).value.dataStart >= HEADER_SIZE && first(s).value.dataStart + first(s).value.fileSize <= |s|
  }

  /** The data of the first entry with the target's name, for any way of reading entries. */
  ghost function Scan(first: Reading, s: seq<byte>, target: seq<byte>): Option<seq<byte>>
    requires InBounds(first)
    decreases |s|
  {
    match first(s)
    case None => None
    case Some(e) =>
      if e.name == target then Some(s[e.dataStart..e.dataStart + e.fileSize])
      else Scan(first, Rest(s, e.dataStart + RoundUp(e.fileSize)), target)
  }

  /** Where looking at one entry leads. */
  datatype Visited = Absent | Found(start: nat, size: nat) | Onward(offset: nat)

  function VisitedBy(entry: Option<Entry>, offset: nat, target: seq<byte>): Visited {
    match entry
    case None => Absent
    case Some(e) =>
      if e.name == target then Found(offset + e.dataStart,
                                     e.fileSize) else Onward(offset + e.dataStart + RoundUp(e.fileSize))
  }

  ghost predicate Leads(archive: seq<byte>, offset: nat, target: seq<byte>, v: Visited, found: Option<seq<byte>>) {
    match v
    case Absent => found == None
    case Found(data, size) => data + size <= |archive| && found == Some(archive[data..data + size])
    case Onward(next) => next > offset
  }

  lemma {:induction false} ScanVisit(first: Reading, archive: seq<byte>, offset: nat, target: seq<byte>,
                                     entry: Option<Entry>)
    requires InBounds(first) && first(Rest(archive, offset)) == entry
    ensures var v, found := VisitedBy(entry, offset, target), Scan(first, Rest(archive, offset), target);
            && Leads(archive, offset, target, v, found)
            && (v.Onward? ==> found == Scan(first, Rest(archive, v.offset), target))
  {
    if entry.Some? {
      var e := entry.value;
      if e.name == target {
        FieldAt(archive, offset, e.dataStart, e.dataStart + e.fileSize);
      } else {
        RestOfRest(archive, offset, e.dataStart + RoundUp(e.fileSize));
      }
    }
  }

  lemma {:induction false} ScanFront(first: Reading, s: seq<byte>, e: Entry, data: seq<byte>, rest: seq<byte>,
                                     target: seq<byte>)
    requires InBounds(first) && first(s) == Some(e)
    requires e.dataStart + e.fileSize <= |s| && s[e.dataStart..e.dataStart + e.fileSize] == data
    requires Rest(s, e.dataStart + RoundUp(e.fileSize)) == rest
    ensures Scan(first, s, target) == if e.name == target then Some(data) else Scan(first, rest, target)
  {
  }

  lemma {:induction false} ScanEnds(first: Reading, s: seq<byte>, target: seq<byte>)
    requires InBounds(first) && (first(s).None? || |s| < HEADER_SIZE)
    ensures Scan(first, s, target) == None
  {
  }

  /** What is found in an archive of any bytes. */
  ghost function Find(s: seq<byte>, target: seq<byte>): Option<seq<byte>> {
    assert InBounds(FirstEntry);
    Scan(FirstEntry, s, target)
  }

  lemma {:induction false} RestOfRest(s: seq<byte>, a: nat, b: nat)
    ensures Rest(Rest(s, a), b) == Rest(s, a + b)
  {
    if a + b <= |s| {
      assert s[a..][b..] == s[a + b..];
    }
  }

  /** Reading the archive at an offset is reading its rest. */
  lemma FieldAt(archive: seq<byte>, offset: nat, lo: nat, hi: nat)
    requires lo <= hi && offset + hi <= |archive|
    ensures archive[offset + lo..offset + hi] == Rest(archive, offset)[lo..hi]
  {
    SliceOfSlice(archive, offset, |archive| - offset, lo, hi - lo);
    assert Slice(archive, offset, |archive| - offset) == Rest(archive, offset);
  }

  /** The header at an offset: file size and name size, if it is one. */
  method ReadHeader(archive: seq<byte>, offset: nat) returns (r: Option<(nat, nat)>)
    requires offset + HEADER_SIZE <= |archive|
    ensures r == SizesIn(Rest(archive, offset))
  {
    FieldAt(archive, offset, 0, 6);
    FieldAt(archive, offset, 54, 62);
    FieldAt(archive, offset, 94, 102);
    if archive[offset..offset + 6] != MAGIC {
      return None;
    }
    var fileSize :- Hex(archive[offset + 54..offset + 62]);
    var nameSize :- Hex(archive[offset + 94..offset + 102]);
    return Some((fileSize, nameSize));
  }

  /** The name behind the header at an offset. */
  method ReadName(archive: seq<byte>, offset: nat, nameSize: nat) returns (r: Option<seq<byte>>)
    requires offset + HEADER_SIZE <= |archive|
    ensures r == NameIn(Rest(archive, offset), nameSize)
  {
    var nameStart := offset + HEADER_SIZE;
    if nameStart + nameSize > |archive| {
      return None;
    }
    FieldAt(archive, offset, HEADER_SIZE, HEADER_SIZE + nameSize);
    var text := archive[nameStart..nameStart + nameSize];
    if !IsText(text) {
      return None;
    }
    var name := Trimmed(text);
    if name == TRAILER {
      return None;
    }
    return Some(name);
  }

  /** The entry at an offset, up to where its data is. */
  method ReadEntry(archive: seq<byte>, offset: nat) returns (r: Option<Entry>)
    requires offset + HEADER_SIZE <= |archive|
    ensures r == FirstEntry(Rest(archive, offset))
  {
    var sizes :- ReadHeader(archive, offset);
    var name :- ReadName(archive, offset, sizes.1);
    var dataStart := RoundUp(HEADER_SIZE + sizes.1);
    if offset + dataStart + sizes.0 > |archive| {
      return None;
    }
    return Some(Entry(name, dataStart, sizes.0));
  }

  /** Looks at one entry: the search ends here, or goes on behind it. */
  method Visit(archive: seq<byte>, offset: nat, target: seq<byte>) returns (r: Visited)
    requires offset + HEADER_SIZE <= |archive|
    ensures Leads(archive, offset, target, r, Find(Rest(archive, offset), target))
    ensures r.Onward? ==> Find(Rest(archive, offset), target) == Find(Rest(archive, r.offset), target)
  {
    assert InBounds(FirstEntry);
    var entry := ReadEntry(archive, offset);
    r := VisitedBy(entry, offset, target);
    ScanVisit(FirstEntry, archive, offset, target, entry);
  }

  lemma FindShort(s: seq<byte>, target: seq<byte>)
    requires |s| < HEADER_SIZE
    ensures Find(s, target) == None
  {
    assert InBounds(FirstEntry);
    ScanEnds(FirstEntry, s, target);
  }

  /** Scans an archive of any bytes; the result is a slice of the archive. */
  method FindFile(archive: seq<byte>, target: seq<byte>) returns (r: Option<seq<byte>>, ghost start: nat)
    ensures r == Find(archive, target)
    ensures r.Some? ==> start + |r.value| <= |archive| && r.value == archive[start..start + |r.value|]
  {
    var offset := 0;
    start := 0;
    assert Rest(archive, 0) == archive;
    while offset + HEADER_SIZE <= |archive|
      invariant Find(archive, target) == Find(Rest(archive, offset), target)
      decreases |archive| - offset
    {
      var visited := Visit(archive, offset, target);
      match visited {
        case Absent => return None, 0;
        case Found(data, size) => return Some(archive[data..data + size]), data;
        case Onward(next) => offset := next;
      }
    }
    FindShort(Rest(archive, offset), target);
    return None, 0;
  }

  // ---- Archives ----

  /** A file, with whatever else its header says. */
  datatype File = File(name: seq<byte>, data: seq<byte>, before: seq<byte>, between: seq<byte>, check: seq<byte>)

  function Pow16(k: nat): nat {
    if k == 0 then 1 else 16 * Pow16(k - 1)
  }

  function Digit(d: nat): byte
    requires d < 16
  {
    if d < 10 then 0x30 + d else 0x41 + d - 10
  }

  /** n in k hexadecimal digits. */
  function Digits(n: nat, k: nat): (r: seq<byte>)
    ensures |r| == k
  {
    if k == 0 then [] else Digits(n / 16, k - 1) + [Digit(n % 16)]
  }

  lemma {:induction false} DigitsRead(n: nat, k: nat)
    requires n < Pow16(k)
    ensures HexValue(Digits(n, k)) == Some(n)
    ensures forall i :: 0 <= i < k ==> Digits(n, k)[i] != 0x2b
  {
    if k > 0 {
      DigitsRead(n / 16, k - 1);
      var s := Digits(n, k);
      assert s[..|s| - 1] == Digits(n / 16, k - 1);
    }
  }

  lemma NumberRead(n: nat)
    requires n < Pow16(8)
    ensures Hex(Digits(n, 8)) == Some(n)
  {
    DigitsRead(n, 8);
  }

  function Zeros(n: nat): (r: seq<byte>)
    ensures |r| == n && forall i :: 0 <= i < n ==> r[i] == 0
  {
    seq<byte>(n, i => 0)
  }

  /** What an entry can hold: a name that is text and does not end in zeros, and sizes of 32 bits. */
  predicate FileOk(f: File) {
    && IsText(f.name) && Trimmed(f.name) == f.name && |f.name| + 1 < Pow16(8) && |f.data| < Pow16(8)
    && |f.before| == 48 && |f.between| == 32 && |f.check| == 8
  }

  function HeaderOf(f: File): seq<byte> {
    MAGIC + f.before + Digits(|f.data|, 8) + f.between + Digits(|f.name| + 1, 8) + f.check
  }

  function NamePart(f: File): seq<byte> {
    f.name + [0] + Zeros(RoundUp(HEADER_SIZE + |f.name| + 1) - (HEADER_SIZE + |f.name| + 1))
  }

  function DataPart(f: File): seq<byte> {
    f.data + Zeros(RoundUp(|f.data|) - |f.data|)
  }

  /** One entry: header, name and data, the latter two padded. */
  function EntryOf(f: File): seq<byte> {
    HeaderOf(f) + NamePart(f) + DataPart(f)
  }

  /** The archive of a list of files, with anything after its trailer. */
  function Archive(files: seq<File>, trailer: File, after: seq<byte>): seq<byte> {
    if files == [] then EntryOf(trailer) + after else EntryOf(files[0]) + Archive(files[1..], trailer, after)
  }

  function Lookup(files: seq<File>, target: seq<byte>): Option<seq<byte>> {
    if files == [] then None
    else if files[0].name == target then Some(files[0].data)
    else Lookup(files[1..], target)
  }

  // ---- Reading back what was written ----

  lemma {:induction false} TextThenZero(s: seq<byte>)
    requires IsText(s)
    ensures IsText(s + [0])
    decreases |s|
  {
    var t := s + [0];
    if s != [] {
      var n := CharLength(s);
      assert CharLength(t) == n;
      assert t[n..] == s[n..] + [0];
      TextThenZero(s[n..]);
    } else {
      assert t[CharLength(t)..] == [];
    }
  }

  lemma TrimZero(s: seq<byte>)
    ensures Trimmed(s + [0]) == Trimmed(s)
  {
    assert (s + [0])[..|s|] == s;
  }

  lemma HeaderFields(f: File, rest: seq<byte>)
    requires FileOk(f)
    ensures var s := HeaderOf(f) + rest;
            && |HeaderOf(f)| == HEADER_SIZE && s[..6] == MAGIC
            && s[54..62] == Digits(|f.data|, 8) && s[94..102] == Digits(|f.name| + 1, 8)
            && s[HEADER_SIZE..] == rest
  {
  }

  lemma NameBack(f: File)
    requires FileOk(f)
    ensures |NamePart(f)| == RoundUp(HEADER_SIZE + |f.name| + 1) - HEADER_SIZE
    ensures NamePart(f)[..|f.name| + 1] == f.name + [0]
    ensures IsText(f.name + [0]) && Trimmed(f.name + [0]) == f.name
  {
    TextThenZero(f.name);
    TrimZero(f.name);
  }

  lemma Parts(h: seq<byte>, n: seq<byte>, d: seq<byte>, rest: seq<byte>, k: nat, m: nat)
    requires k <= |n| && m <= |d|
    ensures var s := h + n + d + rest;
            && s == h + (n + d + rest)
            && s[|h|..|h| + k] == n[..k]
            && s[|h| + |n|..|h| + |n| + m] == d[..m]
            && s[|h| + |n| + |d|..] == rest
  {
  }

  /** Where the name and the data of the first file are in an archive. */
  lemma EntryParts(f: File, rest: seq<byte>)
    requires FileOk(f)
    ensures var s, start := EntryOf(f) + rest, RoundUp(HEADER_SIZE + |f.name| + 1);
            && |s| >= start + |f.data| && |HeaderOf(f)| == HEADER_SIZE
            && s == HeaderOf(f) + (NamePart(f) + DataPart(f) + rest)
            && s[HEADER_SIZE..HEADER_SIZE + |f.name| + 1] == f.name + [0]
            && s[start..start + |f.data|] == f.data
            && Rest(s, start + RoundUp(|f.data|)) == rest
  {
    HeaderFields(f, []);
    NameBack(f);
    assert DataPart(f)[..|f.data|] == f.data;
    Parts(HeaderOf(f), NamePart(f), DataPart(f), rest, |f.name| + 1, |f.data|);
  }

  /** The first entry of an archive is what was written first. */
  lemma FirstRead(f: File, rest: seq<byte>)
    requires FileOk(f)
    ensures FirstEntry(EntryOf(f) + rest)
         == if f.name == TRAILER then None else Some(Entry(f.name, RoundUp(HEADER_SIZE + |f.name| + 1), |f.data|))
  {
    EntryParts(f, rest);
    HeaderFields(f, NamePart(f) + DataPart(f) + rest);
    NameBack(f);
    NumberRead(|f.data|);
    NumberRead(|f.name| + 1);
  }

  /** The first file is found under its name, and passed by under any other. */
  lemma FirstFound(f: File, rest: seq<byte>, target: seq<byte>)
    requires FileOk(f) && f.name != TRAILER
    ensures Find(EntryOf(f) + rest, target) == if f.name == target then Some(f.data) else Find(rest, target)
  {
    assert InBounds(FirstEntry);
    FirstRead(f, rest);
    EntryParts(f, rest);
    ScanFront(FirstEntry, EntryOf(f) + rest, Entry(f.name, RoundUp(HEADER_SIZE + |f.name| + 1), |f.data|), f.data, rest,
              target);
  }

  lemma NothingAfterTrailer(trailer: File, after: seq<byte>, target: seq<byte>)
    requires FileOk(trailer) && trailer.name == TRAILER
    ensures Find(EntryOf(trailer) + after, target) == None
  {
    assert InBounds(FirstEntry);
    FirstRead(trailer, after);
    ScanEnds(FirstEntry, EntryOf(trailer) + after, target);
  }

  /** Round trip: in the archive of any list of files, whatever follows its trailer, the file found
      is the first one with the target's name, and none if there is none. */
  lemma {:induction false} RoundTrip(files: seq<File>, trailer: File, after: seq<byte>, target: seq<byte>)
    requires forall f <- files :: FileOk(f) && f.name != TRAILER
    requires FileOk(trailer) && trailer.name == TRAILER
    ensures Find(Archive(files, trailer, after), target) == Lookup(files, target)
    decreases |files|
  {
    if files == [] {
      NothingAfterTrailer(trailer, after, target);
    } else {
      FirstFound(files[0], Archive(files[1..], trailer, after), target);
      RoundTrip(files[1..], trailer, after, target);
    }
  }
}
