/** The kernel's ELF parser: fixed offsets in headers whose bounds have been checked. */
module BootElf {
  import opened Outcomes
  import opened Numbers
  import opened Bytes

  const IDENT: seq<byte> := [0x7f, 0x45, 0x4c, 0x46, 2, 1, 1]
  const MACHINE: nat := 62
  const HEADER_SIZE: nat := 64
  const ENTRY_SIZE: nat := 56

  datatype Elf = Elf(bytes: seq<byte>, headers: seq<byte>, entry: nat)

  datatype Segment = Segment(data: seq<byte>, address: nat, memorySize: nat, writable: bool, executable: bool)

  /** The little-endian number of n bytes at an offset. */
  function NumberAt(b: seq<byte>, off: nat, n: nat): nat
    requires off + n <= |b|
  {
    Little(Slice(b, off, n))
  }

  /** The i-th program header. */
  function Chunk(headers: seq<byte>, i: nat): (r: seq<byte>)
    requires (i + 1) * ENTRY_SIZE <= |headers|
    ensures |r| == ENTRY_SIZE
  {
    Slice(headers, i * ENTRY_SIZE, ENTRY_SIZE)
  }

  function Count(headers: seq<byte>): nat {
    |headers| / ENTRY_SIZE
  }

  /** Dynamic and interpreter headers are not supported. */
  predicate NeedsLinker(headers: seq<byte>) {
    exists i: nat :: i < Count(headers) && IsLinkerType(NumberAt(Chunk(headers, i), 0, 4))
  }

  predicate IsLinkerType(kind: nat) {
    kind == 2 || kind == 3
  }

  predicate HeaderOk(b: seq<byte>)
    requires |b| == HEADER_SIZE
  {
    && b[..7] == IDENT && NumberAt(b, 16, 2) == 2 && NumberAt(b, 18, 2) == MACHINE
    && NumberAt(b, 20, 4) == 1 && NumberAt(b, 52, 2) == HEADER_SIZE && NumberAt(b, 54, 2) == ENTRY_SIZE
  }

  function Parse(bytes: seq<byte>): (r: Option<Elf>)
    ensures r.Some? ==> r.value.bytes == bytes && |r.value.headers| % ENTRY_SIZE == 0
  {
    if |bytes| < HEADER_SIZE then None
    else
      var header := Slice(bytes, 0, HEADER_SIZE);
      if !HeaderOk(header) then None
      else
        var offset, count := NumberAt(header, 32, 8), NumberAt(header, 56, 2);
        var end := offset + count * ENTRY_SIZE;
        if end >= WORD || end > |bytes| then None
        else
          var headers := Slice(bytes, offset, count * ENTRY_SIZE);
          if NeedsLinker(headers) then None else Some(Elf(bytes, headers, NumberAt(header, 24, 8)))
  }

  /** What a load header says, before anything is checked. */
  datatype LoadHeader = LoadHeader(offset: nat, address: nat, fileSize: nat, memorySize: nat, alignment: nat,
                                   flags: nat)

  function LoadHeaderOf(h: seq<byte>): LoadHeader
    requires |h| == ENTRY_SIZE
  {
    LoadHeader(NumberAt(h, 8, 8), NumberAt(h, 16, 8), NumberAt(h, 32, 8), NumberAt(h, 40, 8), NumberAt(h, 48, 8),
               NumberAt(h, 4, 4))
  }

  /** The load headers from the i-th header on, in order. */
  function LoadHeadersFrom(headers: seq<byte>, i: nat): seq<LoadHeader>
    requires i <= Count(headers)
    decreases Count(headers) - i
  {
    if i == Count(headers) then []
    else
      var h := Chunk(headers, i);
      (if NumberAt(h, 0, 4) == 1 then [LoadHeaderOf(h)] else []) + LoadHeadersFrom(headers, i + 1)
  }

  predicate IsPowerOfTwo(n: nat) {
    n == 1 || (n > 1 && n % 2 == 0 && IsPowerOfTwo(n / 2))
  }

  function Pow2(k: nat): (r: nat)
    ensures r > 0
  {
    if k == 0 then 1 else 2 * Pow2(k - 1)
  }

  ghost predicate SomePower(n: nat) {
    exists k: nat :: Pow2(k) == n
  }

  /** The test by halving finds exactly the powers of two. */
  lemma {:induction false} PowersOfTwo(n: nat)
    ensures IsPowerOfTwo(n) <==> SomePower(n)
    decreases n
  {
    if n == 1 {
      assert Pow2(0) == 1;
    } else if n > 1 {
      PowersOfTwo(n / 2);
      if n % 2 == 0 && SomePower(n / 2) {
        var k: nat :| Pow2(k) == n / 2;
        assert Pow2(k + 1) == n;
      }
      if SomePower(n) {
        var k: nat :| Pow2(k) == n;
        assert k > 0 && Pow2(k - 1) == n / 2;
      }
    }
  }

  /** Address and file offset of a header agree modulo its alignment, if it states one. */
  ghost predicate AlignmentOk(h: LoadHeader) {
    h.alignment > 1 ==> SomePower(h.alignment) && h.address % h.alignment == h.offset % h.alignment
  }

  /** The checks of one load header, and the segment it describes: accepted exactly when the data is no longer
      than the memory, lies within the file, and is aligned. */
  function SegmentOf(bytes: seq<byte>, h: LoadHeader): (r: Option<Segment>)
    ensures r.Some? <==>
      h.fileSize <= h.memorySize && h.offset + h.fileSize <= |bytes| && h.offset + h.fileSize < WORD && AlignmentOk(h)
    ensures r.Some? ==>
      && r.value.data == bytes[h.offset..h.offset + h.fileSize]
      && r.value.address == h.address && r.value.memorySize == h.memorySize
      && (r.value.writable <==> h.flags / 2 % 2 == 1) && (r.value.executable <==> h.flags % 2 == 1)
  {
    PowersOfTwo(h.alignment);
    if h.fileSize > h.memorySize
       || (h.alignment > 1 && (!IsPowerOfTwo(h.alignment) || h.address % h.alignment != h.offset % h.alignment))
    then None
    else if h.offset + h.fileSize >= WORD || h.offset + h.fileSize > |bytes| then None
    else Some(Segment(Slice(bytes, h.offset, h.fileSize), h.address, h.memorySize, h.flags / 2 % 2 == 1,
                      h.flags % 2 == 1))
  }
}
