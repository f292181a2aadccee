/** Executables put together field by field, and what the kernel's parser finds in them. */
module ElfFiles {
  import opened Outcomes
  import opened Numbers
  import opened Bytes
  import opened BootElf

  // ---- Numbers as bytes ----

  function Spell(n: nat, k: nat): (r: seq<byte>)
    ensures |r| == k
    decreases k
  {
    if k == 0 then [] else [n % 256] + Spell(n / 256, k - 1)
  }

  function Pow256(k: nat): nat {
    if k == 0 then 1 else 256 * Pow256(k - 1)
  }

  lemma {:induction false} SpellReads(n: nat, k: nat)
    requires n < Pow256(k)
    ensures Little(Spell(n, k)) == n
    decreases k
  {
    if k > 0 {
      SpellReads(n / 256, k - 1);
      assert Spell(n, k)[1..] == Spell(n / 256, k - 1);
    }
  }

  /** A number and how many bytes it takes. */
  datatype Field = Field(value: nat, size: nat)

  function Spelled(fs: seq<Field>): seq<byte> {
    if fs == [] then [] else Spelled(fs[..|fs| - 1]) + Spell(fs[|fs| - 1].value, fs[|fs| - 1].size)
  }

  /** Where field i starts; the end of the last field for i == |fs|. */
  function Offset(fs: seq<Field>, i: nat): nat
    requires i <= |fs|
  {
    if i == 0 then 0 else Offset(fs, i - 1) + fs[i - 1].size
  }

  lemma {:induction false} OffsetOfPrefix(fs: seq<Field>, n: nat, i: nat)
    requires i <= n <= |fs|
    ensures Offset(fs[..n], i) == Offset(fs, i)
  {
    if i > 0 {
      OffsetOfPrefix(fs, n, i - 1);
    }
  }

  lemma {:induction false} SpelledLength(fs: seq<Field>)
    ensures |Spelled(fs)| == Offset(fs, |fs|)
  {
    if fs != [] {
      var n := |fs| - 1;
      SpelledLength(fs[..n]);
      OffsetOfPrefix(fs, n, n);
    }
  }

  lemma SliceOfSum(a: seq<byte>, b: seq<byte>, off: nat, n: nat)
    requires off + n <= |a|
    ensures Slice(a + b, off, n) == Slice(a, off, n)
  {
  }

  /** Each number is read back where it was written. */
  lemma {:induction false} FieldReads(fs: seq<Field>, i: nat)
    requires i < |fs| && fs[i].value < Pow256(fs[i].size)
    ensures Offset(fs, i) + fs[i].size <= |Spelled(fs)|
    ensures NumberAt(Spelled(fs), Offset(fs, i), fs[i].size) == fs[i].value
  {
    var n := |fs| - 1;
    var rest, last := Spelled(fs[..n]), Spell(fs[n].value, fs[n].size);
    SpelledLength(fs[..n]);
    OffsetOfPrefix(fs, n, i);
    if i < n {
      FieldReads(fs[..n], i);
      SliceOfSum(rest, last, Offset(fs, i), fs[i].size);
    } else {
      assert Slice(rest + last, |rest|, |last|) == last;
      SpellReads(fs[n].value, fs[n].size);
    }
  }

  lemma Powers()
    ensures Pow256(2) == 0x1_0000 && Pow256(4) == 0x1_0000_0000 && Pow256(8) == WORD
  {
    assert Pow256(1) == 256 * Pow256(0);
    assert Pow256(2) == 256 * Pow256(1);
    assert Pow256(3) == 256 * Pow256(2);
    assert Pow256(4) == 256 * Pow256(3);
    assert Pow256(5) == 256 * Pow256(4);
    assert Pow256(6) == 256 * Pow256(5);
    assert Pow256(7) == 256 * Pow256(6);
    assert Pow256(8) == 256 * Pow256(7);
  }

  // ---- A program header ----

  datatype Program = Program(kind: nat, load: LoadHeader, physical: nat)

  predicate ProgramFits(p: Program) {
    && p.kind < 0x1_0000_0000 && p.load.flags < 0x1_0000_0000 && p.physical < WORD
    && p.load.offset < WORD && p.load.address < WORD && p.load.fileSize < WORD
    && p.load.memorySize < WORD && p.load.alignment < WORD
  }

  function ProgramFields(p: Program): seq<Field> {
    [Field(p.kind, 4), Field(p.load.flags, 4), Field(p.load.offset, 8), Field(p.load.address, 8), Field(p.physical, 8),
     Field(p.load.fileSize, 8), Field(p.load.memorySize, 8), Field(p.load.alignment, 8)]
  }

  lemma ProgramOffsets(p: Program)
    ensures var fs := ProgramFields(p);
            && Offset(fs, 0) == 0 && Offset(fs, 1) == 4 && Offset(fs, 2) == 8 && Offset(fs, 3) == 16
            && Offset(fs, 4) == 24
            && Offset(fs, 5) == 32 && Offset(fs, 6) == 40 && Offset(fs, 7) == 48 && |Spelled(fs)| == ENTRY_SIZE
  {
    var fs := ProgramFields(p);
    SpelledLength(fs);
    assert Offset(fs, 1) == 4;
    assert Offset(fs, 2) == 8;
    assert Offset(fs, 3) == 16;
    assert Offset(fs, 4) == 24;
    assert Offset(fs, 5) == 32;
    assert Offset(fs, 6) == 40;
    assert Offset(fs, 7) == 48;
  }

  function ProgramBytes(p: Program): (r: seq<byte>)
    ensures |r| == ENTRY_SIZE
  {
    ProgramOffsets(p);
    Spelled(ProgramFields(p))
  }

  /** Each field is read back. */
  lemma ProgramReads(p: Program)
    requires ProgramFits(p)
    ensures NumberAt(ProgramBytes(p), 0, 4) == p.kind && LoadHeaderOf(ProgramBytes(p)) == p.load
  {
    var fs := ProgramFields(p);
    Powers();
    ProgramOffsets(p);
    FieldReads(fs, 0);
    FieldReads(fs, 1);
    FieldReads(fs, 2);
    FieldReads(fs, 3);
    FieldReads(fs, 5);
    FieldReads(fs, 6);
    FieldReads(fs, 7);
  }

  // ---- The table of program headers ----

  function TableBytes(ps: seq<Program>): (r: seq<byte>)
    ensures |r| == |ps| * ENTRY_SIZE
  {
    if ps == [] then [] else TableBytes(ps[..|ps| - 1]) + ProgramBytes(ps[|ps| - 1])
  }

  lemma TableCount(ps: seq<Program>)
    ensures Count(TableBytes(ps)) == |ps|
  {
  }

  lemma MiddleSlice(a: seq<byte>, b: seq<byte>, off: nat, n: nat)
    requires off == |a| && n == |b|
    ensures Slice(a + b, off, n) == b
  {
  }

  lemma {:induction false} TableSlice(ps: seq<Program>, i: nat, off: nat)
    requires i < |ps| && off == i * ENTRY_SIZE
    ensures off + ENTRY_SIZE <= |TableBytes(ps)| && Slice(TableBytes(ps), off, ENTRY_SIZE) == ProgramBytes(ps[i])
  {
    var n := |ps| - 1;
    var rest, last := TableBytes(ps[..n]), ProgramBytes(ps[n]);
    assert TableBytes(ps) == rest + last;
    if i < n {
      TableSlice(ps[..n], i, off);
      SliceOfSum(rest, last, off, ENTRY_SIZE);
    } else {
      MiddleSlice(rest, last, off, ENTRY_SIZE);
    }
  }

  lemma TableChunk(ps: seq<Program>, i: nat)
    requires i < |ps|
    ensures (i + 1) * ENTRY_SIZE <= |TableBytes(ps)| && Chunk(TableBytes(ps), i) == ProgramBytes(ps[i])
  {
    TableSlice(ps, i, i * ENTRY_SIZE);
  }

  /** The load headers among the program headers. */
  function LoadsOf(ps: seq<Program>): seq<LoadHeader> {
    if ps == [] then [] else (if ps[0].kind == 1 then [ps[0].load] else []) + LoadsOf(ps[1..])
  }

  predicate TableFits(ps: seq<Program>) {
    forall p <- ps :: ProgramFits(p) && !IsLinkerType(p.kind)
  }

  lemma LoadsNext(headers: seq<byte>, i: nat)
    requires i < Count(headers)
    ensures (i + 1) * ENTRY_SIZE <= |headers|
    ensures LoadHeadersFrom(headers, i)
         == (if NumberAt(Chunk(headers, i), 0, 4) == 1 then [LoadHeaderOf(Chunk(headers, i))] else [])
            + LoadHeadersFrom(headers, i + 1)
  {
  }

  lemma {:induction false} TableReads(ps: seq<Program>, i: nat)
    requires TableFits(ps) && i <= |ps|
    ensures Count(TableBytes(ps)) == |ps| && LoadHeadersFrom(TableBytes(ps), i) == LoadsOf(ps[i..])
    decreases |ps| - i
  {
    TableCount(ps);
    if i < |ps| {
      assert ps[i] in ps;
      TableChunk(ps, i);
      ProgramReads(ps[i]);
      TableReads(ps, i + 1);
      LoadsNext(TableBytes(ps), i);
      assert ps[i..][1..] == ps[i + 1..];
    }
  }

  lemma NoLinker(ps: seq<Program>)
    requires TableFits(ps)
    ensures !NeedsLinker(TableBytes(ps))
  {
    forall i: nat | i < Count(TableBytes(ps))
      ensures !IsLinkerType(NumberAt(Chunk(TableBytes(ps), i), 0, 4))
    {
      TableReads(ps, 0);
      TableChunk(ps, i);
      assert ps[i] in ps;
      ProgramReads(ps[i]);
    }
  }

  // ---- A whole file ----

  /** What a file may choose: everything else in its header is fixed. */
  datatype File = File(padding: seq<byte>, entry: nat, sections: nat, flags: nat, sectionFields: seq<byte>,
                       gap: seq<byte>, programs: seq<Program>, rest: seq<byte>)

  predicate FileFits(f: File) {
    && |f.padding| == 9 && f.entry < WORD && f.sections < WORD && f.flags < 0x1_0000_0000 && |f.sectionFields| == 6
    && |f.programs| < 0x1_0000 && TableFits(f.programs)
    && HEADER_SIZE + |f.gap| + |f.programs| * ENTRY_SIZE < WORD
  }

  function HeaderFields(f: File): seq<Field> {
    [Field(2, 2), Field(MACHINE, 2), Field(1, 4), Field(f.entry, 8), Field(HEADER_SIZE + |f.gap|, 8),
     Field(f.sections, 8),
     Field(f.flags, 4), Field(HEADER_SIZE, 2), Field(ENTRY_SIZE, 2), Field(|f.programs|, 2)]
  }

  lemma HeaderOffsets(f: File)
    ensures var fs := HeaderFields(f);
            && Offset(fs, 0) == 0 && Offset(fs, 1) == 2 && Offset(fs, 2) == 4 && Offset(fs, 3) == 8
            && Offset(fs, 4) == 16
            && Offset(fs, 5) == 24 && Offset(fs, 6) == 32 && Offset(fs, 7) == 36 && Offset(fs, 8) == 38
            && Offset(fs, 9) == 40
            && |Spelled(fs)| == 42
  {
    var fs := HeaderFields(f);
    SpelledLength(fs);
    assert Offset(fs, 1) == 2;
    assert Offset(fs, 2) == 4;
    assert Offset(fs, 3) == 8;
    assert Offset(fs, 4) == 16;
    assert Offset(fs, 5) == 24;
    assert Offset(fs, 6) == 32;
    assert Offset(fs, 7) == 36;
    assert Offset(fs, 8) == 38;
    assert Offset(fs, 9) == 40;
  }

  function FileHeader(f: File): (r: seq<byte>)
    requires FileFits(f)
    ensures |r| == HEADER_SIZE
  {
    HeaderOffsets(f);
    IDENT + f.padding + Spelled(HeaderFields(f)) + f.sectionFields
  }

  function FileBytes(f: File): seq<byte>
    requires FileFits(f)
  {
    FileHeader(f) + f.gap + TableBytes(f.programs) + f.rest
  }

  /** Field i of the header is read back. */
  lemma HeaderField(f: File, i: nat)
    requires FileFits(f) && i < 10
    ensures var fs := HeaderFields(f);
            && 16 + Offset(fs, i) + fs[i].size <= HEADER_SIZE
            && NumberAt(FileHeader(f), 16 + Offset(fs, i), fs[i].size) == fs[i].value
  {
    var fs := HeaderFields(f);
    Powers();
    HeaderOffsets(f);
    FieldReads(fs, i);
    var before, all := IDENT + f.padding, Spelled(fs);
    var k, n := Offset(fs, i), fs[i].size;
    assert Slice(before + all + f.sectionFields, |before| + k, n) == Slice(all, k, n);
  }

  lemma HeaderReads(f: File)
    requires FileFits(f)
    ensures HeaderOk(FileHeader(f))
    ensures NumberAt(FileHeader(f), 24, 8) == f.entry && NumberAt(FileHeader(f), 32, 8) == HEADER_SIZE + |f.gap|
    ensures NumberAt(FileHeader(f), 56, 2) == |f.programs|
  {
    HeaderOffsets(f);
    HeaderField(f, 0);
    HeaderField(f, 1);
    HeaderField(f, 2);
    HeaderField(f, 3);
    HeaderField(f, 4);
    HeaderField(f, 7);
    HeaderField(f, 8);
    HeaderField(f, 9);
    assert FileHeader(f)[..7] == IDENT;
  }

  /** The kernel's parser finds in a file the entry and the load headers it was made with. */
  lemma ParseFinds(f: File)
    requires FileFits(f)
    ensures Parse(FileBytes(f)) == Some(Elf(FileBytes(f), TableBytes(f.programs), f.entry))
    ensures LoadHeadersFrom(TableBytes(f.programs), 0) == LoadsOf(f.programs)
  {
    var bytes, header, table := FileBytes(f), FileHeader(f), TableBytes(f.programs);
    HeaderReads(f);
    NoLinker(f.programs);
    TableReads(f.programs, 0);
    assert f.programs[0..] == f.programs;
    assert Slice(bytes, 0, HEADER_SIZE) == header;
    assert Slice(bytes, HEADER_SIZE + |f.gap|, |table|) == table;
  }
}
