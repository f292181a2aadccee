/** The root server's ELF parser: a reader that moves over the bytes, for both classes and both
    byte orders. */
module OmegaElf {
  import opened Outcomes
  import opened Numbers
  import opened Bytes

  datatype Endianness = LittleEndian | BigEndian

  datatype Class = Elf32 | Elf64

  datatype ElfType = Relocatable | Executable | SharedObject | Core

  datatype Isa = NoIsa | Sparc | X86 | Mips | Ppc | Arm | SuperH | Ia64 | Amd64 | AArch64 | Riscv

  const MAGIC: seq<byte> := [0x7f, 0x45, 0x4c, 0x46]

  datatype Header = Header(
    class_: Class, endianness: Endianness, objectType: ElfType, machine: Isa,
    entry: nat, programOffset: nat, programEntrySize: nat, programCount: nat)

  datatype ProgramHeader = ProgramHeader(
    kind: nat, flags: nat, fileOffset: nat, address: nat, fileSize: nat, memorySize: nat, alignment: nat)

  function ClassOf(v: nat): Option<Class> {
    if v == 1 then Some(Elf32) else if v == 2 then Some(Elf64) else None
  }

  function EndiannessOf(v: nat): Option<Endianness> {
    if v == 1 then Some(LittleEndian) else if v == 2 then Some(BigEndian) else None
  }

  function TypeOf(v: nat): Option<ElfType> {
    if v == 1 then Some(Relocatable) else if v == 2 then Some(Executable)
    else if v == 3 then Some(SharedObject) else if v == 4 then Some(Core) else None
  }

  function IsaOf(v: nat): Option<Isa> {
    match v
    case 0x00 => Some(NoIsa)
    case 0x02 => Some(Sparc)
    case 0x03 => Some(X86)
    case 0x08 => Some(Mips)
    case 0x14 => Some(Ppc)
    case 0x28 => Some(Arm)
    case 0x2A => Some(SuperH)
    case 0x32 => Some(Ia64)
    case 0x3E => Some(Amd64)
    case 0xB7 => Some(AArch64)
    case 0xF3 => Some(Riscv)
    case _ => None
  }

  function WordSize(c: Class): nat {
    match c case Elf32 => 4 case Elf64 => 8
  }

  function HeaderSize(c: Class): nat {
    match c case Elf32 => 52 case Elf64 => 64
  }

  function EntrySize(c: Class): nat {
    match c case Elf32 => 32 case Elf64 => 56
  }

  function Number(e: Endianness, b: seq<byte>): nat {
    match e case LittleEndian => Little(b) case BigEndian => Big(b)
  }

  /** The number of n bytes at an offset. */
  function Field(b: seq<byte>, e: Endianness, off: nat, n: nat): nat
    requires off + n <= |b|
  {
    Number(e, Slice(b, off, n))
  }

  // ---- What the headers are, by position ----

  /** The ELF header as a table of offsets. */
  function HeaderAt(b: seq<byte>): Option<Header> {
    if |b| < 6 || b[..4] != MAGIC then None
    else
      var c :- ClassOf(b[4]);
      var e :- EndiannessOf(b[5]);
      if |b| < HeaderSize(c) then None
      else
        var objectType :- TypeOf(Field(b, e, 16, 2));
        var machine :- IsaOf(Field(b, e, 18, 2));
        var w := WordSize(c);
        if Field(b, e, 28 + 3 * w, 2) != HeaderSize(c) then None
        else Some(Header(c, e, objectType, machine, Field(b, e, 24, w), Field(b, e, 24 + w, w),
                         Field(b, e, 30 + 3 * w, 2), Field(b, e, 32 + 3 * w, 2)))
  }

  /** A program header as a table of offsets. */
  function EntryAt(b: seq<byte>, c: Class, e: Endianness): (r: Option<ProgramHeader>)
    ensures r.Some? <==> |b| >= EntrySize(c)
  {
    if |b| < EntrySize(c) then None else
    Some(match c
    case Elf64 =>
      ProgramHeader(Field(b, e, 0, 4), Field(b, e, 4, 4), Field(b, e, 8, 8), Field(b, e, 16, 8),
                    Field(b, e, 32, 8), Field(b, e, 40, 8), Field(b, e, 48, 8))
    case Elf32 =>
      ProgramHeader(Field(b, e, 0, 4), Field(b, e, 24, 4), Field(b, e, 4, 4), Field(b, e, 8, 4),
                    Field(b, e, 16, 4), Field(b, e, 20, 4), Field(b, e, 28, 4)))
  }

  // ---- The reader ----

  class Reader {
    const bytes: seq<byte>
    var offset: nat
    var endianness: Endianness

    constructor (bytes: seq<byte>)
      ensures this.bytes == bytes && offset == 0 && endianness == LittleEndian
    {
      this.bytes, offset, endianness := bytes, 0, LittleEndian;
    }

    /** The next n bytes, if there are that many. */
    method ReadArray(n: nat) returns (r: Option<seq<byte>>)
      modifies this`offset
      ensures r.Some? <==> old(offset) + n <= |bytes|
      ensures r.Some? ==> r.value == Slice(bytes, old(offset), n) && offset == old(offset) + n
      ensures r.None? ==> offset == old(offset)
    {
      if offset + n > |bytes| {
        return None;
      }
      r := Some(bytes[offset..offset + n]);
      offset := offset + n;
    }

    /** The next number of n bytes. */
    method ReadNumber(n: nat) returns (r: Option<nat>)
      modifies this`offset
      ensures r.Some? <==> old(offset) + n <= |bytes|
      ensures r.Some? ==> r.value == Field(bytes, endianness, old(offset), n) && offset == old(offset) + n
      ensures r.None? ==> offset == old(offset)
    {
      var b :- ReadArray(n);
      return Some(Number(endianness, b));
    }

    method ReadWord(c: Class) returns (r: Option<nat>)
      modifies this`offset
      ensures r.Some? <==> old(offset) + WordSize(c) <= |bytes|
      ensures r.Some? ==>
        r.value == Field(bytes, endianness, old(offset), WordSize(c)) && offset == old(offset) + WordSize(c)
      ensures r.None? ==> offset == old(offset)
    {
      match c {
        case Elf32 => r := ReadNumber(4);
        case Elf64 => r := ReadNumber(8);
      }
    }
  }

  /** Reading the fields one after the other finds each at its offset. */
  method ParseHeader(bytes: seq<byte>) returns (r: Option<Header>)
    ensures r == HeaderAt(bytes)
  {
    var reader := new Reader(bytes);
    var magic :- reader.ReadArray(4);
    if magic != MAGIC {
      return None;
    }
    var classByte :- reader.ReadArray(1);
    var c :- ClassOf(classByte[0]);
    var endianByte :- reader.ReadArray(1);
    var e :- EndiannessOf(endianByte[0]);
    reader.endianness := e;
    var version :- reader.ReadArray(1);
    var osAbi :- reader.ReadArray(1);
    var reserved :- reader.ReadArray(8);
    r := ParseRest(reader, c);
  }

  /** The part of the header in the byte order it states. */
  method ParseRest(reader: Reader, c: Class) returns (r: Option<Header>)
    requires reader.offset == 16 && |reader.bytes| >= 16 && reader.bytes[..4] == MAGIC
    requires ClassOf(reader.bytes[4]) == Some(c) && EndiannessOf(reader.bytes[5]) == Some(reader.endianness)
    modifies reader`offset
    ensures r == HeaderAt(reader.bytes)
  {
    var kind :- reader.ReadNumber(2);
    var objectType :- TypeOf(kind);
    var isa :- reader.ReadNumber(2);
    var machine :- IsaOf(isa);
    var version :- reader.ReadNumber(4);
    var words :- ParseWords(reader, c);
    var sizes :- ParseSizes(reader, c);
    if sizes.0 != HeaderSize(c) {
      return None;
    }
    return Some(Header(c, reader.endianness, objectType, machine, words.0, words.1, sizes.1, sizes.2));
  }

  /** The part whose layout depends on the class. */
  method ParseWords(reader: Reader, c: Class) returns (r: Option<(nat, nat)>)
    requires reader.offset == 24
    modifies reader`offset
    ensures r.Some? <==> 24 + 3 * WordSize(c) <= |reader.bytes|
    ensures r.Some? ==>
      && reader.offset == 24 + 3 * WordSize(c)
      && r.value.0 == Field(reader.bytes, reader.endianness, 24, WordSize(c))
      && r.value.1 == Field(reader.bytes, reader.endianness, 24 + WordSize(c), WordSize(c))
  {
    var entry :- reader.ReadWord(c);
    var programOffset :- reader.ReadWord(c);
    var sectionOffset :- reader.ReadWord(c);
    return Some((entry, programOffset));
  }

  method ParseSizes(reader: Reader, c: Class) returns (r: Option<(nat, nat, nat)>)
    requires reader.offset == 24 + 3 * WordSize(c)
    modifies reader`offset
    ensures r.Some? <==> HeaderSize(c) <= |reader.bytes|
    ensures r.Some? ==>
      var w := WordSize(c);
      && r.value.0 == Field(reader.bytes, reader.endianness, 28 + 3 * w, 2)
      && r.value.1 == Field(reader.bytes, reader.endianness, 30 + 3 * w, 2)
      && r.value.2 == Field(reader.bytes, reader.endianness, 32 + 3 * w, 2)
  {
    var flags :- reader.ReadNumber(4);
    var headerSize :- reader.ReadNumber(2);
    var programEntrySize :- reader.ReadNumber(2);
    var programCount :- reader.ReadNumber(2);
    var sectionEntrySize :- reader.ReadNumber(2);
    var sectionCount :- reader.ReadNumber(2);
    var sectionNames :- reader.ReadNumber(2);
    return Some((headerSize, programEntrySize, programCount));
  }

  method ParseEntry(bytes: seq<byte>, c: Class, e: Endianness) returns (r: Option<ProgramHeader>)
    ensures r == EntryAt(bytes, c, e)
  {
    var reader := new Reader(bytes);
    reader.endianness := e;
    var kind :- reader.ReadNumber(4);
    var flags := 0;
    if c == Elf64 {
      flags :- reader.ReadNumber(4);
    }
    var place :- ParsePlace(reader, c);
    if c == Elf32 {
      flags :- reader.ReadNumber(4);
    }
    var alignment :- reader.ReadWord(c);
    return Some(ProgramHeader(kind, flags, place.0, place.1, place.2, place.3, alignment));
  }

  /** File offset, address and the two sizes; the physical address between them is skipped. */
  method ParsePlace(reader: Reader, c: Class) returns (r: Option<(nat, nat, nat, nat)>)
    modifies reader`offset
    ensures r.Some? <==> old(reader.offset) + 5 * WordSize(c) <= |reader.bytes|
    ensures r.Some? ==>
      var at, w := old(reader.offset), WordSize(c);
      && reader.offset == at + 5 * w
      && r.value.0 == Field(reader.bytes, reader.endianness, at, w)
      && r.value.1 == Field(reader.bytes, reader.endianness, at + w, w)
      && r.value.2 == Field(reader.bytes, reader.endianness, at + 3 * w, w)
      && r.value.3 == Field(reader.bytes, reader.endianness, at + 4 * w, w)
  {
    var fileOffset :- reader.ReadWord(c);
    var address :- reader.ReadWord(c);
    var physical :- reader.ReadWord(c);
    var fileSize :- reader.ReadWord(c);
    var memorySize :- reader.ReadWord(c);
    return Some((fileOffset, address, fileSize, memorySize));
  }

  // ---- The program headers ----

  /** Where the program headers are, once the header has been read. */
  function TableAt(b: seq<byte>, h: Header): Option<seq<byte>> {
    var size := h.programEntrySize * h.programCount;
    if h.programEntrySize != EntrySize(h.class_) then None
    else if h.programOffset + size >= WORD || h.programOffset + size > |b| then None
    else Some(Slice(b, h.programOffset, size))
  }

  /** The program headers left in a table. */
  function Entries(table: seq<byte>, c: Class, e: Endianness, n: nat): seq<ProgramHeader> {
    if n == 0 || |table| < EntrySize(c) then []
    else [EntryAt(table[..EntrySize(c)], c, e).value] + Entries(table[EntrySize(c)..], c, e, n - 1)
  }

  /** Steps through a table of program headers. */
  class ProgramHeaders {
    var bytes: seq<byte>
    const class_: Class
    const endianness: Endianness
    var remaining: nat

    constructor (bytes: seq<byte>, h: Header)
      ensures this.bytes == bytes && class_ == h.class_ && endianness == h.endianness && remaining == h.programCount
    {
      this.bytes, class_, endianness, remaining := bytes, h.class_, h.endianness, h.programCount;
    }

    ghost function Left(): seq<ProgramHeader>
      reads this
    {
      Entries(bytes, class_, endianness, remaining)
    }

    /** The next header; none of them fails to parse. */
    method Next() returns (r: Option<Option<ProgramHeader>>)
      modifies this
      ensures r.None? <==> old(Left()) == []
      ensures r.None? ==> Left() == []
      ensures r.Some? ==> r.value == Some(old(Left())[0]) && Left() == old(Left())[1..]
    {
      if remaining == 0 {
        return None;
      }
      if |bytes| < EntrySize(class_) {
        remaining := 0;
        return None;
      }
      var entry := bytes[..EntrySize(class_)];
      bytes := bytes[EntrySize(class_)..];
      remaining := remaining - 1;
      var parsed := ParseEntry(entry, class_, endianness);
      return Some(parsed);
    }
  }
}
