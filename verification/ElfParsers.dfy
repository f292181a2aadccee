/** The two ELF parsers agree: whatever the kernel's accepts, the root server's accepts with the
    same entry and the same load headers. */
module ElfParsers {
  import opened Outcomes
  import opened Bytes
  import BootElf
  import OmegaElf

  function AsLoadHeader(p: OmegaElf.ProgramHeader): BootElf.LoadHeader {
    BootElf.LoadHeader(p.fileOffset, p.address, p.fileSize, p.memorySize, p.alignment, p.flags)
  }

  /** The load headers among the program headers. */
  function Loads(ps: seq<OmegaElf.ProgramHeader>): seq<BootElf.LoadHeader> {
    if ps == [] then [] else (if ps[0].kind == 1 then [AsLoadHeader(ps[0])] else []) + Loads(ps[1..])
  }

  lemma FieldOfHeader(bytes: seq<byte>, off: nat, n: nat)
    requires |bytes| >= BootElf.HEADER_SIZE && off + n <= BootElf.HEADER_SIZE
    ensures BootElf.NumberAt(Slice(bytes, 0, BootElf.HEADER_SIZE), off, n)
         == OmegaElf.Field(bytes, OmegaElf.LittleEndian, off, n)
  {
    SliceOfSlice(bytes, 0, BootElf.HEADER_SIZE, off, n);
  }

  /** The header the kernel accepts is one the root server accepts. */
  lemma HeadersAgree(bytes: seq<byte>)
    requires BootElf.Parse(bytes).Some?
    ensures var h := OmegaElf.HeaderAt(bytes);
            && h.Some? && h.value.class_ == OmegaElf.Elf64 && h.value.endianness == OmegaElf.LittleEndian
            && h.value.objectType == OmegaElf.Executable && h.value.machine == OmegaElf.Amd64
            && h.value.entry == BootElf.Parse(bytes).value.entry
            && OmegaElf.TableAt(bytes, h.value) == Some(BootElf.Parse(bytes).value.headers)
            && |BootElf.Parse(bytes).value.headers| == h.value.programCount * BootElf.ENTRY_SIZE
  {
    var header := Slice(bytes, 0, BootElf.HEADER_SIZE);
    assert header[..7] == bytes[..7];
    assert bytes[..4] == BootElf.IDENT[..4] == OmegaElf.MAGIC;
    assert bytes[4] == BootElf.IDENT[4] && bytes[5] == BootElf.IDENT[5];
    FieldOfHeader(bytes, 16, 2);
    FieldOfHeader(bytes, 18, 2);
    FieldOfHeader(bytes, 24, 8);
    FieldOfHeader(bytes, 32, 8);
    FieldOfHeader(bytes, 52, 2);
    FieldOfHeader(bytes, 54, 2);
    FieldOfHeader(bytes, 56, 2);
  }

  /** One program header, read at fixed offsets or in order. */
  lemma EntriesAgree(h: seq<byte>)
    requires |h| == BootElf.ENTRY_SIZE
    ensures var p := OmegaElf.EntryAt(h, OmegaElf.Elf64, OmegaElf.LittleEndian).value;
            p.kind == BootElf.NumberAt(h, 0, 4) && AsLoadHeader(p) == BootElf.LoadHeaderOf(h)
  {
  }

  lemma {:induction false} LoadsAgree(headers: seq<byte>, n: nat, i: nat)
    requires |headers| == n * BootElf.ENTRY_SIZE && i <= n
    ensures BootElf.Count(headers) == n
    ensures Loads(OmegaElf.Entries(headers[i * BootElf.ENTRY_SIZE..], OmegaElf.Elf64, OmegaElf.LittleEndian, n - i))
         == BootElf.LoadHeadersFrom(headers, i)
    decreases n - i
  {
    if i < n {
      var rest := headers[i * BootElf.ENTRY_SIZE..];
      var chunk := BootElf.Chunk(headers, i);
      assert rest[..BootElf.ENTRY_SIZE] == chunk;
      assert rest[BootElf.ENTRY_SIZE..] == headers[(i + 1) * BootElf.ENTRY_SIZE..];
      EntriesAgree(chunk);
      LoadsAgree(headers, n, i + 1);
      var p := OmegaElf.EntryAt(chunk, OmegaElf.Elf64, OmegaElf.LittleEndian).value;
      var more := OmegaElf.Entries(rest[BootElf.ENTRY_SIZE..], OmegaElf.Elf64, OmegaElf.LittleEndian, n - i - 1);
      assert ([p] + more)[1..] == more;
    }
  }

  /** Whenever the kernel's parser accepts an image, the root server's accepts it, with the same
      entry and the same load headers in the same order. */
  lemma ParsersAgree(bytes: seq<byte>)
    requires BootElf.Parse(bytes).Some?
    ensures OmegaElf.HeaderAt(bytes).Some?
    ensures var elf, h := BootElf.Parse(bytes).value, OmegaElf.HeaderAt(bytes).value;
            && h.entry == elf.entry && OmegaElf.TableAt(bytes, h).Some?
            && Loads(OmegaElf.Entries(OmegaElf.TableAt(bytes, h).value, h.class_, h.endianness, h.programCount))
               == BootElf.LoadHeadersFrom(elf.headers, 0)
  {
    HeadersAgree(bytes);
    var elf, h := BootElf.Parse(bytes).value, OmegaElf.HeaderAt(bytes).value;
    LoadsAgree(elf.headers, h.programCount, 0);
    assert elf.headers[0..] == elf.headers;
  }
}
