/** What pages an ELF image describes, and the root server's loader. */
module Loading {
  import opened Outcomes
  import opened Numbers
  import opened Addresses
  import opened Bytes
  import BootElf
  import OmegaElf
  import opened ElfParsers

  datatype Page = Page(bytes: seq<byte>, writable: bool, executable: bool)

  type Image = map<nat, Page>

  datatype LoadError = AddressTranslationFailed | FailedToMapSegment | OutOfMemory | InvalidElf

  // ---- What an image is ----

  function PageStart(addr: nat): (r: nat)
    ensures r % PAGE_SIZE == 0 && r <= addr < r + PAGE_SIZE
  {
    addr - addr % PAGE_SIZE
  }

  /** The byte at x: from the file if the file reaches there, zero otherwise. */
  function ByteAt(data: seq<byte>, address: nat, x: nat): byte {
    if address <= x < address + |data| then data[x - address] else 0
  }

  function PageBytes(data: seq<byte>, address: nat, page: nat): (r: seq<byte>)
    ensures |r| == PAGE_SIZE && forall i :: 0 <= i < PAGE_SIZE ==> r[i] == ByteAt(data, address, page + i)
  {
    seq<byte>(PAGE_SIZE, i requires 0 <= i < PAGE_SIZE => ByteAt(data, address, page + i))
  }

  /** The segment of a load header whose data lies within the file. */
  function SegmentAt(bytes: seq<byte>, h: BootElf.LoadHeader): BootElf.Segment
    requires h.offset + h.fileSize <= |bytes|
  {
    BootElf.Segment(Slice(bytes, h.offset, h.fileSize), h.address, h.memorySize, h.flags / 2 % 2 == 1, h.flags % 2 == 1)
  }

  function PageOfSegment(s: BootElf.Segment, page: nat): Page {
    Page(PageBytes(s.data, s.address, page), s.writable, s.executable)
  }

  /** The image with the pages of a segment from `page` on, if none of them is there already. */
  function Lay(image: Image, s: BootElf.Segment, page: nat): Option<Image>
    decreases s.address + s.memorySize - page
  {
    if page >= s.address + s.memorySize then Some(image)
    else if page in image then None
    else Lay(image[page := PageOfSegment(s, page)], s, page + PAGE_SIZE)
  }

  function LayOne(image: Image, bytes: seq<byte>, h: BootElf.LoadHeader): Option<Image>
    requires h.offset + h.fileSize <= |bytes|
  {
    if h.memorySize == 0 then Some(image) else Lay(image, SegmentAt(bytes, h), PageStart(h.address))
  }

  predicate DataInFile(bytes: seq<byte>, hs: seq<BootElf.LoadHeader>) {
    forall h <- hs :: h.offset + h.fileSize <= |bytes|
  }

  /** The image of a list of load headers, if no two of them share a page. */
  function LayAll(image: Image, bytes: seq<byte>, hs: seq<BootElf.LoadHeader>): Option<Image>
    requires DataInFile(bytes, hs)
    decreases |hs|
  {
    if hs == [] then Some(image)
    else
      var more :- LayOne(image, bytes, hs[0]);
      LayAll(more, bytes, hs[1..])
  }

  // ---- Filling one page ----

  /** The kernel's way: zero what the file does not reach, copy the rest. */
  method FillFrame(frame: array<byte>, s: BootElf.Segment, page: nat)
    requires frame.Length == PAGE_SIZE && s.address < page + PAGE_SIZE
    modifies frame
    ensures frame[..] == PageBytes(s.data, s.address, page)
  {
    var fileEnd := s.address + |s.data|;
    var copyStart := Min(Max(page, s.address), page + PAGE_SIZE);
    var copyEnd := Max(Min(page + PAGE_SIZE, fileEnd), copyStart);
    var prefix := copyStart - page;
    var copied := copyEnd - copyStart;
    forall i | 0 <= i < prefix {
      frame[i] := 0;
    }
    if copied != 0 {
      forall i | prefix <= i < prefix + copied {
        frame[i] := s.data[copyStart - s.address + (i - prefix)];
      }
    }
    forall i | prefix + copied <= i < PAGE_SIZE {
      frame[i] := 0;
    }
  }

  /** The root server's way: zero the page, then copy straight from the file. */
  method FillScratch(frame: array<byte>, bytes: seq<byte>, h: OmegaElf.ProgramHeader, page: nat)
    requires frame.Length == PAGE_SIZE && h.fileOffset + h.fileSize <= |bytes| && h.address < page + PAGE_SIZE
    modifies frame
    ensures frame[..] == PageBytes(Slice(bytes, h.fileOffset, h.fileSize), h.address, page)
  {
    forall i | 0 <= i < PAGE_SIZE {
      frame[i] := 0;
    }
    var fileEnd := h.address + h.fileSize;
    var copyStart := Min(Max(page, h.address), page + PAGE_SIZE);
    var copyEnd := Max(Min(page + PAGE_SIZE, fileEnd), copyStart);
    if copyEnd > copyStart {
      var pageOffset := copyStart - page;
      var fileOffset := h.fileOffset + (copyStart - h.address);
      forall i | 0 <= i < copyEnd - copyStart {
        frame[pageOffset + i] := bytes[fileOffset + i];
      }
    }
  }

  // ---- An image grows page by page ----

  /** Whatever is laid stays, and the next page of a segment is not there yet. */
  lemma {:induction false} LayGrows(image: Image, s: BootElf.Segment, page: nat)
    requires Lay(image, s, page).Some?
    ensures image.Keys <= Lay(image, s, page).value.Keys
    ensures page < s.address + s.memorySize ==> page !in image && page in Lay(image, s, page).value
    ensures page < s.address + s.memorySize ==> Lay(image, s, page).value[page] == PageOfSegment(s, page)
    ensures forall p :: p in image ==> Lay(image, s, page).value[p] == image[p]
    decreases s.address + s.memorySize - page
  {
    if page < s.address + s.memorySize {
      LayGrows(image[page := PageOfSegment(s, page)], s, page + PAGE_SIZE);
    }
  }

  lemma {:induction false} LayAllGrows(image: Image, bytes: seq<byte>, hs: seq<BootElf.LoadHeader>)
    requires DataInFile(bytes, hs) && LayAll(image, bytes, hs).Some?
    ensures image.Keys <= LayAll(image, bytes, hs).value.Keys
    ensures forall p :: p in image ==> LayAll(image, bytes, hs).value[p] == image[p]
    decreases |hs|
  {
    if hs != [] {
      if hs[0].memorySize > 0 {
        LayGrows(image, SegmentAt(bytes, hs[0]), PageStart(hs[0].address));
      }
      LayAllGrows(LayOne(image, bytes, hs[0]).value, bytes, hs[1..]);
    }
  }

  /** While a segment of the first header is being laid, page by page, the final image holds what is
      there already and the next page, which is new. */
  lemma NextInFinal(image: Image, bytes: seq<byte>, hs: seq<BootElf.LoadHeader>, now: Image, page: nat)
    requires hs != [] && DataInFile(bytes, hs) && LayAll(image, bytes, hs).Some? && hs[0].memorySize > 0
    requires LayOne(image, bytes, hs[0]) == Lay(now, SegmentAt(bytes, hs[0]), page)
    requires page < hs[0].address + hs[0].memorySize
    ensures var final := LayAll(image, bytes, hs).value;
            && page !in now && page in final && final[page] == PageOfSegment(SegmentAt(bytes, hs[0]), page)
            && now.Keys <= final.Keys && |now| + 1 <= |final|
  {
    var final := LayAll(image, bytes, hs).value;
    LayGrows(now, SegmentAt(bytes, hs[0]), page);
    LayAllGrows(LayOne(image, bytes, hs[0]).value, bytes, hs[1..]);
    assert now.Keys + {page} <= final.Keys;
    SubsetSize(now.Keys + {page}, final.Keys);
  }

  // ---- What the pages hold ----

  /** Page `page` is one of a segment's pages. */
  predicate Spans(s: BootElf.Segment, page: nat) {
    page % PAGE_SIZE == 0 && page < s.address + s.memorySize && s.address < page + PAGE_SIZE
  }

  lemma {:induction false} LayMeans(image: Image, s: BootElf.Segment, page: nat, p: nat)
    requires page % PAGE_SIZE == 0 && s.address < page + PAGE_SIZE && Lay(image, s, page).Some?
    ensures var made := Lay(image, s, page).value;
            && (p in made <==> p in image || (Spans(s, p) && p >= page))
            && (p in image ==> made[p] == image[p])
            && (p !in image && p in made ==> made[p] == PageOfSegment(s, p))
            && !(p in image && Spans(s, p) && p >= page)
    decreases s.address + s.memorySize - page
  {
    if page < s.address + s.memorySize {
      LayMeans(image[page := PageOfSegment(s, page)], s, page + PAGE_SIZE, p);
    }
  }

  /** Header h asks for page p. */
  predicate Asks(h: BootElf.LoadHeader, p: nat) {
    h.memorySize > 0 && p % PAGE_SIZE == 0 && p < h.address + h.memorySize && h.address < p + PAGE_SIZE
  }

  predicate Asked(hs: seq<BootElf.LoadHeader>, p: nat) {
    exists h <- hs :: Asks(h, p)
  }

  lemma AskedStep(hs: seq<BootElf.LoadHeader>, p: nat)
    requires hs != []
    ensures Asked(hs, p) <==> Asks(hs[0], p) || Asked(hs[1..], p)
  {
    if h: BootElf.LoadHeader :| h in hs && Asks(h, p) {
      assert h == hs[0] || h in hs[1..];
    }
    if h: BootElf.LoadHeader :| h in hs[1..] && Asks(h, p) {
      assert h in hs;
    }
  }

  /** What one header adds to an image: the pages it asks for, all new. */
  lemma LayOneMeans(image: Image, bytes: seq<byte>, h: BootElf.LoadHeader, p: nat)
    requires h.offset + h.fileSize <= |bytes| && LayOne(image, bytes, h).Some?
    ensures var made := LayOne(image, bytes, h).value;
            && (p in made <==> p in image || Asks(h, p))
            && (p in image ==> made[p] == image[p] && !Asks(h, p))
            && (Asks(h, p) ==> made[p] == PageOfSegment(SegmentAt(bytes, h), p))
  {
    if h.memorySize > 0 {
      LayMeans(image, SegmentAt(bytes, h), PageStart(h.address), p);
    }
  }

  /** The pages of an image are exactly those its load headers ask for, each asked for by one header
      only and holding what that header says: file bytes at their addresses, zero elsewhere. */
  lemma {:induction false} ImageMeans(image: Image, bytes: seq<byte>, hs: seq<BootElf.LoadHeader>, p: nat)
    requires DataInFile(bytes, hs) && LayAll(image, bytes, hs).Some?
    ensures var made := LayAll(image, bytes, hs).value;
            && (p in made <==> p in image || Asked(hs, p))
            && (p in image ==> made[p] == image[p] && !Asked(hs, p))
            && (forall i, j :: 0 <= i < j < |hs| ==> !(Asks(hs[i], p) && Asks(hs[j], p)))
            && (forall i :: 0 <= i < |hs| && Asks(hs[i], p) ==> made[p] == PageOfSegment(SegmentAt(bytes, hs[i]), p))
    decreases |hs|
  {
    if hs != [] {
      var rest := hs[1..];
      AskedStep(hs, p);
      LayOneMeans(image, bytes, hs[0], p);
      ImageMeans(LayOne(image, bytes, hs[0]).value, bytes, rest, p);
      forall i | 0 < i < |hs|
        ensures hs[i] == rest[i - 1] && (Asks(hs[i], p) ==> Asked(rest, p))
      {
        assert rest[i - 1] in rest;
      }
    }
  }

  // ---- Sound segments ----

  predicate SegmentOk(bytes: seq<byte>, h: BootElf.LoadHeader) {
    BootElf.SegmentOf(bytes, h).Some? && h.address + h.memorySize <= USER_SPACE_END
  }

  predicate SegmentsOk(bytes: seq<byte>, hs: seq<BootElf.LoadHeader>) {
    forall h <- hs :: SegmentOk(bytes, h)
  }

  predicate HoldsEntry(h: BootElf.LoadHeader, entry: nat) {
    h.flags % 2 == 1 && h.address <= entry < h.address + h.memorySize
  }

  predicate EntersIn(hs: seq<BootElf.LoadHeader>, entry: nat) {
    exists h <- hs :: HoldsEntry(h, entry)
  }

  lemma EntryGrows(hs: seq<BootElf.LoadHeader>, h: BootElf.LoadHeader, entry: nat)
    ensures EntersIn(hs + [h], entry) <==> EntersIn(hs, entry) || HoldsEntry(h, entry)
  {
    assert h in hs + [h];
    if g: BootElf.LoadHeader :| g in hs && HoldsEntry(g, entry) {
      assert g in hs + [h];
    }
  }

  /** What the kernel's loader accepts, the root server's can read safely. */
  lemma SoundIsReadable(bytes: seq<byte>, hs: seq<BootElf.LoadHeader>)
    requires SegmentsOk(bytes, hs)
    ensures Readable(bytes, hs)
  {
    forall h | h in hs
      ensures h.offset + h.fileSize <= |bytes| && h.address + h.memorySize < WORD
    {
      assert SegmentOk(bytes, h);
    }
  }

  // ---- The address space being filled ----

  /** Frames that can still be taken, pages that cannot be mapped, and the pages mapped so far. */
  class Target {
    var image: Image
    var frames: nat
    const refused: set<nat>

    constructor (frames: nat, refused: set<nat>)
      ensures image == map[] && this.frames == frames && this.refused == refused
    {
      image, this.frames, this.refused := map[], frames, refused;
    }

    /** A frame with anything in it. */
    method TakeFrame() returns (frame: Option<array<byte>>)
      modifies this`frames
      ensures frame.None? <==> old(frames) == 0
      ensures frame.None? ==> frames == 0
      ensures frame.Some? ==> fresh(frame.value) && frame.value.Length == PAGE_SIZE && frames == old(frames) - 1
    {
      if frames == 0 {
        return None;
      }
      frames := frames - 1;
      var buffer := new byte[PAGE_SIZE];
      return Some(buffer);
    }

    /** Maps a frame at a page that is free. */
    method MapPage(page: nat, frame: array<byte>, writable: bool, executable: bool) returns (ok: bool)
      modifies this`image
      ensures ok <==> page !in old(image) && page !in refused
      ensures image == if ok then old(image)[page := Page(frame[..], writable, executable)] else old(image)
    {
      ok := page !in image && page !in refused;
      if ok {
        image := image[page := Page(frame[..], writable, executable)];
      }
    }
  }

  // ---- The root server's loader ----

  /** What the root server does not check itself: its raw copies stay within the file, and the ends
      of segments do not wrap around. */
  predicate Readable(bytes: seq<byte>, hs: seq<BootElf.LoadHeader>) {
    forall h <- hs :: h.offset + h.fileSize <= |bytes| && h.address + h.memorySize < WORD
  }

  /** The program headers the root server iterates over, when it finds any. */
  function ProgramHeadersOf(bytes: seq<byte>): Option<seq<OmegaElf.ProgramHeader>> {
    var h :- OmegaElf.HeaderAt(bytes);
    var table :- OmegaElf.TableAt(bytes, h);
    Some(OmegaElf.Entries(table, h.class_, h.endianness, h.programCount))
  }

  /** An image fits a target: none of its pages is refused, and there are frames enough for it. */
  ghost predicate Fits(image: Option<Image>, refused: set<nat>, frames: nat) {
    image.Some? && image.value.Keys !! refused && |image.value| <= frames
  }

  /** Loads one segment through the scratch page.  When the server gives up, `now` is laid, and the next
      page is there already, is refused, or finds no frame. */
  method LoadScratch(bytes: seq<byte>, t: Target, p: OmegaElf.ProgramHeader, ghost total: nat)
    returns (ok: bool, ghost now: Image, ghost page: nat)
    requires p.memorySize > 0 && p.fileOffset + p.fileSize <= |bytes|
    requires t.frames + |t.image| == total && t.image.Keys !! t.refused
    modifies t`image, t`frames
    ensures ok ==>
      && LayOne(old(t.image), bytes, AsLoadHeader(p)) == Some(t.image)
      && t.frames + |t.image| == total && t.image.Keys !! t.refused
    ensures !ok ==>
      && LayOne(old(t.image), bytes, AsLoadHeader(p)) == Lay(now, SegmentAt(bytes, AsLoadHeader(p)), page)
      && page < p.address + p.memorySize && (page in now || page in t.refused || |now| >= total)
  {
    ghost var s := SegmentAt(bytes, AsLoadHeader(p));
    var end := p.address + p.memorySize;
    var at := PageStart(p.address);
    now, page := t.image, at;
    while at < end
      invariant p.address < at + PAGE_SIZE
      invariant LayOne(old(t.image), bytes, AsLoadHeader(p)) == Lay(t.image, s, at)
      invariant t.frames + |t.image| == total && t.image.Keys !! t.refused
      decreases end - at
    {
      now, page := t.image, at;
      ok := LoadScratchPage(bytes, t, p, at);
      if !ok {
        return;
      }
      at := at + PAGE_SIZE;
    }
    ok := true;
  }

  /** Fills one page in the scratch mapping and maps it where it belongs. */
  method LoadScratchPage(bytes: seq<byte>, t: Target, p: OmegaElf.ProgramHeader, page: nat) returns (ok: bool)
    requires p.fileOffset + p.fileSize <= |bytes| && p.address < page + PAGE_SIZE
    modifies t`image, t`frames
    ensures ok <==> old(t.frames) > 0 && page !in old(t.image) && page !in t.refused
    ensures ok ==>
      && t.image == old(t.image)[page := PageOfSegment(SegmentAt(bytes, AsLoadHeader(p)), page)]
      && t.frames == old(t.frames) - 1
  {
    var frame := t.TakeFrame();
    if frame.None? {
      return false;
    }
    FillScratch(frame.value, bytes, p, page);
    ok := t.MapPage(page, frame.value, p.flags / 2 % 2 == 1, p.flags % 2 == 1);
  }

  /** The root server's loader completes exactly when the headers parse and their image fits, and has then
      built that image. */
  method LoadOmega(bytes: seq<byte>, t: Target) returns (r: Option<nat>)
    requires t.image == map[]
    requires ProgramHeadersOf(bytes).Some? ==> Readable(bytes, Loads(ProgramHeadersOf(bytes).value))
    modifies t`image, t`frames
    ensures r.Some? <==>
      && ProgramHeadersOf(bytes).Some?
      && var hs := Loads(ProgramHeadersOf(bytes).value);
         DataInFile(bytes, hs) && Fits(LayAll(map[], bytes, hs), t.refused, old(t.frames))
    ensures r.Some? ==>
      && OmegaElf.HeaderAt(bytes).Some? && r.value == OmegaElf.HeaderAt(bytes).value.entry
      && LayAll(map[], bytes, Loads(ProgramHeadersOf(bytes).value)) == Some(t.image)
  {
    var header := OmegaElf.ParseHeader(bytes);
    if header.None? {
      return None;
    }
    var table := OmegaElf.TableAt(bytes, header.value);
    if table.None? {
      return None;
    }
    var left := new OmegaElf.ProgramHeaders(table.value, header.value);
    var ok := LoadHeaders(bytes, t, left, t.frames);
    if !ok {
      return None;
    }
    return Some(header.value.entry);
  }

  /** Loads what the remaining program headers ask for. */
  method LoadHeaders(bytes: seq<byte>, t: Target, left: OmegaElf.ProgramHeaders, ghost total: nat) returns (ok: bool)
    requires DataInFile(bytes, Loads(left.Left()))
    requires t.frames + |t.image| == total && t.image.Keys !! t.refused
    modifies t`image, t`frames, left
    ensures ok <==> Fits(LayAll(old(t.image), bytes, old(Loads(left.Left()))), t.refused, total)
    ensures ok ==> LayAll(old(t.image), bytes, old(Loads(left.Left()))) == Some(t.image)
  {
    ghost var final := LayAll(t.image, bytes, Loads(left.Left()));
    while true
      invariant DataInFile(bytes, Loads(left.Left()))
      invariant final == LayAll(t.image, bytes, Loads(left.Left()))
      invariant t.frames + |t.image| == total && t.image.Keys !! t.refused
      decreases |left.Left()|
    {
      ghost var before := left.Left();
      var next := left.Next();
      if next.None? {
        return true;
      }
      var p := next.value.value;
      LayNext(t.image, bytes, before);
      if p.kind == 1 && p.memorySize != 0 {
        ghost var image, now, page := t.image, map[], 0;
        ok, now, page := LoadScratch(bytes, t, p, total);
        if !ok {
          LoadsHead(before);
          if final.Some? {
            NextInFinal(image, bytes, Loads(before), now, page);
          }
          return;
        }
      }
    }
  }

  lemma LoadsHead(ps: seq<OmegaElf.ProgramHeader>)
    requires ps != [] && ps[0].kind == 1
    ensures Loads(ps) != [] && Loads(ps)[0] == AsLoadHeader(ps[0])
  {
  }

  /** What one program header adds. */
  lemma LayNext(image: Image, bytes: seq<byte>, ps: seq<OmegaElf.ProgramHeader>)
    requires ps != [] && DataInFile(bytes, Loads(ps))
    ensures DataInFile(bytes, Loads(ps[1..]))
    ensures ps[0].kind == 1 ==> ps[0].fileOffset + ps[0].fileSize <= |bytes|
    ensures LayAll(image, bytes, Loads(ps)) ==
            if ps[0].kind != 1 then LayAll(image, bytes, Loads(ps[1..]))
            else
              var more := LayOne(image, bytes, AsLoadHeader(ps[0]));
              if more.None? then None else LayAll(more.value, bytes, Loads(ps[1..]))
  {
    if ps[0].kind == 1 {
      var h := AsLoadHeader(ps[0]);
      assert Loads(ps) == [h] + Loads(ps[1..]);
      assert Loads(ps)[1..] == Loads(ps[1..]);
      assert h in Loads(ps);
      forall g | g in Loads(ps[1..])
        ensures g in Loads(ps)
      {
      }
    } else {
      assert Loads(ps) == [] + Loads(ps[1..]) == Loads(ps[1..]);
    }
  }
}
