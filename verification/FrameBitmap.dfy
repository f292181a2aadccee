/** The frame allocator as the kernel keeps it: two bits per frame packed into bytes, a search hint
    and counters.  Every operation is proved to act on the unpacked `Frames.Pool`. */
module FrameBitmap {
  import opened Outcomes
  import opened Numbers
  import opened Frames

  const FRAME_SIZE: nat := 4096

  // ---- Two bits per frame ----

  function Code(s: FrameState): bv8 {
    match s
    case Reserved => 0
    case Free => 1
    case Allocated => 2
  }

  /** `(byte >> shift) & 0b11` for the shift of position pos. */
  function TwoBits(byte: bv8, pos: nat): bv8
    requires pos < 4
  {
    match pos
    case 0 => byte & 3
    case 1 => (byte >> 2) & 3
    case 2 => (byte >> 4) & 3
    case 3 => (byte >> 6) & 3
  }

  /** `(byte & !mask) | (code << shift)`. */
  function WithTwoBits(byte: bv8, pos: nat, code: bv8): bv8
    requires pos < 4
  {
    match pos
    case 0 => (byte & 0xFC) | code
    case 1 => (byte & 0xF3) | (code << 2)
    case 2 => (byte & 0xCF) | (code << 4)
    case 3 => (byte & 0x3F) | (code << 6)
  }

  /** Writing one position keeps the other three. */
  lemma PackedUpdate(byte: bv8, pos: nat, code: bv8, other: nat)
    requires pos < 4 && other < 4 && code <= 3
    ensures TwoBits(WithTwoBits(byte, pos, code), other) == if other == pos then code else TwoBits(byte, other)
  {
  }

  // ---- Memory regions ----

  datatype RegionKind = Usable | ReservedMemory | AcpiReclaimable | BootloaderReclaimable | OtherMemory

  datatype Region = Region(start: nat, length: nat, kind: RegionKind)

  datatype InitError = AddressOverflow | NoUsableFrames | NoBitmapStorage | BitmapOutsideDirectMap

  datatype Range = Range(lo: nat, hi: nat)

  /** The whole frames inside a region. */
  function UsableRange(r: Region): Result<Range, InitError> {
    if r.start + r.length >= WORD then Err(AddressOverflow)
    else if r.start + (FRAME_SIZE - 1) >= WORD then Err(AddressOverflow)
    else Ok(Range((r.start + FRAME_SIZE - 1) / FRAME_SIZE, (r.start + r.length) / FRAME_SIZE))
  }

  predicate InRange(f: nat, r: Region) {
    UsableRange(r).Ok? && UsableRange(r).value.lo <= f < UsableRange(r).value.hi
  }

  predicate HasFrames(r: Region) {
    UsableRange(r).Ok? && UsableRange(r).value.lo < UsableRange(r).value.hi
  }

  /** A frame is in the range exactly when all its bytes are in the region. */
  lemma RangeIsWholeFrames(r: Region, f: nat)
    requires UsableRange(r).Ok?
    ensures InRange(f, r) <==> r.start <= f * FRAME_SIZE && (f + 1) * FRAME_SIZE <= r.start + r.length
  {
  }

  predicate ShouldTrack(k: RegionKind) {
    k == Usable || k == BootloaderReclaimable || k == AcpiReclaimable
  }

  /** Some region of kind k before index n holds frame f. */
  ghost predicate Covered(regions: seq<Region>, k: RegionKind, n: nat, f: nat)
    requires n <= |regions|
  {
    exists i :: 0 <= i < n && regions[i].kind == k && InRange(f, regions[i])
  }

  /** Regions of kind k do not overlap. */
  ghost predicate Apart(regions: seq<Region>, k: RegionKind) {
    forall i, j, f ::
      0 <= i < j < |regions| && regions[i].kind == k && regions[j].kind == k && InRange(f, regions[i]) ==>
        !InRange(f, regions[j])
  }

  class FrameAllocator {
    const bytes: array<bv8>
    const frameCount: nat
    const storeLo: nat
    const storeHi: nat
    var nextSearch: nat
    var allocatable: nat
    var freeFrames: nat
    /** The unpacked states. */
    ghost var states: seq<FrameState>

    ghost predicate Packed()
      reads this, bytes
    {
      && |states| == frameCount && frameCount <= 4 * bytes.Length
      && forall i {:trigger states[i]} :: 0 <= i < frameCount ==> TwoBits(bytes[i / 4], i % 4) == Code(states[i])
    }

    /** The packed bits are the states, the counter counts the free ones, the hint is in bounds,
        and the frames that hold the bitmap are reserved. */
    ghost predicate Valid()
      reads this, bytes
    {
      Sound() && StoreKept()
    }

    ghost predicate Sound()
      reads this, bytes
    {
      && Packed()
      && freeFrames == |FreeSet(states)|
      && nextSearch <= frameCount
      && storeLo <= storeHi <= frameCount
    }

    ghost predicate StoreKept()
      reads this
      requires storeHi <= |states|
    {
      forall f :: storeLo <= f < storeHi ==> states[f] == Reserved
    }

    ghost function ThePool(): Pool
      reads this
    {
      Pool(states, nextSearch)
    }

    method State(i: nat) returns (s: FrameState)
      requires Packed() && i < frameCount
      ensures s == states[i]
    {
      var code := TwoBits(bytes[i / 4], i % 4);
      assert code == Code(states[i]);
      if code == 0 {
        return Reserved;
      } else if code == 1 {
        return Free;
      }
      return Allocated;
    }

    method SetState(i: nat, s: FrameState)
      requires Packed() && i < frameCount
      modifies this`states, bytes
      ensures Packed() && states == old(states)[i := s]
    {
      ghost var before := bytes[..];
      bytes[i / 4] := WithTwoBits(bytes[i / 4], i % 4, Code(s));
      states := states[i := s];
      forall j {:trigger states[j]} | 0 <= j < frameCount
        ensures TwoBits(bytes[j / 4], j % 4) == Code(states[j])
      {
        assert TwoBits(before[j / 4], j % 4) == Code(old(states)[j]);
        PackedUpdate(before[i / 4], i % 4, Code(s), j % 4);
      }
    }

    method FindFreeFrom(lo: nat, hi: nat) returns (r: Option<nat>)
      requires Packed() && lo <= hi <= frameCount
      ensures r == FindFreeIn(states, lo, hi)
    {
      var i := lo;
      while i < hi
        invariant lo <= i <= hi
        invariant FindFreeIn(states, lo, hi) == FindFreeIn(states, i, hi)
      {
        var s := State(i);
        if s == Free {
          return Some(i);
        }
        i := i + 1;
      }
      return None;
    }

    method FindFreeFrame() returns (r: Option<nat>)
      requires Valid()
      ensures r == FindFree(ThePool())
    {
      r := FindFreeFrom(nextSearch, frameCount);
      if r.None? {
        r := FindFreeFrom(0, nextSearch);
      }
    }

    /** Hands out a free frame if there is one, whatever the hint. */
    method AllocNozero() returns (r: Option<nat>)
      requires Valid()
      modifies this`states, this`freeFrames, this`nextSearch, bytes
      ensures Valid()
      ensures r == FindFree(old(ThePool()))
      ensures r.None? ==> ThePool() == old(ThePool())
      ensures r.Some? ==> ThePool() == Take(old(ThePool()), r.value) && !(storeLo <= r.value < storeHi)
    {
      if freeFrames == 0 {
        return None;
      }
      r := FindFreeFrame();
      if r.None? {
        return;
      }
      TakeFree(states, r.value);
      SetState(r.value, Allocated);
      freeFrames := freeFrames - 1;
      nextSearch := r.value + 1;
    }

    /** Takes back an allocated frame; the caller owns it, so the double-free panics are not reached. */
    method Dealloc(f: nat)
      requires Valid() && f < frameCount && states[f] == Allocated
      modifies this`states, this`freeFrames, this`nextSearch, bytes
      ensures Valid()
      ensures ThePool() == Give(old(ThePool()), f)
    {
      var s := State(f);
      assert s == Allocated;
      GiveFree(states, f);
      SetState(f, Free);
      freeFrames := freeFrames + 1;
      if f < nextSearch {
        nextSearch := f;
      }
    }

    /** A bitmap of zeros: every frame reserved. */
    constructor (frameCount: nat, storeLo: nat, storeHi: nat)
      requires storeLo <= storeHi <= frameCount
      ensures Valid() && fresh(bytes)
      ensures this.frameCount == frameCount && this.storeLo == storeLo && this.storeHi == storeHi
      ensures nextSearch == storeHi && allocatable == 0
      ensures states == seq(frameCount, i => Reserved)
    {
      this.frameCount, this.storeLo, this.storeHi := frameCount, storeLo, storeHi;
      bytes := new bv8[(frameCount + 3) / 4](_ => 0);
      nextSearch, allocatable, freeFrames := storeHi, 0, 0;
      states := seq(frameCount, i => Reserved);
      new;
      assert FreeSet(states) == {};
    }

    /** Frees the frames of one usable range, except those that hold the bitmap. */
    method Release(lo: nat, hi: nat)
      requires Valid() && hi <= frameCount
      requires forall f :: lo <= f < hi ==> states[f] == Reserved
      modifies this`states, this`freeFrames, this`allocatable, bytes
      ensures Valid()
      ensures states == Freed(old(states), lo, hi, storeLo, storeHi)
      ensures allocatable - old(allocatable) == freeFrames - old(freeFrames)
    {
      var f := lo;
      FreedNone(states, lo, hi, storeLo, storeHi);
      while f < hi
        invariant lo <= f && (f <= hi || f == lo)
        invariant Valid()
        invariant states == Freed(old(states), lo, f, storeLo, storeHi)
        invariant allocatable - old(allocatable) == freeFrames - old(freeFrames)
      {
        FreedStep(old(states), lo, f, storeLo, storeHi);
        if !(storeLo <= f < storeHi) {
          GiveFree(states, f);
          SetState(f, Free);
          allocatable := allocatable + 1;
          freeFrames := freeFrames + 1;
        }
        f := f + 1;
      }
    }

    /** Frees one frame if it is reserved. */
    method ReclaimFrame(f: nat)
      requires Sound() && f < frameCount
      modifies this`states, this`freeFrames, this`allocatable, this`nextSearch, bytes
      ensures Sound()
      ensures states == if old(states)[f] == Reserved then old(states)[f := Free] else old(states)
    {
      var s := State(f);
      if s == Reserved {
        GiveFree(states, f);
        SetState(f, Free);
        allocatable := allocatable + 1;
        freeFrames := freeFrames + 1;
        if f < nextSearch {
          nextSearch := f;
        }
      }
    }

    /** Frees the reserved frames of one reclaimable range; allocated and free frames stay as they are. */
    method ReclaimRange(lo: nat, hi: nat)
      requires Sound() && (lo < hi ==> hi <= frameCount)
      modifies this`states, this`freeFrames, this`allocatable, this`nextSearch, bytes
      ensures Sound()
      ensures states == Reclaimed(old(states), lo, hi)
    {
      var f := lo;
      ReclaimedNone(states, lo, hi);
      while f < hi
        invariant lo <= f && (f <= hi || f == lo)
        invariant Sound()
        invariant states == Reclaimed(old(states), lo, f)
      {
        ReclaimedStep(old(states), lo, f);
        ReclaimFrame(f);
        f := f + 1;
      }
    }

    /** Reclaims all regions of one reclaimable kind; any other kind is ignored. */
    method ReclaimRegions(regions: seq<Region>, kind: RegionKind)
      requires Sound() && InBitmap(regions, kind, frameCount)
      modifies this`states, this`freeFrames, this`allocatable, this`nextSearch, bytes
      ensures Sound()
      ensures |states| == |old(states)|
      ensures forall f :: 0 <= f < |states| ==>
        states[f] == if Reclaimable(kind) && Covered(regions, kind, |regions|, f) && old(states)[f] == Reserved
                     then Free else old(states)[f]
    {
      if !Reclaimable(kind) {
        return;
      }
      var n := 0;
      while n < |regions|
        invariant 0 <= n <= |regions|
        invariant Sound() && |states| == |old(states)|
        invariant forall f :: 0 <= f < |states| ==>
          states[f] == if Covered(regions, kind, n, f) && old(states)[f] == Reserved then Free else old(states)[f]
      {
        if regions[n].kind == kind {
          var range := UsableRange(regions[n]).value;
          ReclaimRange(range.lo, range.hi);
        }
        forall f | 0 <= f < |states|
          ensures states[f]
               == if Covered(regions, kind, n + 1, f) && old(states)[f] == Reserved then Free else old(states)[f]
        {
          CoveredStep(regions, kind, n, f);
        }
        n := n + 1;
      }
    }
  }

  predicate Reclaimable(kind: RegionKind) {
    kind == BootloaderReclaimable || kind == AcpiReclaimable
  }

  /** The regions of a reclaimable kind that have whole frames lie within the bitmap. */
  ghost predicate InBitmap(regions: seq<Region>, kind: RegionKind, frameCount: nat) {
    Reclaimable(kind) ==> forall i :: 0 <= i < |regions| && regions[i].kind == kind ==>
      UsableRange(regions[i]).Ok? && (HasFrames(regions[i]) ==> UsableRange(regions[i]).value.hi <= frameCount)
  }

  ghost function Freed(s: seq<FrameState>, lo: nat, hi: nat, storeLo: nat, storeHi: nat): seq<FrameState> {
    seq(|s|, f requires 0 <= f < |s| => if lo <= f < hi && !(storeLo <= f < storeHi) then Free else s[f])
  }

  lemma FreedNone(s: seq<FrameState>, lo: nat, hi: nat, storeLo: nat, storeHi: nat)
    ensures Freed(s, lo, lo, storeLo, storeHi) == s && (hi <= lo ==> Freed(s, lo, hi, storeLo, storeHi) == s)
  {
  }

  lemma FreedStep(s: seq<FrameState>, lo: nat, f: nat, storeLo: nat, storeHi: nat)
    requires lo <= f < |s|
    ensures var r := Freed(s, lo, f, storeLo, storeHi);
            r[f] == s[f] && Freed(s, lo, f + 1, storeLo, storeHi) == if storeLo <= f < storeHi then r else r[f := Free]
  {
  }

  ghost function Reclaimed(s: seq<FrameState>, lo: nat, hi: nat): seq<FrameState> {
    seq(|s|, f requires 0 <= f < |s| => if lo <= f < hi && s[f] == Reserved then Free else s[f])
  }

  lemma ReclaimedNone(s: seq<FrameState>, lo: nat, hi: nat)
    ensures Reclaimed(s, lo, lo) == s && (hi <= lo ==> Reclaimed(s, lo, hi) == s)
  {
  }

  lemma ReclaimedStep(s: seq<FrameState>, lo: nat, f: nat)
    requires lo <= f < |s|
    ensures var r := Reclaimed(s, lo, f);
            Reclaimed(s, lo, f + 1) == if r[f] == Reserved then r[f := Free] else r
  {
  }

  lemma CoveredStep(regions: seq<Region>, k: RegionKind, n: nat, f: nat)
    requires n < |regions|
    ensures Covered(regions, k, n + 1, f) <==>
      Covered(regions, k, n, f) || (regions[n].kind == k && InRange(f, regions[n]))
  {
  }

  // ---- Building the allocator from the memory map ----

  /** One past the highest frame of any tracked region. */
  method HighestFrame(regions: seq<Region>) returns (r: Result<nat, InitError>)
    ensures r.Ok? ==> forall i :: 0 <= i < |regions| && ShouldTrack(regions[i].kind) ==>
      UsableRange(regions[i]).Ok? && (HasFrames(regions[i]) ==> UsableRange(regions[i]).value.hi <= r.value)
    ensures r.Ok? ==>
      exists i ::
        && 0 <= i < |regions| && ShouldTrack(regions[i].kind) && HasFrames(regions[i])
        && UsableRange(regions[i]).value.hi == r.value
    ensures r.Err? ==>
      || (r.error == AddressOverflow && exists i ::
        0 <= i < |regions| && ShouldTrack(regions[i].kind) && UsableRange(regions[i]).Err?)
      || (r.error == NoUsableFrames && forall i :: 0 <= i < |regions| && ShouldTrack(regions[i].kind) ==>
        UsableRange(regions[i]).Ok? && !HasFrames(regions[i]))
  {
    var highest: Option<nat> := None;
    var n := 0;
    while n < |regions|
      invariant 0 <= n <= |regions|
      invariant forall i :: 0 <= i < n && ShouldTrack(regions[i].kind) ==> UsableRange(regions[i]).Ok?
      invariant forall i :: 0 <= i < n && ShouldTrack(regions[i].kind) && HasFrames(regions[i]) ==>
        highest.Some? && UsableRange(regions[i]).value.hi <= highest.value
      invariant highest.Some? ==>
        exists i ::
          && 0 <= i < n && ShouldTrack(regions[i].kind) && HasFrames(regions[i])
          && UsableRange(regions[i]).value.hi == highest.value
    {
      if ShouldTrack(regions[n].kind) {
        var range := UsableRange(regions[n]);
        if range.Err? {
          return Err(AddressOverflow);
        }
        if range.value.lo < range.value.hi {
          assert HasFrames(regions[n]);
          highest := Some(if highest.None? then range.value.hi else Max(highest.value, range.value.hi));
        }
      }
      n := n + 1;
    }
    if highest.None? {
      return Err(NoUsableFrames);
    }
    return Ok(highest.value);
  }

  /** Region i is the first usable one with room for `count` frames. */
  ghost predicate FirstWithRoom(regions: seq<Region>, count: nat, i: nat) {
    && i < |regions| && regions[i].kind == Usable && HasFrames(regions[i])
    && UsableRange(regions[i]).value.lo + count <= UsableRange(regions[i]).value.hi
    && forall j :: 0 <= j < i && regions[j].kind == Usable && HasFrames(regions[j]) ==>
         UsableRange(regions[j]).value.hi - UsableRange(regions[j]).value.lo < count
  }

  /** The first usable region with room for `count` frames. */
  method FindStorage(regions: seq<Region>, count: nat) returns (r: Result<Range, InitError>)
    requires forall i :: 0 <= i < |regions| && ShouldTrack(regions[i].kind) ==> UsableRange(regions[i]).Ok?
    ensures r.Ok? ==> exists i: nat :: FirstWithRoom(regions, count, i) && UsableRange(regions[i]).value == r.value
    ensures r.Err? ==> r.error == NoBitmapStorage
    ensures r.Err? ==> forall i :: 0 <= i < |regions| && regions[i].kind == Usable && HasFrames(regions[i]) ==>
      UsableRange(regions[i]).value.hi - UsableRange(regions[i]).value.lo < count
  {
    var n := 0;
    while n < |regions|
      invariant 0 <= n <= |regions|
      invariant forall i :: 0 <= i < n && regions[i].kind == Usable && HasFrames(regions[i]) ==>
        UsableRange(regions[i]).value.hi - UsableRange(regions[i]).value.lo < count
    {
      if regions[n].kind == Usable {
        var range := UsableRange(regions[n]).value;
        if range.lo < range.hi && range.hi - range.lo >= count {
          assert FirstWithRoom(regions, count, n);
          return Ok(range);
        }
      }
      n := n + 1;
    }
    return Err(NoBitmapStorage);
  }

  /** h is one past the highest frame of the tracked regions. */
  ghost predicate Highest(regions: seq<Region>, h: nat) {
    && (forall i :: 0 <= i < |regions| && ShouldTrack(regions[i].kind) && HasFrames(regions[i]) ==>
      UsableRange(regions[i]).value.hi <= h)
    && (exists i ::
          && 0 <= i < |regions| && ShouldTrack(regions[i].kind) && HasFrames(regions[i])
          && UsableRange(regions[i]).value.hi == h)
  }

  /** How many frames a bitmap for so many frames takes. */
  function BitmapFrames(frameCount: nat): nat {
    ((frameCount + 3) / 4 + FRAME_SIZE - 1) / FRAME_SIZE
  }

  /** No usable region has room for the bitmap. */
  ghost predicate NoRoomFor(regions: seq<Region>, h: nat) {
    Highest(regions, h) && forall i :: 0 <= i < |regions| && regions[i].kind == Usable && HasFrames(regions[i]) ==>
      UsableRange(regions[i]).value.hi - UsableRange(regions[i]).value.lo < BitmapFrames(h)
  }

  /** The bitmap's size cannot overflow: frame numbers come from addresses. */
  lemma BitmapFits(regions: seq<Region>, h: nat)
    requires Highest(regions, h)
    ensures BitmapFrames(h) * FRAME_SIZE < WORD
  {
    var i :|
      && 0 <= i < |regions| && ShouldTrack(regions[i].kind) && HasFrames(regions[i])
      && UsableRange(regions[i]).value.hi == h;
    assert h * FRAME_SIZE <= regions[i].start + regions[i].length < WORD;
  }

  /** The allocator covers the memory map: its bitmap reaches up to the highest tracked frame, and is
      stored in the first usable region with room for it. */
  ghost predicate BuiltFrom(a: FrameAllocator, regions: seq<Region>, directMapOffset: nat) {
    && (forall i :: 0 <= i < |regions| && ShouldTrack(regions[i].kind) ==> UsableRange(regions[i]).Ok?)
    && Highest(regions, a.frameCount) && a.storeHi == a.storeLo + BitmapFrames(a.frameCount)
    && (exists i: nat ::
      FirstWithRoom(regions, BitmapFrames(a.frameCount), i) && UsableRange(regions[i]).value.lo == a.storeLo)
    && a.storeLo * FRAME_SIZE + directMapOffset < WORD
  }

  // ---- Why no allocator can be built ----

  ghost predicate Overflows(regions: seq<Region>) {
    exists i :: 0 <= i < |regions| && ShouldTrack(regions[i].kind) && UsableRange(regions[i]).Err?
  }

  ghost predicate NoFrames(regions: seq<Region>) {
    forall i :: 0 <= i < |regions| && ShouldTrack(regions[i].kind) ==> !HasFrames(regions[i])
  }

  /** The direct map does not reach where the bitmap would go. */
  ghost predicate OutOfReach(regions: seq<Region>, directMapOffset: nat, h: nat, i: nat) {
    && Highest(regions, h) && FirstWithRoom(regions, BitmapFrames(h), i)
    && UsableRange(regions[i]).value.lo * FRAME_SIZE + directMapOffset >= WORD
  }

  ghost predicate InitCause(regions: seq<Region>, directMapOffset: nat, e: InitError) {
    match e
    case AddressOverflow => Overflows(regions)
    case NoUsableFrames => !Overflows(regions) && NoFrames(regions)
    case NoBitmapStorage => !Overflows(regions) && exists h: nat :: NoRoomFor(regions, h)
    case BitmapOutsideDirectMap =>
      !Overflows(regions) && exists h: nat, i: nat :: OutOfReach(regions, directMapOffset, h, i)
  }

  lemma HighestUnique(regions: seq<Region>, h: nat, h': nat)
    requires Highest(regions, h) && Highest(regions, h')
    ensures h == h' && !NoFrames(regions)
  {
  }

  lemma FirstUnique(regions: seq<Region>, count: nat, i: nat, j: nat)
    requires FirstWithRoom(regions, count, i) && FirstWithRoom(regions, count, j)
    ensures i == j
  {
  }

  /** Building fails with this error, if with any, because this and no other error has its cause. */
  ghost predicate Decided(regions: seq<Region>, directMapOffset: nat, error: Option<InitError>) {
    forall e {:trigger InitCause(regions, directMapOffset, e)} ::
      InitCause(regions, directMapOffset, e) <==> error == Some(e)
  }

  lemma OverflowDecides(regions: seq<Region>, directMapOffset: nat)
    requires Overflows(regions)
    ensures Decided(regions, directMapOffset, Some(AddressOverflow))
  {
  }

  lemma NoFramesDecides(regions: seq<Region>, directMapOffset: nat)
    requires !Overflows(regions) && NoFrames(regions)
    ensures Decided(regions, directMapOffset, Some(NoUsableFrames))
  {
  }

  lemma NoRoomDecides(regions: seq<Region>, directMapOffset: nat, h: nat)
    requires !Overflows(regions) && NoRoomFor(regions, h)
    ensures Decided(regions, directMapOffset, Some(NoBitmapStorage))
  {
    HighestUnique(regions, h, h);
    forall h': nat, i: nat
      ensures !OutOfReach(regions, directMapOffset, h', i)
    {
      if Highest(regions, h') {
        HighestUnique(regions, h, h');
      }
    }
  }

  /** With a place for the bitmap, only the direct map can be in the way. */
  lemma PlaceDecides(regions: seq<Region>, directMapOffset: nat, h: nat, i: nat)
    requires !Overflows(regions) && Highest(regions, h) && FirstWithRoom(regions, BitmapFrames(h), i)
    ensures var lo := UsableRange(regions[i]).value.lo;
            Decided(regions, directMapOffset,
                    if lo * FRAME_SIZE + directMapOffset >= WORD then Some(BitmapOutsideDirectMap) else None)
  {
    HighestUnique(regions, h, h);
    forall h': nat
      ensures !NoRoomFor(regions, h')
    {
      if Highest(regions, h') {
        HighestUnique(regions, h, h');
      }
    }
    assert UsableRange(regions[i]).value.lo * FRAME_SIZE + directMapOffset >= WORD ==>
      OutOfReach(regions, directMapOffset, h, i);
    forall h': nat, j: nat | OutOfReach(regions, directMapOffset, h', j)
      ensures h' == h && j == i
    {
      HighestUnique(regions, h, h');
      FirstUnique(regions, BitmapFrames(h), i, j);
    }
  }

  /** Builds the allocator: exactly the whole frames of usable memory that do not hold the bitmap
      are free, and all others are reserved. */
  method NewAllocator(regions: seq<Region>, directMapOffset: nat) returns (r: Result<FrameAllocator, InitError>)
    requires Apart(regions, Usable)
    ensures r.Ok? ==>
      && fresh(r.value) && fresh(r.value.bytes) && r.value.Valid() && BuiltFrom(r.value, regions, directMapOffset)
      && r.value.nextSearch == r.value.storeHi && r.value.allocatable == r.value.freeFrames
      && UsableFree(r.value, regions, |regions|)
    ensures Decided(regions, directMapOffset, ErrorOf(r))
  {
    ghost var i;
    var place;
    place, i := PlaceBitmap(regions, directMapOffset);
    if place.Err? {
      return Err(place.error);
    }
    var p := place.value;
    assert UsableRange(regions[i]).value.hi <= p.frameCount;
    var a := new FrameAllocator(p.frameCount, p.storeLo, p.storeLo + p.bitmapFrames);
    ReleaseRegions(a, regions);
    return Ok(a);
  }

  datatype Place = Place(frameCount: nat, storeLo: nat, bitmapFrames: nat)

  /** Where the bitmap goes: region i, the first usable one with room for it. */
  method PlaceBitmap(regions: seq<Region>, directMapOffset: nat) returns (r: Result<Place, InitError>, ghost i: nat)
    ensures Decided(regions, directMapOffset, ErrorOf(r))
    ensures r.Ok? ==>
      && !Overflows(regions) && Highest(regions, r.value.frameCount)
      && r.value.bitmapFrames == BitmapFrames(r.value.frameCount)
      && FirstWithRoom(regions, r.value.bitmapFrames, i) && UsableRange(regions[i]).value.lo == r.value.storeLo
      && r.value.storeLo * FRAME_SIZE + directMapOffset < WORD
  {
    i := 0;
    var highest := HighestFrame(regions);
    if highest.Err? {
      if highest.error == AddressOverflow {
        OverflowDecides(regions, directMapOffset);
      } else {
        NoFramesDecides(regions, directMapOffset);
      }
      return Err(highest.error), i;
    }
    assert Highest(regions, highest.value);
    BitmapFits(regions, highest.value);
    var bitmapBytes := (highest.value + 3) / 4;
    var bitmapFrames := (bitmapBytes + FRAME_SIZE - 1) / FRAME_SIZE;
    if bitmapFrames * FRAME_SIZE >= WORD {
      return Err(AddressOverflow), i;
    }
    var storage := FindStorage(regions, bitmapFrames);
    if storage.Err? {
      NoRoomDecides(regions, directMapOffset, highest.value);
      return Err(storage.error), i;
    }
    i :| FirstWithRoom(regions, bitmapFrames, i) && UsableRange(regions[i]).value == storage.value;
    PlaceDecides(regions, directMapOffset, highest.value, i);
    if storage.value.lo * FRAME_SIZE + directMapOffset >= WORD {
      return Err(BitmapOutsideDirectMap), i;
    }
    return Ok(Place(highest.value, storage.value.lo, bitmapFrames)), i;
  }

  /** The whole frames of the first n usable regions are free, except those that hold the bitmap. */
  ghost predicate UsableFree(a: FrameAllocator, regions: seq<Region>, n: nat)
    requires n <= |regions|
    reads a
  {
    && |a.states| == a.frameCount
    && forall f :: 0 <= f < a.frameCount ==>
         a.states[f] == if Covered(regions, Usable, n, f) && !(a.storeLo <= f < a.storeHi) then Free else Reserved
  }

  /** Frees the whole frames of all usable regions. */
  method ReleaseRegions(a: FrameAllocator, regions: seq<Region>)
    requires a.Valid() && a.nextSearch == a.storeHi && a.allocatable == a.freeFrames && Apart(regions, Usable)
    requires forall i :: 0 <= i < |regions| && regions[i].kind == Usable ==>
      UsableRange(regions[i]).Ok? && (HasFrames(regions[i]) ==> UsableRange(regions[i]).value.hi <= a.frameCount)
    requires forall f :: 0 <= f < a.frameCount ==> a.states[f] == Reserved
    modifies a`states, a`freeFrames, a`allocatable, a.bytes
    ensures a.Valid() && a.allocatable == a.freeFrames && UsableFree(a, regions, |regions|)
  {
    var n := 0;
    while n < |regions|
      invariant 0 <= n <= |regions|
      invariant a.Valid() && a.allocatable == a.freeFrames && UsableFree(a, regions, n)
    {
      if regions[n].kind == Usable {
        var range := UsableRange(regions[n]).value;
        if range.lo < range.hi {
          a.Release(range.lo, range.hi);
        }
      }
      forall f | 0 <= f < a.frameCount
        ensures a.states[f]
             == if Covered(regions, Usable, n + 1, f) && !(a.storeLo <= f < a.storeHi) then Free else Reserved
      {
        CoveredStep(regions, Usable, n, f);
      }
      n := n + 1;
    }
  }

  // ---- Runs ----

  /** No frame lies in two tracked regions. */
  ghost predicate NoOverlap(regions: seq<Region>) {
    forall i, j, f {:trigger InRange(f, regions[i]), InRange(f, regions[j])} ::
      && 0 <= i < |regions| && 0 <= j < |regions| && i != j
      && ShouldTrack(regions[i].kind) && ShouldTrack(regions[j].kind)
      ==> !(InRange(f, regions[i]) && InRange(f, regions[j]))
  }

  /** In a memory map without overlaps no reclaimable region reaches into the bitmap's storage. */
  lemma StoreNotReclaimed(a: FrameAllocator, regions: seq<Region>, directMapOffset: nat, kind: RegionKind, f: nat)
    requires BuiltFrom(a, regions, directMapOffset) && NoOverlap(regions) && Reclaimable(kind)
    requires a.storeLo <= f < a.storeHi
    ensures !Covered(regions, kind, |regions|, f)
  {
    var i: nat :|
      FirstWithRoom(regions, BitmapFrames(a.frameCount), i) && UsableRange(regions[i]).value.lo == a.storeLo;
    assert InRange(f, regions[i]);
    forall j | 0 <= j < |regions| && regions[j].kind == kind
      ensures !InRange(f, regions[j])
    {
    }
  }

  datatype Operation = TakeFrame | GiveFrame(frame: nat) | Reclaim(kind: RegionKind)

  /** What an operation does: hands out a frame, takes one back, or neither. */
  datatype Trace = Took(frame: nat) | Gave(frame: nat) | Neither

  /** The frames in the hands of callers after a trace. */
  ghost function Held(trace: seq<Trace>): set<nat> {
    if trace == [] then {} else HeldThen(Held(trace[..|trace| - 1]), trace[|trace| - 1])
  }

  ghost function HeldThen(held: set<nat>, t: Trace): set<nat> {
    match t
    case Took(f) => held + {f}
    case Gave(f) => held - {f}
    case Neither => held
  }

  /** No frame is handed out while it is held, and none that holds the bitmap is ever handed out. */
  ghost predicate Fair(trace: seq<Trace>, storeLo: nat, storeHi: nat) {
    forall i {:trigger trace[i]} :: 0 <= i < |trace| && trace[i].Took? ==>
      trace[i].frame !in Held(trace[..i]) && !(storeLo <= trace[i].frame < storeHi)
  }

  lemma FairGrows(trace: seq<Trace>, t: Trace, storeLo: nat, storeHi: nat)
    requires Fair(trace, storeLo, storeHi)
    requires t.Took? ==> t.frame !in Held(trace) && !(storeLo <= t.frame < storeHi)
    ensures Fair(trace + [t], storeLo, storeHi)
    ensures Held(trace + [t]) == HeldThen(Held(trace), t)
  {
    var more := trace + [t];
    assert more[..|trace|] == trace;
    forall i | 0 <= i < |trace|
      ensures more[..i] == trace[..i] && more[i] == trace[i]
    {
    }
  }

  /** Reclaiming a kind of region frees exactly its reserved frames, and nothing if it is not to be reclaimed. */
  ghost predicate RegionsReclaimed(
    regions: seq<Region>, kind: RegionKind, states: seq<FrameState>, states': seq<FrameState>) {
    && |states'| == |states|
    && forall f :: 0 <= f < |states| ==>
         states'[f] == if Reclaimable(kind) && Covered(regions, kind, |regions|, f) && states[f] == Reserved
                       then Free else states[f]
  }

  /** The operation does what it should: a free frame is handed out when there is one, a frame is taken back
      when it is held, and reclaiming frees what it should. */
  ghost predicate Did(regions: seq<Region>, operation: Operation, held: set<nat>, pool: Pool, t: Trace, pool': Pool) {
    match operation
    case TakeFrame =>
      PoolOk(pool)
      && (if FindFree(pool).Some? then t == Took(FindFree(pool).value) && pool' == Take(pool, FindFree(pool).value)
          else t == Neither && pool' == pool)
    case GiveFrame(f) =>
      if f in held then PoolOk(pool) && f < |pool.states| && t == Gave(f) && pool' == Give(pool, f)
      else t == Neither && pool' == pool
    case Reclaim(kind) => t == Neither && RegionsReclaimed(regions, kind, pool.states, pool'.states)
  }

  /** The operations are done one after the other. */
  ghost predicate AllDone(regions: seq<Region>, operations: seq<Operation>, trace: seq<Trace>, pools: seq<Pool>) {
    && |trace| <= |operations| && |pools| == |trace| + 1
    && forall i: nat {:trigger DoneAt(regions, operations, trace, pools, i)} ::
         DoneAt(regions, operations, trace, pools, i)
  }

  ghost predicate DoneAt(regions: seq<Region>, operations: seq<Operation>, trace: seq<Trace>, pools: seq<Pool>, i: nat)
    requires |trace| <= |operations| && |pools| == |trace| + 1
  {
    i < |trace| ==> Did(regions, operations[i], Held(trace[..i]), pools[i], trace[i], pools[i + 1])
  }

  lemma DoneGrows(
    regions: seq<Region>, operations: seq<Operation>, trace: seq<Trace>, pools: seq<Pool>, t: Trace, pool: Pool)
    requires AllDone(regions, operations, trace, pools) && |trace| < |operations|
    requires Did(regions, operations[|trace|], Held(trace), pools[|trace|], t, pool)
    ensures AllDone(regions, operations, trace + [t], pools + [pool])
  {
    var more, after := trace + [t], pools + [pool];
    forall i: nat
      ensures DoneAt(regions, operations, more, after, i)
    {
      assert DoneAt(regions, operations, trace, pools, i);
      if i <= |trace| {
        assert more[..i] == trace[..i];
        assert trace[..|trace|] == trace;
      }
    }
  }

  /** What is held is allocated. */
  ghost predicate HeldAllocated(a: FrameAllocator, held: set<nat>)
    reads a
  {
    forall f :: f in held ==> f < |a.states| && a.states[f] == Allocated
  }

  /** Any run of an allocator built from a memory map without overlaps: allocations, returns of held
      frames, and reclaiming any number of times.  Every operation is done. */
  method Operate(a: FrameAllocator, regions: seq<Region>, ghost directMapOffset: nat, operations: seq<Operation>)
    returns (ghost trace: seq<Trace>, ghost pools: seq<Pool>)
    requires a.Valid() && BuiltFrom(a, regions, directMapOffset) && NoOverlap(regions)
    modifies a, a.bytes
    ensures a.Valid() && Fair(trace, a.storeLo, a.storeHi) && HeldAllocated(a, Held(trace))
    ensures |trace| == |operations| && AllDone(regions, operations, trace, pools)
    ensures pools[0] == old(a.ThePool()) && pools[|trace|] == a.ThePool()
  {
    trace, pools := [], [a.ThePool()];
    var held: set<nat> := {};
    var n := 0;
    while n < |operations|
      invariant 0 <= n <= |operations| && |trace| == n
      invariant a.Valid() && Fair(trace, a.storeLo, a.storeHi) && held == Held(trace) && HeldAllocated(a, held)
      invariant AllDone(regions, operations, trace, pools)
      invariant pools[0] == old(a.ThePool()) && pools[n] == a.ThePool()
    {
      ghost var t;
      held, t := OperateOnce(a, regions, directMapOffset, operations[n], held);
      FairGrows(trace, t, a.storeLo, a.storeHi);
      DoneGrows(regions, operations, trace, pools, t, a.ThePool());
      trace, pools := trace + [t], pools + [a.ThePool()];
      n := n + 1;
    }
  }

  method OperateOnce(a: FrameAllocator, regions: seq<Region>, ghost directMapOffset: nat, operation: Operation,
                     held: set<nat>)
    returns (held': set<nat>, ghost t: Trace)
    requires a.Valid() && BuiltFrom(a, regions, directMapOffset) && NoOverlap(regions) && HeldAllocated(a, held)
    modifies a, a.bytes
    ensures a.Valid() && held' == HeldThen(held, t) && HeldAllocated(a, held')
    ensures t.Took? ==> t.frame !in held && !(a.storeLo <= t.frame < a.storeHi)
    ensures Did(regions, operation, held, old(a.ThePool()), t, a.ThePool())
  {
    held', t := held, Neither;
    match operation {
      case TakeFrame =>
        var frame := a.AllocNozero();
        if frame.Some? {
          held', t := held + {frame.value}, Took(frame.value);
        }
      case GiveFrame(f) =>
        if f in held {
          a.Dealloc(f);
          held', t := held - {f}, Gave(f);
        }
      case Reclaim(kind) =>
        ReclaimSafely(a, regions, directMapOffset, kind);
    }
  }

  /** Reclaiming leaves the bitmap's storage and every allocated frame alone. */
  method ReclaimSafely(a: FrameAllocator, regions: seq<Region>, ghost directMapOffset: nat, kind: RegionKind)
    requires a.Valid() && BuiltFrom(a, regions, directMapOffset) && NoOverlap(regions)
    modifies a, a.bytes
    ensures a.Valid() && RegionsReclaimed(regions, kind, old(a.states), a.states)
  {
    ghost var before := a.states;
    a.ReclaimRegions(regions, kind);
    forall f | a.storeLo <= f < a.storeHi
      ensures a.states[f] == Reserved
    {
      assert before[f] == Reserved;
      if Reclaimable(kind) {
        StoreNotReclaimed(a, regions, directMapOffset, kind, f);
      }
    }
  }

  /** Building the allocator and running it needs nothing but a memory map without overlaps. */
  method BuildAndOperate(regions: seq<Region>, directMapOffset: nat, operations: seq<Operation>)
    returns (r: Result<FrameAllocator, InitError>, ghost trace: seq<Trace>, ghost pools: seq<Pool>)
    requires NoOverlap(regions)
    ensures Decided(regions, directMapOffset, ErrorOf(r))
    ensures r.Ok? ==>
      && r.value.Valid() && Fair(trace, r.value.storeLo, r.value.storeHi) && HeldAllocated(r.value, Held(trace))
      && |trace| == |operations| && AllDone(regions, operations, trace, pools) && pools[|trace|] == r.value.ThePool()
      && UsableAtFirst(regions, r.value.storeLo, r.value.storeHi, pools[0].states)
  {
    trace, pools := [], [];
    r := NewAllocator(regions, directMapOffset);
    if r.Ok? {
      trace, pools := Operate(r.value, regions, directMapOffset, operations);
    }
  }

  /** At first exactly the whole frames of usable regions are free, except those that hold the bitmap. */
  ghost predicate UsableAtFirst(regions: seq<Region>, storeLo: nat, storeHi: nat, states: seq<FrameState>) {
    forall f :: 0 <= f < |states| ==>
      states[f] == if Covered(regions, Usable, |regions|, f) && !(storeLo <= f < storeHi) then Free else Reserved
  }
}
