/** Checking that a range of user memory may be accessed. */
module UserAccess {
  import opened Outcomes
  import opened Numbers
  import opened Addresses
  import opened Forest
  import opened Walks
  import opened AddressSpaces
  import PageTables

  datatype Status = InvalidArgument | BadAddress | BadFileDescriptor | NoSuchTask | OutOfMemory | BadHandle

  /** The byte at `addr` lies on a mapped user page, writable if asked. */
  ghost predicate ByteOk(mem: Memory, mode: Mode, root: nat, addr: nat, writable: bool) {
    var p := MappingAt(mem, mode, root, addr);
    p.Some? && p.value.user && (writable ==> p.value.writable)
  }

  lemma DivByPage(x: nat, weight: nat)
    requires weight > 0
    ensures (x - x % 4096) / (4096 * weight) == x / (4096 * weight)
  {
    var q, r := x / (4096 * weight), x % (4096 * weight);
    assert x == (4096 * weight) * q + r;
    var o := x % 4096;
    assert x == 4096 * (x / 4096) + o;
    assert r == 4096 * (x / 4096 - weight * q) + o;
    assert x / 4096 - weight * q >= 0;
    assert x - o == q * (4096 * weight) + (r - o);
    QuotientUnique(x - o, 4096 * weight, q, r - o);
  }

  lemma SameIndices(mode: Mode, x: nat)
    ensures Indices(mode, x - x % 4096) == Indices(mode, x)
  {
    DivByPage(x, 1);
    DivByPage(x, 0x200);
    DivByPage(x, 0x4_0000);
    DivByPage(x, 0x800_0000);
    DivByPage(x, 0x10_0000_0000);
  }

  /** All bytes of a page have the permissions of its first byte. */
  lemma PermissionsPerPage(mem: Memory, mode: Mode, root: nat, x: nat)
    requires x < USER_SPACE_END
    ensures MappingAt(mem, mode, root, x - x % PAGE_SIZE) == MappingAt(mem, mode, root, x)
  {
    SameIndices(mode, x);
    UserIndex(mode, x);
    UserIndex(mode, x - x % PAGE_SIZE);
  }

  lemma PageOfByte(page: nat, x: nat)
    requires page % PAGE_SIZE == 0 && page <= x < page + PAGE_SIZE
    ensures x - x % PAGE_SIZE == page
  {
  }

  lemma BytesOfPage(mem: Memory, mode: Mode, root: nat, page: nat, x: nat, writable: bool)
    requires page % PAGE_SIZE == 0 && page <= x < page + PAGE_SIZE && x < USER_SPACE_END
    ensures ByteOk(mem, mode, root, x, writable) == ByteOk(mem, mode, root, page, writable)
  {
    PageOfByte(page, x);
    PermissionsPerPage(mem, mode, root, x);
  }

  ghost predicate RangeOk(mem: Memory, mode: Mode, root: nat, lo: nat, hi: nat, writable: bool) {
    forall x {:trigger ByteOk(mem, mode, root, x, writable)} :: lo <= x < hi ==> ByteOk(mem, mode, root, x, writable)
  }

  /** Checking one more page decides all its bytes of the range. */
  lemma RangeGrows(mem: Memory, mode: Mode, root: nat, start: nat, page: nat, end: nat, writable: bool)
    requires page % PAGE_SIZE == 0 && start < page + PAGE_SIZE && start < end && page < end <= USER_SPACE_END
    requires RangeOk(mem, mode, root, start, Min(page, end), writable)
    ensures ByteOk(mem, mode, root, page, writable) ==>
      RangeOk(mem, mode, root, start, Min(page + PAGE_SIZE, end), writable)
    ensures !ByteOk(mem, mode, root, page, writable) ==> !RangeOk(mem, mode, root, start, end, writable)
  {
    var first := if page < start then start else page;
    BytesOfPage(mem, mode, root, page, first, writable);
    if ByteOk(mem, mode, root, page, writable) {
      forall x | start <= x < Min(page + PAGE_SIZE, end)
        ensures ByteOk(mem, mode, root, x, writable)
      {
        if x >= page {
          BytesOfPage(mem, mode, root, page, x, writable);
        }
      }
    }
  }

  predicate RangeInBounds(start: nat, len: nat) {
    start + len < WORD && start < USER_SPACE_END && start + len <= USER_SPACE_END
  }

  /** Succeeds exactly when the range is in bounds and every byte of it may be accessed. */
  method ValidateUserRange(m: PageTables.Machine, space: Option<AddressSpace>, start: nat, len: nat, writable: bool)
    returns (r: Result<(), Status>)
    ensures r.Ok? <==>
      && RangeInBounds(start, len)
      && (len > 0 ==> space.Some? && RangeOk(m.mem, m.mode, space.value.root, start, start + len, writable))
    ensures r.Err? ==> r.error == BadAddress
  {
    if start + len >= WORD {
      return Err(BadAddress);
    }
    var end := start + len;
    if start >= USER_SPACE_END || end > USER_SPACE_END {
      return Err(BadAddress);
    }
    if len == 0 {
      return Ok(());
    }
    if space.None? {
      return Err(BadAddress);
    }
    var ok := CheckPages(m, space.value.root, start, end, writable);
    if !ok {
      return Err(BadAddress);
    }
    return Ok(());
  }

  /** Checks the pages of a range one by one. */
  method CheckPages(m: PageTables.Machine, root: nat, start: nat, end: nat, writable: bool) returns (ok: bool)
    requires start < end <= USER_SPACE_END
    ensures ok <==> RangeOk(m.mem, m.mode, root, start, end, writable)
  {
    var page := start - start % PAGE_SIZE;
    while page < end
      invariant page % PAGE_SIZE == 0 && start < page + PAGE_SIZE
      invariant RangeOk(m.mem, m.mode, root, start, Min(page, end), writable)
    {
      RangeGrows(m.mem, m.mode, root, start, page, end, writable);
      var mapping := m.Mapping(root, page);
      var valid := mapping.Some? && mapping.value.user && (!writable || mapping.value.writable);
      if !valid {
        return false;
      }
      page := NextPage(page);
    }
    return true;
  }

  method NextPage(page: nat) returns (next: nat)
    ensures next == page + PAGE_SIZE && (page % PAGE_SIZE == 0 ==> next % PAGE_SIZE == 0)
  {
    next := page + PAGE_SIZE;
  }

  const WORD_BYTES: nat := 8

  /** The bounds check of the copy functions. */
  function CopyBounds(addr: nat, len: nat): Result<(), Status> {
    if addr + len >= WORD || addr + len > USER_SPACE_END then Err(BadAddress) else Ok(())
  }

  /** The checks before one machine word is written. */
  function CopyWord(addr: nat): Result<(), Status> {
    if addr % WORD_BYTES != 0 then Err(InvalidArgument) else CopyBounds(addr, WORD_BYTES)
  }
}
