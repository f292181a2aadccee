/** Page-table entries as 64-bit words, and the decoded entry each word stands for. */
module Entries {
  import opened Outcomes
  import opened Forest

  const PRESENT: bv64 := 0x1
  const WRITABLE: bv64 := 0x2
  const USER_ACCESSIBLE: bv64 := 0x4
  const WRITE_THROUGH: bv64 := 0x8
  const CACHE_DISABLED: bv64 := 0x10
  const HUGE_PAGE: bv64 := 0x80
  const GLOBAL: bv64 := 0x100
  const NX: bv64 := 0x8000_0000_0000_0000
  const FLAG_BITS: bv64 := 0x8000_0000_0000_0FFF

  datatype EntryError = PhysicalAddressTooLarge | NoExecuteUnsupported

  /** 2^physical_address_bits for 12 to 52 bits. */
  predicate IsLimit(limit: bv64) {
    limit & (limit - 1) == 0 && 0x1000 <= limit <= 0x10_0000_0000_0000
  }

  lemma AddressBitsGiveLimit(bits: bv64)
    requires 12 <= bits <= 52
    ensures IsLimit(1 << bits)
  {
  }

  function Mask(limit: bv64): bv64 {
    (limit - 1) & !0xFFF
  }

  function Flag(on: bool, bit: bv64): bv64 {
    if on then bit else 0
  }

  function Flags(writable: bool, executable: bool, user: bool, uncached: bool, global: bool): bv64 {
    PRESENT | Flag(writable, WRITABLE) | Flag(user, USER_ACCESSIBLE) | Flag(!executable, NX)
    | Flag(global, GLOBAL) | Flag(uncached, CACHE_DISABLED | WRITE_THROUGH)
  }

  function NewEntry(addr: bv64, p: Perms, uncached: bool, limit: bv64, nxEnabled: bool,
                    global: bool): Result<bv64, EntryError>
  {
    if addr >= limit then Err(PhysicalAddressTooLarge)
    else if !p.executable && !nxEnabled then Err(NoExecuteUnsupported)
    else Ok(addr | Flags(p.writable, p.executable, p.user, uncached, global))
  }

  function NewTable(addr: bv64, user: bool, limit: bv64): Result<bv64, EntryError> {
    if addr >= limit then Err(PhysicalAddressTooLarge)
    else Ok(addr | Flags(true, true, user, false, false))
  }

  predicate Has(w: bv64, bit: bv64) {
    w & bit != 0
  }

  /** The entry of the page-table model that a word stands for. */
  function Decode(w: bv64, limit: bv64): Entry {
    Entry(Has(w, PRESENT), Perms(Has(w, WRITABLE), !Has(w, NX), Has(w, USER_ACCESSIBLE)), Has(w, HUGE_PAGE),
          Has(w, GLOBAL), Has(w, CACHE_DISABLED), ((w & Mask(limit)) >> 12) as nat)
  }

  predicate Aligned(addr: bv64) {
    addr & 0xFFF == 0
  }

  /** Reading an address back from a word ignores the flag bits. */
  lemma MaskKeepsAddress(addr: bv64, flags: bv64, limit: bv64)
    requires IsLimit(limit) && addr < limit && Aligned(addr) && flags & !FLAG_BITS == 0
    ensures (addr | flags) & Mask(limit) == addr && addr & FLAG_BITS == 0
  {
  }

  lemma FlagOfWord(addr: bv64, flags: bv64)
    requires addr & FLAG_BITS == 0
    ensures Has(addr | flags, PRESENT) == Has(flags, PRESENT)
    ensures Has(addr | flags, WRITABLE) == Has(flags, WRITABLE)
    ensures Has(addr | flags, NX) == Has(flags, NX)
    ensures Has(addr | flags, USER_ACCESSIBLE) == Has(flags, USER_ACCESSIBLE)
    ensures Has(addr | flags, HUGE_PAGE) == Has(flags, HUGE_PAGE)
    ensures Has(addr | flags, GLOBAL) == Has(flags, GLOBAL)
    ensures Has(addr | flags, CACHE_DISABLED) == Has(flags, CACHE_DISABLED)
  {
  }

  lemma FlagsRead(writable: bool, executable: bool, user: bool, uncached: bool, global: bool)
    ensures var w := Flags(writable, executable, user, uncached, global);
            && w & !FLAG_BITS == 0
            && Has(w, PRESENT) && !Has(w, HUGE_PAGE)
            && Has(w, WRITABLE) == writable && Has(w, NX) == !executable && Has(w, USER_ACCESSIBLE) == user
            && Has(w, GLOBAL) == global && Has(w, CACHE_DISABLED) == uncached
  {
  }

  /** A word made of an address and flags stands for exactly those. */
  lemma WordDecodes(addr: bv64, flags: bv64, limit: bv64, p: Perms, uncached: bool, global: bool)
    requires IsLimit(limit) && addr < limit && Aligned(addr)
    requires flags == Flags(p.writable, p.executable, p.user, uncached, global)
    ensures Decode(addr | flags, limit) == Entry(true, p, false, global, uncached, (addr >> 12) as nat)
  {
    FlagsRead(p.writable, p.executable, p.user, uncached, global);
    MaskKeepsAddress(addr, flags, limit);
    FlagOfWord(addr, flags);
  }

  /** A leaf word decodes to the frame, permissions and cache policy it was made from. */
  lemma NewEntryDecodes(addr: bv64, p: Perms, uncached: bool, limit: bv64, nxEnabled: bool, global: bool)
    requires IsLimit(limit) && Aligned(addr) && NewEntry(addr, p, uncached, limit, nxEnabled, global).Ok?
    ensures Decode(NewEntry(addr, p, uncached, limit, nxEnabled, global).value, limit)
         == Entry(true, p, false, global, uncached, (addr >> 12) as nat)
  {
    WordDecodes(addr, Flags(p.writable, p.executable, p.user, uncached, global), limit, p, uncached, global);
  }

  /** A table word decodes to a writable, executable link to its frame. */
  lemma NewTableDecodes(addr: bv64, user: bool, limit: bv64)
    requires IsLimit(limit) && Aligned(addr) && NewTable(addr, user, limit).Ok?
    ensures Decode(NewTable(addr, user, limit).value, limit)
         == Entry(true, Perms(true, true, user), false, false, false, (addr >> 12) as nat)
  {
    WordDecodes(addr, Flags(true, true, user, false, false), limit, Perms(true, true, user), false, false);
  }

  lemma UserBitReads(w: bv64, limit: bv64)
    requires IsLimit(limit)
    ensures var u := w | USER_ACCESSIBLE;
            && Has(u, USER_ACCESSIBLE) && u & Mask(limit) == w & Mask(limit)
            && Has(u, PRESENT) == Has(w, PRESENT) && Has(u, WRITABLE) == Has(w, WRITABLE) && Has(u, NX) == Has(w, NX)
            && Has(u, HUGE_PAGE) == Has(w, HUGE_PAGE) && Has(u, GLOBAL) == Has(w, GLOBAL)
            && Has(u, CACHE_DISABLED) == Has(w, CACHE_DISABLED)
  {
  }

  /** Setting the user bit in a word changes only the decoded user permission. */
  lemma UpgradeDecodes(w: bv64, limit: bv64)
    requires IsLimit(limit)
    ensures var e := Decode(w, limit);
            Decode(w | USER_ACCESSIBLE, limit) == e.(perms := e.perms.(user := true))
  {
    UserBitReads(w, limit);
  }

  /** The zero word, and so every word of a zeroed frame, is the null entry. */
  lemma ZeroDecodes(limit: bv64)
    ensures Decode(0, limit) == NULL_ENTRY
  {
  }
}
