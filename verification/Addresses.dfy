/** Virtual addresses: canonical form, table indices and page numbers.
    A page number is the part of an address that the tables translate; dividing it by 512
    k times gives the prefix shared by all pages below one table. */
module Addresses {
  import opened Numbers

  const PAGE_SIZE: nat := 4096
  const TABLE_ENTRIES: nat := 512
  const USER_SPACE_END: nat := 0x0000_8000_0000_0000

  datatype Mode = FourLevel | FiveLevel

  datatype Level = Pml5 | Pml4 | Pdpt | PageDirectory

  function IntermediateLevels(mode: Mode): (r: seq<Level>) {
    match mode
    case FourLevel => [Pml4, Pdpt, PageDirectory]
    case FiveLevel => [Pml5, Pml4, Pdpt, PageDirectory]
  }

  function Depth(mode: Mode): nat {
    |IntermediateLevels(mode)|
  }

  /** `address >> shift & 0x1FF`, with the shift of each level written as a power of two. */
  function Index(level: Level, addr: nat): (r: nat)
    ensures r < TABLE_ENTRIES
  {
    match level
    case Pml5 => addr / 0x1_0000_0000_0000 % 512
    case Pml4 => addr / 0x80_0000_0000 % 512
    case Pdpt => addr / 0x4000_0000 % 512
    case PageDirectory => addr / 0x20_0000 % 512
  }

  function P1Index(addr: nat): (r: nat)
    ensures r < TABLE_ENTRIES
  {
    addr / 4096 % 512
  }

  /** Number of addresses the tables can tell apart: 2^48 or 2^57. */
  function Span(mode: Mode): nat {
    match mode
    case FourLevel => 0x1_0000_0000_0000
    case FiveLevel => 0x200_0000_0000_0000
  }

  function SignExtended(low: nat, span: nat): int {
    if low >= span / 2 then low + WORD - span else low
  }

  /** Sign extension of the translated bits gives back the address. */
  predicate IsCanonical(mode: Mode, addr: nat) {
    match mode
    case FourLevel => SignExtended(addr % 0x1_0000_0000_0000, 0x1_0000_0000_0000) == addr
    case FiveLevel => SignExtended(addr % 0x200_0000_0000_0000, 0x200_0000_0000_0000) == addr
  }

  function PageOf(mode: Mode, addr: nat): nat {
    match mode
    case FourLevel => addr % 0x1_0000_0000_0000 / 4096
    case FiveLevel => addr % 0x200_0000_0000_0000 / 4096
  }

  function PageCount(mode: Mode): nat {
    match mode
    case FourLevel => 0x10_0000_0000
    case FiveLevel => 0x2000_0000_0000
  }

  /** The page number with its last k base-512 digits dropped. */
  function Up(page: nat, k: nat): nat {
    if k == 0 then page else Up(page, k - 1) / 512
  }

  /** Dividing by 512 step by step is one division by the product. */
  lemma UpIsDivision(r: nat)
    ensures Up(r / 4096, 1) == r / 0x20_0000
    ensures Up(r / 4096, 2) == r / 0x4000_0000
    ensures Up(r / 4096, 3) == r / 0x80_0000_0000
    ensures Up(r / 4096, 4) == r / 0x1_0000_0000_0000
  {
    assert Up(r / 4096, 1) == r / 4096 / 512 == r / 0x20_0000;
    assert Up(r / 4096, 2) == r / 0x20_0000 / 512 == r / 0x4000_0000;
    assert Up(r / 4096, 3) == r / 0x4000_0000 / 512 == r / 0x80_0000_0000;
    assert Up(r / 4096, 4) == r / 0x80_0000_0000 / 512 == r / 0x1_0000_0000_0000;
  }

  /** Reducing modulo a span keeps a digit whose weight times 512 divides it. */
  lemma DigitOfRemainder(addr: nat, weight: nat, rest: nat)
    requires weight > 0 && rest > 0
    ensures addr % (weight * 512 * rest) / weight % 512 == addr / weight % 512
  {
    var span := weight * 512 * rest;
    Division(addr, span);
    Regroup(addr / span, weight, rest);
    DigitShift(addr, addr % span, weight, addr / span * rest);
  }

  lemma Division(n: nat, span: nat)
    requires span > 0
    ensures n == n / span * span + n % span
  {
  }

  lemma Regroup(q: nat, weight: nat, rest: nat)
    ensures q * (weight * 512 * rest) == (q * rest) * 512 * weight
  {
  }

  /** Adding a multiple of 512 weights leaves the digit as it is. */
  lemma DigitShift(n: nat, r: nat, weight: nat, m: nat)
    requires weight > 0 && n == m * 512 * weight + r
    ensures n / weight % 512 == r / weight % 512
  {
    DivShift(r, weight, m * 512);
    ModShift(r / weight, m);
  }

  lemma DivShift(r: nat, weight: nat, m: nat)
    requires weight > 0
    ensures (m * weight + r) / weight == m + r / weight
  {
    var d := r / weight;
    Division(r, weight);
    assert m * weight + r == (m + d) * weight + r % weight;
    QuotientUnique(m * weight + r, weight, m + d, r % weight);
  }

  lemma ProductAtLeast(x: int, weight: nat)
    ensures x >= 1 ==> x * weight >= weight
    ensures x <= -1 ==> x * weight + weight <= 0
  {
    if x >= 1 {
      assert (x - 1) * weight >= 0;
    } else if x <= -1 {
      assert (-1 - x) * weight >= 0;
    }
  }

  lemma QuotientUnique(n: nat, weight: nat, q: nat, r: nat)
    requires weight > 0 && n == q * weight + r && r < weight
    ensures n / weight == q
  {
    var d := n / weight;
    Division(n, weight);
    assert (d - q) * weight == r - n % weight;
    ProductAtLeast(d - q, weight);
  }

  lemma ModShift(n: nat, m: nat)
    ensures (m * 512 + n) % 512 == n % 512
  {
  }

  lemma FourDigits(addr: nat)
    ensures var r := addr % Span(FourLevel);
            && r / 4096 % 512 == P1Index(addr)
            && r / 0x20_0000 % 512 == Index(PageDirectory, addr)
            && r / 0x4000_0000 % 512 == Index(Pdpt, addr)
            && r / 0x80_0000_0000 % 512 == Index(Pml4, addr)
  {
    DigitOfRemainder(addr, 4096, 0x800_0000);
    DigitOfRemainder(addr, 0x20_0000, 0x4_0000);
    DigitOfRemainder(addr, 0x4000_0000, 512);
    DigitOfRemainder(addr, 0x80_0000_0000, 1);
  }

  lemma FiveDigits(addr: nat)
    ensures var r := addr % Span(FiveLevel);
            && r / 4096 % 512 == P1Index(addr)
            && r / 0x20_0000 % 512 == Index(PageDirectory, addr)
            && r / 0x4000_0000 % 512 == Index(Pdpt, addr)
            && r / 0x80_0000_0000 % 512 == Index(Pml4, addr)
            && r / 0x1_0000_0000_0000 % 512 == Index(Pml5, addr)
  {
    DigitOfRemainder(addr, 4096, 0x10_0000_0000);
    DigitOfRemainder(addr, 0x20_0000, 0x800_0000);
    DigitOfRemainder(addr, 0x4000_0000, 0x4_0000);
    DigitOfRemainder(addr, 0x80_0000_0000, 512);
    DigitOfRemainder(addr, 0x1_0000_0000_0000, 1);
  }

  lemma DigitsOfPage(mode: Mode, addr: nat)
    ensures var page := PageOf(mode, addr);
            && page % 512 == P1Index(addr)
            && Up(page, 1) % 512 == Index(PageDirectory, addr)
            && Up(page, 2) % 512 == Index(Pdpt, addr)
            && Up(page, 3) % 512 == Index(Pml4, addr)
            && (mode == FiveLevel ==> Up(page, 4) % 512 == Index(Pml5, addr))
  {
    UpIsDivision(addr % Span(mode));
    match mode
    case FourLevel => FourDigits(addr);
    case FiveLevel => FiveDigits(addr);
  }

  /** Each index read during a walk is one base-512 digit of the page number. */
  lemma IndexIsDigit(mode: Mode, addr: nat, d: nat)
    requires d < Depth(mode)
    ensures Index(IntermediateLevels(mode)[d], addr) == Up(PageOf(mode, addr), Depth(mode) - d) % 512
  {
    DigitsOfPage(mode, addr);
  }

  /** Dropping every digit leaves the root's prefix. */
  lemma RootPrefix(mode: Mode, page: nat)
    requires page < PageCount(mode)
    ensures Up(page, Depth(mode) + 1) == 0
  {
    assert Up(page, 1) == page / 512;
    assert Up(page, 2) == Up(page, 1) / 512;
    assert Up(page, 3) == Up(page, 2) / 512;
    assert Up(page, 4) == Up(page, 3) / 512;
    assert Up(page, 5) == Up(page, 4) / 512;
  }

  /** A page number is determined by its base-512 digits. */
  lemma {:induction false} DigitsDeterminePage(p: nat, q: nat, k: nat)
    requires Up(p, k) == Up(q, k)
    requires forall j :: 0 <= j < k ==> Up(p, j) % 512 == Up(q, j) % 512
    ensures p == q
  {
    if k > 0 {
      assert Up(p, k) == Up(p, k - 1) / 512 && Up(q, k) == Up(q, k - 1) / 512;
      assert Up(p, k - 1) % 512 == Up(q, k - 1) % 512;
      DigitsDeterminePage(p, q, k - 1);
    }
  }

  /** A remainder modulo a multiple of the page size is as aligned as the number itself. */
  lemma AlignedRemainder(a: nat, pages: nat)
    requires pages > 0 && a % 4096 == 0
    ensures a % (4096 * pages) == a % (4096 * pages) / 4096 * 4096
  {
    var span := 4096 * pages;
    var q, r := a / span, a % span;
    assert a == span * q + r;
    assert span * q == 4096 * (pages * q);
    var m := a / 4096 - pages * q;
    assert r == 4096 * m;
  }

  lemma RemainderDetermines(mode: Mode, a: nat, b: nat)
    requires IsCanonical(mode, a) && IsCanonical(mode, b) && a % Span(mode) == b % Span(mode)
    ensures a == b
  {
  }

  lemma PageDeterminesAddress(mode: Mode, a: nat, b: nat)
    requires IsCanonical(mode, a) && IsCanonical(mode, b)
    requires a % PAGE_SIZE == 0 && b % PAGE_SIZE == 0
    ensures PageOf(mode, a) == PageOf(mode, b) ==> a == b
  {
    if PageOf(mode, a) == PageOf(mode, b) {
      AlignedRemainder(a, PageCount(mode));
      AlignedRemainder(b, PageCount(mode));
      assert 4096 * PageCount(mode) == Span(mode);
      RemainderDetermines(mode, a, b);
    }
  }

  lemma SameDigit(mode: Mode, a: nat, b: nat, j: nat)
    requires j <= Depth(mode)
    requires if j == 0 then P1Index(a) == P1Index(b) else
      var level := IntermediateLevels(mode)[Depth(mode) - j]; Index(level, a) == Index(level, b)
    ensures Up(PageOf(mode, a), j) % 512 == Up(PageOf(mode, b), j) % 512
  {
    if j == 0 {
      DigitsOfPage(mode, a);
      DigitsOfPage(mode, b);
    } else {
      IndexIsDigit(mode, a, Depth(mode) - j);
      IndexIsDigit(mode, b, Depth(mode) - j);
    }
  }

  /** Two canonical page addresses that agree on every table index are the same address. */
  lemma IndicesAreInjective(mode: Mode, a: nat, b: nat)
    requires IsCanonical(mode, a) && IsCanonical(mode, b)
    requires a % PAGE_SIZE == 0 && b % PAGE_SIZE == 0
    requires P1Index(a) == P1Index(b)
    requires forall level <- IntermediateLevels(mode) :: Index(level, a) == Index(level, b)
    ensures a == b
  {
    var p, q := PageOf(mode, a), PageOf(mode, b);
    RootPrefix(mode, p);
    RootPrefix(mode, q);
    forall j | 0 <= j < Depth(mode) + 1
      ensures Up(p, j) % 512 == Up(q, j) % 512
    {
      if j > 0 {
        assert IntermediateLevels(mode)[Depth(mode) - j] in IntermediateLevels(mode);
      }
      SameDigit(mode, a, b, j);
    }
    DigitsDeterminePage(p, q, Depth(mode) + 1);
    PageDeterminesAddress(mode, a, b);
  }
}
