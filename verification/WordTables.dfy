/** Table memory as 64-bit words: whatever is written and read there, the decoded memory that the
    page-table model works on says the same. */
module WordTables {
  import opened Outcomes
  import opened Addresses
  import opened Forest
  import opened Walks
  import opened Grafts
  import opened MapSteps
  import opened Entries

  type Words = map<nat, seq<bv64>>

  function DecodeTable(t: seq<bv64>, limit: bv64): (r: Table)
    ensures |r| == |t| && forall i :: 0 <= i < |t| ==> r[i] == Decode(t[i], limit)
  {
    seq(|t|, i requires 0 <= i < |t| => Decode(t[i], limit))
  }

  function DecodeMemory(w: Words, limit: bv64): (r: Memory)
    ensures r.Keys == w.Keys && forall f :: f in w ==> r[f] == DecodeTable(w[f], limit)
  {
    map f | f in w :: DecodeTable(w[f], limit)
  }

  // ---- Writes ----

  /** Everything that is ever written to a table: a word that stands for an entry, a user bit, a frame of
      zeros, or the upper half of another root. */
  datatype TableWrite =
    | WriteEntryWord(table: nat, index: nat, word: bv64, entry: Entry)
    | WriteUser(table: nat, index: nat)
    | WriteZeros(table: nat)
    | WriteHalf(table: nat, source: nat)

  predicate InTable(w: Words, f: nat, i: nat) {
    f in w && i < |w[f]|
  }

  /** A write that the code can make. */
  predicate Writable(w: Words, limit: bv64, x: TableWrite) {
    match x
    case WriteEntryWord(f, i, word, e) => InTable(w, f, i) && Decode(word, limit) == e
    case WriteUser(f, i) => InTable(w, f, i)
    case WriteZeros(f) => true
    case WriteHalf(f, source) => f in w && source in w && |w[f]| == 512 && |w[source]| == 512
  }

  /** The words made for leaves stand for those leaves. */
  lemma LeafWritable(w: Words, limit: bv64, f: nat, i: nat,
                     addr: bv64, p: Perms, uncached: bool, nxEnabled: bool, global: bool)
    requires IsLimit(limit) && Aligned(addr) && InTable(w, f, i)
    requires NewEntry(addr, p, uncached, limit, nxEnabled, global).Ok?
    ensures Writable(w, limit, WriteEntryWord(f, i, NewEntry(addr, p, uncached, limit, nxEnabled, global).value,
                                              Entry(true, p, false, global, uncached, (addr >> 12) as nat)))
  {
    NewEntryDecodes(addr, p, uncached, limit, nxEnabled, global);
  }

  /** The words made for links stand for those links. */
  lemma LinkWritable(w: Words, limit: bv64, f: nat, i: nat, addr: bv64, user: bool)
    requires IsLimit(limit) && Aligned(addr) && InTable(w, f, i) && NewTable(addr, user, limit).Ok?
    ensures Writable(w, limit, WriteEntryWord(f, i, NewTable(addr, user, limit).value,
                                              Entry(true, Perms(true, true, user), false, false, false,
                                                    (addr >> 12) as nat)))
  {
    NewTableDecodes(addr, user, limit);
  }

  /** The null word stands for the null entry. */
  lemma NullWritable(w: Words, limit: bv64, f: nat, i: nat)
    requires InTable(w, f, i)
    ensures Writable(w, limit, WriteEntryWord(f, i, 0, NULL_ENTRY))
  {
    ZeroDecodes(limit);
  }

  function SetWord(w: Words, f: nat, i: nat, word: bv64): Words
    requires InTable(w, f, i)
  {
    w[f := w[f][i := word]]
  }

  function WriteWord(w: Words, limit: bv64, x: TableWrite): Words
    requires Writable(w, limit, x)
  {
    match x
    case WriteEntryWord(f, i, word, _) => SetWord(w, f, i, word)
    case WriteUser(f, i) => SetWord(w, f, i, w[f][i] | USER_ACCESSIBLE)
    case WriteZeros(f) => w[f := seq(512, i => 0)]
    case WriteHalf(f, source) => w[f := w[f][..256] + w[source][256..]]
  }

  /** The same write to decoded tables. */
  function WriteEntry(mem: Memory, x: TableWrite): Memory {
    match x
    case WriteEntryWord(f, i, _, e) => Put(mem, f, i, e)
    case WriteUser(f, i) => SetUser(mem, Place(f, i))
    case WriteZeros(f) => mem[f := ZeroTable()]
    case WriteHalf(f, source) =>
      if f in mem && source in mem && |mem[f]| == |mem[source]| == 512 then mem[f := mem[f][..256] + mem[source][256..]]
      else mem
  }

  lemma SetWordDecodes(w: Words, limit: bv64, f: nat, i: nat, word: bv64)
    requires InTable(w, f, i)
    ensures DecodeMemory(SetWord(w, f, i, word), limit) == Put(DecodeMemory(w, limit), f, i, Decode(word, limit))
  {
    assert DecodeTable(w[f][i := word], limit) == DecodeTable(w[f], limit)[i := Decode(word, limit)];
  }

  lemma ZerosDecode(limit: bv64)
    ensures DecodeTable(seq(512, i => 0), limit) == ZeroTable()
  {
    ZeroDecodes(limit);
  }

  lemma HalvesDecode(t: seq<bv64>, u: seq<bv64>, limit: bv64)
    requires |t| == |u| == 512
    ensures DecodeTable(t[..256] + u[256..], limit) == DecodeTable(t, limit)[..256] + DecodeTable(u, limit)[256..]
  {
  }

  lemma SetTableDecodes(w: Words, limit: bv64, f: nat, t: seq<bv64>)
    ensures DecodeMemory(w[f := t], limit) == DecodeMemory(w, limit)[f := DecodeTable(t, limit)]
  {
  }

  lemma UserDecodes(w: Words, limit: bv64, f: nat, i: nat)
    requires IsLimit(limit) && Writable(w, limit, WriteUser(f, i))
    ensures DecodeMemory(WriteWord(w, limit, WriteUser(f, i)), limit)
         == WriteEntry(DecodeMemory(w, limit), WriteUser(f, i))
  {
    var word := w[f][i];
    assert At(DecodeMemory(w, limit), f, i) == Decode(word, limit);
    UpgradeDecodes(word, limit);
    SetWordDecodes(w, limit, f, i, word | USER_ACCESSIBLE);
    SetUserIs(DecodeMemory(w, limit), f, i, Decode(word, limit), Decode(word | USER_ACCESSIBLE, limit));
  }

  lemma SetUserIs(mem: Memory, f: nat, i: nat, e: Entry, upgraded: Entry)
    requires At(mem, f, i) == e && upgraded == e.(perms := e.perms.(user := true))
    ensures WriteEntry(mem, WriteUser(f, i)) == Put(mem, f, i, upgraded)
  {
  }

  /** Writing words and decoding is decoding and writing entries. */
  lemma WriteDecodes(w: Words, limit: bv64, x: TableWrite)
    requires IsLimit(limit) && Writable(w, limit, x)
    ensures DecodeMemory(WriteWord(w, limit, x), limit) == WriteEntry(DecodeMemory(w, limit), x)
  {
    match x {
      case WriteEntryWord(f, i, word, e) => SetWordDecodes(w, limit, f, i, word);
      case WriteUser(f, i) => UserDecodes(w, limit, f, i);
      case WriteZeros(f) =>
        ZerosDecode(limit);
        SetTableDecodes(w, limit, f, seq(512, i => 0));
      case WriteHalf(f, source) =>
        HalvesDecode(w[f], w[source], limit);
        SetTableDecodes(w, limit, f, w[f][..256] + w[source][256..]);
    }
  }

  /** Each write can be made where it is made. */
  predicate AllWritable(w: Words, limit: bv64, xs: seq<TableWrite>)
    decreases |xs|
  {
    xs != [] ==> Writable(w, limit, xs[0]) && AllWritable(WriteWord(w, limit, xs[0]), limit, xs[1..])
  }

  function WriteWords(w: Words, limit: bv64, xs: seq<TableWrite>): Words
    requires AllWritable(w, limit, xs)
    decreases |xs|
  {
    if xs == [] then w else WriteWords(WriteWord(w, limit, xs[0]), limit, xs[1..])
  }

  function WriteEntries(mem: Memory, xs: seq<TableWrite>): Memory
    decreases |xs|
  {
    if xs == [] then mem else WriteEntries(WriteEntry(mem, xs[0]), xs[1..])
  }

  /** After any writes, the decoded memory is what the same writes make of the decoded memory. */
  lemma {:induction false} WritesDecode(w: Words, limit: bv64, xs: seq<TableWrite>)
    requires IsLimit(limit) && AllWritable(w, limit, xs)
    ensures DecodeMemory(WriteWords(w, limit, xs), limit) == WriteEntries(DecodeMemory(w, limit), xs)
    decreases |xs|
  {
    if xs != [] {
      WriteDecodes(w, limit, xs[0]);
      WritesDecode(WriteWord(w, limit, xs[0]), limit, xs[1..]);
    }
  }

  // ---- Reads ----

  function WordAt(w: Words, f: nat, i: nat): bv64 {
    if InTable(w, f, i) then w[f][i] else 0
  }

  lemma WordDecodesAt(w: Words, limit: bv64, f: nat, i: nat)
    ensures Decode(WordAt(w, f, i), limit) == At(DecodeMemory(w, limit), f, i)
  {
    ZeroDecodes(limit);
  }

  /** What a walk learns from a word; nothing, if there is no such table. */
  method ReadEntry(w: Words, limit: bv64, f: nat, i: nat, ghost mem: Memory) returns (e: Option<Entry>)
    requires mem == DecodeMemory(w, limit)
    ensures e == if f in mem then Some(At(mem, f, i)) else None
  {
    if f !in w {
      return None;
    }
    WordDecodesAt(w, limit, f, i);
    return Some(Decode(WordAt(w, f, i), limit));
  }

  /** A walk over words finds what the decoded memory says. */
  method ToPhysical(w: Words, limit: bv64, mode: Mode, root: nat, addr: nat) returns (r: Option<nat>)
    ensures r == Translate(DecodeMemory(w, limit), mode, root, addr)
  {
    r := Walk(w, limit, mode, root, addr, DecodeMemory(w, limit));
  }

  /** One level of the walk: it ends here, or goes on at the next table. */
  method WalkStep(w: Words, limit: bv64, mode: Mode, ix: seq<nat>, addr: nat, d: nat, table: nat, ghost mem: Memory)
    returns (r: Result<nat, Option<nat>>)
    requires mem == DecodeMemory(w, limit) && d < Depth(mode) && |ix| == Depth(mode) + 1
    ensures r.Ok? ==> TranslateFrom(mem, mode, ix, addr, d, table) == TranslateFrom(mem, mode, ix, addr, d + 1, r.value)
    ensures r.Err? ==> TranslateFrom(mem, mode, ix, addr, d, table) == r.error
  {
    var entry := ReadEntry(w, limit, table, ix[d], mem);
    if entry.None? || !entry.value.present {
      return Err(None);
    }
    if entry.value.huge {
      var size := LargePageFrames(IntermediateLevels(mode)[d]);
      if size.None? {
        return Err(None);
      }
      return Err(Some(LargePageAddress(entry.value.frame, size.value, addr)));
    }
    return Ok(entry.value.frame);
  }

  method Walk(w: Words, limit: bv64, mode: Mode, root: nat, addr: nat, ghost mem: Memory) returns (r: Option<nat>)
    requires mem == DecodeMemory(w, limit)
    ensures r == Translate(mem, mode, root, addr)
  {
    if !IsCanonical(mode, addr) {
      return None;
    }
    var ix := Indices(mode, addr);
    var table: nat, d := root, 0;
    while d < Depth(mode)
      invariant 0 <= d <= Depth(mode)
      invariant Translate(mem, mode, root, addr) == TranslateFrom(mem, mode, ix, addr, d, table)
    {
      var step := WalkStep(w, limit, mode, ix, addr, d, table, mem);
      if step.Err? {
        return step.error;
      }
      table := step.value;
      d := d + 1;
    }
    var entry := ReadEntry(w, limit, table, ix[d], mem);
    if entry.None? || !entry.value.present {
      return None;
    }
    return Some(entry.value.frame * PAGE_SIZE + addr % PAGE_SIZE);
  }
}
