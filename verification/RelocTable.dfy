/**
 A relocation table written out as bytes from a list of blocks (Microsoft PE Format, "The .reloc
 Section"), and what relocating an image that holds it does to the addresses it lists.
 */
module RelocTable {
  import opened Division
  import opened Relocation

  type Kind = k: int | 0 <= k < 16
  type Offset = o: int | 0 <= o < 4096
  type Word32 = w: int | 0 <= w < 0x1_0000_0000

  datatype Entry = Entry(kind: Kind, offset: Offset)

  datatype Block = Block(page: Word32, entries: seq<Entry>)

  /** The `w` bytes of `v`, lowest first. */
  function LittleEndian(v: nat, w: nat): (r: seq<Byte>)
    ensures |r| == w
    decreases w
  {
    if w == 0 then [] else [v % 256] + LittleEndian(v / 256, w - 1)
  }

  /** Kind in the high four bits, offset in the low twelve. */
  function EntryBytes(es: seq<Entry>): (r: seq<Byte>)
    ensures |r| == 2 * |es|
  {
    if es == [] then [] else EntryBytes(es[..|es| - 1]) + LittleEndian(es[|es| - 1].kind * 4096 + es[|es| - 1].offset, 2)
  }

  function SizeOf(b: Block): nat
  {
    8 + 2 * |b.entries|
  }

  function BlockBytes(b: Block): (r: seq<Byte>)
    ensures |r| == SizeOf(b)
  {
    LittleEndian(b.page, 4) + LittleEndian(SizeOf(b), 4) + EntryBytes(b.entries)
  }

  function TableBytes(bs: seq<Block>): seq<Byte>
  {
    if bs == [] then [] else BlockBytes(bs[0]) + TableBytes(bs[1..])
  }

  /** An address of 64 bits for kind 10, of 32 bits for kind 3, none for any other. */
  function EntryTarget(base: int, page: Word32, e: Entry): seq<Fix>
  {
    if e.kind == 10 then [Fix(base + page + e.offset, 8)]
    else if e.kind == 3 then [Fix(base + page + e.offset, 4)]
    else []
  }

  function EntryTargets(base: int, page: Word32, es: seq<Entry>): seq<Fix>
  {
    if es == [] then [] else EntryTargets(base, page, es[..|es| - 1]) + EntryTarget(base, page, es[|es| - 1])
  }

  /** The addresses that a table lists. */
  function Targets(base: int, bs: seq<Block>): seq<Fix>
  {
    if bs == [] then [] else EntryTargets(base, bs[0].page, bs[0].entries) + Targets(base, bs[1..])
  }

  ghost predicate Holds(m: Memory, at: int, bytes: seq<Byte>)
  {
    forall k | 0 <= k < |bytes| :: m(at + k) == bytes[k]
  }

  lemma HoldsParts(m: Memory, at: int, a: seq<Byte>, b: seq<Byte>)
    requires Holds(m, at, a + b)
    ensures Holds(m, at, a) && Holds(m, at + |a|, b)
  {
    forall k | 0 <= k < |a|
      ensures m(at + k) == a[k]
    {
      assert (a + b)[k] == a[k];
    }
    forall k | 0 <= k < |b|
      ensures m(at + |a| + k) == b[k]
    {
      assert m(at + (|a| + k)) == (a + b)[|a| + k];
    }
  }

  /** Memory that holds the bytes of a word reads as the word. */
  lemma {:induction false} LoadHeld(m: Memory, t: int, w: nat, v: nat)
    requires Holds(m, t, LittleEndian(v, w)) && v < Power(w)
    ensures Load(m, t, w) == v
    decreases w
  {
    if w > 0 {
      var low := [v % 256];
      HoldsParts(m, t, low, LittleEndian(v / 256, w - 1));
      assert m(t + 0) == low[0];
      LoadHeld(m, t + 1, w - 1, v / 256);
    }
  }

  /** Conversely, memory that reads as a word holds its bytes. */
  lemma {:induction false} HeldLoad(m: Memory, t: int, w: nat)
    ensures Holds(m, t, LittleEndian(Load(m, t, w), w))
    decreases w
  {
    if w > 0 {
      HeldLoad(m, t + 1, w - 1);
      var v := Load(m, t, w);
      assert v % 256 == m(t) && v / 256 == Load(m, t + 1, w - 1);
      var bytes := LittleEndian(v, w);
      forall k | 0 <= k < w
        ensures m(t + k) == bytes[k]
      {
        if k > 0 {
          assert m(t + 1 + (k - 1)) == LittleEndian(v / 256, w - 1)[k - 1];
        }
      }
    }
  }

  lemma Powers()
    ensures Power(2) == 0x1_0000 && Power(4) == 0x1_0000_0000 && Power(8) == 0x1_0000_0000_0000_0000
  {
    Widths();
    assert Power(2) == 256 * Power(1) && Power(1) == 256 * Power(0);
  }

  /** The entries of a block in memory are those that were written. */
  lemma {:induction false} EntryAt(m: Memory, at: int, es: seq<Entry>, i: nat)
    requires Holds(m, at, EntryBytes(es)) && i < |es|
    ensures Load(m, at + 2 * i, 2) == es[i].kind * 4096 + es[i].offset
    decreases |es|
  {
    hide Load, LittleEndian, Power, Holds;
    var init, last := es[..|es| - 1], es[|es| - 1];
    HoldsParts(m, at, EntryBytes(init), LittleEndian(last.kind * 4096 + last.offset, 2));
    if i == |es| - 1 {
      Powers();
      LoadHeld(m, at + 2 * i, 2, last.kind * 4096 + last.offset);
    } else {
      EntryAt(m, at, init, i);
    }
  }

  ghost predicate HeldBlock(m: Memory, p: int, b: Block)
  {
    Holds(m, p, BlockBytes(b)) && SizeOf(b) < 0x8000_0000
  }

  lemma BlockFields(m: Memory, p: int, b: Block)
    requires HeldBlock(m, p, b)
    ensures Load(m, p, 4) == b.page && BlockSize(m, p) == SizeOf(b) && Holds(m, p + 8, EntryBytes(b.entries))
    ensures Entries(SizeOf(b)) == |b.entries|
  {
    hide LittleEndian, EntryBytes, Power, Load, Holds;
    Powers();
    var head := LittleEndian(b.page, 4) + LittleEndian(SizeOf(b), 4);
    HoldsParts(m, p, head, EntryBytes(b.entries));
    HoldsParts(m, p, LittleEndian(b.page, 4), LittleEndian(SizeOf(b), 4));
    LoadHeld(m, p, 4, b.page);
    LoadHeld(m, p + 4, 4, SizeOf(b));
  }

  lemma EntryIsTarget(m: Memory, base: int, p: int, b: Block, i: nat)
    requires HeldBlock(m, p, b) && i < |b.entries|
    ensures FixOf(m, base, p, i) == EntryTarget(base, b.page, b.entries[i])
  {
    hide Load, HeldBlock, EntryBytes;
    BlockFields(m, p, b);
    EntryAt(m, p + 8, b.entries, i);
    var e := b.entries[i];
    ModUnique(e.kind * 4096 + e.offset, 4096, e.kind, e.offset);
  }

  lemma {:induction false} BlockTargets(m: Memory, base: int, p: int, b: Block, n: nat)
    requires HeldBlock(m, p, b) && n <= |b.entries|
    ensures BlockFixes(m, base, p, n) == EntryTargets(base, b.page, b.entries[..n])
  {
    hide FixOf, HeldBlock, EntryTarget;
    if n > 0 {
      BlockTargets(m, base, p, b, n - 1);
      EntryIsTarget(m, base, p, b, n - 1);
      assert b.entries[..n][..n - 1] == b.entries[..n - 1];
    }
  }

  /** The table ends where the directory says, or earlier at a block of size zero. */
  ghost predicate HeldTable(m: Memory, p: int, end: int, bs: seq<Block>)
  {
    var e := p + |TableBytes(bs)|;
    && Holds(m, p, TableBytes(bs)) && (forall b | b in bs :: SizeOf(b) < 0x8000_0000)
    && (e == end || (e < end && BlockSize(m, e) == 0))
  }

  lemma FirstBlock(m: Memory, p: int, end: int, bs: seq<Block>)
    requires bs != [] && HeldTable(m, p, end, bs)
    ensures HeldBlock(m, p, bs[0]) && HeldTable(m, p + SizeOf(bs[0]), end, bs[1..]) && p < end
  {
    hide BlockSize, BlockBytes;
    HoldsParts(m, p, BlockBytes(bs[0]), TableBytes(bs[1..]));
    assert bs[0] in bs;
    assert forall b | b in bs[1..] :: b in bs;
  }

  /** How many bytes the walk reads: the blocks, and the header of a terminator when there is room for one. */
  function Extent(size: nat, bs: seq<Block>): nat
  {
    if |TableBytes(bs)| == size then size else |TableBytes(bs)| + 8
  }

  /** The walk reads exactly the listed targets, and no byte outside the table and its terminator. */
  lemma {:induction false} TableTargets(m: Memory, base: int, p: int, end: int, bs: seq<Block>, hi: int)
    requires HeldTable(m, p, end, bs) && p <= end && hi >= p + Extent(end - p, bs)
    ensures TableFixes(m, base, p, end) == Targets(base, bs)
    ensures forall lo | lo <= p :: Within(m, p, end, lo, hi)
    decreases |bs|
  {
    hide BlockSize, BlockFixes, HeldBlock, EntryTargets, BlockBytes, Entries, EntryCount;
    if bs == [] {
      NoEntries();
    } else {
      var b := bs[0];
      FirstBlock(m, p, end, bs);
      BlockFields(m, p, b);
      BlockTargets(m, base, p, b, |b.entries|);
      assert b.entries[..|b.entries|] == b.entries;
      TableTargets(m, base, p + SizeOf(b), end, bs[1..], hi);
    }
  }

  lemma NoEntries()
    ensures Entries(0) == 0
  {
  }

  /**
   Relocating an image that holds the table: every listed 64-bit or 32-bit word gains the offset
   modulo its size, and no other byte of the image changes.
   */
  lemma RelocatesTheListed(m: Memory, base: int, va: nat, size: nat, bs: seq<Block>, delta: int)
    requires va > 0 && size > 0 && HeldTable(m, base + va, base + va + size, bs)
    requires Disjoint(Targets(base, bs)) && AllApart(Targets(base, bs), base + va, base + va + Extent(size, bs))
    ensures Gained(m, Relocate(m, base, va, size, delta), Targets(base, bs), delta)
  {
    hide Within, TableFixes, HeldTable, Disjoint, AllApart, Gained, Relocate;
    var p := base + va;
    TableTargets(m, base, p, p + size, bs, p + Extent(size, bs));
    RelocationIsExact(m, base, va, size, delta, p, p + Extent(size, bs));
  }

  /** In bytes: where a listed word held `v`, it holds v plus the offset afterwards. */
  lemma WordBecomes(m: Memory, r: Memory, fs: seq<Fix>, delta: int, i: nat, v: nat)
    requires Gained(m, r, fs, delta) && i < |fs| && v < Power(fs[i].width) && Holds(m, fs[i].at, LittleEndian(v, fs[i].width))
    ensures Holds(r, fs[i].at, LittleEndian((v + delta) % Power(fs[i].width), fs[i].width))
  {
    hide LittleEndian, Holds, Gained;
    var f := fs[i];
    LoadHeld(m, f.at, f.width, v);
    GainedAt(m, r, fs, delta, i);
    HeldLoad(r, f.at, f.width);
  }
}
