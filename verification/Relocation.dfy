/**
 The loader's base relocation pass: a walk over the blocks of the .reloc table that adds the load
 offset to every listed address, in the same memory that holds the table.
 */
module Relocation {
  import opened Division

  type Byte = x: int | 0 <= x < 256
  type Memory = int -> Byte

  const DIR64 := 10
  const HIGHLOW := 3
  const TWO32 := 0x1_0000_0000
  const TWO64 := 0x1_0000_0000_0000_0000

  // ---------------------------------------------------------------- little-endian words

  function Power(w: nat): (r: int)
    ensures r >= 1
  {
    if w == 0 then 1 else 256 * Power(w - 1)
  }

  function Load(m: Memory, t: int, w: nat): nat
    decreases w
  {
    if w == 0 then 0 else m(t) + 256 * Load(m, t + 1, w - 1)
  }

  function Digit(v: nat, k: nat): Byte
  {
    if k == 0 then v % 256 else Digit(v / 256, k - 1)
  }

  /** Memory with the `w` bytes at `t` replaced by those of `v`. */
  function Store(m: Memory, t: int, w: nat, v: nat): Memory
  {
    (a: int) => if t <= a < t + w then Digit(v, a - t) else m(a)
  }

  lemma ModStep(v: nat, p: int)
    requires p >= 1
    ensures v % (256 * p) == v % 256 + 256 * (v / 256 % p)
  {
    var q, r := v / 256 / p, v / 256 % p;
    assert v / 256 == q * p + r;
    assert v == (q * p + r) * 256 + v % 256;
    var s := v % 256 + 256 * r;
    assert v == q * (256 * p) + s by {
      assert (q * p) * 256 == q * (256 * p);
    }
    assert 0 <= s < 256 * p;
    ModUnique(v, 256 * p, q, s);
  }

  /** A word whose bytes are the digits of `v` reads as `v` modulo the word size. */
  lemma {:induction false} LoadDigits(m: Memory, t: int, w: nat, v: nat)
    requires forall k: nat | k < w :: m(t + k) == Digit(v, k)
    ensures Load(m, t, w) == v % Power(w)
    decreases w
  {
    if w > 0 {
      assert m(t + 0) == Digit(v, 0);
      forall k: nat | k < w - 1
        ensures m(t + 1 + k) == Digit(v / 256, k)
      {
        assert m(t + (k + 1)) == Digit(v, k + 1);
      }
      LoadDigits(m, t + 1, w - 1, v / 256);
      ModStep(v, Power(w - 1));
    }
  }

  lemma LoadStored(m: Memory, t: int, w: nat, v: nat)
    ensures Load(Store(m, t, w, v), t, w) == v % Power(w)
  {
    LoadDigits(Store(m, t, w, v), t, w, v);
  }

  /** A word determines its bytes. */
  lemma {:induction false} BytesOfWord(m: Memory, t: int, w: nat, k: nat)
    requires k < w
    ensures m(t + k) == Digit(Load(m, t, w), k)
    decreases w
  {
    var v := Load(m, t, w);
    assert v % 256 == m(t) && v / 256 == Load(m, t + 1, w - 1);
    if k > 0 {
      BytesOfWord(m, t + 1, w - 1, k - 1);
      assert t + 1 + (k - 1) == t + k;
    }
  }

  ghost predicate Agree(m: Memory, n: Memory, lo: int, hi: int)
  {
    forall a | lo <= a < hi :: m(a) == n(a)
  }

  lemma {:induction false} LoadAgrees(m: Memory, n: Memory, t: int, w: nat)
    requires Agree(m, n, t, t + w)
    ensures Load(m, t, w) == Load(n, t, w)
    decreases w
  {
    if w > 0 {
      LoadAgrees(m, n, t + 1, w - 1);
    }
  }

  // ---------------------------------------------------------------- adding to addresses

  datatype Fix = Fix(at: int, width: nat)

  predicate Touches(f: Fix, a: int)
  {
    f.at <= a < f.at + f.width
  }

  predicate Apart(f: Fix, lo: int, hi: int)
  {
    f.at + f.width <= lo || hi <= f.at
  }

  /** One fixup: the word is replaced by its sum with `delta`, modulo the word size. */
  function Add(m: Memory, f: Fix, delta: int): Memory
  {
    Store(m, f.at, f.width, (Load(m, f.at, f.width) + delta) % Power(f.width))
  }

  function AddAll(m: Memory, fs: seq<Fix>, delta: int): Memory
  {
    if fs == [] then m else Add(AddAll(m, fs[..|fs| - 1], delta), fs[|fs| - 1], delta)
  }

  lemma {:induction false} AddAllAppend(m: Memory, a: seq<Fix>, b: seq<Fix>, delta: int)
    ensures AddAll(m, a + b, delta) == AddAll(AddAll(m, a, delta), b, delta)
  {
    if b == [] {
      assert a + b == a;
    } else {
      assert (a + b)[..|a + b| - 1] == a + b[..|b| - 1];
      AddAllAppend(m, a, b[..|b| - 1], delta);
    }
  }

  ghost predicate Disjoint(fs: seq<Fix>)
  {
    forall i, j | 0 <= i < j < |fs| :: Apart(fs[i], fs[j].at, fs[j].at + fs[j].width)
  }

  lemma {:induction false} OthersUnchanged(m: Memory, fs: seq<Fix>, delta: int, a: int)
    requires forall i | 0 <= i < |fs| :: !Touches(fs[i], a)
    ensures AddAll(m, fs, delta)(a) == m(a)
  {
    if fs != [] {
      OthersUnchanged(m, fs[..|fs| - 1], delta, a);
      assert !Touches(fs[|fs| - 1], a);
    }
  }

  lemma ApartUnchanged(m: Memory, fs: seq<Fix>, delta: int, lo: int, hi: int)
    requires forall i | 0 <= i < |fs| :: Apart(fs[i], lo, hi)
    ensures Agree(AddAll(m, fs, delta), m, lo, hi)
  {
    forall a | lo <= a < hi
      ensures AddAll(m, fs, delta)(a) == m(a)
    {
      OthersUnchanged(m, fs, delta, a);
    }
  }

  /** With disjoint targets each word gains `delta` exactly once, in whatever order they are listed. */
  lemma {:induction false} EachGainsDelta(m: Memory, fs: seq<Fix>, delta: int, i: nat)
    requires Disjoint(fs) && i < |fs|
    ensures Load(AddAll(m, fs, delta), fs[i].at, fs[i].width)
      == (Load(m, fs[i].at, fs[i].width) + delta) % Power(fs[i].width)
  {
    hide Load, Power;
    var n := |fs| - 1;
    var init, last := fs[..n], fs[n];
    var b := AddAll(m, init, delta);
    if i == n {
      ApartUnchanged(m, init, delta, last.at, last.at + last.width);
      LoadAgrees(b, m, last.at, last.width);
      var v := (Load(m, last.at, last.width) + delta) % Power(last.width);
      LoadStored(b, last.at, last.width, v);
      ModUnique(v, Power(last.width), 0, v);
    } else {
      EachGainsDelta(m, init, delta, i);
      assert Apart(fs[i], last.at, last.at + last.width);
      LoadAgrees(AddAll(m, fs, delta), b, fs[i].at, fs[i].width);
    }
  }

  /** `d`, `e` and `s` with d + e == s modulo 2^64. */
  ghost predicate SumsTo(d: int, e: int, s: int)
  {
    (d + e) % TWO64 == s % TWO64
  }

  lemma SumInWord(v: int, d: int, e: int, s: int, w: nat)
    requires SumsTo(d, e, s) && (w == 4 || w == 8)
    ensures ((v + d) % Power(w) + e) % Power(w) == (v + s) % Power(w)
  {
    var p := Power(w);
    assert p == TWO32 || p == TWO64;
    var k := TWO64 / p;
    assert TWO64 == k * p;
    var x, y := (d + e) / TWO64, s / TWO64;
    assert d + e - s == (x - y) * TWO64 == (x - y) * k * p;
    var q, r := (v + d) / p, (v + s) / p;
    var g := (v + s) % p;
    assert (v + d) % p + e == v + s + (x - y) * k * p - q * p;
    assert (v + d) % p + e == (r + (x - y) * k - q) * p + g by {
      Gather(r, (x - y) * k, q, p);
    }
    ModUnique((v + d) % p + e, p, r + (x - y) * k - q, g);
  }

  lemma Gather(r: int, a: int, q: int, p: int)
    ensures (r + a - q) * p == r * p + a * p - q * p
  {
  }

  ghost predicate Same(m: Memory, n: Memory)
  {
    forall a :: m(a) == n(a)
  }

  ghost predicate Words(fs: seq<Fix>)
  {
    forall i | 0 <= i < |fs| :: fs[i].width == 4 || fs[i].width == 8
  }

  /** From `m` to `r` every listed word gained `d` modulo its size and no other byte changed. */
  ghost predicate Gained(m: Memory, r: Memory, fs: seq<Fix>, d: int)
  {
    && (forall i | 0 <= i < |fs| ::
          Load(r, fs[i].at, fs[i].width) == (Load(m, fs[i].at, fs[i].width) + d) % Power(fs[i].width))
    && forall a | forall i | 0 <= i < |fs| :: !Touches(fs[i], a) :: r(a) == m(a)
  }

  lemma AddAllGains(m: Memory, fs: seq<Fix>, d: int)
    requires Disjoint(fs)
    ensures Gained(m, AddAll(m, fs, d), fs, d)
  {
    hide Load, Power, AddAll, Disjoint;
    forall i | 0 <= i < |fs|
      ensures Load(AddAll(m, fs, d), fs[i].at, fs[i].width) == (Load(m, fs[i].at, fs[i].width) + d) % Power(fs[i].width)
    {
      EachGainsDelta(m, fs, d, i);
    }
    forall a | forall i | 0 <= i < |fs| :: !Touches(fs[i], a)
      ensures AddAll(m, fs, d)(a) == m(a)
    {
      OthersUnchanged(m, fs, d, a);
    }
  }

  lemma GainedNothing(m: Memory, fs: seq<Fix>)
    ensures Gained(m, m, fs, 0)
  {
    forall i | 0 <= i < |fs|
      ensures Load(m, fs[i].at, fs[i].width) % Power(fs[i].width) == Load(m, fs[i].at, fs[i].width)
    {
      var v, n := Load(m, fs[i].at, fs[i].width), Power(fs[i].width);
      LoadBound(m, fs[i].at, fs[i].width);
      ModUnique(v, n, 0, v);
    }
  }

  /** Gaining d and then e is gaining s, for any s equal to d + e modulo 2^64. */
  lemma GainsCompose(m: Memory, r: Memory, t: Memory, u: Memory, fs: seq<Fix>, d: int, e: int, s: int)
    requires Words(fs) && SumsTo(d, e, s)
    requires Gained(m, r, fs, d) && Gained(r, t, fs, e) && Gained(m, u, fs, s)
    ensures Same(t, u)
  {
    hide Load, Power, SumsTo, Gained, Words;
    forall a
      ensures t(a) == u(a)
    {
      if i: nat :| i < |fs| && Touches(fs[i], a) {
        WordsAgree(m, r, t, u, fs, d, e, s, i, a);
      } else {
        GainedElsewhere(m, r, fs, d, a);
        GainedElsewhere(r, t, fs, e, a);
        GainedElsewhere(m, u, fs, s, a);
      }
    }
  }

  lemma GainedElsewhere(m: Memory, r: Memory, fs: seq<Fix>, d: int, a: int)
    requires Gained(m, r, fs, d) && forall i | 0 <= i < |fs| :: !Touches(fs[i], a)
    ensures r(a) == m(a)
  {
  }

  lemma GainedAt(m: Memory, r: Memory, fs: seq<Fix>, d: int, i: nat)
    requires Gained(m, r, fs, d) && i < |fs|
    ensures Load(r, fs[i].at, fs[i].width) == (Load(m, fs[i].at, fs[i].width) + d) % Power(fs[i].width)
  {
    hide Load, Power;
  }

  lemma WordsAgree(m: Memory, r: Memory, t: Memory, u: Memory, fs: seq<Fix>, d: int, e: int, s: int, i: nat, a: int)
    requires Words(fs) && SumsTo(d, e, s) && i < |fs| && Touches(fs[i], a)
    requires Gained(m, r, fs, d) && Gained(r, t, fs, e) && Gained(m, u, fs, s)
    ensures t(a) == u(a)
  {
    hide Load, Power, SumsTo, Gained, Digit;
    var f := fs[i];
    GainedAt(m, r, fs, d, i);
    GainedAt(r, t, fs, e, i);
    GainedAt(m, u, fs, s, i);
    SumInWord(Load(m, f.at, f.width), d, e, s, f.width);
    BytesOfWord(t, f.at, f.width, a - f.at);
    BytesOfWord(u, f.at, f.width, a - f.at);
  }

  // ---------------------------------------------------------------- the walk

  /** The entry count of a block: (int)(size - 8) / 2, the subtraction taken modulo 2^32. */
  function EntryCount(size: nat): int
    requires size < TWO32
  {
    var left := (size - 8) % TWO32;
    if left < 0x8000_0000 then left / 2 else -((TWO32 - left) / 2)
  }

  function Entries(size: nat): nat
    requires size < TWO32
  {
    if EntryCount(size) > 0 then EntryCount(size) else 0
  }

  function BlockSize(m: Memory, p: int): (r: nat)
    ensures r < TWO32
  {
    LoadBound(m, p + 4, 4);
    assert Power(4) == TWO32;
    Load(m, p + 4, 4)
  }

  lemma {:induction false} LoadBound(m: Memory, t: int, w: nat)
    ensures Load(m, t, w) < Power(w)
    decreases w
  {
    if w > 0 {
      LoadBound(m, t + 1, w - 1);
    }
  }

  /** What entry `i` of the block at `p` asks for, with page and entry read from the memory as it is now. */
  function FixOf(m: Memory, base: int, p: int, i: nat): seq<Fix>
  {
    var entry := Load(m, p + 8 + 2 * i, 2);
    var target := base + Load(m, p, 4) + entry % 4096;
    if entry / 4096 == DIR64 then [Fix(target, 8)]
    else if entry / 4096 == HIGHLOW then [Fix(target, 4)]
    else []
  }

  function DoBlock(m: Memory, base: int, p: int, n: nat, delta: int): Memory
  {
    if n == 0 then m
    else
      var b := DoBlock(m, base, p, n - 1, delta);
      AddAll(b, FixOf(b, base, p, n - 1), delta)
  }

  /** The whole walk, each block read as the blocks before it left it. It ends on any bytes whatsoever. */
  function Walk(m: Memory, base: int, p: int, end: int, delta: int): Memory
    decreases end - p, BlockSize(m, p)
  {
    if p >= end || BlockSize(m, p) == 0 then m
    else
      var b := DoBlock(m, base, p, Entries(BlockSize(m, p)), delta);
      Walk(b, base, p + BlockSize(b, p), end, delta)
  }

  /** pe_apply_relocations; an absent table or a zero offset changes nothing. */
  function Relocate(m: Memory, base: int, va: nat, size: nat, delta: int): Memory
  {
    if delta == 0 || size == 0 || va == 0 then m else Walk(m, base, base + va, base + va + size, delta)
  }

  // ---------------------------------------------------------------- the table read at rest

  function BlockFixes(m: Memory, base: int, p: int, n: nat): seq<Fix>
  {
    if n == 0 then [] else BlockFixes(m, base, p, n - 1) + FixOf(m, base, p, n - 1)
  }

  function TableFixes(m: Memory, base: int, p: int, end: int): seq<Fix>
    decreases end - p
  {
    if p >= end || BlockSize(m, p) == 0 then []
    else BlockFixes(m, base, p, Entries(BlockSize(m, p))) + TableFixes(m, base, p + BlockSize(m, p), end)
  }

  function Fixes(m: Memory, base: int, va: nat, size: nat): seq<Fix>
  {
    if size == 0 || va == 0 then [] else TableFixes(m, base, base + va, base + va + size)
  }

  /** Every byte the walk reads from the table lies in [lo, hi). */
  ghost predicate Within(m: Memory, p: int, end: int, lo: int, hi: int)
    decreases end - p
  {
    p < end ==>
      var size := BlockSize(m, p);
      lo <= p && p + 8 + 2 * Entries(size) <= hi && (size != 0 ==> Within(m, p + size, end, lo, hi))
  }

  lemma FixOfAgrees(m: Memory, n: Memory, base: int, p: int, i: nat, lo: int, hi: int)
    requires Agree(m, n, lo, hi) && lo <= p && p + 8 + 2 * (i + 1) <= hi
    ensures FixOf(m, base, p, i) == FixOf(n, base, p, i)
  {
    LoadAgrees(m, n, p, 4);
    LoadAgrees(m, n, p + 8 + 2 * i, 2);
  }

  lemma {:induction false} BlockAgrees(m: Memory, n: Memory, base: int, p: int, k: nat, lo: int, hi: int)
    requires Agree(m, n, lo, hi) && lo <= p && p + 8 + 2 * k <= hi
    ensures BlockFixes(m, base, p, k) == BlockFixes(n, base, p, k)
    decreases k
  {
    hide FixOf, Agree;
    if k > 0 {
      BlockAgrees(m, n, base, p, k - 1, lo, hi);
      FixOfAgrees(m, n, base, p, k - 1, lo, hi);
    }
  }

  lemma SizeAgrees(m: Memory, n: Memory, p: int, lo: int, hi: int)
    requires Agree(m, n, lo, hi) && lo <= p && p + 8 <= hi
    ensures BlockSize(m, p) == BlockSize(n, p)
  {
    LoadAgrees(m, n, p + 4, 4);
  }

  /** The listed targets and the extent of the table depend on the table's own bytes only. */
  lemma {:induction false} TableAgrees(m: Memory, n: Memory, base: int, p: int, end: int, lo: int, hi: int)
    requires Agree(m, n, lo, hi) && Within(m, p, end, lo, hi)
    ensures TableFixes(m, base, p, end) == TableFixes(n, base, p, end) && Within(n, p, end, lo, hi)
    decreases end - p
  {
    hide BlockSize, BlockFixes, EntryCount, Entries;
    if p < end {
      SizeAgrees(m, n, p, lo, hi);
      var size := BlockSize(m, p);
      if size != 0 {
        BlockAgrees(m, n, base, p, Entries(size), lo, hi);
        TableAgrees(m, n, base, p + size, end, lo, hi);
      }
    }
  }

  ghost predicate AllApart(fs: seq<Fix>, lo: int, hi: int)
  {
    forall i | 0 <= i < |fs| :: Apart(fs[i], lo, hi)
  }

  lemma AllApartAppend(a: seq<Fix>, b: seq<Fix>, lo: int, hi: int)
    requires AllApart(a + b, lo, hi)
    ensures AllApart(a, lo, hi) && AllApart(b, lo, hi)
  {
    assert forall i | 0 <= i < |a| :: (a + b)[i] == a[i];
    assert forall i | 0 <= i < |b| :: (a + b)[|a| + i] == b[i];
  }

  /** A block processed in place does what its entries, read beforehand, ask for. */
  lemma {:induction false} BlockIsFold(m: Memory, base: int, p: int, k: nat, delta: int, lo: int, hi: int)
    requires lo <= p && p + 8 + 2 * k <= hi && AllApart(BlockFixes(m, base, p, k), lo, hi)
    ensures DoBlock(m, base, p, k, delta) == AddAll(m, BlockFixes(m, base, p, k), delta)
    decreases k
  {
    hide FixOf;
    if k > 0 {
      var init, f := BlockFixes(m, base, p, k - 1), FixOf(m, base, p, k - 1);
      AllApartAppend(init, f, lo, hi);
      BlockIsFold(m, base, p, k - 1, delta, lo, hi);
      var b := AddAll(m, init, delta);
      ApartUnchanged(m, init, delta, lo, hi);
      FixOfAgrees(b, m, base, p, k - 1, lo, hi);
      AddAllAppend(m, init, f, delta);
    }
  }

  /** The walk in place is one addition for every target listed in the table beforehand. */
  lemma {:induction false} WalkIsFold(m: Memory, base: int, p: int, end: int, delta: int, lo: int, hi: int)
    requires Within(m, p, end, lo, hi) && AllApart(TableFixes(m, base, p, end), lo, hi)
    ensures Walk(m, base, p, end, delta) == AddAll(m, TableFixes(m, base, p, end), delta)
    decreases end - p
  {
    hide BlockSize, BlockFixes, EntryCount, Entries, DoBlock;
    if p < end {
      var size := BlockSize(m, p);
      if size != 0 {
        var fs, rest := BlockFixes(m, base, p, Entries(size)), TableFixes(m, base, p + size, end);
        AllApartAppend(fs, rest, lo, hi);
        BlockIsFold(m, base, p, Entries(size), delta, lo, hi);
        var b := AddAll(m, fs, delta);
        ApartUnchanged(m, fs, delta, lo, hi);
        SizeAgrees(b, m, p, lo, hi);
        TableAgrees(m, b, base, p + size, end, lo, hi);
        WalkIsFold(b, base, p + size, end, delta, lo, hi);
        AddAllAppend(m, fs, rest, delta);
      }
    }
  }

  lemma {:induction false} BlockWords(m: Memory, base: int, p: int, k: nat)
    ensures Words(BlockFixes(m, base, p, k))
    decreases k
  {
    if k > 0 {
      BlockWords(m, base, p, k - 1);
    }
  }

  lemma {:induction false} TableWords(m: Memory, base: int, p: int, end: int)
    ensures Words(TableFixes(m, base, p, end))
    decreases end - p
  {
    hide BlockSize, BlockFixes, EntryCount, Entries;
    if p < end && BlockSize(m, p) != 0 {
      BlockWords(m, base, p, Entries(BlockSize(m, p)));
      TableWords(m, base, p + BlockSize(m, p), end);
    }
  }

  // ---------------------------------------------------------------- what relocation does

  /** A table that lies in [lo, hi) and lists pairwise disjoint targets outside it. */
  ghost predicate Proper(m: Memory, base: int, va: nat, size: nat, lo: int, hi: int)
  {
    && (va != 0 && size != 0 ==> Within(m, base + va, base + va + size, lo, hi))
    && AllApart(Fixes(m, base, va, size), lo, hi)
    && Disjoint(Fixes(m, base, va, size))
  }

  /** Every listed word is moved by the load offset, and nothing else is touched. */
  lemma RelocationIsExact(m: Memory, base: int, va: nat, size: nat, delta: int, lo: int, hi: int)
    requires Proper(m, base, va, size, lo, hi)
    ensures Gained(m, Relocate(m, base, va, size, delta), Fixes(m, base, va, size), delta)
  {
    hide Within, TableFixes, Gained, Disjoint, AllApart;
    var fs := Fixes(m, base, va, size);
    if delta == 0 {
      GainedNothing(m, fs);
    } else {
      if va != 0 && size != 0 {
        WalkIsFold(m, base, base + va, base + va + size, delta, lo, hi);
      }
      AddAllGains(m, fs, delta);
    }
  }

  /** A relocated image still holds the same table, so it can be relocated again. */
  lemma StaysProper(m: Memory, base: int, va: nat, size: nat, delta: int, lo: int, hi: int)
    requires Proper(m, base, va, size, lo, hi)
    ensures var r := Relocate(m, base, va, size, delta);
      Proper(r, base, va, size, lo, hi) && Fixes(r, base, va, size) == Fixes(m, base, va, size)
  {
    hide Within, TableFixes, Disjoint;
    var fs, r := Fixes(m, base, va, size), Relocate(m, base, va, size, delta);
    if delta != 0 && va != 0 && size != 0 {
      WalkIsFold(m, base, base + va, base + va + size, delta, lo, hi);
      ApartUnchanged(m, fs, delta, lo, hi);
      assert Agree(m, r, lo, hi);
      TableAgrees(m, r, base, base + va, base + va + size, lo, hi);
    }
  }

  /** Relocating by d and then by e is relocating by s, where s is d + e modulo 2^64. */
  lemma RelocationsCompose(m: Memory, base: int, va: nat, size: nat, d: int, e: int, s: int, lo: int, hi: int)
    requires Proper(m, base, va, size, lo, hi) && SumsTo(d, e, s)
    ensures Same(Relocate(Relocate(m, base, va, size, d), base, va, size, e), Relocate(m, base, va, size, s))
  {
    hide Proper, Gained, Relocate, SumsTo, TableFixes, Words, Same;
    var fs, r := Fixes(m, base, va, size), Relocate(m, base, va, size, d);
    StaysProper(m, base, va, size, d, lo, hi);
    RelocationIsExact(m, base, va, size, d, lo, hi);
    RelocationIsExact(r, base, va, size, e, lo, hi);
    RelocationIsExact(m, base, va, size, s, lo, hi);
    FixesAreWords(m, base, va, size);
    GainsCompose(m, r, Relocate(r, base, va, size, e), Relocate(m, base, va, size, s), fs, d, e, s);
  }

  lemma FixesAreWords(m: Memory, base: int, va: nat, size: nat)
    ensures Words(Fixes(m, base, va, size))
  {
    hide TableFixes, Words;
    if size == 0 || va == 0 {
      NoWords();
    } else {
      TableWords(m, base, base + va, base + va + size);
    }
  }

  lemma NoWords()
    ensures Words([])
  {
  }

  /** Relocating by -d undoes relocating by d. */
  lemma RelocationUndone(m: Memory, base: int, va: nat, size: nat, d: int, e: int, lo: int, hi: int)
    requires Proper(m, base, va, size, lo, hi) && SumsTo(d, e, 0)
    ensures Same(Relocate(Relocate(m, base, va, size, d), base, va, size, e), m)
  {
    RelocationsCompose(m, base, va, size, d, e, 0, lo, hi);
  }

  // ---------------------------------------------------------------- the loader

  /** The C conversion of a 64-bit offset to 32 bits. */
  function Int32(d: int): int
  {
    if d % TWO32 < 0x8000_0000 then d % TWO32 else d % TWO32 - TWO32
  }

  lemma Int32Suffices(v: int, d: int)
    ensures (v + Int32(d)) % TWO32 == (v + d) % TWO32
  {
    var q := d / TWO32;
    assert d == q * TWO32 + d % TWO32;
  }

  class Loader {
    var mem: Memory

    constructor (m: Memory)
      ensures mem == m
    {
      mem := m;
    }

    /** The switch on one entry's type; unknown types are reported and skipped. */
    method ApplyEntry(base: int, p: int, i: nat, delta: int)
      modifies this
      ensures mem == AddAll(old(mem), FixOf(old(mem), base, p, i), delta)
    {
      hide Load, Store, Power, TWO64;
      Widths();
      var entry := Load(mem, p + 8 + 2 * i, 2);
      var kind, offset := entry / 4096, entry % 4096;
      var target := base + Load(mem, p, 4) + offset;
      ghost var fs := FixOf(mem, base, p, i);
      ghost var m := mem;
      assert fs != [] ==> fs[..|fs| - 1] == [];
      if kind == DIR64 {
        mem := Store(mem, target, 8, (Load(mem, target, 8) + delta) % TWO64);
      } else if kind == HIGHLOW {
        Int32Suffices(Load(mem, target, 4), delta);
        mem := Store(mem, target, 4, (Load(mem, target, 4) + Int32(delta)) % TWO32);
      }
    }

    /** pe_apply_relocations, for any bytes in the table and any directory entry. */
    method ApplyRelocations(base: int, va: nat, size: nat, delta: int)
      modifies this
      ensures mem == Relocate(old(mem), base, va, size, delta)
    {
      hide BlockSize, FixOf, AddAll;
      if delta == 0 {
        return;
      }
      if size == 0 || va == 0 {
        return;
      }
      var ptr, end := base + va, base + va + size;
      while ptr < end
        invariant Walk(mem, base, ptr, end, delta) == Walk(old(mem), base, base + va, end, delta)
        decreases end - ptr, BlockSize(mem, ptr)
      {
        var block := BlockSize(mem, ptr);
        if block == 0 {
          break;
        }
        var count := EntryCount(block);
        ghost var m := mem;
        var i := 0;
        while i < count
          invariant 0 <= i <= Entries(block)
          invariant mem == DoBlock(m, base, ptr, i, delta)
        {
          ApplyEntry(base, ptr, i, delta);
          i := i + 1;
        }
        ptr := ptr + BlockSize(mem, ptr);
      }
    }
  }

  lemma Widths()
    ensures Power(4) == TWO32 && Power(8) == TWO64
  {
    assert Power(2) == 0x1_0000;
    assert Power(4) == TWO32;
    assert Power(6) == 0x1_0000_0000_0000;
  }
}
