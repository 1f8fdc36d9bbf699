/** scripts/guest-inspect.py lines 31-41 and 92-126: from a guest kernel address to an address of
    the hypervisor process. */
module GuestMemory {
  import opened Outcomes

  const KERNEL_IMAGE_BASE: int := 0xffff_ffff_8000_0000
  const PAGE_OFFSET: int := 0xffff_8880_0000_0000
  const DIRECTMAP_END: int := 0xffff_c880_0000_0000
  const LOW_RAM_END: int := 0xc000_0000
  const HIGH_RAM_BASE: int := 0x1_0000_0000

  datatype Region = Region(va: int, size: int, memfdOff: int)

  ghost predicate InHole(phys: int) { LOW_RAM_END <= phys < HIGH_RAM_BASE }

  /** Lines 102-107. */
  function PhysToOff(phys: int): Option<int> {
    if phys < LOW_RAM_END then Some(phys)
    else if phys >= HIGH_RAM_BASE then Some(phys - HIGH_RAM_BASE + LOW_RAM_END)
    else None
  }

  /** Lines 116-121. */
  function VirtToPhys(virt: int): Option<int> {
    if virt >= KERNEL_IMAGE_BASE then Some(virt - KERNEL_IMAGE_BASE)
    else if PAGE_OFFSET <= virt < DIRECTMAP_END then Some(virt - PAGE_OFFSET)
    else None
  }

  predicate Has(r: Region, off: int) { r.memfdOff <= off < r.memfdOff + r.size }

  /** Lines 109-113, on a list of regions. */
  function OffToVa(regions: seq<Region>, off: int): Option<int> {
    if regions == [] then None
    else if Has(regions[0], off) then Some(regions[0].va + (off - regions[0].memfdOff))
    else OffToVa(regions[1..], off)
  }

  function PhysToVa(regions: seq<Region>, phys: int): Option<int> {
    var off := PhysToOff(phys);
    if off.None? then None else OffToVa(regions, off.value)
  }

  function VirtToVa(regions: seq<Region>, virt: int): Option<int> {
    var phys := VirtToPhys(virt);
    if phys.None? then None else PhysToVa(regions, phys.value)
  }

  function InsertRegion(r: Region, s: seq<Region>): seq<Region> {
    if s == [] || r.memfdOff < s[0].memfdOff then [r] + s else [s[0]] + InsertRegion(r, s[1..])
  }

  /** sorted(regions, key=memfd_off) */
  function ByOffset(s: seq<Region>): seq<Region> {
    if s == [] then [] else InsertRegion(s[|s| - 1], ByOffset(s[..|s| - 1]))
  }

  class Memory {
    var regions: seq<Region>

    constructor (regions: seq<Region>)
      ensures this.regions == ByOffset(regions)
    {
      this.regions := ByOffset(regions);
    }

    /** The search loop. */
    method MemfdOffToChVa(off: int) returns (va: Option<int>)
      ensures va == OffToVa(regions, off)
    {
      var i := 0;
      while i < |regions|
        invariant 0 <= i <= |regions| && OffToVa(regions, off) == OffToVa(regions[i..], off)
      {
        if Has(regions[i], off) { return Some(regions[i].va + (off - regions[i].memfdOff)); }
        i := i + 1;
      }
      va := None;
    }

    /** Lines 115-123. */
    method VirtToChVa(virt: int) returns (va: Option<int>)
      ensures va == VirtToVa(regions, virt)
      ensures va.Some? ==> Backs(regions, virt, va.value)
      ensures va.None? ==> forall a :: !Backs(regions, virt, a)
    {
      forall a
        ensures VirtToVa(regions, virt).None? ==> !Backs(regions, virt, a)
        ensures VirtToVa(regions, virt) == Some(a) ==> Backs(regions, virt, a)
      {
        BackedIff(regions, virt, a);
      }
      var phys := VirtToPhys(virt);
      if phys.None? { return None; }
      var off := PhysToOff(phys.value);
      if off.None? { return None; }
      va := MemfdOffToChVa(off.value);
    }
  }

  // What an address stands for, stated without the code.

  ghost const GIB: int := 1024 * 1024 * 1024

  /** The kernel image fills the last two GiB of the address space, the direct map 64 TiB. */
  ghost predicate Maps(virt: int, phys: int) {
    || (phys >= 0 && virt == 0x1_0000_0000_0000_0000 - 2 * GIB + phys)
    || (0 <= phys < 64 * 1024 * GIB && virt == 0xffff_8880_0000_0000 + phys)
  }

  /** Memory below three GiB comes first in the file, and memory above four GiB right behind it. */
  ghost predicate Stored(phys: int, off: int) {
    (phys < 3 * GIB && off == phys) || (phys >= 4 * GIB && off == phys - GIB)
  }

  ghost predicate Mapped(regions: seq<Region>, off: int, va: int) {
    exists r | r in regions :: r.memfdOff <= off < r.memfdOff + r.size && va - r.va == off - r.memfdOff
  }

  /** The byte at the kernel's address is at the process's address. */
  ghost predicate Backs(regions: seq<Region>, virt: int, va: int) {
    exists phys, off :: Maps(virt, phys) && Stored(phys, off) && Mapped(regions, off, va)
  }

  lemma TranslationIs(virt: int, phys: int, off: int)
    ensures VirtToPhys(virt) == Some(phys) <==> Maps(virt, phys)
    ensures PhysToOff(phys) == Some(off) <==> Stored(phys, off)
  {
  }

  lemma FoundIsMapped(regions: seq<Region>, off: int, va: int)
    ensures OffToVa(regions, off) == Some(va) ==> Mapped(regions, off, va)
    ensures OffToVa(regions, off).None? ==> !Mapped(regions, off, va)
    ensures OffsetsDisjoint(regions) && Mapped(regions, off, va) ==> OffToVa(regions, off) == Some(va)
  {
    FoundIn(regions, off);
    if Mapped(regions, off, va) {
      var r :| r in regions && Has(r, off) && va - r.va == off - r.memfdOff;
      if OffsetsDisjoint(regions) { UniqueRegion(regions, off, r); }
    }
  }

  /** An address is refused exactly when no byte of the process stands behind it, and otherwise
      translated to one, which is the only one where the regions do not overlap. */
  lemma BackedIff(regions: seq<Region>, virt: int, va: int)
    ensures VirtToVa(regions, virt) == Some(va) ==> Backs(regions, virt, va)
    ensures VirtToVa(regions, virt).None? ==> !Backs(regions, virt, va)
    ensures OffsetsDisjoint(regions) && Backs(regions, virt, va) ==> VirtToVa(regions, virt) == Some(va)
  {
    hide Maps, Stored, Mapped, OffsetsDisjoint;
    var phys := VirtToPhys(virt);
    if phys.Some? {
      TranslationIs(virt, phys.value, 0);
      var off := PhysToOff(phys.value);
      if off.Some? {
        TranslationIs(virt, phys.value, off.value);
        FoundIsMapped(regions, off.value, va);
      }
    }
    if p, o :| Maps(virt, p) && Stored(p, o) && Mapped(regions, o, va) {
      TranslationIs(virt, p, o);
      FoundIsMapped(regions, o, va);
    }
  }

  // Physical addresses and file offsets.

  ghost function OffToPhys(off: int): int {
    if off < LOW_RAM_END then off else off - LOW_RAM_END + HIGH_RAM_BASE
  }

  /** A strictly increasing bijection from the addresses outside the hole onto the offsets. */
  lemma PhysBijection(p: int, q: int, off: int)
    ensures PhysToOff(p).None? <==> InHole(p)
    ensures !InHole(p) && !InHole(q) && p < q ==> PhysToOff(p).value < PhysToOff(q).value
    ensures !InHole(p) ==> OffToPhys(PhysToOff(p).value) == p && (p >= 0 <==> PhysToOff(p).value >= 0)
    ensures !InHole(OffToPhys(off)) && PhysToOff(OffToPhys(off)) == Some(off) && (off >= 0 <==> OffToPhys(off) >= 0)
  {
  }

  /** No 64-bit address of the kernel image reaches the hole. */
  lemma ImageBelowHole(virt: int)
    requires KERNEL_IMAGE_BASE <= virt < 0x1_0000_0000_0000_0000
    ensures VirtToPhys(virt).Some? && 0 <= VirtToPhys(virt).value < 0x8000_0000
    ensures PhysToOff(VirtToPhys(virt).value) == VirtToPhys(virt)
  {
  }

  /** The image and the direct map name the same bytes. */
  lemma AliasesAgree(regions: seq<Region>, phys: int)
    requires 0 <= phys < 2 * GIB
    ensures VirtToVa(regions, KERNEL_IMAGE_BASE + phys) == VirtToVa(regions, PAGE_OFFSET + phys) ==
              PhysToVa(regions, phys)
  {
  }

  // The search among regions.

  /** Regions do not overlap in the file. */
  ghost predicate OffsetsDisjoint(regions: seq<Region>) {
    forall i, j | 0 <= i < |regions| && 0 <= j < |regions| && regions[i] != regions[j] ::
      forall off :: !(Has(regions[i], off) && Has(regions[j], off))
  }

  /** Nor in the address space of the process. */
  ghost predicate AddressesDisjoint(regions: seq<Region>) {
    forall i, j | 0 <= i < |regions| && 0 <= j < |regions| && regions[i] != regions[j] ::
      regions[i].va + regions[i].size <= regions[j].va || regions[j].va + regions[j].size <= regions[i].va
  }

  lemma {:induction false} FoundIn(regions: seq<Region>, off: int)
    ensures OffToVa(regions, off).Some? <==> exists r :: r in regions && Has(r, off)
    ensures OffToVa(regions, off).Some? ==>
              exists r :: r in regions && Has(r, off) && OffToVa(regions, off).value == r.va + (off - r.memfdOff)
  {
    if regions != [] {
      FoundIn(regions[1..], off);
      assert regions == [regions[0]] + regions[1..];
      if Has(regions[0], off) { assert regions[0] in regions; }
    }
  }

  /** With disjoint regions the search returns what the one region that has the offset says. */
  lemma UniqueRegion(regions: seq<Region>, off: int, r: Region)
    requires OffsetsDisjoint(regions) && r in regions && Has(r, off)
    ensures OffToVa(regions, off) == Some(r.va + (off - r.memfdOff))
  {
    FoundIn(regions, off);
    var q :| q in regions && Has(q, off) && OffToVa(regions, off).value == q.va + (off - q.memfdOff);
    var i :| 0 <= i < |regions| && regions[i] == r;
    var j :| 0 <= j < |regions| && regions[j] == q;
  }

  /** So the order of the list does not matter. */
  lemma OrderIrrelevant(a: seq<Region>, b: seq<Region>, off: int)
    requires OffsetsDisjoint(a) && OffsetsDisjoint(b) && forall r :: r in a <==> r in b
    ensures OffToVa(a, off) == OffToVa(b, off)
  {
    FoundIn(a, off);
    FoundIn(b, off);
    if OffToVa(a, off).Some? {
      var r :| r in a && Has(r, off) && OffToVa(a, off).value == r.va + (off - r.memfdOff);
      UniqueRegion(b, off, r);
    }
  }

  lemma {:induction false} InsertMembers(r: Region, s: seq<Region>, x: Region)
    ensures x in InsertRegion(r, s) <==> x == r || x in s
  {
    if s != [] && !(r.memfdOff < s[0].memfdOff) {
      InsertMembers(r, s[1..], x);
      assert s == [s[0]] + s[1..];
    }
  }

  lemma {:induction false} SortMembers(s: seq<Region>, x: Region)
    ensures x in ByOffset(s) <==> x in s
  {
    if s != [] {
      var init, last := s[..|s| - 1], s[|s| - 1];
      SortMembers(init, x);
      InsertMembers(last, ByOffset(init), x);
      assert s == init + [last];
    }
  }

  lemma DisjointMembers(a: seq<Region>, b: seq<Region>)
    requires OffsetsDisjoint(a) && forall r :: r in b ==> r in a
    ensures OffsetsDisjoint(b)
  {
    forall i, j | 0 <= i < |b| && 0 <= j < |b| && b[i] != b[j]
      ensures forall off :: !(Has(b[i], off) && Has(b[j], off))
    {
      assert b[i] in a && b[j] in a;
      var k :| 0 <= k < |a| && a[k] == b[i];
      var l :| 0 <= l < |a| && a[l] == b[j];
    }
  }

  ghost predicate Ordered(s: seq<Region>) {
    forall i, j | 0 <= i < j < |s| :: s[i].memfdOff <= s[j].memfdOff
  }

  /** The regions at one offset, in their order. */
  ghost function At(s: seq<Region>, off: int): seq<Region> {
    if s == [] then []
    else At(s[..|s| - 1], off) + if s[|s| - 1].memfdOff == off then [s[|s| - 1]] else []
  }

  lemma {:induction false} AtFirst(r: Region, s: seq<Region>, off: int)
    ensures At([r] + s, off) == (if r.memfdOff == off then [r] else []) + At(s, off)
  {
    var all := [r] + s;
    if s == [] {
      assert all[..0] == [];
    } else {
      AtFirst(r, s[..|s| - 1], off);
      assert all[..|s|] == [r] + s[..|s| - 1];
    }
  }

  lemma {:induction false} NoneAt(s: seq<Region>, off: int)
    requires forall i | 0 <= i < |s| :: s[i].memfdOff != off
    ensures At(s, off) == []
  {
    if s != [] { NoneAt(s[..|s| - 1], off); }
  }

  lemma PushOrdered(r: Region, s: seq<Region>)
    requires Ordered(s) && forall x | x in s :: r.memfdOff <= x.memfdOff
    ensures Ordered([r] + s)
  {
    assert forall i | 0 <= i < |s| :: s[i] in s;
  }

  lemma {:induction false} InsertOrdered(r: Region, s: seq<Region>)
    requires Ordered(s)
    ensures Ordered(InsertRegion(r, s))
  {
    hide Ordered;
    FirstIsLeast(s);
    if s == [] || r.memfdOff < s[0].memfdOff {
      PushOrdered(r, s);
    } else {
      var rest := InsertRegion(r, s[1..]);
      InsertOrdered(r, s[1..]);
      forall x | x in rest
        ensures s[0].memfdOff <= x.memfdOff
      {
        InsertMembers(r, s[1..], x);
      }
      PushOrdered(s[0], rest);
    }
  }

  lemma FirstIsLeast(s: seq<Region>)
    requires Ordered(s)
    ensures s != [] ==> Ordered(s[1..]) && forall x | x in s :: s[0].memfdOff <= x.memfdOff
  {
  }

  lemma {:induction false} InsertAt(r: Region, s: seq<Region>, off: int)
    requires Ordered(s)
    ensures At(InsertRegion(r, s), off) == At(s, off) + if r.memfdOff == off then [r] else []
  {
    if s == [] || r.memfdOff < s[0].memfdOff {
      AtFirst(r, s, off);
      if r.memfdOff == off { NoneAt(s, off); }
    } else {
      InsertAt(r, s[1..], off);
      AtFirst(s[0], s[1..], off);
      AtFirst(s[0], InsertRegion(r, s[1..]), off);
      assert s == [s[0]] + s[1..];
    }
  }

  /** The constructor's order is by offset, and stable. */
  lemma {:induction false} SortIsStable(s: seq<Region>, off: int)
    ensures Ordered(ByOffset(s)) && At(ByOffset(s), off) == At(s, off)
  {
    if s != [] {
      SortIsStable(s[..|s| - 1], off);
      InsertOrdered(s[|s| - 1], ByOffset(s[..|s| - 1]));
      InsertAt(s[|s| - 1], ByOffset(s[..|s| - 1]), off);
    }
  }

  /** Sorting by offset, as the constructor does, changes no translation. */
  lemma SortingIrrelevant(regions: seq<Region>, virt: int)
    requires OffsetsDisjoint(regions)
    ensures VirtToVa(ByOffset(regions), virt) == VirtToVa(regions, virt)
  {
    var sorted := ByOffset(regions);
    forall r
      ensures r in sorted <==> r in regions
    {
      SortMembers(regions, r);
    }
    DisjointMembers(regions, sorted);
    var phys := VirtToPhys(virt);
    if phys.Some? && PhysToOff(phys.value).Some? { OrderIrrelevant(sorted, regions, PhysToOff(phys.value).value); }
  }

  /** Two physical addresses never share a host address. */
  lemma MapInjective(regions: seq<Region>, p: int, q: int)
    requires AddressesDisjoint(regions)
    requires PhysToVa(regions, p).Some? && PhysToVa(regions, p) == PhysToVa(regions, q)
    ensures p == q
  {
    var a, b := PhysToOff(p).value, PhysToOff(q).value;
    FoundIn(regions, a);
    FoundIn(regions, b);
    var r :| r in regions && Has(r, a) && OffToVa(regions, a).value == r.va + (a - r.memfdOff);
    var s :| s in regions && Has(s, b) && OffToVa(regions, b).value == s.va + (b - s.memfdOff);
    var i :| 0 <= i < |regions| && regions[i] == r;
    var j :| 0 <= j < |regions| && regions[j] == s;
    assert a == b;
    PhysBijection(p, q, a);
    PhysBijection(q, p, a);
  }

  /** `count` addresses from `virt` on lie in one mapping of the kernel, on one side of the hole
      and in one region. */
  ghost predicate OnePiece(regions: seq<Region>, virt: int, count: int, r: Region) {
    && count > 0 && r in regions
    && VirtToPhys(virt).Some? && VirtToPhys(virt + count - 1) == Some(VirtToPhys(virt).value + count - 1)
    && (VirtToPhys(virt).value + count <= LOW_RAM_END || VirtToPhys(virt).value >= HIGH_RAM_BASE)
    && Has(r, PhysToOff(VirtToPhys(virt).value).value) && Has(r, PhysToOff(VirtToPhys(virt).value).value + count - 1)
  }

  /** In one piece the translation only adds a constant, so that a read which translates its first
      address alone reads the right bytes. */
  lemma Affine(regions: seq<Region>, virt: int, count: int, r: Region, k: int)
    requires OffsetsDisjoint(regions) && OnePiece(regions, virt, count, r) && 0 <= k < count
    ensures VirtToVa(regions, virt).Some? && VirtToVa(regions, virt + k) == Some(VirtToVa(regions, virt).value + k)
  {
    var off := PhysToOff(VirtToPhys(virt).value).value;
    UniqueRegion(regions, off, r);
    assert PhysToOff(VirtToPhys(virt + k).value) == Some(off + k);
    UniqueRegion(regions, off + k, r);
  }

  /** Line 126 translates the first address alone. The read is right when every byte has an address
      and it is the one that is read. */
  ghost predicate RightRead(regions: seq<Region>, virt: int, count: int) {
    && VirtToVa(regions, virt).Some?
    && forall v | virt <= v < virt + count :: VirtToVa(regions, v) == Some(VirtToVa(regions, virt).value + (v - virt))
  }

  /** The range stays in the kernel image or in the direct map. */
  ghost predicate OneMapping(virt: int, count: int) {
    || 0xffff_ffff_8000_0000 <= virt
    || (0xffff_8880_0000_0000 <= virt && virt + count <= 0xffff_8880_0000_0000 + 64 * 1024 * GIB)
  }

  /** and below the hole or above it. */
  ghost predicate OneSide(phys: int, count: int) { phys + count <= 3 * GIB || 4 * GIB <= phys }

  /** The regions `chain`, each beginning where the one before it ends, both in the file and in the
      process, contain `count` bytes from `off` on; host addresses are offsets plus `shift`. */
  ghost predicate Chain(regions: seq<Region>, chain: seq<Region>, off: int, count: int, shift: int) {
    && chain != [] && chain[0] in regions && Has(chain[0], off) && chain[0].va - chain[0].memfdOff == shift
    && var n := chain[0].memfdOff + chain[0].size - off;
    && (count <= n || Chain(regions, chain[1..], off + n, count - n, shift))
  }

  ghost predicate Chained(regions: seq<Region>, off: int, count: int) {
    exists chain, shift :: Chain(regions, chain, off, count, shift)
  }

  lemma {:induction false} ChainTranslates(regions: seq<Region>, chain: seq<Region>, off: int, count: int, shift: int,
      o: int)
    requires OffsetsDisjoint(regions) && Chain(regions, chain, off, count, shift) && off <= o < off + count
    ensures OffToVa(regions, o) == Some(o + shift)
  {
    var end := chain[0].memfdOff + chain[0].size;
    if o < end {
      UniqueRegion(regions, o, chain[0]);
    } else {
      ChainTranslates(regions, chain[1..], end, count - (end - off), shift, o);
    }
  }

  lemma {:induction false} TranslatedIsChain(regions: seq<Region>, off: int, count: int, shift: int)
    returns (chain: seq<Region>)
    requires count > 0 && forall o | off <= o < off + count :: OffToVa(regions, o) == Some(o + shift)
    ensures Chain(regions, chain, off, count, shift)
    decreases count
  {
    FoundIn(regions, off);
    var r :| r in regions && Has(r, off) && OffToVa(regions, off).value == r.va + (off - r.memfdOff);
    var n := r.memfdOff + r.size - off;
    chain := [r];
    if count > n {
      var rest := TranslatedIsChain(regions, off + n, count - n, shift);
      chain := [r] + rest;
      assert chain[1..] == rest;
    }
  }

  /** Within one mapping and on one side of the hole a byte's offset moves with its address. */
  lemma OffsetMoves(virt: int, count: int, v: int)
    requires OneMapping(virt, count) && VirtToPhys(virt).Some? && OneSide(VirtToPhys(virt).value, count)
    requires virt <= v < virt + count
    ensures VirtToPhys(v) == Some(VirtToPhys(virt).value + (v - virt)) && PhysToOff(VirtToPhys(virt).value).Some?
    ensures PhysToOff(VirtToPhys(v).value) == Some(PhysToOff(VirtToPhys(virt).value).value + (v - virt))
  {
  }

  /** Otherwise some byte of the range has no address. */
  lemma LeavesPiece(regions: seq<Region>, virt: int, count: int)
    requires count > 0 && RightRead(regions, virt, count)
    ensures VirtToPhys(virt).Some? && OneMapping(virt, count) && OneSide(VirtToPhys(virt).value, count)
  {
    assert VirtToVa(regions, DIRECTMAP_END).None?;
    assert virt < DIRECTMAP_END ==> virt + count <= DIRECTMAP_END;
    var phys := VirtToPhys(virt).value;
    assert phys < LOW_RAM_END ==> VirtToVa(regions, virt + (LOW_RAM_END - phys)).None?;
  }

  /** A read is right exactly when it stays in one mapping of the kernel, on one side of the hole,
      and in a chain of regions. */
  lemma RightReadIff(regions: seq<Region>, virt: int, count: int)
    requires OffsetsDisjoint(regions) && count > 0
    ensures RightRead(regions, virt, count) <==>
            && OneMapping(virt, count) && OneSide(VirtToPhys(virt).value, count)
            && Chained(regions, PhysToOff(VirtToPhys(virt).value).value, count)
  {
    if RightRead(regions, virt, count) {
      LeavesPiece(regions, virt, count);
      RightIsChained(regions, virt, count);
    }
    if OneMapping(virt, count) && OneSide(VirtToPhys(virt).value, count) {
      OffsetMoves(virt, count, virt);
      if Chained(regions, PhysToOff(VirtToPhys(virt).value).value, count) { ChainedIsRight(regions, virt, count); }
    }
  }

  lemma RightIsChained(regions: seq<Region>, virt: int, count: int)
    requires count > 0 && RightRead(regions, virt, count)
    requires VirtToPhys(virt).Some? && OneMapping(virt, count) && OneSide(VirtToPhys(virt).value, count)
    ensures Chained(regions, PhysToOff(VirtToPhys(virt).value).value, count)
  {
    var off, va := PhysToOff(VirtToPhys(virt).value).value, VirtToVa(regions, virt).value;
    forall o | off <= o < off + count ensures OffToVa(regions, o) == Some(o + (va - off)) {
      OffsetMoves(virt, count, virt + (o - off));
      assert VirtToVa(regions, virt + (o - off)) == Some(va + (o - off));
    }
    var chain := TranslatedIsChain(regions, off, count, va - off);
  }

  lemma ChainedIsRight(regions: seq<Region>, virt: int, count: int)
    requires OffsetsDisjoint(regions) && count > 0
    requires VirtToPhys(virt).Some? && OneMapping(virt, count) && OneSide(VirtToPhys(virt).value, count)
    requires PhysToOff(VirtToPhys(virt).value).Some? && Chained(regions, PhysToOff(VirtToPhys(virt).value).value, count)
    ensures RightRead(regions, virt, count)
  {
    var off := PhysToOff(VirtToPhys(virt).value).value;
    var chain, shift :| Chain(regions, chain, off, count, shift);
    ChainTranslates(regions, chain, off, count, shift, off);
    forall v | virt <= v < virt + count ensures VirtToVa(regions, v) == Some(off + (v - virt) + shift) {
      OffsetMoves(virt, count, v);
      ChainTranslates(regions, chain, off, count, shift, off + (v - virt));
    }
  }

  /** Across the start of the hole a read is wrong: the first byte has an address, the next none. */
  lemma HoleBreaksReads(regions: seq<Region>, r: Region)
    requires OffsetsDisjoint(regions) && r in regions && r.memfdOff == 0 && r.size > LOW_RAM_END
    ensures VirtToVa(regions, PAGE_OFFSET + LOW_RAM_END - 1) == Some(r.va + LOW_RAM_END - 1)
    ensures VirtToVa(regions, PAGE_OFFSET + LOW_RAM_END).None?
    ensures !RightRead(regions, PAGE_OFFSET + LOW_RAM_END - 1, 2)
  {
    UniqueRegion(regions, LOW_RAM_END - 1, r);
    assert VirtToVa(regions, PAGE_OFFSET + LOW_RAM_END).None?;
  }

  /** Away from the hole, a read over the seam of two regions is right if they also meet in the
      process, and wrong if they do not. */
  lemma SeamBreaksReads()
    ensures var near := [Region(5000, 100, 0), Region(5100, 100, 100)];
            OffsetsDisjoint(near) && RightRead(near, PAGE_OFFSET + 99, 2)
    ensures var far := [Region(5000, 100, 0), Region(9100, 100, 100)];
            OffsetsDisjoint(far) && !RightRead(far, PAGE_OFFSET + 99, 2)
  {
    var near := [Region(5000, 100, 0), Region(5100, 100, 100)];
    assert Chain(near, near, 99, 2, 5000);
    ChainedIsRight(near, PAGE_OFFSET + 99, 2);
    var far := [Region(5000, 100, 0), Region(9100, 100, 100)];
    UniqueRegion(far, 99, far[0]);
    UniqueRegion(far, 100, far[1]);
    assert VirtToVa(far, PAGE_OFFSET + 100) == Some(9100);
  }
}
