/** Page mappings seen through a page-table walk, on values. */
module PageWalks {
  import opened Alignments
  import opened PageGroups

  /** The physical page of every mapped virtual page. */
  type Mapping = map<int, int>

  datatype TraversalEntry = TraversalEntry(physAddr: int, blockSize: int)

  /** The sizes of the blocks of the three table levels, single and contiguous. */
  predicate IsBlockSize(n: int) {
    n == 0x1000 || n == 0x1_0000 || n == 0x20_0000 || n == 0x200_0000 || n == 0x4000_0000 || n == 0x4_0000_0000
  }

  function PageAddr(addr: int, i: int): int {
    addr + i * PAGE_SIZE
  }

  /** From page `from` on, `n` pages are mapped to contiguous memory that starts at `phys`. */
  predicate RunAt(m: Mapping, addr: int, from: int, phys: int, n: int) {
    forall i {:trigger PageAddr(addr, i)} :: from <= i < from + n ==>
      PageAddr(addr, i) in m && m[PageAddr(addr, i)] == phys + (i - from) * PAGE_SIZE
  }

  ghost predicate Mapped(m: Mapping, addr: int, n: int) {
    forall i {:trigger PageAddr(addr, i)} :: 0 <= i < n ==> PageAddr(addr, i) in m
  }

  /** A run of contiguous memory starts at page `i`. */
  ghost predicate StartsAt(m: Mapping, addr: int, i: int) {
    PageAddr(addr, i) in m && (i == 0 || PageAddr(addr, i - 1) !in m || m[PageAddr(addr, i)] != m[PageAddr(addr, i - 1)] + PAGE_SIZE)
  }

  /** The first page of every run satisfies `heap`. */
  ghost predicate StartsIn(m: Mapping, addr: int, n: int, heap: int -> bool) {
    forall i {:trigger StartsAt(m, addr, i)} :: 0 <= i < n && StartsAt(m, addr, i) ==> heap(m[PageAddr(addr, i)])
  }

  /** The first `n` pages from `addr` on, by their linear virtual addresses, are `f`. */
  ghost predicate Shows(m: Mapping, addr: int, n: int, shift: int, f: seq<int>) {
    && Mapped(m, addr, n) && |f| == n
    && forall i {:trigger f[i]} :: 0 <= i < n ==> f[i] == m[PageAddr(addr, i)] + shift
  }

  /** A walk stands in the run of contiguous memory that starts at page `from` and is known up to page `from + n`. */
  ghost predicate InRun(m: Mapping, addr: int, from: int, phys: int, n: int) {
    && from >= 0 && n > 0 && Mapped(m, addr, from) && RunAt(m, addr, from, phys, n) && StartsAt(m, addr, from)
  }

  lemma RunLonger(m: Mapping, addr: int, from: int, phys: int, n: int, more: int)
    requires InRun(m, addr, from, phys, n) && RunAt(m, addr, from + n, phys + n * PAGE_SIZE, more) && more > 0
    ensures InRun(m, addr, from, phys, n + more)
  {
  }

  lemma RunOver(m: Mapping, addr: int, from: int, phys: int, n: int, next: int, more: int)
    requires InRun(m, addr, from, phys, n) && RunAt(m, addr, from + n, next, more) && next != phys + n * PAGE_SIZE && more > 0
    ensures InRun(m, addr, from + n, next, more)
  {
    var i := from + n;
    assert PageAddr(addr, i) in m && PageAddr(addr, i - 1) in m;
  }

  /** The pages of a run that has been checked join those shown before it. */
  lemma RunShown(m: Mapping, addr: int, from: int, phys: int, n: int, shift: int, f: seq<int>, heap: int -> bool)
    requires InRun(m, addr, from, phys, n) && Shows(m, addr, from, shift, f) && StartsIn(m, addr, from, heap) && heap(phys)
    ensures Shows(m, addr, from + n, shift, f + Run(phys + shift, n)) && StartsIn(m, addr, from + n, heap)
  {
    forall i {:trigger StartsAt(m, addr, i)} | 0 <= i < from + n && StartsAt(m, addr, i) ensures heap(m[PageAddr(addr, i)]) {
      var before := PageAddr(addr, i - 1);
    }
  }

  /** The mapping `m'` is `m` with the pages `f` mapped at `addr`. */
  ghost predicate MapsPages(m: Mapping, m': Mapping, addr: int, shift: int, f: seq<int>) {
    && (forall i {:trigger PageAddr(addr, i)} :: 0 <= i < |f| ==> PageAddr(addr, i) in m' && m'[PageAddr(addr, i)] == f[i] - shift)
    && (forall v {:trigger v in m'} :: v in m' ==> v in m || (addr <= v < PageAddr(addr, |f|) && (v - addr) % PAGE_SIZE == 0))
    && (forall v {:trigger v in m} :: v in m && !(addr <= v < PageAddr(addr, |f|)) ==> v in m' && m'[v] == m[v])
  }

  ghost predicate Unmapped(m: Mapping, lo: int, hi: int) {
    forall v {:trigger v in m} :: v in m ==> !(lo <= v < hi)
  }

  /** The mapping `m'` is `m` without the addresses from `lo` to `hi`. */
  ghost predicate UnmapsPages(m: Mapping, m': Mapping, lo: int, hi: int) {
    && (forall v {:trigger v in m'} :: v in m' <==> v in m && !(lo <= v < hi))
    && (forall v {:trigger m'[v]} :: v in m' ==> m'[v] == m[v])
  }

  lemma UnmapUndoesMap(m: Mapping, m': Mapping, m'': Mapping, addr: int, shift: int, f: seq<int>)
    requires MapsPages(m, m', addr, shift, f) && UnmapsPages(m', m'', addr, PageAddr(addr, |f|)) && Unmapped(m, addr, PageAddr(addr, |f|))
    ensures m'' == m
  {
    forall v | v in m'' ensures v in m && m''[v] == m[v] {
      assert v in m' && m''[v] == m'[v];
    }
    forall v | v in m ensures v in m'' {
      assert v in m';
    }
  }

  lemma MapsMore(m: Mapping, m': Mapping, m'': Mapping, addr: int, shift: int, f: seq<int>, g: seq<int>)
    requires MapsPages(m, m', addr, shift, f) && MapsPages(m', m'', PageAddr(addr, |f|), shift, g) && Unmapped(m, addr, PageAddr(addr, |f| + |g|))
    ensures MapsPages(m, m'', addr, shift, f + g)
  {
    forall i {:trigger PageAddr(addr, i)} | 0 <= i < |f + g| ensures PageAddr(addr, i) in m'' && m''[PageAddr(addr, i)] == (f + g)[i] - shift {
      if i >= |f| {
        assert PageAddr(addr, i) == PageAddr(PageAddr(addr, |f|), i - |f|);
      }
    }
    forall v {:trigger v in m''} | v in m'' ensures v in m || (addr <= v < PageAddr(addr, |f + g|) && (v - addr) % PAGE_SIZE == 0) {
      if v !in m && v !in m' {
        assert (v - PageAddr(addr, |f|)) % PAGE_SIZE == 0;
      }
    }
    forall v {:trigger v in m} | v in m && !(addr <= v < PageAddr(addr, |f + g|)) ensures v in m'' && m''[v] == m[v] {
      assert v in m' && m'[v] == m[v];
    }
  }

  /** What has been mapped is shown, and starts in the heap if the runs lie there. */
  lemma MappedShows(m: Mapping, m': Mapping, addr: int, shift: int, f: seq<int>, heap: int -> bool)
    requires MapsPages(m, m', addr, shift, f) && forall x :: x in f ==> heap(x - shift)
    ensures Shows(m', addr, |f|, shift, f) && StartsIn(m', addr, |f|, heap)
  {
    forall i {:trigger StartsAt(m', addr, i)} | 0 <= i < |f| && StartsAt(m', addr, i) ensures heap(m'[PageAddr(addr, i)]) {
      assert f[i] in f;
    }
  }

  /** The pages of a list that are yet to be compared: the rest of one run and the runs after it. */
  ghost predicate Rest(f: seq<int>, from: int, bs: seq<BlockInfo>, it: int, address: int, pages: int) {
    && 0 <= it < |bs| && 0 <= from <= |f| && pages >= 0
    && f[from..] == Run(address, pages) + Flatten(bs[it + 1..])
    && address + pages * PAGE_SIZE == bs[it].End()
  }

  /** Go on to the next run once one is used up. */
  lemma NextRun(f: seq<int>, from: int, bs: seq<BlockInfo>, it: int, address: int)
    requires Rest(f, from, bs, it, address, 0)
    ensures it + 1 == |bs| ==> from == |f|
    ensures it + 1 < |bs| ==> Rest(f, from, bs, it + 1, bs[it + 1].address, bs[it + 1].numPages)
  {
    if it + 1 < |bs| {
      var t := bs[it + 1..];
      assert t[0] == bs[it + 1] && t[1..] == bs[it + 2..];
      assert f[from..] == Flatten(t);
    }
  }

  /** Use up `n` pages of a run. */
  lemma RestAfter(f: seq<int>, from: int, bs: seq<BlockInfo>, it: int, address: int, pages: int, n: nat)
    requires Rest(f, from, bs, it, address, pages) && n <= pages
    ensures from + n <= |f| && f[from..from + n] == Run(address, n)
    ensures Rest(f, from + n, bs, it, address + n * PAGE_SIZE, pages - n)
  {
    RunSplit(address, n, pages - n);
    var t := f[from..];
    assert t == Run(address, n) + (Run(address + n * PAGE_SIZE, pages - n) + Flatten(bs[it + 1..]));
    assert t[n..] == f[from + n..] && t[..n] == f[from..from + n];
  }

  /** A run that ends too early: the page after it is not the contiguous one. */
  lemma EndsEarly(f: seq<int>, from: int, bs: seq<BlockInfo>, it: int, address: int, pages: int)
    requires Rest(f, from, bs, it, address, pages) && WellFormed(bs) && from + pages < |f|
    ensures f[from + pages] != address + pages * PAGE_SIZE
  {
    var t := bs[it + 1..];
    assert f[from..][pages] == f[from + pages] == Flatten(t)[0];
    assert Detached(bs, it);
    assert t[0] == bs[it + 1] && bs[it + 1].numPages > 0;
    assert Flatten(t)[0] == Run(t[0].address, t[0].numPages)[0];
  }
}

/** The page tables of an address space, together with its memory blocks. */
module PageTables {
  import opened Alignments
  import opened BlockPartitions
  import opened MemoryBlocks
  import opened PageGroups
  import opened PageWalks

  datatype Result = Success | InvalidCurrentMemory | OutOfResource

  /** What free memory looks like. */
  const FREE: Props := Props(MEMORY_STATE_FREE, PERMISSION_NONE, PERMISSION_NONE, {}, 0, 0)

  /** A set of attributes and masks that CheckMemoryState compares with. */
  datatype Expectation = Expectation(stateMask: bv32, state: bv32, permMask: bv8, perm: bv8, attrMask: set<Attribute>, attr: set<Attribute>) {
    predicate Meets(p: Props) {
      p.state & stateMask == state && p.perm & permMask == perm && p.attribute * attrMask == attr
    }
  }

  const ALL_STATE: bv32 := 0xFFFF_FFFF
  const ALL_ATTRIBUTES: set<Attribute> := {Locked, IpcLocked, DeviceShared, Uncached}

  /** Every address of the range meets the expectation, and they do not differ except in what may be ignored. */
  ghost predicate Uniform(bs: seq<Block>, lo: int, hi: int, e: Expectation, ignored: set<Attribute>)
    requires bs != []
  {
    forall x {:trigger PropsAt(bs, x)} :: lo <= x < hi ==>
      AsExpected(PropsAt(bs, x), PropsAt(bs, lo), e, ignored)
  }

  ghost predicate AsExpected(p: Props, first: Props, e: Expectation, ignored: set<Attribute>) {
    && p.state == first.state && p.perm == first.perm && p.attribute + ignored == first.attribute + ignored
    && p.state & e.stateMask == e.state && p.perm & e.permMask == e.perm && p.attribute * e.attrMask == e.attr
  }

  /** Unlocked memory carries no trace of locks, and free memory no trace of anything. */
  ghost predicate Clean(bs: seq<Block>, st: int, nd: int)
    requires bs != []
  {
    forall x {:trigger PropsAt(bs, x)} :: st <= x < nd ==>
      var p := PropsAt(bs, x);
      && (IpcLocked !in p.attribute ==> p.originalPerm == PERMISSION_NONE && p.ipcLockCount == 0)
      && (DeviceShared !in p.attribute ==> p.deviceUseCount == 0)
      && (p.state == MEMORY_STATE_FREE ==> p == FREE)
  }

  /** Whatever is mapped is not free. */
  ghost predicate NotFree(m: Mapping, bs: seq<Block>, st: int, nd: int)
    requires bs != []
  {
    forall v {:trigger v in m} :: v in m ==> st <= v < nd && PropsAt(bs, v).state != MEMORY_STATE_FREE
  }

  ghost predicate FreeRange(bs: seq<Block>, lo: int, hi: int)
    requires bs != []
  {
    forall x {:trigger PropsAt(bs, x)} :: lo <= x < hi ==> PropsAt(bs, x) == FREE
  }

  /** The blocks `t` are the blocks `bs` after an update of the range without attributes. */
  ghost predicate Becomes(bs: seq<Block>, t: seq<Block>, st: int, nd: int, lo: int, hi: int, state: bv32, perm: bv8)
    requires bs != [] && t != []
  {
    forall x {:trigger PropsAt(t, x)} :: st <= x < nd ==> PropsAt(t, x) == Changed(bs, lo, hi, state, perm, {}, x)
  }

  const TO_MAP: Expectation := Expectation(ALL_STATE, MEMORY_STATE_FREE, 0, 0, {}, {})

  function ToUnmap(state: bv32): Expectation {
    Expectation(ALL_STATE, state, 0, 0, ALL_ATTRIBUTES, {})
  }

  lemma FreeIsUniform(bs: seq<Block>, st: int, nd: int, lo: int, hi: int)
    requires bs != [] && Clean(bs, st, nd) && st <= lo && hi <= nd
    ensures Uniform(bs, lo, hi, TO_MAP, COUNTED) <==> FreeRange(bs, lo, hi)
  {
    assert FREE.state & ALL_STATE == MEMORY_STATE_FREE;
    assert FREE.perm & 0 == 0;
    forall x {:trigger PropsAt(bs, x)} | lo <= x < hi ensures TO_MAP.Meets(PropsAt(bs, x)) ==> PropsAt(bs, x) == FREE {
      StateMasked(PropsAt(bs, x).state);
    }
  }

  lemma StateMasked(s: bv32)
    ensures s & ALL_STATE == s
  {
  }

  /** An update that is not already in place never runs into the first block's trap. */
  lemma NotTrapped(bs: seq<Block>, st: int, nd: int, lo: int, state: bv32, perm: bv8)
    requires Partition(bs, st, nd) && st <= lo < nd && PropsAt(bs, lo).state != state
    ensures !(Strictly(bs[0], lo) && bs[0].props.Has(state, perm, {}))
  {
  }

  lemma StaysClean(bs: seq<Block>, t: seq<Block>, st: int, nd: int, lo: int, hi: int, state: bv32, perm: bv8)
    requires bs != [] && t != [] && Clean(bs, st, nd) && Becomes(bs, t, st, nd, lo, hi, state, perm)
    requires state == MEMORY_STATE_FREE ==> perm == PERMISSION_NONE
    requires state == MEMORY_STATE_FREE ==> forall x {:trigger PropsAt(bs, x)} :: lo <= x < hi ==> PropsAt(bs, x).attribute == {}
    ensures Clean(t, st, nd)
  {
    forall x {:trigger PropsAt(t, x)} | st <= x < nd
      ensures var p := PropsAt(t, x);
              && (IpcLocked !in p.attribute ==> p.originalPerm == PERMISSION_NONE && p.ipcLockCount == 0)
              && (DeviceShared !in p.attribute ==> p.deviceUseCount == 0)
              && (p.state == MEMORY_STATE_FREE ==> p == FREE)
    {
      var q := PropsAt(bs, x);
      assert PropsAt(t, x) == Changed(bs, lo, hi, state, perm, {}, x);
    }
  }

  lemma StaysNotFree(m: Mapping, m': Mapping, bs: seq<Block>, t: seq<Block>, st: int, nd: int, addr: int, shift: int, f: seq<int>, state: bv32, perm: bv8)
    requires bs != [] && t != [] && NotFree(m, bs, st, nd) && MapsPages(m, m', addr, shift, f) && state != MEMORY_STATE_FREE
    requires st <= addr && PageAddr(addr, |f|) <= nd && Becomes(bs, t, st, nd, addr, PageAddr(addr, |f|), state, perm)
    ensures NotFree(m', t, st, nd)
  {
    forall v {:trigger v in m'} | v in m' ensures st <= v < nd && PropsAt(t, v).state != MEMORY_STATE_FREE {
      assert v in m ==> st <= v < nd && PropsAt(bs, v).state != MEMORY_STATE_FREE;
      assert PropsAt(t, v) == PropsAt(t, v);
    }
  }

  lemma UnmappedNotFree(m: Mapping, m': Mapping, bs: seq<Block>, t: seq<Block>, st: int, nd: int, lo: int, hi: int)
    requires bs != [] && t != [] && NotFree(m, bs, st, nd) && UnmapsPages(m, m', lo, hi)
    requires Becomes(bs, t, st, nd, lo, hi, MEMORY_STATE_FREE, PERMISSION_NONE)
    ensures NotFree(m', t, st, nd)
  {
    forall v {:trigger v in m'} | v in m' ensures st <= v < nd && PropsAt(t, v).state != MEMORY_STATE_FREE {
      assert v in m && st <= v < nd && PropsAt(bs, v).state != MEMORY_STATE_FREE;
    }
  }

  /** Mapping at a free range and then unmapping gives back the very same blocks and the same mapping. */
  lemma UnmapAfterMap(bs0: seq<Block>, bs1: seq<Block>, bs2: seq<Block>, m0: Mapping, m1: Mapping, m2: Mapping,
                      st: int, nd: int, addr: int, shift: int, f: seq<int>, state: bv32, perm: bv8)
    requires Partition(bs0, st, nd) && Coalesced(bs0) && Partition(bs2, st, nd) && Coalesced(bs2) && bs1 != []
    requires FreeRange(bs0, addr, PageAddr(addr, |f|)) && Unmapped(m0, addr, PageAddr(addr, |f|)) && st <= addr && PageAddr(addr, |f|) <= nd
    requires Becomes(bs0, bs1, st, nd, addr, PageAddr(addr, |f|), state, perm) && MapsPages(m0, m1, addr, shift, f)
    requires Becomes(bs1, bs2, st, nd, addr, PageAddr(addr, |f|), MEMORY_STATE_FREE, PERMISSION_NONE) && UnmapsPages(m1, m2, addr, PageAddr(addr, |f|))
    ensures bs2 == bs0 && m2 == m0
  {
    UnmapUndoesMap(m0, m1, m2, addr, shift, f);
    forall x {:trigger PropsAt(bs0, x)} {:trigger PropsAt(bs2, x)} | st <= x < nd ensures PropsAt(bs2, x) == PropsAt(bs0, x) {
      assert PropsAt(bs1, x) == Changed(bs0, addr, PageAddr(addr, |f|), state, perm, {}, x);
    }
    PartitionsDetermined(bs0, bs2, st, nd);
  }

  /** What has been mapped passes the checks of unmapping. */
  lemma MappedPassesChecks(bs0: seq<Block>, bs1: seq<Block>, m0: Mapping, m1: Mapping, st: int, nd: int, addr: int, shift: int,
                           f: seq<int>, state: bv32, perm: bv8, heap: int -> bool)
    requires bs0 != [] && bs1 != [] && FreeRange(bs0, addr, PageAddr(addr, |f|)) && st <= addr && PageAddr(addr, |f|) <= nd
    requires Becomes(bs0, bs1, st, nd, addr, PageAddr(addr, |f|), state, perm) && MapsPages(m0, m1, addr, shift, f)
    requires forall x :: x in f ==> heap(x - shift)
    ensures Uniform(bs1, addr, PageAddr(addr, |f|), ToUnmap(state), COUNTED)
    ensures Shows(m1, addr, |f|, shift, f) && StartsIn(m1, addr, |f|, heap)
  {
    MappedShows(m0, m1, addr, shift, f, heap);
    StateMasked(state);
    assert perm & 0 == 0;
    forall x {:trigger PropsAt(bs1, x)} | addr <= x < PageAddr(addr, |f|) ensures PropsAt(bs1, x) == FREE.Updated(state, perm, {}) {
      assert PropsAt(bs0, x) == FREE;
    }
  }

  class KPageTableBase {
    const isHeapPhysical: int -> bool
    const isHeapVirtual: (int, int) -> bool
    const canContain: (int, int, bv32) -> bool
    const linearShift: int
    const enableAslr: bool
    const manager: KMemoryBlockManager
    var mapping: Mapping

    ghost predicate Aligned()
      reads this
    {
      AlignedMap(mapping)
    }

    constructor (physical: int -> bool, virtual: (int, int) -> bool, contain: (int, int, bv32) -> bool, shift: int, aslr: bool, m: KMemoryBlockManager)
      ensures isHeapPhysical == physical && isHeapVirtual == virtual && canContain == contain && linearShift == shift && enableAslr == aslr
      ensures manager == m && mapping == map[]
      // Over a manager that has just been made, this is a page table with nothing mapped.
      ensures m.Valid() && LaidOut() && m.blocks != [] && FreeRange(m.blocks, m.startAddress, m.endAddress) ==> Valid()
    {
      isHeapPhysical, isHeapVirtual, canContain, linearShift, enableAslr := physical, virtual, contain, shift, aslr;
      manager, mapping := m, map[];
    }

    /** The regions of the address space lie inside it, and heap memory is what the linear map shows. */
    ghost predicate LaidOut()
      reads manager`startAddress, manager`endAddress
    {
      && (forall a, n, s :: canContain(a, n, s) ==> manager.startAddress <= a && 0 < n && a + n <= manager.endAddress)
      && (forall a, n, p {:trigger isHeapVirtual(a, n), isHeapPhysical(p)} ::
            isHeapVirtual(a, n) && a <= p + linearShift < a + n ==> isHeapPhysical(p))
    }

    ghost predicate Valid()
      reads this, manager
    {
      && manager.Valid() && Aligned() && LaidOut()
      && Clean(manager.blocks, manager.startAddress, manager.endAddress)
      && NotFree(mapping, manager.blocks, manager.startAddress, manager.endAddress)
    }

    function GetHeapVirtualAddress(a: int): int {
      a + linearShift
    }

    /** Look up a page. The block around it has any size that the mapping allows; `rest` is what
        remains of it from this page on. */
    method BeginTraversal(addr: int) returns (valid: bool, e: TraversalEntry)
      requires Aligned()
      ensures valid <==> addr in mapping
      ensures valid ==> IsBlockSize(e.blockSize) && e.physAddr % PAGE_SIZE == 0
      ensures valid ==> e.physAddr == mapping[addr]
      ensures valid ==> RunAt(mapping, addr, 0, e.physAddr, (e.blockSize - e.physAddr % e.blockSize) / PAGE_SIZE)
    {
      valid, e := addr in mapping, TraversalEntry(0, 0x4000_0000);
      if valid {
        var size: int := *;
        var phys := mapping[addr];
        if !IsBlockSize(size) || !RunAt(mapping, addr, 0, phys, (size - phys % size) / PAGE_SIZE) {
          size := 0x1000;
        }
        e := TraversalEntry(phys, size);
      }
    }

    /** Go on to the block at page `at` of the walk from `addr`. */
    method ContinueTraversal(addr: int, at: nat) returns (valid: bool, e: TraversalEntry)
      requires Aligned()
      ensures valid <==> PageAddr(addr, at) in mapping
      ensures valid ==> IsBlockSize(e.blockSize) && e.physAddr % PAGE_SIZE == 0
      ensures valid ==> RunAt(mapping, addr, at, e.physAddr, e.blockSize / PAGE_SIZE)
      ensures valid ==> e.blockSize / PAGE_SIZE * PAGE_SIZE == e.blockSize > 0
    {
      valid, e := PageAddr(addr, at) in mapping, TraversalEntry(0, 0x4000_0000);
      if valid {
        var size: int := *;
        var phys := mapping[PageAddr(addr, at)];
        if !IsBlockSize(size) || !RunAt(mapping, addr, at, phys, size / PAGE_SIZE) {
          size := 0x1000;
        }
        e := TraversalEntry(phys, size);
      }
    }

    /** List the pages that are mapped at an address. */
    method MakePageGroup(pg: KPageGroup, addr: int, numPages: nat) returns (r: Result)
      requires Aligned() && forall a :: isHeapPhysical(a) ==> GetHeapVirtualAddress(a) != 0
      modifies pg
      ensures old(pg.blocks) != [] ==> r == InvalidCurrentMemory && pg.blocks == old(pg.blocks)
      ensures r == Success ==> WellFormed(pg.blocks)
      ensures r == Success && numPages > 0 ==>
                Shows(mapping, addr, numPages, linearShift, Flatten(pg.blocks)) && StartsIn(mapping, addr, numPages, isHeapPhysical)
      ensures r == InvalidCurrentMemory && old(pg.blocks) == [] && numPages > 0 ==>
                !(Mapped(mapping, addr, numPages) && StartsIn(mapping, addr, numPages, isHeapPhysical))
      // Even for no pages the address must be mapped to heap memory.
      ensures old(pg.blocks) == [] && numPages == 0 ==>
                pg.blocks == [] && r == if addr in mapping && isHeapPhysical(mapping[addr]) then Success else InvalidCurrentMemory
    {
      hide InRun, RunAt, IsBlockSize, Shows, StartsIn, WellFormed, Flatten, Mapped;
      if pg.blocks != [] {
        return InvalidCurrentMemory;
      }
      var size := numPages * PAGE_SIZE;
      var valid, e := BeginTraversal(addr);
      if !valid {
        NotMapped(mapping, addr, 0, numPages);
        return InvalidCurrentMemory;
      }
      var curAddr := e.physAddr;
      var curSize := e.blockSize - curAddr % e.blockSize;
      var totSize := curSize;
      FirstRunOf(mapping, addr, e);
      ghost var from: nat := 0;
      ghost var n := curSize / PAGE_SIZE;
      NoPages(mapping, addr, linearShift, isHeapPhysical);
      while totSize < size
        invariant curSize == n * PAGE_SIZE && totSize == (from + n) * PAGE_SIZE
        invariant InRun(mapping, addr, from, curAddr, n) && n > 0
        invariant Shows(mapping, addr, from, linearShift, Flatten(pg.blocks)) && StartsIn(mapping, addr, from, isHeapPhysical)
        invariant WellFormed(pg.blocks) && (from < numPages || from == numPages == 0)
        invariant numPages == 0 ==> pg.blocks == [] && curAddr == mapping[addr]
        decreases size - totSize
      {
        valid, e := ContinueTraversal(addr, totSize / PAGE_SIZE);
        if !valid {
          NotMapped(mapping, addr, totSize / PAGE_SIZE, numPages);
          return InvalidCurrentMemory;
        }
        var curPages := curSize / PAGE_SIZE;
        ghost var more := e.blockSize / PAGE_SIZE;
        if e.physAddr != curAddr + curSize {
          if !isHeapPhysical(curAddr) {
            NotInHeap(mapping, addr, from, curAddr, curPages, numPages, isHeapPhysical);
            return InvalidCurrentMemory;
          }
          RunShown(mapping, addr, from, curAddr, curPages, linearShift, Flatten(pg.blocks), isHeapPhysical);
          var added := pg.AddBlock(GetHeapVirtualAddress(curAddr), curPages);
          if !added {
            return OutOfResource;
          }
          RunOver(mapping, addr, from, curAddr, curPages, e.physAddr, more);
          from, n := from + n, more;
          curAddr, curSize := e.physAddr, e.blockSize;
        } else {
          RunLonger(mapping, addr, from, curAddr, curPages, more);
          n := n + more;
          curSize := curSize + e.blockSize;
        }
        totSize := totSize + e.blockSize;
      }
      if totSize > size {
        curSize := curSize - (totSize - size);
      }
      if numPages > 0 {
        RunShorter(mapping, addr, from, curAddr, n, numPages - from);
      }
      r := AddLastRun(pg, addr, numPages, curAddr, curSize, from);
    }

    /** Add the last run of MakePageGroup, which goes no further than the pages asked for. */
    method AddLastRun(pg: KPageGroup, addr: int, numPages: nat, curAddr: int, curSize: int, ghost from: nat) returns (r: Result)
      requires forall a :: isHeapPhysical(a) ==> GetHeapVirtualAddress(a) != 0
      requires curSize == numPages * PAGE_SIZE - from * PAGE_SIZE && WellFormed(pg.blocks)
      requires if numPages > 0 then from < numPages && InRun(mapping, addr, from, curAddr, numPages - from) else curSize == 0
      requires Shows(mapping, addr, from, linearShift, Flatten(pg.blocks)) && StartsIn(mapping, addr, from, isHeapPhysical)
      modifies pg
      ensures r == Success ==> WellFormed(pg.blocks)
      ensures r == Success && numPages > 0 ==>
                Shows(mapping, addr, numPages, linearShift, Flatten(pg.blocks)) && StartsIn(mapping, addr, numPages, isHeapPhysical)
      ensures r == InvalidCurrentMemory && numPages > 0 ==> !StartsIn(mapping, addr, numPages, isHeapPhysical)
      ensures numPages == 0 ==> pg.blocks == old(pg.blocks) && r == if isHeapPhysical(curAddr) then Success else InvalidCurrentMemory
    {
      hide InRun, RunAt, Shows, StartsIn;
      var curPages := curSize / PAGE_SIZE;
      if numPages > 0 && !isHeapPhysical(curAddr) {
        NotInHeap(mapping, addr, from, curAddr, curPages, numPages, isHeapPhysical);
      }
      if !isHeapPhysical(curAddr) {
        return InvalidCurrentMemory;
      }
      if numPages > 0 {
        RunShown(mapping, addr, from, curAddr, curPages, linearShift, Flatten(pg.blocks), isHeapPhysical);
      }
      var added := pg.AddBlock(GetHeapVirtualAddress(curAddr), curPages);
      r := if added then Success else OutOfResource;
    }

    /** Compare the run that starts at `curAddr` with the pages of the group that come next. */
    method CompareRun(pg: KPageGroup, it: nat, blockAddress: int, blockPages: nat, curAddr: int, curPages: int, last: bool,
                      ghost addr: int, ghost from: nat)
      returns (ok: bool, it': nat, blockAddress': int, blockPages': nat)
      requires WellFormed(pg.blocks) && Rest(Flatten(pg.blocks), from, pg.blocks, it, blockAddress, blockPages)
      requires InRun(mapping, addr, from, curAddr, curPages) && from + curPages <= |Flatten(pg.blocks)|
      requires last <==> from + curPages == |Flatten(pg.blocks)|
      requires Shows(mapping, addr, from, linearShift, Flatten(pg.blocks)[..from])
      ensures ok ==> Rest(Flatten(pg.blocks), from + curPages, pg.blocks, it', blockAddress', blockPages')
      ensures ok ==> Flatten(pg.blocks)[from..from + curPages] == Run(curAddr + linearShift, curPages)
      ensures !ok ==> !Shows(mapping, addr, |Flatten(pg.blocks)|, linearShift, Flatten(pg.blocks))
    {
      hide WellFormed, Rest, InRun, Shows, Flatten;
      it', blockAddress', blockPages' := it, blockAddress, blockPages;
      ghost var f := Flatten(pg.blocks);
      RestBounds(f, from, pg.blocks, it, blockAddress, blockPages);
      InRunBounds(mapping, addr, from, curAddr, curPages);
      if blockPages' == 0 {
        NextRun(f, from, pg.blocks, it, blockAddress);
        it' := it' + 1;
        if it' == |pg.blocks| {
          return false, it', blockAddress', blockPages';
        }
        blockAddress', blockPages' := pg.blocks[it'].address, pg.blocks[it'].numPages;
        RunHasPages(pg.blocks, it');
      }
      RestFirst(f, from, pg.blocks, it', blockAddress', blockPages');
      Mismatch(mapping, addr, from, curAddr, curPages, linearShift, f, pg.blocks, it', blockAddress', blockPages');
      RestBounds(f, from, pg.blocks, it', blockAddress', blockPages');
      if blockAddress' != GetHeapVirtualAddress(curAddr) || (if last then blockPages' != curPages else blockPages' < curPages) {
        return false, it', blockAddress', blockPages';
      }
      RestAfter(f, from, pg.blocks, it', blockAddress', blockPages', curPages);
      blockAddress', blockPages' := blockAddress' + curPages * PAGE_SIZE, blockPages' - curPages;
      ok := true;
    }

    /** Are the pages of the group those that are mapped at an address? */
    method IsValidPageGroup(pg: KPageGroup, addr: int, numPages: nat) returns (r: bool)
      requires Aligned() && WellFormed(pg.blocks) && numPages == |Flatten(pg.blocks)|
      ensures r <==> pg.blocks != [] && Shows(mapping, addr, numPages, linearShift, Flatten(pg.blocks)) && StartsIn(mapping, addr, numPages, isHeapPhysical)
    {
      hide InRun, RunAt, IsBlockSize, Shows, StartsIn, WellFormed, Rest, Flatten;
      if pg.blocks == [] {
        return false;
      }
      ghost var f := Flatten(pg.blocks);
      var size := numPages * PAGE_SIZE;
      var it: nat, blockAddress, blockPages := 0, pg.blocks[0].address, pg.blocks[0].numPages;
      WholeRest(pg.blocks);
      var valid, e := BeginTraversal(addr);
      if !valid {
        NotShown(mapping, addr, 0, numPages, linearShift, f);
        return false;
      }
      var curAddr := e.physAddr;
      var curSize := e.blockSize - curAddr % e.blockSize;
      var totSize := curSize;
      FirstRunOf(mapping, addr, e);
      ghost var from: nat := 0;
      ghost var n := curSize / PAGE_SIZE;
      NoPages(mapping, addr, linearShift, isHeapPhysical);
      assert f[..0] == [];
      while totSize < size
        invariant curSize == n * PAGE_SIZE && totSize == (from + n) * PAGE_SIZE
        invariant InRun(mapping, addr, from, curAddr, n) && n > 0 && from < numPages
        invariant Shows(mapping, addr, from, linearShift, f[..from]) && StartsIn(mapping, addr, from, isHeapPhysical)
        invariant Rest(f, from, pg.blocks, it, blockAddress, blockPages)
        decreases size - totSize
      {
        valid, e := ContinueTraversal(addr, totSize / PAGE_SIZE);
        if !valid {
          NotShown(mapping, addr, from + n, numPages, linearShift, f);
          return false;
        }
        var curPages := curSize / PAGE_SIZE;
        ghost var more := e.blockSize / PAGE_SIZE;
        if e.physAddr != curAddr + curSize {
          if !isHeapPhysical(curAddr) {
            NotInHeap(mapping, addr, from, curAddr, curPages, numPages, isHeapPhysical);
            return false;
          }
          var same;
          same, it, blockAddress, blockPages := CompareRun(pg, it, blockAddress, blockPages, curAddr, curPages, false, addr, from);
          if !same {
            return false;
          }
          RunShown(mapping, addr, from, curAddr, curPages, linearShift, f[..from], isHeapPhysical);
          assert f[..from] + f[from..from + n] == f[..from + n];
          RunOver(mapping, addr, from, curAddr, curPages, e.physAddr, more);
          from, n := from + n, more;
          curAddr, curSize := e.physAddr, e.blockSize;
        } else {
          RunLonger(mapping, addr, from, curAddr, curPages, more);
          n := n + more;
          curSize := curSize + e.blockSize;
        }
        totSize := totSize + e.blockSize;
      }
      if totSize > size {
        curSize := curSize - (totSize - size);
      }
      n := numPages - from;
      RunShorter(mapping, addr, from, curAddr, (totSize - from * PAGE_SIZE) / PAGE_SIZE, n);
      if !isHeapPhysical(curAddr) {
        NotInHeap(mapping, addr, from, curAddr, n, numPages, isHeapPhysical);
        return false;
      }
      r, it, blockAddress, blockPages := CompareRun(pg, it, blockAddress, blockPages, curAddr, curSize / PAGE_SIZE, true, addr, from);
      RunShown(mapping, addr, from, curAddr, n, linearShift, f[..from], isHeapPhysical);
      assert r ==> f[..from] + f[from..from + n] == f;
    }

    /** Check that the blocks of a range are alike and as expected. */
    method CheckMemoryState(addr: int, size: nat, e: Expectation, ignored: set<Attribute>)
      returns (r: Result, state: bv32, perm: bv8, attr: set<Attribute>)
      requires manager.Valid() && manager.startAddress <= addr && size > 0 && addr + size <= manager.endAddress
      ensures r == if Uniform(manager.blocks, addr, addr + size, e, ignored) then Success else InvalidCurrentMemory
      ensures r == Success ==>
                var p := PropsAt(manager.blocks, addr); state == p.state && perm == p.perm && attr == p.attribute - ignored
    {
      hide Partition, Coalesced, PropsAt, Expectation.Meets, Uniform;
      var lastAddr := addr + size - 1;
      ghost var bs, st, nd := manager.blocks, manager.startAddress, manager.endAddress;
      var it: nat := manager.FindIterator(addr);
      PropsAtIndex(bs, st, nd, addr, it);
      UniformIs(bs, addr, addr + size, e, ignored);
      var first := manager.blocks[it].props;
      while true
        invariant it < |bs| && bs[it].address <= lastAddr && addr < bs[it].End()
        invariant forall x {:trigger PropsAt(bs, x)} :: addr <= x < bs[it].address ==> Alike(PropsAt(bs, x), first, e, ignored)
        decreases |bs| - it
      {
        var info := manager.blocks[it];
        BlockBounds(bs, st, nd, it);
        NextBlock(bs, st, nd, it);
        ghost var y := if info.address < addr then addr else info.address;
        PropsAtIndex(bs, st, nd, y, it);
        if !Alike(info.props, first, e, ignored) {
          return InvalidCurrentMemory, first.state, first.perm, first.attribute;
        }
        forall x {:trigger PropsAt(bs, x)} | info.address <= x < info.End() ensures PropsAt(bs, x) == info.props {
          PropsAtIndex(bs, st, nd, x, it);
        }
        if lastAddr <= info.End() - 1 {
          break;
        }
        it := it + 1;
        assert it != |bs|;  // the assertion in the source
      }
      return Success, first.state, first.perm, first.attribute - ignored;
    }

    /** Map contiguous memory. The tables that this needs may not be available. */
    method OperateMap(addr: int, numPages: nat, phys: int) returns (ok: bool)
      modifies `mapping
      ensures ok ==> MapsPages(old(mapping), mapping, addr, 0, Run(phys, numPages))
      ensures !ok ==> mapping == old(mapping)
    {
      ok := *;
      if ok {
        var keys := set i | 0 <= i < numPages :: PageAddr(addr, i);
        mapping := map v | v in mapping.Keys + keys :: if v in keys then phys + (v - addr) else mapping[v];
        assert forall v :: v in keys ==> addr <= v < PageAddr(addr, numPages) && (v - addr) % PAGE_SIZE == 0;
        forall i {:trigger PageAddr(addr, i)} | 0 <= i < numPages ensures PageAddr(addr, i) in keys {
        }
      }
    }

    method OperateUnmap(addr: int, numPages: nat) returns (ok: bool)
      modifies `mapping
      ensures ok ==> UnmapsPages(old(mapping), mapping, addr, PageAddr(addr, numPages))
      ensures !ok ==> mapping == old(mapping)
    {
      ok := *;
      if ok {
        ForceUnmap(addr, numPages);
      }
    }

    /** Unmapping what has just been mapped cannot fail. */
    method ForceUnmap(addr: int, numPages: nat)
      modifies `mapping
      ensures UnmapsPages(old(mapping), mapping, addr, PageAddr(addr, numPages))
    {
      mapping := map v | v in mapping && !(addr <= v < PageAddr(addr, numPages)) :: mapping[v];
    }

    /** Map the pages of a group one run after the other. When one cannot be mapped, those that could
        are unmapped again. */
    method MapPageGroupImpl(addr: int, pg: KPageGroup) returns (ok: bool)
      requires Unmapped(mapping, addr, PageAddr(addr, |Flatten(pg.blocks)|))
      requires forall i :: 0 <= i < |pg.blocks| ==> pg.blocks[i].numPages > 0 && isHeapVirtual(pg.blocks[i].address, pg.blocks[i].numPages * PAGE_SIZE)
      modifies `mapping
      ensures ok ==> MapsPages(old(mapping), mapping, addr, linearShift, Flatten(pg.blocks))
      ensures !ok ==> mapping == old(mapping)
    {
      hide MapsPages, UnmapsPages, Unmapped;
      ghost var m0 := mapping;
      var curAddress := addr;
      ghost var f: seq<int> := [];
      MapsNothing(m0, addr, linearShift);
      for i := 0 to |pg.blocks|
        invariant f == Flatten(pg.blocks[..i]) && curAddress == PageAddr(addr, |f|) && |f| <= |Flatten(pg.blocks)|
        invariant MapsPages(m0, mapping, addr, linearShift, f)
      {
        var b := pg.blocks[i];
        assert isHeapVirtual(b.address, b.numPages * PAGE_SIZE);  // the abort in the source
        ghost var m1 := mapping;
        FlattenStep(pg.blocks, i);
        ok := OperateMap(curAddress, b.numPages, b.address - linearShift);
        if !ok {
          if curAddress != addr {
            ForceUnmap(addr, (curAddress - addr) / PAGE_SIZE);
          }
          UnmapUndoesPart(m0, m1, mapping, addr, linearShift, f, |Flatten(pg.blocks)|);
          return;
        }
        MapsShifted(m1, mapping, curAddress, linearShift, b.address, b.numPages);
        MapsOneMore(m0, m1, mapping, addr, linearShift, f, Run(b.address, b.numPages), |Flatten(pg.blocks)|);
        f := f + Run(b.address, b.numPages);
        curAddress := curAddress + b.numPages * PAGE_SIZE;
      }
      assert pg.blocks[..|pg.blocks|] == pg.blocks;
      ok := true;
    }

    /** The pages of the group lie in the heap. */
    ghost predicate Mappable(bs: seq<BlockInfo>) {
      && WellFormed(bs)
      && forall i {:trigger bs[i]} :: 0 <= i < |bs| ==>
           isHeapVirtual(bs[i].address, bs[i].numPages * PAGE_SIZE) && (bs[i].address - linearShift) % PAGE_SIZE == 0
    }

    /** Map the pages of a group at a free range, and give the range a state. */
    method MapPageGroup(addr: int, pg: KPageGroup, state: bv32, perm: bv8) returns (r: Result)
      requires Valid() && IsAligned(addr) && state != MEMORY_STATE_FREE && Mappable(pg.blocks)
      modifies `mapping, manager`blocks
      ensures Valid()
      ensures var hi := PageAddr(addr, |Flatten(pg.blocks)|);
              r == InvalidCurrentMemory <==> !(canContain(addr, hi - addr, state) && FreeRange(old(manager.blocks), addr, hi))
      ensures r != Success ==> mapping == old(mapping) && manager.blocks == old(manager.blocks)
      ensures r == Success ==>
                var hi := PageAddr(addr, |Flatten(pg.blocks)|);
                && MapsPages(old(mapping), mapping, addr, linearShift, Flatten(pg.blocks)) && Unmapped(old(mapping), addr, hi)
                && Becomes(old(manager.blocks), manager.blocks, manager.startAddress, manager.endAddress, addr, hi, state, perm)
    {
      hide Partition, Coalesced, PropsAt, MapsPages, Unmapped, Props.Has, Props.Updated, Uniform, Clean, NotFree, WellFormed, Flatten;
      var numPages := pg.GetNumPages();
      var size := numPages * PAGE_SIZE;
      if !canContain(addr, size, state) {
        return InvalidCurrentMemory;
      }
      ghost var bs, st, nd, m0, f := manager.blocks, manager.startAddress, manager.endAddress, mapping, Flatten(pg.blocks);
      StartOfSpan(bs, st, nd);
      FreeIsUniform(bs, st, nd, addr, addr + size);
      var s, p, a;
      r, s, p, a := CheckMemoryState(addr, size, TO_MAP, COUNTED);
      if r != Success {
        return;
      }
      var available: bool := *;
      if !available {
        return OutOfResource;
      }
      var allocator := new KMemoryBlockManagerUpdateAllocator();
      FreeUnmapped(mapping, bs, st, nd, addr, addr + size);
      FreeMayChange(bs, st, nd, addr, addr + size, state, perm);
      NonEmptyRuns(pg.blocks);
      var mapped := MapPageGroupImpl(addr, pg);
      if !mapped {
        return OutOfResource;
      }
      MappedAligned(m0, mapping, addr, linearShift, pg.blocks);
      var ok := manager.Update(allocator, addr, numPages, state, perm, {});
      assert ok;  // the step back from the first block is not taken
      StartOfSpan(manager.blocks, st, nd);
      StaysClean(bs, manager.blocks, st, nd, addr, addr + size, state, perm);
      StaysNotFree(m0, mapping, bs, manager.blocks, st, nd, addr, linearShift, f, state, perm);
      r := Success;
    }

    /** Unmap the pages of a group from a range that they are mapped at. */
    method UnmapPageGroup(addr: int, pg: KPageGroup, state: bv32) returns (r: Result)
      requires Valid() && IsAligned(addr) && state != MEMORY_STATE_FREE && WellFormed(pg.blocks)
      modifies `mapping, manager`blocks
      ensures Valid()
      ensures var f := Flatten(pg.blocks);
              var hi := PageAddr(addr, |f|);
              r == InvalidCurrentMemory <==>
                !(&& canContain(addr, hi - addr, state) && Uniform(old(manager.blocks), addr, hi, ToUnmap(state), COUNTED)
                  && Shows(old(mapping), addr, |f|, linearShift, f) && StartsIn(old(mapping), addr, |f|, isHeapPhysical))
      ensures r != Success ==> mapping == old(mapping) && manager.blocks == old(manager.blocks)
      ensures r == Success ==>
                var hi := PageAddr(addr, |Flatten(pg.blocks)|);
                && UnmapsPages(old(mapping), mapping, addr, hi)
                && Becomes(old(manager.blocks), manager.blocks, manager.startAddress, manager.endAddress, addr, hi, MEMORY_STATE_FREE, PERMISSION_NONE)
    {
      hide Partition, Coalesced, PropsAt, UnmapsPages, Props.Has, Props.Updated, Uniform, Clean, NotFree, WellFormed, Shows, StartsIn;
      var numPages := pg.GetNumPages();
      var size := numPages * PAGE_SIZE;
      if !canContain(addr, size, state) {
        return InvalidCurrentMemory;
      }
      ghost var bs, st, nd, m0 := manager.blocks, manager.startAddress, manager.endAddress, mapping;
      StartOfSpan(bs, st, nd);
      var s, p, a;
      r, s, p, a := CheckMemoryState(addr, size, ToUnmap(state), COUNTED);
      if r != Success {
        return;
      }
      var valid := IsValidPageGroup(pg, addr, numPages);
      assert pg.blocks != [];
      if !valid {
        return InvalidCurrentMemory;
      }
      var available: bool := *;
      if !available {
        return OutOfResource;
      }
      var allocator := new KMemoryBlockManagerUpdateAllocator();
      UniformMayChange(bs, st, nd, addr, addr + size, state);
      var unmapped := OperateUnmap(addr, numPages);
      if !unmapped {
        return OutOfResource;
      }
      UnmappedAligned(m0, mapping, addr, addr + size);
      var ok := manager.Update(allocator, addr, numPages, MEMORY_STATE_FREE, PERMISSION_NONE, {});
      assert ok;  // the step back from the first block is not taken
      StartOfSpan(manager.blocks, st, nd);
      StaysClean(bs, manager.blocks, st, nd, addr, addr + size, MEMORY_STATE_FREE, PERMISSION_NONE);
      UnmappedNotFree(m0, mapping, bs, manager.blocks, st, nd, addr, addr + size);
      r := Success;
    }

    /** Some free area, at random if the address space layout is, or 0. The random attempts need every
        candidate to lie in the address space, as the source aborts otherwise. */
    method FindFreeArea(regionStart: int, regionNumPages: nat, numPages: nat, alignment: int, offset: int, guardPages: nat)
      returns (r: int, ghost tries: seq<Try>)
      requires manager.Valid() && 0 <= offset < alignment
      requires manager.startAddress <= regionStart && regionStart + regionNumPages * PAGE_SIZE <= manager.endAddress
      requires enableAslr && numPages <= regionNumPages ==>
                 && numPages + guardPages <= regionNumPages && manager.startAddress <= AlignDown(regionStart, alignment) + offset
                 && regionStart + (regionNumPages - numPages - guardPages) * PAGE_SIZE + offset < manager.endAddress
      ensures r != 0 ==> Found(manager.blocks, regionStart, regionNumPages, numPages, alignment, offset, guardPages, r)
      ensures r == 0 && manager.startAddress > 0 && numPages <= regionNumPages ==>
                forall a :: !Fits(manager.blocks, regionStart, regionNumPages, numPages, alignment, offset, guardPages, a)
      // With random addresses it is the first of up to eight random candidates that is free, if there is one.
      ensures enableAslr && numPages <= regionNumPages ==>
                && 1 <= |tries| <= 8
                && (forall i {:trigger tries[i]} :: 0 <= i < |tries| ==> tries[i].Among(manager.blocks, regionStart, alignment, offset))
                && (forall i {:trigger tries[i]} :: 0 <= i < |tries| - 1 ==> !tries[i].Hit(manager.blocks, regionStart, regionNumPages, numPages, alignment, offset, guardPages))
                && var last := tries[|tries| - 1];
                if last.Hit(manager.blocks, regionStart, regionNumPages, numPages, alignment, offset, guardPages) then r == last.candidate else |tries| == 8
    {
      hide Partition, Coalesced, FitsIn, FoundIn;
      r, tries := 0, [];
      if numPages <= regionNumPages {
        if enableAslr {
          var i := 0;
          while i < 8 && r == 0
            invariant 0 <= i <= 8
            invariant r != 0 ==> Found(manager.blocks, regionStart, regionNumPages, numPages, alignment, offset, guardPages, r)
            invariant |tries| == i && (r != 0 ==> i > 0)
            invariant forall j {:trigger tries[j]} :: 0 <= j < i ==>
                        && tries[j].Among(manager.blocks, regionStart, alignment, offset)
                        && (tries[j].Hit(manager.blocks, regionStart, regionNumPages, numPages, alignment, offset, guardPages) <==> j == i - 1 && r != 0)
            invariant r != 0 ==> r == tries[i - 1].candidate
          {
            ghost var t;
            r, t := TryRandom(regionStart, regionNumPages, numPages, alignment, offset, guardPages);
            tries := tries + [t];
            i := i + 1;
          }
          if r == 0 {
            var offsetPages := GenerateRandomRange(0, regionNumPages - numPages);
            r := manager.FindFreeArea(regionStart + offsetPages * PAGE_SIZE, regionNumPages - offsetPages, numPages, alignment, offset, guardPages);
            FitsIsFound(manager.blocks, regionStart, offsetPages, regionNumPages, numPages, alignment, offset, guardPages, r);
          }
        }
        if r == 0 {
          r := manager.FindFreeArea(regionStart, regionNumPages, numPages, alignment, offset, guardPages);
          FitsIsFound(manager.blocks, regionStart, 0, regionNumPages, numPages, alignment, offset, guardPages, r);
          NothingFitsAtZero(manager.blocks, manager.startAddress, manager.endAddress, regionStart, regionNumPages, numPages, alignment, offset, guardPages);
        }
      }
    }

    method GenerateRandomRange(min: int, max: int) returns (r: int)
      requires min <= max
      ensures min <= r <= max
    {
      r := *;
      if r < min || max < r {
        r := min;
      }
    }

    /** One random candidate; 0 if it is not free. */
    method TryRandom(regionStart: int, regionNumPages: nat, numPages: nat, alignment: int, offset: int, guardPages: nat) returns (r: int, ghost t: Try)
      requires manager.Valid() && 0 <= offset < alignment && numPages + guardPages <= regionNumPages
      requires manager.startAddress <= AlignDown(regionStart, alignment) + offset
      requires regionStart + (regionNumPages - numPages - guardPages) * PAGE_SIZE + offset < manager.endAddress
      ensures r != 0 ==> Found(manager.blocks, regionStart, regionNumPages, numPages, alignment, offset, guardPages, r)
      ensures t.Among(manager.blocks, regionStart, alignment, offset)
      ensures r == if t.Hit(manager.blocks, regionStart, regionNumPages, numPages, alignment, offset, guardPages) then t.candidate else 0
    {
      hide Partition, Coalesced;
      var span := (regionNumPages - numPages - guardPages) * PAGE_SIZE;
      var k := GenerateRandomRange(0, span / alignment);
      CandidateBounds(regionStart, span, alignment, offset, k);
      var randomOffset := k * alignment;
      var candidate := AlignDown(regionStart + randomOffset, alignment) + offset;
      var it := manager.FindIterator(candidate);  // never fails: the abort in the source
      var info := manager.blocks[it];
      t := Try(candidate, it, k);
      if info.props.state != MEMORY_STATE_FREE { return 0, t; }
      if !(regionStart <= candidate) { return 0, t; }
      if !(info.address + guardPages * PAGE_SIZE <= candidate) { return 0, t; }
      if !(candidate + (numPages + guardPages) * PAGE_SIZE - 1 <= info.End() - 1) { return 0, t; }
      if !(candidate + (numPages + guardPages) * PAGE_SIZE - 1 <= regionStart + regionNumPages * PAGE_SIZE - 1) { return 0, t; }
      assert FoundIn(manager.blocks[it], regionStart, regionNumPages, numPages, alignment, offset, guardPages, candidate);
      return candidate, t;
    }
  }

  /** Map a group and unmap it again: the checks of the unmapping never fail, and once it has gone through
      nothing is different from before. */
  method MapThenUnmap(table: KPageTableBase, addr: int, pg: KPageGroup, state: bv32, perm: bv8) returns (mapped: Result, unmapped: Result)
    requires table.Valid() && IsAligned(addr) && state != MEMORY_STATE_FREE && table.Mappable(pg.blocks)
    modifies table`mapping, table.manager`blocks
    ensures table.Valid()
    ensures mapped == Success ==> unmapped != InvalidCurrentMemory
    ensures mapped != Success || unmapped == Success ==> table.mapping == old(table.mapping) && table.manager.blocks == old(table.manager.blocks)
  {
    hide Partition, Coalesced, Uniform, Clean, NotFree, WellFormed, Shows, StartsIn, Becomes, FreeRange, MapsPages, UnmapsPages, Unmapped;
    ghost var bs0, m0, f, manager := table.manager.blocks, table.mapping, Flatten(pg.blocks), table.manager;
    ghost var st, nd, heap := manager.startAddress, manager.endAddress, table.isHeapPhysical;
    StartOfSpan(bs0, st, nd);
    mapped := table.MapPageGroup(addr, pg, state, perm);
    unmapped := mapped;
    if mapped == Success {
      ghost var bs1, m1 := manager.blocks, table.mapping;
      StartOfSpan(bs1, st, nd);
      MappableInHeap(pg.blocks, table.isHeapVirtual, heap, table.linearShift);
      MappedPassesChecks(bs0, bs1, m0, m1, st, nd, addr, table.linearShift, f, state, perm, heap);
      unmapped := table.UnmapPageGroup(addr, pg, state);
      if unmapped == Success {
        UnmapAfterMap(bs0, bs1, manager.blocks, m0, m1, table.mapping, st, nd, addr, table.linearShift, f, state, perm);
      }
    }
  }

  /** The group that lists the pages at an address is valid there. */
  method MakeThenCheck(table: KPageTableBase, pg: KPageGroup, addr: int, numPages: nat) returns (made: Result, valid: bool)
    requires table.Aligned() && pg.blocks == [] && numPages > 0
    requires forall a :: table.isHeapPhysical(a) ==> table.GetHeapVirtualAddress(a) != 0
    modifies pg
    ensures valid <==> made == Success
  {
    hide WellFormed, Shows, StartsIn, Flatten;
    made := table.MakePageGroup(pg, addr, numPages);
    valid := false;
    if made == Success {
      ShowsAll(table.mapping, addr, numPages, table.linearShift, pg.blocks);
      valid := table.IsValidPageGroup(pg, addr, numPages);
    }
  }

  lemma ShowsAll(m: Mapping, addr: int, n: nat, shift: int, bs: seq<BlockInfo>)
    requires Shows(m, addr, n, shift, Flatten(bs)) && n > 0
    ensures |Flatten(bs)| == n && bs != []
  {
  }

  /** The area at `a`, with guard zones inside the free block `b`, lies in the region. */
  ghost predicate FoundIn(b: Block, regionStart: int, regionNumPages: nat, numPages: nat, alignment: int, offset: int, guardPages: nat, a: int)
    requires alignment > 0
  {
    && b.props.state == MEMORY_STATE_FREE && a % alignment == offset
    && b.address + guardPages * PAGE_SIZE <= a && a + (numPages + guardPages) * PAGE_SIZE <= b.End()
    && regionStart <= a && a + (numPages + guardPages) * PAGE_SIZE <= regionStart + regionNumPages * PAGE_SIZE
  }

  /** A random candidate: number `k` of those in the region, in block `block`. */
  datatype Try = Try(candidate: int, block: nat, k: nat) {
    ghost predicate Among(bs: seq<Block>, regionStart: int, alignment: int, offset: int)
      requires alignment > 0
    {
      && candidate == AlignDown(regionStart, alignment) + k * alignment + offset
      && block < |bs| && bs[block].address <= candidate < bs[block].End()
    }

    ghost predicate Hit(bs: seq<Block>, regionStart: int, regionNumPages: nat, numPages: nat, alignment: int, offset: int, guardPages: nat)
      requires alignment > 0
    {
      block < |bs| && candidate != 0 && FoundIn(bs[block], regionStart, regionNumPages, numPages, alignment, offset, guardPages, candidate)
    }
  }

  ghost predicate Found(bs: seq<Block>, regionStart: int, regionNumPages: nat, numPages: nat, alignment: int, offset: int, guardPages: nat, a: int)
    requires alignment > 0
  {
    exists i :: 0 <= i < |bs| && FoundIn(bs[i], regionStart, regionNumPages, numPages, alignment, offset, guardPages, a)
  }

  lemma FitsIsFound(bs: seq<Block>, regionStart: int, skipped: nat, regionNumPages: nat, numPages: nat, alignment: int, offset: int, guardPages: nat, a: int)
    requires alignment > 0 && skipped <= regionNumPages
    ensures Fits(bs, regionStart + skipped * PAGE_SIZE, regionNumPages - skipped, numPages, alignment, offset, guardPages, a) ==>
              Found(bs, regionStart, regionNumPages, numPages, alignment, offset, guardPages, a)
  {
    if Fits(bs, regionStart + skipped * PAGE_SIZE, regionNumPages - skipped, numPages, alignment, offset, guardPages, a) {
      var i :| 0 <= i < |bs| && FitsIn(bs[i], regionStart + skipped * PAGE_SIZE, regionNumPages - skipped, numPages, alignment, offset, guardPages, a);
      assert FoundIn(bs[i], regionStart, regionNumPages, numPages, alignment, offset, guardPages, a);
    }
  }

  lemma NothingFitsAtZero(bs: seq<Block>, st: int, nd: int, regionStart: int, regionNumPages: nat, numPages: nat, alignment: int, offset: int, guardPages: nat)
    requires Partition(bs, st, nd) && st <= regionStart && alignment > 0
    ensures st > 0 ==> !Fits(bs, regionStart, regionNumPages, numPages, alignment, offset, guardPages, 0)
  {
  }

  /** The random candidates do not leave the address space. */
  lemma CandidateBounds(regionStart: int, span: nat, alignment: int, offset: int, k: int)
    requires 0 <= offset < alignment && 0 <= k <= span / alignment
    ensures AlignDown(regionStart + k * alignment, alignment) == AlignDown(regionStart, alignment) + k * alignment
    ensures (AlignDown(regionStart, alignment) + k * alignment + offset) % alignment == offset
    ensures 0 <= k * alignment <= span && AlignDown(regionStart, alignment) <= regionStart
  {
    var q, m := regionStart / alignment, regionStart % alignment;
    assert regionStart == q * alignment + m;
    assert (q + k) * alignment == q * alignment + k * alignment;
    Remainder(q + k, alignment, m);
    Remainder(q + k, alignment, offset);
    var n := span / alignment;
    assert span == n * alignment + span % alignment;
    Multiples(k, n, alignment);
    Multiples(0, k, alignment);
  }

  /** The pages of a group that may be mapped are heap memory, so that MappedPassesChecks applies to it. */
  lemma {:induction false} MappableInHeap(bs: seq<BlockInfo>, virtual: (int, int) -> bool, physical: int -> bool, shift: int)
    requires forall a, n, p {:trigger virtual(a, n), physical(p)} :: virtual(a, n) && a <= p + shift < a + n ==> physical(p)
    requires forall i {:trigger bs[i]} :: 0 <= i < |bs| ==> virtual(bs[i].address, bs[i].numPages * PAGE_SIZE)
    ensures forall x :: x in Flatten(bs) ==> physical(x - shift)
  {
    if bs != [] {
      var t := bs[1..];
      assert forall i {:trigger t[i]} :: 0 <= i < |t| ==> t[i] == bs[i + 1];
      MappableInHeap(t, virtual, physical, shift);
      forall x | x in Run(bs[0].address, bs[0].numPages) ensures physical(x - shift) {
        assert virtual(bs[0].address, bs[0].numPages * PAGE_SIZE);
        var p := physical(x - shift);
      }
    }
  }

  lemma FreeUnmapped(m: Mapping, bs: seq<Block>, st: int, nd: int, lo: int, hi: int)
    requires bs != [] && NotFree(m, bs, st, nd) && FreeRange(bs, lo, hi)
    ensures Unmapped(m, lo, hi)
  {
  }

  lemma FreeMayChange(bs: seq<Block>, st: int, nd: int, lo: int, hi: int, state: bv32, perm: bv8)
    requires Partition(bs, st, nd) && FreeRange(bs, lo, hi) && st <= lo < hi <= nd && state != MEMORY_STATE_FREE
    ensures forall x {:trigger PropsAt(bs, x)} :: lo <= x < hi ==> PropsAt(bs, x).Has(state, perm, {}) || PropsAt(bs, x).MayUpdate()
    ensures !(Strictly(bs[0], lo) && bs[0].props.Has(state, perm, {}))
  {
    assert PropsAt(bs, lo) == FREE;
    NotTrapped(bs, st, nd, lo, state, perm);
  }

  lemma UniformMayChange(bs: seq<Block>, st: int, nd: int, lo: int, hi: int, state: bv32)
    requires Partition(bs, st, nd) && Clean(bs, st, nd) && st <= lo < hi <= nd && state != MEMORY_STATE_FREE
    requires Uniform(bs, lo, hi, ToUnmap(state), COUNTED)
    ensures forall x {:trigger PropsAt(bs, x)} :: lo <= x < hi ==> PropsAt(bs, x).MayUpdate() && PropsAt(bs, x).attribute == {}
    ensures !(Strictly(bs[0], lo) && bs[0].props.Has(MEMORY_STATE_FREE, PERMISSION_NONE, {}))
  {
    forall x {:trigger PropsAt(bs, x)} | lo <= x < hi
      ensures PropsAt(bs, x).MayUpdate() && PropsAt(bs, x).attribute == {} && PropsAt(bs, x).state == state
    {
      var p := PropsAt(bs, x);
      StateMasked(p.state);
      AllAttributes(p.attribute);
    }
    assert PropsAt(bs, lo).state == state;
    NotTrapped(bs, st, nd, lo, MEMORY_STATE_FREE, PERMISSION_NONE);
  }

  lemma AllAttributes(s: set<Attribute>)
    ensures s * ALL_ATTRIBUTES == s
  {
    forall a | a in s ensures a in ALL_ATTRIBUTES {
      assert a.Locked? || a.IpcLocked? || a.DeviceShared? || a.Uncached?;
    }
  }

  lemma NonEmptyRuns(bs: seq<BlockInfo>)
    requires WellFormed(bs)
    ensures forall i :: 0 <= i < |bs| ==> bs[i].numPages > 0
  {
  }

  ghost predicate AlignedMap(m: Mapping) {
    forall v {:trigger m[v]} :: v in m ==> v % PAGE_SIZE == 0 && m[v] % PAGE_SIZE == 0
  }

  lemma AlignedEverywhere(m: Mapping)
    requires forall v {:trigger m[v]} :: v in m ==> v % PAGE_SIZE == 0 && m[v] % PAGE_SIZE == 0
    ensures AlignedMap(m)
  {
  }

  lemma RunHasPages(bs: seq<BlockInfo>, i: nat)
    requires WellFormed(bs) && i < |bs|
    ensures bs[i].numPages > 0
  {
  }

  lemma MappedAligned(m: Mapping, m': Mapping, addr: int, shift: int, bs: seq<BlockInfo>)
    requires AlignedMap(m) && MapsPages(m, m', addr, shift, Flatten(bs)) && IsAligned(addr)
    requires forall i {:trigger bs[i]} :: 0 <= i < |bs| ==> (bs[i].address - shift) % PAGE_SIZE == 0
    ensures AlignedMap(m')
  {
    hide Flatten, MapsPages, AlignedMap;
    var f := Flatten(bs);
    FlattenAligned(bs, shift);
    forall v {:trigger m'[v]} | v in m' ensures v % PAGE_SIZE == 0 && m'[v] % PAGE_SIZE == 0 {
      MappedAt(m, m', addr, shift, f, v);
    }
    AlignedEverywhere(m');
  }

  lemma MappedAt(m: Mapping, m': Mapping, addr: int, shift: int, f: seq<int>, v: int)
    requires AlignedMap(m) && MapsPages(m, m', addr, shift, f) && IsAligned(addr) && v in m'
    requires forall i :: 0 <= i < |f| ==> (f[i] - shift) % PAGE_SIZE == 0
    ensures v % PAGE_SIZE == 0 && m'[v] % PAGE_SIZE == 0
  {
    if addr <= v < PageAddr(addr, |f|) {
      var o := if v in m then m[v] else 0;
      PageOf(addr, v, |f|);
      var i := (v - addr) / PAGE_SIZE;
      assert m'[PageAddr(addr, i)] == f[i] - shift;
    } else {
      assert v in m && m'[v] == m[v];
    }
  }

  lemma PageOf(addr: int, v: int, n: nat)
    requires IsAligned(addr) && ((v - addr) % PAGE_SIZE == 0 || v % PAGE_SIZE == 0) && addr <= v < PageAddr(addr, n)
    ensures v == PageAddr(addr, (v - addr) / PAGE_SIZE) && 0 <= (v - addr) / PAGE_SIZE < n && v % PAGE_SIZE == 0
  {
  }

  lemma {:induction false} FlattenAligned(bs: seq<BlockInfo>, shift: int)
    requires forall i {:trigger bs[i]} :: 0 <= i < |bs| ==> (bs[i].address - shift) % PAGE_SIZE == 0
    ensures forall i :: 0 <= i < |Flatten(bs)| ==> (Flatten(bs)[i] - shift) % PAGE_SIZE == 0
  {
    if bs != [] {
      var t := bs[1..];
      assert forall i {:trigger t[i]} :: 0 <= i < |t| ==> t[i] == bs[i + 1];
      FlattenAligned(t, shift);
    }
  }

  lemma UnmappedAligned(m: Mapping, m': Mapping, lo: int, hi: int)
    requires AlignedMap(m) && UnmapsPages(m, m', lo, hi)
    ensures AlignedMap(m')
  {
    forall v {:trigger m'[v]} | v in m' ensures v % PAGE_SIZE == 0 && m'[v] % PAGE_SIZE == 0 {
      assert v in m && m'[v] == m[v];
    }
  }

  lemma MapsNothing(m: Mapping, addr: int, shift: int)
    ensures MapsPages(m, m, addr, shift, []) && Flatten([]) == []
  {
  }

  lemma FlattenStep(bs: seq<BlockInfo>, i: nat)
    requires i < |bs|
    ensures Flatten(bs[..i + 1]) == Flatten(bs[..i]) + Run(bs[i].address, bs[i].numPages)
    ensures |Flatten(bs[..i + 1])| <= |Flatten(bs)|
  {
    assert bs[..i + 1] == bs[..i] + [bs[i]];
    FlattenAppend(bs[..i], [bs[i]]);
    FlattenOne(bs[i]);
    assert bs == bs[..i + 1] + bs[i + 1..];
    FlattenAppend(bs[..i + 1], bs[i + 1..]);
  }

  lemma UnmapUndoesPart(m: Mapping, m': Mapping, m'': Mapping, addr: int, shift: int, f: seq<int>, n: nat)
    requires MapsPages(m, m', addr, shift, f) && |f| <= n && Unmapped(m, addr, PageAddr(addr, n))
    requires if |f| > 0 then UnmapsPages(m', m'', addr, PageAddr(addr, |f|)) else m'' == m'
    ensures m'' == m
  {
    if |f| > 0 {
      UnmapUndoesMap(m, m', m'', addr, shift, f);
    } else {
      assert UnmapsPages(m', m'', addr, addr);
      UnmapUndoesMap(m, m', m'', addr, shift, f);
    }
  }

  lemma MapsShifted(m: Mapping, m': Mapping, addr: int, shift: int, a: int, n: nat)
    requires MapsPages(m, m', addr, 0, Run(a - shift, n))
    ensures MapsPages(m, m', addr, shift, Run(a, n))
  {
  }

  lemma MapsOneMore(m: Mapping, m': Mapping, m'': Mapping, addr: int, shift: int, f: seq<int>, g: seq<int>, n: nat)
    requires MapsPages(m, m', addr, shift, f) && MapsPages(m', m'', PageAddr(addr, |f|), shift, g)
    requires |f| + |g| <= n && Unmapped(m, addr, PageAddr(addr, n))
    ensures MapsPages(m, m'', addr, shift, f + g)
  {
    MapsMore(m, m', m'', addr, shift, f, g);
  }

  /** One round of CheckMemoryState. */
  predicate Alike(p: Props, first: Props, e: Expectation, ignored: set<Attribute>) {
    p.state == first.state && p.perm == first.perm && p.attribute + ignored == first.attribute + ignored && e.Meets(p)
  }

  ghost predicate AllAlike(bs: seq<Block>, lo: int, hi: int, e: Expectation, ignored: set<Attribute>)
    requires bs != []
  {
    forall x {:trigger PropsAt(bs, x)} :: lo <= x < hi ==> Alike(PropsAt(bs, x), PropsAt(bs, lo), e, ignored)
  }

  lemma UniformIs(bs: seq<Block>, lo: int, hi: int, e: Expectation, ignored: set<Attribute>)
    requires bs != []
    ensures Uniform(bs, lo, hi, e, ignored) <==> AllAlike(bs, lo, hi, e, ignored)
  {
    hide AsExpected, Alike;
    forall x {:trigger PropsAt(bs, x)}
      ensures AsExpected(PropsAt(bs, x), PropsAt(bs, lo), e, ignored) <==> Alike(PropsAt(bs, x), PropsAt(bs, lo), e, ignored)
    {
      AlikeIs(PropsAt(bs, x), PropsAt(bs, lo), e, ignored);
    }
  }

  lemma AlikeIs(p: Props, first: Props, e: Expectation, ignored: set<Attribute>)
    ensures AsExpected(p, first, e, ignored) <==> Alike(p, first, e, ignored)
  {
  }

  lemma WholeRest(bs: seq<BlockInfo>)
    requires WellFormed(bs) && bs != []
    ensures Rest(Flatten(bs), 0, bs, 0, bs[0].address, bs[0].numPages) && |Flatten(bs)| > 0
  {
    assert bs[0].numPages > 0;
  }

  lemma NotShown(m: Mapping, addr: int, i: nat, n: nat, shift: int, f: seq<int>)
    requires i < n && PageAddr(addr, i) !in m
    ensures !Shows(m, addr, n, shift, f)
  {
  }

  lemma RestBounds(f: seq<int>, from: int, bs: seq<BlockInfo>, it: int, address: int, pages: int)
    requires Rest(f, from, bs, it, address, pages)
    ensures 0 <= it < |bs| && pages >= 0 && from + pages <= |f|
  {
    assert |f[from..]| == |f| - from;
  }

  lemma InRunBounds(m: Mapping, addr: int, from: int, phys: int, n: int)
    requires InRun(m, addr, from, phys, n)
    ensures from >= 0 && n > 0
  {
  }

  /** After a fresh run has been taken up there is something to compare. */
  lemma RestFirst(f: seq<int>, from: int, bs: seq<BlockInfo>, it: int, address: int, pages: int)
    requires Rest(f, from, bs, it, address, pages) && pages > 0
    ensures from < |f| && f[from] == address
  {
    assert f[from..][0] == f[from];
  }

  /** When the runs differ, some page differs. */
  lemma Mismatch(m: Mapping, addr: int, from: int, phys: int, n: int, shift: int, f: seq<int>, bs: seq<BlockInfo>, it: int, address: int, pages: int)
    requires InRun(m, addr, from, phys, n) && Rest(f, from, bs, it, address, pages) && WellFormed(bs) && from + n <= |f| && pages > 0
    ensures address != phys + shift || pages < n ==> !Shows(m, addr, |f|, shift, f)
  {
    RestFirst(f, from, bs, it, address, pages);
    assert PageAddr(addr, from) in m && m[PageAddr(addr, from)] == phys;
    if address == phys + shift && pages < n {
      EndsEarly(f, from, bs, it, address, pages);
      assert PageAddr(addr, from + pages) in m && m[PageAddr(addr, from + pages)] == phys + pages * PAGE_SIZE;
    }
  }

  lemma NotMapped(m: Mapping, addr: int, i: nat, n: int)
    requires PageAddr(addr, i) !in m
    ensures i < n ==> !Mapped(m, addr, n)
  {
  }

  lemma NoPages(m: Mapping, addr: int, shift: int, heap: int -> bool)
    ensures Shows(m, addr, 0, shift, Flatten([])) && StartsIn(m, addr, 0, heap) && WellFormed([])
  {
  }

  lemma RunShorter(m: Mapping, addr: int, from: int, phys: int, n: int, n': int)
    requires InRun(m, addr, from, phys, n) && 0 < n' <= n
    ensures InRun(m, addr, from, phys, n')
  {
  }

  lemma FirstRunOf(m: Mapping, addr: int, e: TraversalEntry)
    requires IsBlockSize(e.blockSize) && e.physAddr % PAGE_SIZE == 0 && addr in m
    requires RunAt(m, addr, 0, e.physAddr, (e.blockSize - e.physAddr % e.blockSize) / PAGE_SIZE)
    ensures var n := e.blockSize - e.physAddr % e.blockSize; n > 0 && n % PAGE_SIZE == 0 && InRun(m, addr, 0, e.physAddr, n / PAGE_SIZE)
  {
    assert PageAddr(addr, 0) in m;
  }

  lemma NotInHeap(m: Mapping, addr: int, from: int, phys: int, n: int, total: int, heap: int -> bool)
    requires InRun(m, addr, from, phys, n) && from < total && !heap(phys)
    ensures !StartsIn(m, addr, total, heap)
  {
    assert StartsAt(m, addr, from) && m[PageAddr(addr, from)] == phys;
  }
}
