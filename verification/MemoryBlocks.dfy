/** The blocks of an address space: an ordered, gap-free, coalesced partition, and what it says
    about every single address. */
module BlockPartitions {
  import opened Alignments

  datatype Attribute = Locked | IpcLocked | DeviceShared | Uncached

  /** The attributes that a change of properties leaves alone. */
  const COUNTED: set<Attribute> := {IpcLocked, DeviceShared}

  const PERMISSION_NONE: bv8 := 0

  datatype Props = Props(state: bv32, perm: bv8, originalPerm: bv8, attribute: set<Attribute>, ipcLockCount: int, deviceUseCount: int) {
    predicate Has(state: bv32, perm: bv8, attribute: set<Attribute>) {
      this.state == state && this.perm == perm && this.attribute + COUNTED == attribute + COUNTED
    }

    function Updated(state: bv32, perm: bv8, attribute: set<Attribute>): Props {
      this.(state := state, perm := perm, attribute := attribute + (this.attribute * COUNTED))
    }

    /** The assertions of the source on a block whose properties are changed. */
    predicate MayUpdate() {
      originalPerm == PERMISSION_NONE && IpcLocked !in attribute
    }

    /** A locked or shared block has been counted. */
    predicate Counted() {
      (IpcLocked in attribute ==> ipcLockCount != 0) && (DeviceShared in attribute ==> deviceUseCount != 0)
    }
  }

  /** To have properties is not to be changed by them. */
  lemma HasIsUpdated(p: Props, state: bv32, perm: bv8, attribute: set<Attribute>)
    requires attribute !! COUNTED
    ensures p.Has(state, perm, attribute) <==> p.Updated(state, perm, attribute) == p
    ensures p.Updated(state, perm, attribute).Has(state, perm, attribute)
    ensures p.Counted() <==> p.Updated(state, perm, attribute).Counted()
  {
    var q := p.Updated(state, perm, attribute);
    assert forall a :: a in COUNTED ==> (a in q.attribute <==> a in p.attribute);
    if p.Has(state, perm, attribute) {
      assert forall a :: a in q.attribute <==> a in p.attribute + COUNTED && (a in COUNTED ==> a in p.attribute);
      assert q.attribute == p.attribute;
    }
    assert q.attribute + COUNTED == attribute + COUNTED;
  }

  datatype Block = Block(address: int, numPages: int, props: Props) {
    function Size(): int { numPages * PAGE_SIZE }
    function End(): int { address + Size() }
  }

  function IsAligned(a: int): bool { a % PAGE_SIZE == 0 }

  ghost predicate Meets(bs: seq<Block>, i: int) {
    0 <= i < |bs| - 1 ==> bs[i + 1].address == bs[i].End()
  }

  /** Neighbouring blocks `i` and `i + 1` differ. */
  ghost predicate Apart(bs: seq<Block>, i: int) {
    0 <= i < |bs| - 1 ==> bs[i].props != bs[i + 1].props
  }

  ghost predicate Partition(bs: seq<Block>, st: int, nd: int) {
    && |bs| > 0 && bs[0].address == st && bs[|bs| - 1].End() == nd
    && (forall i {:trigger bs[i]} :: 0 <= i < |bs| ==> bs[i].numPages > 0 && IsAligned(bs[i].address))
    && (forall i {:trigger Meets(bs, i)} :: Meets(bs, i))
  }

  ghost predicate Coalesced(bs: seq<Block>) {
    forall i {:trigger Apart(bs, i)} :: Apart(bs, i)
  }

  /** The properties of the address `x`. */
  ghost function PropsAt(bs: seq<Block>, x: int): Props
    requires bs != []
  {
    if |bs| == 1 || x < bs[0].End() then bs[0].props else PropsAt(bs[1..], x)
  }

  lemma {:induction false} TailPartition(bs: seq<Block>, st: int, nd: int)
    requires Partition(bs, st, nd) && |bs| > 1
    ensures Partition(bs[1..], bs[0].End(), nd)
  {
    assert Meets(bs, 0);
    forall i {:trigger Meets(bs[1..], i)} ensures Meets(bs[1..], i) {
      assert Meets(bs, i + 1);
    }
  }

  lemma {:induction false} InOrder(bs: seq<Block>, st: int, nd: int, i: nat, j: nat)
    requires Partition(bs, st, nd) && i < j < |bs|
    ensures st <= bs[i].address && bs[i].End() <= bs[j].address && bs[j].End() <= nd
    decreases j - i
  {
    if i + 1 == j {
      assert Meets(bs, i);
    } else {
      InOrder(bs, st, nd, i + 1, j);
      assert Meets(bs, i);
    }
    InSpan(bs, st, nd, i);
    InSpan(bs, st, nd, j);
  }

  lemma {:induction false} InSpan(bs: seq<Block>, st: int, nd: int, i: nat)
    requires Partition(bs, st, nd) && i < |bs|
    ensures st <= bs[i].address && bs[i].End() <= nd
  {
    AtLeast(bs, st, nd, i);
    AtMost(bs, st, nd, i);
  }

  lemma {:induction false} AtLeast(bs: seq<Block>, st: int, nd: int, i: nat)
    requires Partition(bs, st, nd) && i < |bs|
    ensures st <= bs[i].address
  {
    if i > 0 {
      AtLeast(bs, st, nd, i - 1);
      assert Meets(bs, i - 1);
    }
  }

  lemma {:induction false} AtMost(bs: seq<Block>, st: int, nd: int, i: nat)
    requires Partition(bs, st, nd) && i < |bs|
    ensures bs[i].End() <= nd
    decreases |bs| - i
  {
    if i + 1 < |bs| {
      AtMost(bs, st, nd, i + 1);
      assert Meets(bs, i);
    }
  }

  /** Every address has a block. */
  lemma {:induction false} Located(bs: seq<Block>, st: int, nd: int, x: int) returns (i: nat)
    requires Partition(bs, st, nd) && st <= x < nd
    ensures i < |bs| && bs[i].address <= x < bs[i].End()
  {
    if x < bs[0].End() {
      i := 0;
    } else {
      TailPartition(bs, st, nd);
      i := Located(bs[1..], bs[0].End(), nd, x);
      i := i + 1;
    }
  }

  /** The properties of an address are those of its block. */
  lemma {:induction false} PropsAtIndex(bs: seq<Block>, st: int, nd: int, x: int, i: nat)
    requires Partition(bs, st, nd) && i < |bs| && bs[i].address <= x < bs[i].End()
    ensures PropsAt(bs, x) == bs[i].props
  {
    if i > 0 {
      InOrder(bs, st, nd, 0, i);
      TailPartition(bs, st, nd);
      PropsAtIndex(bs[1..], bs[0].End(), nd, x, i - 1);
    }
  }

  /** A coalesced partition is determined by the properties of the single addresses. */
  lemma {:induction false} PartitionsDetermined(a: seq<Block>, b: seq<Block>, st: int, nd: int)
    requires Partition(a, st, nd) && Coalesced(a) && Partition(b, st, nd) && Coalesced(b)
    requires forall x {:trigger PropsAt(a, x)} {:trigger PropsAt(b, x)} :: st <= x < nd ==> PropsAt(a, x) == PropsAt(b, x)
    ensures a == b
  {
    FirstNotShorter(a, b, st, nd);
    FirstNotShorter(b, a, st, nd);
    InSpan(a, st, nd, 0);
    assert PropsAt(a, st) == PropsAt(b, st);
    assert a[0] == b[0];
    if |a| > 1 && |b| > 1 {
      TailPartition(a, st, nd);
      TailPartition(b, st, nd);
      TailCoalesced(a);
      TailCoalesced(b);
      forall x {:trigger PropsAt(a[1..], x)} {:trigger PropsAt(b[1..], x)} | a[0].End() <= x < nd ensures PropsAt(a[1..], x) == PropsAt(b[1..], x) {
        assert PropsAt(a, x) == PropsAt(b, x);
      }
      PartitionsDetermined(a[1..], b[1..], a[0].End(), nd);
      assert a == [a[0]] + a[1..] && b == [b[0]] + b[1..];
    } else {
      if |a| > 1 { InOrder(a, st, nd, 0, |a| - 1); }
      if |b| > 1 { InOrder(b, st, nd, 0, |b| - 1); }
    }
  }

  lemma TailCoalesced(bs: seq<Block>)
    requires Coalesced(bs) && |bs| > 1
    ensures Coalesced(bs[1..])
  {
    forall i {:trigger Apart(bs[1..], i)} ensures Apart(bs[1..], i) {
      assert Apart(bs, i + 1);
    }
  }

  lemma FirstNotShorter(a: seq<Block>, b: seq<Block>, st: int, nd: int)
    requires Partition(a, st, nd) && Coalesced(a) && Partition(b, st, nd)
    requires forall x {:trigger PropsAt(a, x)} {:trigger PropsAt(b, x)} :: st <= x < nd ==> PropsAt(a, x) == PropsAt(b, x)
    ensures a[0].End() >= b[0].End()
  {
    InSpan(b, st, nd, 0);
    var x := a[0].End();
    var p, q := PropsAt(a, st), PropsAt(a, x);
    if x < b[0].End() {
      assert Meets(a, 0) && Apart(a, 0);
      PropsAtIndex(a, st, nd, x, 1);
    }
  }

  /** Where the pairs of neighbours meet below `lo` or above `hi`, they differ. */
  ghost predicate Smooth(bs: seq<Block>, lo: int, hi: int) {
    forall i {:trigger Apart(bs, i)} :: 0 <= i < |bs| - 1 && !(lo <= bs[i].End() <= hi) ==> Apart(bs, i)
  }

  /** Block `i` split at `a`: a new block takes the front part. */
  function Split(bs: seq<Block>, i: int, a: int): seq<Block>
    requires 0 <= i < |bs|
  {
    var b := bs[i];
    var n := (a - b.address) / PAGE_SIZE;
    bs[..i] + [b.(numPages := n), b.(address := a, numPages := b.numPages - n)] + bs[i + 1..]
  }

  /** Block `i` merged with the next one. */
  function Merged(bs: seq<Block>, i: int): seq<Block>
    requires 0 <= i < |bs| - 1
  {
    bs[..i] + [bs[i].(numPages := bs[i].numPages + bs[i + 1].numPages)] + bs[i + 2..]
  }

  ghost predicate IsSplit(bs: seq<Block>, t: seq<Block>, i: nat, a: int) {
    && i < |bs| == |t| - 1
    && t[i].address == bs[i].address && t[i].End() == a && t[i].props == bs[i].props && t[i].numPages > 0
    && t[i + 1].address == a && t[i + 1].End() == bs[i].End() && t[i + 1].props == bs[i].props && t[i + 1].numPages > 0
    && (forall j {:trigger t[j]} :: 0 <= j < i ==> t[j] == bs[j])
    && (forall j {:trigger t[j]} :: i + 1 < j < |t| ==> t[j] == bs[j - 1])
  }

  lemma SplitIs(bs: seq<Block>, i: nat, a: int)
    requires i < |bs| && bs[i].address < a < bs[i].End() && IsAligned(a) && IsAligned(bs[i].address)
    ensures IsSplit(bs, Split(bs, i, a), i, a)
  {
  }

  lemma SplitKeeps(bs: seq<Block>, st: int, nd: int, i: nat, a: int, t: seq<Block>, lo: int, hi: int)
    requires Partition(bs, st, nd) && IsSplit(bs, t, i, a) && IsAligned(a) && lo <= a <= hi && Smooth(bs, lo, hi)
    ensures Partition(t, st, nd) && Smooth(t, lo, hi)
    ensures forall x {:trigger PropsAt(t, x)} :: st <= x < nd ==> PropsAt(t, x) == PropsAt(bs, x)
  {
    forall j {:trigger Meets(t, j)} ensures Meets(t, j) {
      assert Meets(bs, j) && Meets(bs, j - 1);
    }
    forall j {:trigger Apart(t, j)} | 0 <= j < |t| - 1 && !(lo <= t[j].End() <= hi) ensures Apart(t, j) {
      assert j < i ==> Apart(bs, j);
      assert j > i ==> Apart(bs, j - 1);
    }
    forall j {:trigger t[j]} | 0 <= j < |t| ensures t[j].numPages > 0 && IsAligned(t[j].address) {
      assert bs[if j <= i then j else j - 1].numPages > 0;
    }
    SplitProps(bs, st, nd, i, a, t);
  }

  lemma SplitProps(bs: seq<Block>, st: int, nd: int, i: nat, a: int, t: seq<Block>)
    requires Partition(bs, st, nd) && IsSplit(bs, t, i, a) && Partition(t, st, nd)
    ensures forall x {:trigger PropsAt(t, x)} :: st <= x < nd ==> PropsAt(t, x) == PropsAt(bs, x)
  {
    forall x {:trigger PropsAt(t, x)} | st <= x < nd ensures PropsAt(t, x) == PropsAt(bs, x) {
      var k := Located(bs, st, nd, x);
      PropsAtIndex(bs, st, nd, x, k);
      PropsAtIndex(t, st, nd, x, if k < i || (k == i && x < a) then k else k + 1);
    }
  }

  lemma ChangeKeeps(bs: seq<Block>, st: int, nd: int, i: nat, p: Props, lo: int, hi: int)
    requires Partition(bs, st, nd) && i < |bs| && lo <= bs[i].address && bs[i].End() <= hi && Smooth(bs, lo, hi)
    ensures var t := bs[i := bs[i].(props := p)]; Partition(t, st, nd) && Smooth(t, lo, hi)
    ensures forall x {:trigger PropsAt(bs[i := bs[i].(props := p)], x)} :: st <= x < nd ==>
              PropsAt(bs[i := bs[i].(props := p)], x) == if bs[i].address <= x < bs[i].End() then p else PropsAt(bs, x)
  {
    var t := bs[i := bs[i].(props := p)];
    forall j {:trigger Meets(t, j)} ensures Meets(t, j) {
      assert Meets(bs, j);
    }
    forall j {:trigger Apart(t, j)} | 0 <= j < |t| - 1 && !(lo <= t[j].End() <= hi) ensures Apart(t, j) {
      assert Apart(bs, j) && Meets(bs, j);
    }
    forall x {:trigger PropsAt(t, x)} | st <= x < nd ensures PropsAt(t, x) == if bs[i].address <= x < bs[i].End() then p else PropsAt(bs, x) {
      var k := Located(bs, st, nd, x);
      PropsAtIndex(bs, st, nd, x, k);
      PropsAtIndex(t, st, nd, x, k);
      if k < i { InOrder(bs, st, nd, k, i); }
      if i < k { InOrder(bs, st, nd, i, k); }
    }
  }

  ghost predicate IsMerged(bs: seq<Block>, t: seq<Block>, i: nat) {
    && i < |t| == |bs| - 1
    && t[i].address == bs[i].address && t[i].numPages == bs[i].numPages + bs[i + 1].numPages && t[i].props == bs[i].props
    && (forall j {:trigger t[j]} :: 0 <= j < i ==> t[j] == bs[j])
    && (forall j {:trigger t[j]} :: i < j < |t| ==> t[j] == bs[j + 1])
  }

  lemma MergedIs(bs: seq<Block>, i: nat)
    requires i < |bs| - 1
    ensures IsMerged(bs, Merged(bs, i), i)
  {
  }

  lemma MergedKeeps(bs: seq<Block>, st: int, nd: int, i: nat, t: seq<Block>)
    requires Partition(bs, st, nd) && IsMerged(bs, t, i) && !Apart(bs, i)
    ensures Partition(t, st, nd)
    ensures forall x {:trigger PropsAt(t, x)} :: st <= x < nd ==> PropsAt(t, x) == PropsAt(bs, x)
  {
    assert Meets(bs, i);
    forall j {:trigger Meets(t, j)} ensures Meets(t, j) {
      assert Meets(bs, j) && Meets(bs, j + 1);
    }
    forall j {:trigger t[j]} | 0 <= j < |t| ensures t[j].numPages > 0 && IsAligned(t[j].address) {
      assert bs[if j <= i then j else j + 1].numPages > 0 && bs[i + 1].numPages > 0;
    }
    forall x {:trigger PropsAt(t, x)} | st <= x < nd ensures PropsAt(t, x) == PropsAt(bs, x) {
      var k := Located(bs, st, nd, x);
      PropsAtIndex(bs, st, nd, x, k);
      PropsAtIndex(t, st, nd, x, if k <= i then k else k - 1);
    }
  }
}

/** The manager of the blocks of one address space. */
module MemoryBlocks {
  import opened Alignments
  import opened BlockPartitions

  const MEMORY_STATE_FREE: bv32 := 0

  /** Holds the blocks that an update may need, and takes back those it no longer needs. */
  class KMemoryBlockManagerUpdateAllocator {
    static const NUM_BLOCKS: nat := 2
    var index: nat
    var freed: nat

    constructor ()
      ensures index == 0 && freed == 0
    {
      index, freed := 0, 0;
    }

    /** The source aborts when both blocks are gone. */
    method Allocate()
      requires index < NUM_BLOCKS
      modifies this
      ensures index == old(index) + 1 && freed == old(freed)
    {
      index := index + 1;
    }

    method Free()
      requires index <= NUM_BLOCKS
      modifies this
      ensures index <= NUM_BLOCKS && freed - index == old(freed) - old(index) + 1
    {
      if index == 0 {
        freed := freed + 1;
      } else {
        index := index - 1;
      }
    }
  }

  /** The properties of `x` once those of every address in [lo, hi) have been changed. */
  ghost function Changed(bs: seq<Block>, lo: int, hi: int, state: bv32, perm: bv8, attr: set<Attribute>, x: int): Props
    requires bs != []
  {
    if lo <= x < hi then PropsAt(bs, x).Updated(state, perm, attr) else PropsAt(bs, x)
  }

  class KMemoryBlockManager {
    var blocks: seq<Block>
    var startAddress: int
    var endAddress: int

    ghost predicate Valid()
      reads this
    {
      Partition(blocks, startAddress, endAddress) && Coalesced(blocks)
    }

    constructor (st: int, nd: int)
      requires IsAligned(st) && IsAligned(nd) && st < nd
      ensures Valid() && startAddress == st && endAddress == nd
      ensures blocks == [Block(st, (nd - st) / PAGE_SIZE, Props(MEMORY_STATE_FREE, PERMISSION_NONE, PERMISSION_NONE, {}, 0, 0))]
      ensures forall x :: st <= x < nd ==> PropsAt(blocks, x) == Props(MEMORY_STATE_FREE, PERMISSION_NONE, PERMISSION_NONE, {}, 0, 0)
    {
      startAddress, endAddress := st, nd;
      blocks := [Block(st, (nd - st) / PAGE_SIZE, Props(MEMORY_STATE_FREE, PERMISSION_NONE, PERMISSION_NONE, {}, 0, 0))];
    }

    /** The search of the block tree. */
    method FindIterator(address: int) returns (it: nat)
      requires Partition(blocks, startAddress, endAddress) && startAddress <= address < endAddress
      ensures it < |blocks| && blocks[it].address <= address < blocks[it].End()
    {
      it := 0;
      ghost var k := Located(blocks, startAddress, endAddress, address);
      while !(blocks[it].address <= address < blocks[it].End())
        invariant 0 <= it <= k
        decreases k - it
      {
        it := it + 1;
      }
    }

    /** Split block `it` at `a`, with a block from the allocator. */
    method SplitBlock(it: nat, a: int, allocator: KMemoryBlockManagerUpdateAllocator, ghost lo: int, ghost hi: int)
      requires Partition(blocks, startAddress, endAddress) && Smooth(blocks, lo, hi)
      requires it < |blocks| && blocks[it].address < a < blocks[it].End() && IsAligned(a) && lo <= a <= hi
      requires allocator.index < KMemoryBlockManagerUpdateAllocator.NUM_BLOCKS
      modifies `blocks, allocator
      ensures Partition(blocks, startAddress, endAddress) && Smooth(blocks, lo, hi)
      ensures IsSplit(old(blocks), blocks, it, a)
      ensures forall x {:trigger PropsAt(blocks, x)} :: startAddress <= x < endAddress ==> PropsAt(blocks, x) == PropsAt(old(blocks), x)
      ensures allocator.index == old(allocator.index) + 1 && allocator.freed == old(allocator.freed)
    {
      allocator.Allocate();
      SplitIs(blocks, it, a);
      SplitKeeps(blocks, startAddress, endAddress, it, a, Split(blocks, it, a), lo, hi);
      blocks := Split(blocks, it, a);
    }

    /** Give the part of block `it` from `cur` on, but no more than `remaining` pages, the new
        properties. Its front and its tail are split off where they keep theirs. */
    method ChangeBlock(at: nat, cur: int, remaining: nat, state: bv32, perm: bv8, attr: set<Attribute>,
                       allocator: KMemoryBlockManagerUpdateAllocator, ghost lo: int, ghost hi: int)
      returns (it: nat, pages: nat)
      requires Partition(blocks, startAddress, endAddress) && Smooth(blocks, lo, hi)
      requires at < |blocks| && blocks[at].address <= cur < blocks[at].End() && IsAligned(cur) && remaining > 0
      requires lo <= cur && cur + remaining * PAGE_SIZE == hi && blocks[at].props.MayUpdate()
      requires allocator.index + (if blocks[at].address < cur then 1 else 0) + (if hi < blocks[at].End() then 1 else 0)
               <= KMemoryBlockManagerUpdateAllocator.NUM_BLOCKS
      modifies `blocks, allocator
      ensures Partition(blocks, startAddress, endAddress) && Smooth(blocks, lo, hi)
      ensures it < |blocks| && blocks[it].address == cur && pages == blocks[it].numPages && blocks[it].End() <= hi
      ensures it == if old(blocks)[at].address < cur then at + 1 else at
      ensures blocks[it].End() == if hi < old(blocks)[at].End() then hi else old(blocks)[at].End()
      ensures forall x {:trigger PropsAt(blocks, x)} :: startAddress <= x < endAddress ==>
                PropsAt(blocks, x) == Changed(old(blocks), cur, blocks[it].End(), state, perm, attr, x)
      ensures at > 0 ==> blocks[0] == old(blocks)[0]
      ensures at == 0 && it == 1 ==> blocks[0].address == old(blocks)[0].address && blocks[0].End() == cur
      ensures allocator.freed == old(allocator.freed) && |blocks| - allocator.index == |old(blocks)| - old(allocator.index)
      ensures allocator.index == old(allocator.index)
                + (if old(blocks)[at].address < cur then 1 else 0) + (if hi < old(blocks)[at].End() then 1 else 0)
    {
      hide Partition, Smooth, PropsAt, IsAligned;
      it := at;
      ghost var b := blocks[at];
      if blocks[it].address != cur {
        SplitBlock(it, cur, allocator, lo, hi);
        it := it + 1;
      }
      ghost var bs := blocks;
      if blocks[it].Size() > remaining * PAGE_SIZE {
        AlignedFurther(cur, remaining);
        SplitBlock(it, cur + remaining * PAGE_SIZE, allocator, lo, hi);
      }
      assert blocks[it].address == cur && blocks[it].props == b.props && blocks[it].End() == if hi < b.End() then hi else b.End();
      ghost var was := blocks;
      pages := blocks[it].numPages;
      assert blocks[it].props.MayUpdate();  // the assertions in the source
      ghost var p := blocks[it].props.Updated(state, perm, attr);
      ChangeKeeps(blocks, startAddress, endAddress, it, p, lo, hi);
      blocks := blocks[it := blocks[it].(props := blocks[it].props.Updated(state, perm, attr))];
      forall x {:trigger PropsAt(blocks, x)} | startAddress <= x < endAddress
        ensures PropsAt(blocks, x) == Changed(old(blocks), cur, blocks[it].End(), state, perm, attr, x)
      {
        if cur <= x < blocks[it].End() {
          PropsAtIndex(was, startAddress, endAddress, x, it);
        }
      }
    }

    /** One round of the first loop of Update. */
    method ChangeOrPass(at: nat, cur: int, remaining: nat, state: bv32, perm: bv8, attr: set<Attribute>,
                        allocator: KMemoryBlockManagerUpdateAllocator, ghost lo: int, ghost hi: int)
      returns (it: nat, cur': int, remaining': nat)
      requires Partition(blocks, startAddress, endAddress) && Smooth(blocks, lo, hi) && attr !! COUNTED
      requires at < |blocks| && blocks[at].address <= cur < blocks[at].End() && IsAligned(cur) && remaining > 0
      requires lo <= cur && cur + remaining * PAGE_SIZE == hi <= endAddress
      requires blocks[at].props.Has(state, perm, attr) || blocks[at].props.MayUpdate()
      requires allocator.index + (if blocks[at].address < cur then 1 else 0) < KMemoryBlockManagerUpdateAllocator.NUM_BLOCKS
      modifies `blocks, allocator
      ensures |blocks| > 0 && Partition(blocks, startAddress, endAddress) && Smooth(blocks, lo, hi)
      ensures cur < cur' && cur' + remaining' * PAGE_SIZE == hi && IsAligned(cur') && remaining' < remaining
      ensures remaining' > 0 ==> 0 < it < |blocks| && blocks[it].address == cur' < blocks[it].End()
      ensures forall x {:trigger PropsAt(blocks, x)} :: startAddress <= x < endAddress ==>
                PropsAt(blocks, x) == Changed(old(blocks), cur, cur', state, perm, attr, x)
      ensures allocator.freed == old(allocator.freed) && |blocks| - allocator.index == |old(blocks)| - old(allocator.index)
      ensures allocator.index <= old(allocator.index) + (if old(blocks)[at].address < cur then 1 else 0) + (if remaining' == 0 then 1 else 0)
      ensures at > 0 ==> blocks[0] == old(blocks)[0]
      ensures at == 0 ==> (Strictly(blocks[0], cur) <==> Strictly(old(blocks)[0], cur) && old(blocks)[0].props.Has(state, perm, attr))
    {
      hide Partition, Smooth, PropsAt, Props.Has, Props.Updated, IsSplit, IsAligned;
      it := at;
      BlockBounds(blocks, startAddress, endAddress, at);
      if blocks[it].props.Has(state, perm, attr) {
        cur', remaining' := PassOver(cur, remaining, blocks[it].End());
        HasProps(blocks, startAddress, endAddress, it, state, perm, attr);
      } else {
        var pages;
        it, pages := ChangeBlock(it, cur, remaining, state, perm, attr, allocator, lo, hi);
        BlockBounds(blocks, startAddress, endAddress, it);
        cur' := cur + pages * PAGE_SIZE;
        remaining' := remaining - pages;
      }
      NextBlock(blocks, startAddress, endAddress, it);
      it := it + 1;
    }

    /** The first loop of Update. */
    method ChangeRange(address: int, numPages: nat, state: bv32, perm: bv8, attr: set<Attribute>, allocator: KMemoryBlockManagerUpdateAllocator)
      requires Valid() && IsAligned(address) && startAddress <= address < endAddress && address + numPages * PAGE_SIZE <= endAddress
      requires attr !! COUNTED && allocator.index == 0
      requires forall x {:trigger PropsAt(blocks, x)} :: address <= x < address + numPages * PAGE_SIZE ==>
                 PropsAt(blocks, x).Has(state, perm, attr) || PropsAt(blocks, x).MayUpdate()
      modifies `blocks, allocator
      ensures |blocks| > 0 && Partition(blocks, startAddress, endAddress) && Smooth(blocks, address, address + numPages * PAGE_SIZE)
      ensures forall x {:trigger PropsAt(blocks, x)} :: startAddress <= x < endAddress ==>
                PropsAt(blocks, x) == Changed(old(blocks), address, address + numPages * PAGE_SIZE, state, perm, attr, x)
      ensures allocator.freed == old(allocator.freed) && |blocks| - allocator.index == |old(blocks)|
      ensures allocator.index <= KMemoryBlockManagerUpdateAllocator.NUM_BLOCKS
      ensures Strictly(blocks[0], address) <==> Strictly(old(blocks)[0], address) && (numPages == 0 || old(blocks)[0].props.Has(state, perm, attr))
    {
      hide Partition, Smooth, PropsAt, Coalesced, Props.Has, Props.Updated, IsAligned;
      ghost var hi := address + numPages * PAGE_SIZE;
      CoalescedSmooth(blocks, address, hi);
      SomeBlock(blocks, startAddress, endAddress);
      var cur, remaining := address, numPages;
      ghost var first := blocks[0];
      var it: nat := FindIterator(address);
      while remaining > 0
        invariant |blocks| > 0 && Partition(blocks, startAddress, endAddress) && Smooth(blocks, address, hi)
        invariant address <= cur && remaining >= 0 && cur + remaining * PAGE_SIZE == hi && IsAligned(cur)
        invariant remaining > 0 ==> it < |blocks| && blocks[it].address <= cur < blocks[it].End()
        invariant remaining > 0 && cur > address ==> it > 0 && blocks[it].address == cur
        invariant forall x {:trigger PropsAt(blocks, x)} :: startAddress <= x < endAddress ==>
                    PropsAt(blocks, x) == Changed(old(blocks), address, cur, state, perm, attr, x)
        invariant allocator.freed == old(allocator.freed) && |blocks| - allocator.index == |old(blocks)|
        invariant allocator.index <= if remaining == 0 then 2 else if cur == address then 0 else 1
        invariant cur == address ==> blocks == old(blocks) && remaining == numPages
        invariant cur > address ==> (Strictly(blocks[0], address) <==> Strictly(first, address) && first.props.Has(state, perm, attr))
        decreases remaining
      {
        PropsAtIndex(blocks, startAddress, endAddress, cur, it);
        BlockBounds(blocks, startAddress, endAddress, it);
        it, cur, remaining := ChangeOrPass(it, cur, remaining, state, perm, attr, allocator, address, hi);
      }
    }

    /** The second loop of Update: merge equal neighbours from block `at` on, until past `hi`. */
    method Coalesce(at: nat, hi: int, allocator: KMemoryBlockManagerUpdateAllocator)
      requires at < |blocks| && Partition(blocks, startAddress, endAddress) && allocator.index <= KMemoryBlockManagerUpdateAllocator.NUM_BLOCKS
      requires ApartUpTo(blocks, at) && ApartAbove(blocks, hi)
      modifies `blocks, allocator
      ensures Valid()
      ensures forall x {:trigger PropsAt(blocks, x)} :: startAddress <= x < endAddress ==> PropsAt(blocks, x) == PropsAt(old(blocks), x)
      ensures |blocks| - allocator.index + allocator.freed == |old(blocks)| - old(allocator.index) + old(allocator.freed)
      ensures allocator.index <= KMemoryBlockManagerUpdateAllocator.NUM_BLOCKS
    {
      hide PropsAt, IsAligned;
      var it: nat := at;
      while true
        invariant it < |blocks| && Partition(blocks, startAddress, endAddress)
        invariant ApartUpTo(blocks, it) && ApartAbove(blocks, hi)
        invariant forall x {:trigger PropsAt(blocks, x)} :: startAddress <= x < endAddress ==> PropsAt(blocks, x) == PropsAt(old(blocks), x)
        invariant |blocks| - allocator.index + allocator.freed == |old(blocks)| - old(allocator.index) + old(allocator.freed)
        invariant allocator.index <= KMemoryBlockManagerUpdateAllocator.NUM_BLOCKS
        decreases |blocks| - it
      {
        var prev := it;
        it := it + 1;
        if it == |blocks| {
          break;
        }
        if blocks[prev].props == blocks[it].props {
          MergedIs(blocks, prev);
          MergedKeeps(blocks, startAddress, endAddress, prev, Merged(blocks, prev));
          MergedApart(blocks, startAddress, endAddress, prev, Merged(blocks, prev), hi);
          allocator.Free();
          blocks := Merged(blocks, prev);
          it := prev;
        }
        if hi < blocks[it].End() {
          ApartEverywhere(blocks, startAddress, endAddress, it, hi);
          break;
        }
      }
    }

    /** Change the properties of a range. When the range starts inside the first block and nothing
        splits that block, the source then steps back from the first block, which is undefined: `ok` is
        false. Otherwise the blocks are a coalesced partition again. */
    method Update(allocator: KMemoryBlockManagerUpdateAllocator, address: int, numPages: nat, state: bv32, perm: bv8, attr: set<Attribute>)
      returns (ok: bool)
      requires Valid() && IsAligned(address) && startAddress <= address < endAddress && address + numPages * PAGE_SIZE <= endAddress
      requires attr !! COUNTED && allocator.index == 0
      requires forall x {:trigger PropsAt(blocks, x)} :: address <= x < address + numPages * PAGE_SIZE ==>
                 PropsAt(blocks, x).Has(state, perm, attr) || PropsAt(blocks, x).MayUpdate()
      modifies `blocks, allocator
      ensures ok <==> !(Strictly(old(blocks)[0], address) && (numPages == 0 || old(blocks)[0].props.Has(state, perm, attr)))
      ensures ok ==> Valid()
      ensures |blocks| > 0 && forall x {:trigger PropsAt(blocks, x)} :: startAddress <= x < endAddress ==>
                PropsAt(blocks, x) == Changed(old(blocks), address, address + numPages * PAGE_SIZE, state, perm, attr, x)
      ensures |blocks| - allocator.index + allocator.freed == |old(blocks)| + old(allocator.freed)
      ensures allocator.index <= KMemoryBlockManagerUpdateAllocator.NUM_BLOCKS
    {
      hide PropsAt, IsAligned, Partition, Smooth, ApartUpTo, ApartAbove, Coalesced, Props.Has, Props.Updated;
      StartOfSpan(blocks, startAddress, endAddress);
      ChangeRange(address, numPages, state, perm, attr, allocator);
      StartOfSpan(blocks, startAddress, endAddress);
      ghost var hi := address + numPages * PAGE_SIZE;
      var it: nat := FindIterator(address);
      BlockBounds(blocks, startAddress, endAddress, it);
      BlockBounds(blocks, startAddress, endAddress, 0);
      if address != startAddress {
        if it == 0 {
          return false;
        }
        it := it - 1;
        NextBlock(blocks, startAddress, endAddress, it);
      }
      SmoothStart(blocks, startAddress, endAddress, it, address, hi);
      Coalesce(it, address + numPages * PAGE_SIZE, allocator);
      StartOfSpan(blocks, startAddress, endAddress);
      ok := true;
    }

    /** Check that the blocks are coalesced, follow each other, and have been counted. The counts of the
        first block are looked at only if it is the only one. */
    method CheckState() returns (ok: bool)
      requires blocks != []
      ensures ok <==>
                && Coalesced(blocks) && (forall i {:trigger Meets(blocks, i)} :: Meets(blocks, i))
                && forall i :: 0 <= i < |blocks| && (i > 0 || |blocks| == 1) ==> blocks[i].props.Counted()
      // The answer is exact if the first block is counted.
      ensures blocks[0].props.Counted() ==>
                (ok <==> Coalesced(blocks) && (forall i {:trigger Meets(blocks, i)} :: Meets(blocks, i)) && AllCounted(blocks))
    {
      hide Props.Counted;
      var prev, it := 0, 1;
      while it < |blocks|
        invariant 0 <= prev == it - 1 && it <= |blocks|
        invariant forall i {:trigger Apart(blocks, i)} :: 0 <= i < prev ==> Apart(blocks, i)
        invariant forall i {:trigger Meets(blocks, i)} :: 0 <= i < prev ==> Meets(blocks, i)
        invariant forall i :: 0 < i < it ==> blocks[i].props.Counted()
      {
        if blocks[prev].props == blocks[it].props {
          assert !Apart(blocks, prev);
          return false;
        }
        if blocks[prev].End() != blocks[it].address {
          assert !Meets(blocks, prev);
          return false;
        }
        if !blocks[it].props.Counted() {
          return false;
        }
        prev, it := it, it + 1;
      }
      return blocks[prev].props.Counted();
    }

    /** The lowest address of a free area, with room for guard pages on both sides, or 0. */
    method FindFreeArea(regionStart: int, regionNumPages: nat, numPages: nat, alignment: int, offset: int, guardPages: nat) returns (r: int)
      requires Valid() && startAddress <= regionStart && (numPages > 0 ==> regionStart < endAddress) && 0 <= offset < alignment
      ensures (exists a :: Fits(blocks, regionStart, regionNumPages, numPages, alignment, offset, guardPages, a)) ==>
                && Fits(blocks, regionStart, regionNumPages, numPages, alignment, offset, guardPages, r)
                && forall a :: Fits(blocks, regionStart, regionNumPages, numPages, alignment, offset, guardPages, a) ==> r <= a
      ensures !(exists a :: Fits(blocks, regionStart, regionNumPages, numPages, alignment, offset, guardPages, a)) ==> r == 0
    {
      hide Partition, FitsIn;
      if numPages > 0 {
        var regionEnd := regionStart + regionNumPages * PAGE_SIZE;
        var regionLast := regionEnd - 1;
        var it := FindIterator(regionStart);
        forall i, a | 0 <= i < it ensures !FitsIn(blocks[i], regionStart, regionNumPages, numPages, alignment, offset, guardPages, a) {
          FitsInIs(blocks[i], regionStart, regionNumPages, numPages, alignment, offset, guardPages, a);
          InOrder(blocks, startAddress, endAddress, i, it);
        }
        while it < |blocks|
          invariant 0 <= it <= |blocks|
          invariant forall i, a :: 0 <= i < it ==> !FitsIn(blocks[i], regionStart, regionNumPages, numPages, alignment, offset, guardPages, a)
        {
          var info := blocks[it];
          if regionLast < info.address {
            forall i, a | it <= i < |blocks| ensures !FitsIn(blocks[i], regionStart, regionNumPages, numPages, alignment, offset, guardPages, a) {
              FitsInIs(blocks[i], regionStart, regionNumPages, numPages, alignment, offset, guardPages, a);
              if it < i { InOrder(blocks, startAddress, endAddress, it, i); NextBlock(blocks, startAddress, endAddress, it); }
            }
            break;
          }
          if info.props.state == MEMORY_STATE_FREE {
            var area := if info.address <= regionStart then regionStart else info.address;
            area := area + guardPages * PAGE_SIZE;
            ghost var bound := area;
            var offsetArea := AlignDown(area, alignment) + offset;
            area := if area <= offsetArea then offsetArea else offsetArea + alignment;
            LowestCongruent(bound, alignment, offset);
            var areaEnd := area + numPages * PAGE_SIZE + guardPages * PAGE_SIZE;
            var areaLast := areaEnd - 1;
            if info.address <= area && area < areaLast && areaLast <= regionLast && areaLast <= info.End() - 1 {
              FitsInIs(blocks[it], regionStart, regionNumPages, numPages, alignment, offset, guardPages, area);
              assert Fits(blocks, regionStart, regionNumPages, numPages, alignment, offset, guardPages, area);
              forall a | Fits(blocks, regionStart, regionNumPages, numPages, alignment, offset, guardPages, a) ensures area <= a {
                LowestOf(blocks, startAddress, endAddress, it, regionStart, regionNumPages, numPages, alignment, offset, guardPages, area, bound, a);
              }
              return area;
            }
            forall a ensures !FitsIn(info, regionStart, regionNumPages, numPages, alignment, offset, guardPages, a) {
              FitsInIs(info, regionStart, regionNumPages, numPages, alignment, offset, guardPages, a);
            }
          } else {
            forall a ensures !FitsIn(info, regionStart, regionNumPages, numPages, alignment, offset, guardPages, a) {
              FitsInIs(info, regionStart, regionNumPages, numPages, alignment, offset, guardPages, a);
            }
          }
          it := it + 1;
        }
      } else {
        forall b, a ensures !FitsIn(b, regionStart, regionNumPages, numPages, alignment, offset, guardPages, a) {
          FitsInIs(b, regionStart, regionNumPages, numPages, alignment, offset, guardPages, a);
        }
      }
      return 0;
    }
  }

  /** The area at `a`, with its guard zones, lies inside the free block `b` and the region. */
  ghost predicate FitsIn(b: Block, regionStart: int, regionNumPages: nat, numPages: nat, alignment: int, offset: int, guardPages: nat, a: int)
    requires alignment > 0
  {
    && numPages > 0 && b.props.state == MEMORY_STATE_FREE && a % alignment == offset
    && b.address <= a - guardPages * PAGE_SIZE && regionStart <= a - guardPages * PAGE_SIZE
    && a + (numPages + guardPages) * PAGE_SIZE <= b.End()
    && a + (numPages + guardPages) * PAGE_SIZE <= regionStart + regionNumPages * PAGE_SIZE
  }

  lemma FitsInIs(b: Block, regionStart: int, regionNumPages: nat, numPages: nat, alignment: int, offset: int, guardPages: nat, a: int)
    requires alignment > 0
    ensures FitsIn(b, regionStart, regionNumPages, numPages, alignment, offset, guardPages, a) <==>
              && numPages > 0 && b.props.state == MEMORY_STATE_FREE && a % alignment == offset
              && b.address <= a - guardPages * PAGE_SIZE && regionStart <= a - guardPages * PAGE_SIZE
              && a + (numPages + guardPages) * PAGE_SIZE <= b.End()
              && a + (numPages + guardPages) * PAGE_SIZE <= regionStart + regionNumPages * PAGE_SIZE
  {
  }

  lemma AlignedFurther(a: int, n: int)
    requires IsAligned(a)
    ensures IsAligned(a + n * PAGE_SIZE)
  {
  }

  /** Where nothing is left to merge, nothing is left to merge outside a range. */
  lemma CoalescedSmooth(bs: seq<Block>, lo: int, hi: int)
    requires Coalesced(bs)
    ensures Smooth(bs, lo, hi)
  {
  }

  lemma SomeBlock(bs: seq<Block>, st: int, nd: int)
    requires Partition(bs, st, nd) && st < nd
    ensures |bs| > 0
  {
  }

  ghost predicate Fits(bs: seq<Block>, regionStart: int, regionNumPages: nat, numPages: nat, alignment: int, offset: int, guardPages: nat, a: int)
    requires alignment > 0
  {
    exists i :: 0 <= i < |bs| && FitsIn(bs[i], regionStart, regionNumPages, numPages, alignment, offset, guardPages, a)
  }

  /** Aligning down, adding the offset and, if that is too low, one step: the lowest address from
      `bound` on that is congruent to the offset. */
  lemma LowestCongruent(bound: int, alignment: int, offset: int)
    requires 0 <= offset < alignment
    ensures var o := AlignDown(bound, alignment) + offset;
            var r := if bound <= o then o else o + alignment;
            r % alignment == offset && bound <= r && forall a :: a >= bound && a % alignment == offset ==> r <= a
  {
    var k := bound / alignment;
    assert AlignDown(bound, alignment) == k * alignment;
    var o := k * alignment + offset;
    Remainder(k, alignment, offset);
    Remainder(k + 1, alignment, offset);
    assert (k + 1) * alignment + offset == o + alignment;
    forall a | a >= bound && a % alignment == offset ensures (if bound <= o then o else o + alignment) <= a {
      var q := a / alignment;
      assert a == q * alignment + offset;
      Multiples(q, k, alignment);
    }
  }

  lemma LowestOf(bs: seq<Block>, st: int, nd: int, it: nat, regionStart: int, regionNumPages: nat, numPages: nat, alignment: int,
                 offset: int, guardPages: nat, area: int, bound: int, a: int)
    requires Partition(bs, st, nd) && it < |bs| && 0 <= offset < alignment
    requires forall i, a :: 0 <= i < it ==> !FitsIn(bs[i], regionStart, regionNumPages, numPages, alignment, offset, guardPages, a)
    requires bound == (if bs[it].address <= regionStart then regionStart else bs[it].address) + guardPages * PAGE_SIZE
    requires forall x :: x >= bound && x % alignment == offset ==> area <= x
    requires FitsIn(bs[it], regionStart, regionNumPages, numPages, alignment, offset, guardPages, area)
    requires Fits(bs, regionStart, regionNumPages, numPages, alignment, offset, guardPages, a)
    ensures area <= a
  {
    var i :| 0 <= i < |bs| && FitsIn(bs[i], regionStart, regionNumPages, numPages, alignment, offset, guardPages, a);
    if it < i {
      InOrder(bs, st, nd, it, i);
    }
  }

  ghost predicate ApartUpTo(bs: seq<Block>, n: int) {
    forall i {:trigger Apart(bs, i)} :: 0 <= i < n ==> Apart(bs, i)
  }

  ghost predicate ApartAbove(bs: seq<Block>, hi: int) {
    forall i {:trigger Apart(bs, i)} :: 0 <= i < |bs| && bs[i].End() > hi ==> Apart(bs, i)
  }

  lemma MergedApart(bs: seq<Block>, st: int, nd: int, i: nat, t: seq<Block>, hi: int)
    requires Partition(bs, st, nd) && IsMerged(bs, t, i) && !Apart(bs, i) && ApartUpTo(bs, i) && ApartAbove(bs, hi)
    ensures ApartUpTo(t, i) && ApartAbove(t, hi)
  {
    assert Meets(bs, i);
    forall j {:trigger Apart(t, j)} | 0 <= j < i ensures Apart(t, j) {
      assert Apart(bs, j);
    }
    forall j {:trigger Apart(t, j)} | 0 <= j < |t| && t[j].End() > hi ensures Apart(t, j) {
      assert j >= i ==> Apart(bs, j + 1);
      assert j < i ==> Apart(bs, j);
    }
  }

  lemma ApartEverywhere(bs: seq<Block>, st: int, nd: int, n: nat, hi: int)
    requires Partition(bs, st, nd) && n < |bs| && hi < bs[n].End() && ApartUpTo(bs, n) && ApartAbove(bs, hi)
    ensures Coalesced(bs)
  {
    forall i {:trigger Apart(bs, i)} ensures Apart(bs, i) {
      if n < i < |bs| {
        InOrder(bs, st, nd, n, i);
        assert bs[i].numPages > 0;
      }
    }
  }

  lemma StartOfSpan(bs: seq<Block>, st: int, nd: int)
    requires Partition(bs, st, nd)
    ensures |bs| > 0 && bs[0].address == st
    ensures forall i {:trigger bs[i]} :: 0 < i < |bs| ==> bs[0].End() <= bs[i].address && st < bs[i].address
  {
    forall i {:trigger bs[i]} | 0 < i < |bs| ensures bs[0].End() <= bs[i].address && st < bs[i].address {
      InOrder(bs, st, nd, 0, i);
    }
  }

  lemma SmoothStart(bs: seq<Block>, st: int, nd: int, n: nat, lo: int, hi: int)
    requires Partition(bs, st, nd) && n < |bs| && Smooth(bs, lo, hi) && (n > 0 ==> bs[n].address < lo)
    requires lo <= hi
    ensures ApartUpTo(bs, n) && ApartAbove(bs, hi)
  {
    forall i {:trigger Apart(bs, i)} | 0 <= i < n ensures Apart(bs, i) {
      InOrder(bs, st, nd, i, n);
    }
  }

  /** Pass over a block that ends at `end` and already has the right properties. */
  method PassOver(cur: int, remaining: nat, end: int) returns (cur': int, remaining': nat)
    requires remaining > 0 && cur < end && IsAligned(cur) && IsAligned(end)
    ensures cur' == (if cur + remaining * PAGE_SIZE < end then cur + remaining * PAGE_SIZE else end)
    ensures IsAligned(cur') && cur' + remaining' * PAGE_SIZE == cur + remaining * PAGE_SIZE && remaining' < remaining
  {
    if cur + remaining * PAGE_SIZE < end {
      return cur + remaining * PAGE_SIZE, 0;
    } else {
      return end, (cur + remaining * PAGE_SIZE - end) / PAGE_SIZE;
    }
  }

  /** `x` lies inside `b` and is not its start. */
  ghost predicate Strictly(b: Block, x: int) {
    b.address < x < b.End()
  }

  lemma BlockBounds(bs: seq<Block>, st: int, nd: int, i: nat)
    requires Partition(bs, st, nd) && i < |bs|
    ensures IsAligned(bs[i].address) && IsAligned(bs[i].End()) && st <= bs[i].address && bs[i].End() <= nd
    ensures i > 0 ==> bs[0].End() <= bs[i].address
  {
    InSpan(bs, st, nd, i);
    if i > 0 {
      InOrder(bs, st, nd, 0, i);
    }
  }

  lemma NextBlock(bs: seq<Block>, st: int, nd: int, i: nat)
    requires Partition(bs, st, nd) && i < |bs|
    ensures bs[i].address < bs[i].End()
    ensures if i + 1 < |bs| then bs[i + 1].address == bs[i].End() < bs[i + 1].End() else bs[i].End() == nd
  {
    assert Meets(bs, i);
  }

  lemma HasProps(bs: seq<Block>, st: int, nd: int, i: nat, state: bv32, perm: bv8, attr: set<Attribute>)
    requires Partition(bs, st, nd) && i < |bs| && bs[i].props.Has(state, perm, attr) && attr !! COUNTED
    ensures forall x {:trigger PropsAt(bs, x)} :: bs[i].address <= x < bs[i].End() ==>
              PropsAt(bs, x).Updated(state, perm, attr) == PropsAt(bs, x)
  {
    HasIsUpdated(bs[i].props, state, perm, attr);
    forall x {:trigger PropsAt(bs, x)} | bs[i].address <= x < bs[i].End() ensures PropsAt(bs, x) == bs[i].props {
      PropsAtIndex(bs, st, nd, x, i);
    }
  }

  /** A concrete case of the step back from the first block: two free pages, of which the second is to be
      freed again. */
  method UpdateTrapExample() returns (ok: bool)
    ensures !ok
  {
    var manager := new KMemoryBlockManager(0x8000, 0xA000);
    var allocator := new KMemoryBlockManagerUpdateAllocator();
    assert Strictly(manager.blocks[0], 0x9000) && manager.blocks[0].props.Has(MEMORY_STATE_FREE, PERMISSION_NONE, {});
    ok := manager.Update(allocator, 0x9000, 1, MEMORY_STATE_FREE, PERMISSION_NONE, {});
  }

  /** A concrete case that CheckState misses: the first of two blocks is locked, but its count is zero. */
  method CheckStateExample() returns (ok: bool, ghost bs: seq<Block>)
    ensures ok && !AllCounted(bs) && bs[0].props.attribute == {IpcLocked} && bs[0].props.ipcLockCount == 0
  {
    var manager := new KMemoryBlockManager(0x8000, 0xA000);
    var free := Props(MEMORY_STATE_FREE, PERMISSION_NONE, PERMISSION_NONE, {}, 0, 0);
    manager.blocks := [Block(0x8000, 1, free.(attribute := {IpcLocked})), Block(0x9000, 1, free)];
    bs := manager.blocks;
    assert IpcLocked in bs[0].props.attribute && !bs[0].props.Counted();
    assert forall i {:trigger Apart(bs, i)} :: 0 <= i < |bs| - 1 ==> bs[i].props != bs[i + 1].props;
    ok := manager.CheckState();
  }

  ghost predicate AllCounted(bs: seq<Block>) {
    forall i {:trigger bs[i]} :: 0 <= i < |bs| ==> bs[i].props.Counted()
  }

  /** An update leaves everything counted that was counted before, so that CheckState still passes. */
  lemma UpdateKeepsCounts(bs: seq<Block>, t: seq<Block>, st: int, nd: int, lo: int, hi: int, state: bv32, perm: bv8, attr: set<Attribute>)
    requires Partition(bs, st, nd) && Partition(t, st, nd) && attr !! COUNTED && AllCounted(bs)
    requires forall x {:trigger PropsAt(t, x)} :: st <= x < nd ==> PropsAt(t, x) == Changed(bs, lo, hi, state, perm, attr, x)
    ensures AllCounted(t)
  {
    forall i {:trigger t[i]} | 0 <= i < |t| ensures t[i].props.Counted() {
      var x := t[i].address;
      InSpan(t, st, nd, i);
      PropsAtIndex(t, st, nd, x, i);
      var k := Located(bs, st, nd, x);
      PropsAtIndex(bs, st, nd, x, k);
      HasIsUpdated(bs[k].props, state, perm, attr);
    }
  }
}
