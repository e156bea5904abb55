/** The free memory of several heaps together with the pages that have been taken from them, on values. */
module PoolTracking {
  import opened Alignments
  import opened FreeBlocks
  import opened PageHeaps
  import opened PageGroups

  datatype Region = Region(lo: int, hi: int)

  /** The address lies in one of the pages. */
  ghost predicate Held(g: seq<int>, x: int) {
    exists k {:trigger g[k]} :: 0 <= k < |g| && Within(x, g[k], g[k] + PAGE_SIZE)
  }

  ghost predicate NoRepeats(g: seq<int>) {
    forall i, j {:trigger g[i], g[j]} :: 0 <= i < j < |g| ==> g[i] != g[j]
  }

  /** The range lies in one of the regions. */
  ghost predicate Inside<M>(r: map<M, Region>, a: int, size: int) {
    exists m {:trigger r[m]} :: m in r && r[m].lo <= a && a + size <= r[m].hi
  }

  /** The heaps `v0` have become the heaps `v` by giving away the pages `g`, each of which lies in one region. */
  ghost predicate Tracked<M>(v0: map<M, Blocks>, v: map<M, Blocks>, r: map<M, Region>, g: seq<int>) {
    && v0.Keys == v.Keys == r.Keys && NoRepeats(g)
    && (forall k {:trigger g[k]} :: 0 <= k < |g| ==> g[k] % PAGE_SIZE == 0 && Inside(r, g[k], PAGE_SIZE))
    && (forall m, x {:trigger IsFree(v0[m], x)} {:trigger IsFree(v[m], x)} :: m in v ==>
          (IsFree(v0[m], x) <==> (IsFree(v[m], x) || (Held(g, x) && Within(x, r[m].lo, r[m].hi)))))
    && (forall m, x {:trigger IsFree(v[m], x)} :: m in v && IsFree(v[m], x) ==> !Held(g, x))
    && (forall m, x {:trigger IsFree(v[m], x)} :: m in v && IsFree(v[m], x) ==> Within(x, r[m].lo, r[m].hi))
  }

  lemma TrackedKeys<M>(v0: map<M, Blocks>, v: map<M, Blocks>, r: map<M, Region>, g: seq<int>)
    requires Tracked(v0, v, r, g)
    ensures v0.Keys == v.Keys == r.Keys
  {
  }

  /** The regions of two heaps have nothing in common. */
  ghost predicate Separate<M>(r: map<M, Region>) {
    forall a, b {:trigger r[a], r[b]} :: a in r && b in r && a != b ==> r[a].hi <= r[b].lo || r[b].hi <= r[a].lo
  }

  /** They do not even touch. */
  ghost predicate Apart<M>(r: map<M, Region>) {
    forall a, b {:trigger r[a], r[b]} :: a in r && b in r && a != b ==> r[a].hi < r[b].lo || r[b].hi < r[a].lo
  }

  lemma RunHeld(g: seq<int>, a: int, n: nat, x: int)
    ensures Held(g + Run(a, n), x) <==> Held(g, x) || Within(x, a, a + n * PAGE_SIZE)
    ensures Held(Run(a, n) + g, x) <==> Held(g, x) || Within(x, a, a + n * PAGE_SIZE)
  {
    RunCovers(a, n, x);
    HeldJoin(g, Run(a, n), x);
    HeldJoin(Run(a, n), g, x);
  }

  lemma HeldJoin(g: seq<int>, h: seq<int>, x: int)
    ensures Held(g + h, x) <==> Held(g, x) || Held(h, x)
  {
    var s := g + h;
    if Held(s, x) {
      var k :| 0 <= k < |s| && Within(x, s[k], s[k] + PAGE_SIZE);
      assert if k < |g| then s[k] == g[k] else s[k] == h[k - |g|];
    }
    if Held(g, x) {
      var k :| 0 <= k < |g| && Within(x, g[k], g[k] + PAGE_SIZE);
      assert s[k] == g[k];
    }
    if Held(h, x) {
      var k :| 0 <= k < |h| && Within(x, h[k], h[k] + PAGE_SIZE);
      assert s[|g| + k] == h[k];
    }
  }

  lemma RunCovers(a: int, n: nat, x: int)
    ensures Held(Run(a, n), x) <==> Within(x, a, a + n * PAGE_SIZE)
  {
    var g := Run(a, n);
    if Within(x, a, a + n * PAGE_SIZE) {
      var k := (x - a) / PAGE_SIZE;
      assert g[k] == a + k * PAGE_SIZE;
    }
  }

  /** One more block is taken from a heap. */
  lemma Taken<M>(v0: map<M, Blocks>, v: map<M, Blocks>, r: map<M, Region>, g: seq<int>, m: M, f: Blocks, a: int, n: nat)
    requires Tracked(v0, v, r, g) && Separate(r) && m in v && a % PAGE_SIZE == 0
    requires r[m].lo <= a && a + n * PAGE_SIZE <= r[m].hi
    requires SameFree(f, a, a + n * PAGE_SIZE, v[m], 0, 0) && NoneFree(f, a, a + n * PAGE_SIZE)
    ensures Tracked(v0, v[m := f], r, g + Run(a, n))
  {
    var w, h, b := v[m := f], g + Run(a, n), a + n * PAGE_SIZE;
    forall k, x {:trigger IsFree(v0[k], x)} {:trigger IsFree(w[k], x)} | k in w
      ensures IsFree(v0[k], x) <==> (IsFree(w[k], x) || (Held(h, x) && Within(x, r[k].lo, r[k].hi)))
    {
      RunHeld(g, a, n, x);
      assert IsFree(v0[k], x) <==> (IsFree(v[k], x) || (Held(g, x) && Within(x, r[k].lo, r[k].hi)));
      var rs := (r[k], r[m]);
    }
    forall k, x {:trigger IsFree(w[k], x)} | k in w && IsFree(w[k], x) ensures !Held(h, x) && Within(x, r[k].lo, r[k].hi) {
      RunHeld(g, a, n, x);
      assert IsFree(v[k], x);
      var rs := (r[k], r[m]);
    }
    forall k {:trigger h[k]} | 0 <= k < |h| ensures h[k] % PAGE_SIZE == 0 && Inside(r, h[k], PAGE_SIZE) {
      assert k < |g| ==> h[k] == g[k];
      var there := r[m];
    }
    forall i, j {:trigger h[i], h[j]} | 0 <= i < j < |h| ensures h[i] != h[j] {
      if i < |g| <= j {
        assert h[i] == g[i] && Held(g, g[i]);
        assert Within(h[j], a, b);
        assert !Held(g, h[j]) by { FreeBefore(v, f, m, g, a, b, h[j], v0, r); }
      }
    }
  }

  lemma FreeBefore<M>(v: map<M, Blocks>, f: Blocks, m: M, g: seq<int>, a: int, b: int, x: int, v0: map<M, Blocks>, r: map<M, Region>)
    requires Tracked(v0, v, r, g) && m in v && Within(x, a, b) && SameFree(f, a, b, v[m], 0, 0)
    ensures IsFree(v[m], x) && !Held(g, x)
  {
  }

  /** A run of pages that was taken from a heap is given back. */
  lemma GivenBack<M>(v0: map<M, Blocks>, v: map<M, Blocks>, r: map<M, Region>, g: seq<int>, m: M, f: Blocks, a: int, n: nat)
    requires Tracked(v0, v, r, Run(a, n) + g) && Separate(r) && m in v
    requires r[m].lo <= a && a + n * PAGE_SIZE <= r[m].hi && SameFree(v[m], a, a + n * PAGE_SIZE, f, 0, 0)
    ensures Tracked(v0, v[m := f], r, g)
  {
    var w, h, b := v[m := f], Run(a, n) + g, a + n * PAGE_SIZE;
    forall i {:trigger g[i]} | 0 <= i < |g| ensures g[i] == h[n + i] {
    }
    forall x | Within(x, a, b) ensures !Held(g, x) {
      NotTwice(h, a, n, g, x);
    }
    forall k, x {:trigger IsFree(v0[k], x)} {:trigger IsFree(w[k], x)} | k in w
      ensures IsFree(v0[k], x) <==> (IsFree(w[k], x) || (Held(g, x) && Within(x, r[k].lo, r[k].hi)))
    {
      RunHeld(g, a, n, x);
      assert IsFree(v0[k], x) <==> (IsFree(v[k], x) || (Held(h, x) && Within(x, r[k].lo, r[k].hi)));
      var rs := (r[k], r[m]);
    }
    forall k, x {:trigger IsFree(w[k], x)} | k in w && IsFree(w[k], x) ensures !Held(g, x) && Within(x, r[k].lo, r[k].hi) {
      RunHeld(g, a, n, x);
      assert IsFree(v[k], x) || Within(x, a, b);
    }
  }

  /** The order in which pages are listed does not matter. */
  lemma Reordered<M>(v0: map<M, Blocks>, v: map<M, Blocks>, r: map<M, Region>, g: seq<int>, a: seq<int>, h: seq<int>)
    requires Tracked(v0, v, r, g + (a + h))
    ensures Tracked(v0, v, r, a + (g + h))
  {
    var s, t := g + (a + h), a + (g + h);
    forall i {:trigger t[i]} | 0 <= i < |t| ensures t[i] == s[Moved(g, a, i)] {
    }
    forall i, j {:trigger t[i], t[j]} | 0 <= i < j < |t| ensures t[i] != t[j] {
      assert t[i] == s[Moved(g, a, i)] && t[j] == s[Moved(g, a, j)];
    }
    forall x {:trigger Held(s, x)} {:trigger Held(t, x)} ensures Held(s, x) <==> Held(t, x) {
      HeldJoin(g, a + h, x);
      HeldJoin(a, h, x);
      HeldJoin(a, g + h, x);
      HeldJoin(g, h, x);
    }
  }

  /** Where the page listed as number `i` was before the pages `a` were listed first. */
  function Moved(g: seq<int>, a: seq<int>, i: int): int {
    if i < |a| then |g| + i else if i < |a| + |g| then i - |a| else i
  }

  /** The number of pages of a run in the region that its address lies in. */
  ghost function Kept<M>(r: map<M, Region>, b: BlockInfo): nat
  {
    if exists m :: m in r && Within(b.address, r[m].lo, r[m].hi) then
      var m :| m in r && Within(b.address, r[m].lo, r[m].hi);
      var n := (r[m].hi - b.address) / PAGE_SIZE;
      if b.numPages < n then b.numPages else n
    else 0
  }

  lemma KeptIs<M>(r: map<M, Region>, b: BlockInfo, m: M)
    requires Separate(r) && m in r && Within(b.address, r[m].lo, r[m].hi)
    ensures Kept(r, b) == if b.numPages < (r[m].hi - b.address) / PAGE_SIZE then b.numPages else (r[m].hi - b.address) / PAGE_SIZE
    ensures r[m].lo <= b.address && b.address + Kept(r, b) * PAGE_SIZE <= r[m].hi && Kept(r, b) <= b.numPages
  {
    var k :| k in r && Within(b.address, r[k].lo, r[k].hi);
    var rs := (r[k], r[m]);
  }

  /** The pages of the runs that lie beyond the region that their run starts in. */
  ghost function Lost<M>(r: map<M, Region>, bs: seq<BlockInfo>): seq<int> {
    if bs == [] then [] else Rest(r, bs[0]) + Lost(r, bs[1..])
  }

  ghost function Rest<M>(r: map<M, Region>, b: BlockInfo): seq<int> {
    Run(b.address + Kept(r, b) * PAGE_SIZE, if b.numPages > Kept(r, b) then b.numPages - Kept(r, b) else 0)
  }

  lemma {:induction false} LostAppend<M>(r: map<M, Region>, a: seq<BlockInfo>, b: BlockInfo)
    ensures Lost(r, a + [b]) == Lost(r, a) + Rest(r, b)
  {
    if a == [] {
      assert a + [b] == [b] && [b][1..] == [];
    } else {
      assert (a + [b])[1..] == a[1..] + [b];
      LostAppend(r, a[1..], b);
    }
  }

  /** Every run lies in one region. */
  ghost predicate AllInOne<M>(r: map<M, Region>, bs: seq<BlockInfo>) {
    forall i {:trigger bs[i]} :: 0 <= i < |bs| ==> Inside(r, bs[i].address, bs[i].numPages * PAGE_SIZE)
  }

  ghost predicate NonEmpty(bs: seq<BlockInfo>) {
    forall i {:trigger bs[i]} :: 0 <= i < |bs| ==> bs[i].numPages > 0
  }

  /** Every run starts with a page that lies in a region. */
  ghost predicate Located<M>(r: map<M, Region>, bs: seq<BlockInfo>) {
    forall i {:trigger bs[i]} :: 0 <= i < |bs| ==> bs[i].address % PAGE_SIZE == 0 && Inside(r, bs[i].address, PAGE_SIZE)
  }

  lemma RunKept<M>(r: map<M, Region>, b: BlockInfo)
    requires Separate(r) && b.numPages > 0 && Inside(r, b.address, PAGE_SIZE)
    ensures Rest(r, b) == [] <==> Inside(r, b.address, b.numPages * PAGE_SIZE)
  {
    var m :| m in r && r[m].lo <= b.address && b.address + PAGE_SIZE <= r[m].hi;
    KeptIs(r, b, m);
    if Inside(r, b.address, b.numPages * PAGE_SIZE) {
      var k :| k in r && r[k].lo <= b.address && b.address + b.numPages * PAGE_SIZE <= r[k].hi;
      var rs := (r[k], r[m]);
    }
  }

  /** Nothing is lost exactly when every run lies in one region. */
  lemma {:induction false} NothingLost<M>(r: map<M, Region>, bs: seq<BlockInfo>)
    requires Separate(r) && NonEmpty(bs) && Located(r, bs)
    ensures Lost(r, bs) == [] <==> AllInOne(r, bs)
  {
    if bs != [] {
      var tail := bs[1..];
      RunKept(r, bs[0]);
      NothingLost(r, tail);
      if AllInOne(r, bs) {
        forall i {:trigger tail[i]} | 0 <= i < |tail| ensures Inside(r, tail[i].address, tail[i].numPages * PAGE_SIZE) {
          assert tail[i] == bs[i + 1];
        }
      }
      if AllInOne(r, tail) && Rest(r, bs[0]) == [] {
        forall i {:trigger bs[i]} | 0 <= i < |bs| ensures Inside(r, bs[i].address, bs[i].numPages * PAGE_SIZE) {
          assert i > 0 ==> bs[i] == tail[i - 1];
        }
      }
    }
  }

  /** Something that is still held makes a difference. */
  lemma StillHeld<M>(v0: map<M, Blocks>, v: map<M, Blocks>, r: map<M, Region>, g: seq<int>)
    requires Tracked(v0, v, r, g) && g != []
    ensures v != v0
  {
    var p := g[0];
    var m :| m in r && r[m].lo <= p && p + PAGE_SIZE <= r[m].hi;
    assert Held(g, p) && Within(p, r[m].lo, r[m].hi);
    var before, after := IsFree(v0[m], p), IsFree(v[m], p);
  }

  lemma {:induction false} PageOfRun(bs: seq<BlockInfo>, i: nat, k: nat)
    requires i < |bs| && k < bs[i].numPages
    ensures bs[i].address + k * PAGE_SIZE in Flatten(bs)
  {
    var first := Run(bs[0].address, bs[0].numPages);
    if i == 0 {
      assert first[k] == bs[i].address + k * PAGE_SIZE && Flatten(bs)[k] == first[k];
    } else {
      PageOfRun(bs[1..], i - 1, k);
    }
  }

  lemma RunsLocated<M>(v0: map<M, Blocks>, v: map<M, Blocks>, r: map<M, Region>, bs: seq<BlockInfo>)
    requires Tracked(v0, v, r, Flatten(bs)) && NonEmpty(bs)
    ensures Located(r, bs)
  {
    forall i {:trigger bs[i]} | 0 <= i < |bs| ensures bs[i].address % PAGE_SIZE == 0 && Inside(r, bs[i].address, PAGE_SIZE) {
      PageOfRun(bs, i, 0);
    }
  }

  /** Between regions that do not touch, runs of pages do not cross. */
  lemma ApartInOne<M>(v0: map<M, Blocks>, v: map<M, Blocks>, r: map<M, Region>, bs: seq<BlockInfo>)
    requires Tracked(v0, v, r, Flatten(bs)) && NonEmpty(bs) && Apart(r)
    ensures AllInOne(r, bs)
  {
    forall i {:trigger bs[i]} | 0 <= i < |bs| ensures Inside(r, bs[i].address, bs[i].numPages * PAGE_SIZE) {
      NoCrossing(v0, v, r, bs, i, bs[i].numPages);
    }
  }

  lemma {:induction false} NoCrossing<M>(v0: map<M, Blocks>, v: map<M, Blocks>, r: map<M, Region>, bs: seq<BlockInfo>, i: nat, n: nat)
    requires Tracked(v0, v, r, Flatten(bs)) && Apart(r) && i < |bs| && 0 < n <= bs[i].numPages
    ensures Inside(r, bs[i].address, n * PAGE_SIZE)
  {
    hide Held, IsFree, Flatten;
    var a := bs[i].address;
    PageOfRun(bs, i, n - 1);
    assert Inside(r, a + (n - 1) * PAGE_SIZE, PAGE_SIZE);
    if n > 1 {
      NoCrossing(v0, v, r, bs, i, n - 1);
      var m :| m in r && r[m].lo <= a && a + (n - 1) * PAGE_SIZE <= r[m].hi;
      var l :| l in r && r[l].lo <= a + (n - 1) * PAGE_SIZE && a + (n - 1) * PAGE_SIZE + PAGE_SIZE <= r[l].hi;
      var rs := (r[l], r[m]);
    }
  }

  /** Pages do not overlap, so an address in a run is not in another page of the list. */
  lemma NotTwice(h: seq<int>, a: int, n: nat, g: seq<int>, x: int)
    requires h == Run(a, n) + g && NoRepeats(h) && Within(x, a, a + n * PAGE_SIZE)
    requires forall k {:trigger h[k]} :: 0 <= k < |h| ==> h[k] % PAGE_SIZE == 0
    ensures !Held(g, x)
  {
    var k := (x - a) / PAGE_SIZE;
    assert h[k] == a + k * PAGE_SIZE && Within(x, h[k], h[k] + PAGE_SIZE);
    forall j {:trigger g[j]} | 0 <= j < |g| ensures !Within(x, g[j], g[j] + PAGE_SIZE) {
      assert h[n + j] == g[j] && h[k] != h[n + j];
    }
  }

  /** Nothing taken, nothing changed. */
  lemma AllBack<M>(v0: map<M, Blocks>, v: map<M, Blocks>, r: map<M, Region>)
    requires Tracked(v0, v, r, [])
    requires forall m {:trigger v[m]} {:trigger v0[m]} :: m in v ==> HeapOk(v[m], r[m].lo, r[m].hi) && HeapOk(v0[m], r[m].lo, r[m].hi)
    ensures v == v0
  {
    forall m | m in v ensures v[m] == v0[m] {
      forall x {:trigger IsFree(v[m], x)} {:trigger IsFree(v0[m], x)} ensures IsFree(v[m], x) <==> IsFree(v0[m], x) {
        assert !Held([], x);
      }
      HeapsDetermined(v[m], v0[m], r[m].lo, r[m].hi);
    }
  }

  /** The free pages of all heaps. */
  ghost function PoolPages<M>(v: map<M, Blocks>, r: map<M, Region>): set<int>
    requires v.Keys == r.Keys
  {
    set m, k | m in v && 0 <= k < (r[m].hi - r[m].lo) / PAGE_SIZE && IsFree(v[m], PageNo(r[m].lo, k)) :: PageNo(r[m].lo, k)
  }

  /** When no heap has anything left, all that was free has been taken. */
  lemma NothingLeft<M>(v0: map<M, Blocks>, v: map<M, Blocks>, r: map<M, Region>, g: seq<int>)
    requires Tracked(v0, v, r, g) && forall m, x {:trigger IsFree(v[m], x)} :: m in v ==> !IsFree(v[m], x)
    requires forall m {:trigger r[m]} :: m in r ==> r[m].lo % PAGE_SIZE == 0
    ensures |PoolPages(v0, r)| <= |g|
  {
    hide PageNo, Held;
    var s := set p | p in g;
    forall p | p in PoolPages(v0, r) ensures p in s {
      var m, k :| m in v0 && 0 <= k < (r[m].hi - r[m].lo) / PAGE_SIZE && IsFree(v0[m], PageNo(r[m].lo, k)) && p == PageNo(r[m].lo, k);
      assert !IsFree(v[m], p);
      PageNoAligned(r[m].lo, k);
      PageHeld(g, p);
    }
    SetNotLarger(PoolPages(v0, r), s);
    SeqNotSmaller(g);
  }

  lemma PageNoAligned(lo: int, k: int)
    requires lo % PAGE_SIZE == 0
    ensures PageNo(lo, k) % PAGE_SIZE == 0
  {
  }

  lemma PageHeld(g: seq<int>, p: int)
    requires p % PAGE_SIZE == 0 && Held(g, p) && forall k {:trigger g[k]} :: 0 <= k < |g| ==> g[k] % PAGE_SIZE == 0
    ensures p in g
  {
    var j :| 0 <= j < |g| && Within(p, g[j], g[j] + PAGE_SIZE);
  }

  lemma {:induction false} SetNotLarger(a: set<int>, b: set<int>)
    requires a <= b
    ensures |a| <= |b|
    decreases |a|
  {
    SomeMember(a);
    if a != {} {
      var x :| x in a;
      SetNotLarger(a - {x}, b - {x});
    }
  }

  lemma {:induction false} SeqNotSmaller(g: seq<int>)
    ensures |set p | p in g| <= |g|
  {
    var s := set p | p in g;
    if g == [] {
      assert s == {};
    } else {
      var n := |g| - 1;
      var h := g[..n];
      SeqNotSmaller(h);
      assert g == h + [g[n]];
      assert s == (set p | p in h) + {g[n]};
    }
  }
}

/** Allocation of pages from the heaps of a pool. */
module MemoryManagers {
  import opened Alignments
  import opened BlockSizes
  import opened FreeBlocks
  import opened PageHeaps
  import opened PageGroups
  import opened PoolTracking

  datatype Result = Success | OutOfMemory | OutOfResource

  const WORD_BITS: int := 64

  /** A manager: a heap, and the bitmap of the pages that the optimized process has never had. */
  class Impl {
    const heap: KPageHeap
    var optimizeMap: seq<set<int>>

    constructor (h: KPageHeap, words: nat)
      ensures heap == h && |optimizeMap| == words
    {
      heap := h;
      optimizeMap := seq(words, i => {});
    }

    ghost function GetRegion(): Region {
      Region(heap.heapAddress, heap.heapAddress + heap.heapSize)
    }

    /** The map has a bit for every page of the heap. */
    ghost predicate MapFits()
      reads this
    {
      heap.heapSize <= |optimizeMap| * WORD_BITS * PAGE_SIZE
    }

    /** Clear the bits of the pages that have been allocated, and no others. */
    method TrackAllocationForOptimizedProcess(block: int, numPages: nat)
      requires numPages > 0 && heap.heapAddress % PAGE_SIZE == 0 && block % PAGE_SIZE == 0 && MapFits()
      requires heap.heapAddress <= block && block + numPages * PAGE_SIZE <= heap.EndAddress()
      modifies `optimizeMap
      ensures |optimizeMap| == |old(optimizeMap)|
      ensures forall k {:trigger Bit(optimizeMap, k)} ::
                Bit(optimizeMap, k) <==> Bit(old(optimizeMap), k) && !(block <= heap.heapAddress + k * PAGE_SIZE < block + numPages * PAGE_SIZE)
    {
      var offset := (block - heap.heapAddress) / PAGE_SIZE;
      ghost var start := offset;
      var last := offset + numPages - 1;
      while offset <= last
        invariant start <= offset <= last + 1 && |optimizeMap| == |old(optimizeMap)|
        invariant forall k {:trigger Bit(optimizeMap, k)} :: Bit(optimizeMap, k) <==> Bit(old(optimizeMap), k) && !(start <= k < offset)
      {
        ghost var was := optimizeMap;
        optimizeMap := optimizeMap[offset / WORD_BITS := optimizeMap[offset / WORD_BITS] - {offset % WORD_BITS}];
        forall k {:trigger Bit(optimizeMap, k)} ensures Bit(optimizeMap, k) <==> Bit(was, k) && k != offset {
          SameBit(k, offset);
        }
        offset := offset + 1;
      }
    }
  }

  /** The bitmaps of the managers of a pool. */
  ghost function Maps(pool: seq<Impl>): map<Impl, seq<set<int>>>
    reads pool
  {
    map m | m in pool :: m.optimizeMap
  }

  /** Page `k` of a region is one of the pages `g`. */
  ghost predicate IsPageIn(g: seq<int>, r: Region, k: int) {
    Within(r.lo + k * PAGE_SIZE, r.lo, r.hi) && Held(g, r.lo + k * PAGE_SIZE)
  }

  /** In the bitmaps `maps`, exactly the bits of the pages `g` have been cleared since they were `maps0`. */
  ghost predicate Cleared<M>(maps0: map<M, seq<set<int>>>, maps: map<M, seq<set<int>>>, r: map<M, Region>, g: seq<int>) {
    && maps0.Keys == maps.Keys == r.Keys
    && forall m, k {:trigger Bit(maps[m], k)} :: m in maps ==> (Bit(maps[m], k) <==> Bit(maps0[m], k) && !IsPageIn(g, r[m], k))
  }

  /** Exactly the bits of the pages `g` have been cleared, if pages are tracked at all. */
  ghost predicate Marked(pool: seq<Impl>, maps0: map<Impl, seq<set<int>>>, optimize: bool, g: seq<int>)
    reads pool
  {
    if optimize then Cleared(maps0, Maps(pool), Regions(pool), g) else Maps(pool) == maps0
  }

  lemma NothingMarked(pool: seq<Impl>, optimize: bool)
    ensures Marked(pool, Maps(pool), optimize, [])
  {
  }

  /** The bits of one more run, in the region of manager `m`. */
  lemma ClearedMore<M>(maps0: map<M, seq<set<int>>>, maps: map<M, seq<set<int>>>, r: map<M, Region>, g: seq<int>, m: M, bits: seq<set<int>>, a: int, n: nat)
    requires Cleared(maps0, maps, r, g) && Separate(r) && m in r && r[m].lo <= a && a + n * PAGE_SIZE <= r[m].hi
    requires forall k {:trigger Bit(bits, k)} :: Bit(bits, k) <==> Bit(maps[m], k) && !(a <= r[m].lo + k * PAGE_SIZE < a + n * PAGE_SIZE)
    ensures Cleared(maps0, maps[m := bits], r, g + Run(a, n))
  {
    hide Bit, Held, Run;
    var maps', h := maps[m := bits], g + Run(a, n);
    forall l, k {:trigger Bit(maps'[l], k)} | l in maps' ensures Bit(maps'[l], k) <==> Bit(maps0[l], k) && !IsPageIn(h, r[l], k) {
      RunHeld(g, a, n, r[l].lo + k * PAGE_SIZE);
      assert Bit(maps[l], k) <==> Bit(maps0[l], k) && !IsPageIn(g, r[l], k);
      var rs := (r[l], r[m]);
    }
  }

  lemma SameBit(a: int, b: int)
    ensures a == b <==> a / WORD_BITS == b / WORD_BITS && a % WORD_BITS == b % WORD_BITS
  {
  }

  /** Bit `k` of a bitmap of words. */
  predicate Bit(map': seq<set<int>>, k: int) {
    0 <= k < |map'| * WORD_BITS && k % WORD_BITS in map'[k / WORD_BITS]
  }

  /** The smallest block size that holds so many pages, aligned so; -1 if there is none. */
  function GetAlignedBlockIndex(numPages: int, alignPages: int): (i: int)
    ensures i >= 0 ==> i < NUM_SIZES && numPages * PAGE_SIZE <= BlockSize(i) && alignPages * PAGE_SIZE <= BlockSize(i)
    ensures i > 0 ==> BlockSize(i - 1) < numPages * PAGE_SIZE || BlockSize(i - 1) < alignPages * PAGE_SIZE
    ensures i < 0 <==> BlockSize(NUM_SIZES - 1) < numPages * PAGE_SIZE || BlockSize(NUM_SIZES - 1) < alignPages * PAGE_SIZE
  {
    var target := if numPages < alignPages then alignPages else numPages;
    if target <= BlockSize(0) / PAGE_SIZE then 0 else if target <= BlockSize(1) / PAGE_SIZE then 1
    else if target <= BlockSize(2) / PAGE_SIZE then 2 else if target <= BlockSize(3) / PAGE_SIZE then 3
    else if target <= BlockSize(4) / PAGE_SIZE then 4 else if target <= BlockSize(5) / PAGE_SIZE then 5
    else if target <= BlockSize(6) / PAGE_SIZE then 6 else -1
  }

  /** The largest block size that so many pages fill; -1 if there is none. */
  function GetBlockIndex(numPages: int): (i: int)
    ensures -1 <= i < NUM_SIZES
    ensures i < 0 <==> numPages <= 0
    ensures i >= 0 ==> BlockSize(i) <= numPages * PAGE_SIZE && (i + 1 < NUM_SIZES ==> numPages * PAGE_SIZE < BlockSize(i + 1))
  {
    if numPages >= BlockSize(6) / PAGE_SIZE then 6 else if numPages >= BlockSize(5) / PAGE_SIZE then 5
    else if numPages >= BlockSize(4) / PAGE_SIZE then 4 else if numPages >= BlockSize(3) / PAGE_SIZE then 3
    else if numPages >= BlockSize(2) / PAGE_SIZE then 2 else if numPages >= BlockSize(1) / PAGE_SIZE then 1
    else if numPages >= BlockSize(0) / PAGE_SIZE then 0 else -1
  }

  ghost function Heaps(pool: seq<Impl>): (hs: set<KPageHeap>)
    ensures forall m {:trigger m.heap} :: m in pool ==> m.heap in hs
  {
    set m | m in pool :: m.heap
  }

  /** What is free in every heap of the pool. */
  ghost function Snapshot(pool: seq<Impl>): map<Impl, Blocks>
    reads set m | m in pool :: m.heap
    requires forall m :: m in pool ==> m.heap.Shaped()
  {
    map m | m in pool :: m.heap.FreeBlocks()
  }

  ghost function Regions(pool: seq<Impl>): map<Impl, Region> {
    map m | m in pool :: m.GetRegion()
  }

  /** The managers of a pool have heaps of their own, which have no memory in common. */
  ghost predicate PoolLaidOut(pool: seq<Impl>) {
    && (forall i, j {:trigger pool[i], pool[j]} :: 0 <= i < j < |pool| ==> pool[i] != pool[j])
    && (forall m {:trigger m.heap} :: m in pool ==> m.heap.heapSize >= 0 && m.heap.heapSize % PAGE_SIZE == 0)
    && (forall a, b {:trigger a.heap, b.heap} :: a in pool && b in pool && a != b ==> a.heap != b.heap)
    && Separate(Regions(pool))
  }

  ghost predicate PoolOk(pool: seq<Impl>)
    reads set m | m in pool :: m.heap, pool
  {
    && PoolLaidOut(pool)
    && forall m {:trigger m.heap} {:trigger m.MapFits()} :: m in pool ==> m.heap.Valid() && m.MapFits()
  }

  lemma SnapshotIs(pool: seq<Impl>, was: map<Impl, Blocks>, m: Impl)
    requires (forall k :: k in pool ==> k.heap.Shaped()) && m in pool && was.Keys == (set k | k in pool)
    requires forall k {:trigger was[k]} :: k in pool && k != m ==> k.heap.FreeBlocks() == was[k]
    ensures Snapshot(pool) == was[m := m.heap.FreeBlocks()]
  {
  }

  /** Taking nothing. */
  lemma NothingTaken(pool: seq<Impl>)
    requires PoolOk(pool)
    ensures Tracked(Snapshot(pool), Snapshot(pool), Regions(pool), Flatten([]))
  {
    var v := Snapshot(pool);
    forall m, x {:trigger IsFree(v[m], x)} | m in v && IsFree(v[m], x) ensures Within(x, Regions(pool)[m].lo, Regions(pool)[m].hi) {
      var i, b :| InBlock(v[m], i, b, x);
    }
  }

  lemma WholePages(i: nat, a: int)
    requires i < NUM_SIZES && Aligned(a, i)
    ensures a % PAGE_SIZE == 0 && BlockSize(i) / PAGE_SIZE * PAGE_SIZE == BlockSize(i) && BlockSize(i) / PAGE_SIZE > 0
  {
    AlignedBelow(a, i, 0);
    AlignedBelow(0, i, 0);
  }

  lemma WholeBlock(i: nat)
    requires i < NUM_SIZES
    ensures BlockSize(i) / PAGE_SIZE * PAGE_SIZE == BlockSize(i) && BlockSize(i) / PAGE_SIZE > 0
  {
    WholePages(i, 0);
  }

  /** What is freed again after it has been taken leaves the heap as it was. */
  lemma BackAgain(f: Blocks, f1: Blocks, f2: Blocks, lo: int, hi: int, a: int, b: int)
    requires HeapOk(f, lo, hi) && HeapOk(f2, lo, hi) && SameFree(f1, a, b, f, 0, 0) && SameFree(f1, a, b, f2, 0, 0)
    ensures f2 == f
  {
    HeapsDetermined(f2, f, lo, hi);
  }

  /** Take one block from a manager and put it into the group; 0 if that fails. */
  method TakeBlock(pool: seq<Impl>, m: Impl, index: nat, out: KPageGroup, ghost v0: map<Impl, Blocks>) returns (block: int, r: Result)
    requires PoolOk(pool) && m in pool && index < NUM_SIZES && NonEmpty(out.blocks)
    requires Tracked(v0, Snapshot(pool), Regions(pool), Flatten(out.blocks))
    modifies out, m.heap`blocks
    ensures PoolOk(pool) && NonEmpty(out.blocks) && Tracked(v0, Snapshot(pool), Regions(pool), Flatten(out.blocks))
    ensures BlockSize(index) / PAGE_SIZE >= 0
    ensures block != 0 ==> Flatten(out.blocks) == Flatten(old(out.blocks)) + Run(block, BlockSize(index) / PAGE_SIZE)
    ensures block == 0 ==> Snapshot(pool) == old(Snapshot(pool)) && out.blocks == old(out.blocks)
    ensures Shrunk(old(m.heap.FreeBlocks()), m.heap.FreeBlocks())
    ensures r != OutOfMemory
    ensures block == 0 && r == Success ==> forall b :: Aligned(b, index) ==> !AllFree(m.heap.FreeBlocks(), b, b + BlockSize(index))
    ensures block != 0 ==>
              && r == Success && Aligned(block, index)
              && m.heap.heapAddress <= block && block + BlockSize(index) <= m.heap.EndAddress()
  {
    hide Tracked, HeapOk, IsFree, Aligned, BlockSize, SameFree, NoneFree, AllFree, PoolLaidOut, Flatten,
         KPageHeap.Shaped, KPageHeap.FreeBlocks, Shrunk, Separate, NonEmpty;
    ghost var v, f := Snapshot(pool), m.heap.FreeBlocks();
    HeapsApart(pool, m);
    NotShrunk(f);
    block := m.heap.AllocateBlock(index);
    SnapshotIs(pool, v, m);
    if block == 0 {
      assert Snapshot(pool) == v;
      return 0, Success;
    }
    ghost var bs, f1 := out.blocks, m.heap.FreeBlocks();
    LessFree(f1, block, block + BlockSize(index), f);
    var added := AddOrFree(m.heap, index, block, out, f);
    SnapshotIs(pool, v, m);
    if !added {
      assert Snapshot(pool) == v;
      return 0, OutOfResource;
    }
    WholePages(index, block);
    TakenBlock(pool, v0, v, bs, out.blocks, m, f1, block, index);
    return block, Success;
  }

  lemma LessFree(f: Blocks, lo: int, hi: int, g: Blocks)
    requires SameFree(f, lo, hi, g, 0, 0)
    ensures Shrunk(g, f)
  {
  }

  lemma TakenBlock(pool: seq<Impl>, v0: map<Impl, Blocks>, v: map<Impl, Blocks>, bs: seq<BlockInfo>, bs': seq<BlockInfo>, m: Impl, f: Blocks, a: int, i: nat)
    requires PoolLaidOut(pool) && NonEmpty(bs) && Tracked(v0, v, Regions(pool), Flatten(bs)) && m in pool && i < NUM_SIZES && Aligned(a, i)
    requires m.heap.heapAddress <= a && a + BlockSize(i) <= m.heap.EndAddress()
    requires SameFree(f, a, a + BlockSize(i), v[m], 0, 0) && NoneFree(f, a, a + BlockSize(i))
    requires BlockSize(i) / PAGE_SIZE >= 0 && bs' == Appended(bs, a, BlockSize(i) / PAGE_SIZE) && Flatten(bs') == Flatten(bs) + Run(a, BlockSize(i) / PAGE_SIZE)
    ensures NonEmpty(bs') && Tracked(v0, v[m := f], Regions(pool), Flatten(bs'))
  {
    hide Tracked, Aligned, BlockSize, SameFree, NoneFree, Flatten;
    var n := BlockSize(i) / PAGE_SIZE;
    WholePages(i, a);
    assert a + n * PAGE_SIZE == a + BlockSize(i);
    var r := Regions(pool)[m];
    TrackedKeys(v0, v, Regions(pool), Flatten(bs));
    Taken(v0, v, Regions(pool), Flatten(bs), m, f, a, n);
  }

  /** Add a block that has just been taken to the group; free it again if that fails. */
  method AddOrFree(heap: KPageHeap, index: nat, block: int, out: KPageGroup, ghost f: Blocks) returns (added: bool)
    requires heap.Valid() && index < NUM_SIZES && Aligned(block, index) && heap.heapAddress <= block && block + BlockSize(index) <= heap.EndAddress()
    requires HeapOk(f, heap.heapAddress, heap.EndAddress())
    requires NoneFree(heap.FreeBlocks(), block, block + BlockSize(index)) && SameFree(heap.FreeBlocks(), block, block + BlockSize(index), f, 0, 0)
    modifies out, heap`blocks
    ensures heap.Valid() && heap.FreeBlocks() == if added then old(heap.FreeBlocks()) else f
    ensures if added
            then out.blocks == Appended(old(out.blocks), block, BlockSize(index) / PAGE_SIZE)
                 && Flatten(out.blocks) == old(Flatten(out.blocks)) + Run(block, BlockSize(index) / PAGE_SIZE)
            else out.blocks == old(out.blocks)
  {
    hide HeapOk, IsFree, Aligned, BlockSize, SameFree, NoneFree, Flatten, KPageHeap.Shaped, KPageHeap.FreeBlocks;
    var pages: nat := BlockSize(index) / PAGE_SIZE;
    WholePages(index, block);
    ghost var f1 := heap.FreeBlocks();
    added := out.AddBlock(block, pages);
    if !added {
      heap.Free(block, pages);
      BackAgain(f, f1, heap.FreeBlocks(), heap.heapAddress, heap.EndAddress(), block, block + BlockSize(index));
    }
  }

  /** Tracking does not touch the heaps. */
  method TrackAllocation(pool: seq<Impl>, m: Impl, block: int, numPages: nat)
    requires PoolOk(pool) && m in pool && numPages > 0 && block % PAGE_SIZE == 0
    requires m.heap.heapAddress <= block && block + numPages * PAGE_SIZE <= m.heap.EndAddress()
    modifies m`optimizeMap
    ensures PoolOk(pool) && Snapshot(pool) == old(Snapshot(pool))
    ensures Maps(pool) == old(Maps(pool))[m := m.optimizeMap]
    ensures forall k {:trigger Bit(m.optimizeMap, k)} ::
              Bit(m.optimizeMap, k) <==> Bit(old(m.optimizeMap), k) && !(block <= m.heap.heapAddress + k * PAGE_SIZE < block + numPages * PAGE_SIZE)
  {
    hide HeapOk, PoolLaidOut, KPageHeap.FreeBlocks, Bit;
    ghost var v := Snapshot(pool);
    assert m.heap.Shaped();
    m.TrackAllocationForOptimizedProcess(block, numPages);
    SnapshotIs(pool, v, m);
    assert Snapshot(pool) == v;
  }

  /** Keep track of a block that has just been taken. */
  method TrackBlock(pool: seq<Impl>, m: Impl, block: int, numPages: nat, ghost maps0: map<Impl, seq<set<int>>>, ghost g: seq<int>)
    requires PoolOk(pool) && m in pool && numPages > 0 && block % PAGE_SIZE == 0 && Marked(pool, maps0, true, g)
    requires m.heap.heapAddress <= block && block + numPages * PAGE_SIZE <= m.heap.EndAddress()
    modifies m`optimizeMap
    ensures PoolOk(pool) && Snapshot(pool) == old(Snapshot(pool)) && Marked(pool, maps0, true, g + Run(block, numPages))
    ensures m.heap.FreeBlocks() == old(m.heap.FreeBlocks())
  {
    hide HeapOk, PoolLaidOut, KPageHeap.FreeBlocks, KPageHeap.Shaped, Bit, Cleared, Held, Run;
    ghost var maps := Maps(pool);
    HeapsApart(pool, m);
    TrackAllocation(pool, m, block, numPages);
    ClearedMore(maps0, maps, Regions(pool), g, m, m.optimizeMap, block, numPages);
  }

  lemma HeapsApart(pool: seq<Impl>, m: Impl)
    requires PoolLaidOut(pool) && m in pool
    ensures Separate(Regions(pool)) && forall k {:trigger k.heap} :: k in pool && k != m ==> k.heap != m.heap
  {
  }

  /** Between two steps of a group allocation: the group has what the heaps have lost. */
  ghost predicate Allocating(pool: seq<Impl>, out: KPageGroup, v0: map<Impl, Blocks>,
                             maps0: map<Impl, seq<set<int>>>, optimize: bool, remaining: int, numPages: int)
    reads set m | m in pool :: m.heap, pool, out
  {
    && PoolOk(pool) && NonEmpty(out.blocks) && Tracked(v0, Snapshot(pool), Regions(pool), Flatten(out.blocks))
    && Marked(pool, maps0, optimize, Flatten(out.blocks))
    && |Flatten(out.blocks)| + remaining == numPages && remaining >= 0
  }

  /** No block of the size can be had. */
  ghost predicate Exhausted(f: Blocks, index: nat)
    requires index < NUM_SIZES
  {
    forall b {:trigger Aligned(b, index)} :: Aligned(b, index) ==> !AllFree(f, b, b + BlockSize(index))
  }

  function Visited(pool: seq<Impl>, fromBack: bool, j: nat): Impl
    requires j < |pool|
  {
    if fromBack then pool[|pool| - 1 - j] else pool[j]
  }

  ghost predicate Shrunk(f: Blocks, f': Blocks) {
    forall x {:trigger IsFree(f', x)} :: IsFree(f', x) ==> IsFree(f, x)
  }

  /** A manager has given pages only if those that are asked before it have no block of size `h` left. */
  ghost predicate InTurn(pool: seq<Impl>, fromBack: bool, v0: map<Impl, Blocks>, v: map<Impl, Blocks>, h: nat)
    requires h < NUM_SIZES
  {
    && (forall m :: m in pool ==> m in v && m in v0)
    && forall j, k {:trigger pool[j], pool[k]} :: 0 <= j < |pool| && 0 <= k < |pool| && (if fromBack then j > k else j < k) ==>
         v[pool[k]] != v0[pool[k]] ==> Exhausted(v[pool[j]], h)
  }

  /** The managers asked before number `j` have no block of the size left. */
  ghost predicate ExhaustedBefore(pool: seq<Impl>, fromBack: bool, v: map<Impl, Blocks>, j: nat, i: nat)
    requires i < NUM_SIZES && j <= |pool|
  {
    forall k {:trigger Visited(pool, fromBack, k)} :: 0 <= k < j ==> Visited(pool, fromBack, k) in v && Exhausted(v[Visited(pool, fromBack, k)], i)
  }

  lemma NotShrunk(f: Blocks)
    ensures Shrunk(f, f)
  {
  }

  lemma ShrunkMore(f: Blocks, f1: Blocks, f2: Blocks)
    requires Shrunk(f, f1) && Shrunk(f1, f2)
    ensures Shrunk(f, f2)
  {
  }

  lemma StaysExhausted(f: Blocks, f': Blocks, i: nat)
    requires i < NUM_SIZES && Exhausted(f, i) && Shrunk(f, f')
    ensures Exhausted(f', i)
  {
    hide IsFree, Aligned, BlockSize;
    forall b {:trigger Aligned(b, i)} | Aligned(b, i) ensures !AllFree(f', b, b + BlockSize(i)) {
      var x :| b <= x < b + BlockSize(i) && !IsFree(f, x);
      assert !IsFree(f', x);
    }
  }

  /** What has no block of a size has none of a larger one. */
  lemma NoLargerEither(f: Blocks, i: nat, h: nat)
    requires i <= h < NUM_SIZES && Exhausted(f, i)
    ensures Exhausted(f, h)
  {
    hide IsFree;
    forall b {:trigger Aligned(b, h)} | Aligned(b, h) ensures !AllFree(f, b, b + BlockSize(h)) {
      AlignedBelow(b, h, i);
      assert Aligned(b, i) && BlockSize(i) <= BlockSize(h);
      var x :| b <= x < b + BlockSize(i) && !IsFree(f, x);
    }
  }

  /** Manager number `j`, asked next for blocks of size `i`, has given some of them only after all before it had none left. */
  lemma KeepsTurn(pool: seq<Impl>, fromBack: bool, v0: map<Impl, Blocks>, v: map<Impl, Blocks>, j: nat, f: Blocks, i: nat, h: nat)
    requires PoolLaidOut(pool) && i <= h < NUM_SIZES && j < |pool| && InTurn(pool, fromBack, v0, v, h)
    requires Shrunk(v[Visited(pool, fromBack, j)], f)
    requires f != v[Visited(pool, fromBack, j)] ==> ExhaustedBefore(pool, fromBack, v, j, i)
    ensures InTurn(pool, fromBack, v0, v[Visited(pool, fromBack, j) := f], h)
  {
    hide Exhausted, Shrunk, Separate;
    var m := Visited(pool, fromBack, j);
    var v' := v[m := f];
    forall a, b {:trigger pool[a], pool[b]}
      | 0 <= a < |pool| && 0 <= b < |pool| && (if fromBack then a > b else a < b) && v'[pool[b]] != v0[pool[b]]
      ensures Exhausted(v'[pool[a]], h)
    {
      if v[pool[b]] == v0[pool[b]] {
        assert pool[b] == m && pool[a] == Visited(pool, fromBack, if fromBack then |pool| - 1 - a else a);
        NoLargerEither(v[pool[a]], i, h);
      }
      assert Exhausted(v[pool[a]], h);
      if pool[a] == m {
        StaysExhausted(v[pool[a]], f, h);
      }
    }
  }

  lemma OneMoreExhausted(pool: seq<Impl>, fromBack: bool, v: map<Impl, Blocks>, j: nat, f: Blocks, i: nat)
    requires PoolLaidOut(pool) && i < NUM_SIZES && j < |pool| && ExhaustedBefore(pool, fromBack, v, j, i) && Exhausted(f, i)
    ensures ExhaustedBefore(pool, fromBack, v[Visited(pool, fromBack, j) := f], j + 1, i)
  {
    hide Exhausted, Separate;
  }

  /** Take blocks of one size from one manager until there are none, or fewer pages are needed. */
  method DrainManager(pool: seq<Impl>, m: Impl, index: nat, out: KPageGroup, optimize: bool,
                      ghost v0: map<Impl, Blocks>, ghost maps0: map<Impl, seq<set<int>>>, remaining: int, ghost numPages: int)
    returns (remaining': int, r: Result)
    requires Allocating(pool, out, v0, maps0, optimize, remaining, numPages) && m in pool && index < NUM_SIZES
    modifies out, m.heap`blocks, m`optimizeMap
    ensures Allocating(pool, out, v0, maps0, optimize, remaining', numPages) && r != OutOfMemory && remaining' <= remaining
    ensures r == Success ==> remaining' < BlockSize(index) / PAGE_SIZE || Exhausted(m.heap.FreeBlocks(), index)
    ensures Shrunk(old(m.heap.FreeBlocks()), m.heap.FreeBlocks())
    ensures remaining < BlockSize(index) / PAGE_SIZE ==> m.heap.FreeBlocks() == old(m.heap.FreeBlocks())
  {
    hide Tracked, HeapOk, IsFree, Aligned, BlockSize, AllFree, PoolLaidOut, Flatten, KPageHeap.Shaped, KPageHeap.FreeBlocks, Cleared, Maps, Shrunk;
    ghost var f0 := m.heap.FreeBlocks();
    NotShrunk(f0);
    remaining', r := remaining, Success;
    var pagesPerAlloc := BlockSize(index) / PAGE_SIZE;
    WholeBlock(index);
    while remaining' >= pagesPerAlloc
      invariant Allocating(pool, out, v0, maps0, optimize, remaining', numPages) && r == Success && remaining' <= remaining
      invariant Shrunk(f0, m.heap.FreeBlocks()) && (remaining < pagesPerAlloc ==> m.heap.FreeBlocks() == f0)
      decreases remaining'
    {
      var block;
      ghost var f := m.heap.FreeBlocks();
      ghost var g := Flatten(out.blocks);
      block, r := TakeBlock(pool, m, index, out, v0);
      ShrunkMore(f0, f, m.heap.FreeBlocks());
      if block == 0 {
        return;
      }
      if optimize {
        WholePages(index, block);
        TrackBlock(pool, m, block, pagesPerAlloc, maps0, g);
      }
      remaining' := remaining' - pagesPerAlloc;
    }
  }

  /** The allocation loops: from the largest useful block size down, from one manager to the next. */
  method TakePages(pool: seq<Impl>, fromBack: bool, heapIndex: nat, out: KPageGroup, optimize: bool,
                   ghost v0: map<Impl, Blocks>, ghost maps0: map<Impl, seq<set<int>>>, numPages: nat)
    returns (remaining: int, r: Result)
    requires Allocating(pool, out, v0, maps0, optimize, numPages, numPages) && heapIndex < NUM_SIZES && v0 == Snapshot(pool)
    modifies out, Heaps(pool)`blocks, pool`optimizeMap
    ensures Allocating(pool, out, v0, maps0, optimize, remaining, numPages) && r != OutOfMemory
    ensures InTurn(pool, fromBack, v0, Snapshot(pool), heapIndex)
    ensures r == Success && remaining > 0 ==> forall m {:trigger m.heap} :: m in pool ==> Exhausted(m.heap.FreeBlocks(), 0)
  {
    hide Tracked, HeapOk, IsFree, Aligned, BlockSize, AllFree, PoolLaidOut, Flatten, KPageHeap.Shaped, KPageHeap.FreeBlocks;
    remaining, r := numPages, Success;
    NobodyGave(pool, fromBack, v0, heapIndex);
    var index: int := heapIndex;
    while index >= 0 && remaining > 0
      invariant -1 <= index <= heapIndex && Allocating(pool, out, v0, maps0, optimize, remaining, numPages) && r == Success
      invariant InTurn(pool, fromBack, v0, Snapshot(pool), heapIndex)
      invariant index < 0 && remaining > 0 ==> forall m {:trigger m.heap} :: m in pool ==> Exhausted(m.heap.FreeBlocks(), 0)
    {
      remaining, r := TakePagesOfSize(pool, fromBack, index, out, optimize, v0, maps0, remaining, numPages, heapIndex);
      if r != Success {
        return;
      }
      index := index - 1;
    }
  }

  lemma NobodyGave(pool: seq<Impl>, fromBack: bool, v: map<Impl, Blocks>, h: nat)
    requires h < NUM_SIZES && forall m :: m in pool ==> m in v
    ensures InTurn(pool, fromBack, v, v, h)
  {
  }

  /** Take blocks of one size from the manager that is asked next. */
  method AskManager(pool: seq<Impl>, fromBack: bool, j: nat, index: nat, out: KPageGroup, optimize: bool,
                    ghost v0: map<Impl, Blocks>, ghost maps0: map<Impl, seq<set<int>>>, remaining: int, ghost numPages: nat, ghost h: nat)
    returns (remaining': int, r: Result)
    requires Allocating(pool, out, v0, maps0, optimize, remaining, numPages) && index <= h < NUM_SIZES && j < |pool|
    requires InTurn(pool, fromBack, v0, Snapshot(pool), h)
    requires remaining >= BlockSize(index) / PAGE_SIZE ==> ExhaustedBefore(pool, fromBack, Snapshot(pool), j, index)
    modifies out, Heaps(pool)`blocks, pool`optimizeMap
    ensures Allocating(pool, out, v0, maps0, optimize, remaining', numPages) && r != OutOfMemory
    ensures InTurn(pool, fromBack, v0, Snapshot(pool), h)
    ensures r == Success && remaining' >= BlockSize(index) / PAGE_SIZE ==> ExhaustedBefore(pool, fromBack, Snapshot(pool), j + 1, index)
  {
    hide Tracked, HeapOk, IsFree, Aligned, AllFree, Flatten, KPageHeap.Shaped, KPageHeap.FreeBlocks, Separate, Exhausted, Shrunk, InTurn, ExhaustedBefore,
         BlockSize, PoolLaidOut, Marked, NonEmpty;
    var m := Visited(pool, fromBack, j);
    HeapsApart(pool, m);
    ghost var v := Snapshot(pool);
    remaining', r := DrainManager(pool, m, index, out, optimize, v0, maps0, remaining, numPages);
    SnapshotIs(pool, v, m);
    KeepsTurn(pool, fromBack, v0, v, j, m.heap.FreeBlocks(), index, h);
    if r == Success && remaining' >= BlockSize(index) / PAGE_SIZE {
      OneMoreExhausted(pool, fromBack, v, j, m.heap.FreeBlocks(), index);
    }
  }

  /** The inner loop, for blocks of one size. */
  method TakePagesOfSize(pool: seq<Impl>, fromBack: bool, index: nat, out: KPageGroup, optimize: bool,
                         ghost v0: map<Impl, Blocks>, ghost maps0: map<Impl, seq<set<int>>>, remaining: int, ghost numPages: nat, ghost h: nat)
    returns (remaining': int, r: Result)
    requires Allocating(pool, out, v0, maps0, optimize, remaining, numPages) && index <= h < NUM_SIZES
    requires InTurn(pool, fromBack, v0, Snapshot(pool), h)
    modifies out, Heaps(pool)`blocks, pool`optimizeMap
    ensures Allocating(pool, out, v0, maps0, optimize, remaining', numPages) && r != OutOfMemory
    ensures InTurn(pool, fromBack, v0, Snapshot(pool), h)
    ensures r == Success && index == 0 && remaining' > 0 ==> forall m {:trigger m.heap} :: m in pool ==> Exhausted(m.heap.FreeBlocks(), 0)
  {
    hide Tracked, HeapOk, IsFree, Aligned, AllFree, Flatten, KPageHeap.Shaped, KPageHeap.FreeBlocks, Separate, Exhausted, Shrunk, InTurn, ExhaustedBefore,
         BlockSize, PoolLaidOut;
    remaining', r := remaining, Success;
    var j: nat := 0;
    NoneBefore(pool, fromBack, Snapshot(pool), index);
    SmallestIsPage();
    while j < |pool|
      invariant j <= |pool| && Allocating(pool, out, v0, maps0, optimize, remaining', numPages) && r == Success
      invariant InTurn(pool, fromBack, v0, Snapshot(pool), h)
      invariant remaining' >= BlockSize(index) / PAGE_SIZE ==> ExhaustedBefore(pool, fromBack, Snapshot(pool), j, index)
    {
      remaining', r := AskManager(pool, fromBack, j, index, out, optimize, v0, maps0, remaining', numPages, h);
      if r != Success {
        return;
      }
      j := j + 1;
    }
    if index == 0 && remaining' > 0 {
      AllExhausted(pool, fromBack, Snapshot(pool), 0);
    }
  }

  lemma NoneBefore(pool: seq<Impl>, fromBack: bool, v: map<Impl, Blocks>, i: nat)
    requires i < NUM_SIZES
    ensures ExhaustedBefore(pool, fromBack, v, 0, i)
  {
  }

  lemma SmallestIsPage()
    ensures BlockSize(0) / PAGE_SIZE == 1
  {
  }

  lemma AllExhausted(pool: seq<Impl>, fromBack: bool, v: map<Impl, Blocks>, i: nat)
    requires i < NUM_SIZES && ExhaustedBefore(pool, fromBack, v, |pool|, i)
    ensures forall m :: m in pool ==> m in v && Exhausted(v[m], i)
  {
    hide Exhausted;
    forall m | m in pool ensures m in v && Exhausted(v[m], i) {
      var k :| 0 <= k < |pool| && pool[k] == m;
      assert m == Visited(pool, fromBack, if fromBack then |pool| - 1 - k else k);
    }
  }

  /** The manager whose region an address lies in. */
  method GetManager(pool: seq<Impl>, address: int) returns (m: Impl)
    requires exists k :: k in pool && k.heap.heapAddress <= address < k.heap.EndAddress()
    ensures m in pool && m.heap.heapAddress <= address < m.heap.EndAddress()
  {
    ghost var k :| k in pool && k.heap.heapAddress <= address < k.heap.EndAddress();
    ghost var j :| 0 <= j < |pool| && pool[j] == k;
    var i := 0;
    while !(pool[i].heap.heapAddress <= address < pool[i].heap.EndAddress())
      invariant 0 <= i <= j
      decreases j - i
    {
      i := i + 1;
    }
    m := pool[i];
  }

  /** Free one run of a group after the other. */
  method FreeRuns(pool: seq<Impl>, out: KPageGroup, ghost v0: map<Impl, Blocks>)
    requires PoolOk(pool) && Located(Regions(pool), out.blocks) && Tracked(v0, Snapshot(pool), Regions(pool), Flatten(out.blocks))
    modifies Heaps(pool)`blocks
    ensures PoolOk(pool) && Tracked(v0, Snapshot(pool), Regions(pool), Lost(Regions(pool), out.blocks))
  {
    hide Tracked, HeapOk, IsFree, Flatten, Lost, KPageHeap.Shaped, KPageHeap.FreeBlocks, PoolLaidOut;
    var i := 0;
    ghost var bs := out.blocks;
    NoRunsYet(Regions(pool), bs);
    while i < |out.blocks|
      invariant 0 <= i <= |bs| && PoolOk(pool)
      invariant Tracked(v0, Snapshot(pool), Regions(pool), Lost(Regions(pool), bs[..i]) + Flatten(bs[i..]))
    {
      FreeRun(pool, out.blocks[i], v0, bs, i);
      i := i + 1;
    }
    NoMoreRuns(Regions(pool), bs);
  }

  lemma NoRunsYet(r: map<Impl, Region>, bs: seq<BlockInfo>)
    ensures Lost(r, bs[..0]) + Flatten(bs[0..]) == Flatten(bs)
  {
    assert bs[0..] == bs;
  }

  lemma NoMoreRuns(r: map<Impl, Region>, bs: seq<BlockInfo>)
    ensures Lost(r, bs[..|bs|]) + Flatten(bs[|bs|..]) == Lost(r, bs)
  {
    assert bs[..|bs|] == bs && bs[|bs|..] == [];
  }

  /** Free what a failed allocation has gathered. Of every run only the part in the region that it starts in is
      freed, so that the pool is as before exactly when every run lies in one region. */
  method Rollback(pool: seq<Impl>, out: KPageGroup, ghost v0: map<Impl, Blocks>)
    requires PoolOk(pool) && NonEmpty(out.blocks) && Tracked(v0, Snapshot(pool), Regions(pool), Flatten(out.blocks))
    requires forall m {:trigger v0[m]} :: m in v0 ==> m in pool && HeapOk(v0[m], m.heap.heapAddress, m.heap.EndAddress())
    modifies out, Heaps(pool)`blocks
    ensures PoolOk(pool) && out.blocks == []
    ensures Tracked(v0, Snapshot(pool), Regions(pool), Lost(Regions(pool), old(out.blocks)))
    ensures Snapshot(pool) == v0 <==> AllInOne(Regions(pool), old(out.blocks))
  {
    hide Tracked, HeapOk, IsFree, Flatten, Lost, AllInOne, KPageHeap.Shaped, KPageHeap.FreeBlocks, PoolLaidOut;
    ghost var bs := out.blocks;
    RunsLocated(v0, Snapshot(pool), Regions(pool), bs);
    FreeRuns(pool, out, v0);
    RegionsSeparate(pool);
    NothingLost(Regions(pool), bs);
    RestoredIff(pool, v0, Lost(Regions(pool), bs));
    out.Finalize();
  }

  lemma RegionsSeparate(pool: seq<Impl>)
    requires PoolLaidOut(pool)
    ensures Separate(Regions(pool))
  {
  }

  lemma RestoredIff(pool: seq<Impl>, v0: map<Impl, Blocks>, g: seq<int>)
    requires PoolOk(pool) && Tracked(v0, Snapshot(pool), Regions(pool), g)
    requires forall m {:trigger v0[m]} :: m in v0 ==> m in pool && HeapOk(v0[m], m.heap.heapAddress, m.heap.EndAddress())
    ensures Snapshot(pool) == v0 <==> g == []
  {
    hide HeapOk, IsFree, KPageHeap.Shaped, KPageHeap.FreeBlocks, PoolLaidOut, Tracked;
    if g == [] {
      AllGivenBack(pool, v0);
    } else {
      StillHeld(v0, Snapshot(pool), Regions(pool), g);
    }
  }

  /** Free one run of the group, as far as it lies in the region of one manager. */
  method FreeRun(pool: seq<Impl>, b: BlockInfo, ghost v0: map<Impl, Blocks>, ghost bs: seq<BlockInfo>, ghost i: nat)
    requires PoolOk(pool) && Located(Regions(pool), bs) && i < |bs| && bs[i] == b
    requires Tracked(v0, Snapshot(pool), Regions(pool), Lost(Regions(pool), bs[..i]) + Flatten(bs[i..]))
    modifies Heaps(pool)`blocks
    ensures PoolOk(pool) && Tracked(v0, Snapshot(pool), Regions(pool), Lost(Regions(pool), bs[..i + 1]) + Flatten(bs[i + 1..]))
  {
    hide Tracked, HeapOk, IsFree, Flatten, Lost, Kept, RestOf, KPageHeap.Shaped, KPageHeap.FreeBlocks, PoolLaidOut;
    RunSplitsOff(v0, Snapshot(pool), Regions(pool), bs, i);
    RunInPool(pool, bs, i);
    assert bs[i].address % PAGE_SIZE == 0;
    var m := GetManager(pool, b.address);
    RegionsSeparate(pool);
    KeptIs(Regions(pool), b, m);
    var numPages := (m.heap.EndAddress() - b.address) / PAGE_SIZE;
    numPages := if b.numPages < numPages then b.numPages else numPages;
    FreeKept(pool, m, b.address, numPages, v0, RestOf(Regions(pool), bs, i));
    RunJoins(Regions(pool), bs, i);
  }

  /** Give back pages that all lie in the region of one manager. */
  method FreeKept(pool: seq<Impl>, m: Impl, address: int, numPages: nat, ghost v0: map<Impl, Blocks>, ghost g: seq<int>)
    requires PoolOk(pool) && m in pool && m.heap.heapAddress <= address && address + numPages * PAGE_SIZE <= m.heap.EndAddress()
    requires address % PAGE_SIZE == 0 && Tracked(v0, Snapshot(pool), Regions(pool), Run(address, numPages) + g)
    modifies m.heap`blocks
    ensures PoolOk(pool) && Tracked(v0, Snapshot(pool), Regions(pool), g)
  {
    hide Tracked, HeapOk, IsFree, KPageHeap.Shaped, KPageHeap.FreeBlocks, PoolLaidOut, SameFree, NoneFree, Run;
    ghost var v := Snapshot(pool);
    HeapsApart(pool, m);
    HeldNotFree(v0, v, Regions(pool), g, m, address, numPages);
    m.heap.Free(address, numPages);
    SnapshotIs(pool, v, m);
    GivenBack(v0, v, Regions(pool), g, m, m.heap.FreeBlocks(), address, numPages);
  }

  /** What is still held once run `i` has been freed. */
  ghost function RestOf(r: map<Impl, Region>, bs: seq<BlockInfo>, i: nat): seq<int>
    requires i < |bs|
  {
    Lost(r, bs[..i]) + (Rest(r, bs[i]) + Flatten(bs[i + 1..]))
  }

  /** The part of run `i` that is freed, and the rest. */
  lemma RunSplitsOff(v0: map<Impl, Blocks>, v: map<Impl, Blocks>, r: map<Impl, Region>, bs: seq<BlockInfo>, i: nat)
    requires i < |bs| && Tracked(v0, v, r, Lost(r, bs[..i]) + Flatten(bs[i..]))
    ensures Kept(r, bs[i]) <= bs[i].numPages
    ensures Tracked(v0, v, r, Run(bs[i].address, Kept(r, bs[i])) + RestOf(r, bs, i))
  {
    hide Tracked, Lost, Flatten, Kept, Run;
    KeptBound(r, bs[i]);
    var b, lost, k := bs[i], Lost(r, bs[..i]), Kept(r, bs[i]);
    assert bs[i..][1..] == bs[i + 1..];
    FlattenFirst(bs[i..]);
    RunSplit(b.address, k, b.numPages - k);
    var kept, rest, more := Run(b.address, k), Rest(r, b), Flatten(bs[i + 1..]);
    assert Flatten(bs[i..]) == kept + (rest + more);
    Reordered(v0, v, r, lost, kept, rest + more);
  }

  lemma KeptBound(r: map<Impl, Region>, b: BlockInfo)
    ensures Kept(r, b) <= b.numPages
  {
  }

  lemma RunJoins(r: map<Impl, Region>, bs: seq<BlockInfo>, i: nat)
    requires i < |bs|
    ensures RestOf(r, bs, i) == Lost(r, bs[..i + 1]) + Flatten(bs[i + 1..])
  {
    hide Lost, Rest, Flatten;
    assert bs[..i + 1] == bs[..i] + [bs[i]];
    LostAppend(r, bs[..i], bs[i]);
  }

  /** A run starts in the region of some manager. */
  lemma RunInPool(pool: seq<Impl>, bs: seq<BlockInfo>, i: nat)
    requires Located(Regions(pool), bs) && i < |bs|
    ensures exists k :: k in pool && k.heap.heapAddress <= bs[i].address < k.heap.EndAddress()
  {
    assert Inside(Regions(pool), bs[i].address, PAGE_SIZE);
  }

  lemma FlattenFirst(bs: seq<BlockInfo>)
    requires bs != []
    ensures Flatten(bs) == Run(bs[0].address, bs[0].numPages) + Flatten(bs[1..])
  {
  }

  lemma HeldNotFree(v0: map<Impl, Blocks>, v: map<Impl, Blocks>, r: map<Impl, Region>, g: seq<int>, m: Impl, a: int, n: nat)
    requires Tracked(v0, v, r, Run(a, n) + g) && m in v
    ensures NoneFree(v[m], a, a + n * PAGE_SIZE) && (n > 0 ==> a % PAGE_SIZE == 0)
  {
    var h := Run(a, n) + g;
    if n > 0 {
      assert h[0] == a;
    }
    forall x {:trigger IsFree(v[m], x)} | a <= x < a + n * PAGE_SIZE ensures !IsFree(v[m], x) {
      RunHeld(g, a, n, x);
    }
  }

  lemma AllGivenBack(pool: seq<Impl>, v0: map<Impl, Blocks>)
    requires PoolOk(pool) && Tracked(v0, Snapshot(pool), Regions(pool), [])
    requires forall m {:trigger v0[m]} :: m in v0 ==> m in pool && HeapOk(v0[m], m.heap.heapAddress, m.heap.EndAddress())
    ensures Snapshot(pool) == v0
  {
    hide HeapOk, IsFree, KPageHeap.Shaped, KPageHeap.FreeBlocks, PoolLaidOut;
    AllBack(v0, Snapshot(pool), Regions(pool));
  }

  /** Gather so many pages from the pool; `runs` are those gathered when the allocation succeeded or failed. */
  method AllocatePageGroupImpl(out: KPageGroup, numPages: nat, pool: seq<Impl>, fromBack: bool, optimize: bool)
    returns (r: Result, ghost runs: seq<BlockInfo>)
    requires PoolOk(pool) && out.blocks == []
    modifies out, Heaps(pool)`blocks, pool`optimizeMap
    ensures PoolOk(pool) && (numPages == 0 ==> r == OutOfMemory)
    ensures r == Success ==> out.blocks == runs && |Flatten(runs)| == numPages && Tracked(old(Snapshot(pool)), Snapshot(pool), Regions(pool), Flatten(runs))
    ensures r == OutOfMemory && numPages > 0 ==> |PoolPages(old(Snapshot(pool)), Regions(pool))| < numPages
    // A manager has given pages only if those asked before it have none of the largest blocks left that are asked for.
    ensures r == Success ==> numPages > 0 && InTurn(pool, fromBack, old(Snapshot(pool)), Snapshot(pool), GetBlockIndex(numPages))
    // After a failure the pages beyond the region that their run starts in are lost, and nothing else.
    ensures r != Success ==> out.blocks == [] && Tracked(old(Snapshot(pool)), Snapshot(pool), Regions(pool), Lost(Regions(pool), runs))
    ensures r != Success ==> (Snapshot(pool) == old(Snapshot(pool)) <==> AllInOne(Regions(pool), runs))
    ensures Apart(Regions(pool)) ==> AllInOne(Regions(pool), runs)
    // All pages gathered were free pages of the pool. Their bits have been cleared, and stay so after a failure.
    ensures FreePages(old(Snapshot(pool)), Flatten(runs)) && Marked(pool, old(Maps(pool)), optimize, Flatten(runs))
  {
    hide Tracked, HeapOk, IsFree, Flatten, Lost, AllInOne, KPageHeap.Shaped, KPageHeap.FreeBlocks, PoolLaidOut, Exhausted, PoolPages, Apart, FreePages, InTurn, NonEmpty;
    ghost var v0, maps0 := Snapshot(pool), Maps(pool);
    NothingTaken(pool);
    NothingAllocated(pool, out, v0, optimize, numPages);
    var heapIndex := GetBlockIndex(numPages);
    if heapIndex < 0 {
      runs := [];
      GatheredFrom(pool, v0, v0, runs);
      NothingGathered(Regions(pool));
      return OutOfMemory, runs;
    }
    var remaining;
    remaining, r := TakePages(pool, fromBack, heapIndex, out, optimize, v0, maps0, numPages);
    if r == Success && remaining > 0 {
      AllTaken(pool, v0, out.blocks);
      r := OutOfMemory;
    }
    runs := out.blocks;
    GatheredFrom(pool, v0, Snapshot(pool), runs);
    if r != Success {
      Rollback(pool, out, v0);
    }
  }

  lemma NothingGathered(r: map<Impl, Region>)
    ensures Flatten([]) == [] && Lost(r, []) == [] && AllInOne(r, [])
  {
  }

  /** Every one of the pages was free in one of the heaps. */
  ghost predicate FreePages<M>(v0: map<M, Blocks>, g: seq<int>) {
    forall k {:trigger g[k]} :: 0 <= k < |g| ==> FreePage(v0, g[k])
  }

  ghost predicate FreePage<M>(v0: map<M, Blocks>, p: int) {
    exists m {:trigger v0[m]} :: m in v0 && AllFree(v0[m], p, p + PAGE_SIZE)
  }

  lemma GatheredFrom(pool: seq<Impl>, v0: map<Impl, Blocks>, v: map<Impl, Blocks>, bs: seq<BlockInfo>)
    requires Tracked(v0, v, Regions(pool), Flatten(bs)) && NonEmpty(bs)
    ensures FreePages(v0, Flatten(bs))
    ensures Apart(Regions(pool)) ==> AllInOne(Regions(pool), bs)
  {
    TrackedWereFree(v0, v, Regions(pool), Flatten(bs));
    if Apart(Regions(pool)) {
      ApartInOne(v0, v, Regions(pool), bs);
    }
  }

  lemma TrackedWereFree<M>(v0: map<M, Blocks>, v: map<M, Blocks>, r: map<M, Region>, g: seq<int>)
    requires Tracked(v0, v, r, g)
    ensures FreePages(v0, g)
  {
    forall k {:trigger g[k]} | 0 <= k < |g| ensures FreePage(v0, g[k]) {
      assert Inside(r, g[k], PAGE_SIZE);
      var m :| m in r && r[m].lo <= g[k] && g[k] + PAGE_SIZE <= r[m].hi;
      forall x {:trigger IsFree(v0[m], x)} | g[k] <= x < g[k] + PAGE_SIZE ensures IsFree(v0[m], x) {
        assert Held(g, x) && Within(x, r[m].lo, r[m].hi);
      }
      assert AllFree(v0[m], g[k], g[k] + PAGE_SIZE);
    }
  }

  lemma NothingAllocated(pool: seq<Impl>, out: KPageGroup, v0: map<Impl, Blocks>, optimize: bool, numPages: nat)
    requires PoolOk(pool) && out.blocks == [] && v0 == Snapshot(pool)
    ensures Allocating(pool, out, v0, Maps(pool), optimize, numPages, numPages)
    ensures forall m {:trigger v0[m]} :: m in v0 ==> m in pool && HeapOk(v0[m], m.heap.heapAddress, m.heap.EndAddress())
  {
    NothingTaken(pool);
    NothingMarked(pool, optimize);
  }

  /** When no manager has a page left, the pool never had more than what has been taken. */
  lemma AllTaken(pool: seq<Impl>, v0: map<Impl, Blocks>, bs: seq<BlockInfo>)
    requires PoolOk(pool) && Tracked(v0, Snapshot(pool), Regions(pool), Flatten(bs))
    requires forall m {:trigger m.heap} :: m in pool ==> Exhausted(m.heap.FreeBlocks(), 0)
    ensures |PoolPages(v0, Regions(pool))| <= |Flatten(bs)|
  {
    var v, r := Snapshot(pool), Regions(pool);
    forall m, x {:trigger IsFree(v[m], x)} | m in v ensures !IsFree(v[m], x) {
      assert Exhausted(m.heap.FreeBlocks(), 0);
      NoPageFree(v[m], m.heap.heapAddress, m.heap.EndAddress(), x);
    }
    NothingLeft(v0, v, r, Flatten(bs));
  }

  lemma NoPageFree(f: Blocks, lo: int, hi: int, x: int)
    requires HeapOk(f, lo, hi) && forall b {:trigger Aligned(b, 0)} :: Aligned(b, 0) ==> !AllFree(f, b, b + BlockSize(0))
    ensures !IsFree(f, x)
  {
    var p := Down(x, 0);
    var all := AllFree(f, p, p + BlockSize(0));
    if IsFree(f, x) {
      var i, b :| InBlock(f, i, b, x);
      AlignedBelow(b, i, 0);
      NotBetween(b, p, 0);
      AlignedNext(p, 0);
      NotBetween(p + BlockSize(0), b + BlockSize(i), 0);
      forall y {:trigger IsFree(f, y)} | p <= y < p + BlockSize(0) ensures IsFree(f, y) {
        assert InBlock(f, i, b, y);
      }
    }
  }

  /** The allocated range, no more, has left the free memory of the heap. */
  ghost predicate Taken1(f: Blocks, f': Blocks, a: int, n: int) {
    NoneFree(f', a, a + n * PAGE_SIZE) && SameFree(f', a, a + n * PAGE_SIZE, f, 0, 0)
  }

  /** Take a block from one manager and free what is not needed of its end; 0 if it has none. */
  method AllocateFrom(m: Impl, index: nat, numPages: nat) returns (address: int)
    requires m.heap.Valid() && index < NUM_SIZES && 0 < numPages * PAGE_SIZE <= BlockSize(index)
    modifies m.heap`blocks
    ensures m.heap.Valid()
    ensures address == 0 <==> Exhausted(old(m.heap.FreeBlocks()), index)
    ensures address == 0 ==> m.heap.FreeBlocks() == old(m.heap.FreeBlocks())
    ensures address != 0 ==>
              && Aligned(address, index) && m.heap.heapAddress <= address && address + numPages * PAGE_SIZE <= m.heap.EndAddress()
              && Taken1(old(m.heap.FreeBlocks()), m.heap.FreeBlocks(), address, numPages)
  {
    hide HeapOk, IsFree, Aligned, BlockSize, SameFree, NoneFree, AllFree, KPageHeap.Shaped, KPageHeap.FreeBlocks;
    ghost var f := m.heap.FreeBlocks();
    address := m.heap.AllocateBlock(index);
    if address != 0 {
      var allocatedPages := BlockSize(index) / PAGE_SIZE;
      WholePages(index, address);
      ghost var g := m.heap.FreeBlocks();
      var end := address + numPages * PAGE_SIZE;
      if allocatedPages > numPages {
        PartNone(g, address, address + BlockSize(index), end, address + BlockSize(index));
        m.heap.Free(end, allocatedPages - numPages);
        assert end + (allocatedPages - numPages) * PAGE_SIZE == address + BlockSize(index);
        CutOff(f, g, m.heap.FreeBlocks(), address, end, address + BlockSize(index));
      }
    }
  }

  /** The address is that of a suitably aligned range that the manager has given away. */
  ghost predicate GivenTo(m: Impl, f: Blocks, index: nat, address: int, numPages: int)
    requires m.heap.Shaped() && index < NUM_SIZES
    reads m.heap
  {
    && Aligned(address, index) && m.heap.heapAddress <= address && address + numPages * PAGE_SIZE <= m.heap.EndAddress()
    && Taken1(f, m.heap.FreeBlocks(), address, numPages)
  }

  /** Ask one manager. */
  method AllocateFromPool(pool: seq<Impl>, m: Impl, index: nat, numPages: nat) returns (address: int)
    requires PoolOk(pool) && m in pool && index < NUM_SIZES && 0 < numPages * PAGE_SIZE <= BlockSize(index)
    modifies m.heap`blocks
    ensures PoolOk(pool)
    ensures address == 0 <==> Exhausted(old(Snapshot(pool))[m], index)
    ensures address == 0 ==> Snapshot(pool) == old(Snapshot(pool))
    ensures address != 0 ==>
              && GivenTo(m, old(Snapshot(pool))[m], index, address, numPages)
              && Snapshot(pool) == old(Snapshot(pool))[m := m.heap.FreeBlocks()]
  {
    hide HeapOk, IsFree, BlockSize, Taken1, PoolLaidOut, KPageHeap.Shaped, KPageHeap.FreeBlocks, Exhausted, Aligned;
    ghost var v := Snapshot(pool);
    HeapsApart(pool, m);
    address := AllocateFrom(m, index, numPages);
    SnapshotIs(pool, v, m);
    assert address == 0 ==> Snapshot(pool) == v;
  }

  /** Ask one manager after the other. */
  method AllocateFirst(index: nat, numPages: nat, pool: seq<Impl>, fromBack: bool) returns (address: int, chosen: nat)
    requires PoolOk(pool) && index < NUM_SIZES && 0 < numPages * PAGE_SIZE <= BlockSize(index)
    modifies Heaps(pool)`blocks
    ensures PoolOk(pool)
    ensures address == 0 ==> Snapshot(pool) == old(Snapshot(pool))
    ensures address == 0 <==> forall m {:trigger m.heap} :: m in pool ==> Exhausted(old(Snapshot(pool))[m], index)
    ensures address != 0 ==> chosen < |pool| && GivenTo(pool[chosen], old(Snapshot(pool))[pool[chosen]], index, address, numPages)
    ensures address != 0 ==> Snapshot(pool) == old(Snapshot(pool))[pool[chosen] := pool[chosen].heap.FreeBlocks()]
    ensures address != 0 ==> forall k {:trigger pool[k]} :: 0 <= k < |pool| && (if fromBack then k > chosen else k < chosen) ==>
                               Exhausted(old(Snapshot(pool))[pool[k]], index)
  {
    hide HeapOk, IsFree, BlockSize, GivenTo, PoolLaidOut, KPageHeap.Shaped, KPageHeap.FreeBlocks, Exhausted, Aligned;
    address, chosen := 0, 0;
    ghost var v := Snapshot(pool);
    var j: nat := 0;
    while j < |pool|
      invariant j <= |pool| && PoolOk(pool) && Snapshot(pool) == v && address == 0
      invariant forall k {:trigger Visited(pool, fromBack, k)} :: 0 <= k < j ==> Exhausted(v[Visited(pool, fromBack, k)], index)
    {
      var m := Visited(pool, fromBack, j);
      address := AllocateFromPool(pool, m, index, numPages);
      if address != 0 {
        chosen := if fromBack then |pool| - 1 - j else j;
        forall k {:trigger pool[k]} | 0 <= k < |pool| && (if fromBack then k > chosen else k < chosen) ensures Exhausted(v[pool[k]], index) {
          assert pool[k] == Visited(pool, fromBack, if fromBack then |pool| - 1 - k else k);
        }
        return;
      }
      j := j + 1;
    }
    AllVisited(pool, fromBack, v, index);
  }

  lemma AllVisited(pool: seq<Impl>, fromBack: bool, v: map<Impl, Blocks>, index: nat)
    requires index < NUM_SIZES && (forall m :: m in pool ==> m in v)
    requires forall k {:trigger Visited(pool, fromBack, k)} :: 0 <= k < |pool| ==> Exhausted(v[Visited(pool, fromBack, k)], index)
    ensures forall m {:trigger m.heap} {:trigger v[m]} :: m in pool ==> Exhausted(v[m], index)
  {
    forall m {:trigger m.heap} {:trigger v[m]} | m in pool ensures Exhausted(v[m], index) {
      var i :| 0 <= i < |pool| && pool[i] == m;
      assert m == Visited(pool, fromBack, if fromBack then |pool| - 1 - i else i);
    }
  }

  /** Allocate contiguous pages from the first manager of the pool that can provide them. */
  method AllocateContinuous(numPages: nat, alignPages: nat, pool: seq<Impl>, fromBack: bool, optimize: bool) returns (address: int, chosen: nat)
    requires PoolOk(pool) && (numPages > 0 ==> GetAlignedBlockIndex(numPages, alignPages) >= 0)
    modifies Heaps(pool)`blocks, pool`optimizeMap
    ensures PoolOk(pool)
    ensures numPages == 0 ==> address == 0
    ensures address == 0 ==> Snapshot(pool) == old(Snapshot(pool))
    ensures numPages > 0 ==>
              (address == 0 <==> forall m {:trigger m.heap} :: m in pool ==> Exhausted(old(Snapshot(pool))[m], GetAlignedBlockIndex(numPages, alignPages)))
    ensures address != 0 ==>
              && numPages > 0 && chosen < |pool|
              && GivenTo(pool[chosen], old(Snapshot(pool))[pool[chosen]], GetAlignedBlockIndex(numPages, alignPages), address, numPages)
    ensures address != 0 ==> Snapshot(pool) == old(Snapshot(pool))[pool[chosen] := pool[chosen].heap.FreeBlocks()]
    // The managers that are asked before the chosen one have no such range.
    ensures address != 0 ==> forall k {:trigger pool[k]} :: 0 <= k < |pool| && (if fromBack then k > chosen else k < chosen) ==>
                               Exhausted(old(Snapshot(pool))[pool[k]], GetAlignedBlockIndex(numPages, alignPages))
    ensures Marked(pool, old(Maps(pool)), optimize, if address != 0 then Run(address, numPages) else [])
  {
    hide HeapOk, IsFree, BlockSize, Taken1, PoolLaidOut, KPageHeap.Shaped, KPageHeap.FreeBlocks, Exhausted, Aligned, Maps, Cleared, Run;
    ghost var maps0 := Maps(pool);
    NothingMarked(pool, optimize);
    if numPages == 0 {
      return 0, 0;
    }
    var index := GetAlignedBlockIndex(numPages, alignPages);
    address, chosen := AllocateFirst(index, numPages, pool, fromBack);
    if address != 0 && optimize {
      PageAligned(address, index);
      ghost var f, v := pool[chosen].heap.FreeBlocks(), Snapshot(pool);
      TrackBlock(pool, pool[chosen], address, numPages, maps0, []);
      assert [] + Run(address, numPages) == Run(address, numPages);
      assert pool[chosen].heap.FreeBlocks() == f && Snapshot(pool) == v;
    }
  }

  /** A manager of one page, which is free. */
  method OnePageManager(address: int) returns (m: Impl)
    requires address % PAGE_SIZE == 0 && address >= 0x4000_0000
    ensures fresh(m) && fresh(m.heap) && m.heap.Valid() && m.MapFits()
    ensures m.heap.heapAddress == address && m.heap.heapSize == PAGE_SIZE
    ensures forall x {:trigger IsFree(m.heap.FreeBlocks(), x)} :: IsFree(m.heap.FreeBlocks(), x) <==> address <= x < address + PAGE_SIZE
  {
    hide IsFree, HeapOk, KPageHeap.FreeBlocks, KPageHeap.Shaped;
    var heap := new KPageHeap(address, PAGE_SIZE);
    m := new Impl(heap, 1);
    heap.Free(address, 1);
  }

  /** Take the page of such a manager. */
  method TakeOnly(heap: KPageHeap) returns (address: int)
    requires heap.Valid() && heap.heapSize == PAGE_SIZE && heap.heapAddress % PAGE_SIZE == 0
    requires AllFree(heap.FreeBlocks(), heap.heapAddress, heap.heapAddress + PAGE_SIZE)
    modifies heap`blocks
    ensures heap.Valid() && address == heap.heapAddress
    ensures NoneFree(heap.FreeBlocks(), address, address + PAGE_SIZE) && SameFree(heap.FreeBlocks(), address, address + PAGE_SIZE, old(heap.FreeBlocks()), 0, 0)
  {
    hide IsFree, HeapOk, KPageHeap.FreeBlocks, KPageHeap.Shaped, AllFree, NoneFree, SameFree;
    OnePageAligned(heap.heapAddress);
    address := heap.AllocateBlock(0);
  }

  lemma OnePageAligned(a: int)
    requires a % PAGE_SIZE == 0
    ensures Aligned(a, 0) && BlockSize(0) == PAGE_SIZE
  {
  }

  lemma FreeAnySize(f: Blocks, x: int)
    ensures FreeUpTo(f, NUM_SIZES, x) <==> IsFree(f, x)
  {
  }

  /** How many pages of a heap of one page are free. */
  lemma OnePage(f: Blocks, a: int)
    ensures |Pages(f, a, a + PAGE_SIZE)| == if IsFree(f, a) then 1 else 0
  {
    hide IsFree, FreeUpTo;
    FreeAnySize(f, a);
    assert PageNo(a, 0) == a;
    assert Pages(f, a, a + PAGE_SIZE) == if IsFree(f, a) then {a} else {};
  }

  method CountPages(one: KPageHeap, other: KPageHeap) returns (count: nat)
    requires one.Valid() && other.Valid() && one.heapSize == PAGE_SIZE && other.heapSize == PAGE_SIZE
    ensures count == (if IsFree(one.FreeBlocks(), one.heapAddress) then 1 else 0) + (if IsFree(other.FreeBlocks(), other.heapAddress) then 1 else 0)
  {
    hide IsFree, HeapOk, KPageHeap.FreeBlocks, KPageHeap.Shaped, Pages;
    var m := one.GetNumFreePages();
    var n := other.GetNumFreePages();
    OnePage(one.FreeBlocks(), one.heapAddress);
    OnePage(other.FreeBlocks(), other.heapAddress);
    count := m + n;
  }

  lemma JoinedPages(a: int)
    requires a > 0
    ensures Appended(Appended([], a, 1), a + PAGE_SIZE, 1) == [BlockInfo(a, 2)]
    ensures Flatten([BlockInfo(a, 2)]) == [] + Run(a, 1) + Run(a + PAGE_SIZE, 1) && NonEmpty([BlockInfo(a, 2)])
  {
    hide Flatten, Run;
    assert Appended([], a, 1) == [BlockInfo(a, 1)];
    FlattenOne(BlockInfo(a, 2));
    RunSplit(a, 1, 1);
  }

  /** Of one run over two managers the second page is lost. */
  lemma SecondLost(a: int, r: map<Impl, Region>, m: Impl)
    requires m in r && r[m] == Region(a, a + PAGE_SIZE) && Separate(r)
    ensures Lost(r, [BlockInfo(a, 2)]) == Run(a + PAGE_SIZE, 1)
  {
    hide Kept, Run;
    var b := BlockInfo(a, 2);
    KeptIs(r, b, m);
    assert [b][1..] == [] && Lost(r, []) == [];
    assert Lost(r, [b]) == Rest(r, b) + [];
  }

  lemma ExampleEnds(v0: map<Impl, Blocks>, v: map<Impl, Blocks>, r: map<Impl, Region>, front: Impl, back: Impl, b: int)
    requires Tracked(v0, v, r, Run(b, 1)) && front in v && back in v && r[front] == Region(b - PAGE_SIZE, b)
    requires IsFree(v0[front], b - PAGE_SIZE)
    ensures IsFree(v[front], b - PAGE_SIZE) && !IsFree(v[back], b)
  {
    RunCovers(b, 1, b);
    RunCovers(b, 1, b - PAGE_SIZE);
    var before, after := IsFree(v0[front], b - PAGE_SIZE), IsFree(v[back], b);
  }

  lemma FlattenNothing()
    ensures Flatten([]) == []
  {
  }

  /** What the rollback loses: two managers of one page each, next to each other, of which both pages have been
      taken and have become one run. Only one of the two free pages is free again afterwards. */
  method RollbackExample() returns (before: nat, after: nat)
    ensures before == 2 && after == 1
  {
    hide Tracked, IsFree, HeapOk, KPageHeap.FreeBlocks, KPageHeap.Shaped, Flatten, Run, Lost, AllInOne, PoolOk, Appended;
    var pool := TwoManagers();
    var front, back := pool[0], pool[1];
    before := CountPages(front.heap, back.heap);
    ghost var v0 := Snapshot(pool);
    var out := TakeBoth(pool, v0);
    JoinedPages(0x4000_0000);
    SecondLost(0x4000_0000, Regions(pool), front);
    Rollback(pool, out, v0);
    PoolHeaps(pool);
    ExampleEnds(v0, Snapshot(pool), Regions(pool), front, back, 0x4000_1000);
    after := CountPages(front.heap, back.heap);
  }

  lemma PoolHeaps(pool: seq<Impl>)
    requires PoolOk(pool)
    ensures forall i {:trigger pool[i]} :: 0 <= i < |pool| ==> pool[i].heap.Valid()
    ensures forall m :: m in pool ==> m.heap.Shaped()
  {
  }

  /** Two managers of a page each, next to each other. */
  method TwoManagers() returns (pool: seq<Impl>)
    ensures |pool| == 2 && pool[0] != pool[1] && fresh(pool[0].heap) && fresh(pool[1].heap)
    ensures pool[0].heap.heapAddress == 0x4000_0000 && pool[1].heap.heapAddress == 0x4000_1000
    ensures PoolOk(pool) && pool[0].heap.Valid() && pool[1].heap.Valid() && pool[0].heap.heapSize == pool[1].heap.heapSize == PAGE_SIZE
    ensures AllFree(pool[0].heap.FreeBlocks(), 0x4000_0000, 0x4000_1000) && AllFree(pool[1].heap.FreeBlocks(), 0x4000_1000, 0x4000_2000)
    ensures Separate(Regions(pool)) && Snapshot(pool).Keys == Regions(pool).Keys == {pool[0], pool[1]}
    ensures Regions(pool)[pool[0]] == Region(0x4000_0000, 0x4000_1000)
    ensures forall m {:trigger Snapshot(pool)[m]} :: m in Snapshot(pool) ==> m in pool && HeapOk(Snapshot(pool)[m], m.heap.heapAddress, m.heap.EndAddress())
  {
    hide IsFree, HeapOk, KPageHeap.FreeBlocks;
    var front := OnePageManager(0x4000_0000);
    var back := OnePageManager(0x4000_1000);
    pool := [front, back];
    TwoApart(pool);
    assert Regions(pool)[front] == Region(0x4000_0000, 0x4000_1000);
  }

  lemma TwoApart(pool: seq<Impl>)
    requires |pool| == 2 && pool[0] != pool[1] && pool[0].heap != pool[1].heap && pool[0].heap.heapSize == pool[1].heap.heapSize == PAGE_SIZE
    requires pool[0].heap.heapAddress == 0x4000_0000 && pool[1].heap.heapAddress == 0x4000_1000
    ensures PoolLaidOut(pool) && forall m :: m in pool ==> m == pool[0] || m == pool[1]
  {
  }

  /** Take the page of a manager of one page. */
  method TakeTracked(pool: seq<Impl>, m: Impl, ghost v0: map<Impl, Blocks>, ghost g: seq<int>) returns (address: int)
    requires PoolOk(pool) && m in pool && m.heap.heapSize == PAGE_SIZE && m.heap.heapAddress % PAGE_SIZE == 0
    requires AllFree(m.heap.FreeBlocks(), m.heap.heapAddress, m.heap.EndAddress()) && Tracked(v0, Snapshot(pool), Regions(pool), g)
    modifies m.heap`blocks
    ensures PoolOk(pool) && address == m.heap.heapAddress && Tracked(v0, Snapshot(pool), Regions(pool), g + Run(address, 1))
  {
    hide Tracked, IsFree, HeapOk, KPageHeap.FreeBlocks, KPageHeap.Shaped, SameFree, NoneFree, AllFree, Run, PoolLaidOut;
    ghost var v := Snapshot(pool);
    HeapsApart(pool, m);
    address := TakeOnly(m.heap);
    SnapshotIs(pool, v, m);
    Taken(v0, v, Regions(pool), g, m, m.heap.FreeBlocks(), address, 1);
  }

  lemma BothApart(pool: seq<Impl>)
    requires PoolOk(pool) && |pool| == 2
    ensures pool[0].heap != pool[1].heap
  {
    HeapsApart(pool, pool[0]);
  }

  /** Take the pages of two managers of one page each, into one group. */
  method TakeBoth(pool: seq<Impl>, ghost v0: map<Impl, Blocks>) returns (out: KPageGroup)
    requires PoolOk(pool) && |pool| == 2 && pool[0] != pool[1] && pool[0].heap.heapSize == pool[1].heap.heapSize == PAGE_SIZE && v0 == Snapshot(pool)
    requires pool[0].heap.heapAddress % PAGE_SIZE == 0 && pool[1].heap.heapAddress == pool[0].heap.heapAddress + PAGE_SIZE
    requires AllFree(pool[0].heap.FreeBlocks(), pool[0].heap.heapAddress, pool[0].heap.EndAddress())
    requires AllFree(pool[1].heap.FreeBlocks(), pool[1].heap.heapAddress, pool[1].heap.EndAddress())
    modifies pool[0].heap`blocks, pool[1].heap`blocks
    ensures PoolOk(pool) && fresh(out)
    ensures var a := pool[0].heap.heapAddress;
            && out.blocks == Appended(Appended([], a, 1), a + PAGE_SIZE, 1)
            && Tracked(v0, Snapshot(pool), Regions(pool), [] + Run(a, 1) + Run(a + PAGE_SIZE, 1))
  {
    hide Tracked, IsFree, HeapOk, KPageHeap.FreeBlocks, KPageHeap.Shaped, AllFree, Flatten, Run, Appended, PoolOk;
    NothingTaken(pool);
    FlattenNothing();
    BothApart(pool);
    var a := TakeTracked(pool, pool[0], v0, []);
    PoolHeaps(pool);
    var b := TakeTracked(pool, pool[1], v0, [] + Run(a, 1));
    PoolHeaps(pool);
    out := new KPageGroup();
    out.blocks := Appended(Appended([], a, 1), b, 1);
  }
}
