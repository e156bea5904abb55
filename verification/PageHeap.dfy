/** Blocks of the sizes that a page heap deals in: where they lie and how they nest. */
module BlockSizes {
  import opened Alignments

  const NUM_SIZES: nat := 7

  /** The block sizes; each divides the next. */
  function BlockSize(i: nat): (s: int)
    requires i < NUM_SIZES
    ensures s >= 0x1000
  {
    if i == 0 then 0x1000 else if i == 1 then 0x1_0000 else if i == 2 then 0x20_0000 else if i == 3 then 0x40_0000
    else if i == 4 then 0x200_0000 else if i == 5 then 0x2000_0000 else 0x4000_0000
  }

  predicate Aligned(a: int, i: nat)
    requires i < NUM_SIZES
  {
    a % BlockSize(i) == 0
  }

  /** The block of size `i` that `a` lies in. */
  function Down(a: int, i: nat): (b: int)
    requires i < NUM_SIZES
    ensures Aligned(b, i) && b <= a < b + BlockSize(i)
  {
    RoundedIsMultiple(a, BlockSize(i));
    AlignDown(a, BlockSize(i))
  }

  /** How many blocks of size `i` make one of the next size. */
  function Siblings(i: nat): (r: int)
    requires i + 1 < NUM_SIZES
    ensures r > 1 && r * BlockSize(i) == BlockSize(i + 1)
  {
    if i == 0 then 16 else if i == 1 then 32 else if i == 2 then 2 else if i == 3 then 8 else if i == 4 then 16 else 2
  }

  lemma AlignedStep(a: int, i: nat)
    requires i + 1 < NUM_SIZES && Aligned(a, i + 1)
    ensures Aligned(a, i) && Aligned(a + BlockSize(i + 1), i) && BlockSize(i) < BlockSize(i + 1)
  {
    MultipleOfPart(a, Siblings(i), BlockSize(i));
    MultipleNext(a, BlockSize(i + 1));
    MultipleOfPart(a + BlockSize(i + 1), Siblings(i), BlockSize(i));
  }

  lemma AlignedNext(a: int, i: nat)
    requires i < NUM_SIZES && Aligned(a, i)
    ensures Aligned(a + BlockSize(i), i) && Aligned(a - BlockSize(i), i)
  {
    MultipleNext(a, BlockSize(i));
  }

  lemma {:induction false} AlignedBelow(a: int, i: nat, j: nat)
    requires j <= i < NUM_SIZES && Aligned(a, i)
    ensures Aligned(a, j) && Aligned(a + BlockSize(i), j) && BlockSize(j) <= BlockSize(i)
    decreases i
  {
    AlignedNext(a, i);
    if j < i {
      AlignedStep(a, i - 1);
      AlignedStep(a + BlockSize(i), i - 1);
      AlignedBelow(a, i - 1, j);
      AlignedBelow(a + BlockSize(i), i - 1, j);
    }
  }

  /** Aligned addresses less than a block apart are ordered. */
  lemma NotBetween(x: int, y: int, i: nat)
    requires i < NUM_SIZES && Aligned(x, i) && Aligned(y, i) && x < y + BlockSize(i)
    ensures x <= y
  {
    MultipleNotBetween(x, y, BlockSize(i));
  }

  /** A block that meets a block of a size at least its own lies inside it. */
  lemma Nested(b: int, i: nat, c: int, j: nat)
    requires i <= j < NUM_SIZES && Aligned(b, i) && Aligned(c, j) && b < c + BlockSize(j) && c < b + BlockSize(i)
    ensures c <= b && b + BlockSize(i) <= c + BlockSize(j)
  {
    AlignedBelow(c, j, i);
    NotBetween(c, b, i);
    AlignedNext(b, i);
    NotBetween(b + BlockSize(i), c + BlockSize(j), i);
  }

  lemma SameBlock(s: int, c: int, i: nat)
    requires i < NUM_SIZES && Aligned(s, i)
    ensures Aligned(c, i) && c <= s < c + BlockSize(i) ==> c == s
  {
    if Aligned(c, i) && c <= s < c + BlockSize(i) {
      NotBetween(s, c, i);
    }
  }

  lemma DownUnique(a: int, b: int, i: nat)
    requires i < NUM_SIZES && Aligned(b, i) && b <= a < b + BlockSize(i)
    ensures Down(a, i) == b
  {
    NotBetween(Down(a, i), b, i);
    NotBetween(b, Down(a, i), i);
  }
}

/** The free blocks of a page heap, by size, as sets of addresses. */
module FreeBlocks {
  import opened BlockSizes

  type Blocks = s: seq<set<int>> | |s| == NUM_SIZES witness seq(NUM_SIZES, i => {})

  /** The address `x` lies in the free block `b` of size `i`. */
  ghost predicate InBlock(f: Blocks, i: nat, b: int, x: int) {
    i < NUM_SIZES && b in f[i] && b <= x < b + BlockSize(i)
  }

  ghost predicate IsFree(f: Blocks, x: int) {
    exists i, b :: InBlock(f, i, b, x)
  }

  ghost predicate Placed(f: Blocks, lo: int, hi: int) {
    forall i, b {:trigger b in f[i]} :: 0 <= i < NUM_SIZES && b in f[i] ==> Aligned(b, i) && lo <= b && b + BlockSize(i) <= hi
  }

  /** No address is in two blocks. */
  ghost predicate Disjoint(f: Blocks) {
    forall i, b, j, c, x {:trigger InBlock(f, i, b, x), InBlock(f, j, c, x)} :: InBlock(f, i, b, x) && InBlock(f, j, c, x) ==> i == j && b == c
  }

  /** All the blocks of size `i` in the range belong to `s`. */
  ghost predicate Full(s: set<int>, i: nat, lo: int, hi: int)
    requires i < NUM_SIZES
  {
    forall c {:trigger c in s} :: Aligned(c, i) && lo <= c < hi ==> c in s
  }

  /** All the blocks of size `i` that make up the larger block at `p` are free. */
  ghost predicate Complete(f: Blocks, i: nat, p: int)
    requires i + 1 < NUM_SIZES
  {
    Full(f[i], i, p, p + BlockSize(i + 1))
  }

  /** Nothing is left to merge. */
  ghost predicate Merged(f: Blocks) {
    forall i, p {:trigger Complete(f, i, p)} :: 0 <= i && i + 1 < NUM_SIZES && Aligned(p, i + 1) ==> !Complete(f, i, p)
  }

  ghost predicate HeapOk(f: Blocks, lo: int, hi: int) {
    Placed(f, lo, hi) && Disjoint(f) && Merged(f)
  }

  /** Every address of the range is free. */
  ghost predicate AllFree(f: Blocks, lo: int, hi: int) {
    forall x {:trigger IsFree(f, x)} :: lo <= x < hi ==> IsFree(f, x)
  }

  /** The blocks are determined by what is free. */
  lemma HeapsDetermined(f: Blocks, g: Blocks, lo: int, hi: int)
    requires HeapOk(f, lo, hi) && HeapOk(g, lo, hi) && forall x {:trigger IsFree(f, x)} {:trigger IsFree(g, x)} :: IsFree(f, x) <==> IsFree(g, x)
    ensures f == g
  {
    forall i, b | 0 <= i < NUM_SIZES ensures b in f[i] <==> b in g[i] {
      if b in f[i] {
        SameBlocks(f, g, lo, hi, i, b);
      }
      if b in g[i] {
        SameBlocks(g, f, lo, hi, i, b);
      }
    }
    assert forall i :: 0 <= i < NUM_SIZES ==> f[i] == g[i];
  }

  lemma SameBlocks(f: Blocks, g: Blocks, lo: int, hi: int, i: nat, b: int)
    requires HeapOk(f, lo, hi) && HeapOk(g, lo, hi) && forall x {:trigger IsFree(f, x)} {:trigger IsFree(g, x)} :: IsFree(f, x) <==> IsFree(g, x)
    requires i < NUM_SIZES && b in f[i]
    ensures b in g[i]
  {
    forall x {:trigger IsFree(g, x)} | b <= x < b + BlockSize(i) ensures IsFree(g, x) {
      assert InBlock(f, i, b, x);
      assert IsFree(f, x);
    }
    var j, c := FreeMeansOneBlock(g, lo, hi, i, b);
    forall x {:trigger IsFree(f, x)} | c <= x < c + BlockSize(j) ensures IsFree(f, x) {
      assert InBlock(g, j, c, x);
      assert IsFree(g, x);
    }
    var k, d := FreeMeansOneBlock(f, lo, hi, j, c);
    assert InBlock(f, k, d, b) && InBlock(f, i, b, b);
    NotBetween(b, c, i);
    NotBetween(c, b, i);
  }

  /** A fully free block lies inside a single free block, which is at least as large: what is free in
      aligned pieces has been merged. */
  lemma {:induction false} FreeMeansOneBlock(f: Blocks, lo: int, hi: int, i: nat, b: int) returns (j: nat, c: int)
    requires HeapOk(f, lo, hi) && i < NUM_SIZES && Aligned(b, i) && AllFree(f, b, b + BlockSize(i))
    ensures i <= j < NUM_SIZES && c in f[j] && c <= b && b + BlockSize(i) <= c + BlockSize(j)
  {
    assert IsFree(f, b);
    if i == 0 {
      j, c :| InBlock(f, j, c, b);
      Nested(b, 0, c, j);
    } else {
      AlignedStep(b, i - 1);
      assert !Complete(f, i - 1, b);
      var s :| Aligned(s, i - 1) && b <= s < b + BlockSize(i) && s !in f[i - 1];
      Nested(s, i - 1, b, i);
      j, c := FreeMeansOneBlock(f, lo, hi, i - 1, s);
      SameBlock(s, c, i - 1);
      assert j != i - 1;
      Nested(b, i, c, j);
    }
  }

  ghost predicate NoneFree(f: Blocks, lo: int, hi: int) {
    forall x {:trigger IsFree(f, x)} :: lo <= x < hi ==> !IsFree(f, x)
  }

  function With(f: Blocks, i: nat, b: int): Blocks
    requires i < NUM_SIZES
  {
    f[i := f[i] + {b}]
  }

  /** `f` without the blocks of size `i` from `lo` up to `hi`. */
  function Less(f: Blocks, i: nat, lo: int, hi: int): Blocks
    requires i < NUM_SIZES
  {
    f[i := set c | c in f[i] && !(lo <= c < hi)]
  }

  lemma WithFree(f: Blocks, i: nat, b: int)
    requires i < NUM_SIZES
    ensures forall x {:trigger IsFree(With(f, i, b), x)} :: IsFree(With(f, i, b), x) <==> IsFree(f, x) || b <= x < b + BlockSize(i)
  {
    var g := With(f, i, b);
    forall x {:trigger IsFree(g, x)} ensures IsFree(g, x) <==> IsFree(f, x) || b <= x < b + BlockSize(i) {
      if IsFree(g, x) {
        var j, c :| InBlock(g, j, c, x);
        assert InBlock(f, j, c, x) || (j == i && c == b);
      }
      if IsFree(f, x) {
        var j, c :| InBlock(f, j, c, x);
        assert InBlock(g, j, c, x);
      }
      if b <= x < b + BlockSize(i) {
        assert InBlock(g, i, b, x);
      }
    }
  }

  /** A freed block that does not complete a larger one stays as it is. */
  lemma AddedStays(f: Blocks, lo: int, hi: int, i: nat, b: int)
    requires HeapOk(f, lo, hi) && i < NUM_SIZES && Aligned(b, i) && lo <= b && b + BlockSize(i) <= hi && NoneFree(f, b, b + BlockSize(i))
    requires i + 1 < NUM_SIZES ==> !Complete(With(f, i, b), i, Down(b, i + 1))
    ensures HeapOk(With(f, i, b), lo, hi)
  {
    var g := With(f, i, b);
    forall j, c, k, d, x {:trigger InBlock(g, j, c, x), InBlock(g, k, d, x)} | InBlock(g, j, c, x) && InBlock(g, k, d, x) ensures j == k && c == d {
      assert InBlock(f, j, c, x) || (j == i && c == b);
      assert InBlock(f, k, d, x) || (k == i && d == b);
      var free := IsFree(f, x);
    }
    forall j, p {:trigger Complete(g, j, p)} | 0 <= j && j + 1 < NUM_SIZES && Aligned(p, j + 1) ensures !Complete(g, j, p) {
      assert !Complete(f, j, p);
      var c :| Aligned(c, j) && p <= c < p + BlockSize(j + 1) && c !in f[j];
      if j == i && c == b {
        DownUnique(b, p, i + 1);
      } else {
        assert c !in g[j];
      }
    }
  }

  lemma SiblingsInRegion(f: Blocks, lo: int, hi: int, i: nat, b: int)
    requires Placed(f, lo, hi) && i + 1 < NUM_SIZES && Aligned(b, i) && lo <= b && b + BlockSize(i) <= hi
    requires Complete(With(f, i, b), i, Down(b, i + 1))
    ensures lo <= Down(b, i + 1) && Down(b, i + 1) + BlockSize(i + 1) <= hi
  {
    var p, g := Down(b, i + 1), With(f, i, b);
    var end := p + BlockSize(i + 1);
    AlignedStep(p, i);
    AlignedNext(end, i);
    assert p in g[i] && end - BlockSize(i) in g[i];
    assert p in f[i] || p == b;
    assert end - BlockSize(i) in f[i] || end - BlockSize(i) == b;
  }

  /** Taking blocks away breaks nothing. */
  lemma FewerOk(f: Blocks, g: Blocks, lo: int, hi: int)
    requires HeapOk(f, lo, hi) && forall i, c {:trigger c in g[i]} :: 0 <= i < NUM_SIZES && c in g[i] ==> c in f[i]
    ensures HeapOk(g, lo, hi)
    ensures forall x {:trigger IsFree(g, x)} :: IsFree(g, x) ==> IsFree(f, x)
  {
    forall i, p {:trigger Complete(g, i, p)} | 0 <= i && i + 1 < NUM_SIZES && Aligned(p, i + 1) ensures !Complete(g, i, p) {
      assert !Complete(f, i, p);
      var c :| Aligned(c, i) && p <= c < p + BlockSize(i + 1) && c !in f[i];
      assert c !in g[i];
    }
    forall i, b, j, c, x {:trigger InBlock(g, i, b, x), InBlock(g, j, c, x)} | InBlock(g, i, b, x) && InBlock(g, j, c, x) ensures i == j && b == c {
      assert InBlock(f, i, b, x) && InBlock(f, j, c, x);
    }
    forall x {:trigger IsFree(g, x)} | IsFree(g, x) ensures IsFree(f, x) {
      var i, b :| InBlock(g, i, b, x);
      assert InBlock(f, i, b, x);
    }
  }

  lemma SiblingsNotFree(f: Blocks, lo: int, hi: int, i: nat, b: int, x: int)
    requires HeapOk(f, lo, hi) && i + 1 < NUM_SIZES && NoneFree(f, b, b + BlockSize(i))
    requires Complete(With(f, i, b), i, Down(b, i + 1)) && Down(b, i + 1) <= x < Down(b, i + 1) + BlockSize(i + 1)
    ensures var p := Down(b, i + 1); !IsFree(Less(With(f, i, b), i, p, p + BlockSize(i + 1)), x)
  {
    var p := Down(b, i + 1);
    var g := Less(With(f, i, b), i, p, p + BlockSize(i + 1));
    var s := Down(x, i);
    AlignedStep(p, i);
    NotBetween(p, s, i);
    assert s in With(f, i, b)[i];
    if IsFree(g, x) {
      var j, c :| InBlock(g, j, c, x);
      assert InBlock(f, j, c, x) || (j == i && c == b);
      assert s != b ==> InBlock(f, i, s, x);
      var free := IsFree(f, x);
    }
  }

  lemma OthersStayFree(f: Blocks, lo: int, hi: int, i: nat, b: int, x: int)
    requires HeapOk(f, lo, hi) && i + 1 < NUM_SIZES && IsFree(f, x)
    ensures var p := Down(b, i + 1);
            var end := p + BlockSize(i + 1);
            !(p <= x < end) ==> IsFree(Less(With(f, i, b), i, p, end), x)
  {
    var p := Down(b, i + 1);
    var g := Less(With(f, i, b), i, p, p + BlockSize(i + 1));
    var j, c :| InBlock(f, j, c, x);
    if j == i && p <= c < p + BlockSize(i + 1) {
      Nested(c, i, p, i + 1);
    } else {
      assert InBlock(g, j, c, x);
    }
  }

  predicate Within(x: int, lo: int, hi: int) {
    lo <= x < hi
  }

  /** What is free in `f` or lies in the first range is what is free in `g` or lies in the second. */
  ghost predicate SameFree(f: Blocks, lo: int, hi: int, g: Blocks, lo': int, hi': int) {
    forall x {:trigger IsFree(g, x)} {:trigger IsFree(f, x)} :: (IsFree(g, x) || Within(x, lo', hi')) <==> (IsFree(f, x) || Within(x, lo, hi))
  }

  /** A freed block that completes a larger one: its siblings go, and the larger one is to be freed. */
  lemma SiblingsGo(f: Blocks, lo: int, hi: int, i: nat, b: int)
    requires HeapOk(f, lo, hi) && i + 1 < NUM_SIZES && Aligned(b, i) && lo <= b && b + BlockSize(i) <= hi && NoneFree(f, b, b + BlockSize(i))
    requires Complete(With(f, i, b), i, Down(b, i + 1))
    ensures var p := Down(b, i + 1);
            var g := Less(With(f, i, b), i, p, p + BlockSize(i + 1));
            && HeapOk(g, lo, hi) && Aligned(p, i + 1) && lo <= p && p + BlockSize(i + 1) <= hi && NoneFree(g, p, p + BlockSize(i + 1))
            && SameFree(f, b, b + BlockSize(i), g, p, p + BlockSize(i + 1))
  {
    var p := Down(b, i + 1);
    var end := p + BlockSize(i + 1);
    var g := Less(With(f, i, b), i, p, end);
    SiblingsInRegion(f, lo, hi, i, b);
    Nested(b, i, p, i + 1);
    assert forall j, c {:trigger c in g[j]} :: 0 <= j < NUM_SIZES && c in g[j] ==> c in f[j];
    FewerOk(f, g, lo, hi);
    forall x {:trigger IsFree(g, x)} | p <= x < end ensures !IsFree(g, x) {
      SiblingsNotFree(f, lo, hi, i, b, x);
    }
    forall x {:trigger IsFree(g, x)} {:trigger IsFree(f, x)}
      ensures (IsFree(g, x) || Within(x, p, end)) <==> (IsFree(f, x) || Within(x, b, b + BlockSize(i)))
    {
      if p <= x < end {
        SiblingsWereFree(f, i, b, x);
      } else if IsFree(f, x) {
        OthersStayFree(f, lo, hi, i, b, x);
      }
    }
  }

  lemma SiblingsWereFree(f: Blocks, i: nat, b: int, x: int)
    requires i + 1 < NUM_SIZES && Complete(With(f, i, b), i, Down(b, i + 1)) && Down(b, i + 1) <= x < Down(b, i + 1) + BlockSize(i + 1)
    ensures IsFree(f, x) || b <= x < b + BlockSize(i)
  {
    var p, s := Down(b, i + 1), Down(x, i);
    AlignedStep(p, i);
    NotBetween(p, s, i);
    assert s in With(f, i, b)[i];
    assert s != b ==> InBlock(f, i, s, x);
  }
}

/** The page heap: one bitmap of free blocks for every block size. */
module PageHeaps {
  import opened Alignments
  import opened BlockSizes
  import opened FreeBlocks

  function Nth(first: int, i: int): int {
    first + i
  }

  /** The bitmap of one block size: the offsets of the free blocks from an aligned start. */
  datatype Block = Block(level: nat, heapAddress: int, endOffset: int, bits: set<int>) {
    /** What the start of the bitmap is aligned to: a whole block of the next size, if there is one. */
    static function Alignment(level: nat): (n: int)
      requires level < NUM_SIZES
    {
      BlockSize(if level + 1 < NUM_SIZES then level + 1 else level)
    }

    static function Initialize(level: nat, addr: int, size: int): Block
      requires level < NUM_SIZES
    {
      var start := AlignDown(addr, Alignment(level));
      var end := AlignUp(addr + size, Alignment(level));
      Block(level, start, (end - start) / BlockSize(level), {})
    }

    ghost predicate Valid() {
      && level < NUM_SIZES && heapAddress > 0 && heapAddress % Alignment(level) == 0
      && forall o {:trigger o in bits} :: o in bits ==> 0 <= o < endOffset
    }

    /** The addresses of the free blocks. */
    ghost function Addresses(): set<int>
      requires level < NUM_SIZES
    {
      set o | o in bits :: heapAddress + o * BlockSize(level)
    }

    /** Is the address one that the bitmap has a bit for? */
    predicate Covers(a: int)
      requires level < NUM_SIZES
    {
      heapAddress <= a && Aligned(a, level) && (a - heapAddress) / BlockSize(level) < endOffset
    }

    /** Set the bit of a block. If that completes a block of the next size, clear its bits and return its address. */
    function PushBlock(address: int): (Block, int)
      requires Valid() && Covers(address)
    {
      var offset := (address - heapAddress) / BlockSize(level);
      var set1 := bits + {offset};
      if level + 1 < NUM_SIZES then
        var diff := Siblings(level);
        var first := AlignDown(offset, diff);
        var siblings := set i | 0 <= i < diff :: Nth(first, i);
        if siblings <= set1 then (this.(bits := set1 - siblings), heapAddress + first * BlockSize(level))
        else (this.(bits := set1), 0)
      else (this.(bits := set1), 0)
    }
  }

  /** Offsets and addresses correspond. */
  lemma OffsetOf(b: Block, a: int)
    requires b.Valid() && Aligned(a, b.level)
    ensures var o := (a - b.heapAddress) / BlockSize(b.level);
            a == b.heapAddress + o * BlockSize(b.level) && (a in b.Addresses() <==> o in b.bits)
  {
    var n := BlockSize(b.level);
    StartAligned(b);
    var k, m := a / n, b.heapAddress / n;
    assert a == k * n && b.heapAddress == m * n;
    assert a - b.heapAddress == (k - m) * n;
    OffsetUnique(a - b.heapAddress, k - m, n);
    if a in b.Addresses() {
      var o :| o in b.bits && a == b.heapAddress + o * n;
      OffsetUnique(a - b.heapAddress, o, n);
    }
  }

  lemma StartAligned(b: Block)
    requires b.Valid()
    ensures Aligned(b.heapAddress, b.level)
  {
    if b.level + 1 < NUM_SIZES {
      AlignedStep(b.heapAddress, b.level);
    }
  }

  lemma OffsetUnique(d: int, k: int, n: int)
    requires n > 0 && d == k * n
    ensures d / n == k
  {
    Multiples(d / n, k, n);
  }

  lemma AddressAligned(b: Block, o: int)
    requires b.Valid()
    ensures Aligned(b.heapAddress + o * BlockSize(b.level), b.level)
    ensures (b.heapAddress + o * BlockSize(b.level) - b.heapAddress) / BlockSize(b.level) == o
  {
    var n := BlockSize(b.level);
    StartAligned(b);
    var m := b.heapAddress / n;
    assert b.heapAddress == m * n && m * n + o * n == (m + o) * n;
    Remainder(m + o, n, 0);
    OffsetUnique(o * n, o, n);
  }

  /** Setting and clearing bits is adding and taking away addresses. */
  lemma BitsAre(b: Block, bits: set<int>, a: int)
    requires b.Valid() && b.(bits := bits).Valid() && Aligned(a, b.level)
    ensures a in b.(bits := bits).Addresses() <==> (a - b.heapAddress) / BlockSize(b.level) in bits
  {
    OffsetOf(b.(bits := bits), a);
  }

  /** The group of siblings by offset is the next larger block by address. */
  lemma GroupOf(b: Block, a: int)
    requires b.Valid() && b.Covers(a) && b.level + 1 < NUM_SIZES
    ensures var first := AlignDown((a - b.heapAddress) / BlockSize(b.level), Siblings(b.level));
            && b.heapAddress + first * BlockSize(b.level) == Down(a, b.level + 1)
            && forall c {:trigger Aligned(c, b.level)} :: Aligned(c, b.level) ==>
                 (Down(a, b.level + 1) <= c < Down(a, b.level + 1) + BlockSize(b.level + 1)
                  <==> first <= (c - b.heapAddress) / BlockSize(b.level) < first + Siblings(b.level))
  {
    hide Down, AlignDown, Block.Addresses, BlockSize, Siblings;
    var n, r := BlockSize(b.level), Siblings(b.level);
    var o := (a - b.heapAddress) / n;
    var first := AlignDown(o, r);
    OffsetOf(b, a);
    var p := b.heapAddress + first * n;
    DownIsMultiple(o, r);
    GroupAligned(b.heapAddress, first, r, n);
    Scaled(o, first, r, n);
    DownUnique(a, p, b.level + 1);
    forall c {:trigger Aligned(c, b.level)} | Aligned(c, b.level)
      ensures p <= c < p + BlockSize(b.level + 1) <==> first <= (c - b.heapAddress) / n < first + r
    {
      OffsetOf(b, c);
      Scaled((c - b.heapAddress) / n, first, r, n);
    }
  }

  lemma GroupAligned(start: int, first: int, r: int, n: int)
    requires r > 0 && n > 0 && r * n > 0 && start % (r * n) == 0 && first % r == 0
    ensures (start + first * n) % (r * n) == 0
  {
    var q, m := first / r, start / (r * n);
    assert first == q * r;
    assert first * n == (q * r) * n == q * (r * n);
    assert start == m * (r * n);
    assert m * (r * n) + q * (r * n) == (m + q) * (r * n);
    Remainder(m + q, r * n, 0);
  }

  lemma Scaled(o: int, first: int, r: int, n: int)
    requires n > 0 && r > 0
    ensures first <= o < first + r <==> first * n <= o * n < first * n + r * n
  {
    Multiples(first, o, n);
    Multiples(o, first, n);
    Multiples(o, first + r, n);
    Multiples(first + r, o, n);
    assert (first + r) * n == first * n + r * n;
  }

  lemma BitSet(b: Block, a: int)
    requires b.Valid() && b.Covers(a)
    ensures var t := b.(bits := b.bits + {(a - b.heapAddress) / BlockSize(b.level)});
            t.Valid() && t.Addresses() == b.Addresses() + {a}
  {
    var t := b.(bits := b.bits + {(a - b.heapAddress) / BlockSize(b.level)});
    OffsetOf(b, a);
    forall c ensures c in t.Addresses() <==> c in b.Addresses() + {a} {
      if c in t.Addresses() {
        var o :| o in t.bits && c == b.heapAddress + o * BlockSize(b.level);
        AddressAligned(b, o);
        BitsAre(b, b.bits, c);
      }
      if c in b.Addresses() {
        var o :| o in b.bits && c == b.heapAddress + o * BlockSize(b.level);
        assert o in t.bits;
      }
    }
  }

  lemma BitsCleared(b: Block, first: int, n: int, lo: int, hi: int)
    requires b.Valid() && n > 0
    requires forall c {:trigger Aligned(c, b.level)} :: Aligned(c, b.level) ==>
               (lo <= c < hi <==> first <= (c - b.heapAddress) / BlockSize(b.level) < first + n)
    ensures var t := b.(bits := b.bits - set i | 0 <= i < n :: Nth(first, i));
            t.Valid() && t.Addresses() == set c | c in b.Addresses() && !(lo <= c < hi)
  {
    var gone := set i | 0 <= i < n :: Nth(first, i);
    InSpanOf(first, n, gone);
    var t := b.(bits := b.bits - gone);
    var left := set c | c in b.Addresses() && !(lo <= c < hi);
    forall c ensures c in t.Addresses() <==> c in left {
      if c in t.Addresses() {
        var o :| o in t.bits && c == b.heapAddress + o * BlockSize(b.level);
        AddressAligned(b, o);
        BitsAre(b, b.bits, c);
      }
      if c in left {
        var o :| o in b.bits && c == b.heapAddress + o * BlockSize(b.level);
        AddressAligned(b, o);
        assert o in t.bits;
      }
    }
  }

  lemma InSpanOf(first: int, n: int, s: set<int>)
    requires s == set i | 0 <= i < n :: Nth(first, i)
    ensures forall k :: k in s <==> first <= k < first + n
  {
    forall k ensures k in s <==> first <= k < first + n {
      if first <= k < first + n {
        assert Nth(first, k - first) in s;
      }
    }
  }

  lemma AllSiblings(b: Block, set1: set<int>, first: int, n: int, lo: int, hi: int)
    requires b.Valid() && b.(bits := set1).Valid() && n > 0
    requires forall c {:trigger Aligned(c, b.level)} :: Aligned(c, b.level) ==>
               (lo <= c < hi <==> first <= (c - b.heapAddress) / BlockSize(b.level) < first + n)
    ensures (set i | 0 <= i < n :: Nth(first, i)) <= set1 <==> Full(b.(bits := set1).Addresses(), b.level, lo, hi)
  {
    var siblings := set i | 0 <= i < n :: Nth(first, i);
    var all := b.(bits := set1).Addresses();
    InSpanOf(first, n, siblings);
    if siblings <= set1 {
      forall c {:trigger c in all} | Aligned(c, b.level) && lo <= c < hi ensures c in all {
        BitsAre(b, set1, c);
      }
    }
    if Full(all, b.level, lo, hi) {
      forall o | o in siblings ensures o in set1 {
        var c := b.heapAddress + o * BlockSize(b.level);
        AddressAligned(b, o);
        assert c in all;
        BitsAre(b, set1, c);
      }
    }
  }

  /** What pushing a block does to the addresses: the block joins them, and goes with its siblings if that
      completes a larger block. */
  lemma PushBlockIs(b: Block, a: int)
    requires b.Valid() && b.Covers(a)
    ensures var (t, p) := b.PushBlock(a);
            var all := b.Addresses() + {a};
            && t.Valid() && t == b.(bits := t.bits)
            && if b.level + 1 < NUM_SIZES && Full(all, b.level, Down(a, b.level + 1), Down(a, b.level + 1) + BlockSize(b.level + 1))
               then p == Down(a, b.level + 1) > 0 && t.Addresses() == set c | c in all && !(p <= c < p + BlockSize(b.level + 1))
               else p == 0 && t.Addresses() == all
  {
    BitSet(b, a);
    if b.level + 1 < NUM_SIZES {
      GroupOf(b, a);
      var p := Down(a, b.level + 1);
      var offset := (a - b.heapAddress) / BlockSize(b.level);
      var first := AlignDown(offset, Siblings(b.level));
      var t := b.(bits := b.bits + {offset});
      AllSiblings(b, t.bits, first, Siblings(b.level), p, p + BlockSize(b.level + 1));
      BitsCleared(t, first, Siblings(b.level), p, p + BlockSize(b.level + 1));
      NotBetween(b.heapAddress, p, b.level + 1);
    }
  }

  /** The bitmap made for a region has a bit for every block in the region. */
  lemma CoversRegion(level: nat, addr: int, size: int, bits: set<int>, a: int)
    requires level < NUM_SIZES && Aligned(a, level) && addr <= a && a + BlockSize(level) <= addr + size
    requires Block.Initialize(level, addr, size).(bits := bits).Valid()
    ensures Block.Initialize(level, addr, size).(bits := bits).Covers(a)
  {
    var b := Block.Initialize(level, addr, size).(bits := bits);
    var n, m := BlockSize(level), Block.Alignment(level);
    var end := AlignUp(addr + size, m);
    RoundedIsMultiple(addr, m);
    RoundedIsMultiple(addr + size, m);
    OffsetOf(b, a);
    StartAligned(b);
    if level + 1 < NUM_SIZES {
      AlignedStep(end, level);
    }
    Whole(b.heapAddress, end, n);
    var o := (a - b.heapAddress) / n;
    Multiples(b.endOffset, o, n);
  }

  lemma Whole(a: int, b: int, n: int)
    requires n > 0 && a % n == 0 && b % n == 0
    ensures (b - a) / n * n == b - a
  {
    assert b == b / n * n && a == a / n * n;
    assert b - a == (b / n - a / n) * n;
    OffsetUnique(b - a, b / n - a / n, n);
  }

  ghost function AddressesOf(bs: seq<Block>): (f: Blocks)
    requires |bs| == NUM_SIZES && forall i {:trigger bs[i]} :: 0 <= i < NUM_SIZES ==> bs[i].level < NUM_SIZES
    ensures forall i {:trigger f[i]} :: 0 <= i < NUM_SIZES ==> f[i] == bs[i].Addresses()
  {
    seq(NUM_SIZES, i requires 0 <= i < NUM_SIZES => bs[i].Addresses())
  }

  class KPageHeap {
    const heapAddress: int
    const heapSize: int
    var blocks: seq<Block>

    ghost predicate Shaped()
      reads this
    {
      && |blocks| == NUM_SIZES && heapAddress >= 0x4000_0000 && heapAddress % PAGE_SIZE == 0
      && forall i {:trigger blocks[i]} :: 0 <= i < NUM_SIZES ==>
           blocks[i].Valid() && blocks[i] == Block.Initialize(i, heapAddress, heapSize).(bits := blocks[i].bits)
    }

    /** The free blocks of every size. */
    ghost function FreeBlocks(): Blocks
      requires Shaped()
      reads this
    {
      AddressesOf(blocks)
    }

    function EndAddress(): int {
      heapAddress + heapSize
    }

    ghost predicate Valid()
      reads this
    {
      Shaped() && HeapOk(FreeBlocks(), heapAddress, EndAddress())
    }

    /** A heap that manages a region, none of which is free yet. */
    constructor (address: int, size: int)
      requires address % PAGE_SIZE == 0 && size % PAGE_SIZE == 0 && size >= 0 && address >= 0x4000_0000
      ensures Valid() && heapAddress == address && heapSize == size
      ensures forall x {:trigger IsFree(FreeBlocks(), x)} :: !IsFree(FreeBlocks(), x)
    {
      heapAddress, heapSize := address, size;
      blocks := seq(NUM_SIZES, i requires 0 <= i < NUM_SIZES => Block.Initialize(i, address, size));
      new;
      forall i {:trigger blocks[i]} | 0 <= i < NUM_SIZES
        ensures blocks[i].Valid() && blocks[i] == Block.Initialize(i, heapAddress, heapSize).(bits := blocks[i].bits) && blocks[i].Addresses() == {}
      {
        RoundedIsMultiple(address, Block.Alignment(i));
      }
      assert forall i :: 0 <= i < NUM_SIZES ==> FreeBlocks()[i] == {};
      NothingMerged(FreeBlocks());
    }

    method PushBlock(i: nat, address: int) returns (parent: int)
      requires Shaped() && i < NUM_SIZES && Aligned(address, i) && heapAddress <= address && address + BlockSize(i) <= EndAddress()
      modifies `blocks
      ensures Shaped()
      ensures (FreeBlocks(), parent) == Pushed(old(FreeBlocks()), i, address)
    {
      CoversRegion(i, heapAddress, heapSize, blocks[i].bits, address);
      PushBlockIs(blocks[i], address);
      PushedIs(blocks, i, address);
      var (b, p) := blocks[i].PushBlock(address);
      blocks := blocks[i := b];
      parent := p;
    }

    /** Take some free block of the size; 0 if there is none. */
    method PopBlock(i: nat) returns (address: int)
      requires Shaped() && i < NUM_SIZES
      modifies `blocks
      ensures Shaped()
      ensures old(FreeBlocks())[i] == {} ==> address == 0 && FreeBlocks() == old(FreeBlocks())
      ensures old(FreeBlocks())[i] != {} ==>
                address != 0 && address in old(FreeBlocks())[i] && FreeBlocks() == old(FreeBlocks())[i := old(FreeBlocks())[i] - {address}]
    {
      var bits := blocks[i].bits;
      if |bits| == 0 {
        assert FreeBlocks()[i] == {};
        return 0;
      }
      SomeMember(bits);
      var offset :| offset in bits;
      address := blocks[i].heapAddress + offset * BlockSize(i);
      assert address in FreeBlocks()[i];
      BitCleared(blocks[i], offset);
      blocks := blocks[i := blocks[i].(bits := blocks[i].bits - {offset})];
    }

    /** Free a block, and every larger block that this completes. */
    method FreeBlock(block: int, index: nat)
      requires Valid() && index < NUM_SIZES && Aligned(block, index) && heapAddress <= block && block + BlockSize(index) <= EndAddress()
      requires NoneFree(FreeBlocks(), block, block + BlockSize(index))
      modifies `blocks
      ensures Valid()
      ensures SameFree(old(FreeBlocks()), block, block + BlockSize(index), FreeBlocks(), 0, 0)
    {
      hide HeapOk, IsFree, Pushed, Aligned, NoneFree, BlockSize;
      var b, i := block, index;
      ghost var f0 := FreeBlocks();
      while true
        invariant Valid() && i < NUM_SIZES && Aligned(b, i) && heapAddress <= b && b + BlockSize(i) <= EndAddress()
        invariant NoneFree(FreeBlocks(), b, b + BlockSize(i))
        invariant SameFree(f0, block, block + BlockSize(index), FreeBlocks(), b, b + BlockSize(i))
        decreases NUM_SIZES - i
      {
        ghost var f, was := FreeBlocks(), b;
        b := PushBlock(i, b);
        PushedOk(f, heapAddress, EndAddress(), i, was, FreeBlocks(), b);
        i := i + 1;
        if b == 0 {
          break;
        }
      }
    }

    /** Free the blocks of size `i` between two aligned addresses. */
    method FreeBlocksOf(bigStart: int, bigEnd: int, i: nat)
      requires Valid() && i < NUM_SIZES && Aligned(bigStart, i) && Aligned(bigEnd, i)
      requires heapAddress <= bigStart < bigEnd <= EndAddress() && NoneFree(FreeBlocks(), bigStart, bigEnd)
      modifies `blocks
      ensures Valid() && SameFree(old(FreeBlocks()), bigStart, bigEnd, FreeBlocks(), 0, 0)
    {
      hide HeapOk, IsFree, Aligned, NoneFree, BlockSize, SameFree;
      ghost var f0 := FreeBlocks();
      NothingFreed(f0, bigStart);
      var block := bigStart;
      while block < bigEnd
        invariant Valid() && Aligned(block, i) && bigStart <= block <= bigEnd
        invariant SameFree(f0, bigStart, block, FreeBlocks(), 0, 0)
      {
        AlignedNext(block, i);
        NotBetween(block + BlockSize(i), bigEnd, i);
        StillNone(f0, bigStart, bigEnd, bigStart, block, FreeBlocks(), block, block + BlockSize(i));
        ghost var f := FreeBlocks();
        FreeBlock(block, i);
        MoreFree(f0, bigStart, block, f, block, block + BlockSize(i), FreeBlocks());
        block := block + BlockSize(i);
      }
    }

    /** Free as many blocks of size `i` as fit at the end of the range that is left before the freed one. */
    method FreeBefore(beforeStart: int, end: int, i: nat, ghost f0: Blocks, ghost freedEnd: int) returns (beforeEnd: int)
      requires Valid() && i < NUM_SIZES && heapAddress <= beforeStart <= end <= freedEnd <= EndAddress() && Aligned(end, i)
      requires NoneFree(f0, beforeStart, freedEnd) && SameFree(f0, end, freedEnd, FreeBlocks(), 0, 0)
      modifies `blocks
      ensures Valid() && beforeStart <= beforeEnd <= end && beforeEnd < beforeStart + BlockSize(i) && Aligned(beforeEnd, i)
      ensures SameFree(f0, beforeEnd, freedEnd, FreeBlocks(), 0, 0)
    {
      hide HeapOk, IsFree, Aligned, NoneFree, BlockSize, SameFree;
      beforeEnd := end;
      while beforeStart + BlockSize(i) <= beforeEnd
        invariant Valid() && beforeStart <= beforeEnd <= end && Aligned(beforeEnd, i)
        invariant SameFree(f0, beforeEnd, freedEnd, FreeBlocks(), 0, 0)
        decreases beforeEnd
      {
        AlignedNext(beforeEnd, i);
        ghost var f, was := FreeBlocks(), beforeEnd;
        beforeEnd := beforeEnd - BlockSize(i);
        StillNone(f0, beforeStart, freedEnd, was, freedEnd, f, beforeEnd, was);
        FreeBlock(beforeEnd, i);
        MoreFree(f0, was, freedEnd, f, beforeEnd, was, FreeBlocks());
      }
    }

    method FreeAfter(start: int, afterEnd: int, i: nat, ghost f0: Blocks, ghost freedStart: int) returns (afterStart: int)
      requires Valid() && i < NUM_SIZES && heapAddress <= freedStart <= start <= afterEnd <= EndAddress() && Aligned(start, i)
      requires NoneFree(f0, freedStart, afterEnd) && SameFree(f0, freedStart, start, FreeBlocks(), 0, 0)
      modifies `blocks
      ensures Valid() && start <= afterStart <= afterEnd && afterEnd < afterStart + BlockSize(i) && Aligned(afterStart, i)
      ensures SameFree(f0, freedStart, afterStart, FreeBlocks(), 0, 0)
    {
      hide HeapOk, IsFree, Aligned, NoneFree, BlockSize, SameFree;
      afterStart := start;
      while afterStart + BlockSize(i) <= afterEnd
        invariant Valid() && start <= afterStart <= afterEnd && Aligned(afterStart, i)
        invariant SameFree(f0, freedStart, afterStart, FreeBlocks(), 0, 0)
        decreases afterEnd - afterStart
      {
        AlignedNext(afterStart, i);
        ghost var f := FreeBlocks();
        StillNone(f0, freedStart, afterEnd, freedStart, afterStart, f, afterStart, afterStart + BlockSize(i));
        FreeBlock(afterStart, i);
        MoreFree(f0, freedStart, afterStart, f, afterStart, afterStart + BlockSize(i), FreeBlocks());
        afterStart := afterStart + BlockSize(i);
      }
    }

    /** Free a range of pages in blocks that are as large as possible. */
    method Free(addr: int, numPages: nat)
      requires Valid() && addr % PAGE_SIZE == 0 && heapAddress <= addr && addr + numPages * PAGE_SIZE <= EndAddress()
      requires NoneFree(FreeBlocks(), addr, addr + numPages * PAGE_SIZE)
      modifies `blocks
      ensures Valid() && SameFree(old(FreeBlocks()), addr, addr + numPages * PAGE_SIZE, FreeBlocks(), 0, 0)
    {
      hide HeapOk, IsFree, NoneFree, SameFree;
      ghost var f0 := FreeBlocks();
      if numPages == 0 {
        NothingFreed(f0, addr);
        return;
      }
      var bigIndex, beforeEnd, afterStart := FreeBig(addr, addr + numPages * PAGE_SIZE);
      FreeRest(addr, beforeEnd, afterStart, addr + numPages * PAGE_SIZE, bigIndex, f0);
    }

    /** Find the largest block size that fits into the range, and free as many of those blocks as possible. */
    method FreeBig(start: int, end: int) returns (bigIndex: nat, bigStart: int, bigEnd: int)
      requires Valid() && start % PAGE_SIZE == 0 && end % PAGE_SIZE == 0 && heapAddress <= start < end <= EndAddress()
      requires NoneFree(FreeBlocks(), start, end)
      modifies `blocks
      ensures Valid() && bigIndex < NUM_SIZES && Aligned(bigStart, bigIndex) && Aligned(bigEnd, bigIndex)
      ensures start <= bigStart < bigEnd <= end && bigStart < start + BlockSize(bigIndex) && end < bigEnd + BlockSize(bigIndex)
      ensures SameFree(old(FreeBlocks()), bigStart, bigEnd, FreeBlocks(), 0, 0)
    {
      hide HeapOk, IsFree, NoneFree, SameFree, AlignUp, AlignDown, BlockSize;
      bigIndex := NUM_SIZES - 1;
      while true
        invariant bigIndex < NUM_SIZES && Valid() && FreeBlocks() == old(FreeBlocks())
        decreases bigIndex
      {
        var blockSize := BlockSize(bigIndex);
        bigStart, bigEnd := AlignUp(start, blockSize), AlignDown(end, blockSize);
        RoundedIsMultiple(start, blockSize);
        RoundedIsMultiple(end, blockSize);
        if bigStart < bigEnd {
          PartNone(FreeBlocks(), start, end, bigStart, bigEnd);
          FreeBlocksOf(bigStart, bigEnd, bigIndex);
          return;
        }
        PagesFit(start, end, bigIndex);
        assert bigIndex > 0;  // the assertion in the source: some block size fits
        bigIndex := bigIndex - 1;
      }
    }

    /** The two last loops of Free: what is left before and after the big blocks. */
    method FreeRest(start: int, bigStart: int, bigEnd: int, end: int, bigIndex: nat, ghost f0: Blocks)
      requires Valid() && bigIndex < NUM_SIZES && Aligned(bigStart, bigIndex) && Aligned(bigEnd, bigIndex) && Aligned(start, 0) && Aligned(end, 0)
      requires heapAddress <= start <= bigStart <= bigEnd <= end <= EndAddress()
      requires bigStart < start + BlockSize(bigIndex) && end < bigEnd + BlockSize(bigIndex)
      requires NoneFree(f0, start, end) && SameFree(f0, bigStart, bigEnd, FreeBlocks(), 0, 0)
      modifies `blocks
      ensures Valid() && SameFree(f0, start, end, FreeBlocks(), 0, 0)
    {
      hide HeapOk, IsFree, NoneFree, SameFree, Aligned, BlockSize;
      var beforeEnd, afterStart := bigStart, bigEnd;
      PartNone(f0, start, end, start, bigEnd);
      var i := bigIndex;
      while i > 0
        invariant 0 <= i <= bigIndex && Valid() && start <= beforeEnd <= bigStart && Aligned(beforeEnd, i) && beforeEnd < start + BlockSize(i)
        invariant SameFree(f0, beforeEnd, bigEnd, FreeBlocks(), 0, 0)
      {
        i := i - 1;
        AlignedStep(beforeEnd, i);
        beforeEnd := FreeBefore(start, beforeEnd, i, f0, bigEnd);
      }
      NotBetween(beforeEnd, start, 0);
      i := bigIndex;
      while i > 0
        invariant 0 <= i <= bigIndex && Valid() && bigEnd <= afterStart <= end && Aligned(afterStart, i) && end < afterStart + BlockSize(i)
        invariant SameFree(f0, start, afterStart, FreeBlocks(), 0, 0)
      {
        i := i - 1;
        AlignedStep(afterStart, i);
        afterStart := FreeAfter(afterStart, end, i, f0, start);
      }
      NotBetween(end, afterStart, 0);
    }

    /** Take a free block of size `index`, cut from a larger one if need be. There is none only if no
        aligned range of that size is free. */
    method AllocateBlock(index: nat) returns (address: int)
      requires Valid() && index < NUM_SIZES
      modifies `blocks
      ensures Valid()
      ensures address == 0 <==> forall b :: Aligned(b, index) ==> !AllFree(old(FreeBlocks()), b, b + BlockSize(index))
      ensures address == 0 ==> FreeBlocks() == old(FreeBlocks())
      ensures address != 0 ==>
                && Aligned(address, index) && heapAddress <= address && address + BlockSize(index) <= EndAddress()
                && NoneFree(FreeBlocks(), address, address + BlockSize(index))
                && SameFree(FreeBlocks(), address, address + BlockSize(index), old(FreeBlocks()), 0, 0)
      // It is cut from a block of the smallest size that there is.
      ensures address != 0 ==>
                exists i {:trigger old(FreeBlocks())[i]} :: index <= i < NUM_SIZES && address in old(FreeBlocks())[i]
                  && forall j {:trigger old(FreeBlocks())[j]} :: index <= j < i ==> old(FreeBlocks())[j] == {}
    {
      hide HeapOk, IsFree, NoneFree, SameFree, AllFree, Aligned, BlockSize;
      ghost var f := FreeBlocks();
      var neededSize := BlockSize(index);
      for i := index to NUM_SIZES
        invariant Valid() && FreeBlocks() == f && forall j {:trigger f[j]} :: index <= j < i ==> f[j] == {}
      {
        address := PopBlock(i);
        if address != 0 {
          ghost var g := FreeBlocks();
          Popped(f, heapAddress, EndAddress(), i, address, g);
          var allocatedSize := BlockSize(i);
          CutFits(address, i, index);
          if allocatedSize > neededSize {
            PartNone(g, address, address + allocatedSize, address + neededSize, address + allocatedSize);
            Free(address + neededSize, (allocatedSize - neededSize) / PAGE_SIZE);
            CutOff(f, g, FreeBlocks(), address, address + neededSize, address + allocatedSize);
          }
          WasFree(FreeBlocks(), address, address + neededSize, f);
          return;
        }
      }
      address := 0;
      forall b | Aligned(b, index) ensures !AllFree(f, b, b + BlockSize(index)) {
        NoLargeBlock(f, heapAddress, EndAddress(), index, b);
      }
    }

    method GetNumFreePages() returns (numFree: nat)
      requires Valid() && heapSize >= 0 && heapSize % PAGE_SIZE == 0
      ensures numFree == |Pages(FreeBlocks(), heapAddress, EndAddress())|
    {
      hide HeapOk, PagesUpTo, BlockSize;
      numFree := 0;
      ghost var f := FreeBlocks();
      NoPagesYet(f, heapAddress, EndAddress());
      for i := 0 to NUM_SIZES
        invariant numFree == |PagesUpTo(f, heapAddress, EndAddress(), i)|
      {
        PagesOfSize(f, heapAddress, EndAddress(), i);
        AddressesCount(blocks[i], blocks[i].bits);
        var blockPages: nat := BlockSize(i) / PAGE_SIZE;
        var numFreeBlocks: nat := |blocks[i].bits|;
        numFree := numFree + numFreeBlocks * blockPages;
      }
    }
  }

  lemma Popped(f: Blocks, lo: int, hi: int, i: nat, b: int, g: Blocks)
    requires HeapOk(f, lo, hi) && i < NUM_SIZES && b in f[i] && g == f[i := f[i] - {b}]
    ensures HeapOk(g, lo, hi) && Aligned(b, i) && lo <= b && b + BlockSize(i) <= hi
    ensures NoneFree(g, b, b + BlockSize(i)) && SameFree(g, b, b + BlockSize(i), f, 0, 0)
  {
    FewerOk(f, g, lo, hi);
    assert g[i] + {b} == f[i];
    assert With(g, i, b) == f;
    WithFree(g, i, b);
    forall x {:trigger IsFree(g, x)} | b <= x < b + BlockSize(i) ensures !IsFree(g, x) {
      assert InBlock(f, i, b, x);
      if IsFree(g, x) {
        var j, c :| InBlock(g, j, c, x);
        assert InBlock(f, j, c, x);
      }
    }
  }

  lemma CutFits(a: int, i: nat, index: nat)
    requires index <= i < NUM_SIZES && Aligned(a, i)
    ensures Aligned(a, index) && (a + BlockSize(index)) % PAGE_SIZE == 0 && BlockSize(index) <= BlockSize(i)
    ensures (BlockSize(i) - BlockSize(index)) / PAGE_SIZE * PAGE_SIZE == BlockSize(i) - BlockSize(index)
  {
    AlignedBelow(a, i, index);
    AlignedBelow(a, index, 0);
  }

  lemma CutOff(f: Blocks, g: Blocks, h: Blocks, a: int, b: int, c: int)
    requires SameFree(g, a, c, f, 0, 0) && NoneFree(g, a, c) && SameFree(g, b, c, h, 0, 0) && a <= b <= c
    ensures SameFree(h, a, b, f, 0, 0) && NoneFree(h, a, b)
  {
  }

  lemma WasFree(g: Blocks, a: int, b: int, f: Blocks)
    requires SameFree(g, a, b, f, 0, 0)
    ensures AllFree(f, a, b)
  {
  }

  lemma NoLargeBlock(f: Blocks, lo: int, hi: int, index: nat, b: int)
    requires HeapOk(f, lo, hi) && index < NUM_SIZES && Aligned(b, index) && forall j {:trigger f[j]} :: index <= j < NUM_SIZES ==> f[j] == {}
    ensures !AllFree(f, b, b + BlockSize(index))
  {
    if AllFree(f, b, b + BlockSize(index)) {
      var j, c := FreeMeansOneBlock(f, lo, hi, index, b);
    }
  }

  /** The free pages of a region. */
  ghost function Pages(f: Blocks, lo: int, hi: int): set<int> {
    PagesUpTo(f, lo, hi, NUM_SIZES)
  }

  function PageNo(lo: int, k: int): int {
    lo + k * PAGE_SIZE
  }

  /** The pages that lie in free blocks of the first `n` sizes. */
  ghost function PagesUpTo(f: Blocks, lo: int, hi: int, n: nat): set<int>
    requires n <= NUM_SIZES
  {
    set k | 0 <= k < (hi - lo) / PAGE_SIZE && FreeUpTo(f, n, PageNo(lo, k)) :: PageNo(lo, k)
  }

  ghost predicate FreeUpTo(f: Blocks, n: nat, x: int)
    requires n <= NUM_SIZES
  {
    exists i: nat, b :: i < n && InBlock(f, i, b, x)
  }

  lemma NoPagesYet(f: Blocks, lo: int, hi: int)
    ensures |PagesUpTo(f, lo, hi, 0)| == 0
  {
    assert PagesUpTo(f, lo, hi, 0) == {};
  }

  /** The `n` pages from `b` on. */
  ghost function Row(b: int, n: int): set<int> {
    set k | 0 <= k < n :: PageNo(b, k)
  }

  /** The pages of the blocks of size `i` in `s`. */
  ghost function PagesIn(s: set<int>, i: nat): set<int>
    requires i < NUM_SIZES
  {
    set b, k | b in s && 0 <= k < BlockSize(i) / PAGE_SIZE :: PageNo(b, k)
  }

  lemma {:induction false} RowCount(b: int, n: nat)
    ensures |Row(b, n)| == n
  {
    if n == 0 {
      assert Row(b, 0) == {};
    } else {
      RowCount(b, n - 1);
      assert PageNo(b, n - 1) !in Row(b, n - 1);
      assert Row(b, n) == Row(b, n - 1) + {PageNo(b, n - 1)};
    }
  }

  lemma PagesInNone(i: nat)
    requires i < NUM_SIZES
    ensures PagesIn({}, i) == {}
  {
  }

  lemma {:induction false} PagesInCount(f: Blocks, lo: int, hi: int, s: set<int>, i: nat)
    requires HeapOk(f, lo, hi) && i < NUM_SIZES && s <= f[i]
    ensures |PagesIn(s, i)| == |s| * (BlockSize(i) / PAGE_SIZE)
    decreases |s|
  {
    hide BlockSize, PagesIn, Row, HeapOk;
    var n := BlockSize(i) / PAGE_SIZE;
    if s == {} {
      PagesInNone(i);
    } else {
      SomeMember(s);
      var b :| b in s;
      var t := s - {b};
      PagesInCount(f, lo, hi, t, i);
      RowCount(b, n);
      OneMore(s, b, i);
      RowApart(f, lo, hi, t, b, i);
      assert |s| == |t| + 1 && |PagesIn(s, i)| == |PagesIn(t, i)| + n;
      Distribute(|t|, n);
    }
  }

  lemma Distribute(m: int, n: int)
    ensures (m + 1) * n == m * n + n
  {
  }

  lemma RowApart(f: Blocks, lo: int, hi: int, t: set<int>, b: int, i: nat)
    requires HeapOk(f, lo, hi) && i < NUM_SIZES && t <= f[i] && b in f[i] && b !in t
    ensures PagesIn(t, i) * Row(b, BlockSize(i) / PAGE_SIZE) == {}
  {
    hide BlockSize;
    var n := BlockSize(i) / PAGE_SIZE;
    forall p | p in PagesIn(t, i) ensures p !in Row(b, n) {
      var c, k :| c in t && 0 <= k < n && p == PageNo(c, k);
      PageAligned(c, i);
      PageAligned(b, i);
      RowWithin(c, k, BlockSize(i));
      assert InBlock(f, i, c, p);
      RowIn(b, BlockSize(i), p);
      var other := InBlock(f, i, b, p);
    }
  }

  lemma RowIn(b: int, size: int, p: int)
    requires b % PAGE_SIZE == 0
    ensures p in Row(b, size / PAGE_SIZE) ==> b <= p < b + size
  {
  }

  lemma OneMore(s: set<int>, b: int, i: nat)
    requires i < NUM_SIZES && b in s
    ensures PagesIn(s, i) == PagesIn(s - {b}, i) + Row(b, BlockSize(i) / PAGE_SIZE)
  {
    hide BlockSize;
    var t, n := s - {b}, BlockSize(i) / PAGE_SIZE;
    forall p ensures p in PagesIn(s, i) <==> p in PagesIn(t, i) + Row(b, n) {
      if p in PagesIn(s, i) {
        var c, k :| c in s && 0 <= k < n && p == PageNo(c, k);
        assert c in t || c == b;
      }
    }
  }

  lemma PagesOfSize(f: Blocks, lo: int, hi: int, i: nat)
    requires HeapOk(f, lo, hi) && i < NUM_SIZES && lo % PAGE_SIZE == 0 && hi % PAGE_SIZE == 0
    ensures |PagesUpTo(f, lo, hi, i + 1)| == |PagesUpTo(f, lo, hi, i)| + |f[i]| * (BlockSize(i) / PAGE_SIZE)
  {
    hide BlockSize, HeapOk, PagesUpTo, PagesIn;
    PagesInCount(f, lo, hi, f[i], i);
    PagesJoin(f, lo, hi, i);
    PagesApart(f, lo, hi, i);
  }

  lemma PagesJoin(f: Blocks, lo: int, hi: int, i: nat)
    requires HeapOk(f, lo, hi) && i < NUM_SIZES && lo % PAGE_SIZE == 0 && hi % PAGE_SIZE == 0
    ensures PagesUpTo(f, lo, hi, i + 1) == PagesUpTo(f, lo, hi, i) + PagesIn(f[i], i)
  {
    hide BlockSize, PagesUpTo, PagesIn;
    var a, b, c := PagesUpTo(f, lo, hi, i + 1), PagesUpTo(f, lo, hi, i), PagesIn(f[i], i);
    forall p ensures p in a <==> p in b + c {
      PageSizes(f, lo, hi, i, p);
      if p in c {
        RowInPages(f, lo, hi, i, p);
      }
    }
  }

  /** A page up to a size is a page below that size or one of that size. */
  lemma PageSizes(f: Blocks, lo: int, hi: int, i: nat, p: int)
    requires HeapOk(f, lo, hi) && i < NUM_SIZES && lo % PAGE_SIZE == 0 && hi % PAGE_SIZE == 0
    ensures p in PagesUpTo(f, lo, hi, i + 1) ==> p in PagesUpTo(f, lo, hi, i) || p in PagesIn(f[i], i)
    ensures p in PagesUpTo(f, lo, hi, i) ==> p in PagesUpTo(f, lo, hi, i + 1)
  {
    hide BlockSize, PagesIn, Merged, Disjoint;
    if p in PagesUpTo(f, lo, hi, i) {
      var k :| 0 <= k < (hi - lo) / PAGE_SIZE && FreeUpTo(f, i, PageNo(lo, k)) && p == PageNo(lo, k);
      assert FreeUpTo(f, i + 1, PageNo(lo, k));
    } else if p in PagesUpTo(f, lo, hi, i + 1) {
      var k :| 0 <= k < (hi - lo) / PAGE_SIZE && FreeUpTo(f, i + 1, PageNo(lo, k)) && p == PageNo(lo, k);
      assert !FreeUpTo(f, i, p);
      var j: nat, d :| j < i + 1 && InBlock(f, j, d, p);
      InRow(f, lo, hi, i, d, p);
    }
  }

  lemma PagesApart(f: Blocks, lo: int, hi: int, i: nat)
    requires HeapOk(f, lo, hi) && i < NUM_SIZES
    ensures PagesUpTo(f, lo, hi, i) * PagesIn(f[i], i) == {}
  {
    hide BlockSize, Aligned;
    forall p | p in PagesIn(f[i], i) ensures p !in PagesUpTo(f, lo, hi, i) {
      var d, k :| d in f[i] && 0 <= k < BlockSize(i) / PAGE_SIZE && p == PageNo(d, k);
      PageAligned(d, i);
      RowWithin(d, k, BlockSize(i));
      assert InBlock(f, i, d, p);
      forall j: nat, e | j < i ensures !InBlock(f, j, e, p) {
      }
    }
  }

  /** Pages of an aligned range by number. */
  lemma IndexIn(d: int, p: int, end: int)
    requires d % PAGE_SIZE == 0 && p % PAGE_SIZE == 0 && end % PAGE_SIZE == 0 && d <= p < end
    ensures p == PageNo(d, (p - d) / PAGE_SIZE) && 0 <= (p - d) / PAGE_SIZE < (end - d) / PAGE_SIZE
  {
  }

  lemma PageAligned(d: int, i: nat)
    requires i < NUM_SIZES && Aligned(d, i)
    ensures d % PAGE_SIZE == 0 && (d + BlockSize(i)) % PAGE_SIZE == 0
  {
    AlignedBelow(d, i, 0);
  }

  lemma InRow(f: Blocks, lo: int, hi: int, i: nat, d: int, p: int)
    requires Placed(f, lo, hi) && InBlock(f, i, d, p) && p % PAGE_SIZE == 0
    ensures p in PagesIn(f[i], i)
  {
    hide BlockSize;
    PageAligned(d, i);
    IndexIn(d, p, d + BlockSize(i));
    assert d + BlockSize(i) - d == BlockSize(i);
  }

  lemma RowInPages(f: Blocks, lo: int, hi: int, i: nat, p: int)
    requires Placed(f, lo, hi) && i < NUM_SIZES && lo % PAGE_SIZE == 0 && hi % PAGE_SIZE == 0 && p in PagesIn(f[i], i)
    ensures p in PagesUpTo(f, lo, hi, i + 1)
  {
    hide BlockSize, Aligned;
    var d, k :| d in f[i] && 0 <= k < BlockSize(i) / PAGE_SIZE && p == PageNo(d, k);
    PageAligned(d, i);
    RowWithin(d, k, BlockSize(i));
    assert InBlock(f, i, d, p);
    assert FreeUpTo(f, i + 1, p);
    IndexIn(lo, p, hi);
  }

  lemma RowWithin(d: int, k: int, size: int)
    requires d % PAGE_SIZE == 0 && 0 <= k < size / PAGE_SIZE
    ensures d <= PageNo(d, k) < d + size && PageNo(d, k) % PAGE_SIZE == 0
  {
  }

  lemma {:induction false} ImageCount(s: set<int>, g: int -> int)
    requires forall x, y :: x in s && y in s && g(x) == g(y) ==> x == y
    ensures |set o | o in s :: g(o)| == |s|
    decreases |s|
  {
    var all := set o | o in s :: g(o);
    if s == {} {
      assert all == {};
    } else {
      SomeMember(s);
      var o :| o in s;
      var t := s - {o};
      ImageCount(t, g);
      var fewer := set k | k in t :: g(k);
      forall c ensures c in all <==> c in fewer + {g(o)} {
        if c in all {
          var k :| k in s && c == g(k);
          assert k == o || k in t;
        }
      }
      assert all == fewer + {g(o)} && g(o) !in fewer;
    }
  }

  lemma AddressesCount(b: Block, s: set<int>)
    requires b.level < NUM_SIZES
    ensures |b.(bits := s).Addresses()| == |s|
  {
    hide BlockSize;
    var n := BlockSize(b.level);
    var g := o => b.heapAddress + o * n;
    forall x, y | x in s && y in s && g(x) == g(y) ensures x == y {
      OffsetUnique(x * n, x, n);
      OffsetUnique(x * n, y, n);
    }
    ImageCount(s, g);
    assert b.(bits := s).Addresses() == set o | o in s :: g(o);
  }

  lemma NothingFreed(f: Blocks, x: int)
    ensures SameFree(f, x, x, f, 0, 0)
  {
  }

  lemma PartNone(f: Blocks, lo: int, hi: int, lo': int, hi': int)
    requires NoneFree(f, lo, hi) && lo <= lo' && hi' <= hi
    ensures NoneFree(f, lo', hi')
  {
  }

  /** A part that has not been freed yet is still not free. */
  lemma StillNone(f0: Blocks, lo: int, hi: int, a: int, b: int, f: Blocks, c: int, d: int)
    requires NoneFree(f0, lo, hi) && SameFree(f0, a, b, f, 0, 0) && lo <= c && d <= hi && (d <= a || b <= c)
    ensures NoneFree(f, c, d)
  {
  }

  lemma MoreFree(f0: Blocks, a: int, b: int, f: Blocks, c: int, d: int, g: Blocks)
    requires SameFree(f0, a, b, f, 0, 0) && SameFree(f, c, d, g, 0, 0) && a <= b && c <= d && (b == c || d == a)
    ensures SameFree(f0, if a < c then a else c, if b < d then d else b, g, 0, 0)
  {
  }

  /** If no block of size `i` fits between two pages, it is larger than a page. */
  lemma PagesFit(start: int, end: int, i: nat)
    requires i < NUM_SIZES && start % PAGE_SIZE == 0 && end % PAGE_SIZE == 0 && start < end
    requires AlignDown(end, BlockSize(i)) <= AlignUp(start, BlockSize(i))
    ensures i > 0
  {
  }

  lemma SomeMember(s: set<int>)
    ensures s == {} || exists y :: y in s
  {
    if !(exists y :: y in s) {
      assert s <= {};
    }
  }

  /** The free blocks after a block has been pushed, and the larger block that is then to be freed, or 0. */
  ghost function Pushed(f: Blocks, i: nat, b: int): (Blocks, int)
    requires i < NUM_SIZES
  {
    var g := With(f, i, b);
    if i + 1 < NUM_SIZES && Complete(g, i, Down(b, i + 1))
    then (Less(g, i, Down(b, i + 1), Down(b, i + 1) + BlockSize(i + 1)), Down(b, i + 1))
    else (g, 0)
  }

  lemma PushedIs(bs: seq<Block>, i: nat, a: int)
    requires |bs| == NUM_SIZES && forall j {:trigger bs[j]} :: 0 <= j < NUM_SIZES ==> bs[j].Valid() && bs[j].level == j
    requires i < NUM_SIZES && bs[i].Covers(a)
    ensures var (b, p) := bs[i].PushBlock(a); b.level == i && (AddressesOf(bs[i := b]), p) == Pushed(AddressesOf(bs), i, a)
  {
    hide Down, Block.Covers, Block.PushBlock, Block.Addresses, BlockSize, Full;
    PushBlockIs(bs[i], a);
    var (b, p) := bs[i].PushBlock(a);
    var f := AddressesOf(bs);
    assert With(f, i, a)[i] == bs[i].Addresses() + {a};
    var (g, q) := Pushed(f, i, a);
    assert AddressesOf(bs[i := b])[i] == g[i];
    assert AddressesOf(bs[i := b]) == g;
  }

  lemma PushedOk(f: Blocks, lo: int, hi: int, i: nat, b: int, g: Blocks, p: int)
    requires HeapOk(f, lo, hi) && lo > 0 && i < NUM_SIZES && Aligned(b, i) && lo <= b && b + BlockSize(i) <= hi && NoneFree(f, b, b + BlockSize(i))
    requires (g, p) == Pushed(f, i, b)
    ensures HeapOk(g, lo, hi)
    ensures p == 0 ==> SameFree(f, b, b + BlockSize(i), g, 0, 0)
    ensures p != 0 ==> i + 1 < NUM_SIZES && Aligned(p, i + 1) && lo <= p && p + BlockSize(i + 1) <= hi && NoneFree(g, p, p + BlockSize(i + 1))
    ensures p != 0 ==> SameFree(f, b, b + BlockSize(i), g, p, p + BlockSize(i + 1))
  {
    hide HeapOk, Complete, NoneFree, Aligned, Down, BlockSize, AlignDown, Less, With;
    if i + 1 < NUM_SIZES && Complete(With(f, i, b), i, Down(b, i + 1)) {
      SiblingsGo(f, lo, hi, i, b);
    } else {
      AddedStays(f, lo, hi, i, b);
      WithFree(f, i, b);
    }
  }

  lemma NothingMerged(f: Blocks)
    requires forall i :: 0 <= i < NUM_SIZES ==> f[i] == {}
    ensures Merged(f)
  {
    forall i, p {:trigger Complete(f, i, p)} | 0 <= i && i + 1 < NUM_SIZES && Aligned(p, i + 1) ensures !Complete(f, i, p) {
      AlignedStep(p, i);
      assert p !in f[i];
    }
  }

  lemma BitCleared(b: Block, o: int)
    requires b.Valid() && o in b.bits
    ensures var t := b.(bits := b.bits - {o});
            t.Valid() && t.Addresses() == b.Addresses() - {b.heapAddress + o * BlockSize(b.level)} && b.heapAddress + o * BlockSize(b.level) > 0
  {
    var t := b.(bits := b.bits - {o});
    var a := b.heapAddress + o * BlockSize(b.level);
    forall c ensures c in t.Addresses() <==> c in b.Addresses() - {a} {
      if c in t.Addresses() {
        var k :| k in t.bits && c == b.heapAddress + k * BlockSize(b.level);
        AddressAligned(b, k);
        AddressAligned(b, o);
      }
      if c in b.Addresses() - {a} {
        var k :| k in b.bits && c == b.heapAddress + k * BlockSize(b.level);
        assert k in t.bits;
      }
    }
    assert 0 <= o;
  }
}
