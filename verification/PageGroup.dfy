/** Groups of pages, as lists of contiguous runs. */
module PageGroups {
  import opened Alignments

  datatype BlockInfo = BlockInfo(address: int, numPages: nat) {
    function End(): int { address + numPages * PAGE_SIZE }
  }

  /** The addresses of `n` contiguous pages. */
  function Run(a: int, n: nat): seq<int> {
    seq(n, k => a + k * PAGE_SIZE)
  }

  /** The pages of a group, one by one. */
  function Flatten(bs: seq<BlockInfo>): seq<int> {
    if bs == [] then [] else Run(bs[0].address, bs[0].numPages) + Flatten(bs[1..])
  }

  /** Run `i` does not continue in the next one. */
  ghost predicate Detached(bs: seq<BlockInfo>, i: int) {
    0 <= i < |bs| - 1 ==> bs[i].End() != bs[i + 1].address
  }

  /** What AddBlock builds: non-empty runs that are as long as possible. */
  ghost predicate WellFormed(bs: seq<BlockInfo>) {
    && (forall i {:trigger bs[i]} :: 0 <= i < |bs| ==> bs[i].numPages > 0)
    && (forall i {:trigger Detached(bs, i)} :: Detached(bs, i))
  }

  lemma {:induction false} FlattenAppend(a: seq<BlockInfo>, b: seq<BlockInfo>)
    ensures Flatten(a + b) == Flatten(a) + Flatten(b)
  {
    if a == [] {
      assert a + b == b;
    } else {
      assert (a + b)[1..] == a[1..] + b;
      FlattenAppend(a[1..], b);
    }
  }

  lemma FlattenOne(b: BlockInfo)
    ensures Flatten([b]) == Run(b.address, b.numPages)
  {
    assert [b][1..] == [];
  }

  lemma RunSplit(a: int, m: nat, n: nat)
    ensures Run(a, m + n) == Run(a, m) + Run(a + m * PAGE_SIZE, n)
  {
  }

  lemma TailWellFormed(bs: seq<BlockInfo>)
    requires WellFormed(bs) && bs != []
    ensures WellFormed(bs[1..])
  {
    forall i {:trigger Detached(bs[1..], i)} ensures Detached(bs[1..], i) {
      assert Detached(bs, i + 1);
    }
  }

  /** A run of a well-formed group ends where the pages stop being contiguous. */
  lemma RunEnds(bs: seq<BlockInfo>, i: nat)
    requires WellFormed(bs) && bs != [] && bs[0].numPages == i < |Flatten(bs)|
    ensures Flatten(bs)[i] != bs[0].End()
  {
    assert Detached(bs, 0);
    if |bs| > 1 {
      assert Flatten(bs)[i] == Flatten(bs[1..])[0];
      assert bs[1].numPages > 0;
      assert Flatten(bs[1..])[0] == bs[1].address;
    }
  }

  lemma HasPages(bs: seq<BlockInfo>)
    requires WellFormed(bs)
    ensures Flatten(bs) == [] <==> bs == []
  {
    if bs != [] {
      assert bs[0].numPages > 0;
    }
  }

  lemma FirstRun(bs: seq<BlockInfo>)
    requires bs != []
    ensures bs[0].numPages <= |Flatten(bs)|
    ensures forall k :: 0 <= k < bs[0].numPages ==> Flatten(bs)[k] == bs[0].address + k * PAGE_SIZE
  {
  }

  /** A well-formed group is determined by its pages. */
  lemma {:induction false} GroupsDetermined(a: seq<BlockInfo>, b: seq<BlockInfo>)
    requires WellFormed(a) && WellFormed(b) && Flatten(a) == Flatten(b)
    ensures a == b
  {
    HasPages(a);
    HasPages(b);
    if a != [] && b != [] {
      var f := Flatten(a);
      assert f[0] == a[0].address == b[0].address;
      NotLonger(a, b);
      NotLonger(b, a);
      TailWellFormed(a);
      TailWellFormed(b);
      assert Flatten(a[1..]) == f[a[0].numPages..] == Flatten(b[1..]);
      GroupsDetermined(a[1..], b[1..]);
      assert a == [a[0]] + a[1..] && b == [b[0]] + b[1..];
    }
  }

  lemma NotLonger(a: seq<BlockInfo>, b: seq<BlockInfo>)
    requires WellFormed(a) && a != [] && b != [] && Flatten(a) == Flatten(b) && a[0].address == b[0].address
    ensures b[0].numPages <= a[0].numPages
  {
    var n := a[0].numPages;
    FirstRun(b);
    if n < b[0].numPages {
      RunEnds(a, n);
    }
  }

  /** The runs of a group to which pages have been added. */
  function Appended(bs: seq<BlockInfo>, addr: int, numPages: nat): seq<BlockInfo> {
    var n := |bs| - 1;
    if numPages == 0 then bs
    else if n >= 0 && addr != 0 && addr == bs[n].End() then bs[..n] + [BlockInfo(bs[n].address, bs[n].numPages + numPages)]
    else bs + [BlockInfo(addr, numPages)]
  }

  class KPageGroup {
    var blocks: seq<BlockInfo>

    constructor ()
      ensures blocks == []
    {
      blocks := [];
    }

    /** Let go of every run. */
    method Finalize()
      modifies this
      ensures blocks == []
    {
      while blocks != [] {
        blocks := blocks[1..];
      }
    }

    method GetNumPages() returns (numPages: nat)
      ensures numPages == |Flatten(blocks)|
    {
      numPages := 0;
      for i := 0 to |blocks|
        invariant numPages == |Flatten(blocks[..i])|
      {
        numPages := numPages + blocks[i].numPages;
        assert blocks[..i + 1] == blocks[..i] + [blocks[i]];
        FlattenAppend(blocks[..i], [blocks[i]]);
        FlattenOne(blocks[i]);
      }
      assert blocks[..|blocks|] == blocks;
    }

    /** Append pages. The block that a new run needs may not be available. */
    method AddBlock(addr: int, numPages: nat) returns (ok: bool)
      modifies this
      ensures ok ==> blocks == Appended(old(blocks), addr, numPages)
      ensures ok ==> Flatten(blocks) == old(Flatten(blocks)) + Run(addr, numPages)
      ensures ok && addr != 0 && old(WellFormed(blocks)) ==> WellFormed(blocks)
      ensures !ok ==> blocks == old(blocks) && numPages > 0
    {
      ok := true;
      if numPages == 0 {
        return;
      }
      ghost var was := blocks;
      var n := |blocks| - 1;
      if n >= 0 && addr != 0 && addr == blocks[n].End() {
        blocks := blocks[..n] + [BlockInfo(blocks[n].address, blocks[n].numPages + numPages)];
        Concatenated(was, addr, numPages);
      } else {
        ok := *;
        if ok {
          blocks := blocks + [BlockInfo(addr, numPages)];
          FlattenAppend(was, [BlockInfo(addr, numPages)]);
          FlattenOne(BlockInfo(addr, numPages));
          forall i {:trigger Detached(blocks, i)} | addr != 0 && WellFormed(was) ensures Detached(blocks, i) {
            assert Detached(was, i);
          }
        }
      }
    }

    /** Two groups are equivalent when they hold the same runs. */
    method IsEquivalentTo(rhs: KPageGroup) returns (same: bool)
      ensures same <==> blocks == rhs.blocks
      ensures WellFormed(blocks) && WellFormed(rhs.blocks) ==> (same <==> Flatten(blocks) == Flatten(rhs.blocks))
    {
      if WellFormed(blocks) && WellFormed(rhs.blocks) && Flatten(blocks) == Flatten(rhs.blocks) {
        GroupsDetermined(blocks, rhs.blocks);
      }
      var it := 0;
      while it < |blocks| && it < |rhs.blocks|
        invariant 0 <= it <= |blocks| && it <= |rhs.blocks| && blocks[..it] == rhs.blocks[..it]
      {
        if blocks[it] != rhs.blocks[it] {
          return false;
        }
        it := it + 1;
      }
      same := it == |blocks| && it == |rhs.blocks|;
      assert blocks[..|blocks|] == blocks && rhs.blocks[..|rhs.blocks|] == rhs.blocks;
    }
  }

  /** Appending to the last run. */
  lemma Concatenated(bs: seq<BlockInfo>, addr: int, numPages: nat)
    requires bs != [] && addr == bs[|bs| - 1].End()
    ensures var n := |bs| - 1;
            var t := bs[..n] + [BlockInfo(bs[n].address, bs[n].numPages + numPages)];
            Flatten(t) == Flatten(bs) + Run(addr, numPages) && (WellFormed(bs) ==> WellFormed(t))
  {
    var n := |bs| - 1;
    var b := BlockInfo(bs[n].address, bs[n].numPages + numPages);
    var t := bs[..n] + [b];
    assert bs == bs[..n] + [bs[n]];
    FlattenAppend(bs[..n], [bs[n]]);
    FlattenAppend(bs[..n], [b]);
    FlattenOne(bs[n]);
    FlattenOne(b);
    RunSplit(bs[n].address, bs[n].numPages, numPages);
    forall i {:trigger Detached(t, i)} | WellFormed(bs) ensures Detached(t, i) {
      assert Detached(bs, i);
    }
  }
}
