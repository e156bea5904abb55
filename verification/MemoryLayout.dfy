/** The regions of the physical or the virtual memory layout, as lists without gaps. */
module RegionLists {
  import opened Options

  const NO_PAIR: int := 0xFFFF_FFFF_FFFF_FFFF

  datatype MemoryRegion = MemoryRegion(address: int, size: int, pairAddress: int, attributes: bv32, typeId: bv32) {
    function End(): int { address + size }

    predicate CanDerive(t: bv32) { typeId | t == t }

    /** The address in the other layout that `x` belongs to. */
    function PairOf(x: int): Option<int> {
      if pairAddress == NO_PAIR then None else Some(pairAddress + (x - address))
    }

    /** No address of a paired region has the pair address that stands for none. */
    predicate Valid() {
      size > 0 && (pairAddress != NO_PAIR ==> pairAddress + size <= NO_PAIR)
    }
  }

  /** What a layout says about a single address. */
  datatype Info = Info(attributes: bv32, typeId: bv32, pair: Option<int>)

  /** The regions cover the addresses from `st` to `nd`, in order and without gaps. */
  ghost predicate Chain(rs: seq<MemoryRegion>, st: int, nd: int) {
    if rs == [] then st == nd
    else rs[0].address == st && rs[0].Valid() && Chain(rs[1..], rs[0].End(), nd)
  }

  ghost function InfoAt(rs: seq<MemoryRegion>, x: int): Option<Info> {
    if rs == [] then None
    else if rs[0].address <= x < rs[0].End() then Some(Info(rs[0].attributes, rs[0].typeId, rs[0].PairOf(x)))
    else InfoAt(rs[1..], x)
  }

  lemma {:induction false} ChainSplit(a: seq<MemoryRegion>, b: seq<MemoryRegion>, st: int, nd: int) returns (mid: int)
    requires Chain(a + b, st, nd)
    ensures st <= mid <= nd && Chain(a, st, mid) && Chain(b, mid, nd)
  {
    if a == [] {
      assert a + b == b;
      mid := st;
      InOrder(b, st, nd);
    } else {
      assert (a + b)[1..] == a[1..] + b;
      mid := ChainSplit(a[1..], b, a[0].End(), nd);
    }
  }

  lemma {:induction false} InOrder(rs: seq<MemoryRegion>, st: int, nd: int)
    requires Chain(rs, st, nd)
    ensures st <= nd
  {
    if rs != [] {
      InOrder(rs[1..], rs[0].End(), nd);
    }
  }

  lemma {:induction false} ChainJoin(a: seq<MemoryRegion>, b: seq<MemoryRegion>, st: int, mid: int, nd: int)
    requires Chain(a, st, mid) && Chain(b, mid, nd)
    ensures Chain(a + b, st, nd)
  {
    if a == [] {
      assert a + b == b;
    } else {
      assert (a + b)[1..] == a[1..] + b;
      ChainJoin(a[1..], b, a[0].End(), mid, nd);
    }
  }

  /** An address is where the list covers it. */
  lemma {:induction false} InfoCovered(rs: seq<MemoryRegion>, st: int, nd: int, x: int)
    requires Chain(rs, st, nd)
    ensures InfoAt(rs, x).Some? <==> st <= x < nd
  {
    if rs != [] {
      InOrder(rs[1..], rs[0].End(), nd);
      InfoCovered(rs[1..], rs[0].End(), nd, x);
    }
  }

  lemma {:induction false} InfoJoin(a: seq<MemoryRegion>, b: seq<MemoryRegion>, x: int)
    ensures InfoAt(a + b, x) == if InfoAt(a, x).Some? then InfoAt(a, x) else InfoAt(b, x)
  {
    if a == [] {
      assert a + b == b;
    } else {
      assert (a + b)[1..] == a[1..] + b;
      InfoJoin(a[1..], b, x);
    }
  }

  /** One region replaced by others that cover the same addresses. */
  lemma Replaced(rs: seq<MemoryRegion>, st: int, nd: int, i: nat, mid: seq<MemoryRegion>)
    requires Chain(rs, st, nd) && i < |rs| && Chain(mid, rs[i].address, rs[i].End())
    ensures var t := rs[..i] + mid + rs[i + 1..];
            && Chain(t, st, nd) && st <= rs[i].address && rs[i].End() <= nd
            && forall x {:trigger InfoAt(t, x)} :: InfoAt(t, x) == if rs[i].address <= x < rs[i].End() then InfoAt(mid, x) else InfoAt(rs, x)
  {
    var a, r, b := rs[..i], rs[i], rs[i + 1..];
    assert rs == a + ([r] + b) && ([r] + b)[1..] == b;
    var m := ChainSplit(a, [r] + b, st, nd);
    InOrder(b, r.End(), nd);
    ChainJoin(mid, b, r.address, r.End(), nd);
    ChainJoin(a, mid + b, st, m, nd);
    var t := a + mid + b;
    assert t == a + (mid + b);
    forall x {:trigger InfoAt(t, x)} ensures InfoAt(t, x) == if r.address <= x < r.End() then InfoAt(mid, x) else InfoAt(rs, x) {
      InfoJoin(a, mid + b, x);
      InfoJoin(mid, b, x);
      InfoJoin(a, [r] + b, x);
      InfoCovered(a, st, m, x);
      InfoCovered(mid, r.address, r.End(), x);
    }
  }

  /** A range `from` to `to` of region `r` made a region of its own. */
  function Cut(r: MemoryRegion, address: int, size: int, typeId: bv32, attr: bv32): seq<MemoryRegion> {
    var end := address + size;
    (if r.address != address then [MemoryRegion(r.address, address - r.address, r.pairAddress, r.attributes, r.typeId)] else [])
    + [MemoryRegion(address, size, if r.pairAddress != NO_PAIR then r.pairAddress + (address - r.address) else r.pairAddress, attr, typeId)]
    + (if r.End() - 1 != end - 1
       then [MemoryRegion(end, r.End() - end, if r.pairAddress != NO_PAIR then r.pairAddress + (end - r.address) else r.pairAddress, r.attributes, r.typeId)]
       else [])
  }

  lemma CutIs(r: MemoryRegion, address: int, size: int, typeId: bv32, attr: bv32)
    requires r.Valid() && r.address <= address && size > 0 && address + size <= r.End()
    ensures var c := Cut(r, address, size, typeId, attr);
            && Chain(c, r.address, r.End())
            && forall x {:trigger InfoAt(c, x)} :: r.address <= x < r.End() ==>
                 InfoAt(c, x) == Some(if address <= x < address + size then Info(attr, typeId, r.PairOf(x)) else Info(r.attributes, r.typeId, r.PairOf(x)))
  {
    var before := if r.address != address then [MemoryRegion(r.address, address - r.address, r.pairAddress, r.attributes, r.typeId)] else [];
    var end := address + size;
    var inside := [MemoryRegion(address, size, if r.pairAddress != NO_PAIR then r.pairAddress + (address - r.address) else r.pairAddress, attr, typeId)];
    var after := if r.End() != end
                 then [MemoryRegion(end, r.End() - end, if r.pairAddress != NO_PAIR then r.pairAddress + (end - r.address) else r.pairAddress, r.attributes, r.typeId)]
                 else [];
    var c := Cut(r, address, size, typeId, attr);
    assert c == (before + inside) + after;
    ChainJoin(before, inside, r.address, address, end);
    ChainJoin(before + inside, after, r.address, end, r.End());
    forall x {:trigger InfoAt(c, x)} | r.address <= x < r.End()
      ensures InfoAt(c, x) == Some(if address <= x < end then Info(attr, typeId, r.PairOf(x)) else Info(r.attributes, r.typeId, r.PairOf(x)))
    {
      InfoJoin(before + inside, after, x);
      InfoJoin(before, inside, x);
    }
  }
}

/** The trees of memory regions, and how pools are put into both of them. */
module MemoryLayouts {
  import opened Options
  import opened RegionLists

  class KMemoryRegionTree {
    var regions: seq<MemoryRegion>
    const start: int
    const end: int

    constructor (r: MemoryRegion)
      requires r.Valid()
      ensures Valid() && regions == [r] && start == r.address && end == r.End()
    {
      regions, start, end := [r], r.address, r.End();
    }

    ghost predicate Valid()
      reads this
    {
      Chain(regions, start, end)
    }

    /** The region that an address lies in. */
    method FindContainingRegion(address: int) returns (it: nat)
      requires Valid() && start <= address < end
      ensures it < |regions| && regions[it].address <= address < regions[it].End() && regions[it].Valid()
      ensures InfoAt(regions, address) == Some(Info(regions[it].attributes, regions[it].typeId, regions[it].PairOf(address)))
    {
      it := 0;
      ghost var from := start;
      assert regions[0..] == regions;
      while !(regions[it].address <= address < regions[it].End())
        invariant it < |regions| && Chain(regions[it..], from, end) && from <= address
        invariant InfoAt(regions, address) == InfoAt(regions[it..], address)
        decreases |regions| - it
      {
        assert regions[it..][1..] == regions[it + 1..];
        from := regions[it].End();
        it := it + 1;
      }
    }

    /** Make a range that lies in one region a region of its own, with a derived type. */
    method Insert(address: int, size: int, typeId: bv32, newAttr: bv32, oldAttr: bv32) returns (ok: bool, ghost at: nat)
      requires Valid() && start <= address < end && size > 0
      modifies `regions
      ensures Valid() && at < |old(regions)| && old(regions)[at].address <= address < old(regions)[at].End()
      ensures ok <==> old(regions)[at].attributes == oldAttr && address + size <= old(regions)[at].End() && old(regions)[at].CanDerive(typeId)
      ensures !ok ==> regions == old(regions)
      ensures ok ==> regions == old(regions)[..at] + Cut(old(regions)[at], address, size, typeId, newAttr) + old(regions)[at + 1..]
      ensures ok ==> Inserted(old(regions), regions, address, size, typeId, newAttr)
    {
      var it := FindContainingRegion(address);
      at := it;
      var r := regions[it];
      if r.attributes != oldAttr {
        return false, at;
      }
      var insertedRegionEnd := address + size;
      if r.End() - 1 < insertedRegionEnd - 1 {
        return false, at;
      }
      if !r.CanDerive(typeId) {
        return false, at;
      }
      ghost var rs := regions;
      CutIs(r, address, size, typeId, newAttr);
      Replaced(rs, start, end, it, Cut(r, address, size, typeId, newAttr));
      InfoIn(rs, start, end, it);
      // Erase the region, then insert up to three in its place.
      var parts: seq<MemoryRegion> := [];
      if r.address != address {
        parts := parts + [MemoryRegion(r.address, address - r.address, r.pairAddress, oldAttr, r.typeId)];
      }
      var newPair := if r.pairAddress != NO_PAIR then r.pairAddress + (address - r.address) else r.pairAddress;
      parts := parts + [MemoryRegion(address, size, newPair, newAttr, typeId)];
      if r.End() - 1 != insertedRegionEnd - 1 {
        var afterPair := if r.pairAddress != NO_PAIR then r.pairAddress + (insertedRegionEnd - r.address) else r.pairAddress;
        parts := parts + [MemoryRegion(insertedRegionEnd, r.End() - insertedRegionEnd, afterPair, oldAttr, r.typeId)];
      }
      assert parts == Cut(r, address, size, typeId, newAttr);
      regions := regions[..it] + parts + regions[it + 1..];
      ok := true;
    }

    /** The first region of that type and with those attributes; the source aborts if there is none. */
    method FindFirstRegionByTypeAttr(typeId: bv32, attr: bv32) returns (it: Option<nat>)
      ensures it.None? ==> forall i :: 0 <= i < |regions| ==> !IsOf(regions[i], typeId, attr)
      ensures it.Some? ==> it.value < |regions| && IsOf(regions[it.value], typeId, attr) && forall i :: 0 <= i < it.value ==> !IsOf(regions[i], typeId, attr)
    {
      for i := 0 to |regions|
        invariant forall k :: 0 <= k < i ==> !IsOf(regions[k], typeId, attr)
      {
        if IsOf(regions[i], typeId, attr) {
          return Some(i);
        }
      }
      return None;
    }
  }

  predicate IsOf(r: MemoryRegion, typeId: bv32, attr: bv32) {
    r.typeId == typeId && r.attributes == attr
  }

  /** Types only gain bits: a region without a type can be given any, and one that has a type can lose none of it. */
  lemma TypesGrow(r: MemoryRegion, t: bv32)
    ensures r.typeId == 0 ==> r.CanDerive(t)
    ensures r.CanDerive(t) ==> t & r.typeId == r.typeId
    ensures r.CanDerive(0) <==> r.typeId == 0
  {
  }

  /** A pool can be put into this region: it has no attributes, ends no earlier, and can be given the type. */
  predicate Accepts(r: MemoryRegion, address: int, size: int, typeId: bv32) {
    r.attributes == 0 && address + size <= r.End() && r.CanDerive(typeId)
  }

  /** Some region has the same type and attributes as `r`. */
  ghost predicate OneLike(rs: seq<MemoryRegion>, r: MemoryRegion) {
    exists i :: 0 <= i < |rs| && IsOf(rs[i], r.typeId, r.attributes)
  }

  /** Inside the range there are the new type and attributes, and the pair addresses of before; outside
      nothing has changed. */
  ghost predicate Inserted(rs: seq<MemoryRegion>, t: seq<MemoryRegion>, address: int, size: int, typeId: bv32, attr: bv32) {
    forall x {:trigger InfoAt(t, x)} {:trigger InfoAt(rs, x)} ::
      if address <= x < address + size
      then InfoAt(rs, x).Some? && InfoAt(t, x) == Some(Info(attr, typeId, InfoAt(rs, x).value.pair))
      else InfoAt(t, x) == InfoAt(rs, x)
  }

  /** The addresses of a region have what the region says. */
  lemma InfoIn(rs: seq<MemoryRegion>, st: int, nd: int, i: nat)
    requires Chain(rs, st, nd) && i < |rs|
    ensures forall x {:trigger InfoAt(rs, x)} :: rs[i].address <= x < rs[i].End() ==> InfoAt(rs, x) == Some(Info(rs[i].attributes, rs[i].typeId, rs[i].PairOf(x)))
    ensures rs[i].Valid()
  {
    var a, b := rs[..i], rs[i..];
    assert rs == a + b && b[0] == rs[i];
    var m := ChainSplit(a, b, st, nd);
    forall x {:trigger InfoAt(rs, x)} | rs[i].address <= x < rs[i].End()
      ensures InfoAt(rs, x) == Some(Info(rs[i].attributes, rs[i].typeId, rs[i].PairOf(x)))
    {
      InfoJoin(a, b, x);
      InfoCovered(a, st, m, x);
    }
  }

  /** An address and its pair have the same attributes. */
  ghost predicate Linked(p: seq<MemoryRegion>, v: seq<MemoryRegion>) {
    forall x {:trigger InfoAt(p, x)} :: InfoAt(p, x).Some? && InfoAt(p, x).value.pair.Some? ==>
      var there := InfoAt(v, InfoAt(p, x).value.pair.value);
      there.Some? && there.value.attributes == InfoAt(p, x).value.attributes
  }

  /** Different addresses have different pairs. */
  ghost predicate OneToOne(p: seq<MemoryRegion>) {
    forall x, y {:trigger InfoAt(p, x), InfoAt(p, y)} ::
      InfoAt(p, x).Some? && InfoAt(p, y).Some? && InfoAt(p, x).value.pair.Some? && InfoAt(p, x).value.pair == InfoAt(p, y).value.pair ==> x == y
  }

  /** Inserting a range with the same attributes on both sides keeps them linked. */
  lemma BothInserted(p: seq<MemoryRegion>, p': seq<MemoryRegion>, v: seq<MemoryRegion>, v': seq<MemoryRegion>,
                     start: int, pair: int, size: int, physType: bv32, virtType: bv32, attr: bv32)
    requires Linked(p, v) && OneToOne(p) && Inserted(p, p', start, size, physType, attr) && Inserted(v, v', pair, size, virtType, attr)
    requires forall x {:trigger InfoAt(p, x)} :: start <= x < start + size ==> InfoAt(p, x).Some? && InfoAt(p, x).value.pair == Some(pair + (x - start))
    ensures Linked(p', v') && OneToOne(p')
  {
    forall x {:trigger InfoAt(p', x)} | InfoAt(p', x).Some? && InfoAt(p', x).value.pair.Some?
      ensures var there := InfoAt(v', InfoAt(p', x).value.pair.value);
              there.Some? && there.value.attributes == InfoAt(p', x).value.attributes
    {
      assert InfoAt(p, x).Some? && InfoAt(p, x).value.pair == InfoAt(p', x).value.pair;
      var y := InfoAt(p, x).value.pair.value;
      var at, source := InfoAt(v, y), InfoAt(p, start + (y - pair));
    }
    forall x, y {:trigger InfoAt(p', x), InfoAt(p', y)}
      | InfoAt(p', x).Some? && InfoAt(p', y).Some? && InfoAt(p', x).value.pair.Some? && InfoAt(p', x).value.pair == InfoAt(p', y).value.pair
      ensures x == y
    {
      assert InfoAt(p, x).Some? && InfoAt(p, x).value.pair == InfoAt(p', x).value.pair;
      assert InfoAt(p, y).Some? && InfoAt(p, y).value.pair == InfoAt(p', y).value.pair;
    }
  }

  /** Put a pool into the physical layout and, at the pair address, into the virtual one. The source aborts
      when either does not accept it, or when there is no pair address; `ok` is false then. */
  method InsertPoolPartitionRegionIntoBothTrees(phys: KMemoryRegionTree, virt: KMemoryRegionTree, start: int, size: int,
                                                physType: bv32, virtType: bv32, curAttr: bv32)
    returns (ok: bool, nextAttr: bv32, ghost at: nat, ghost vat: nat)
    requires phys != virt && phys.Valid() && virt.Valid() && phys.start <= start < phys.end && size > 0
    requires Linked(phys.regions, virt.regions) && OneToOne(phys.regions)
    requires forall i :: 0 <= i < |phys.regions| ==> !IsOf(phys.regions[i], physType, curAttr)
    modifies phys`regions, virt`regions
    ensures phys.Valid() && virt.Valid() && nextAttr == curAttr + 1
    // It goes through exactly when both regions, which have no attributes yet, have room and can be given the type.
    ensures at < |old(phys.regions)| && old(phys.regions)[at].address <= start < old(phys.regions)[at].End()
    ensures var r := old(phys.regions)[at];
            var pair := r.PairOf(start);
            && (Accepts(r, start, size, physType) && pair.Some? && virt.start <= pair.value < virt.end ==>
                  vat < |old(virt.regions)| && old(virt.regions)[vat].address <= pair.value < old(virt.regions)[vat].End())
            && (ok <==> Accepts(r, start, size, physType) && pair.Some? && virt.start <= pair.value < virt.end
                        && Accepts(old(virt.regions)[vat], pair.value, size, virtType))
    ensures ok ==> Linked(phys.regions, virt.regions) && OneToOne(phys.regions)
    ensures ok ==> Inserted(old(phys.regions), phys.regions, start, size, physType, curAttr)
    // So that the next pool, with the next attribute, can be put in as well.
    ensures ok ==> forall i :: 0 <= i < |phys.regions| ==> IsOf(phys.regions[i], physType, curAttr) || OneLike(old(phys.regions), phys.regions[i])
    ensures ok ==>
              && InfoAt(old(phys.regions), start).Some? && InfoAt(old(phys.regions), start).value.pair.Some?
              && Inserted(old(virt.regions), virt.regions, InfoAt(old(phys.regions), start).value.pair.value, size, virtType, curAttr)
  {
    hide Chain, InfoAt, Linked, OneToOne, Inserted;
    var attr := curAttr;
    nextAttr := curAttr + 1;
    ghost var p := phys.regions;
    vat := 0;
    ok, at := phys.Insert(start, size, physType, attr, 0);
    if !ok {
      return;
    }
    var found := phys.FindFirstRegionByTypeAttr(physType, attr);
    FoundInserted(p, phys.start, phys.end, at, start, size, physType, attr, phys.regions);
    var pair := phys.regions[found.value].pairAddress;
    if pair == NO_PAIR || !(virt.start <= pair < virt.end) {
      return false, nextAttr, at, vat;
    }
    ghost var v := virt.regions;
    ok, vat := virt.Insert(pair, size, virtType, attr, 0);
    if ok {
      BothInserted(p, phys.regions, v, virt.regions, start, pair, size, physType, virtType, attr);
    }
  }

  /** Only the middle part of a region that has been cut up has the new type and attributes. */
  lemma CutParts(r: MemoryRegion, address: int, size: int, typeId: bv32, attr: bv32)
    requires r.Valid() && r.address <= address && size > 0 && address + size <= r.End()
    ensures var c := Cut(r, address, size, typeId, attr);
            var k := if r.address != address then 1 else 0;
            && k < |c| && IsOf(c[k], typeId, attr)
            && c[k].pairAddress == (if r.pairAddress != NO_PAIR then r.pairAddress + (address - r.address) else NO_PAIR)
            && forall i :: 0 <= i < |c| && i != k ==> c[i].typeId == r.typeId && c[i].attributes == r.attributes
  {
  }

  /** Where the new region stands, and that no other region has its type and attributes. */
  lemma OnlyInserted(p: seq<MemoryRegion>, at: nat, c: seq<MemoryRegion>, k: nat, typeId: bv32, attr: bv32)
    requires at < |p| && k < |c| && IsOf(c[k], typeId, attr)
    requires forall i :: 0 <= i < |c| && i != k ==> c[i].typeId == p[at].typeId && c[i].attributes == p[at].attributes
    requires forall i :: 0 <= i < |p| ==> !IsOf(p[i], typeId, attr)
    ensures var t := p[..at] + c + p[at + 1..];
            && t[at + k] == c[k] && forall i :: 0 <= i < |t| && i != at + k ==> !IsOf(t[i], typeId, attr) && OneLike(p, t[i])
  {
    var t := p[..at] + c + p[at + 1..];
    forall i | 0 <= i < |t| && i != at + k ensures !IsOf(t[i], typeId, attr) && OneLike(p, t[i]) {
      var from := if i < at then i else if i < at + |c| then at else i - |c| + 1;
      assert IsOf(p[from], t[i].typeId, t[i].attributes);
    }
  }

  /** The region found by type and attributes is the one just inserted, and so it has the pair address of its start. */
  lemma FoundInserted(p: seq<MemoryRegion>, st: int, nd: int, at: nat, start: int, size: int, typeId: bv32, attr: bv32, t: seq<MemoryRegion>)
    requires Chain(p, st, nd) && at < |p| && p[at].address <= start && start + size <= p[at].End() && size > 0
    requires forall i :: 0 <= i < |p| ==> !IsOf(p[i], typeId, attr)
    requires t == p[..at] + Cut(p[at], start, size, typeId, attr) + p[at + 1..]
    ensures exists i :: 0 <= i < |t| && IsOf(t[i], typeId, attr)
    ensures forall i :: 0 <= i < |t| ==> IsOf(t[i], typeId, attr) || OneLike(p, t[i])
    ensures forall i :: 0 <= i < |t| && IsOf(t[i], typeId, attr) ==>
              t[i].pairAddress == if p[at].pairAddress != NO_PAIR then p[at].pairAddress + (start - p[at].address) else NO_PAIR
    ensures p[at].pairAddress != NO_PAIR ==> forall x {:trigger InfoAt(p, x)} :: start <= x < start + size ==>
              InfoAt(p, x).Some? && InfoAt(p, x).value.pair == Some(p[at].pairAddress + (start - p[at].address) + (x - start))
    ensures p[at].pairAddress != NO_PAIR ==> p[at].pairAddress + (start - p[at].address) != NO_PAIR
  {
    hide Chain, InfoAt, Cut;
    InfoIn(p, st, nd, at);
    CutParts(p[at], start, size, typeId, attr);
    var k: nat := if p[at].address != start then 1 else 0;
    OnlyInserted(p, at, Cut(p[at], start, size, typeId, attr), k, typeId, attr);
    assert IsOf(t[at + k], typeId, attr);
  }
}
