/** Handing a lock over: `RemoveWaiterByKey` takes the waiters on one key off a thread's list, makes
    the first of them the next owner and puts the others under it. */
module LockHandovers {
  import opened Options
  import opened PriorityQueues
  import opened LockForests

  /** The entries of `ws` waiting on `key` (or, for `on` false, on other keys), in order. */
  function Keyed<M>(w: World<M>, ws: seq<M>, key: int, on: bool): (r: seq<M>)
    requires forall x :: x in ws ==> x in w
    ensures forall x :: x in r ==> x in ws && (w[x].key == key) == on
    ensures forall x :: x in ws && (w[x].key == key) == on ==> x in r
    ensures Distinct(ws) ==> Distinct(r)
  {
    if ws == [] then [] else (if (w[ws[0]].key == key) == on then [ws[0]] else []) + Keyed(w, ws[1..], key, on)
  }

  /** `ws` after inserting the members of `more`, one after the other. */
  function InsertedAll<M>(w: World<M>, ws: seq<M>, more: seq<M>): (r: seq<M>)
    requires (forall x :: x in ws ==> x in w) && (forall x :: x in more ==> x in w)
    ensures forall x :: x in r ==> x in w
  {
    if more == [] then ws
    else
      var n := |more| - 1;
      Inserted(w, InsertedAll(w, ws, more[..n]), more[n])
  }

  ghost predicate SameFacts<M>(w0: World<M>, w: World<M>) {
    && w.Keys == w0.Keys
    && (forall x {:trigger w[x].base} :: x in w0 ==> w[x].base == w0[x].base)
    && (forall x {:trigger w[x].priority} :: x in w0 ==> w[x].priority == w0[x].priority)
    && (forall x {:trigger w[x].key} :: x in w0 ==> w[x].key == w0[x].key)
  }

  ghost predicate OwnersAfter<M>(w0: World<M>, w: World<M>, taken: seq<M>) {
    && w.Keys == w0.Keys
    && (forall x {:trigger w[x].owner} :: x in w0 && x !in taken ==> w[x].owner == w0[x].owner)
    && (forall x {:trigger w[x].owner} :: x in w0 && x in taken ==> w[x].owner == OwnerAfter(taken, x))
  }

  ghost predicate ListsAfter<M>(w0: World<M>, w: World<M>, o: M, taken: seq<M>, left: seq<M>) {
    && o in w0 && w.Keys == w0.Keys
    && w[o].waiters == left
    && (forall x {:trigger w[x].waiters} :: x in w0 && x != o && First(taken) != Some(x) ==> w[x].waiters == w0[x].waiters)
    && (taken != [] ==> InheritsWaiters(w0, w, taken))
  }

  /** `w` is `w0` with the threads in `taken` handed over by `o`, which still has `left` as waiters:
      the first of `taken` is owned by nobody, the others wait for it. */
  ghost predicate HandedOver<M>(w0: World<M>, w: World<M>, o: M, taken: seq<M>, left: seq<M>) {
    SameFacts(w0, w) && OwnersAfter(w0, w, taken) && ListsAfter(w0, w, o, taken, left)
  }

  ghost function OwnerAfter<M>(taken: seq<M>, x: M): Option<M>
    requires taken != []
  {
    if x == taken[0] then None else Some(taken[0])
  }

  /** The next owner has its own waiters and, inserted in turn, all that were taken with it. */
  ghost predicate InheritsWaiters<M>(w0: World<M>, w: World<M>, taken: seq<M>)
    requires taken != []
  {
    && (forall x :: x in taken ==> x in w0)
    && taken[0] in w0 && taken[0] in w
    && (forall x :: x in w0[taken[0]].waiters ==> x in w0)
    && w[taken[0]].waiters == InsertedAll(w0, w0[taken[0]].waiters, taken[1..])
  }

  ghost function First<M>(s: seq<M>): Option<M> {
    if s == [] then None else Some(s[0])
  }

  /** What the loop does to the forest when it reaches waiter `x` of `o` on the key. */
  function HandOver<M(==)>(w: World<M>, o: M, x: M, next: Option<M>): World<M>
    requires o in w && x in w && o != x
    requires next.Some? ==> next.value in w && next.value != x && forall y :: y in Detach(w, o, x)[next.value].waiters ==> y in w
  {
    var d := Detach(w, o, x);
    if next.None? then d else Attach(d, next.value, x)
  }

  /** Attaching an entry changes what its owner should inherit only if the entry is more urgent. */
  lemma AttachInherited<M>(w: World<M>, o: M, t: M)
    requires o in w && t in w && o != t && Ordered(w, w[o].waiters)
    ensures Inherited(Attach(w, o, t), o) == Min(Inherited(w, o), w[t].priority)
  {
  }

  lemma RootBelow<M>(w: World<M>, t: M, a: M)
    requires t in w && w[t].owner.None?
    ensures Below(w, t, a) <==> t == a
  {
    assert Up(w, t, 0) == Some(t);
    if Below(w, t, a) {
      var n: nat :| Up(w, t, n) == Some(a);
    }
  }

  /** Handing one more waiter over keeps the forest, but for what `o` inherits. */
  lemma HandOverKeeps<M>(w: World<M>, o: M, x: M, next: Option<M>)
    requires ForestBut(w, {o}) && x in w && w[x].owner == Some(o)
    requires next.Some? ==> next.value in w && next.value != x && next.value != o && w[next.value].owner.None?
    requires next.Some? ==> w[next.value].priority <= w[x].priority
    ensures o in w && o != x
    ensures next.Some? ==> forall y :: y in Detach(w, o, x)[next.value].waiters ==> y in w
    ensures ForestBut(HandOver(w, o, x, next), {o})
  {
    DetachKeeps(w, o, x, {o});
    assert {o} + {o} == {o};
    var d := Detach(w, o, x);
    if next.Some? {
      var n := next.value;
      assert Ordered(d, d[n].waiters);
      RootBelow(d, n, x);
      AttachKeeps(d, n, x, {o});
      var a := Attach(d, n, x);
      AttachInherited(d, n, x);
      assert d[n].priority == Inherited(d, n);
      assert a[n].priority == Inherited(a, n);
    }
  }

  lemma HandOverFacts<M>(w0: World<M>, w: World<M>, o: M, x: M, next: Option<M>)
    requires o in w && x in w && o != x && SameFacts(w0, w)
    requires next.Some? ==> next.value in w && next.value != x && forall y :: y in Detach(w, o, x)[next.value].waiters ==> y in w
    ensures SameFacts(w0, HandOver(w, o, x, next))
  {
  }

  lemma HandOverOwners<M>(w0: World<M>, w: World<M>, o: M, x: M, taken: seq<M>)
    requires o in w && x in w && o != x && x !in taken && OwnersAfter(w0, w, taken)
    requires taken != [] ==> taken[0] in w && forall y :: y in Detach(w, o, x)[taken[0]].waiters ==> y in w
    ensures taken != [] ==> taken[0] in taken
    ensures OwnersAfter(w0, HandOver(w, o, x, First(taken)), taken + [x])
  {
    if taken != [] {
      assert taken[0] in taken && (taken + [x])[0] == taken[0];
    }
  }

  /** Taking the first waiter on the key: it becomes the next owner. */
  lemma TakeFirst<M>(w0: World<M>, w: World<M>, o: M, kept: seq<M>, x: M, rest: seq<M>)
    requires HandedOver(w0, w, o, [], kept + [x] + rest) && x !in kept
    requires x in w0 && o != x && (forall y :: y in w0[x].waiters ==> y in w0)
    ensures HandedOver(w0, HandOver(w, o, x, None), o, [x], kept + rest)
  {
    HandOverFacts(w0, w, o, x, None);
    HandOverOwners(w0, w, o, x, []);
    assert [] + [x] == [x];
    WithoutSplit(kept, x, rest);
    assert [x][1..] == [];
    assert ListsAfter(w0, HandOver(w, o, x, None), o, [x], kept + rest);
  }

  /** Taking a further waiter: it goes under the next owner. */
  lemma TakeMore<M>(w0: World<M>, w: World<M>, o: M, taken: seq<M>, kept: seq<M>, x: M, rest: seq<M>)
    requires taken != [] && HandedOver(w0, w, o, taken, kept + [x] + rest) && x !in kept
    requires x in w0 && o != x && x !in taken && o !in taken
    ensures x in w && taken[0] in w && taken[0] in taken
    ensures forall y :: y in Detach(w, o, x)[taken[0]].waiters ==> y in w
    ensures HandedOver(w0, HandOver(w, o, x, Some(taken[0])), o, taken + [x], kept + rest)
  {
    var n := taken[0];
    assert n in taken;
    assert Detach(w, o, x)[n].waiters == w[n].waiters;
    HandOverFacts(w0, w, o, x, Some(n));
    HandOverOwners(w0, w, o, x, taken);
    HandOverLists(w0, w, o, taken, kept, x, rest);
  }

  lemma HandOverLists<M>(w0: World<M>, w: World<M>, o: M, taken: seq<M>, kept: seq<M>, x: M, rest: seq<M>)
    requires taken != [] && ListsAfter(w0, w, o, taken, kept + [x] + rest) && x !in kept
    requires forall y {:trigger w[y].priority} :: y in w0 ==> w[y].priority == w0[y].priority
    requires x in w0 && o != x && x !in taken && o !in taken
    ensures taken[0] in taken && forall y :: y in Detach(w, o, x)[taken[0]].waiters ==> y in w
    ensures ListsAfter(w0, HandOver(w, o, x, Some(taken[0])), o, taken + [x], kept + rest)
  {
    var n, d := taken[0], Detach(w, o, x);
    assert n in taken && n != x && n != o;
    assert d[n].waiters == w[n].waiters;
    var w' := Attach(d, n, x);
    assert w'[o].waiters == kept + rest by { WithoutSplit(kept, x, rest); }
    TakenUnder(w0, w, d, taken, x);
    assert w'[n].waiters == InsertedAll(w0, w0[n].waiters, (taken + [x])[1..]);
    assert (taken + [x])[0] == n;
  }

  lemma TakenUnder<M>(w0: World<M>, w: World<M>, d: World<M>, taken: seq<M>, x: M)
    requires taken != [] && InheritsWaiters(w0, w, taken) && x in w0 && d.Keys == w0.Keys
    requires forall y {:trigger d[y].priority} :: y in w0 ==> d[y].priority == w0[y].priority
    requires taken[0] in d && d[taken[0]].waiters == w[taken[0]].waiters
    ensures forall y :: y in d[taken[0]].waiters ==> y in d
    ensures Inserted(d, d[taken[0]].waiters, x) == InsertedAll(w0, w0[taken[0]].waiters, (taken + [x])[1..])
  {
    var n := taken[0];
    var more := (taken + [x])[1..];
    assert more == taken[1..] + [x];
    assert more[..|more| - 1] == taken[1..];
    InsertedSame(w0, d, d[n].waiters, x);
  }

  /** The state of the loop of `RemoveWaiterByKey`: `taken` and `kept` are the waiters looked at. */
  ghost predicate LoopState<M>(w0: World<M>, w: World<M>, o: M, taken: seq<M>, kept: seq<M>, rest: seq<M>) {
    && Forest(w0) && ForestBut(w, {o}) && HandedOver(w0, w, o, taken, kept + rest)
    && (forall x :: x in taken ==> x in w0[o].waiters)
    && (forall x :: x in rest ==> x in w0[o].waiters)
    && (forall x :: x in rest ==> x !in taken && x !in kept) && Distinct(rest) && Ordered(w0, rest)
    && (forall x, y :: x in taken && y in rest ==> w0[x].priority <= w0[y].priority)
  }

  lemma WaiterFacts<M>(w: World<M>, o: M)
    requires Forest(w) && o in w
    ensures o !in w[o].waiters
    ensures forall x :: x in w[o].waiters ==> x in w && w[x].owner == Some(o)
  {
    NoCycle(w, o, 1);
    assert Up(w, o, 0) == Some(o);
  }

  lemma LoopStart<M>(w0: World<M>, o: M)
    requires Forest(w0) && o in w0
    ensures LoopState(w0, w0, o, [], [], w0[o].waiters)
  {
    assert [] + w0[o].waiters == w0[o].waiters && Ordered(w0, w0[o].waiters);
  }

  lemma RestFacts<M>(w: World<M>, x: M, rest: seq<M>)
    requires Distinct([x] + rest) && Ordered(w, [x] + rest)
    ensures x in [x] + rest && x !in rest && Distinct(rest) && Ordered(w, rest)
    ensures forall y :: y in rest ==> y in [x] + rest && w[x].priority <= w[y].priority
  {
    var s := [x] + rest;
    assert s[0] == x && s[1..] == rest;
    assert forall i :: 0 <= i < |rest| ==> rest[i] == s[i + 1];
    forall y | y in rest ensures y in s && y != x && w[x].priority <= w[y].priority {
      var i :| 0 <= i < |rest| && rest[i] == y;
      assert s[i + 1] == y;
    }
  }

  lemma PassOver<M>(w0: World<M>, w: World<M>, o: M, taken: seq<M>, kept: seq<M>, x: M, rest: seq<M>)
    requires LoopState(w0, w, o, taken, kept, [x] + rest)
    ensures LoopState(w0, w, o, taken, kept + [x], rest)
  {
    RestFacts(w0, x, rest);
    assert kept + ([x] + rest) == kept + [x] + rest;
  }

  /** The loop hands the next waiter over. */
  lemma Take<M>(w0: World<M>, w: World<M>, o: M, taken: seq<M>, kept: seq<M>, x: M, rest: seq<M>)
    requires LoopState(w0, w, o, taken, kept, [x] + rest)
    ensures x in w && o != x
    ensures taken != [] ==> taken[0] in w && taken[0] != x && forall y :: y in Detach(w, o, x)[taken[0]].waiters ==> y in w
    ensures LoopState(w0, HandOver(w, o, x, First(taken)), o, taken + [x], kept, rest)
  {
    WaiterFacts(w0, o);
    RestFacts(w0, x, rest);
    assert kept + ([x] + rest) == kept + [x] + rest;
    if taken == [] {
      assert Ordered(w0, w0[x].waiters);
      TakeFirst(w0, w, o, kept, x, rest);
      assert taken + [x] == [x];
    } else {
      assert taken[0] in taken;
      TakeMore(w0, w, o, taken, kept, x, rest);
    }
    HandOverKeeps(w, o, x, First(taken));
  }

  /** `RemoveWaiterByKey` as a whole, `taken` being the waiters of `o` on the key and `kept` the rest. */
  ghost predicate Handed<M>(w0: World<M>, w: World<M>, o: M, taken: seq<M>, kept: seq<M>) {
    && o in w0 && w.Keys == w0.Keys
    && (forall x {:trigger w[x].base} :: x in w0 ==> w[x].base == w0[x].base)
    && (forall x {:trigger w[x].key} :: x in w0 ==> w[x].key == w0[x].key)
    && OwnersAfter(w0, w, taken)
    && w[o].waiters == kept
    && (taken != [] ==> InheritsWaiters(w0, w, taken) && w[taken[0]].priority == w0[taken[0]].priority)
  }

  lemma {:induction false} UpAboveSame<M>(w0: World<M>, w: World<M>, r0: map<M, nat>, o: M, taken: seq<M>, t: M, n: nat)
    requires Ranked(w0, r0) && OwnersAfter(w0, w, taken) && o in w0 && Linked(w0)
    requires forall x :: x in taken ==> x in w0 && w0[x].owner == Some(o)
    requires t in w0 && r0[t] <= r0[o]
    ensures Up(w, t, n) == Up(w0, t, n)
  {
    assert t !in taken;
    assert w[t].owner == w0[t].owner;
    if n > 0 && w0[t].owner.Some? {
      UpAboveSame(w0, w, r0, o, taken, w0[t].owner.value, n - 1);
    }
  }

  /** The next owner does not end up above the old one. */
  lemma NextOwnerNotAbove<M>(w0: World<M>, w: World<M>, o: M, taken: seq<M>)
    requires Forest(w0) && OwnersAfter(w0, w, taken) && o in w0 && taken != []
    requires forall x :: x in taken ==> x in w0[o].waiters
    ensures !Below(w, o, taken[0])
  {
    var r0: map<M, nat> :| Ranked(w0, r0);
    WaiterFacts(w0, o);
    var next := taken[0];
    assert next in taken && w0[next].owner == Some(o);
    forall n: nat | Up(w, o, n) == Some(next) ensures false {
      UpAboveSame(w0, w, r0, o, taken, o, n);
      UpRank(w0, r0, o, n);
    }
  }

  /** The last step of `RemoveWaiterByKey`, when there is a next owner: `RestorePriority` on the old
      owner leaves the next owner, with its priority, and the kept waiters as they are. */
  lemma HandoverFinishes<M>(w0: World<M>, w1: World<M>, w2: World<M>, o: M, taken: seq<M>, kept: seq<M>)
    requires LoopState(w0, w1, o, taken, kept, []) && taken != []
    requires Restored(w1, w2, o)
    ensures Handed(w0, w2, o, taken, kept)
  {
    NextOwnerNotAbove(w0, w1, o, taken);
    assert taken[0] in taken;
    assert w2[taken[0]] == w1[taken[0]];
    assert kept + [] == kept;
    forall x | x in w0 ensures w2[x].base == w0[x].base && w2[x].key == w0[x].key && w2[x].owner == w1[x].owner {
      assert SameButPlace(w1[x], w2[x]);
      assert w1[x].base == w0[x].base && w1[x].key == w0[x].key;
    }
  }

  /** Without a waiter on the key nothing changes. */
  lemma NothingTaken<M>(w0: World<M>, w: World<M>, o: M, kept: seq<M>)
    requires LoopState(w0, w, o, [], kept, []) && kept == w0[o].waiters
    ensures Forest(w) && Handed(w0, w, o, [], kept)
    ensures forall x :: x in w0 ==> w[x].priority == w0[x].priority && w[x].waiters == w0[x].waiters
  {
    assert kept + [] == kept;
    assert Ordered(w0, w0[o].waiters);
    assert w0[o].priority == Inherited(w0, o);
    assert w[o].priority == Inherited(w, o);
    assert forall x {:trigger Inherited(w, x)} :: x in w && x != o ==> w[x].priority == Inherited(w, x);
  }

  lemma {:induction false} FirstKeyed<M>(w: World<M>, ws: seq<M>, key: int) returns (i: nat)
    requires (forall x :: x in ws ==> x in w) && Keyed(w, ws, key, true) != []
    ensures i < |ws| && ws[i] == Keyed(w, ws, key, true)[0] && w[ws[i]].key == key
    ensures forall j :: 0 <= j < i ==> w[ws[j]].key != key
  {
    if w[ws[0]].key == key {
      i := 0;
    } else {
      var k := FirstKeyed(w, ws[1..], key);
      i := k + 1;
      forall j | 0 <= j < i ensures w[ws[j]].key != key {
        assert j > 0 ==> ws[j] == ws[1..][j - 1];
      }
    }
  }

  /** The next owner is the most urgent waiter on the key and, among equals, the one waiting longest. */
  lemma NextOwnerIsOldest<M>(w: World<M>, ws: seq<M>, key: int) returns (i: nat)
    requires Ordered(w, ws) && Keyed(w, ws, key, true) != []
    ensures i < |ws| && ws[i] == Keyed(w, ws, key, true)[0] && w[ws[i]].key == key
    ensures forall j :: 0 <= j < i ==> w[ws[j]].key != key
    ensures forall j :: 0 <= j < |ws| && w[ws[j]].key == key ==> w[ws[i]].priority <= w[ws[j]].priority
  {
    i := FirstKeyed(w, ws, key);
    forall j | 0 <= j < |ws| && w[ws[j]].key == key ensures w[ws[i]].priority <= w[ws[j]].priority {
      assert i == j || i < j;
    }
  }

  lemma {:induction false} InsertedAllOrdered<M>(w: World<M>, ws: seq<M>, more: seq<M>)
    requires Ordered(w, ws) && forall x :: x in more ==> x in w
    ensures Ordered(w, InsertedAll(w, ws, more))
    ensures forall x :: x in more ==> x in InsertedAll(w, ws, more)
  {
    if more != [] {
      var n := |more| - 1;
      InsertedAllOrdered(w, ws, more[..n]);
      InsertedOrdered(w, InsertedAll(w, ws, more[..n]), more[n]);
      InsertedKeeps(w, InsertedAll(w, ws, more[..n]), more[n]);
      assert more == more[..n] + [more[n]];
    }
  }

  lemma InsertedKeeps<M>(w: World<M>, ws: seq<M>, t: M)
    requires t in w && forall x :: x in ws ==> x in w
    ensures var k, r := InsertionPoint(w, ws, w[t].priority), Inserted(w, ws, t);
            && |r| == |ws| + 1 && r[k] == t
            && (forall i :: 0 <= i < |ws| ==> r[if i < k then i else i + 1] == ws[i])
            && (forall x :: x in ws ==> x in r) && t in r
  {
    var k, r := InsertionPoint(w, ws, w[t].priority), Inserted(w, ws, t);
    assert forall i :: 0 <= i < k ==> r[i] == ws[i];
    assert forall i :: k <= i < |ws| ==> r[i + 1] == ws[i];
    forall x | x in ws ensures x in r {
      var i :| 0 <= i < |ws| && ws[i] == x;
      assert r[if i < k then i else i + 1] == x;
    }
  }

  ghost predicate Before<M>(s: seq<M>, x: M, y: M) {
    exists i, j :: 0 <= i < j < |s| && s[i] == x && s[j] == y
  }

  lemma InsertedKeepsOrder<M>(w: World<M>, ws: seq<M>, t: M, x: M, y: M)
    requires t in w && (forall z :: z in ws ==> z in w) && Before(ws, x, y)
    ensures Before(Inserted(w, ws, t), x, y)
  {
    InsertedKeeps(w, ws, t);
    var k, r := InsertionPoint(w, ws, w[t].priority), Inserted(w, ws, t);
    var i, j :| 0 <= i < j < |ws| && ws[i] == x && ws[j] == y;
    assert r[if i < k then i else i + 1] == x && r[if j < k then j else j + 1] == y;
  }

  lemma InsertedBehind<M>(w: World<M>, ws: seq<M>, t: M, x: M)
    requires t in w && Ordered(w, ws) && x in ws && w[x].priority <= w[t].priority
    ensures Before(Inserted(w, ws, t), x, t)
  {
    InsertedKeeps(w, ws, t);
    var k, r := InsertionPoint(w, ws, w[t].priority), Inserted(w, ws, t);
    var i :| 0 <= i < |ws| && ws[i] == x;
    assert i < k;
    assert r[i] == x && r[k] == t;
  }

  lemma OrderedPrefix<M>(w: World<M>, ws: seq<M>, n: nat)
    requires Ordered(w, ws) && n <= |ws|
    ensures Ordered(w, ws[..n])
  {
    assert forall x :: x in ws[..n] ==> x in ws;
  }

  /** Threads handed over in order of urgency keep that order under their new owner. */
  lemma {:induction false} HandedInOrder<M>(w: World<M>, ws: seq<M>, more: seq<M>, a: nat, b: nat)
    requires Ordered(w, ws) && Ordered(w, more) && a < b < |more|
    ensures Before(InsertedAll(w, ws, more), more[a], more[b])
  {
    var n := |more| - 1;
    var init, t := more[..n], more[n];
    OrderedPrefix(w, more, n);
    assert init[a] == more[a];
    InsertedAllOrdered(w, ws, init);
    assert InsertedAll(w, ws, more) == Inserted(w, InsertedAll(w, ws, init), t);
    if b < n {
      HandedInOrder(w, ws, init, a, b);
      InsertedKeepsOrder(w, InsertedAll(w, ws, init), t, more[a], more[b]);
    } else {
      InsertedBehind(w, InsertedAll(w, ws, init), t, more[a]);
    }
  }

  /** What the loop needs in order to hand `x` over without an abort. */
  lemma TakeReady<M>(w0: World<M>, w: World<M>, o: M, taken: seq<M>, kept: seq<M>, x: M, rest: seq<M>)
    requires LoopState(w0, w, o, taken, kept, [x] + rest)
    ensures x in w && x in w0 && o in w && w[x].key == w0[x].key
    ensures w[o].waiters == kept + [x] + rest && Ready(w, o, x, First(taken))
  {
    Take(w0, w, o, taken, kept, x, rest);
    RestFacts(w0, x, rest);
    assert kept + ([x] + rest) == kept + [x] + rest;
    assert Tallied(w, o);
    assert x in w[o].waiters;
    assert w[x].owner == Some(o);
    DetachKeeps(w, o, x, {o});
    if taken != [] {
      assert Tallied(Detach(w, o, x), taken[0]);
    }
  }

  /** The waiters looked at, and those still to come, make up the two parts of `ws`. */
  ghost predicate Sorting<M>(w: World<M>, ws: seq<M>, key: int, taken: seq<M>, kept: seq<M>, rest: seq<M>) {
    && (forall x :: x in rest ==> x in w) && (forall x :: x in ws ==> x in w)
    && taken + Keyed(w, rest, key, true) == Keyed(w, ws, key, true)
    && kept + Keyed(w, rest, key, false) == Keyed(w, ws, key, false)
  }

  lemma SortingStep<M>(w: World<M>, ws: seq<M>, key: int, taken: seq<M>, kept: seq<M>, x: M, rest: seq<M>)
    requires Sorting(w, ws, key, taken, kept, [x] + rest)
    ensures x in w
    ensures if w[x].key == key then Sorting(w, ws, key, taken + [x], kept, rest)
            else Sorting(w, ws, key, taken, kept + [x], rest)
  {
    var s := [x] + rest;
    assert s[0] == x && s[1..] == rest;
    assert forall y :: y in rest ==> y in s;
    KeyedHead(w, key, s);
    var more, less := Keyed(w, rest, key, true), Keyed(w, rest, key, false);
    if w[x].key == key {
      Regroup(taken, x, more);
    } else {
      Regroup(kept, x, less);
    }
  }

  lemma KeyedHead<M>(w: World<M>, key: int, s: seq<M>)
    requires s != [] && forall y :: y in s ==> y in w
    ensures w[s[0]].key == key ==> Keyed(w, s, key, true) == [s[0]] + Keyed(w, s[1..], key, true)
    ensures w[s[0]].key == key ==> Keyed(w, s, key, false) == Keyed(w, s[1..], key, false)
    ensures w[s[0]].key != key ==> Keyed(w, s, key, false) == [s[0]] + Keyed(w, s[1..], key, false)
    ensures w[s[0]].key != key ==> Keyed(w, s, key, true) == Keyed(w, s[1..], key, true)
  {
  }

  lemma Regroup<M>(a: seq<M>, x: M, b: seq<M>)
    ensures a + ([x] + b) == a + [x] + b
  {
  }

  /** The whole loop, from the beginning. */
  lemma WholeRun<M>(w0: World<M>, o: M, key: int)
    requires Forest(w0) && o in w0
    ensures Runs(w0, o, key, 0, None) && AllHandedOver(w0, o, key, Run(w0, o, key, 0, None, 0))
  {
    LoopStart(w0, o);
    WaiterFacts(w0, o);
    RunFacts(w0, w0, o, key, [], [], w0[o].waiters);
  }

  lemma LoopEnds<M>(w0: World<M>, o: M, key: int, w: World<M>, next: Option<M>, found: nat)
    requires AllHandedOver(w0, o, key, (w, next, found))
    ensures next.None? ==> Forest(w) && Handed(w0, w, o, [], Keyed(w0, w0[o].waiters, key, false))
    ensures next.Some? ==> next.value in w && ForestBut(w, {o})
  {
    var taken, kept := Keyed(w0, w0[o].waiters, key, true), Keyed(w0, w0[o].waiters, key, false);
    if taken == [] {
      AllKept(w0, w0[o].waiters, key);
      NothingTaken(w0, w, o, kept);
    } else {
      assert taken[0] in taken;
    }
  }

  lemma {:induction false} AllKept<M>(w: World<M>, ws: seq<M>, key: int)
    requires (forall x :: x in ws ==> x in w) && Keyed(w, ws, key, true) == []
    ensures Keyed(w, ws, key, false) == ws
  {
    if ws != [] {
      AllKept(w, ws[1..], key);
    }
  }

  /** `x` can be handed over by `o` to `next` without an abort. */
  ghost predicate Ready<M>(w: World<M>, o: M, x: M, next: Option<M>) {
    && o in w && x in w && o != x && x in w[o].waiters && Tallied(w, o)
    && (next.Some? ==>
          && next.value in w && next.value != x && next.value != o && Tallied(Detach(w, o, x), next.value)
          && forall y :: y in Detach(w, o, x)[next.value].waiters ==> y in w)
  }

  /** The loop of `RemoveWaiterByKey` from its `it`-th waiter on runs without an abort. */
  ghost predicate Runs<M>(w: World<M>, o: M, key: int, it: nat, next: Option<M>)
    requires o in w
    decreases |w[o].waiters| - it
  {
    it < |w[o].waiters| ==>
      var x := w[o].waiters[it];
      x in w && if w[x].key != key then Runs(w, o, key, it + 1, next)
      else Ready(w, o, x, next) && Runs(HandOver(w, o, x, next), o, key, it, if next.None? then Some(x) else next)
  }

  /** What that loop makes of the forest, the next owner and the number of waiters found. */
  ghost function Run<M>(w: World<M>, o: M, key: int, it: nat, next: Option<M>, found: nat): (World<M>, Option<M>, nat)
    requires o in w && Runs(w, o, key, it, next)
    decreases |w[o].waiters| - it
  {
    if it >= |w[o].waiters| then (w, next, found)
    else
      var x := w[o].waiters[it];
      if w[x].key != key then Run(w, o, key, it + 1, next, found)
      else Run(HandOver(w, o, x, next), o, key, it, if next.None? then Some(x) else next, found + 1)
  }

  lemma RunPasses<M>(w: World<M>, o: M, key: int, it: nat, next: Option<M>, found: nat)
    requires o in w && it < |w[o].waiters| && w[o].waiters[it] in w && w[w[o].waiters[it]].key != key
    requires Runs(w, o, key, it + 1, next)
    ensures Runs(w, o, key, it, next) && Run(w, o, key, it, next, found) == Run(w, o, key, it + 1, next, found)
  {
  }

  lemma RunTakes<M>(w: World<M>, o: M, x: M, key: int, it: nat, next: Option<M>, next': Option<M>, found: nat)
    requires o in w && it < |w[o].waiters| && w[o].waiters[it] == x && x in w && w[x].key == key
    requires Ready(w, o, x, next) && next' == (if next.None? then Some(x) else next)
    requires Runs(HandOver(w, o, x, next), o, key, it, next')
    ensures Runs(w, o, key, it, next)
    ensures Run(w, o, key, it, next, found) == Run(HandOver(w, o, x, next), o, key, it, next', found + 1)
  {
  }

  /** All waiters of `o` on the key, and only those, have been handed over. */
  ghost predicate AllHandedOver<M>(w0: World<M>, o: M, key: int, result: (World<M>, Option<M>, nat)) {
    && o in w0 && (forall x :: x in w0[o].waiters ==> x in w0)
    && var taken, kept := Keyed(w0, w0[o].waiters, key, true), Keyed(w0, w0[o].waiters, key, false);
    LoopState(w0, result.0, o, taken, kept, []) && result.1 == First(taken) && result.2 == |taken|
  }

  /** From here on the loop runs through, and ends with all waiters on the key handed over. */
  ghost predicate Completes<M>(w0: World<M>, w: World<M>, o: M, key: int, taken: seq<M>, kept: seq<M>) {
    && o in w && Runs(w, o, key, |kept|, First(taken))
    && AllHandedOver(w0, o, key, Run(w, o, key, |kept|, First(taken), |taken|))
  }

  lemma CompletesPassing<M>(w0: World<M>, w: World<M>, o: M, key: int, taken: seq<M>, kept: seq<M>, x: M, rest: seq<M>)
    requires o in w && w[o].waiters == kept + [x] + rest && x in w && w[x].key != key
    requires Completes(w0, w, o, key, taken, kept + [x])
    ensures Completes(w0, w, o, key, taken, kept)
  {
    RunPasses(w, o, key, |kept|, First(taken), |taken|);
  }

  lemma CompletesTaking<M>(w0: World<M>, w: World<M>, o: M, key: int, taken: seq<M>, kept: seq<M>, x: M, rest: seq<M>)
    requires o in w && w[o].waiters == kept + [x] + rest && x in w && w[x].key == key
    requires Ready(w, o, x, First(taken))
    requires Completes(w0, HandOver(w, o, x, First(taken)), o, key, taken + [x], kept)
    ensures Completes(w0, w, o, key, taken, kept)
  {
    RunTakes(w, o, x, key, |kept|, First(taken), First(taken + [x]), |taken|);
  }

  lemma {:induction false} RunFacts<M>(w0: World<M>, w: World<M>, o: M, key: int, taken: seq<M>, kept: seq<M>, rest: seq<M>)
    requires LoopState(w0, w, o, taken, kept, rest) && Sorting(w0, w0[o].waiters, key, taken, kept, rest)
    ensures Completes(w0, w, o, key, taken, kept)
    decreases |rest|
  {
    hide Completes, Ready, HandOver, Keyed, Sorting;
    if rest == [] {
      RunEnds(w0, w, o, key, taken, kept);
    } else {
      var x, tail := rest[0], rest[1..];
      assert rest == [x] + tail;
      SortingStep(w0, w0[o].waiters, key, taken, kept, x, tail);
      TakeReady(w0, w, o, taken, kept, x, tail);
      if w0[x].key == key {
        Take(w0, w, o, taken, kept, x, tail);
        RunFacts(w0, HandOver(w, o, x, First(taken)), o, key, taken + [x], kept, tail);
        CompletesTaking(w0, w, o, key, taken, kept, x, tail);
      } else {
        PassOver(w0, w, o, taken, kept, x, tail);
        RunFacts(w0, w, o, key, taken, kept + [x], tail);
        CompletesPassing(w0, w, o, key, taken, kept, x, tail);
      }
    }
  }

  lemma RunEnds<M>(w0: World<M>, w: World<M>, o: M, key: int, taken: seq<M>, kept: seq<M>)
    requires LoopState(w0, w, o, taken, kept, []) && Sorting(w0, w0[o].waiters, key, taken, kept, [])
    ensures o in w && w[o].waiters == kept
    ensures taken == Keyed(w0, w0[o].waiters, key, true) && kept == Keyed(w0, w0[o].waiters, key, false)
    ensures Completes(w0, w, o, key, taken, kept)
  {
    assert taken + [] == taken && kept + [] == kept;
  }
}
