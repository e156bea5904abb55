/** Lock ownership as a value: who waits on whom, in which order, and at which inherited priority.
    A smaller number is a more urgent priority. */
module LockForests {
  import opened Options
  import opened PriorityQueues

  const KERNEL_ADDRESS_BASE: int := 0x1_0000_0000_0000_0000 - 0x80_0000_0000
  const KERNEL_ADDRESS_LAST: int := 0x1_0000_0000_0000_0000 - 0x20_0000 - 1

  predicate IsKernelAddressKey(key: int) {
    KERNEL_ADDRESS_BASE <= key <= KERNEL_ADDRESS_LAST
  }

  datatype Node<M> = Node(
    base: int, priority: int, owner: Option<M>, waiters: seq<M>, key: int, kernelWaiters: int)

  type World<M> = map<M, Node<M>>

  /** Owner links and waiter lists mirror each other. */
  ghost predicate Linked<M>(w: World<M>) {
    && (forall t {:trigger w[t].waiters} :: t in w ==> Distinct(w[t].waiters))
    && (forall t, x {:trigger x in w[t].waiters} :: t in w && x in w[t].waiters ==> x in w && w[x].owner == Some(t))
    && (forall t {:trigger w[t].owner} :: t in w && w[t].owner.Some? ==> w[t].owner.value in w && t in w[w[t].owner.value].waiters)
  }

  /** `r` numbers the threads so that every owner comes strictly before its waiters. */
  ghost predicate Ranked<M>(w: World<M>, older r: map<M, nat>) {
    && r.Keys == w.Keys
    && forall t {:trigger w[t].owner} :: t in w && w[t].owner.Some? && w[t].owner.value in w ==> r[w[t].owner.value] < r[t]
  }

  ghost predicate Acyclic<M>(w: World<M>) {
    exists r :: Ranked(w, r)
  }

  ghost predicate Ordered<M>(w: World<M>, ws: seq<M>) {
    && (forall x :: x in ws ==> x in w)
    && forall i, j :: 0 <= i < j < |ws| ==> w[ws[i]].priority <= w[ws[j]].priority
  }

  ghost function KernelKeyed<M>(w: World<M>, ws: seq<M>): set<M> {
    set x | x in ws && x in w && IsKernelAddressKey(w[x].key)
  }

  ghost predicate Tallied<M>(w: World<M>, t: M) {
    t in w && w[t].kernelWaiters == |KernelKeyed(w, w[t].waiters)|
  }

  function Min(a: int, b: int): int {
    if a <= b then a else b
  }

  /** What the priority of `t` should be: its own, or that of its most urgent waiter. */
  function Inherited<M>(w: World<M>, t: M): int
    requires t in w
  {
    var n := w[t];
    if n.waiters == [] || n.waiters[0] !in w then n.base else Min(n.base, w[n.waiters[0]].priority)
  }

  /** The invariant of the whole forest, with the priority of `except` possibly not up to date. */
  ghost predicate ForestBut<M>(w: World<M>, except: set<M>) {
    && Linked(w)
    && Acyclic(w)
    && (forall t {:trigger Ordered(w, w[t].waiters)} :: t in w ==> Ordered(w, w[t].waiters))
    && (forall t {:trigger Tallied(w, t)} :: t in w ==> Tallied(w, t))
    && (forall t {:trigger Inherited(w, t)} :: t in w && t !in except ==> w[t].priority == Inherited(w, t))
  }

  ghost predicate Forest<M>(w: World<M>) {
    ForestBut(w, {})
  }

  /** How many of the leading entries are at least as urgent as `priority`. */
  function InsertionPoint<M>(w: World<M>, ws: seq<M>, priority: int): (k: nat)
    requires forall x :: x in ws ==> x in w
    ensures k <= |ws|
    ensures forall i :: 0 <= i < k ==> w[ws[i]].priority <= priority
    ensures k < |ws| ==> w[ws[k]].priority > priority
  {
    if ws == [] || w[ws[0]].priority > priority then 0 else 1 + InsertionPoint(w, ws[1..], priority)
  }

  lemma {:induction false} InsertionPointIsFirst<M>(w: World<M>, ws: seq<M>, priority: int, k: nat)
    requires forall x :: x in ws ==> x in w
    requires k <= |ws| && (forall i :: 0 <= i < k ==> w[ws[i]].priority <= priority)
    requires k < |ws| ==> w[ws[k]].priority > priority
    ensures InsertionPoint(w, ws, priority) == k
  {
    if k > 0 {
      InsertionPointIsFirst(w, ws[1..], priority, k - 1);
    }
  }

  /** `ws` with `t` in front of the first less urgent entry: sorted, and FIFO among equals. */
  function Inserted<M>(w: World<M>, ws: seq<M>, t: M): seq<M>
    requires t in w && forall x :: x in ws ==> x in w
  {
    var k := InsertionPoint(w, ws, w[t].priority);
    ws[..k] + [t] + ws[k..]
  }

  lemma InsertedMembers<M>(w: World<M>, ws: seq<M>, t: M)
    requires t in w && t !in ws && forall x :: x in ws ==> x in w
    ensures var r := Inserted(w, ws, t);
            && t in r && (forall x :: x in ws ==> x in r) && (forall x :: x in r ==> x == t || x in ws)
            && (Distinct(ws) ==> Distinct(r))
            && Without(r, t) == ws
  {
    var k := InsertionPoint(w, ws, w[t].priority);
    assert ws == ws[..k] + ws[k..];
    WithoutSplit(ws[..k], t, ws[k..]);
    SplicedMembers(ws[..k], t, ws[k..]);
  }

  lemma SplicedMembers<M>(a: seq<M>, t: M, b: seq<M>)
    requires t !in a && t !in b
    ensures var r := a + [t] + b;
            && t in r && (forall x :: x in a + b ==> x in r) && (forall x :: x in r ==> x == t || x in a + b)
            && (Distinct(a + b) ==> Distinct(r))
  {
    var r, s := a + [t] + b, a + b;
    assert forall i :: 0 <= i < |r| ==> r[i] == if i < |a| then s[i] else if i == |a| then t else s[i - 1];
    assert r[|a|] == t;
    forall x | x in s ensures x in r {
      var i :| 0 <= i < |s| && s[i] == x;
      assert r[if i < |a| then i else i + 1] == x;
    }
    if Distinct(s) {
      forall i, j | 0 <= i < j < |r| ensures r[i] != r[j] {
        if i != |a| && j != |a| {
          assert s[if i < |a| then i else i - 1] != s[if j < |a| then j else j - 1];
        } else {
          assert s[if i == |a| then j - 1 else i] != t;
        }
      }
    }
  }

  lemma InsertedOrdered<M>(w: World<M>, ws: seq<M>, t: M)
    requires t in w && Ordered(w, ws)
    ensures Ordered(w, Inserted(w, ws, t))
  {
    var k := InsertionPoint(w, ws, w[t].priority);
    var r := Inserted(w, ws, t);
    forall i, j | 0 <= i < j < |r| ensures w[r[i]].priority <= w[r[j]].priority {
      assert r[i] == if i < k then ws[i] else if i == k then t else ws[i - 1];
      assert r[j] == if j < k then ws[j] else if j == k then t else ws[j - 1];
    }
  }

  lemma WithoutOrdered<M>(w: World<M>, ws: seq<M>, t: M)
    requires Ordered(w, ws)
    ensures Ordered(w, Without(ws, t))
  {
    if ws != [] && ws[0] != t {
      WithoutOrdered(w, ws[1..], t);
      forall x | x in Without(ws[1..], t) ensures w[ws[0]].priority <= w[x].priority {
        assert x in ws[1..];
      }
    }
  }

  /** `AddWaiterImpl`: `t`, owned by nobody, becomes a waiter of `o`. */
  function Attach<M>(w: World<M>, o: M, t: M): World<M>
    requires o in w && t in w && o != t && forall x :: x in w[o].waiters ==> x in w
  {
    var more := if IsKernelAddressKey(w[t].key) then 1 else 0;
    w[o := w[o].(waiters := Inserted(w, w[o].waiters, t), kernelWaiters := w[o].kernelWaiters + more)]
     [t := w[t].(owner := Some(o))]
  }

  /** `RemoveWaiterImpl`: `t` is no longer a waiter of `o`. */
  function Detach<M(==)>(w: World<M>, o: M, t: M): World<M>
    requires o in w && t in w && o != t
  {
    var less := if IsKernelAddressKey(w[t].key) then 1 else 0;
    w[o := w[o].(waiters := Without(w[o].waiters, t), kernelWaiters := w[o].kernelWaiters - less)]
     [t := w[t].(owner := None)]
  }

  /** The thread reached from `t` by following `n` owner links. */
  function Up<M>(w: World<M>, t: M, n: nat): Option<M> {
    if t !in w then None
    else if n == 0 then Some(t)
    else if w[t].owner.None? then None
    else Up(w, w[t].owner.value, n - 1)
  }

  /** `t` waits, directly or through other owners, for `a`, or is `a`. */
  ghost predicate Below<M>(w: World<M>, t: M, a: M) {
    exists n :: Up(w, t, n) == Some(a)
  }

  lemma {:induction false} UpRank<M>(w: World<M>, r: map<M, nat>, t: M, n: nat)
    requires Ranked(w, r) && Up(w, t, n).Some?
    ensures t in r && Up(w, t, n).value in r && r[Up(w, t, n).value] + n <= r[t]
  {
    if n > 0 {
      UpRank(w, r, w[t].owner.value, n - 1);
    }
  }

  /** No thread waits for itself. */
  lemma NoCycle<M>(w: World<M>, t: M, n: nat)
    requires Acyclic(w) && n > 0
    ensures Up(w, t, n) != Some(t)
  {
    var r: map<M, nat> :| Ranked(w, r);
    if Up(w, t, n) == Some(t) {
      UpRank(w, r, t, n);
      assert false;
    }
  }

  lemma BelowOwner<M>(w: World<M>, t: M, a: M)
    requires t in w && w[t].owner.Some?
    ensures Below(w, t, a) <==> t == a || Below(w, w[t].owner.value, a)
  {
    if Below(w, t, a) && t != a {
      var n: nat :| Up(w, t, n) == Some(a);
      assert Up(w, w[t].owner.value, n - 1) == Some(a);
    }
    if Below(w, w[t].owner.value, a) {
      var n: nat :| Up(w, w[t].owner.value, n) == Some(a);
      assert Up(w, t, n + 1) == Some(a);
    }
    assert Up(w, t, 0) == Some(t);
  }

  lemma AttachAcyclic<M>(w: World<M>, o: M, t: M)
    requires Acyclic(w) && o in w && t in w && o != t && (forall x :: x in w[o].waiters ==> x in w)
    requires w[t].owner.None? && !Below(w, o, t)
    ensures Acyclic(Attach(w, o, t))
  {
    var r: map<M, nat> :| Ranked(w, r);
    var w' := Attach(w, o, t);
    var r' := map x | x in w :: if Below(w, x, t) then r[x] + r[o] + 1 else r[x];
    forall x | x in w' && w'[x].owner.Some? && w'[x].owner.value in w'
      ensures r'[w'[x].owner.value] < r'[x]
    {
      if x == t {
        assert Up(w, t, 0) == Some(t);
      } else {
        BelowOwner(w, x, t);
      }
    }
    assert Ranked(w', r');
  }

  /** `w'` differs from `w` at most in the owner of `t` and the waiter list of `o`. */
  ghost predicate SameElsewhere<M>(w: World<M>, w': World<M>, o: M, t: M) {
    && w'.Keys == w.Keys
    && (forall x {:trigger w'[x].priority} :: x in w ==> w'[x].priority == w[x].priority)
    && (forall x {:trigger w'[x].base} :: x in w ==> w'[x].base == w[x].base)
    && (forall x {:trigger w'[x].key} :: x in w ==> w'[x].key == w[x].key)
    && (forall x {:trigger w'[x].waiters} :: x in w && x != o ==> w'[x].waiters == w[x].waiters)
    && (forall x {:trigger w'[x].kernelWaiters} :: x in w && x != o ==> w'[x].kernelWaiters == w[x].kernelWaiters)
    && (forall x {:trigger w'[x].owner} :: x in w && x != t ==> w'[x].owner == w[x].owner)
  }

  /** The link of `t` to `o` is made or unmade at both its ends. */
  ghost predicate LinkChanged<M>(w: World<M>, w': World<M>, o: M, t: M) {
    && o in w && t in w && o != t && o in w' && t in w'
    && (w[t].owner.None? || w[t].owner == Some(o))
    && (w'[t].owner.None? || w'[t].owner == Some(o))
    && Distinct(w'[o].waiters) && (t in w'[o].waiters <==> w'[t].owner == Some(o))
    && (forall x :: x != t && x in w[o].waiters ==> x in w'[o].waiters)
    && (forall x :: x != t && x in w'[o].waiters ==> x in w[o].waiters)
  }

  ghost predicate OneLink<M>(w: World<M>, w': World<M>, o: M, t: M) {
    SameElsewhere(w, w', o, t) && LinkChanged(w, w', o, t)
  }

  lemma OneLinkWaiter<M>(w: World<M>, w': World<M>, o: M, t: M, x: M, y: M)
    requires Linked(w) && OneLink(w, w', o, t) && x in w' && y in w'[x].waiters
    ensures y in w' && w'[y].owner == Some(x)
  {
    if y == t && x == o {
    } else {
      assert y in w[x].waiters;
    }
  }

  lemma OneLinkOwner<M>(w: World<M>, w': World<M>, o: M, t: M, x: M)
    requires Linked(w) && OneLink(w, w', o, t) && x in w' && w'[x].owner.Some?
    ensures w'[x].owner.value in w' && x in w'[w'[x].owner.value].waiters
  {
    assert x != t ==> w[x].owner.Some?;
  }

  lemma OneLinkLinked<M>(w: World<M>, w': World<M>, o: M, t: M)
    requires Linked(w) && OneLink(w, w', o, t)
    ensures Linked(w')
  {
    forall x, y | x in w' && y in w'[x].waiters ensures y in w' && w'[y].owner == Some(x) {
      OneLinkWaiter(w, w', o, t, x, y);
    }
    forall x {:trigger w'[x].owner} | x in w' && w'[x].owner.Some?
      ensures w'[x].owner.value in w' && x in w'[w'[x].owner.value].waiters
    {
      OneLinkOwner(w, w', o, t, x);
    }
    assert forall x {:trigger w'[x].waiters} :: x in w' && x != o ==> w'[x].waiters == w[x].waiters;
  }

  lemma OneLinkTallied<M>(w: World<M>, w': World<M>, o: M, t: M, x: M)
    requires Linked(w) && OneLink(w, w', o, t) && Tallied(w, x)
    requires w'[o].kernelWaiters - w[o].kernelWaiters
          == if IsKernelAddressKey(w[t].key) then Owned(w', t) - Owned(w, t) else 0
    ensures Tallied(w', x)
  {
    var k, k' := KernelKeyed(w, w[x].waiters), KernelKeyed(w', w'[x].waiters);
    if x == o && IsKernelAddressKey(w[t].key) {
      assert t in w[o].waiters <==> w[t].owner == Some(o);
      assert k' == if w'[t].owner.Some? then k + {t} else k - {t};
    } else {
      assert forall y :: y in k' <==> y in k;
      assert k' == k;
    }
  }

  /** 1 for a thread that waits on an owner. */
  function Owned<M>(w: World<M>, t: M): int
    requires t in w
  {
    if w[t].owner.Some? then 1 else 0
  }

  lemma OneLinkOrdered<M>(w: World<M>, w': World<M>, o: M, t: M, but: set<M>)
    requires ForestBut(w, but) && OneLink(w, w', o, t) && Ordered(w', w'[o].waiters)
    ensures forall x {:trigger Ordered(w', w'[x].waiters)} :: x in w ==> Ordered(w', w'[x].waiters)
    ensures forall x {:trigger Inherited(w', x)} :: x in w && x !in but && x != o ==> w'[x].priority == Inherited(w', x)
  {
    forall x | x in w' && x != o
      ensures Ordered(w', w'[x].waiters) && (x !in but ==> w'[x].priority == Inherited(w', x))
    {
      assert Ordered(w, w[x].waiters);
      assert x !in but ==> w[x].priority == Inherited(w, x);
    }
  }

  /** Changing one link keeps the forest, except that `o` may have to change what it inherits. */
  lemma OneLinkKeeps<M>(w: World<M>, w': World<M>, o: M, t: M, but: set<M>)
    requires ForestBut(w, but) && OneLink(w, w', o, t) && Ordered(w', w'[o].waiters) && Acyclic(w')
    requires w'[o].kernelWaiters - w[o].kernelWaiters
          == if IsKernelAddressKey(w[t].key) then Owned(w', t) - Owned(w, t) else 0
    ensures ForestBut(w', but + {o})
  {
    OneLinkLinked(w, w', o, t);
    forall x | x in w' ensures Tallied(w', x) {
      assert Tallied(w, x);
      OneLinkTallied(w, w', o, t, x);
    }
    OneLinkOrdered(w, w', o, t, but);
  }

  lemma AttachChangesLink<M>(w: World<M>, o: M, t: M)
    requires o in w && t in w && o != t && w[t].owner.None?
    requires t !in w[o].waiters && Distinct(w[o].waiters) && Ordered(w, w[o].waiters)
    ensures LinkChanged(w, Attach(w, o, t), o, t)
  {
    InsertedMembers(w, w[o].waiters, t);
  }

  lemma AttachElsewhere<M>(w: World<M>, o: M, t: M)
    requires o in w && t in w && o != t && Ordered(w, w[o].waiters)
    ensures SameElsewhere(w, Attach(w, o, t), o, t)
  {
  }

  lemma AttachOrdered<M>(w: World<M>, o: M, t: M)
    requires o in w && t in w && o != t && w[t].owner.None?
    requires t !in w[o].waiters && Distinct(w[o].waiters) && Ordered(w, w[o].waiters)
    ensures Ordered(Attach(w, o, t), Attach(w, o, t)[o].waiters)
  {
    InsertedOrdered(w, w[o].waiters, t);
  }

  /** Adding a waiter keeps the forest, except that `o` may now have to inherit. */
  lemma AttachKeeps<M>(w: World<M>, o: M, t: M, but: set<M>)
    requires ForestBut(w, but) && o in w && t in w && o != t
    requires w[t].owner.None? && !Below(w, o, t)
    ensures ForestBut(Attach(w, o, t), but + {o})
  {
    assert Ordered(w, w[o].waiters) && t !in w[o].waiters;
    AttachChangesLink(w, o, t);
    AttachElsewhere(w, o, t);
    AttachOrdered(w, o, t);
    AttachAcyclic(w, o, t);
    OneLinkKeeps(w, Attach(w, o, t), o, t, but);
  }

  lemma DetachAcyclic<M>(w: World<M>, o: M, t: M)
    requires Acyclic(w) && t in w && o in w && w[t].owner == Some(o)
    ensures o != t && Acyclic(Detach(w, o, t)) && !Below(Detach(w, o, t), o, t)
  {
    var r: map<M, nat> :| Ranked(w, r);
    var w' := Detach(w, o, t);
    assert Ranked(w', r);
    forall n: nat | Up(w', o, n) == Some(t) ensures false {
      UpRank(w', r, o, n);
    }
  }

  /** Removing a waiter keeps the forest, except that `o` may no longer have to inherit. */
  lemma DetachKeeps<M>(w: World<M>, o: M, t: M, but: set<M>)
    requires ForestBut(w, but) && t in w && w[t].owner == Some(o)
    ensures o in w && o != t && ForestBut(Detach(w, o, t), but + {o})
    ensures !Below(Detach(w, o, t), o, t)
  {
    DetachAcyclic(w, o, t);
    var w' := Detach(w, o, t);
    assert Ordered(w', w'[o].waiters) by {
      assert Ordered(w, w[o].waiters);
      WithoutOrdered(w, w[o].waiters, t);
    }
    OneLinkKeeps(w, w', o, t, but);
  }

  function WithPriority<M>(w: World<M>, t: M, priority: int): World<M>
    requires t in w
  {
    w[t := w[t].(priority := priority)]
  }

  lemma PriorityElsewhere<M>(w: World<M>, t: M, priority: int, x: M)
    requires Linked(w) && t in w && w[t].owner.None? && x in w
    ensures var w' := WithPriority(w, t, priority);
            && (Tallied(w, x) ==> Tallied(w', x))
            && (Ordered(w, w[x].waiters) ==> Ordered(w', w'[x].waiters) && Inherited(w', x) == Inherited(w, x))
  {
    assert t !in w[x].waiters;
    var w' := WithPriority(w, t, priority);
    assert KernelKeyed(w', w'[x].waiters) == KernelKeyed(w, w[x].waiters);
  }

  /** A thread nobody owns may take the priority it should have. */
  lemma RootPriorityKeeps<M>(w: World<M>, t: M, but: set<M>)
    requires ForestBut(w, but) && t in w && w[t].owner.None?
    ensures ForestBut(WithPriority(w, t, Inherited(w, t)), but - {t})
  {
    var r: map<M, nat> :| Ranked(w, r);
    var w' := WithPriority(w, t, Inherited(w, t));
    assert Ranked(w', r);
    forall x {:trigger Inherited(w', x)} {:trigger Tallied(w', x)} {:trigger Ordered(w', w'[x].waiters)} | x in w'
      ensures Tallied(w', x) && Ordered(w', w'[x].waiters)
      ensures x !in but - {t} ==> w'[x].priority == Inherited(w', x)
    {
      assert Tallied(w, x) && Ordered(w, w[x].waiters);
      PriorityElsewhere(w, t, Inherited(w, t), x);
      assert x !in but ==> w[x].priority == Inherited(w, x);
    }
  }

  /** What a round looks at is in place, and the counters of kernel waiters cannot make it abort. */
  ghost predicate RoundReady<M>(w: World<M>, t: M) {
    && t in w && Ordered(w, w[t].waiters)
    && (w[t].owner.Some? ==>
          && w[t].owner.value in w && w[t].owner.value != t && t in w[w[t].owner.value].waiters
          && (forall x :: x in w[w[t].owner.value].waiters ==> x in w)
          && var w1 := WithPriority(w, t, Inherited(w, t));
          Tallied(w1, w[t].owner.value) && Tallied(Detach(w1, w[t].owner.value, t), w[t].owner.value))
  }

  /** One round of `RestorePriority`: the forest after it, and the thread to look at next. */
  function RestoreStep<M(==)>(w: World<M>, t: M): (World<M>, Option<M>)
    requires RoundReady(w, t)
  {
    var priority := Inherited(w, t);
    if priority == w[t].priority then (w, None)
    else
      var w1 := WithPriority(w, t, priority);
      if w[t].owner.None? then (w1, None)
      else
        var o := w[t].owner.value;
        (Attach(Detach(w1, o, t), o, t), Some(o))
  }

  lemma ForestReady<M>(w: World<M>, t: M)
    requires ForestBut(w, {t}) && t in w
    ensures RoundReady(w, t)
  {
    assert Ordered(w, w[t].waiters);
    if w[t].owner.Some? {
      var o := w[t].owner.value;
      DetachAcyclic(w, o, t);
      assert Tallied(w, o) && t in w[o].waiters;
      var w1 := WithPriority(w, t, Inherited(w, t));
      var d := Detach(w1, o, t);
      assert KernelKeyed(w1, w1[o].waiters) == KernelKeyed(w, w[o].waiters);
      assert KernelKeyed(d, d[o].waiters) == KernelKeyed(w, w[o].waiters) - {t};
    }
  }

  lemma DetachedInherits<M>(w: World<M>, o: M, t: M)
    requires ForestBut(w, {t}) && t in w && w[t].owner == Some(o)
    ensures o in w && o != t && Inherited(Detach(w, o, t), t) == Inherited(w, t)
    ensures forall p :: WithPriority(Detach(w, o, t), t, p) == Detach(WithPriority(w, t, p), o, t)
  {
    DetachAcyclic(w, o, t);
    assert Ordered(w, w[t].waiters);
  }

  /** Off the owner's list, to the right priority, and back onto the list. */
  lemma RequeueKeeps<M>(w: World<M>, t: M, o: M)
    requires ForestBut(w, {t}) && t in w && w[t].owner == Some(o)
    ensures o in w && o != t
    ensures var d := Detach(WithPriority(w, t, Inherited(w, t)), o, t);
            && (forall x :: x in d[o].waiters ==> x in d)
            && ForestBut(Attach(d, o, t), {o})
  {
    DetachKeeps(w, o, t, {t});
    DetachedInherits(w, o, t);
    var d := Detach(w, o, t);
    RootPriorityKeeps(d, t, {t} + {o});
    var d' := WithPriority(d, t, Inherited(w, t));
    assert {t} + {o} - {t} == {o};
    SameLinksSameUp(d, d', o, t);
    AttachKeeps(d', o, t, {o});
    assert {o} + {o} == {o};
    assert Ordered(d', d'[o].waiters);
  }

  lemma {:induction false} SameLinksSameUp'<M>(w: World<M>, w': World<M>, t: M, n: nat)
    requires w.Keys == w'.Keys && forall x :: x in w ==> w'[x].owner == w[x].owner
    ensures Up(w', t, n) == Up(w, t, n)
  {
    if n > 0 && t in w && w[t].owner.Some? {
      SameLinksSameUp'(w, w', w[t].owner.value, n - 1);
    }
  }

  lemma SameLinksSameUp<M>(w: World<M>, w': World<M>, t: M, a: M)
    requires w.Keys == w'.Keys && forall x :: x in w ==> w'[x].owner == w[x].owner
    ensures Below(w', t, a) <==> Below(w, t, a)
  {
    forall n: nat ensures Up(w', t, n) == Up(w, t, n) {
      SameLinksSameUp'(w, w', t, n);
    }
  }

  /** A round repairs `t`; only its owner may then be out of date. */
  lemma RestoreStepKeeps<M>(w: World<M>, t: M, r: map<M, nat>)
    requires ForestBut(w, {t}) && Ranked(w, r) && t in w
    ensures RoundReady(w, t)
    ensures var (w', next) := RestoreStep(w, t);
            && Ranked(w', r)
            && (next.None? ==> Forest(w'))
            && (next.Some? ==> next == w[t].owner && next.value in w' && ForestBut(w', {next.value}))
  {
    ForestReady(w, t);
    if Inherited(w, t) == w[t].priority {
      assert Forest(w);
    } else if w[t].owner.None? {
      RootPriorityKeeps(w, t, {t});
      assert Ranked(WithPriority(w, t, Inherited(w, t)), r);
    } else {
      var o := w[t].owner.value;
      RequeueKeeps(w, t, o);
      assert Ranked(RestoreStep(w, t).0, r);
    }
  }

  /** All rounds of `RestorePriority`. */
  function RestoreAll<M(==)>(w: World<M>, t: M, ghost r: map<M, nat>): World<M>
    requires ForestBut(w, {t}) && Ranked(w, r) && t in w
    decreases r[t]
  {
    RestoreStepKeeps(w, t, r);
    var (w', next) := RestoreStep(w, t);
    if next.None? then w' else RestoreAll(w', next.value, r)
  }

  /** What `RestorePriority` may touch: priorities at and above `t`, and above `t` the place of one
      waiter in its list, which then stands behind the waiters that are as urgent as it. */
  ghost predicate Restored<M>(w: World<M>, w': World<M>, t: M) {
    && w'.Keys == w.Keys
    && (forall x {:trigger w'[x]} :: x in w ==> SameButPlace(w[x], w'[x]))
    && (forall x {:trigger w'[x]} :: x in w && !Below(w, t, x) ==> w'[x] == w[x])
    && (t in w ==> w'[t].waiters == w[t].waiters)
    && (forall x {:trigger w'[x]} :: x in w ==> w'[x].waiters == w[x].waiters || Requeued(w, w', x))
  }

  ghost predicate SameButPlace<M>(n: Node<M>, n': Node<M>) {
    n'.base == n.base && n'.owner == n.owner && n'.key == n.key && n'.kernelWaiters == n.kernelWaiters
  }

  ghost predicate Requeued<M>(w: World<M>, w': World<M>, x: M)
    requires x in w && x in w'
  {
    exists c :: c in w[x].waiters && c in w' && (forall y :: y in w[x].waiters ==> y in w')
      && w'[x].waiters == Inserted(w', Without(w[x].waiters, c), c)
  }

  lemma {:induction false} InsertedSame<M>(w: World<M>, w': World<M>, ws: seq<M>, t: M)
    requires t in w && t in w' && w'[t].priority == w[t].priority
    requires forall x :: x in ws ==> x in w && x in w' && w'[x].priority == w[x].priority
    ensures Inserted(w', ws, t) == Inserted(w, ws, t)
  {
    InsertionPointIsFirst(w', ws, w[t].priority, InsertionPoint(w, ws, w[t].priority));
  }

  /** The nodes after a round that requeues `t` with its owner `o`. */
  ghost predicate Round<M>(w: World<M>, w': World<M>, t: M, o: M) {
    && t in w && o in w && o != t && w[t].owner == Some(o)
    && w'.Keys == w.Keys
    && w'[t] == w[t].(priority := w'[t].priority)
    && (forall y :: y in w[o].waiters ==> y in w')
    && w'[o] == w[o].(waiters := Inserted(w', Without(w[o].waiters, t), t))
    && (forall x {:trigger w'[x]} :: x in w && x != t && x != o ==> w'[x] == w[x])
  }

  lemma RequeueEffect<M>(w: World<M>, t: M, o: M)
    requires Linked(w) && Acyclic(w) && t in w && w[t].owner == Some(o)
    ensures o in w && o != t
    ensures RoundReady(w, t) && Inherited(w, t) != w[t].priority ==> Round(w, RestoreStep(w, t).0, t, o)
  {
    DetachAcyclic(w, o, t);
    var d := Detach(WithPriority(w, t, Inherited(w, t)), o, t);
    var ws := Without(w[o].waiters, t);
    assert forall x :: x in ws ==> x in w[o].waiters && x in d;
    AttachRound(w, d, o, t, Inherited(w, t), ws);
  }

  lemma AttachRound<M>(w: World<M>, d: World<M>, o: M, t: M, priority: int, ws: seq<M>)
    requires t in w && o in w && o != t && w[t].owner == Some(o) && d == Detach(WithPriority(w, t, priority), o, t)
    requires ws == Without(w[o].waiters, t) && (forall x :: x in ws ==> x in d) && (forall x :: x in w[o].waiters ==> x in d)
    ensures Round(w, Attach(d, o, t), t, o)
  {
    var w' := Attach(d, o, t);
    InsertedSame(d, w', ws, t);
    assert w'[o].waiters == Inserted(w', ws, t);
  }

  lemma WaitersNotAbove<M>(w: World<M>, r: map<M, nat>, o: M, y: M)
    requires Linked(w) && Ranked(w, r) && o in w && y in w && w[y].owner == Some(o)
    ensures !Below(w, o, y)
  {
    forall n: nat | Up(w, o, n) == Some(y) ensures false {
      UpRank(w, r, o, n);
    }
  }

  /** One round followed by the rounds from the owner on. */
  lemma RestoredThrough<M>(w: World<M>, w1: World<M>, w2: World<M>, t: M, o: M, r: map<M, nat>)
    requires Linked(w) && Linked(w1) && Ranked(w, r) && Ranked(w1, r)
    requires Round(w, w1, t, o) && Restored(w1, w2, o)
    ensures Restored(w, w2, t)
  {
    assert forall x {:trigger w1[x].owner} :: x in w ==> w1[x].owner == w[x].owner;
    assert w2[t] == w1[t] by { WaitersNotAbove(w1, r, o, t); }
    forall x | x in w ensures !Below(w, t, x) ==> w2[x] == w[x] {
      RoundElsewhere(w, w1, w2, t, o, x);
    }
    forall x | x in w ensures SameButPlace(w[x], w2[x]) {
      assert SameButPlace(w1[x], w2[x]);
    }
    forall x | x in w ensures w2[x].waiters == w[x].waiters || Requeued(w, w2, x) {
      if x == o {
        RequeuedHere(w, w1, w2, t, o, r);
      } else if w2[x].waiters != w1[x].waiters {
        assert Requeued(w1, w2, x);
      }
    }
  }

  lemma RoundElsewhere<M>(w: World<M>, w1: World<M>, w2: World<M>, t: M, o: M, x: M)
    requires Round(w, w1, t, o) && Restored(w1, w2, o) && x in w
    ensures !Below(w, t, x) ==> w2[x] == w[x]
  {
    BelowOwner(w, t, x);
    SameLinksSameUp(w, w1, o, x);
    assert Up(w, o, 0) == Some(o);
  }

  lemma RequeuedHere<M>(w: World<M>, w1: World<M>, w2: World<M>, t: M, o: M, r: map<M, nat>)
    requires Linked(w) && Linked(w1) && Ranked(w1, r)
    requires Round(w, w1, t, o) && Restored(w1, w2, o)
    ensures o in w2 && Requeued(w, w2, o)
  {
    var ws := Without(w[o].waiters, t);
    forall y | y in w[o].waiters ensures y in w1 && w2[y] == w1[y] {
      assert w[y].owner == Some(o);
      assert w1[y].owner == Some(o);
      WaitersNotAbove(w1, r, o, y);
    }
    InsertedSame(w1, w2, ws, t);
    assert w2[o].waiters == Inserted(w2, ws, t);
  }

  lemma {:induction false} RestoreAllFacts<M>(w: World<M>, t: M, r: map<M, nat>)
    requires ForestBut(w, {t}) && Ranked(w, r) && t in w
    ensures Forest(RestoreAll(w, t, r)) && Restored(w, RestoreAll(w, t, r), t)
    decreases r[t]
  {
    RestoreStepKeeps(w, t, r);
    var (w', next) := RestoreStep(w, t);
    if next.None? {
      LastRound(w, t);
    } else {
      RestoreAllFacts(w', next.value, r);
      RequeueEffect(w, t, next.value);
      RestoredThrough(w, w', RestoreAll(w', next.value, r), t, next.value, r);
    }
  }

  /** `RestorePriority` on its way from `start` in `w0`: it stands at `t` in `w`. */
  ghost predicate Restoring<M>(w0: World<M>, start: M, r: map<M, nat>, w: World<M>, t: M) {
    && ForestBut(w0, {start}) && Ranked(w0, r) && start in w0
    && ForestBut(w, {t}) && Ranked(w, r) && t in w
    && RestoreAll(w, t, r) == RestoreAll(w0, start, r)
  }

  lemma RestoringStep<M>(w0: World<M>, start: M, r: map<M, nat>, w: World<M>, t: M)
    requires Restoring(w0, start, r, w, t)
    ensures RoundReady(w, t)
    ensures var (w', next) := RestoreStep(w, t);
            && (next.None? ==> w' == RestoreAll(w0, start, r))
            && (next.Some? ==> Restoring(w0, start, r, w', next.value) && r[next.value] < r[t])
  {
    RestoreStepKeeps(w, t, r);
  }

  lemma UpToDateStays<M>(w: World<M>, t: M, r: map<M, nat>)
    requires ForestBut(w, {t}) && Ranked(w, r) && t in w
    ensures Forest(w) ==> RestoreAll(w, t, r) == w
  {
    RestoreStepKeeps(w, t, r);
    assert Forest(w) ==> w[t].priority == Inherited(w, t);
  }

  lemma LastRound<M>(w: World<M>, t: M)
    requires RoundReady(w, t) && RestoreStep(w, t).1.None?
    ensures Restored(w, RestoreStep(w, t).0, t)
  {
    assert Up(w, t, 0) == Some(t);
  }

  lemma OwnerAtLeastAsUrgent<M>(w: World<M>, x: M)
    requires Forest(w) && x in w && w[x].owner.Some?
    ensures w[x].owner.value in w && w[w[x].owner.value].priority <= w[x].priority
  {
    var o := w[x].owner.value;
    assert x in w[o].waiters && Ordered(w, w[o].waiters);
    var i :| 0 <= i < |w[o].waiters| && w[o].waiters[i] == x;
    assert w[w[o].waiters[0]].priority <= w[x].priority;
    assert w[o].priority == Inherited(w, o);
  }

  lemma {:induction false} AtLeastAsUrgent<M>(w: World<M>, x: M, t: M, n: nat)
    requires Forest(w) && Up(w, x, n) == Some(t)
    ensures t in w && x in w && w[t].priority <= w[x].priority
  {
    if n > 0 {
      OwnerAtLeastAsUrgent(w, x);
      AtLeastAsUrgent(w, w[x].owner.value, t, n - 1);
    }
  }

  lemma RankBound<M>(r: map<M, nat>) returns (b: nat)
    ensures forall t :: t in r ==> r[t] <= b
    decreases |r|
  {
    if r.Keys == {} {
      b := 0;
    } else {
      var t :| t in r;
      var rest: map<M, nat> := map x | x in r && x != t :: r[x];
      assert rest.Keys == r.Keys - {t};
      b := RankBound(rest);
      if b < r[t] {
        b := r[t];
      }
      assert forall x :: x in r ==> x == t || x in rest;
    }
  }

  /** Some thread waiting for `t` has the priority of `t` as its own. */
  lemma {:induction false} Source<M>(w: World<M>, r: map<M, nat>, b: nat, t: M) returns (x: M, n: nat)
    requires Forest(w) && Ranked(w, r) && (forall y :: y in r ==> r[y] <= b) && t in w
    ensures x in w && Up(w, x, n) == Some(t) && w[x].base == w[t].priority
    decreases b - r[t]
  {
    assert w[t].priority == Inherited(w, t) && Ordered(w, w[t].waiters);
    if w[t].priority == w[t].base {
      x, n := t, 0;
    } else {
      var y := w[t].waiters[0];
      assert y in w[t].waiters;
      assert w[y].owner == Some(t);
      x, n := Source(w, r, b, y);
      UpThen(w, x, n);
      n := n + 1;
    }
  }

  lemma {:induction false} UpThen<M>(w: World<M>, x: M, n: nat)
    requires Up(w, x, n).Some? && Up(w, x, n).value in w && w[Up(w, x, n).value].owner.Some?
    requires w[Up(w, x, n).value].owner.value in w
    ensures Up(w, x, n + 1) == w[Up(w, x, n).value].owner
  {
    if n > 0 {
      UpThen(w, w[x].owner.value, n - 1);
    }
  }

  /** The meaning of priority inheritance: a thread runs at the most urgent base priority among all
      threads that wait for it, directly or through other owners, itself included. */
  lemma EffectivePriority<M>(w: World<M>, t: M)
    requires Forest(w) && t in w
    ensures forall x :: x in w && Below(w, x, t) ==> w[t].priority <= w[x].base
    ensures exists x :: x in w && Below(w, x, t) && w[x].base == w[t].priority
  {
    forall x | x in w && Below(w, x, t) ensures w[t].priority <= w[x].base {
      var n: nat :| Up(w, x, n) == Some(t);
      AtLeastAsUrgent(w, x, t, n);
      assert w[x].priority == Inherited(w, x);
    }
    var r: map<M, nat> :| Ranked(w, r);
    var b := RankBound(r);
    var x, n := Source(w, r, b, t);
  }

  /** Base priorities and owner links determine every effective priority. */
  lemma PrioritiesDetermined<M>(w: World<M>, w': World<M>, t: M)
    requires Forest(w) && Forest(w') && w'.Keys == w.Keys && t in w
    requires forall x :: x in w ==> w'[x].owner == w[x].owner && w'[x].base == w[x].base
    ensures w'[t].priority == w[t].priority
  {
    EffectivePriority(w, t);
    EffectivePriority(w', t);
    forall x | x in w ensures Below(w', x, t) <==> Below(w, x, t) {
      SameLinksSameUp(w, w', x, t);
    }
  }

  lemma KeyElsewhere<M>(w: World<M>, t: M, key: int, x: M)
    requires Linked(w) && t in w && w[t].owner.None? && x in w
    ensures var w' := w[t := w[t].(key := key)];
            && (Tallied(w, x) ==> Tallied(w', x))
            && (Ordered(w, w[x].waiters) ==> Ordered(w', w'[x].waiters) && Inherited(w', x) == Inherited(w, x))
  {
    assert t !in w[x].waiters;
    var w' := w[t := w[t].(key := key)];
    assert KernelKeyed(w', w'[x].waiters) == KernelKeyed(w, w[x].waiters);
  }

  /** A thread that does not wait may change its key. */
  lemma KeyKeeps<M>(w: World<M>, t: M, key: int)
    requires Forest(w) && t in w && w[t].owner.None?
    ensures Forest(w[t := w[t].(key := key)])
  {
    var r: map<M, nat> :| Ranked(w, r);
    var w' := w[t := w[t].(key := key)];
    assert Ranked(w', r);
    forall x {:trigger Inherited(w', x)} {:trigger Tallied(w', x)} {:trigger Ordered(w', w'[x].waiters)} | x in w'
      ensures Tallied(w', x) && Ordered(w', w'[x].waiters) && w'[x].priority == Inherited(w', x)
    {
      assert Tallied(w, x) && Ordered(w, w[x].waiters);
      assert w[x].priority == Inherited(w, x);
      KeyElsewhere(w, t, key, x);
    }
  }
}
