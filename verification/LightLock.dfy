/** The kernel's light lock: an atomic tag holding the owner and a bit that says whether somebody may
    be waiting, with the waiters kept on the owner's waiter list. Every method is one atomic step:
    a compare-and-swap on the tag, or a section under the scheduler lock. */
module LightLocks {
  import opened Options
  import opened PriorityQueues
  import opened LockForests
  import opened LockHandovers
  import opened Threads

  /** Who waits on `key` waits for the thread in the tag, and the tag's bit says so. */
  ghost predicate TagNamesOwner<M>(w: World<M>, key: int, owner: Option<M>, contended: bool) {
    forall x {:trigger w[x].owner} :: x in w && w[x].owner.Some? && w[x].key == key ==> w[x].owner == owner && contended
  }

  /** `w'` has the owner links and keys of `w`. */
  ghost predicate SameLinks<M>(w: World<M>, w': World<M>) {
    w'.Keys == w.Keys && forall x {:trigger w'[x].owner} :: x in w ==> w'[x].owner == w[x].owner && w'[x].key == w[x].key
  }

  lemma SameLinksSameTag<M>(w: World<M>, w': World<M>, key: int, owner: Option<M>, contended: bool)
    requires SameLinks(w, w') && TagNamesOwner(w, key, owner, contended)
    ensures TagNamesOwner(w', key, owner, contended)
  {
  }

  lemma RestoredLinks<M>(w: World<M>, w': World<M>, t: M)
    requires Restored(w, w', t)
    ensures SameLinks(w, w')
  {
    forall x | x in w ensures w'[x].owner == w[x].owner && w'[x].key == w[x].key {
      assert SameButPlace(w[x], w'[x]);
    }
  }

  /** A thread may start to wait on a key if the tag names the thread it waits for. */
  lemma AttachTag<M>(w: World<M>, o: M, t: M, key: int, owner: Option<M>, contended: bool)
    requires TagNamesOwner(w, key, owner, contended)
    requires o in w && t in w && o != t && w[t].owner.None? && (forall x :: x in w[o].waiters ==> x in w)
    requires w[t].key == key ==> owner == Some(o) && contended
    ensures TagNamesOwner(Attach(w, o, t), key, owner, contended)
  {
  }

  lemma DetachTag<M>(w: World<M>, o: M, t: M, key: int, owner: Option<M>, contended: bool)
    requires TagNamesOwner(w, key, owner, contended) && o in w && t in w && o != t
    ensures TagNamesOwner(Detach(w, o, t), key, owner, contended)
  {
  }

  /** After the handover, the tag must name the first waiter and say whether there are others. */
  lemma HandedTag<M>(w: World<M>, w': World<M>, o: M, key: int, contended: bool)
    requires Linked(w) && o in w && TagNamesOwner(w, key, Some(o), contended) && (forall x :: x in w[o].waiters ==> x in w)
    requires Handed(w, w', o, Keyed(w, w[o].waiters, key, true), Keyed(w, w[o].waiters, key, false))
    ensures var taken := Keyed(w, w[o].waiters, key, true);
            TagNamesOwner(w', key, First(taken), |taken| > 1)
  {
    var taken := Keyed(w, w[o].waiters, key, true);
    forall x | x in w' && w'[x].owner.Some? && w'[x].key == key
      ensures w'[x].owner == First(taken) && |taken| > 1
    {
      assert w'[x].key == w[x].key;
      assert x in taken ==> x != taken[0];
    }
  }

  /** The waiters on other keys are not affected. */
  lemma HandedOtherTag<M>(w: World<M>, w': World<M>, o: M, key: int, key': int, owner: Option<M>, contended: bool)
    requires o in w && key' != key && TagNamesOwner(w, key', owner, contended) && (forall x :: x in w[o].waiters ==> x in w)
    requires Handed(w, w', o, Keyed(w, w[o].waiters, key, true), Keyed(w, w[o].waiters, key, false))
    ensures TagNamesOwner(w', key', owner, contended)
  {
    forall x | x in w' && w'[x].owner.Some? && w'[x].key == key'
      ensures w'[x].owner == owner && contended
    {
      assert w'[x].key == w[x].key;
      assert x !in Keyed(w, w[o].waiters, key, true);
    }
  }

  lemma NobodyWaits<M>(w: World<M>, key: int, owner: Option<M>)
    requires TagNamesOwner(w, key, owner, false)
    ensures forall owner', contended :: TagNamesOwner(w, key, owner', contended)
  {
  }

  /** From the forest `w` to `w'`, `t` has become a waiter of `o` on `key`, and priorities have been repaired. */
  ghost predicate Enqueued<M>(w: World<M>, w': World<M>, o: M, t: M, key: int) {
    && t in w && o in w && o != t
    && var w1 := w[t := w[t].(key := key)];
    && (forall x :: x in w1[o].waiters ==> x in w1)
    && Restored(Attach(w1, o, t), w', o)
  }

  ghost function RawStates(ts: set<KThread>): map<KThread, RawState>
    reads ts`rawState
  {
    map t | t in ts :: t.rawState
  }

  /** From `r` to `r'` only the thread `t`, which is to sleep, and the owner it waits for have changed: a runnable `t` waits,
      and the owner loses its suspend flags if it is to go on. */
  ghost predicate PutToSleep(r: map<KThread, RawState>, r': map<KThread, RawState>, t: KThread, owner: KThread, goesOn: bool) {
    && r'.Keys == r.Keys
    && forall x {:trigger r'[x]} :: x in r ==>
         r'[x] == if x == t && r[x].state == Runnable then RawState(Waiting, r[x].suspended)
                  else if x == owner && x != t && goesOn then RawState(r[x].state, {})
                  else r[x]
  }

  /** From `r` to `r'` only the next owner and the old one have changed: the next one runs again if it was waiting, with its
      suspend flags, and the old one is given `flags` if it may be suspended now. */
  ghost predicate HandedStates(r: map<KThread, RawState>, r': map<KThread, RawState>, next: Option<KThread>, cur: KThread,
                               flags: set<SuspendType>, kernelWaiters: int) {
    && r'.Keys == r.Keys
    && forall x {:trigger r'[x]} :: x in r ==>
         r'[x] == if next == Some(x) then (if r[x].state == Waiting then RawState(Runnable, r[x].suspended) else r[x])
                  else if x == cur && flags != {} && kernelWaiters <= 0 then RawState(r[x].state, flags)
                  else r[x]
  }

  /** The lock word: the owner's address, with the low bit saying that somebody may be waiting. */
  datatype Tag = Tag(owner: Option<KThread>, contended: bool)

  const UNLOCKED := Tag(None, false)

  class KLightLock {
    const key: int  // the address of the tag, which threads waiting for this lock carry as their key
    var tag: Tag

    constructor (key: int)
      ensures this.key == key && tag == UNLOCKED
    {
      this.key := key;
      tag := UNLOCKED;
    }

    ghost predicate Names(w: World<KThread>)
      reads this
    {
      && TagNamesOwner(w, key, tag.owner, tag.contended)
      && (tag.owner.None? ==> !tag.contended)
      && (tag.owner.Some? ==> tag.owner.value in w)
    }

    /** The compare-and-swap of Lock: take a free lock, otherwise set the bit. */
    method TryLock(cur: KThread, s: KScheduler) returns (locked: bool, seen: Tag)
      requires Names(Snap(s.threads)) && cur in s.threads
      modifies `tag
      ensures Names(Snap(s.threads))
      ensures locked <==> old(tag.owner) in {None, Some(cur)}
      ensures tag.owner == if old(tag) == UNLOCKED then Some(cur) else old(tag.owner)
      ensures tag.contended <==> old(tag) != UNLOCKED
      ensures !locked ==> seen == tag && seen.owner.Some? && seen.owner.value != cur
    {
      var old_tag := tag;
      tag := if old_tag == UNLOCKED then Tag(Some(cur), false) else Tag(old_tag.owner, true);
      locked := old_tag == UNLOCKED || old_tag.owner == Some(cur);
      seen := Tag(old_tag.owner, true);
      if old_tag.owner.None? {
        NobodyWaits(Snap(s.threads), key, None);
      }
    }

    /** First half of LockSlowPath: if the lock is still as `seen`, wait for its owner. The caller must
        not close a cycle of threads waiting for each other. */
    method LockSlowPath(cur: KThread, seen: Tag, s: KScheduler, ghost locks: set<KLightLock>) returns (waits: bool)
      requires s.Valid() && Forest(Snap(s.threads)) && AllNamed(locks, Snap(s.threads)) && this in locks
      requires seen.contended && seen.owner.Some? && cur in s.threads && cur.lockOwner == null
      requires tag == seen ==> !Below(Snap(s.threads), seen.owner.value, cur)
      modifies s`updateNeeded, s.queue`scheduled, s.queue`suggested, cur`addressKey, s.threads`rawState
      modifies s.threads`priority, s.threads`waiters, s.threads`lockOwner, s.threads`numKernelWaiters
      ensures s.Valid() && Forest(Snap(s.threads)) && AllNamed(locks, Snap(s.threads))
      ensures waits <==> old(tag) == seen
      ensures waits ==> cur.addressKey == key && AsOption(cur.lockOwner) == tag.owner == seen.owner && tag.contended
      ensures waits ==> Enqueued(old(Snap(s.threads)), Snap(s.threads), seen.owner.value, cur, key)
      // It sleeps, its suspended owner goes on because kernel code waits for it now, and no other thread's state changes.
      ensures waits ==>
                var owner := seen.owner.value;
                PutToSleep(old(RawStates(s.threads)), RawStates(s.threads), cur, owner, owner.SuspendFlags() != {} && owner.numKernelWaiters > 0)
      ensures !waits ==> Snap(s.threads) == old(Snap(s.threads)) && RawStates(s.threads) == old(RawStates(s.threads))
    {
      hide ForestBut, TagNamesOwner, Matches, PutToSleep, Below, Enqueued, Placements, RawStates, KScheduler.Valid, Snap;
      waits := tag == seen;
      if !waits {
        return;
      }
      var owner := seen.owner.value;
      Enqueue(cur, owner, s, locks);
      SetWaiting(cur, owner, s);
    }

    /** The waiter sleeps, and a suspended owner that kernel code now waits for goes on. */
    static method SetWaiting(cur: KThread, owner: KThread, s: KScheduler)
      requires s.Valid() && cur in s.threads && owner in s.threads && cur != owner
      modifies s`updateNeeded, s.queue`scheduled, s.queue`suggested, cur`rawState, owner`rawState
      ensures s.Valid() && Snap(s.threads) == old(Snap(s.threads))
      ensures PutToSleep(old(RawStates(s.threads)), RawStates(s.threads), cur, owner, owner.SuspendFlags() != {} && owner.numKernelWaiters > 0)
    {
      if cur.rawState.state == Runnable {
        cur.SetState(Waiting, s);
      }
      if owner.SuspendFlags() != {} {
        owner.ContinueIfHasKernelWaiters(s);
      }
    }

    /** Second half of LockSlowPath: awake again, the thread leaves the list if it is still on one. */
    method LockSlowPathLeave(cur: KThread, s: KScheduler, current: KThread, ghost locks: set<KLightLock>)
      requires s.Valid() && Forest(Snap(s.threads)) && AllNamed(locks, Snap(s.threads)) && cur in s.threads
      modifies s`updateNeeded, s.queue`scheduled, s.queue`suggested
      modifies s.threads`priority, s.threads`waiters, s.threads`lockOwner, s.threads`numKernelWaiters
      ensures s.Valid() && Forest(Snap(s.threads)) && AllNamed(locks, Snap(s.threads))
      ensures cur.lockOwner == null
      ensures var w, o := old(Snap(s.threads)), old(AsOption(cur.lockOwner));
              if o.None? then Snap(s.threads) == w else o.value != cur && o.value in w && Restored(Detach(w, o.value, cur), Snap(s.threads), o.value)
    {
      hide ForestBut, Attach, Restored, TagNamesOwner, Matches;
      var owner := cur.lockOwner;
      if owner != null {
        ghost var w := Snap(s.threads);
        assert w[cur].owner == Some(owner);
        OwnerKnown(w, cur);
        owner.RemoveWaiter(cur, s, current);
        LeftAll(w, Snap(s.threads), owner, cur, locks);
        assert Snap(s.threads)[cur] == cur.AsNode();
      }
    }

    /** The compare-and-swap of Unlock; it may fail for no reason, and then the slow path is taken. */
    method Unlock(cur: KThread, fails: bool, s: KScheduler, ghost locks: set<KLightLock>)
      requires s.Valid() && Forest(Snap(s.threads)) && AllNamed(locks, Snap(s.threads)) && this in locks
      requires cur in s.threads && tag.owner == Some(cur)
      modifies `tag, s`updateNeeded, s.queue`scheduled, s.queue`suggested, s.threads`rawState
      modifies s.threads`priority, s.threads`waiters, s.threads`lockOwner, s.threads`numKernelWaiters
      ensures s.Valid() && Forest(Snap(s.threads)) && AllNamed(locks, Snap(s.threads))
      ensures tag.owner != Some(cur)
      ensures !old(tag.contended) ==> tag == UNLOCKED
      // On the slow path the first of the waiters, if any, runs again; on the fast path nobody's state changes.
      ensures forall x :: x in old(cur.waiters) ==> x in s.threads
      ensures old(tag.contended) || fails ==>
                HandedStates(old(RawStates(s.threads)), RawStates(s.threads), First(Keyed(old(Snap(s.threads)), old(cur.waiters), key, true)),
                             cur, cur.SuspendFlags(), cur.numKernelWaiters)
      ensures !old(tag.contended) && !fails ==> RawStates(s.threads) == old(RawStates(s.threads))
    {
      hide ForestBut, TagNamesOwner, Matches, Handed, Keyed, HandedStates;
      OwnWaiters(Snap(s.threads), cur, s.threads);
      if tag == Tag(Some(cur), false) && !fails {
        assert Names(Snap(s.threads));
        NobodyWaits(Snap(s.threads), key, tag.owner);
        tag := UNLOCKED;
        assert forall l :: l in locks && l != this ==> l.Names(Snap(s.threads));
      } else {
        UnlockSlowPath(cur, s, locks);
      }
    }

    /** Hand the lock to the first of its waiters. */
    method UnlockSlowPath(cur: KThread, s: KScheduler, ghost locks: set<KLightLock>)
      requires s.Valid() && Forest(Snap(s.threads)) && AllNamed(locks, Snap(s.threads)) && this in locks
      requires cur in s.threads && tag.owner == Some(cur)
      modifies `tag, s`updateNeeded, s.queue`scheduled, s.queue`suggested, s.threads`rawState
      modifies s.threads`priority, s.threads`waiters, s.threads`lockOwner, s.threads`numKernelWaiters
      ensures s.Valid() && Forest(Snap(s.threads)) && AllNamed(locks, Snap(s.threads))
      ensures (forall x :: x in old(cur.waiters) ==> x in s.threads)
      ensures var w, ws := old(Snap(s.threads)), old(cur.waiters);
              var taken := Keyed(w, ws, key, true);
              && Handed(w, Snap(s.threads), cur, taken, Keyed(w, ws, key, false))
              && tag == Tag(First(taken), |taken| > 1)
              && HandedStates(old(RawStates(s.threads)), RawStates(s.threads), First(taken), cur, cur.SuspendFlags(), cur.numKernelWaiters)
      ensures tag.owner != Some(cur) && (!old(tag.contended) ==> tag == UNLOCKED)
    {
      hide ForestBut, TagNamesOwner, Matches, Handed, Keyed, Snap, Placements, KScheduler.Valid, KScheduler.Queued;
      ghost var w := Snap(s.threads);
      SnapAt(s.threads, cur);
      var n, next := cur.RemoveWaiterByKey(key, s, cur);
      ghost var w' := Snap(s.threads);
      HandedAll(w, w', cur, locks);
      WakeNext(cur, next, s);
      tag := Tag(AsOption(next), next != null && n > 1);
      assert Names(w');
      assert forall l :: l in locks && l != this ==> l.Names(w');
    }

    /** The next owner runs again, and the old one may now follow a request to be suspended. */
    static method WakeNext(cur: KThread, next: KThread?, s: KScheduler)
      requires s.Valid() && cur in s.threads && cur != next && (next != null ==> next in s.threads)
      modifies s`updateNeeded, s.queue`scheduled, s.queue`suggested, s.threads`rawState
      ensures s.Valid() && Snap(s.threads) == old(Snap(s.threads))
      ensures HandedStates(old(RawStates(s.threads)), RawStates(s.threads), AsOption(next), cur, cur.SuspendFlags(), cur.numKernelWaiters)
    {
      hide KScheduler.Valid, Placements, Snap;
      if next != null && next.rawState.state == Waiting {
        next.SetState(Runnable, s);
      }
      if cur.SuspendFlags() != {} {
        cur.TrySuspend(s);
      }
    }

    lemma OwnWaiters(w: World<KThread>, cur: KThread, ts: set<KThread>)
      requires Forest(w) && cur in w && w.Keys == ts
      ensures forall x :: x in w[cur].waiters ==> x in ts
    {
      WaiterFacts(w, cur);
    }

    lemma HandedAll(w: World<KThread>, w': World<KThread>, cur: KThread, locks: set<KLightLock>)
      requires Forest(w) && cur in w && AllNamed(locks, w) && this in locks && tag.owner == Some(cur)
      requires forall x :: x in w[cur].waiters ==> x in w
      requires Handed(w, w', cur, Keyed(w, w[cur].waiters, key, true), Keyed(w, w[cur].waiters, key, false))
      ensures var taken := Keyed(w, w[cur].waiters, key, true);
              && TagNamesOwner(w', key, First(taken), |taken| > 1)
              && (taken != [] ==> taken[0] in w && taken[0] != cur && tag.contended)
      ensures w'.Keys == w.Keys && forall l :: l in locks && l != this ==> l.Names(w')
    {
      assert Names(w);
      var taken := Keyed(w, w[cur].waiters, key, true);
      HandedTag(w, w', cur, key, tag.contended);
      WaiterFacts(w, cur);
      if taken != [] {
        assert taken[0] in taken;
        assert w[taken[0]].owner == Some(cur) && w[taken[0]].key == key;
      }
      forall l | l in locks && l != this ensures l.Names(w') {
        assert l.Names(w);
        HandedOtherTag(w, w', cur, key, l.key, l.tag.owner, l.tag.contended);
      }
    }

    lemma EnqueuedAll(w: World<KThread>, w1: World<KThread>, w2: World<KThread>, o: KThread, t: KThread, locks: set<KLightLock>)
      requires t in w && o in w && w[t].owner.None? && o != t && w1 == w[t := w[t].(key := key)]
      requires (forall x :: x in w1[o].waiters ==> x in w1) && Restored(Attach(w1, o, t), w2, o)
      requires AllNamed(locks, w) && this in locks && tag == Tag(Some(o), true)
      ensures AllNamed(locks, w2) && t in w2 && w2[t].owner == Some(o) && w2[t].key == key
    {
      assert Names(w);
      EnqueuedTag(w, w1, w2, o, t, key, key, tag.owner, tag.contended);
      forall l | l in locks ensures l.Names(w2) {
        assert l.Names(w);
        EnqueuedTag(w, w1, w2, o, t, key, l.key, l.tag.owner, l.tag.contended);
      }
    }

    /** The tag still names this thread: let `cur` wait for it. */
    method Enqueue(cur: KThread, owner: KThread, s: KScheduler, ghost locks: set<KLightLock>)
      requires s.Valid() && Forest(Snap(s.threads)) && AllNamed(locks, Snap(s.threads)) && this in locks
      requires tag == Tag(Some(owner), true) && cur in s.threads && cur.lockOwner == null
      requires !Below(Snap(s.threads), owner, cur)
      modifies s`updateNeeded, s.queue`scheduled, s.queue`suggested, cur`addressKey
      modifies s.threads`priority, s.threads`waiters, s.threads`lockOwner, s.threads`numKernelWaiters
      ensures s.Valid() && Forest(Snap(s.threads)) && AllNamed(locks, Snap(s.threads))
      ensures cur.addressKey == key && cur.lockOwner == owner && cur != owner && owner in s.threads
      ensures Enqueued(old(Snap(s.threads)), Snap(s.threads), owner, cur, key)
    {
      hide ForestBut, Attach, Restored, TagNamesOwner, Matches;
      ghost var w := Snap(s.threads);
      KeyedReady(w, owner, cur, key);
      cur.SetAddressKey(key, s);
      ghost var w1 := Snap(s.threads);
      owner.AddWaiter(cur, s, cur);
      EnqueuedAll(w, w1, Snap(s.threads), owner, cur, locks);
      assert Snap(s.threads)[cur] == cur.AsNode();
    }
  }

  /** With its new key, the thread can be added to the owner's waiters. */
  lemma KeyedReady<M>(w: World<M>, o: M, t: M, key: int)
    requires Forest(w) && o in w && t in w && w[t].owner.None? && !Below(w, o, t)
    ensures o != t && Forest(w[t := w[t].(key := key)]) && !Below(w[t := w[t].(key := key)], o, t)
  {
    assert Up(w, o, 0) == Some(o);
    KeyKeeps(w, t, key);
    SameLinksSameUp(w, w[t := w[t].(key := key)], o, t);
  }

  lemma OwnerKnown<M>(w: World<M>, t: M)
    requires Forest(w) && t in w && w[t].owner.Some?
    ensures w[t].owner.value in w
  {
  }

  lemma LeftAll(w: World<KThread>, w': World<KThread>, o: KThread, t: KThread, locks: set<KLightLock>)
    requires t in w && o in w && o != t && Restored(Detach(w, o, t), w', o) && AllNamed(locks, w)
    ensures AllNamed(locks, w') && t in w' && w'[t].owner.None?
  {
    RestoredLinks(Detach(w, o, t), w', o);
    forall l | l in locks ensures l.Names(w') {
      assert l.Names(w);
      DetachTag(w, o, t, l.key, l.tag.owner, l.tag.contended);
      SameLinksSameTag(Detach(w, o, t), w', l.key, l.tag.owner, l.tag.contended);
    }
  }

  ghost predicate AllNamed(locks: set<KLightLock>, w: World<KThread>)
    reads locks
  {
    && (forall l :: l in locks ==> l.Names(w))
    && (forall l, m :: l in locks && m in locks && l.key == m.key ==> l == m)
  }

  lemma EnqueuedTag<M>(w: World<M>, w1: World<M>, w2: World<M>, o: M, t: M, key: int,
                       lockKey: int, owner: Option<M>, contended: bool)
    requires t in w && o in w && w[t].owner.None? && o != t && w1 == w[t := w[t].(key := key)]
    requires (forall x :: x in w1[o].waiters ==> x in w1) && Restored(Attach(w1, o, t), w2, o)
    requires TagNamesOwner(w, lockKey, owner, contended)
    requires lockKey == key ==> owner == Some(o) && contended
    ensures TagNamesOwner(w2, lockKey, owner, contended)
    ensures t in w2 && w2[t].owner == Some(o) && w2[t].key == key
  {
    assert TagNamesOwner(w1, lockKey, owner, contended);
    AttachTag(w1, o, t, lockKey, owner, contended);
    RestoredLinks(Attach(w1, o, t), w2, o);
    SameLinksSameTag(Attach(w1, o, t), w2, lockKey, owner, contended);
  }
}
