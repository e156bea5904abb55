/** Kernel threads: lock ownership with priority inheritance, the suspend state machine, and the
    scheduler's bookkeeping that follows both. The scheduler lock is held throughout, so each
    method is one atomic step. */
module Threads {
  import opened Options
  import opened PriorityQueues
  import opened LockForests
  import opened LockHandovers

  datatype ThreadState = Initialized | Waiting | Runnable | Terminated
  datatype SuspendType = Process | Thread | Debug | Unk3 | Init

  /** The raw thread state: the state in the low bits and the suspend flags above it. */
  datatype RawState = RawState(state: ThreadState, suspended: set<SuspendType>)

  const RUNNABLE := RawState(Runnable, {})

  /** The lock forest that the threads in `ts` form. */
  ghost function Snap(ts: set<KThread>): World<KThread>
    reads ts`basePriority, ts`priority, ts`lockOwner, ts`waiters, ts`addressKey, ts`numKernelWaiters
  {
    map t | t in ts :: t.AsNode()
  }

  lemma SnapAt(ts: set<KThread>, t: KThread)
    requires t in ts
    ensures Snap(ts).Keys == ts && Snap(ts)[t] == t.AsNode()
  {
  }

  /** Only `a` and `b` have changed since the forest was `was`. */
  lemma SnapIs(ts: set<KThread>, was: World<KThread>, now: World<KThread>, a: KThread, b: KThread)
    requires a in ts && b in ts && was.Keys == ts && now == was[a := a.AsNode()][b := b.AsNode()]
    requires forall t {:trigger was[t]} :: t in ts && t != a && t != b ==> t.AsNode() == was[t]
    ensures Snap(ts) == now
  {
  }

  ghost function Placements(ts: set<KThread>): map<KThread, Placement>
    reads ts`rawState, ts`activeCore, ts`priority, ts`affinity
  {
    map t | t in ts :: t.Place()
  }

  /** `m` is at the front of its FIFO, if it is in one. */
  ghost predicate Leads<M>(l: Lists<M>, pl: Placement, m: M) {
    pl.In(Scheduled, pl.core, pl.priority) ==> At(l, pl.core, pl.priority) != [] && At(l, pl.core, pl.priority)[0] == m
  }

  /** A queued member has changed its place with its priority. */
  ghost predicate Followed<M>(l: Lists<M>, g: Lists<M>, l': Lists<M>, g': Lists<M>, m: M, pl: Placement, front: bool) {
    if pl.runnable then ChangedPlace(l, l', Scheduled, m, pl, front) && ChangedPlace(g, g', Suggested, m, pl, false)
    else l' == l && g' == g
  }

  /** Whoever else changes places, the one in front stays there. */
  lemma StaysInFront<M>(l: Lists<M>, g: Lists<M>, l': Lists<M>, g': Lists<M>, m: M, pl: Placement, front: bool, t: M, place: Placement)
    requires Followed(l, g, l', g', m, pl, front)
    requires if m == t then front && place == pl else !front && Leads(l, place, t)
    ensures Leads(l', place, t)
  {
    if place.In(Scheduled, place.core, place.priority) && m != t {
      FirstStays(At(l, place.core, place.priority), m);
    }
  }

  lemma FirstStays<M>(f: seq<M>, m: M)
    requires f != [] && f[0] != m
    ensures Without(f, m) != [] && Without(f, m)[0] == f[0]
  {
  }

  /** The state of a member has gone from `was` to `now`: it leaves its FIFOs when it can no longer run, and goes
      behind those that wait when it can again. */
  ghost predicate StateFollowed<M>(l: Lists<M>, g: Lists<M>, l': Lists<M>, g': Lists<M>, m: M, pl: Placement, was: RawState, now: RawState) {
    if was == RUNNABLE && now != RUNNABLE then
      TakenOut(l, l', Scheduled, m, pl.(runnable := true)) && TakenOut(g, g', Suggested, m, pl.(runnable := true))
    else if was != RUNNABLE && now == RUNNABLE then
      Arrived(l, l', Scheduled, m, pl) && Arrived(g, g', Suggested, m, pl)
    else l' == l && g' == g
  }

  /** The global part of the scheduler. */
  class KScheduler {
    ghost const threads: set<KThread>
    const queue: KPriorityQueue<KThread>
    var updateNeeded: bool
    var highest: seq<Option<KThread>>
    var needsScheduling: set<int>

    constructor (ghost ts: set<KThread>)
      ensures threads == ts && fresh(queue) && updateNeeded && needsScheduling == {}
      ensures highest == seq(NUM_CORES, c => None)
      ensures queue.scheduled == map[] && queue.suggested == map[]
      // While none of the threads can run yet, this is where every run starts.
      ensures (forall t :: t in ts ==> !t.Place().runnable && t.Place().Valid() && 0 <= t.basePriority <= LOWEST_PRIORITY + 1) ==> Valid()
    {
      threads := ts;
      queue := new KPriorityQueue<KThread>();
      updateNeeded := true;
      highest := seq(NUM_CORES, c => None);
      needsScheduling := {};
    }

    /** Unless an update is pending, every core's choice is the front of its queue. */
    ghost predicate Fresh()
      reads this, queue
    {
      && |highest| == NUM_CORES
      && (forall c :: 0 <= c < NUM_CORES && highest[c].Some? ==> highest[c].value in threads)
      && (!updateNeeded ==> forall c :: 0 <= c < NUM_CORES ==> highest[c] == Front(queue.scheduled, c))
    }

    ghost predicate Queued(ms: map<KThread, Placement>)
      reads this, queue
    {
      queue.Holds(ms) && Fresh()
    }

    /** A thread is queued exactly when it is runnable and not suspended, exactly once, on its active
        core and at its current priority. */
    ghost predicate Valid()
      reads this, queue, threads`basePriority, threads`rawState, threads`activeCore, threads`priority, threads`affinity
    {
      && Queued(Placements(threads))
      && forall t :: t in threads ==> 0 <= t.basePriority <= LOWEST_PRIORITY + 1
    }

    /** `was` are the placements before the change of `thread`, the ones the queues still reflect. */
    method OnThreadPriorityChanged(thread: KThread, oldPriority: int, current: KThread, ghost was: map<KThread, Placement>)
      requires Queued(was) && thread in was && thread.Place().Valid()
      requires was[thread] == thread.Place().(priority := oldPriority)
      modifies `updateNeeded, queue`scheduled, queue`suggested
      ensures Queued(was[thread := thread.Place()])
      ensures Snap(threads) == old(Snap(threads)) && Placements(threads) == old(Placements(threads))
      // A queued thread goes behind its new equals, but the running one goes in front of them and so keeps running.
      ensures Followed(old(queue.scheduled), old(queue.suggested), queue.scheduled, queue.suggested, thread, thread.Place(), thread == current)
      ensures updateNeeded == (old(updateNeeded) || thread.rawState == RUNNABLE)
    {
      hide ChangedPlace, Snap, Placements;
      if thread.rawState == RUNNABLE {
        queue.ChangePriority(thread, thread.Place().(priority := oldPriority), thread.Place(), thread == current, was);
        updateNeeded := true;
      } else {
        IdleMatches(queue.scheduled, Scheduled, thread, thread.Place(), was);
        IdleMatches(queue.suggested, Suggested, thread, thread.Place(), was);
      }
    }

    method OnThreadStateChanged(thread: KThread, oldState: RawState, ghost was: map<KThread, Placement>)
      requires Queued(was) && thread in was && thread.Place().Valid()
      requires was[thread] == thread.Place().(runnable := oldState == RUNNABLE)
      modifies `updateNeeded, queue`scheduled, queue`suggested
      ensures Queued(was[thread := thread.Place()])
      ensures Snap(threads) == old(Snap(threads)) && Placements(threads) == old(Placements(threads))
      ensures StateFollowed(old(queue.scheduled), old(queue.suggested), queue.scheduled, queue.suggested, thread, thread.Place(), oldState, thread.rawState)
      ensures updateNeeded == (old(updateNeeded) || ((oldState == RUNNABLE) != (thread.rawState == RUNNABLE)))
    {
      hide TakenOut, Arrived, Snap, Placements, Consistent;
      if thread.rawState == oldState {
        assert was[thread := thread.Place()] == was;
        return;
      }
      if oldState == RUNNABLE {
        queue.Drop(thread, thread.Place().(runnable := true), was);
        updateNeeded := true;
      } else if thread.rawState == RUNNABLE {
        queue.Add(thread, thread.Place(), was);
        updateNeeded := true;
      } else {
        assert was[thread := thread.Place()] == was;
      }
    }
  }

  class KThread {
    var basePriority: int
    var priority: int
    var lockOwner: KThread?
    var waiters: seq<KThread>
    var addressKey: int
    var numKernelWaiters: int
    var activeCore: int
    var affinity: set<int>
    var rawState: RawState
    var lastScheduledTick: int
    var suspendRequested: set<SuspendType>
    var suspendAllowed: set<SuspendType>

    ghost function AsNode(): Node<KThread>
      reads `basePriority, `priority, `lockOwner, `waiters, `addressKey, `numKernelWaiters
    {
      Node(basePriority, priority, AsOption(lockOwner), waiters, addressKey, numKernelWaiters)
    }

    function Place(): Placement
      reads `rawState, `activeCore, `priority, `affinity
    {
      Placement(rawState == RUNNABLE, activeCore, priority, affinity)
    }

    function SuspendFlags(): set<SuspendType>
      reads `suspendAllowed, `suspendRequested
    {
      suspendAllowed * suspendRequested
    }

    /** Put `thread` in front of the first less urgent waiter. */
    method AddWaiterImpl(thread: KThread, ghost s: KScheduler)
      requires s.Valid() && this in s.threads && thread in s.threads && thread != this
      requires Tallied(Snap(s.threads), this) && (forall x :: x in waiters ==> x in s.threads)
      modifies `waiters, `numKernelWaiters, thread`lockOwner
      ensures s.Valid() && Snap(s.threads) == Attach(old(Snap(s.threads)), this, thread)
    {
      hide Attach, Placements, Consistent, Without;
      ghost var w, ms := Snap(s.threads), Placements(s.threads);
      var it := 0;
      while it < |waiters| && waiters[it].priority <= thread.priority
        invariant 0 <= it <= |waiters|
        invariant forall i :: 0 <= i < it ==> w[waiters[i]].priority <= w[thread].priority
      {
        it := it + 1;
      }
      InsertionPointIsFirst(w, waiters, thread.priority, it);
      InsertWaiter(it, thread, s.threads);
      assert s.Queued(ms);
    }

    method InsertWaiter(it: nat, thread: KThread, ghost ts: set<KThread>)
      requires this in ts && thread in ts && thread != this && (forall x :: x in waiters ==> x in ts)
      requires Tallied(Snap(ts), this) && it == InsertionPoint(Snap(ts), waiters, thread.priority)
      modifies `waiters, `numKernelWaiters, thread`lockOwner
      ensures Snap(ts) == Attach(old(Snap(ts)), this, thread)
      ensures Placements(ts) == old(Placements(ts))
    {
      hide Without;
      ghost var w := Snap(ts);
      ghost var ms := Placements(ts);
      ghost var after := Attach(w, this, thread);
      if IsKernelAddressKey(thread.addressKey) {
        assert numKernelWaiters >= 0;  // the abort in the source
        numKernelWaiters := numKernelWaiters + 1;
      }
      waiters := waiters[..it] + [thread] + waiters[it..];
      thread.lockOwner := this;
      SnapIs(ts, w, after, this, thread);
      PlacementsAre(ts, ms);
    }

    method RemoveWaiterImpl(thread: KThread, ghost s: KScheduler)
      requires s.Valid() && this in s.threads && thread in s.threads && thread != this && thread in waiters
      requires Tallied(Snap(s.threads), this)
      modifies `waiters, `numKernelWaiters, thread`lockOwner
      ensures s.Valid() && Snap(s.threads) == Detach(old(Snap(s.threads)), this, thread)
    {
      ghost var ms := Placements(s.threads);
      EraseWaiter(thread, s.threads);
      assert s.Queued(ms);
    }

    method EraseWaiter(thread: KThread, ghost ts: set<KThread>)
      requires this in ts && thread in ts && thread != this && thread in waiters
      requires Tallied(Snap(ts), this)
      modifies `waiters, `numKernelWaiters, thread`lockOwner
      ensures Snap(ts) == Detach(old(Snap(ts)), this, thread)
      ensures Placements(ts) == old(Placements(ts))
    {
      hide Without;
      ghost var w, ms := Snap(ts), Placements(ts);
      ghost var after := Detach(w, this, thread);
      if IsKernelAddressKey(thread.addressKey) {
        assert thread in KernelKeyed(w, waiters);
        assert numKernelWaiters > 0;  // the abort in the source
        numKernelWaiters := numKernelWaiters - 1;
      }
      waiters := Without(waiters, thread);
      thread.lockOwner := null;
      SnapIs(ts, w, after, this, thread);
      PlacementsAre(ts, ms);
    }

    /** One round of RestorePriority: bring `thread` to the priority it should have and, if that
        moved it, put it into its new place on its owner's list. */
    static method RestoreRound(thread: KThread, s: KScheduler, current: KThread) returns (next: KThread?)
      requires s.Valid() && thread in s.threads && RoundReady(Snap(s.threads), thread)
      modifies s`updateNeeded, s.queue`scheduled, s.queue`suggested
      modifies s.threads`priority, s.threads`waiters, s.threads`lockOwner, s.threads`numKernelWaiters
      ensures s.Valid()
      ensures (Snap(s.threads), AsOption(next)) == RestoreStep(old(Snap(s.threads)), thread)
      ensures if thread.priority == old(thread.priority) then s.queue.scheduled == old(s.queue.scheduled) && s.queue.suggested == old(s.queue.suggested)
              else Followed(old(s.queue.scheduled), old(s.queue.suggested), s.queue.scheduled, s.queue.suggested, thread, thread.Place(), thread == current)
      // The running thread stays in front of its equals.
      ensures Leads(old(s.queue.scheduled), old(current.Place()), current) ==> Leads(s.queue.scheduled, current.Place(), current)
    {
      hide Followed, Leads, KScheduler.Valid, Placements, Attach, Detach;
      var priority := thread.InheritedPriority(s);
      if priority == thread.priority {
        return null;
      }
      thread.ChangePriority(priority, s, current);
      var owner := thread.lockOwner;
      if owner != null {
        owner.Requeue(thread, s);
      }
      return owner;
    }

    method InheritedPriority(s: KScheduler) returns (newPriority: int)
      requires s.Valid() && this in s.threads && Ordered(Snap(s.threads), waiters)
      ensures newPriority == Inherited(Snap(s.threads), this) && 0 <= newPriority <= LOWEST_PRIORITY + 1
    {
      newPriority := basePriority;
      if waiters != [] {
        assert waiters[0] in waiters && Placements(s.threads)[waiters[0]].Valid();
        newPriority := Min(newPriority, waiters[0].priority);
      }
    }

    method Requeue(thread: KThread, ghost s: KScheduler)
      requires s.Valid() && this in s.threads && thread in s.threads && thread != this && thread in waiters
      requires Tallied(Snap(s.threads), this) && (forall x :: x in waiters ==> x in s.threads)
      requires Tallied(Detach(Snap(s.threads), this, thread), this)
      modifies `waiters, `numKernelWaiters, thread`lockOwner
      ensures s.Valid()
      ensures Snap(s.threads) == Attach(Detach(old(Snap(s.threads)), this, thread), this, thread)
    {
      RemoveWaiterImpl(thread, s);
      AddWaiterImpl(thread, s);
    }

    method SetPriority(newPriority: int, ghost ts: set<KThread>)
      requires this in ts
      modifies `priority
      ensures Snap(ts) == WithPriority(old(Snap(ts)), this, newPriority)
      ensures Place() == old(Place()).(priority := newPriority)
      ensures Placements(ts) == old(Placements(ts))[this := Place()]
    {
      ghost var w, ms := Snap(ts), Placements(ts);
      priority := newPriority;
      SnapIs(ts, w, WithPriority(w, this, newPriority), this, this);
      PlacementsAre(ts, ms[this := Place()]);
    }

    /** Set the priority and let the scheduler know. */
    method ChangePriority(newPriority: int, s: KScheduler, current: KThread)
      requires s.Valid() && this in s.threads && 0 <= newPriority <= LOWEST_PRIORITY + 1
      modifies s`updateNeeded, s.queue`scheduled, s.queue`suggested, `priority
      ensures s.Valid() && Snap(s.threads) == WithPriority(old(Snap(s.threads)), this, newPriority)
      ensures Followed(old(s.queue.scheduled), old(s.queue.suggested), s.queue.scheduled, s.queue.suggested, this, Place(), this == current)
      ensures Leads(old(s.queue.scheduled), old(current.Place()), current) ==> Leads(s.queue.scheduled, current.Place(), current)
    {
      hide Followed, Leads, Snap, WithPriority;
      ghost var l, g := s.queue.scheduled, s.queue.suggested;
      var oldPriority := priority;
      ghost var was := Placements(s.threads);
      assert was[this].Valid();
      SetPriority(newPriority, s.threads);
      s.OnThreadPriorityChanged(this, oldPriority, current, was);
      if this == current || Leads(l, current.Place(), current) {
        StaysInFront(l, g, s.queue.scheduled, s.queue.suggested, this, Place(), this == current, current, current.Place());
      }
    }

    /** Repair the inherited priorities from `start` upwards. Only `start` may be out of date, and the
        early return leaves the whole forest right. */
    static method RestorePriority(start: KThread, s: KScheduler, current: KThread)
      requires s.Valid() && start in s.threads && ForestBut(Snap(s.threads), {start})
      modifies s`updateNeeded, s.queue`scheduled, s.queue`suggested
      modifies s.threads`priority, s.threads`waiters, s.threads`lockOwner, s.threads`numKernelWaiters
      ensures s.Valid() && Forest(Snap(s.threads))
      ensures Restored(old(Snap(s.threads)), Snap(s.threads), start)
      ensures old(Forest(Snap(s.threads))) ==> Snap(s.threads) == old(Snap(s.threads))
      // Over all rounds the running thread stays in front of its equals.
      ensures Leads(old(s.queue.scheduled), old(current.Place()), current) ==> Leads(s.queue.scheduled, current.Place(), current)
    {
      hide Leads;
      ghost var ts := s.threads;
      ghost var w := Snap(ts);
      ghost var r: map<KThread, nat> :| Ranked(w, r);
      var thread := start;
      RestoreAllFacts(w, start, r);
      UpToDateStays(w, start, r);
      while true
        invariant s.Valid() && thread in ts && Restoring(w, start, r, Snap(ts), thread)
        invariant Leads(old(s.queue.scheduled), old(current.Place()), current) ==> Leads(s.queue.scheduled, current.Place(), current)
        decreases r[thread]
      {
        RestoringStep(w, start, r, Snap(ts), thread);
        var next := RestoreRound(thread, s, current);
        if next == null {
          break;
        }
        thread := next;
      }
    }

    /** `thread` starts to wait for a lock this thread holds. */
    method AddWaiter(thread: KThread, s: KScheduler, current: KThread)
      requires s.Valid() && Forest(Snap(s.threads)) && this in s.threads && thread in s.threads
      requires thread.lockOwner == null && !Below(Snap(s.threads), this, thread)
      modifies s`updateNeeded, s.queue`scheduled, s.queue`suggested
      modifies s.threads`priority, s.threads`waiters, s.threads`lockOwner, s.threads`numKernelWaiters
      ensures s.Valid() && Forest(Snap(s.threads))
      ensures this != thread && (forall x :: x in old(waiters) ==> x in s.threads)
      ensures Restored(Attach(old(Snap(s.threads)), this, thread), Snap(s.threads), this)
      ensures Leads(old(s.queue.scheduled), old(current.Place()), current) ==> Leads(s.queue.scheduled, current.Place(), current)
    {
      hide Leads, KScheduler.Valid, Placements, Restored, Attach, Tallied, Below, ForestBut;
      AttachReady(Snap(s.threads), this, thread);
      AddWaiterImpl(thread, s);
      RestorePriority(this, s, current);
    }

    /** `thread` no longer waits for a lock this thread holds. */
    method RemoveWaiter(thread: KThread, s: KScheduler, current: KThread)
      requires s.Valid() && Forest(Snap(s.threads)) && this in s.threads && thread in s.threads
      requires thread.lockOwner == this
      modifies s`updateNeeded, s.queue`scheduled, s.queue`suggested
      modifies s.threads`priority, s.threads`waiters, s.threads`lockOwner, s.threads`numKernelWaiters
      ensures s.Valid() && Forest(Snap(s.threads))
      ensures this != thread && Restored(Detach(old(Snap(s.threads)), this, thread), Snap(s.threads), this)
      ensures Leads(old(s.queue.scheduled), old(current.Place()), current) ==> Leads(s.queue.scheduled, current.Place(), current)
    {
      hide Leads, KScheduler.Valid, Placements, Restored;
      ghost var w := Snap(s.threads);
      assert w[thread].owner == Some(this) && Tallied(w, this);
      DetachKeeps(w, this, thread, {});
      assert {} + {this} == {this};
      RemoveWaiterImpl(thread, s);
      assert Leads(old(s.queue.scheduled), old(current.Place()), current) == Leads(s.queue.scheduled, current.Place(), current);
      RestorePriority(this, s, current);
    }

    /** Give up the lock at `key`: the waiters on it leave this thread, the first of them becomes the
        next owner, and the others wait for that one from now on. */
    method RemoveWaiterByKey(key: int, s: KScheduler, current: KThread) returns (numWaiters: nat, next: KThread?)
      requires s.Valid() && Forest(Snap(s.threads)) && this in s.threads
      modifies s`updateNeeded, s.queue`scheduled, s.queue`suggested
      modifies s.threads`priority, s.threads`waiters, s.threads`lockOwner, s.threads`numKernelWaiters
      ensures s.Valid() && Forest(Snap(s.threads))
      ensures forall x :: x in old(waiters) ==> x in s.threads
      ensures var w0 := old(Snap(s.threads));
              var taken, kept := Keyed(w0, old(waiters), key, true), Keyed(w0, old(waiters), key, false);
              && numWaiters == |taken| && AsOption(next) == First(taken)
              && Handed(w0, Snap(s.threads), this, taken, kept)
      ensures Leads(old(s.queue.scheduled), old(current.Place()), current) ==> Leads(s.queue.scheduled, current.Place(), current)
    {
      hide Leads, KScheduler.Valid, Placements, Handed, Keyed, Run, Runs;
      ghost var w0 := Snap(s.threads);
      WholeRun(w0, this, key);
      numWaiters, next := HandWaitersOver(key, s);
      LoopEnds(w0, this, key, Snap(s.threads), AsOption(next), numWaiters);
      if next != null {
        RestoreBoth(next, key, s, current, w0, numWaiters);
      }
    }

    /** After the loop: first the old owner may be out of date, then the next one. */
    method RestoreBoth(next: KThread, key: int, s: KScheduler, current: KThread, ghost w0: World<KThread>, ghost numWaiters: nat)
      requires s.Valid() && this in s.threads && this in w0 && AllHandedOver(w0, this, key, (Snap(s.threads), Some(next), numWaiters))
      requires next in s.threads && ForestBut(Snap(s.threads), {this})
      modifies s`updateNeeded, s.queue`scheduled, s.queue`suggested
      modifies s.threads`priority, s.threads`waiters, s.threads`lockOwner, s.threads`numKernelWaiters
      ensures s.Valid() && Forest(Snap(s.threads))
      ensures Handed(w0, Snap(s.threads), this, Keyed(w0, w0[this].waiters, key, true), Keyed(w0, w0[this].waiters, key, false))
      ensures Leads(old(s.queue.scheduled), old(current.Place()), current) ==> Leads(s.queue.scheduled, current.Place(), current)
    {
      hide Leads, KScheduler.Valid, Placements, Handed, Keyed, LoopState;
      ghost var w1 := Snap(s.threads);
      RestorePriority(this, s, current);
      HandoverFinishes(w0, w1, Snap(s.threads), this, Keyed(w0, w0[this].waiters, key, true), Keyed(w0, w0[this].waiters, key, false));
      RestorePriority(next, s, current);
    }

    /** The loop of RemoveWaiterByKey. */
    method HandWaitersOver(key: int, ghost s: KScheduler) returns (numWaiters: nat, next: KThread?)
      requires s.Valid() && this in s.threads && Runs(Snap(s.threads), this, key, 0, None)
      modifies s.threads`waiters, s.threads`lockOwner, s.threads`numKernelWaiters
      ensures s.Valid()
      ensures (Snap(s.threads), AsOption(next), numWaiters) == Run(old(Snap(s.threads)), this, key, 0, None, 0)
    {
      numWaiters, next := 0, null;
      var it := 0;
      while it < |waiters|
        invariant s.Valid() && Runs(Snap(s.threads), this, key, it, AsOption(next))
        invariant Run(Snap(s.threads), this, key, it, AsOption(next), numWaiters) == Run(old(Snap(s.threads)), this, key, 0, None, 0)
        decreases |waiters| - it
      {
        var x := waiters[it];
        if x.addressKey == key {
          MoveWaiter(x, next, s);
          next := if next == null then x else next;
          numWaiters := numWaiters + 1;
        } else {
          it := it + 1;
        }
      }
    }

    /** Take `x` off this thread's list and, if there is a next owner already, put it under that one. */
    method MoveWaiter(x: KThread, next: KThread?, ghost s: KScheduler)
      requires s.Valid() && this in s.threads && Ready(Snap(s.threads), this, x, AsOption(next))
      modifies s.threads`waiters, s.threads`lockOwner, s.threads`numKernelWaiters
      ensures s.Valid() && Snap(s.threads) == HandOver(old(Snap(s.threads)), this, x, AsOption(next))
      ensures |waiters| == |old(waiters)| - 1
    {
      RemoveWaiterImpl(x, s);
      if next != null {
        next.AddWaiterImpl(x, s);
      }
    }

    method SetAddressKey(key: int, ghost s: KScheduler)
      requires s.Valid() && this in s.threads
      modifies `addressKey
      ensures s.Valid()
      ensures Snap(s.threads) == old(Snap(s.threads))[this := old(Snap(s.threads))[this].(key := key)]
    {
      ghost var w, ms := Snap(s.threads), Placements(s.threads);
      addressKey := key;
      SnapIs(s.threads, w, w[this := w[this].(key := key)], this, this);
      assert s.Queued(ms);
    }

    /** The one way the raw state changes: with the scheduler told of it. */
    method ChangeRawState(newState: RawState, s: KScheduler)
      requires s.Valid() && this in s.threads
      modifies s`updateNeeded, s.queue`scheduled, s.queue`suggested, `rawState
      ensures s.Valid() && rawState == newState && Snap(s.threads) == old(Snap(s.threads))
      ensures StateFollowed(old(s.queue.scheduled), old(s.queue.suggested), s.queue.scheduled, s.queue.suggested, this, Place(), old(rawState), rawState)
    {
      hide StateFollowed;
      ghost var ts, was := s.threads, Placements(s.threads);
      assert was[this].Valid();
      var oldState := rawState;
      rawState := newState;
      PlacementsAre(ts, was[this := Place()]);
      s.OnThreadStateChanged(this, oldState, was);
    }

    method SetState(state: ThreadState, s: KScheduler)
      requires s.Valid() && this in s.threads
      modifies s`updateNeeded, s.queue`scheduled, s.queue`suggested, `rawState
      ensures s.Valid() && rawState == RawState(state, old(rawState).suspended) && Snap(s.threads) == old(Snap(s.threads))
      ensures StateFollowed(old(s.queue.scheduled), old(s.queue.suggested), s.queue.scheduled, s.queue.suggested, this, Place(), old(rawState), rawState)
    {
      var newState := rawState.(state := state);
      if newState != rawState {
        ChangeRawState(newState, s);
      }
    }

    method RequestSuspend(kind: SuspendType, s: KScheduler)
      requires s.Valid() && this in s.threads && (kind in suspendAllowed || SuspendFlags() != {})
      modifies s`updateNeeded, s.queue`scheduled, s.queue`suggested, `rawState, `suspendRequested
      ensures s.Valid() && Snap(s.threads) == old(Snap(s.threads))
      ensures suspendRequested == old(suspendRequested) + {kind}
      ensures rawState == if numKernelWaiters > 0 then old(rawState) else RawState(old(rawState).state, SuspendFlags())
    {
      suspendRequested := suspendRequested + {kind};
      assert kind in suspendAllowed ==> kind in SuspendFlags();
      assert old(SuspendFlags()) <= SuspendFlags();
      TrySuspend(s);
    }

    /** A thread that kernel code waits for must keep running. */
    method TrySuspend(s: KScheduler)
      requires s.Valid() && this in s.threads && SuspendFlags() != {}
      modifies s`updateNeeded, s.queue`scheduled, s.queue`suggested, `rawState
      ensures s.Valid() && Snap(s.threads) == old(Snap(s.threads))
      ensures rawState == if numKernelWaiters > 0 then old(rawState) else RawState(old(rawState).state, SuspendFlags())
    {
      if numKernelWaiters > 0 {
        return;
      }
      Suspend(s);
    }

    method Suspend(s: KScheduler)
      requires s.Valid() && this in s.threads && SuspendFlags() != {}
      modifies s`updateNeeded, s.queue`scheduled, s.queue`suggested, `rawState
      ensures s.Valid() && Snap(s.threads) == old(Snap(s.threads))
      ensures rawState == RawState(old(rawState).state, SuspendFlags())
    {
      ChangeRawState(RawState(rawState.state, SuspendFlags()), s);
    }

    method Resume(kind: SuspendType, s: KScheduler)
      requires s.Valid() && this in s.threads
      modifies s`updateNeeded, s.queue`scheduled, s.queue`suggested, `rawState, `suspendRequested
      ensures s.Valid() && Snap(s.threads) == old(Snap(s.threads))
      ensures suspendRequested == old(suspendRequested) - {kind}
      ensures rawState == RawState(old(rawState).state, SuspendFlags())
      // Unlike TrySuspend, this does not spare a thread that kernel code waits for: such a thread, running so far,
      // is suspended exactly when another request remains.
      ensures numKernelWaiters > 0 && old(rawState).suspended == {} ==>
                (rawState.suspended != {} <==> exists k :: k in suspendAllowed && k != kind && k in old(suspendRequested))
    {
      suspendRequested := suspendRequested - {kind};
      var newState := RawState(rawState.state, SuspendFlags());
      if newState != rawState {
        ChangeRawState(newState, s);
      }
      SomeFlag(SuspendFlags());
      assert forall k :: k in SuspendFlags() <==> k in suspendAllowed && k != kind && k in old(suspendRequested);
    }

    method Continue(s: KScheduler)
      requires s.Valid() && this in s.threads
      modifies s`updateNeeded, s.queue`scheduled, s.queue`suggested, `rawState
      ensures s.Valid() && Snap(s.threads) == old(Snap(s.threads)) && rawState == RawState(old(rawState).state, {})
    {
      ChangeRawState(RawState(rawState.state, {}), s);
    }

    method ContinueIfHasKernelWaiters(s: KScheduler)
      requires s.Valid() && this in s.threads
      modifies s`updateNeeded, s.queue`scheduled, s.queue`suggested, `rawState
      ensures s.Valid() && Snap(s.threads) == old(Snap(s.threads))
      ensures rawState == if numKernelWaiters > 0 then RawState(old(rawState).state, {}) else old(rawState)
    {
      if numKernelWaiters > 0 {
        Continue(s);
      }
    }
  }

  lemma AttachReady(w: World<KThread>, o: KThread, t: KThread)
    requires Forest(w) && o in w && t in w && w[t].owner.None? && !Below(w, o, t)
    ensures o != t && Tallied(w, o) && (forall x :: x in w[o].waiters ==> x in w) && ForestBut(Attach(w, o, t), {o})
  {
    assert Up(w, o, 0) == Some(o);
    assert Tallied(w, o) && Ordered(w, w[o].waiters);
    AttachKeeps(w, o, t, {});
    assert {} + {o} == {o};
  }

  lemma SomeFlag(flags: set<SuspendType>)
    ensures flags != {} <==> exists k :: k in flags
  {
    if !exists k :: k in flags {
      assert flags <= {};
    }
  }

  lemma PlacementsAre(ts: set<KThread>, ms: map<KThread, Placement>)
    requires ms.Keys == ts && forall t {:trigger ms[t]} :: t in ts ==> t.Place() == ms[t]
    ensures Placements(ts) == ms
  {
  }

  function AsOption(t: KThread?): Option<KThread> {
    if t == null then None else var o: KThread := t; Some(o)
  }
}
