/** What a migration to an idle core does to the queues, on values. */
module Migrations {
  import opened PriorityQueues
  import opened QueueScans

  /** `t` is the only thread its core could run. */
  ghost predicate Alone<M>(l: Lists<M>, ms: map<M, Placement>, t: M) {
    t in ms && ms[t].core >= 0 && Flat(l, ms[t].core) == [t]
  }

  /** An idle core `c` could not be helped: every thread that may run there is alone on its own core. */
  ghost predicate Conserved<M>(l: Lists<M>, g: Lists<M>, ms: map<M, Placement>, c: int) {
    forall t {:trigger t in Flat(g, c)} :: t in Flat(g, c) ==> Alone(l, ms, t)
  }

  lemma InFlat<M>(l: Lists<M>, kind: Kind, ms: map<M, Placement>, c: int, t: M)
    requires Matches(l, kind, ms) && t in ms && ms[t].Valid()
    ensures t in Flat(l, c) <==> ms[t].In(kind, c, ms[t].priority)
  {
    FlatMembers(l, c, 0, t);
    assert t in At(l, c, ms[t].priority) <==> ms[t].In(kind, c, ms[t].priority);
  }

  /** The flat queues after `m` has moved to the idle core `k`. */
  lemma MigrationFlats<M>(l: Lists<M>, l': Lists<M>, ms: map<M, Placement>, m: M, k: int)
    requires Matches(l, Scheduled, ms) && m in ms && ms[m].Valid() && ms[m].runnable && ms[m].priority <= LOWEST_PRIORITY
    requires 0 <= k < NUM_CORES && k != ms[m].core && Flat(l, k) == []
    requires Relocated(l, l', m, ms[m].priority, ms[m].core, k, false)
    ensures Flat(l', k) == [m]
    ensures ms[m].core >= 0 ==> Flat(l', ms[m].core) == Without(Flat(l, ms[m].core), m)
    ensures forall c :: c != k && c != ms[m].core ==> Flat(l', c) == Flat(l, c)
  {
    var p, a := ms[m].priority, ms[m].core;
    FlatOne(l, l', k, 0, p, m);
    if a >= 0 {
      FlatWithout(l, l', a, 0, p, m);
    }
    forall c | c != k && c != a ensures Flat(l', c) == Flat(l, c) {
      FlatSame(l, l', c, 0);
    }
  }

  /** A thread that is alone on its core stays so when another one moves, and the one that moves is alone afterwards. */
  lemma MigrationKeepsAlone<M>(l: Lists<M>, l': Lists<M>, ms: map<M, Placement>, m: M, k: int, t: M)
    requires Matches(l, Scheduled, ms) && m in ms && ms[m].Valid() && ms[m].runnable && ms[m].priority <= LOWEST_PRIORITY
    requires 0 <= k < NUM_CORES && k != ms[m].core && Flat(l, k) == []
    requires Relocated(l, l', m, ms[m].priority, ms[m].core, k, false)
    requires t == m || Alone(l, ms, t)
    ensures Alone(l', ms[m := ms[m].(core := k)], t)
  {
    hide Matches, Relocated, Flat;
    MigrationFlats(l, l', ms, m, k);
    if t != m {
      InFlat(l, Scheduled, ms, ms[m].core, m);
    }
  }

  /** Moving a thread to core `k` leaves it, and all others, suggested for the other cores they were suggested for. */
  lemma MigrationKeepsSuggested<M>(g: Lists<M>, g': Lists<M>, ms: map<M, Placement>, m: M, k: int, c: int, t: M)
    requires m in ms && c != k && Matches(g, Suggested, ms) && Matches(g', Suggested, ms[m := ms[m].(core := k)])
    requires forall x {:trigger ms[x].Valid()} :: x in ms ==> ms[x].Valid()
    requires ms[m].(core := k).Valid() && t in Flat(g, c)
    ensures t in Flat(g', c)
  {
    FlatDistinct(g, Suggested, ms, c, 0);
    assert ms[t].Valid();
    InFlat(g', Suggested, ms[m := ms[m].(core := k)], c, t);
  }

  /** A migration to an idle core leaves the other cores that could not be helped beyond help. */
  lemma MigrationConserves<M>(l: Lists<M>, g: Lists<M>, l': Lists<M>, g': Lists<M>, ms: map<M, Placement>, m: M, k: int, c: int)
    requires Matches(l, Scheduled, ms) && Matches(g, Suggested, ms) && m in ms && ms[m].runnable && ms[m].priority <= LOWEST_PRIORITY
    requires forall t {:trigger ms[t].Valid()} :: t in ms ==> ms[t].Valid()
    requires 0 <= k < NUM_CORES && k != ms[m].core && Flat(l, k) == [] && ms[m].(core := k).Valid()
    requires Relocated(l, l', m, ms[m].priority, ms[m].core, k, false) && Matches(g', Suggested, ms[m := ms[m].(core := k)])
    requires Conserved(l, g, ms, c) && c != k
    ensures Conserved(l', g', ms[m := ms[m].(core := k)], c)
  {
    hide Flat, Matches, Alone, Relocated;
    var ms' := ms[m := ms[m].(core := k)];
    forall t {:trigger t in Flat(g', c)} | t in Flat(g', c) ensures Alone(l', ms', t) {
      if t != m {
        SuggestedBefore(g, g', ms, m, k, c, t);
      }
      assert ms[m].Valid();
      MigrationKeepsAlone(l, l', ms, m, k, t);
    }
  }

  /** What is suggested for a core after another thread has moved was so before. */
  lemma SuggestedBefore<M>(g: Lists<M>, g': Lists<M>, ms: map<M, Placement>, m: M, k: int, c: int, t: M)
    requires m in ms && t != m && Matches(g, Suggested, ms) && Matches(g', Suggested, ms[m := ms[m].(core := k)])
    requires forall x {:trigger ms[x].Valid()} :: x in ms ==> ms[x].Valid()
    requires t in Flat(g', c)
    ensures t in Flat(g, c)
  {
    FlatDistinct(g', Suggested, ms[m := ms[m].(core := k)], c, 0);
    assert ms[t].Valid();
    InFlat(g, Suggested, ms, c, t);
  }
}

/** The choice of the highest-priority thread of every core, and the migrations that go with it. */
module Schedulers {
  import opened Options
  import opened PriorityQueues
  import opened QueueScans
  import opened Migrations
  import opened Threads

  const HIGHEST_CORE_MIGRATION_ALLOWED_PRIORITY: int := 2

  /** `t` is what its own core would run. */
  ghost predicate TopOf<M>(l: Lists<M>, ms: map<M, Placement>, t: M) {
    t in ms && ms[t].core >= 0 && Front(l, ms[t].core) == Some(t)
  }

  /** The first thread suggested for core `c` that is not the top thread of its own core is number `k`, and an
      urgent one is in its way. */
  ghost predicate Obstructed<M>(l: Lists<M>, g: Lists<M>, ms: map<M, Placement>, c: int, k: nat) {
    var f := Flat(g, c);
    && k < |f| && (forall j {:trigger f[j]} :: 0 <= j < k ==> TopOf(l, ms, f[j]))
    && f[k] in ms && ms[f[k]].core >= 0 && !TopOf(l, ms, f[k])
    && Front(l, ms[f[k]].core).Some? && Urgent(ms, Front(l, ms[f[k]].core).value)
  }

  /** Nothing can be migrated to core `c`. */
  ghost predicate Helpless<M>(l: Lists<M>, g: Lists<M>, ms: map<M, Placement>, c: int) {
    Conserved(l, g, ms, c) || exists k: nat :: Obstructed(l, g, ms, c, k)
  }

  /** A thread that is alone on its core is the top thread there. */
  lemma AloneOnTop<M>(l: Lists<M>, ms: map<M, Placement>, t: M)
    requires Alone(l, ms, t)
    ensures TopOf(l, ms, t)
  {
  }

  /** A thread that is not its core's top thread, and is not behind an urgent one, can be migrated. */
  lemma FirstMovable<M>(l: Lists<M>, g: Lists<M>, ms: map<M, Placement>, c: int, k: nat)
    requires k < |Flat(g, c)| && forall j {:trigger Flat(g, c)[j]} :: 0 <= j < k ==> TopOf(l, ms, Flat(g, c)[j])
    requires var t := Flat(g, c)[k];
             && t in ms && !TopOf(l, ms, t)
             && (ms[t].core >= 0 && Front(l, ms[t].core).Some? ==> !Urgent(ms, Front(l, ms[t].core).value))
    ensures !Helpless(l, g, ms, c)
  {
    hide Flat, Front, Alone, TopOf;
    var f := Flat(g, c);
    if Conserved(l, g, ms, c) {
      assert f[k] in Flat(g, c);
      AloneOnTop(l, ms, f[k]);
    }
    forall i: nat ensures !Obstructed(l, g, ms, c, i) {
      if i < k {
        assert TopOf(l, ms, f[i]);
      } else if i > k {
        var t := f[k];
      }
    }
  }

  /** When all suggestions are top threads, nothing can be migrated exactly when all are alone. */
  lemma AllOnTop<M>(l: Lists<M>, g: Lists<M>, ms: map<M, Placement>, c: int)
    requires forall j {:trigger Flat(g, c)[j]} :: 0 <= j < |Flat(g, c)| ==> TopOf(l, ms, Flat(g, c)[j])
    ensures Helpless(l, g, ms, c) <==> Conserved(l, g, ms, c)
  {
    hide Flat, TopOf, Conserved;
    forall i: nat ensures !Obstructed(l, g, ms, c, i) {
      if i < |Flat(g, c)| {
        assert TopOf(l, ms, Flat(g, c)[i]);
      }
    }
  }

  /** Number `k` of the threads suggested for core `c` is the one to be migrated there: the first that is not the top thread
      of its own core, if no urgent one is in its way; or, when all are top threads, the first that is not alone. */
  ghost predicate Helper<M>(l: Lists<M>, g: Lists<M>, ms: map<M, Placement>, c: int, k: nat) {
    OffTopHelper(l, g, ms, c, k) || TopHelper(l, g, ms, c, k)
  }

  ghost predicate OffTopHelper<M>(l: Lists<M>, g: Lists<M>, ms: map<M, Placement>, c: int, k: nat) {
    var f := Flat(g, c);
    && k < |f| && (forall j {:trigger f[j]} :: 0 <= j < k ==> TopOf(l, ms, f[j]))
    && f[k] in ms && !TopOf(l, ms, f[k])
    && (ms[f[k]].core >= 0 && Front(l, ms[f[k]].core).Some? ==> !Urgent(ms, Front(l, ms[f[k]].core).value))
  }

  ghost predicate TopHelper<M>(l: Lists<M>, g: Lists<M>, ms: map<M, Placement>, c: int, k: nat) {
    var f := Flat(g, c);
    && k < |f| && (forall j {:trigger f[j]} :: 0 <= j < |f| ==> TopOf(l, ms, f[j]))
    && (forall j {:trigger f[j]} :: 0 <= j < k ==> Alone(l, ms, f[j]))
    && !Alone(l, ms, f[k])
  }

  lemma HelperSuggested<M>(l: Lists<M>, g: Lists<M>, ms: map<M, Placement>, c: int, k: nat)
    requires Helper(l, g, ms, c, k)
    ensures k < |Flat(g, c)|
  {
  }

  lemma HelperUnique<M>(l: Lists<M>, g: Lists<M>, ms: map<M, Placement>, c: int, j: nat, k: nat)
    requires Helper(l, g, ms, c, j) && Helper(l, g, ms, c, k)
    ensures j == k
  {
    hide Flat, Front, TopOf, Alone;
    var a, b := Flat(g, c)[j], Flat(g, c)[k];
  }

  /** There is such a thread exactly when the core is not beyond help. */
  lemma HelpedIff<M>(l: Lists<M>, g: Lists<M>, ms: map<M, Placement>, c: int)
    requires Consistent(l, g, ms)
    ensures (exists k: nat :: Helper(l, g, ms, c, k)) <==> !Helpless(l, g, ms, c)
  {
    hide Flat, Front, Consistent;
    var f := Flat(g, c);
    forall k: nat | Helper(l, g, ms, c, k) ensures !Helpless(l, g, ms, c) {
      if OffTopHelper(l, g, ms, c, k) {
        FirstMovable(l, g, ms, c, k);
      } else {
        AllOnTop(l, g, ms, c);
        assert f[k] in Flat(g, c);
      }
    }
    if !Helpless(l, g, ms, c) {
      SuggestedKnown(l, g, ms, c);
      var k := FirstOffTopOf(l, ms, f);
      if k < |f| {
        assert !Obstructed(l, g, ms, c, k);
        assert OffTopHelper(l, g, ms, c, k);
        assert Helper(l, g, ms, c, k);
      } else {
        var i := FirstNotAlone(l, g, ms, c);
        assert TopHelper(l, g, ms, c, i);
        assert Helper(l, g, ms, c, i);
      }
    }
  }

  lemma SuggestedKnown<M>(l: Lists<M>, g: Lists<M>, ms: map<M, Placement>, c: int)
    requires Consistent(l, g, ms)
    ensures forall t :: t in Flat(g, c) ==> t in ms
  {
    FlatDistinct(g, Suggested, ms, c, 0);
  }

  lemma FirstOffTopOf<M>(l: Lists<M>, ms: map<M, Placement>, f: seq<M>) returns (k: nat)
    ensures k <= |f| && (forall j {:trigger f[j]} :: 0 <= j < k ==> TopOf(l, ms, f[j])) && (k < |f| ==> !TopOf(l, ms, f[k]))
  {
    hide TopOf;
    k := 0;
    while k < |f| && TopOf(l, ms, f[k])
      invariant k <= |f| && forall j {:trigger f[j]} :: 0 <= j < k ==> TopOf(l, ms, f[j])
    {
      k := k + 1;
    }
  }

  lemma FirstNotAlone<M>(l: Lists<M>, g: Lists<M>, ms: map<M, Placement>, c: int) returns (k: nat)
    requires !Conserved(l, g, ms, c)
    ensures var f := Flat(g, c);
            k < |f| && (forall j {:trigger f[j]} :: 0 <= j < k ==> Alone(l, ms, f[j])) && !Alone(l, ms, f[k])
  {
    hide Alone, Flat;
    var f := Flat(g, c);
    k := 0;
    while k < |f| && Alone(l, ms, f[k])
      invariant k <= |f| && forall j {:trigger f[j]} :: 0 <= j < k ==> Alone(l, ms, f[j])
    {
      k := k + 1;
    }
  }

  /** The queues and where every thread belongs. */
  datatype Queues<M> = Queues(scheduled: Lists<M>, suggested: Lists<M>, placed: map<M, Placement>)

  /** From `q` to `q'` exactly `t` has moved to core `c`. */
  ghost predicate Moves<M>(q: Queues<M>, q': Queues<M>, t: M, c: int) {
    && t in q.placed && q'.placed == q.placed[t := q.placed[t].(core := c)]
    && Relocated(q.scheduled, q'.scheduled, t, q.placed[t].priority, q.placed[t].core, c, false)
    && Relocated(q.suggested, q'.suggested, t, q.placed[t].priority, c, q.placed[t].core, false)
  }

  /** What one round does for the idle core `c`: nothing if it is beyond help, and otherwise one migration. */
  ghost predicate RoundFor<M>(q: Queues<M>, q': Queues<M>, c: int) {
    if Helpless(q.scheduled, q.suggested, q.placed, c) then q' == q
    else exists k: nat :: Migrates(q, q', c, k)
  }

  ghost predicate Migrates<M>(q: Queues<M>, q': Queues<M>, c: int, k: nat) {
    Helper(q.scheduled, q.suggested, q.placed, c, k) && Moves(q, q', Flat(q.suggested, c)[k], c)
  }

  /** The rounds for the cores `helped`, one after the other, in `run`. */
  ghost predicate Rounds<M>(run: seq<Queues<M>>, helped: seq<int>) {
    && |run| == |helped| + 1
    && forall i {:trigger helped[i]} :: 0 <= i < |helped| ==> RoundFor(run[i], run[i + 1], helped[i])
  }

  lemma RoundsMore<M>(run: seq<Queues<M>>, helped: seq<int>, q: Queues<M>, c: int)
    requires Rounds(run, helped) && RoundFor(run[|helped|], q, c)
    ensures Rounds(run + [q], helped + [c])
  {
    hide RoundFor;
  }

  ghost predicate Ascending(s: seq<int>) {
    forall i, j :: 0 <= i < j < |s| ==> s[i] < s[j]
  }

  /** The cores `helped` come in ascending order before the `rest` of the cores `idle`. */
  ghost predicate InOrder(helped: seq<int>, idle: set<int>, rest: set<int>) {
    && Ascending(helped)
    && (forall c {:trigger c in idle} :: c in idle <==> c in helped || c in rest)
    && forall c, d {:trigger c in helped, d in rest} :: c in helped && d in rest ==> c < d
  }

  lemma NoRounds<M>(q: Queues<M>, idle: set<int>)
    ensures Rounds([q], []) && InOrder([], idle, idle)
  {
  }

  lemma LowestNext(helped: seq<int>, idle: set<int>, rest: set<int>, c: int)
    requires InOrder(helped, idle, rest) && c in rest && forall d :: d in rest ==> c <= d
    ensures InOrder(helped + [c], idle, rest - {c})
  {
    var more := helped + [c];
    forall i, j | 0 <= i < j < |more| ensures more[i] < more[j] {
      assert i < |helped| && more[i] in helped;
    }
  }

  /** Queues that differ at most in how empty FIFOs are stored. */
  ghost predicate SameQueues<M>(q: Queues<M>, r: Queues<M>) {
    && q.placed == r.placed
    && (forall c, p {:trigger At(q.scheduled, c, p)} :: At(q.scheduled, c, p) == At(r.scheduled, c, p))
    && (forall c, p {:trigger At(q.suggested, c, p)} :: At(q.suggested, c, p) == At(r.suggested, c, p))
  }

  lemma SameFlats<M>(l: Lists<M>, l': Lists<M>)
    requires forall c, p {:trigger At(l, c, p)} :: At(l, c, p) == At(l', c, p)
    ensures forall c :: Flat(l', c) == Flat(l, c) && Front(l', c) == Front(l, c)
  {
    forall c ensures Flat(l', c) == Flat(l, c) && Front(l', c) == Front(l, c) {
      FlatSame(l, l', c, 0);
    }
  }

  lemma SameHelp<M>(q: Queues<M>, r: Queues<M>, c: int)
    requires SameQueues(q, r)
    ensures Helpless(q.scheduled, q.suggested, q.placed, c) <==> Helpless(r.scheduled, r.suggested, r.placed, c)
    ensures forall k: nat :: Helper(q.scheduled, q.suggested, q.placed, c, k) <==> Helper(r.scheduled, r.suggested, r.placed, c, k)
    ensures Flat(q.suggested, c) == Flat(r.suggested, c)
  {
    hide Flat, Front, At;
    SameFlats(q.scheduled, r.scheduled);
    SameFlats(q.suggested, r.suggested);
    assert forall t :: Alone(q.scheduled, q.placed, t) <==> Alone(r.scheduled, r.placed, t);
    assert forall t :: TopOf(q.scheduled, q.placed, t) <==> TopOf(r.scheduled, r.placed, t);
    assert forall k: nat :: Obstructed(q.scheduled, q.suggested, q.placed, c, k) <==> Obstructed(r.scheduled, r.suggested, r.placed, c, k);
  }

  lemma RoundDetermined<M>(q: Queues<M>, q': Queues<M>, r: Queues<M>, r': Queues<M>, c: int)
    requires SameQueues(q, r) && RoundFor(q, q', c) && RoundFor(r, r', c)
    ensures SameQueues(q', r')
  {
    hide Helpless, Migrates, SameQueues;
    SameHelp(q, r, c);
    if !Helpless(q.scheduled, q.suggested, q.placed, c) {
      var j: nat :| Migrates(q, q', c, j);
      var k: nat :| Migrates(r, r', c, k);
      MigrationDetermined(q, q', r, r', c, j, k);
    }
  }

  lemma MigrationDetermined<M>(q: Queues<M>, q': Queues<M>, r: Queues<M>, r': Queues<M>, c: int, j: nat, k: nat)
    requires SameQueues(q, r) && Migrates(q, q', c, j) && Migrates(r, r', c, k)
    ensures SameQueues(q', r')
  {
    hide OffTopHelper, TopHelper, Flat, Moves, SameQueues;
    SameHelp(q, r, c);
    HelperUnique(q.scheduled, q.suggested, q.placed, c, j, k);
    HelperSuggested(q.scheduled, q.suggested, q.placed, c, k);
    MovesDetermined(q, q', r, r', Flat(q.suggested, c)[k], c);
  }

  lemma MovesDetermined<M>(q: Queues<M>, q': Queues<M>, r: Queues<M>, r': Queues<M>, t: M, c: int)
    requires SameQueues(q, r) && Moves(q, q', t, c) && Moves(r, r', t, c)
    ensures SameQueues(q', r')
  {
    hide Without, Joined;
  }

  /** Where the rounds end is determined by the queues before and the cores that are helped. */
  lemma {:induction false} RunDetermined<M>(run: seq<Queues<M>>, run': seq<Queues<M>>, helped: seq<int>)
    requires Rounds(run, helped) && Rounds(run', helped) && SameQueues(run[0], run'[0])
    ensures SameQueues(run[|helped|], run'[|helped|])
  {
    hide RoundFor, SameQueues;
    if helped != [] {
      var n := |helped| - 1;
      var earlier := helped[..n];
      assert forall i {:trigger earlier[i]} :: 0 <= i < n ==> earlier[i] == helped[i];
      RunDetermined(run[..n + 1], run'[..n + 1], earlier);
      RoundDetermined(run[n], run[n + 1], run'[n], run'[n + 1], helped[n]);
    }
  }

  /** Why an idle core was given up: `behind` is suggested for it, but its own core runs `urgent`. */
  datatype Stop<M> = Stop(urgent: M, behind: M)

  /** Between two migrations: `top` is the front of every core's queue, the cores in `idle` are still
      to be helped, those in `blocked` were given up because of the urgent thread named there,
      and every other core without a thread is beyond help. */
  ghost predicate Progress<M>(l: Lists<M>, g: Lists<M>, ms: map<M, Placement>, top: seq<Option<M>>, idle: set<int>, blocked: map<int, Stop<M>>) {
    && |top| == NUM_CORES
    && (forall c :: 0 <= c < NUM_CORES ==> top[c] == Front(l, c))
    && (forall c :: c in idle ==> 0 <= c < NUM_CORES && top[c] == None)
    && (forall c {:trigger Conserved(l, g, ms, c)} :: 0 <= c < NUM_CORES && top[c] == None && c !in idle && c !in blocked ==> Conserved(l, g, ms, c))
    && (forall c :: c in blocked ==> Urgent(ms, blocked[c].urgent) && Some(blocked[c].urgent) in top)
  }

  ghost predicate Urgent<M>(ms: map<M, Placement>, u: M) {
    u in ms && ms[u].priority < HIGHEST_CORE_MIGRATION_ALLOWED_PRIORITY
  }

  /** Since the placements were `ms0`, only threads that are now alone on their core have moved; and the threads
      that stopped the help for a core have not, and one of them is still suggested for that core. */
  ghost predicate Accounted<M>(l: Lists<M>, g: Lists<M>, ms: map<M, Placement>, ms0: map<M, Placement>, idle: set<int>, blocked: map<int, Stop<M>>) {
    && ms0.Keys == ms.Keys
    && (forall m {:trigger Alone(l, ms, m)} :: m in ms && ms[m].core != ms0[m].core ==> Alone(l, ms, m))
    && (forall c :: c in blocked ==> c !in idle && Behind(g, ms0, c, blocked[c]))
  }

  ghost predicate Behind<M>(g: Lists<M>, ms0: map<M, Placement>, c: int, stop: Stop<M>) {
    && stop.behind in Flat(g, c) && stop.behind != stop.urgent
    && stop.behind in ms0 && stop.urgent in ms0 && ms0[stop.behind].core == ms0[stop.urgent].core >= 0
  }

  lemma MigrationAccounted<M>(l: Lists<M>, g: Lists<M>, l': Lists<M>, g': Lists<M>, ms: map<M, Placement>,
                              ms0: map<M, Placement>, idle: set<int>, blocked: map<int, Stop<M>>, m: M, k: int)
    requires Accounted(l, g, ms, ms0, idle, blocked) && k in idle && 0 <= k < NUM_CORES && Flat(l, k) == []
    requires Consistent(l, g, ms) && m in ms && m in Flat(g, k)
    requires Relocated(l, l', m, ms[m].priority, ms[m].core, k, false) && Consistent(l', g', ms[m := ms[m].(core := k)])
    ensures Accounted(l', g', ms[m := ms[m].(core := k)], ms0, idle - {k}, blocked)
  {
    hide Matches, Relocated, Flat, Alone;
    SuggestedThread(l, g, ms, m, k);
    var ms' := ms[m := ms[m].(core := k)];
    forall t {:trigger Alone(l', ms', t)} | t in ms' && ms'[t].core != ms0[t].core ensures Alone(l', ms', t) {
      assert t == m || Alone(l, ms, t);
      MigrationKeepsAlone(l, l', ms, m, k, t);
    }
    forall c | c in blocked ensures Behind(g', ms0, c, blocked[c]) {
      assert c != k;
      MigrationKeepsSuggested(g, g', ms, m, k, c, blocked[c].behind);
    }
  }

  /** A migration to an idle core leaves everything as it should be between migrations. */
  lemma MigrationBalances<M>(l: Lists<M>, g: Lists<M>, l': Lists<M>, g': Lists<M>, ms: map<M, Placement>, ms0: map<M, Placement>,
                             top: seq<Option<M>>, idle: set<int>, blocked: map<int, Stop<M>>, m: M, k: int)
    requires Progress(l, g, ms, top, idle, blocked) && Accounted(l, g, ms, ms0, idle, blocked) && k in idle
    requires Consistent(l, g, ms) && m in ms && m in Flat(g, k) && -1 <= ms[m].core < NUM_CORES
    requires ms[m].core >= 0 && |top| == NUM_CORES && top[ms[m].core] == Some(m) ==> |Flat(l, ms[m].core)| > 1
    requires Relocated(l, l', m, ms[m].priority, ms[m].core, k, false) && Consistent(l', g', ms[m := ms[m].(core := k)])
    ensures |top| == NUM_CORES && 0 <= k < NUM_CORES
    ensures Progress(l', g', ms[m := ms[m].(core := k)], TopAfter(l, top, ms[m].core, m, k), idle - {k}, blocked)
    ensures Accounted(l', g', ms[m := ms[m].(core := k)], ms0, idle - {k}, blocked)
  {
    hide Conserved, Consistent, Relocated, Flat, Accounted;
    MigrationProgress(l, g, l', g', ms, top, idle, blocked, m, k);
    MigrationAccounted(l, g, l', g', ms, ms0, idle, blocked, m, k);
  }

  /** The thread that stops the help for a core, and the one in its way, share a core, so they have not moved. */
  lemma StopAccounted<M>(l: Lists<M>, g: Lists<M>, ms: map<M, Placement>, ms0: map<M, Placement>, idle: set<int>,
                         blocked: map<int, Stop<M>>, k: int, stop: Stop<M>)
    requires Accounted(l, g, ms, ms0, idle, blocked) && Consistent(l, g, ms) && 0 <= k < NUM_CORES
    requires stop.behind in Flat(g, k) && stop.urgent != stop.behind && stop.behind in ms && ms[stop.behind].core >= 0
    requires Front(l, ms[stop.behind].core) == Some(stop.urgent)
    ensures Accounted(l, g, ms, ms0, idle - {k}, blocked[k := stop])
  {
    hide Matches, Flat;
    SuggestedThread(l, g, ms, stop.behind, k);
    FlatDistinct(l, Scheduled, ms, ms[stop.behind].core, 0);
    InFlat(l, Scheduled, ms, ms[stop.behind].core, stop.behind);
    assert !Alone(l, ms, stop.behind) && !Alone(l, ms, stop.urgent);
  }

  lemma IdleAccounted<M>(l: Lists<M>, g: Lists<M>, ms: map<M, Placement>, ms0: map<M, Placement>, idle: set<int>, blocked: map<int, Stop<M>>, k: int)
    requires Accounted(l, g, ms, ms0, idle, blocked)
    ensures Accounted(l, g, ms, ms0, idle - {k}, blocked)
  {
  }

  lemma NothingMoved<M>(l: Lists<M>, g: Lists<M>, ms: map<M, Placement>, idle: set<int>)
    ensures Accounted(l, g, ms, ms, idle, map[])
  {
  }

  /** The choices after `m`, so far on core `a`, has moved to the idle core `k`. */
  ghost function TopAfter<M>(l: Lists<M>, top: seq<Option<M>>, a: int, m: M, k: int): seq<Option<M>>
    requires |top| == NUM_CORES && -1 <= a < NUM_CORES && 0 <= k < NUM_CORES
    requires a >= 0 && top[a] == Some(m) ==> |Flat(l, a)| > 1
  {
    if a >= 0 && top[a] == Some(m) then top[a := Some(Flat(l, a)[1])][k := Some(m)] else top[k := Some(m)]
  }

  lemma MigrationTops<M>(l: Lists<M>, l': Lists<M>, ms: map<M, Placement>, top: seq<Option<M>>, m: M, k: int)
    requires |top| == NUM_CORES && forall c :: 0 <= c < NUM_CORES ==> top[c] == Front(l, c)
    requires Matches(l, Scheduled, ms) && m in ms && ms[m].Valid() && ms[m].runnable && ms[m].priority <= LOWEST_PRIORITY
    requires 0 <= k < NUM_CORES && k != ms[m].core && top[k] == None
    requires ms[m].core >= 0 && top[ms[m].core] == Some(m) ==> |Flat(l, ms[m].core)| > 1
    requires Relocated(l, l', m, ms[m].priority, ms[m].core, k, false)
    ensures forall c :: 0 <= c < NUM_CORES ==> TopAfter(l, top, ms[m].core, m, k)[c] == Front(l', c)
  {
    hide Matches, Relocated, Flat, Front;
    MigrationFlats(l, l', ms, m, k);
    forall c | 0 <= c < NUM_CORES ensures TopAfter(l, top, ms[m].core, m, k)[c] == Front(l', c) {
      if c == ms[m].core {
        InFlat(l, Scheduled, ms, c, m);
        assert ms[m].In(Scheduled, c, ms[m].priority);
      }
    }
  }

  lemma SuggestedThread<M>(l: Lists<M>, g: Lists<M>, ms: map<M, Placement>, m: M, k: int)
    requires Consistent(l, g, ms) && m in Flat(g, k) && 0 <= k < NUM_CORES
    ensures m in ms && ms[m].runnable && ms[m].priority <= LOWEST_PRIORITY && -1 <= ms[m].core < NUM_CORES && ms[m].core != k
    ensures ms[m].Valid() && ms[m].(core := k).Valid()
  {
    FlatDistinct(g, Suggested, ms, k, 0);
    assert ms[m].Valid();
  }

  lemma MigrationProgress<M>(l: Lists<M>, g: Lists<M>, l': Lists<M>, g': Lists<M>, ms: map<M, Placement>,
                             top: seq<Option<M>>, idle: set<int>, blocked: map<int, Stop<M>>, m: M, k: int)
    requires Progress(l, g, ms, top, idle, blocked) && k in idle
    requires Consistent(l, g, ms) && m in ms && m in Flat(g, k) && -1 <= ms[m].core < NUM_CORES
    requires ms[m].core >= 0 && top[ms[m].core] == Some(m) ==> |Flat(l, ms[m].core)| > 1
    requires Relocated(l, l', m, ms[m].priority, ms[m].core, k, false) && Consistent(l', g', ms[m := ms[m].(core := k)])
    ensures Progress(l', g', ms[m := ms[m].(core := k)], TopAfter(l, top, ms[m].core, m, k), idle - {k}, blocked)
  {
    hide Conserved, Matches, Relocated, Flat, Front, Without;
    SuggestedThread(l, g, ms, m, k);
    var a, ms', top' := ms[m].core, ms[m := ms[m].(core := k)], TopAfter(l, top, ms[m].core, m, k);
    assert ms[m].Valid();
    MigrationTops(l, l', ms, top, m, k);
    forall c | 0 <= c < NUM_CORES && top'[c] == None && c !in idle - {k} && c !in blocked
      ensures Conserved(l', g', ms', c)
    {
      assert top[c] == None && c != k;
      MigrationConserves(l, g, l', g', ms, m, k, c);
    }
    forall c | c in blocked ensures Some(blocked[c].urgent) in top' {
      var d :| 0 <= d < NUM_CORES && top[d] == Some(blocked[c].urgent);
      assert top'[d] == top[d] || top'[k] == top[d];
    }
  }

  lemma FlatQueued<M>(l: Lists<M>, kind: Kind, ms: map<M, Placement>, c: int)
    requires Matches(l, kind, ms)
    ensures Distinct(Flat(l, c))
    ensures forall x :: x in Flat(l, c) ==> x in ms && ms[x].In(kind, c, ms[x].priority)
  {
    FlatDistinct(l, kind, ms, c, 0);
  }

  lemma NextInFlatOf<M>(l: Lists<M>, kind: Kind, ms: map<M, Placement>, c: int, i: nat)
    requires Matches(l, kind, ms) && i < |Flat(l, c)| && Flat(l, c)[i] in ms && ms[Flat(l, c)[i]].Valid()
    ensures var f := Flat(l, c);
            Next(l, c, ms[f[i]].priority, f[i]) == if i + 1 < |f| then Some(f[i + 1]) else None
  {
    FlatDistinct(l, kind, ms, c, 0);
    NextInFlat(l, c, ms[Flat(l, c)[i]].priority, 0, i);
  }

  lemma FrontQueued<M>(l: Lists<M>, kind: Kind, ms: map<M, Placement>, c: int)
    requires Matches(l, kind, ms)
    ensures Front(l, c).Some? ==> var m := Front(l, c).value; m in ms && ms[m].In(kind, c, ms[m].priority)
  {
    FlatDistinct(l, kind, ms, c, 0);
  }

  lemma IdleCore<M>(l: Lists<M>, g: Lists<M>, ms: map<M, Placement>, top: seq<Option<M>>, idle: set<int>, blocked: map<int, Stop<M>>, k: int)
    requires Progress(l, g, ms, top, idle, blocked) && k in idle && Conserved(l, g, ms, k)
    ensures Progress(l, g, ms, top, idle - {k}, blocked)
  {
  }

  /** The source's count of trailing zeros: the lowest core in the mask. */
  method LowestCore(mask: set<int>) returns (core: int)
    requires mask != {} && forall c :: c in mask ==> 0 <= c < NUM_CORES
    ensures core in mask && forall c :: c in mask ==> core <= c
  {
    core := 0;
    while core !in mask
      invariant 0 <= core <= NUM_CORES && forall c :: c in mask ==> core <= c
      decreases NUM_CORES - core
    {
      ghost var c :| c in mask;
      core := core + 1;
    }
  }

  /** Tell one core's scheduler which thread it should run. */
  method UpdateHighestPriorityThread(s: KScheduler, core: int, highestThread: Option<KThread>) returns (changed: set<int>)
    requires |s.highest| == NUM_CORES && 0 <= core < NUM_CORES
    requires s.highest[core].Some? ==> s.highest[core].value in s.threads
    modifies s`highest, s`needsScheduling, s.threads`lastScheduledTick
    ensures s.highest == old(s.highest)[core := highestThread]
    ensures changed == if old(s.highest[core]) != highestThread then {core} else {}
    ensures s.needsScheduling == old(s.needsScheduling) + changed
    // Only the thread that is replaced is stamped with the time.
    ensures forall t {:trigger t.lastScheduledTick} :: t in s.threads && t.lastScheduledTick != old(t.lastScheduledTick) ==>
              old(s.highest[core]) == Some(t) && highestThread != Some(t)
  {
    var previous := s.highest[core];
    if previous == highestThread {
      return {};
    }
    if previous.Some? {
      var tick: int := *;
      previous.value.lastScheduledTick := tick;
    }
    s.highest := s.highest[core := highestThread];
    s.needsScheduling := s.needsScheduling + {core};
    changed := {core};
  }

  /** Make `core` the active core of a queued thread. */
  method Migrate(s: KScheduler, thread: KThread, core: int, toFront: bool)
    requires s.queue.Holds(Placements(s.threads)) && thread in s.threads
    requires thread.rawState == RUNNABLE && thread.Place().(core := core).Valid()
    modifies thread`activeCore, s.queue`scheduled, s.queue`suggested
    ensures s.queue.Holds(Placements(s.threads))
    ensures Placements(s.threads) == old(Placements(s.threads))[thread := old(thread.Place()).(core := core)]
    ensures old(thread.activeCore) == core ==> s.queue.scheduled == old(s.queue.scheduled) && s.queue.suggested == old(s.queue.suggested)
    ensures old(thread.activeCore) != core ==>
              Relocated(old(s.queue.scheduled), s.queue.scheduled, thread, thread.priority, old(thread.activeCore), core, toFront)
    ensures old(thread.activeCore) != core ==>
              Relocated(old(s.queue.suggested), s.queue.suggested, thread, thread.priority, core, old(thread.activeCore), false)
  {
    ghost var ms := Placements(s.threads);
    var was := thread.Place();
    thread.activeCore := core;
    PlacementsAre(s.threads, ms[thread := was.(core := core)]);
    s.queue.ChangeCore(thread, was, core, toFront, ms);
  }

  /** The scan has passed these candidates: each is the core whose top thread was suggested. */
  ghost predicate Passed(f: seq<KThread>, top: seq<Option<KThread>>, candidates: seq<int>)
    reads f
  {
    && |candidates| <= |f| && |top| == NUM_CORES
    && forall j {:trigger candidates[j]} :: 0 <= j < |candidates| ==>
         candidates[j] == f[j].activeCore && 0 <= candidates[j] < NUM_CORES && top[candidates[j]] == Some(f[j])
  }

  lemma PassedNone(f: seq<KThread>, top: seq<Option<KThread>>)
    requires |top| == NUM_CORES
    ensures Passed(f, top, [])
  {
  }

  lemma PassedMore(f: seq<KThread>, top: seq<Option<KThread>>, candidates: seq<int>)
    requires Passed(f, top, candidates) && |candidates| < |f| && |top| == NUM_CORES
    requires 0 <= f[|candidates|].activeCore < NUM_CORES && top[f[|candidates|].activeCore] == Some(f[|candidates|])
    ensures Passed(f, top, candidates + [f[|candidates|].activeCore])
  {
  }

  /** The scan stops at the first thread that is not the top thread of its own core, because that one is urgent. */
  ghost predicate StoppedBy(f: seq<KThread>, top: seq<Option<KThread>>, stop: Stop<KThread>)
    reads f, stop.urgent
  {
    exists candidates :: StoppedAfter(f, top, candidates, stop)
  }

  ghost predicate StoppedAfter(f: seq<KThread>, top: seq<Option<KThread>>, candidates: seq<int>, stop: Stop<KThread>)
    reads f, stop.urgent
  {
    && Passed(f, top, candidates) && |candidates| < |f| && stop.behind == f[|candidates|]
    && 0 <= stop.behind.activeCore < NUM_CORES && top[stop.behind.activeCore] == Some(stop.urgent)
    && stop.urgent != stop.behind && stop.urgent.priority < HIGHEST_CORE_MIGRATION_ALLOWED_PRIORITY
  }

  /** The candidates are different cores, none of them the idle one, so there are fewer of them than cores. */
  lemma FewCandidates(f: seq<KThread>, top: seq<Option<KThread>>, candidates: seq<int>, core: int)
    requires Passed(f, top, candidates) && Distinct(f) && 0 <= core < NUM_CORES && top[core] == None
    ensures |candidates| < NUM_CORES
  {
    forall i, j | 0 <= i < j < |candidates| ensures candidates[i] != candidates[j] {
      assert f[i] != f[j];
    }
    var cores := candidates + [core];
    if |cores| >= NUM_CORES {
      var a, b, c, d := cores[0], cores[1], cores[2], cores[3];
    }
  }

  /** Go through the threads suggested for `core` until one is not the top thread of its own core. */
  method FindSuggestion(s: KScheduler, top: seq<Option<KThread>>, core: int)
    returns (suggested: Option<KThread>, urgent: Option<KThread>, candidates: seq<int>)
    requires s.queue.Holds(Placements(s.threads)) && |top| == NUM_CORES && 0 <= core < NUM_CORES && top[core] == None
    requires forall c :: 0 <= c < NUM_CORES && top[c].Some? ==> top[c].value in s.threads
    ensures var f := Flat(s.queue.suggested, core);
            && Passed(f, top, candidates) && |candidates| <= |f|
            && suggested == (if |candidates| < |f| then Some(f[|candidates|]) else None)
            && match suggested
               case None => urgent.None?
               case Some(t) =>
                 && t in s.threads && -1 <= t.activeCore < NUM_CORES
                 && var other := if t.activeCore >= 0 then top[t.activeCore] else None;
                 && other != Some(t)
                 && urgent == if other.Some? && other.value.priority < HIGHEST_CORE_MIGRATION_ALLOWED_PRIORITY then other else None
  {
    hide Flat, Next, Front, Distinct, Placement.In, Passed;
    ghost var g, ms := s.queue.suggested, Placements(s.threads);
    ghost var f := Flat(g, core);
    FlatQueued(g, Suggested, ms, core);
    candidates, urgent := [], None;
    suggested := Front(s.queue.suggested, core);
    PassedNone(f, top);
    while suggested.Some?
      invariant |candidates| <= |f| && Passed(f, top, candidates)
      invariant suggested == if |candidates| < |f| then Some(f[|candidates|]) else None
      decreases |f| - |candidates|
    {
      var t := suggested.value;
      assert t in f && ms[t].Valid();
      var topThread := if t.activeCore >= 0 then top[t.activeCore] else None;
      if topThread != suggested {
        if topThread.Some? && topThread.value.priority < HIGHEST_CORE_MIGRATION_ALLOWED_PRIORITY {
          urgent := topThread;
        }
        return;
      }
      FewCandidates(f, top, candidates, core);
      assert |candidates| < NUM_CORES;  // the assertion in the source
      NextInFlatOf(g, Suggested, ms, core, |candidates|);
      PassedMore(f, top, candidates);
      candidates := candidates + [t.activeCore];
      suggested := Next(s.queue.suggested, core, t.priority, t);
    }
  }

  /** Look for a candidate core that has another thread to run. */
  method FindCandidate(s: KScheduler, top: seq<Option<KThread>>, candidates: seq<int>, ghost f: seq<KThread>)
    returns (chosen: nat, next: Option<KThread>)
    requires s.queue.Holds(Placements(s.threads)) && Passed(f, top, candidates) && (forall t :: t in f ==> t in s.threads)
    requires forall c :: 0 <= c < NUM_CORES ==> top[c] == Front(s.queue.scheduled, c)
    ensures next.None? ==> forall j :: 0 <= j < |candidates| ==> Flat(s.queue.scheduled, candidates[j]) == [f[j]]
    ensures next.Some? ==>
              && chosen < |candidates|
              && var l := Flat(s.queue.scheduled, candidates[chosen]);
              |l| > 1 && l[0] == f[chosen] && next == Some(l[1])
    // It is the first of them.
    ensures next.Some? ==> forall j :: 0 <= j < chosen ==> Flat(s.queue.scheduled, candidates[j]) == [f[j]]
  {
    hide Flat, Next, Front, Distinct, Placement.In;
    ghost var l, ms := s.queue.scheduled, Placements(s.threads);
    chosen := 0;
    while chosen < |candidates|
      invariant 0 <= chosen <= |candidates|
      invariant forall j :: 0 <= j < chosen ==> Flat(l, candidates[j]) == [f[j]]
    {
      var candidateCore := candidates[chosen];
      var suggested := top[candidateCore].value;
      assert suggested == f[chosen] && suggested in f && ms[suggested].Valid();
      NextInFlatOf(l, Scheduled, ms, candidateCore, 0);
      next := Next(s.queue.scheduled, candidateCore, suggested.priority, suggested);
      if next.Some? {
        return;
      }
      assert Flat(l, candidateCore) == [f[chosen]];
      chosen := chosen + 1;
    }
    next := None;
  }

  /** The state of the scheduler between two migrations, since the placements were `ms0`. */
  ghost predicate Balancing(s: KScheduler, top: seq<Option<KThread>>, idle: set<int>, blocked: map<int, Stop<KThread>>, ms0: map<KThread, Placement>)
    reads s, s.queue, s.threads`rawState, s.threads`activeCore, s.threads`priority, s.threads`affinity
  {
    && s.queue.Holds(Placements(s.threads)) && s.highest == top
    && Progress(s.queue.scheduled, s.queue.suggested, Placements(s.threads), top, idle, blocked)
    && Accounted(s.queue.scheduled, s.queue.suggested, Placements(s.threads), ms0, idle, blocked)
  }

  lemma TopsQueued(s: KScheduler, top: seq<Option<KThread>>, idle: set<int>, blocked: map<int, Stop<KThread>>, ms0: map<KThread, Placement>)
    requires Balancing(s, top, idle, blocked, ms0)
    ensures |top| == NUM_CORES
    ensures forall c :: 0 <= c < NUM_CORES && top[c].Some? ==>
              top[c].value in s.threads && top[c].value.rawState == RUNNABLE && top[c].value.activeCore == c && top[c].value.priority <= LOWEST_PRIORITY
  {
    forall c | 0 <= c < NUM_CORES && top[c].Some?
      ensures top[c].value in s.threads && top[c].value.rawState == RUNNABLE && top[c].value.activeCore == c && top[c].value.priority <= LOWEST_PRIORITY
    {
      FrontQueued(s.queue.scheduled, Scheduled, Placements(s.threads), c);
    }
  }

  ghost function State(s: KScheduler): Queues<KThread>
    reads s.queue, s.threads`rawState, s.threads`activeCore, s.threads`priority, s.threads`affinity
  {
    Queues(s.queue.scheduled, s.queue.suggested, Placements(s.threads))
  }

  /** Move `thread` to the idle core `core` and make it that core's choice. */
  method MigrateToIdle(s: KScheduler, top: seq<Option<KThread>>, thread: KThread, core: int,
                       ghost was: seq<Option<KThread>>, ghost idle: set<int>, ghost blocked: map<int, Stop<KThread>>, ghost ms0: map<KThread, Placement>)
    returns (top': seq<Option<KThread>>, changed: set<int>)
    requires s.queue.Holds(Placements(s.threads)) && s.highest == top
    requires Progress(s.queue.scheduled, s.queue.suggested, Placements(s.threads), was, idle, blocked) && core in idle
    requires Accounted(s.queue.scheduled, s.queue.suggested, Placements(s.threads), ms0, idle, blocked)
    requires thread in Flat(s.queue.suggested, core) && thread in s.threads
    requires -1 <= thread.activeCore < NUM_CORES
    requires thread.activeCore >= 0 && was[thread.activeCore] == Some(thread) ==> |Flat(s.queue.scheduled, thread.activeCore)| > 1
    requires |top| == NUM_CORES && top[core := Some(thread)] == TopAfter(s.queue.scheduled, was, thread.activeCore, thread, core)
    requires 0 <= core < NUM_CORES && top[core] == None
    modifies s`highest, s`needsScheduling, s.queue`scheduled, s.queue`suggested, s.threads`activeCore, s.threads`lastScheduledTick
    ensures Balancing(s, top', idle - {core}, blocked, ms0) && top' == top[core := Some(thread)]
    ensures Moves(old(State(s)), State(s), thread, core)
    ensures forall t {:trigger t.activeCore} :: t in s.threads && t.activeCore != old(t.activeCore) ==> t == thread && t.activeCore == core
    ensures forall c :: 0 <= c < NUM_CORES && top'[c] != top[c] ==> c in changed
    ensures s.needsScheduling == old(s.needsScheduling) + changed
  {
    hide Flat, Front, Relocated, Conserved, Consistent, Placement.In, Accounted, Progress, TopAfter;
    ghost var ms, l, g := Placements(s.threads), s.queue.scheduled, s.queue.suggested;
    SuggestedThread(l, g, ms, thread, core);
    Migrate(s, thread, core, false);
    MigrationBalances(l, g, s.queue.scheduled, s.queue.suggested, ms, ms0, was, idle, blocked, thread, core);
    top' := top[core := Some(thread)];
    changed := UpdateHighestPriorityThread(s, core, top'[core]);
  }

  /** No candidate core has a second thread, so nothing suggested for the idle core can be moved. */
  lemma AllAlone(s: KScheduler, candidates: seq<int>, top: seq<Option<KThread>>, core: int)
    requires s.queue.Holds(Placements(s.threads))
    requires Passed(Flat(s.queue.suggested, core), top, candidates) && |candidates| == |Flat(s.queue.suggested, core)|
    requires forall j :: 0 <= j < |candidates| ==> Flat(s.queue.scheduled, candidates[j]) == [Flat(s.queue.suggested, core)[j]]
    ensures Conserved(s.queue.scheduled, s.queue.suggested, Placements(s.threads), core)
  {
    var l, f, ms := s.queue.scheduled, Flat(s.queue.suggested, core), Placements(s.threads);
    FlatQueued(s.queue.suggested, Suggested, ms, core);
    forall t {:trigger t in f} | t in f ensures Alone(l, ms, t) {
      var j :| 0 <= j < |f| && f[j] == t;
      assert candidates[j] == t.activeCore;
    }
  }

  /** `t` may be moved away from core `from`: it is what that core runs, or what it runs is not urgent. */
  ghost predicate MayLeave(top: seq<Option<KThread>>, t: KThread, from: int)
    requires |top| == NUM_CORES && -1 <= from < NUM_CORES
    reads set o | o in top && o.Some? :: o.value
  {
    from >= 0 && top[from].Some? && top[from] != Some(t) ==> top[from].value.priority >= HIGHEST_CORE_MIGRATION_ALLOWED_PRIORITY
  }

  /** The candidates that the scan has passed are top threads. */
  lemma CandidatesOnTop(s: KScheduler, top: seq<Option<KThread>>, core: int, candidates: seq<int>)
    requires Passed(Flat(s.queue.suggested, core), top, candidates) && s.queue.Holds(Placements(s.threads))
    requires forall c :: 0 <= c < NUM_CORES ==> top[c] == Front(s.queue.scheduled, c)
    ensures var f := Flat(s.queue.suggested, core);
            forall j {:trigger f[j]} :: 0 <= j < |candidates| ==> TopOf(s.queue.scheduled, Placements(s.threads), f[j])
  {
    hide Front;
    var f := Flat(s.queue.suggested, core);
    FlatQueued(s.queue.suggested, Suggested, Placements(s.threads), core);
    forall j {:trigger f[j]} | 0 <= j < |candidates| ensures TopOf(s.queue.scheduled, Placements(s.threads), f[j]) {
      assert candidates[j] == f[j].activeCore && f[j] in f;
    }
  }

  lemma NotAlone<M>(l: Lists<M>, g: Lists<M>, ms: map<M, Placement>, c: int, k: nat, d: int)
    requires k < |Flat(g, c)| && Flat(g, c)[k] in ms && ms[Flat(g, c)[k]].core == d && |Flat(l, d)| > 1
    ensures !Conserved(l, g, ms, c)
  {
    hide Flat;
    assert Flat(g, c)[k] in Flat(g, c);
  }

  /** The first candidate whose core has a second thread is the one to be migrated. */
  lemma CandidateHelps(s: KScheduler, top: seq<Option<KThread>>, core: int, candidates: seq<int>, chosen: nat)
    requires s.queue.Holds(Placements(s.threads))
    requires var f := Flat(s.queue.suggested, core);
             && Passed(f, top, candidates) && |candidates| == |f| && chosen < |candidates|
             && (forall j {:trigger f[j]} :: 0 <= j < |f| ==> TopOf(s.queue.scheduled, Placements(s.threads), f[j]))
             && (forall j :: 0 <= j < chosen ==> Flat(s.queue.scheduled, candidates[j]) == [f[j]])
             && |Flat(s.queue.scheduled, candidates[chosen])| > 1
    ensures Helper(s.queue.scheduled, s.queue.suggested, Placements(s.threads), core, chosen)
  {
    hide Flat, Front, TopOf;
    var l, f, ms := s.queue.scheduled, Flat(s.queue.suggested, core), Placements(s.threads);
    FlatQueued(s.queue.suggested, Suggested, ms, core);
    forall j {:trigger f[j]} | 0 <= j < |f| ensures f[j] in ms && ms[f[j]].core == candidates[j] >= 0 {
      assert f[j] in f && candidates[j] == f[j].activeCore;
    }
    assert TopHelper(l, s.queue.suggested, ms, core, chosen);
  }

  /** One migration helps a core that can be helped. */
  lemma OneHelps<M>(q: Queues<M>, q': Queues<M>, c: int, k: nat)
    requires Helper(q.scheduled, q.suggested, q.placed, c, k) && Consistent(q.scheduled, q.suggested, q.placed)
    requires k < |Flat(q.suggested, c)| && Moves(q, q', Flat(q.suggested, c)[k], c)
    ensures RoundFor(q, q', c)
  {
    hide Helper, Helpless, Moves, Consistent, Flat;
    HelpedIff(q.scheduled, q.suggested, q.placed, c);
    MigratesBy(q, q', c, k);
  }

  lemma MigratesBy<M>(q: Queues<M>, q': Queues<M>, c: int, k: nat)
    requires Helper(q.scheduled, q.suggested, q.placed, c, k)
    requires k < |Flat(q.suggested, c)| && Moves(q, q', Flat(q.suggested, c)[k], c)
    ensures Migrates(q, q', c, k)
  {
  }

  lemma NothingHelps<M>(q: Queues<M>, q': Queues<M>, c: int)
    requires Helpless(q.scheduled, q.suggested, q.placed, c) && q' == q
    ensures RoundFor(q, q', c)
  {
  }

  /** All threads suggested for the idle core are top threads: migrate one whose core has something else to run. */
  method MigrateTop(s: KScheduler, top: seq<Option<KThread>>, core: int, candidates: seq<int>,
                    ghost idle: set<int>, ghost blocked: map<int, Stop<KThread>>, ghost ms0: map<KThread, Placement>)
    returns (top': seq<Option<KThread>>, changed: set<int>)
    requires Balancing(s, top, idle, blocked, ms0) && core in idle
    requires Passed(Flat(s.queue.suggested, core), top, candidates) && |candidates| == |Flat(s.queue.suggested, core)|
    modifies s`highest, s`needsScheduling, s.queue`scheduled, s.queue`suggested, s.threads`activeCore, s.threads`lastScheduledTick
    ensures Balancing(s, top', idle - {core}, blocked, ms0)
    ensures forall t {:trigger t.activeCore} :: t in s.threads && t.activeCore != old(t.activeCore) ==>
              t.activeCore == core && 0 <= old(t.activeCore) < NUM_CORES && top[old(t.activeCore)] == Some(t)
    // Nobody is migrated exactly when nobody can be.
    ensures |top'| == NUM_CORES
    ensures top'[core].None? <==> Helpless(old(s.queue.scheduled), old(s.queue.suggested), old(Placements(s.threads)), core)
    ensures top'[core].None? ==> top' == top && s.queue.scheduled == old(s.queue.scheduled) && s.queue.suggested == old(s.queue.suggested)
    ensures top'[core].None? ==> Placements(s.threads) == old(Placements(s.threads))
    ensures RoundFor(old(State(s)), State(s), core)
    ensures forall c :: 0 <= c < NUM_CORES && top[c].Some? ==> top'[c].Some?
    ensures forall c :: 0 <= c < NUM_CORES && top'[c] != top[c] ==> c in changed
    ensures s.needsScheduling == old(s.needsScheduling) + changed
  {
    hide Flat, Front, Consistent, Conserved, Placement.In, Accounted, TopOf, Helpless, RoundFor, Moves, Helper;
    ghost var ms, f := Placements(s.threads), Flat(s.queue.suggested, core);
    TopsQueued(s, top, idle, blocked, ms0);
    SuggestedThreads(s, core);
    ghost var before := State(s);
    top', changed := top, {};
    ghost var l, g := s.queue.scheduled, s.queue.suggested;
    CandidatesOnTop(s, top, core, candidates);
    AllOnTop(l, g, ms, core);
    var chosen, next := FindCandidate(s, top, candidates, f);
    if next.Some? {
      NotAlone(l, g, ms, core, chosen, candidates[chosen]);
      CandidateHelps(s, top, core, candidates, chosen);
      var candidateCore := candidates[chosen];
      var thread := top[candidateCore].value;
      top' := top[candidateCore := next];
      changed := UpdateHighestPriorityThread(s, candidateCore, next);
      var more: set<int>;
      top', more := MigrateToIdle(s, top', thread, core, top, idle, blocked, ms0);
      changed := changed + more;
      OneHelps(before, State(s), core, chosen);
    } else {
      AllAlone(s, candidates, top, core);
      IdleCore(s.queue.scheduled, s.queue.suggested, ms, top, idle, blocked, core);
      NothingHelps(before, State(s), core);
      IdleAccounted(s.queue.scheduled, s.queue.suggested, ms, ms0, idle, blocked, core);
    }
  }

  /** The scan has stopped at a thread behind an urgent one. */
  lemma UrgentStops(s: KScheduler, top: seq<Option<KThread>>, core: int, candidates: seq<int>, stop: Stop<KThread>)
    requires s.queue.Holds(Placements(s.threads)) && Passed(Flat(s.queue.suggested, core), top, candidates)
    requires forall c :: 0 <= c < NUM_CORES ==> top[c] == Front(s.queue.scheduled, c)
    requires |candidates| < |Flat(s.queue.suggested, core)| && stop.behind == Flat(s.queue.suggested, core)[|candidates|]
    requires stop.behind in s.threads && stop.urgent in s.threads && 0 <= stop.behind.activeCore < NUM_CORES
    requires top[stop.behind.activeCore] == Some(stop.urgent) && stop.urgent != stop.behind
    requires stop.urgent.priority < HIGHEST_CORE_MIGRATION_ALLOWED_PRIORITY
    ensures Helpless(s.queue.scheduled, s.queue.suggested, Placements(s.threads), core)
    ensures StoppedBy(Flat(s.queue.suggested, core), top, stop)
  {
    hide Flat, Front, Consistent, Conserved;
    var l: Lists<KThread>, g: Lists<KThread>, ms: map<KThread, Placement> := s.queue.scheduled, s.queue.suggested, Placements(s.threads);
    CandidatesOnTop(s, top, core, candidates);
    assert ms[stop.behind] == stop.behind.Place() && ms[stop.urgent] == stop.urgent.Place();
    assert Obstructed(l, g, ms, core, |candidates|);
    assert StoppedAfter(Flat(s.queue.suggested, core), top, candidates, stop);
  }

  /** The scan has stopped at a thread that can be migrated. */
  lemma OffTopHelps(s: KScheduler, top: seq<Option<KThread>>, core: int, candidates: seq<int>)
    requires s.queue.Holds(Placements(s.threads)) && Passed(Flat(s.queue.suggested, core), top, candidates)
    requires forall c :: 0 <= c < NUM_CORES ==> top[c] == Front(s.queue.scheduled, c)
    requires forall c :: 0 <= c < NUM_CORES && top[c].Some? ==> top[c].value in s.threads
    requires |candidates| < |Flat(s.queue.suggested, core)|
    requires var t := Flat(s.queue.suggested, core)[|candidates|];
             && t in s.threads && -1 <= t.activeCore < NUM_CORES
             && (t.activeCore >= 0 ==> top[t.activeCore] != Some(t))
             && (t.activeCore >= 0 && top[t.activeCore].Some? ==> top[t.activeCore].value.priority >= HIGHEST_CORE_MIGRATION_ALLOWED_PRIORITY)
    ensures Helper(s.queue.scheduled, s.queue.suggested, Placements(s.threads), core, |candidates|)
    ensures !Helpless(s.queue.scheduled, s.queue.suggested, Placements(s.threads), core)
  {
    hide Flat, Front, Consistent, Helpless;
    var l, g, ms, t := s.queue.scheduled, s.queue.suggested, Placements(s.threads), Flat(s.queue.suggested, core)[|candidates|];
    CandidatesOnTop(s, top, core, candidates);
    assert ms[t] == t.Place();
    assert t.activeCore >= 0 && top[t.activeCore].Some? ==> ms[top[t.activeCore].value] == top[t.activeCore].value.Place();
    FirstMovable(l, g, ms, core, |candidates|);
    assert OffTopHelper(l, g, ms, core, |candidates|);
  }

  /** Try to give the idle core `core` a thread to run. */
  method HelpIdleCore(s: KScheduler, top: seq<Option<KThread>>, core: int,
                      ghost idle: set<int>, ghost blocked: map<int, Stop<KThread>>, ghost ms0: map<KThread, Placement>)
    returns (top': seq<Option<KThread>>, changed: set<int>, ghost blocked': map<int, Stop<KThread>>)
    requires Balancing(s, top, idle, blocked, ms0) && core in idle && core !in blocked
    modifies s`highest, s`needsScheduling, s.queue`scheduled, s.queue`suggested, s.threads`activeCore, s.threads`lastScheduledTick
    ensures Balancing(s, top', idle - {core}, blocked', ms0)
    // It is given up only for an urgent thread in the way of one that is suggested for it, and then nothing has changed.
    ensures core in blocked' ==>
              && blocked' == blocked[core := blocked'[core]] && top' == top && s.queue.suggested == old(s.queue.suggested)
              && StoppedBy(Flat(s.queue.suggested, core), top, blocked'[core])
    ensures core !in blocked' ==> blocked' == blocked
    // Nobody is migrated exactly when nobody can be.
    ensures |top'| == NUM_CORES
    ensures top'[core].None? <==> Helpless(old(s.queue.scheduled), old(s.queue.suggested), old(Placements(s.threads)), core)
    ensures top'[core].None? ==> top' == top && s.queue.scheduled == old(s.queue.scheduled) && s.queue.suggested == old(s.queue.suggested)
    ensures top'[core].None? ==> Placements(s.threads) == old(Placements(s.threads))
    ensures RoundFor(old(State(s)), State(s), core)
    ensures forall c :: 0 <= c < NUM_CORES && top[c].Some? ==> top'[c].Some?
    ensures forall t {:trigger t.activeCore} :: t in s.threads && t.activeCore != old(t.activeCore) ==>
              t.activeCore == core && -1 <= old(t.activeCore) < NUM_CORES && MayLeave(top, t, old(t.activeCore))
    ensures forall c :: 0 <= c < NUM_CORES && top'[c] != top[c] ==> c in changed
    ensures s.needsScheduling == old(s.needsScheduling) + changed
  {
    hide Flat, Front, Consistent, Conserved, Placement.In, Accounted, RoundFor, Moves, Helpless, Helper, TopOf, StoppedBy, Passed;
    ghost var ms := Placements(s.threads);
    TopsQueued(s, top, idle, blocked, ms0);
    SuggestedThreads(s, core);
    ghost var before := State(s);
    top', changed, blocked' := top, {}, blocked;
    var suggested, urgent, candidates := FindSuggestion(s, top, core);
    if suggested.Some? {
      if urgent.Some? {
        ghost var stop := Stop(urgent.value, suggested.value);
        blocked' := blocked[core := stop];
        UrgentStops(s, top, core, candidates, stop);
        NothingHelps(before, State(s), core);
        StopAccounted(s.queue.scheduled, s.queue.suggested, ms, ms0, idle, blocked, core, stop);
      } else {
        OffTopHelps(s, top, core, candidates);
        top', changed := MigrateToIdle(s, top, suggested.value, core, top, idle, blocked, ms0);
        OneHelps(before, State(s), core, |candidates|);
      }
    } else {
      top', changed := MigrateTop(s, top, core, candidates, idle, blocked, ms0);
    }
  }

  lemma SuggestedThreads(s: KScheduler, core: int)
    requires s.queue.Holds(Placements(s.threads)) && 0 <= core < NUM_CORES
    ensures forall t :: t in Flat(s.queue.suggested, core) ==> t in s.threads && t.activeCore != core
  {
    FlatQueued(s.queue.suggested, Suggested, Placements(s.threads), core);
  }

  /** The cores that have no thread of their own. */
  ghost function IdleCores<M>(l: Lists<M>): set<int> {
    set c | 0 <= c < NUM_CORES && Front(l, c) == None
  }

  /** Every core is to run the front of its queue. */
  method ChooseTops(s: KScheduler) returns (top: seq<Option<KThread>>, idleCores: set<int>, coresNeedingScheduling: set<int>)
    requires s.queue.Holds(Placements(s.threads)) && |s.highest| == NUM_CORES
    requires forall c :: 0 <= c < NUM_CORES && s.highest[c].Some? ==> s.highest[c].value in s.threads
    modifies s`highest, s`needsScheduling, s.threads`lastScheduledTick
    ensures Balancing(s, top, idleCores, map[], old(Placements(s.threads))) && State(s) == old(State(s))
    ensures idleCores == IdleCores(old(s.queue.scheduled))
    ensures forall c :: 0 <= c < NUM_CORES && s.highest[c] != old(s.highest)[c] ==> c in coresNeedingScheduling
    ensures s.needsScheduling == old(s.needsScheduling) + coresNeedingScheduling
  {
    hide Flat, Front, Consistent, Conserved, Placement.In;
    top, idleCores, coresNeedingScheduling := [], {}, {};
    for core := 0 to NUM_CORES
      invariant |top| == core && |s.highest| == NUM_CORES
      invariant forall c :: 0 <= c < core ==> top[c] == Front(s.queue.scheduled, c) && s.highest[c] == top[c]
      invariant forall c :: core <= c < NUM_CORES ==> s.highest[c] == old(s.highest)[c]
      invariant forall c :: c in idleCores <==> 0 <= c < core && top[c] == None
      invariant forall c :: 0 <= c < core && s.highest[c] != old(s.highest)[c] ==> c in coresNeedingScheduling
      invariant s.needsScheduling == old(s.needsScheduling) + coresNeedingScheduling
    {
      var topThread := Front(s.queue.scheduled, core);
      if topThread.None? {
        idleCores := idleCores + {core};
      }
      top := top + [topThread];
      var changed := UpdateHighestPriorityThread(s, core, topThread);
      coresNeedingScheduling := coresNeedingScheduling + changed;
    }
    assert idleCores == IdleCores(s.queue.scheduled);
    NothingMoved(s.queue.scheduled, s.queue.suggested, Placements(s.threads), idleCores);
  }

  /** A thread has left its core in spite of an urgent one that stays there only if it is at least as urgent. */
  ghost predicate UrgentFirst<M>(ms0: map<M, Placement>, ms: map<M, Placement>) {
    forall t, u {:trigger Left(ms0, ms, t), Stayed(ms0, ms, u)} ::
      t in ms && u in ms && Left(ms0, ms, t) && Stayed(ms0, ms, u) && ms0[u].core == ms0[t].core && Pressing(ms, u) ==> ms[t].priority <= ms[u].priority
  }

  /** `t` is no longer on the core that it was on. */
  ghost predicate Left<M>(ms0: map<M, Placement>, ms: map<M, Placement>, t: M) {
    t in ms0 && t in ms && ms[t].core != ms0[t].core
  }

  ghost predicate Stayed<M>(ms0: map<M, Placement>, ms: map<M, Placement>, u: M) {
    u in ms0 && u in ms && ms[u].core == ms0[u].core >= 0
  }

  /** `u` is queued, and too urgent for a thread behind it to be migrated. */
  ghost predicate Pressing<M>(ms: map<M, Placement>, u: M) {
    Urgent(ms, u) && ms[u].runnable
  }

  /** No core has a more urgent thread than the one it runs. */
  ghost predicate TopsFirst<M>(ms: map<M, Placement>, top: seq<Option<M>>) {
    forall u {:trigger Pressing(ms, u)} :: u in ms && Pressing(ms, u) && 0 <= ms[u].core < |top| ==>
      top[ms[u].core].Some? && top[ms[u].core].value in ms && ms[top[ms[u].core].value].priority <= ms[u].priority
  }

  /** `t` is what its core runs, or what its core runs is not urgent. */
  ghost predicate MayGo<M>(ms: map<M, Placement>, top: seq<Option<M>>, t: M) {
    t in ms && (0 <= ms[t].core < |top| && top[ms[t].core].Some? && top[ms[t].core] != Some(t) ==> !Urgent(ms, top[ms[t].core].value))
  }

  /** One round: threads that change their core go to `core`, and are not taken from behind an urgent one. */
  ghost predicate RoundOf<M>(ms: map<M, Placement>, ms': map<M, Placement>, top: seq<Option<M>>, core: int) {
    && ms'.Keys == ms.Keys
    && forall t {:trigger ms'[t]} :: t in ms ==>
         && ms'[t] == ms[t].(core := ms'[t].core)
         && (ms'[t].core != ms[t].core ==> ms'[t].core == core && MayGo(ms, top, t))
  }

  lemma RoundKeepsUrgentFirst<M>(ms0: map<M, Placement>, ms: map<M, Placement>, ms': map<M, Placement>, top: seq<Option<M>>, core: int)
    requires UrgentFirst(ms0, ms) && RoundOf(ms, ms', top, core) && TopsFirst(ms, top) && |top| == NUM_CORES
    requires forall u {:trigger Pressing(ms, u)} :: u in ms && Pressing(ms, u) && u in ms0 ==> ms0[u].core != core && ms0[u].core < NUM_CORES
    ensures UrgentFirst(ms0, ms')
  {
    forall t, u {:trigger Left(ms0, ms', t), Stayed(ms0, ms', u)}
      | Left(ms0, ms', t) && Stayed(ms0, ms', u) && ms0[u].core == ms0[t].core && Pressing(ms', u)
      ensures ms'[t].priority <= ms'[u].priority
    {
      assert ms'[u] == ms[u].(core := ms'[u].core) && ms'[t] == ms[t].(core := ms'[t].core);
      assert Pressing(ms, u) && Stayed(ms0, ms, u);
      var before := Left(ms0, ms, t);
    }
  }

  lemma TopsAreFirst(s: KScheduler, top: seq<Option<KThread>>, idle: set<int>, blocked: map<int, Stop<KThread>>, ms0: map<KThread, Placement>)
    requires Balancing(s, top, idle, blocked, ms0)
    ensures |top| == NUM_CORES && TopsFirst(Placements(s.threads), top)
    ensures forall u {:trigger Pressing(Placements(s.threads), u)} :: Pressing(Placements(s.threads), u) ==>
              Placements(s.threads)[u].core !in idle && Placements(s.threads)[u].core < NUM_CORES
    ensures forall c :: c in idle ==> 0 <= c < NUM_CORES
  {
    hide Flat, Front, Conserved, Accounted;
    var l, ms := s.queue.scheduled, Placements(s.threads);
    forall u {:trigger Pressing(ms, u)} | Pressing(ms, u) && 0 <= ms[u].core
      ensures ms[u].core < NUM_CORES && top[ms[u].core].Some? && top[ms[u].core].value in ms && ms[top[ms[u].core].value].priority <= ms[u].priority
    {
      assert ms[u].Valid();
      InFlat(l, Scheduled, ms, ms[u].core, u);
      FrontFirst(l, Scheduled, ms, ms[u].core, u);
    }
  }

  lemma {:induction false} FlatOrdered<M>(l: Lists<M>, kind: Kind, ms: map<M, Placement>, c: int, p: int, i: nat, j: nat)
    requires Matches(l, kind, ms) && p >= 0 && i <= j < |FlatFrom(l, c, p)|
    ensures FlatFrom(l, c, p)[i] in ms && FlatFrom(l, c, p)[j] in ms && ms[FlatFrom(l, c, p)[i]].priority <= ms[FlatFrom(l, c, p)[j]].priority
    decreases LOWEST_PRIORITY - p
  {
    hide Matches;
    FlatDistinct(l, kind, ms, c, p);
    if p <= LOWEST_PRIORITY {
      var head, tail := At(l, c, p), FlatFrom(l, c, p + 1);
      FlatDistinct(l, kind, ms, c, p + 1);
      if i >= |head| {
        FlatOrdered(l, kind, ms, c, p + 1, i - |head|, j - |head|);
      } else {
        assert FlatFrom(l, c, p)[i] == head[i];
        HeadPriority(l, kind, ms, c, p, head[i]);
      }
    }
  }

  lemma HeadPriority<M>(l: Lists<M>, kind: Kind, ms: map<M, Placement>, c: int, p: int, t: M)
    requires Matches(l, kind, ms) && t in At(l, c, p)
    ensures t in ms && ms[t].priority == p
  {
  }

  /** The front of a queue is at least as urgent as any of its members. */
  lemma FrontFirst<M>(l: Lists<M>, kind: Kind, ms: map<M, Placement>, c: int, u: M)
    requires Matches(l, kind, ms) && u in Flat(l, c)
    ensures Front(l, c).Some? && Front(l, c).value in ms && u in ms && ms[Front(l, c).value].priority <= ms[u].priority
  {
    hide Matches;
    var f := Flat(l, c);
    var j :| 0 <= j < |f| && f[j] == u;
    FlatOrdered(l, kind, ms, c, 0, 0, j);
  }

  /** Only active cores differ. */
  ghost predicate SameButCores<M>(ms0: map<M, Placement>, ms: map<M, Placement>) {
    ms0.Keys == ms.Keys && forall t {:trigger ms[t]} {:trigger ms0[t]} :: t in ms ==> ms[t] == ms0[t].(core := ms[t].core)
  }

  lemma SamePressing<M>(ms0: map<M, Placement>, ms: map<M, Placement>)
    requires SameButCores(ms0, ms)
    ensures forall u {:trigger Pressing(ms, u)} :: Pressing(ms, u) ==> Pressing(ms0, u)
  {
  }

  ghost predicate AllHelpless<M>(l: Lists<M>, g: Lists<M>, ms: map<M, Placement>, idle: set<int>) {
    forall c {:trigger Helpless(l, g, ms, c)} :: c in idle ==> Helpless(l, g, ms, c)
  }

  lemma NobodyLeft<M>(ms: map<M, Placement>)
    ensures UrgentFirst(ms, ms) && SameButCores(ms, ms)
  {
  }

  /** No pressing thread is on a core that was idle to begin with. */
  ghost predicate NonePressing<M>(ms0: map<M, Placement>, idle: set<int>) {
    forall u {:trigger Pressing(ms0, u)} :: u in ms0 && Pressing(ms0, u) ==> ms0[u].core !in idle && ms0[u].core < NUM_CORES
  }

  /** One round, with what has been so since the placements were `ms0`. */
  method HelpNext(s: KScheduler, top: seq<Option<KThread>>, core: int, ghost idle: set<int>, ghost blocked: map<int, Stop<KThread>>,
                  ghost ms0: map<KThread, Placement>, ghost idle0: set<int>)
    returns (top': seq<Option<KThread>>, changed: set<int>, ghost blocked': map<int, Stop<KThread>>)
    requires Balancing(s, top, idle, blocked, ms0) && core in idle && core !in blocked && core in idle0
    requires SameButCores(ms0, Placements(s.threads)) && UrgentFirst(ms0, Placements(s.threads)) && NonePressing(ms0, idle0)
    modifies s`highest, s`needsScheduling, s.queue`scheduled, s.queue`suggested, s.threads`activeCore, s.threads`lastScheduledTick
    ensures |top'| == |top| == NUM_CORES && 0 <= core < NUM_CORES && Balancing(s, top', idle - {core}, blocked', ms0)
    ensures forall c :: c in blocked' ==> c in blocked || c == core
    ensures SameButCores(ms0, Placements(s.threads)) && UrgentFirst(ms0, Placements(s.threads))
    ensures top'[core].None? <==> Helpless(old(s.queue.scheduled), old(s.queue.suggested), old(Placements(s.threads)), core)
    ensures top'[core].None? ==> top' == top && s.queue.scheduled == old(s.queue.scheduled) && s.queue.suggested == old(s.queue.suggested)
    ensures top'[core].None? ==> Placements(s.threads) == old(Placements(s.threads))
    ensures RoundFor(old(State(s)), State(s), core)
    ensures forall c :: 0 <= c < NUM_CORES && top[c].Some? ==> top'[c].Some?
    ensures forall t {:trigger t.activeCore} :: t in s.threads && t.activeCore != old(t.activeCore) ==> t.activeCore == core
    ensures forall c :: 0 <= c < NUM_CORES && top'[c] != top[c] ==> c in changed
    ensures s.needsScheduling == old(s.needsScheduling) + changed
  {
    hide Flat, Front, Consistent, Conserved, Placement.In, StoppedBy, Accounted, Helpless, Progress, UrgentFirst, TopsFirst, RoundFor;
    TopsAreFirst(s, top, idle, blocked, ms0);
    ghost var ms := Placements(s.threads);
    top', changed, blocked' := HelpIdleCore(s, top, core, idle, blocked, ms0);
    ghost var now := Placements(s.threads);
    forall t {:trigger now[t]} | t in ms
      ensures now[t] == ms[t].(core := now[t].core) && (now[t].core != ms[t].core ==> now[t].core == core && MayGo(ms, top, t))
    {
      assert now[t] == t.Place();
    }
    SamePressing(ms0, ms);
    RoundKeepsUrgentFirst(ms0, ms, now, top, core);
  }

  /** Idle cores are bad: help each of them in turn. `moved` says whether a thread has been migrated. */
  method HelpIdleCores(s: KScheduler, tops: seq<Option<KThread>>, idle: set<int>, ghost ms0: map<KThread, Placement>)
    returns (top: seq<Option<KThread>>, coresNeedingScheduling: set<int>, ghost blocked: map<int, Stop<KThread>>, ghost moved: bool,
             ghost helped: seq<int>, ghost run: seq<Queues<KThread>>)
    requires Balancing(s, tops, idle, map[], ms0) && ms0 == Placements(s.threads)
    modifies s`highest, s`needsScheduling, s.queue`scheduled, s.queue`suggested, s.threads`activeCore, s.threads`lastScheduledTick
    ensures |top| == |tops| == NUM_CORES && Balancing(s, top, {}, blocked, ms0)
    ensures forall t {:trigger t.activeCore} :: t in s.threads && t.activeCore != old(t.activeCore) ==> t.activeCore in idle
    ensures forall c :: 0 <= c < NUM_CORES && top[c] != tops[c] ==> c in coresNeedingScheduling
    ensures s.needsScheduling == old(s.needsScheduling) + coresNeedingScheduling
    ensures SameButCores(ms0, Placements(s.threads)) && UrgentFirst(ms0, Placements(s.threads))
    ensures !moved <==> AllHelpless(old(s.queue.scheduled), old(s.queue.suggested), ms0, idle)
    ensures !moved ==> s.queue.scheduled == old(s.queue.scheduled) && s.queue.suggested == old(s.queue.suggested) && Placements(s.threads) == ms0
    ensures moved ==> exists c :: c in idle && 0 <= c < NUM_CORES && top[c].Some?
    // One round for each idle core, from the lowest one up.
    ensures InOrder(helped, idle, {}) && Rounds(run, helped) && run[0] == old(State(s)) && run[|helped|] == State(s)
  {
    hide Flat, Front, Consistent, Conserved, Placement.In, StoppedBy, Accounted, Helpless, Progress, UrgentFirst, TopsFirst, SameButCores, RoundFor, Rounds, InOrder;
    var idleCores := idle;
    top, coresNeedingScheduling, blocked, moved := tops, {}, map[], false;
    ghost var l0, g0 := s.queue.scheduled, s.queue.suggested;
    helped, run := [], [State(s)];
    NoRounds(State(s), idle);
    TopsAreFirst(s, tops, idle, map[], ms0);
    NobodyLeft(ms0);
    while idleCores != {}
      invariant |top| == NUM_CORES && Balancing(s, top, idleCores, blocked, ms0) && idleCores <= idle
      invariant forall c :: c in idleCores ==> c !in blocked
      invariant forall t {:trigger t.activeCore} :: t in s.threads && t.activeCore != old(t.activeCore) ==> t.activeCore in idle
      invariant forall c :: 0 <= c < NUM_CORES && top[c] != tops[c] ==> c in coresNeedingScheduling
      invariant s.needsScheduling == old(s.needsScheduling) + coresNeedingScheduling
      invariant !moved ==> s.queue.scheduled == l0 && s.queue.suggested == g0 && Placements(s.threads) == ms0
      invariant !moved ==> AllHelpless(l0, g0, ms0, idle - idleCores)
      invariant moved ==> !AllHelpless(l0, g0, ms0, idle)
      invariant moved ==> exists c :: c in idle && 0 <= c < NUM_CORES && top[c].Some?
      invariant SameButCores(ms0, Placements(s.threads)) && UrgentFirst(ms0, Placements(s.threads))
      invariant InOrder(helped, idle, idleCores) && Rounds(run, helped)
      invariant |run| == |helped| + 1 && run[0] == old(State(s)) && run[|helped|] == State(s)
      decreases idleCores
    {
      var core := LowestCore(idleCores);
      var changed: set<int>;
      top, changed, blocked := HelpNext(s, top, core, idleCores, blocked, ms0, idle);
      assert !moved && top[core].Some? ==> !Helpless(l0, g0, ms0, core);
      moved := moved || top[core].Some?;
      coresNeedingScheduling := coresNeedingScheduling + changed;
      LowestNext(helped, idle, idleCores, core);
      RoundsMore(run, helped, State(s), core);
      helped, run := helped + [core], run + [State(s)];
      idleCores := idleCores - {core};
    }
  }

  /** A core that was idle and now runs a thread runs one that has come from another core. */
  lemma SomebodyMoved(s: KScheduler, top: seq<Option<KThread>>, blocked: map<int, Stop<KThread>>, ms0: map<KThread, Placement>,
                      l0: Lists<KThread>, g0: Lists<KThread>, c: int)
    requires Balancing(s, top, {}, blocked, ms0) && Consistent(l0, g0, ms0) && SameButCores(ms0, Placements(s.threads))
    requires 0 <= c < NUM_CORES && top[c].Some? && Front(l0, c) == None
    ensures exists t :: t in s.threads && t in ms0 && t.activeCore != ms0[t].core
  {
    hide Front, Flat, Accounted, Conserved;
    TopsQueued(s, top, {}, blocked, ms0);
    var t, ms := top[c].value, Placements(s.threads);
    assert ms[t] == t.Place() && ms0[t].Valid();
    if ms0[t].core == c {
      InFlat(l0, Scheduled, ms0, c, t);
    }
  }

  /** After the last round a core without a thread is beyond help, or was given up because of an urgent one. */
  lemma HelpedOrGivenUp(s: KScheduler, top: seq<Option<KThread>>, blocked: map<int, Stop<KThread>>, ms0: map<KThread, Placement>)
    requires Balancing(s, top, {}, blocked, ms0) && ms0.Keys == s.threads
    ensures |s.highest| == NUM_CORES
    ensures forall c {:trigger s.highest[c]} :: 0 <= c < NUM_CORES && s.highest[c] == None ==>
              Conserved(s.queue.scheduled, s.queue.suggested, Placements(s.threads), c) || GivenUp(s, ms0, c)
  {
    hide Conserved, Flat, Front;
    forall c {:trigger s.highest[c]} | 0 <= c < NUM_CORES && s.highest[c] == None
      ensures Conserved(s.queue.scheduled, s.queue.suggested, Placements(s.threads), c) || GivenUp(s, ms0, c)
    {
      if c in blocked {
        assert Behind(s.queue.suggested, ms0, c, blocked[c]);
      }
    }
  }

  /** A thread that is suggested for core `c` was, by the placements `ms0`, behind an urgent one that is now some core's choice. */
  ghost predicate GivenUp(s: KScheduler, ms0: map<KThread, Placement>, c: int)
    requires ms0.Keys == s.threads
    reads s, s.queue, s.threads`priority
  {
    exists t, u ::
      && t in s.threads && u in s.threads && t != u
      && t in Flat(s.queue.suggested, c) && Some(u) in s.highest
      && u.priority < HIGHEST_CORE_MIGRATION_ALLOWED_PRIORITY && ms0[t].core == ms0[u].core >= 0
  }

  /** When every core has been given the front of its queue, the scheduler is up to date. */
  lemma UpToDate(s: KScheduler, top: seq<Option<KThread>>, blocked: map<int, Stop<KThread>>, ms0: map<KThread, Placement>)
    requires Balancing(s, top, {}, blocked, ms0)
    requires forall t :: t in s.threads ==> 0 <= t.basePriority <= LOWEST_PRIORITY + 1
    ensures s.Valid()
  {
    hide Front, Flat, Conserved, Accounted, Consistent;
    TopsQueued(s, top, {}, blocked, ms0);
  }

  /** Choose what every core runs, and migrate threads to cores that would have nothing to run. */
  method UpdateHighestPriorityThreadsImpl(s: KScheduler)
    returns (coresNeedingScheduling: set<int>, ghost helped: seq<int>, ghost run: seq<Queues<KThread>>)
    requires s.Valid()
    modifies s`updateNeeded, s`highest, s`needsScheduling, s.queue`scheduled, s.queue`suggested
    modifies s.threads`activeCore, s.threads`lastScheduledTick
    ensures s.Valid() && !s.updateNeeded
    ensures forall c, d :: 0 <= c < d < NUM_CORES && s.highest[c].Some? ==> s.highest[c] != s.highest[d]
    ensures forall c :: 0 <= c < NUM_CORES && s.highest[c] != old(s.highest)[c] ==> c in coresNeedingScheduling
    ensures s.needsScheduling == old(s.needsScheduling) + coresNeedingScheduling
    ensures forall t {:trigger t.activeCore} :: t in s.threads && t.activeCore != old(t.activeCore) ==> Front(old(s.queue.scheduled), t.activeCore) == None
    ensures forall c {:trigger s.highest[c]} :: 0 <= c < NUM_CORES && s.highest[c] == None ==>
              || Conserved(s.queue.scheduled, s.queue.suggested, Placements(s.threads), c)
              || GivenUp(s, old(Placements(s.threads)), c)
    // The idle cores are helped from the lowest one up, and each round migrates the one thread that it should, or none.
    ensures InOrder(helped, IdleCores(old(s.queue.scheduled)), {})
    ensures Rounds(run, helped) && run[0] == old(State(s)) && run[|helped|] == State(s)
    // No thread is taken from behind an urgent one.
    ensures UrgentFirst(old(Placements(s.threads)), Placements(s.threads))
    // Nobody is migrated exactly when nobody can be migrated to any idle core; the queues are not touched then.
    ensures (forall t {:trigger t.activeCore} :: t in s.threads ==> t.activeCore == old(t.activeCore)) <==>
            AllHelpless(old(s.queue.scheduled), old(s.queue.suggested), old(Placements(s.threads)), IdleCores(old(s.queue.scheduled)))
    ensures (forall t {:trigger t.activeCore} :: t in s.threads ==> t.activeCore == old(t.activeCore)) ==>
              s.queue.scheduled == old(s.queue.scheduled) && s.queue.suggested == old(s.queue.suggested)
  {
    hide Flat, Front, Conserved, Placement.In, AllHelpless, UrgentFirst, Accounted, Progress, GivenUp, Consistent, SameButCores, Rounds, InOrder, State;
    ghost var q := State(s);
    s.updateNeeded := false;
    assert State(s) == q;
    var top, idleCores;
    top, idleCores, coresNeedingScheduling := ChooseTops(s);
    var more: set<int>;
    ghost var blocked: map<int, Stop<KThread>>;
    ghost var moved: bool;
    ghost var ms0, l0, g0 := Placements(s.threads), s.queue.scheduled, s.queue.suggested;
    top, more, blocked, moved, helped, run := HelpIdleCores(s, top, idleCores, ms0);
    coresNeedingScheduling := coresNeedingScheduling + more;
    TopsQueued(s, top, {}, blocked, ms0);
    HelpedOrGivenUp(s, top, blocked, ms0);
    UpToDate(s, top, blocked, ms0);
    if moved {
      ghost var c :| c in idleCores && 0 <= c < NUM_CORES && top[c].Some?;
      SomebodyMoved(s, top, blocked, ms0, l0, g0, c);
    } else {
      assert forall t {:trigger t.activeCore} :: t in s.threads ==> t.activeCore == Placements(s.threads)[t].core == ms0[t].core;
    }
  }

  /** May `t` be pulled away from its core? That must run something else that is not urgent, or nothing. */
  ghost predicate Movable<M>(l: Lists<M>, ms: map<M, Placement>, t: M) {
    && t in ms
    && (ms[t].core >= 0 && Front(l, ms[t].core).Some? ==>
          var other := Front(l, ms[t].core).value;
          other != t && other in ms && ms[other].priority >= HIGHEST_CORE_MIGRATION_ALLOWED_PRIORITY)
  }

  /** When another thread than before comes first, the time at which that one last ran. */
  ghost function Limit(fifo: seq<KThread>): Option<int>
    reads fifo`lastScheduledTick
  {
    if |fifo| > 1 then Some(fifo[1].lastScheduledTick) else None
  }

  /** Number `j` of the threads `f` is the first one that can be moved, and up to it only top threads have run later
      than the limit says. */
  ghost predicate Picked(l: Lists<KThread>, ms: map<KThread, Placement>, f: seq<KThread>, limit: Option<int>, j: nat)
    reads f`lastScheduledTick
  {
    && j < |f| && Movable(l, ms, f[j])
    && (forall i {:trigger f[i]} :: 0 <= i < j ==> !Movable(l, ms, f[i]))
    && (forall i {:trigger f[i]} :: 0 <= i <= j && limit.Some? && limit.value < f[i].lastScheduledTick ==> TopOf(l, ms, f[i]))
  }

  /** `moved` is the thread that is picked, number `picked` of `f`, or nothing if none is. */
  ghost predicate Chooses(l: Lists<KThread>, ms: map<KThread, Placement>, f: seq<KThread>, limit: Option<int>,
                          moved: Option<KThread>, picked: nat)
    reads f`lastScheduledTick
  {
    && (moved.Some? ==> Picked(l, ms, f, limit, picked) && moved == Some(f[picked]))
    && (moved.None? ==> forall j: nat :: !Picked(l, ms, f, limit, j))
  }

  /** With the FIFO `fifo` before the rotation: `moved` has waited no less than the new front; and the first of the
      threads `f` that is not on top of its core is pulled in if it has waited that long and can be moved. */
  ghost predicate WaitedLongest(l: Lists<KThread>, ms: map<KThread, Placement>, f: seq<KThread>, fifo: seq<KThread>, moved: Option<KThread>)
    reads f`lastScheduledTick, fifo`lastScheduledTick, (if moved.Some? then {moved.value} else {})`lastScheduledTick
  {
    && (moved.Some? && |fifo| > 1 ==> moved.value.lastScheduledTick <= fifo[1].lastScheduledTick)
    && forall j {:trigger f[j]} :: 0 <= j < |f| && FirstOffTop(l, ms, f, j) ==>
         Movable(l, ms, f[j]) && (|fifo| > 1 ==> f[j].lastScheduledTick <= fifo[1].lastScheduledTick) ==> moved == Some(f[j])
  }

  ghost predicate FirstOffTop<M>(l: Lists<M>, ms: map<M, Placement>, f: seq<M>, j: int) {
    0 <= j < |f| && !TopOf(l, ms, f[j]) && forall i {:trigger f[i]} :: 0 <= i < j ==> TopOf(l, ms, f[i])
  }

  lemma LongestWaiting(l: Lists<KThread>, ms: map<KThread, Placement>, f: seq<KThread>, fifo: seq<KThread>, moved: Option<KThread>, picked: nat)
    requires Chooses(l, ms, f, Limit(fifo), moved, picked)
    ensures WaitedLongest(l, ms, f, fifo, moved)
  {
    hide Front;
    forall j {:trigger f[j]} | 0 <= j < |f| && FirstOffTop(l, ms, f, j) && Movable(l, ms, f[j])
      && (|fifo| > 1 ==> f[j].lastScheduledTick <= fifo[1].lastScheduledTick)
      ensures moved == Some(f[j])
    {
      assert Picked(l, ms, f, Limit(fifo), j);
    }
  }

  /** No thread suggested for the core that is more urgent than `bound` can be moved. */
  ghost predicate NoneBetter<M>(l: Lists<M>, g: Lists<M>, ms: map<M, Placement>, core: int, bound: int) {
    forall t {:trigger t in Flat(g, core)} :: t in Flat(g, core) && t in ms && ms[t].priority < bound ==> !Movable(l, ms, t)
  }

  /** `moved` is the first thread suggested for the core that can be moved, and is more urgent than `bound`; or nobody is,
      and none that is can be. */
  ghost predicate BetterChoice<M>(l: Lists<M>, g: Lists<M>, ms: map<M, Placement>, core: int, bound: int, moved: Option<M>) {
    match moved
    case None => NoneBetter(l, g, ms, core, bound)
    case Some(t) => t in ms && ms[t].priority < bound && exists k: nat :: FirstToMove(l, ms, Flat(g, core), k, t)
  }

  ghost predicate FirstToMove<M>(l: Lists<M>, ms: map<M, Placement>, f: seq<M>, k: nat, t: M) {
    k < |f| && f[k] == t && Movable(l, ms, t) && forall j {:trigger f[j]} :: 0 <= j < k ==> !Movable(l, ms, f[j])
  }

  /** The suggestions after `moved` has been brought to `core` from where it was. */
  ghost predicate SuggestedAfter<M>(g: Lists<M>, g': Lists<M>, ms: map<M, Placement>, moved: Option<M>, core: int) {
    match moved
    case None => g' == g
    case Some(t) => t in ms && Relocated(g, g', t, ms[t].priority, core, ms[t].core, false)
  }

  /** The placements after `moved` has been brought to `core`. */
  ghost function Brought<M>(ms: map<M, Placement>, moved: Option<M>, core: int): map<M, Placement> {
    if moved.Some? && moved.value in ms then ms[moved.value := ms[moved.value].(core := core)] else ms
  }

  /** Nothing but the active core of `moved` has changed, and that is now `core`. */
  twostate predicate OnlyMoved(s: KScheduler, new moved: Option<KThread>, core: int)
    reads s.threads
  {
    && (forall t {:trigger t.activeCore} :: t in s.threads && t.activeCore != old(t.activeCore) ==> moved == Some(t))
    && (moved.Some? ==> moved.value in s.threads && moved.value.activeCore == core)
  }

  /** What the scans look at decides whether a thread can be moved. */
  lemma WhatItsCoreRuns(s: KScheduler, t: KThread)
    requires s.queue.Holds(Placements(s.threads)) && t in s.threads
    ensures var topOnCore := if t.activeCore >= 0 then Front(s.queue.scheduled, t.activeCore) else None;
            && (TopOf(s.queue.scheduled, Placements(s.threads), t) <==> topOnCore == Some(t))
            && (Movable(s.queue.scheduled, Placements(s.threads), t) <==>
                  topOnCore != Some(t) && (topOnCore.None? || topOnCore.value.priority >= HIGHEST_CORE_MIGRATION_ALLOWED_PRIORITY))
  {
    hide Front;
    var ms := Placements(s.threads);
    assert ms[t] == t.Place();
    FrontInThreads(s, t.activeCore);
    if Front(s.queue.scheduled, t.activeCore).Some? {
      assert ms[Front(s.queue.scheduled, t.activeCore).value].priority == Front(s.queue.scheduled, t.activeCore).value.priority;
    }
  }

  /** After a rotation: the first movable thread of the same priority suggested for this core, unless
      the new front of the FIFO has waited longer. */
  method FindSamePriority(s: KScheduler, core: int, priority: int, top: Option<KThread>, next: Option<KThread>)
    returns (found: Option<KThread>, ghost scanned: nat)
    requires s.queue.Holds(Placements(s.threads)) && 0 <= core < NUM_CORES && 0 <= priority <= LOWEST_PRIORITY + 1
    ensures var f, ms := At(s.queue.suggested, core, priority), Placements(s.threads);
            var limit := if top != next && next.Some? then Some(next.value.lastScheduledTick) else None;
            && scanned <= |f|
            && (forall j {:trigger f[j]} :: 0 <= j < scanned ==>
                  && !Movable(s.queue.scheduled, ms, f[j])
                  && (limit.Some? && limit.value < f[j].lastScheduledTick ==> TopOf(s.queue.scheduled, ms, f[j])))
            && (scanned == |f| ==> found.None?)
            && (scanned < |f| ==>
                  && !TopOf(s.queue.scheduled, ms, f[scanned])
                  && found == (if limit.Some? && limit.value < f[scanned].lastScheduledTick then None else Some(f[scanned]))
                  && (found.Some? ==> Movable(s.queue.scheduled, ms, f[scanned])))
  {
    hide Flat, Front, Distinct, Placement.In, Movable, TopOf;
    ghost var f, ms := At(s.queue.suggested, core, priority), Placements(s.threads);
    FifoQueued(s, Suggested, core, priority);
    scanned := 0;
    var suggested := First(At(s.queue.suggested, core, priority));
    while suggested.Some?
      invariant scanned <= |f| && suggested == if scanned < |f| then Some(f[scanned]) else None
      invariant forall j {:trigger f[j]} :: 0 <= j < scanned ==>
                  && !Movable(s.queue.scheduled, ms, f[j])
                  && (top != next && next.Some? && next.value.lastScheduledTick < f[j].lastScheduledTick ==> TopOf(s.queue.scheduled, ms, f[j]))
      decreases |f| - scanned
    {
      var t := suggested.value;
      assert t in f;
      var topOnCore := if t.activeCore >= 0 then Front(s.queue.scheduled, t.activeCore) else None;
      WhatItsCoreRuns(s, t);
      if topOnCore != suggested {
        if top != next && next.Some? && next.value.lastScheduledTick < t.lastScheduledTick {
          return None, scanned;
        }
        if topOnCore.None? || topOnCore.value.priority >= HIGHEST_CORE_MIGRATION_ALLOWED_PRIORITY {
          return suggested, scanned;
        }
      }
      AfterIndex(f, scanned);
      suggested := After(At(s.queue.suggested, core, priority), t);
      scanned := scanned + 1;
    }
    return None, scanned;
  }

  /** What the scan finds is the thread that is picked, if there is one. */
  lemma ScanPicks(l: Lists<KThread>, ms: map<KThread, Placement>, f: seq<KThread>, limit: Option<int>, found: Option<KThread>, scanned: nat)
    requires scanned <= |f|
    requires forall j {:trigger f[j]} :: 0 <= j < scanned ==>
               !Movable(l, ms, f[j]) && (limit.Some? && limit.value < f[j].lastScheduledTick ==> TopOf(l, ms, f[j]))
    requires scanned == |f| ==> found.None?
    requires scanned < |f| ==>
               && !TopOf(l, ms, f[scanned])
               && found == (if limit.Some? && limit.value < f[scanned].lastScheduledTick then None else Some(f[scanned]))
               && (found.Some? ==> Movable(l, ms, f[scanned]))
    ensures Chooses(l, ms, f, limit, found, scanned)
  {
    hide TopOf, Movable;
    if found.None? && scanned < |f| {
      forall j: nat ensures !Picked(l, ms, f, limit, j) {
        var t := f[scanned];
      }
    }
  }

  /** The first movable thread suggested for this core that is more urgent than `bound`. */
  method FindMoreUrgent(s: KScheduler, core: int, bound: int) returns (found: Option<KThread>, ghost scanned: nat)
    requires s.queue.Holds(Placements(s.threads)) && 0 <= core < NUM_CORES
    ensures var f := Flat(s.queue.suggested, core);
            && scanned <= |f|
            && (forall j {:trigger f[j]} :: 0 <= j < scanned ==> f[j].priority < bound && !Movable(s.queue.scheduled, Placements(s.threads), f[j]))
            && (scanned == |f| ==> found.None?)
            && (scanned < |f| ==> found == if f[scanned].priority >= bound then None else Some(f[scanned]))
            && (found.Some? ==> Movable(s.queue.scheduled, Placements(s.threads), f[scanned]))
  {
    hide Flat, Next, Front, Distinct, Placement.In, Movable;
    ghost var g, ms := s.queue.suggested, Placements(s.threads);
    ghost var f := Flat(g, core);
    FlatQueued(g, Suggested, ms, core);
    scanned := 0;
    var suggested := Front(s.queue.suggested, core);
    while suggested.Some?
      invariant scanned <= |f| && suggested == if scanned < |f| then Some(f[scanned]) else None
      invariant forall j {:trigger f[j]} :: 0 <= j < scanned ==> f[j].priority < bound && !Movable(s.queue.scheduled, ms, f[j])
      decreases |f| - scanned
    {
      var t := suggested.value;
      assert t in f && ms[t].Valid();
      if t.priority >= bound {
        return None, scanned;
      }
      var topOnCore := if t.activeCore >= 0 then Front(s.queue.scheduled, t.activeCore) else None;
      WhatItsCoreRuns(s, t);
      if topOnCore != suggested {
        if topOnCore.None? || topOnCore.value.priority >= HIGHEST_CORE_MIGRATION_ALLOWED_PRIORITY {
          return suggested, scanned;
        }
      }
      NextInFlatOf(g, Suggested, ms, core, scanned);
      suggested := Next(s.queue.suggested, core, t.priority, t);
      scanned := scanned + 1;
    }
    return None, scanned;
  }

  /** The suggestions are in order of priority, so none after the first that is not urgent enough is. */
  lemma NoneFound<M>(l: Lists<M>, g: Lists<M>, ms: map<M, Placement>, core: int, bound: int, scanned: nat)
    requires Matches(g, Suggested, ms) && scanned <= |Flat(g, core)|
    requires forall j {:trigger Flat(g, core)[j]} :: 0 <= j < scanned ==> !Movable(l, ms, Flat(g, core)[j])
    requires scanned < |Flat(g, core)| ==> Flat(g, core)[scanned] in ms && ms[Flat(g, core)[scanned]].priority >= bound
    ensures NoneBetter(l, g, ms, core, bound)
  {
    hide Movable, Matches;
    var f := Flat(g, core);
    forall t {:trigger t in f} | t in f && t in ms && ms[t].priority < bound ensures !Movable(l, ms, t) {
      var j :| 0 <= j < |f| && f[j] == t;
      if j >= scanned {
        FlatOrdered(g, Suggested, ms, core, 0, scanned, j);
      }
    }
  }

  function First<M>(s: seq<M>): Option<M> {
    if s == [] then None else Some(s[0])
  }

  /** Unless the rotation brought up another thread there is no limit. */
  lemma LimitIs(fifo: seq<KThread>)
    requires Distinct(fifo)
    ensures var top, next := First(fifo), First(Rotated(fifo));
            Limit(fifo) == if top != next && next.Some? then Some(next.value.lastScheduledTick) else None
  {
  }

  lemma FifoQueued(s: KScheduler, kind: Kind, core: int, priority: int)
    requires s.queue.Holds(Placements(s.threads))
    ensures var f := At(if kind == Scheduled then s.queue.scheduled else s.queue.suggested, core, priority);
            && Distinct(f)
            && forall t :: t in f ==>
                 && t in s.threads && t.rawState == RUNNABLE && t.priority == priority && t.Place().Valid()
                 && t.Place().In(kind, core, priority) && (kind == Suggested && 0 <= core ==> t.Place().(core := core).Valid())
  {
    var ms := Placements(s.threads);
    forall t | t in ms ensures ms[t].Valid() {
    }
  }

  lemma FrontInThreads(s: KScheduler, core: int)
    requires s.queue.Holds(Placements(s.threads))
    ensures Front(s.queue.scheduled, core).Some? ==> Front(s.queue.scheduled, core).value in s.threads
  {
    FrontQueued(s.queue.scheduled, Scheduled, Placements(s.threads), core);
  }

  lemma WithoutFront<M>(f: seq<M>, m: M)
    requires f == [] || f[0] != m
    ensures First(Without(f, m)) == First(f)
  {
  }

  lemma OtherFront<M>(l: Lists<M>, l': Lists<M>, ms: map<M, Placement>, m: M, into: int, c: int)
    requires Matches(l, Scheduled, ms) && m in ms && ms[m].core != into && c >= 0 && c != into && Front(l, c) != Some(m)
    requires Relocated(l, l', m, ms[m].priority, ms[m].core, into, true)
    ensures Front(l', c) == Front(l, c)
  {
    hide Front, Distinct, Without, FlatFrom;
    var p, a := ms[m].priority, ms[m].core;
    if c == a && p <= LOWEST_PRIORITY {
      FlatWithout(l, l', a, 0, p, m);
      WithoutFront(Flat(l, a), m);
    } else {
      FlatSame(l, l', c, 0);
    }
  }

  /** What a core runs is not affected by another thread leaving it. */
  lemma OtherFronts<M>(l: Lists<M>, g: Lists<M>, l': Lists<M>, ms: map<M, Placement>, m: M, into: int)
    requires Consistent(l, g, ms) && m in ms && ms[m].core != into
    requires ms[m].core >= 0 ==> Front(l, ms[m].core) != Some(m)
    requires Relocated(l, l', m, ms[m].priority, ms[m].core, into, true)
    ensures forall c :: c >= 0 && c != into ==> Front(l', c) == Front(l, c)
  {
    hide Front, Distinct, Without, Flat, Relocated;
    forall c | c >= 0 && c != into ensures Front(l', c) == Front(l, c) {
      FrontQueued(l, Scheduled, ms, c);
      OtherFront(l, l', ms, m, into, c);
    }
  }

  function Rotated<M>(f: seq<M>): seq<M> {
    if f == [] then [] else f[1..] + [f[0]]
  }

  /** Move the front of the FIFO to its end. */
  method RotateFront(s: KScheduler, core: int, priority: int) returns (top: Option<KThread>, next: Option<KThread>)
    requires s.queue.Holds(Placements(s.threads)) && 0 <= core < NUM_CORES && 0 <= priority <= LOWEST_PRIORITY + 1
    modifies s.queue`scheduled
    ensures s.queue.Holds(Placements(s.threads))
    ensures forall c, p :: At(s.queue.scheduled, c, p) ==
              if c == core && p == priority then Rotated(old(At(s.queue.scheduled, c, p))) else old(At(s.queue.scheduled, c, p))
    ensures forall c :: c != core ==> Front(s.queue.scheduled, c) == old(Front(s.queue.scheduled, c))
    ensures top == old(First(At(s.queue.scheduled, core, priority))) && next == First(At(s.queue.scheduled, core, priority))
  {
    FifoQueued(s, Scheduled, core, priority);
    ghost var f, l := At(s.queue.scheduled, core, priority), s.queue.scheduled;
    top, next := First(At(s.queue.scheduled, core, priority)), None;
    if top.Some? {
      next := s.queue.MoveToScheduledBack(top.value, top.value.Place(), Placements(s.threads));
      assert Without(f, f[0]) == f[1..];
    }
    forall c | c != core ensures Front(s.queue.scheduled, c) == Front(l, c) {
      FlatSame(l, s.queue.scheduled, c, 0);
    }
  }

  /** One migration of a rotation: `moved` joins the front of its FIFO on `core`. */
  ghost predicate Joins(l: Lists<KThread>, l': Lists<KThread>, moved: Option<KThread>, core: int)
    reads if moved.Some? then {moved.value} else {}
  {
    && (moved.None? ==> l' == l)
    && (moved.Some? ==>
          && (forall p ::
                At(l', core, p) == if p == moved.value.priority then [moved.value] + At(l, core, p) else At(l, core, p))
          && forall c :: 0 <= c && c != core ==> Front(l', c) == Front(l, c))
  }

  /** Bring a movable thread that is suggested for this core here. */
  method Pull(s: KScheduler, core: int, found: Option<KThread>)
    requires s.queue.Holds(Placements(s.threads)) && 0 <= core < NUM_CORES
    requires found.Some? ==>
               && found.value in s.threads && found.value.rawState == RUNNABLE && found.value.priority <= LOWEST_PRIORITY
               && found.value.activeCore != core && found.value.Place().(core := core).Valid()
               && !TopOf(s.queue.scheduled, Placements(s.threads), found.value)
    modifies s.queue`scheduled, s.queue`suggested, s.threads`activeCore
    ensures s.queue.Holds(Placements(s.threads)) && OnlyMoved(s, found, core)
    ensures Placements(s.threads) == Brought(old(Placements(s.threads)), found, core)
    ensures SuggestedAfter(old(s.queue.suggested), s.queue.suggested, old(Placements(s.threads)), found, core)
    ensures Joins(old(s.queue.scheduled), s.queue.scheduled, found, core)
  {
    hide Flat, Front, Consistent, Placement.In;
    if found.Some? {
      ghost var l, g, ms := s.queue.scheduled, s.queue.suggested, Placements(s.threads);
      Migrate(s, found.value, core, true);
      OtherFronts(l, g, s.queue.scheduled, ms, found.value, core);
    }
  }

  /** The first member of a queue that is not running now. */
  function Waiting<M(==)>(f: seq<M>, current: M): Option<M> {
    if f != [] && f[0] == current then First(f[1..]) else First(f)
  }

  /** Without a member that has joined a core, its flat queue is what it was before. */
  lemma JoinedFlat<M>(l: Lists<M>, g: Lists<M>, l': Lists<M>, ms: map<M, Placement>, m: M, core: int)
    requires Consistent(l, g, ms) && m in ms && ms[m].core != core && ms[m].priority <= LOWEST_PRIORITY
    requires forall p :: At(l', core, p) == if p == ms[m].priority then [m] + At(l, core, p) else At(l, core, p)
    ensures Without(Flat(l', core), m) == Flat(l, core)
  {
    forall p ensures At(l, core, p) == if p == ms[m].priority then Without(At(l', core, p), m) else At(l', core, p) {
    }
    forall p ensures m !in At(l, core, p) {
    }
    FlatWithout(l', l, core, 0, ms[m].priority, m);
  }

  /** The best thread of `core` that is not running now. */
  method BestWaiting(s: KScheduler, core: int, current: KThread) returns (best: Option<KThread>)
    requires s.queue.Holds(Placements(s.threads)) && 0 <= core < NUM_CORES
    ensures var f := Flat(s.queue.scheduled, core);
            best == Waiting(f, current)
  {
    best := Front(s.queue.scheduled, core);
    if best == Some(current) {
      FlatQueued(s.queue.scheduled, Scheduled, Placements(s.threads), core);
      FrontInThreads(s, core);
      assert Placements(s.threads)[current].Valid();
      NextInFlatOf(s.queue.scheduled, Scheduled, Placements(s.threads), core, 0);
      best := Next(s.queue.scheduled, core, current.priority, current);
    }
  }

  lemma BestInThreads(s: KScheduler, core: int, current: KThread)
    requires s.queue.Holds(Placements(s.threads))
    ensures var best := Waiting(Flat(s.queue.scheduled, core), current); best.Some? ==> best.value in s.threads && best.value.priority <= LOWEST_PRIORITY
  {
    var f := Flat(s.queue.scheduled, core);
    FlatQueued(s.queue.scheduled, Scheduled, Placements(s.threads), core);
    assert Waiting(f, current).Some? ==> Waiting(f, current).value in f;
  }

  /** Pull in a thread of the priority that is rotated: the one that is picked, if there is one. */
  method PullSamePriority(s: KScheduler, core: int, priority: int, top: Option<KThread>, next: Option<KThread>)
    returns (moved: Option<KThread>, ghost picked: nat)
    requires s.queue.Holds(Placements(s.threads)) && 0 <= core < NUM_CORES && 0 <= priority <= LOWEST_PRIORITY + 1
    modifies s.queue`scheduled, s.queue`suggested, s.threads`activeCore
    ensures s.queue.Holds(Placements(s.threads)) && OnlyMoved(s, moved, core)
    ensures Placements(s.threads) == Brought(old(Placements(s.threads)), moved, core)
    ensures SuggestedAfter(old(s.queue.suggested), s.queue.suggested, old(Placements(s.threads)), moved, core)
    ensures Joins(old(s.queue.scheduled), s.queue.scheduled, moved, core)
    ensures var limit := if top != next && next.Some? then Some(next.value.lastScheduledTick) else None;
            Chooses(old(s.queue.scheduled), old(Placements(s.threads)), old(At(s.queue.suggested, core, priority)), limit, moved, picked)
    ensures moved.Some? ==> moved.value in s.threads && moved.value.priority == priority && old(moved.value.activeCore) != core
  {
    hide Flat, Front, Consistent, Movable, TopOf, Chooses;
    ghost var limit := if top != next && next.Some? then Some(next.value.lastScheduledTick) else None;
    FifoQueued(s, Suggested, core, priority);
    moved, picked := FindSamePriority(s, core, priority, top, next);
    ScanPicks(s.queue.scheduled, Placements(s.threads), At(s.queue.suggested, core, priority), limit, moved, picked);
    Pull(s, core, moved);
  }

  lemma SuggestedMatch(s: KScheduler)
    requires s.queue.Holds(Placements(s.threads))
    ensures Matches(s.queue.suggested, Suggested, Placements(s.threads))
  {
  }

  /** Pull in a thread that is more urgent than the best one waiting here, if there is one that can be moved. */
  method PullMoreUrgent(s: KScheduler, core: int, bound: int) returns (moved: Option<KThread>)
    requires s.queue.Holds(Placements(s.threads)) && 0 <= core < NUM_CORES
    modifies s.queue`scheduled, s.queue`suggested, s.threads`activeCore
    ensures s.queue.Holds(Placements(s.threads)) && OnlyMoved(s, moved, core)
    ensures Placements(s.threads) == Brought(old(Placements(s.threads)), moved, core)
    ensures SuggestedAfter(old(s.queue.suggested), s.queue.suggested, old(Placements(s.threads)), moved, core)
    ensures Joins(old(s.queue.scheduled), s.queue.scheduled, moved, core)
    ensures moved.Some? ==> moved.value in old(Flat(s.queue.suggested, core)) && moved.value.priority < bound
    ensures moved.Some? ==>
              moved.value in s.threads && Movable(old(s.queue.scheduled), old(Placements(s.threads)), moved.value) && old(moved.value.activeCore) != core
    ensures BetterChoice(old(s.queue.scheduled), old(s.queue.suggested), old(Placements(s.threads)), core, bound, moved)
  {
    hide Flat, Front, Consistent, NoneBetter, Placement.In;
    ghost var scanned: nat;
    ghost var f, ms := Flat(s.queue.suggested, core), Placements(s.threads);
    SuggestedThreads(s, core);
    SuggestedMatch(s);
    moved, scanned := FindMoreUrgent(s, core, bound);
    if moved.Some? {
      ghost var t := moved.value;
      SuggestedThread(s.queue.scheduled, s.queue.suggested, ms, t, core);
      assert ms[t] == t.Place();
      assert FirstToMove(s.queue.scheduled, ms, f, scanned, t);
    } else {
      assert scanned < |f| ==> f[scanned] in f;
      NoneFound(s.queue.scheduled, s.queue.suggested, ms, core, bound, scanned);
    }
    Pull(s, core, moved);
  }

  /** The part of the scheduler's invariant that no migration touches. */
  ghost predicate Sound(s: KScheduler)
    reads s`highest, s.threads`basePriority
  {
    && |s.highest| == NUM_CORES
    && (forall c :: 0 <= c < NUM_CORES && s.highest[c].Some? ==> s.highest[c].value in s.threads)
    && forall t :: t in s.threads ==> 0 <= t.basePriority <= LOWEST_PRIORITY + 1
  }

  lemma ValidParts(s: KScheduler)
    ensures s.Valid() ==> s.queue.Holds(Placements(s.threads)) && Sound(s)
    ensures s.queue.Holds(Placements(s.threads)) && Sound(s) && s.updateNeeded ==> s.Valid()
  {
    hide Placements, KPriorityQueue.Holds;
  }

  /** The choice does not depend on what happens to the core that the thread is to be brought to. */
  lemma SameChoice(l: Lists<KThread>, l': Lists<KThread>, ms: map<KThread, Placement>, f: seq<KThread>,
                   limit: Option<int>, core: int, moved: Option<KThread>, picked: nat)
    requires forall c :: c >= 0 && c != core ==> Front(l', c) == Front(l, c)
    requires forall t :: t in f && t in ms ==> ms[t].core != core
    requires Chooses(l', ms, f, limit, moved, picked)
    ensures Chooses(l, ms, f, limit, moved, picked)
  {
    hide Front;
    forall i | 0 <= i < |f| ensures (Movable(l, ms, f[i]) <==> Movable(l', ms, f[i])) && (TopOf(l, ms, f[i]) <==> TopOf(l', ms, f[i])) {
      assert f[i] in f;
    }
    SamePicks(l, l', ms, f, limit);
  }

  lemma SamePicks(l: Lists<KThread>, l': Lists<KThread>, ms: map<KThread, Placement>, f: seq<KThread>, limit: Option<int>)
    requires forall i :: 0 <= i < |f| ==> (Movable(l, ms, f[i]) <==> Movable(l', ms, f[i])) && (TopOf(l, ms, f[i]) <==> TopOf(l', ms, f[i]))
    ensures forall j: nat :: Picked(l, ms, f, limit, j) <==> Picked(l', ms, f, limit, j)
  {
    hide Movable, TopOf;
  }

  lemma SuggestedElsewhere(s: KScheduler, core: int, priority: int)
    requires s.queue.Holds(Placements(s.threads))
    ensures forall t :: t in At(s.queue.suggested, core, priority) ==> t in s.threads && Placements(s.threads)[t].core != core
  {
    FifoQueued(s, Suggested, core, priority);
  }

  /** What can be moved after `moved` was brought to `core` could be moved before. */
  lemma MovableBefore<M>(l: Lists<M>, l': Lists<M>, ms: map<M, Placement>, moved: Option<M>, core: int, t: M)
    requires forall c :: c >= 0 && c != core ==> Front(l', c) == Front(l, c)
    requires Movable(l', Brought(ms, moved, core), t) && Brought(ms, moved, core)[t].core != core
    ensures Movable(l, ms, t)
  {
    hide Front;
  }

  /** The FIFO has been rotated, and `moved` joined it in front. */
  ghost predicate AfterRotation<M>(l: Lists<M>, l': Lists<M>, moved: Option<M>, core: int, priority: int) {
    && At(l', core, priority) == (if moved.Some? then [moved.value] else []) + Rotated(At(l, core, priority))
    && (forall c :: c >= 0 && c != core ==> Front(l', c) == Front(l, c))
    && (moved.None? ==> forall c, p :: At(l', c, p) == if c == core && p == priority then Rotated(At(l, c, p)) else At(l, c, p))
  }

  lemma FrontsStay<M>(l: Lists<M>, l': Lists<M>, moved: Option<M>, core: int, priority: int)
    requires AfterRotation(l, l', moved, core, priority)
    ensures forall c :: c >= 0 && c != core ==> Front(l', c) == Front(l, c)
  {
  }

  lemma RotationAndOne(l: Lists<KThread>, l': Lists<KThread>, l'': Lists<KThread>, first: Option<KThread>, second: Option<KThread>, core: int, priority: int)
    requires AfterRotation(l, l', first, core, priority) && Joins(l', l'', second, core)
    ensures forall c :: c >= 0 && c != core ==> Front(l'', c) == Front(l, c)
    ensures At(l'', core, priority) ==
              (if second.Some? && second.value.priority == priority then [second.value] else [])
              + ((if first.Some? then [first.value] else []) + Rotated(At(l, core, priority)))
    ensures second.None? ==> l'' == l'
  {
    hide Front, Rotated;
  }

  /** Let the next thread of the same priority, or one that is suggested for this core, come first. */
  method RotateAndPull(s: KScheduler, core: int, priority: int) returns (ghost moved: Option<KThread>, ghost picked: nat)
    requires s.queue.Holds(Placements(s.threads)) && 0 <= core < NUM_CORES && 0 <= priority <= LOWEST_PRIORITY + 1
    modifies s.queue`scheduled, s.queue`suggested, s.threads`activeCore
    ensures s.queue.Holds(Placements(s.threads)) && OnlyMoved(s, moved, core)
    ensures Placements(s.threads) == Brought(old(Placements(s.threads)), moved, core)
    ensures SuggestedAfter(old(s.queue.suggested), s.queue.suggested, old(Placements(s.threads)), moved, core)
    // The picked thread is pulled in, if there is one.
    ensures Chooses(old(s.queue.scheduled), old(Placements(s.threads)), old(At(s.queue.suggested, core, priority)),
                    Limit(old(At(s.queue.scheduled, core, priority))), moved, picked)
    ensures moved.Some? ==> moved.value in s.threads && moved.value.priority == priority && old(moved.value.activeCore) != core
    ensures AfterRotation(old(s.queue.scheduled), s.queue.scheduled, moved, core, priority)
  {
    hide Flat, Front, Consistent, Placement.In, Chooses, Movable;
    ghost var f, ms, l := At(s.queue.suggested, core, priority), Placements(s.threads), s.queue.scheduled;
    SuggestedElsewhere(s, core, priority);
    ghost var fifo := At(s.queue.scheduled, core, priority);
    FifoQueued(s, Scheduled, core, priority);
    LimitIs(fifo);
    var top, next := RotateFront(s, core, priority);
    ghost var rotated := s.queue.scheduled;
    moved, picked := PullSamePriority(s, core, priority, top, next);
    SameChoice(l, rotated, ms, f, Limit(fifo), core, moved, picked);
  }

  /** Bring in a more urgent thread, if one can be moved, unless the best one waiting here is more urgent than `priority`. */
  method PullBetter(s: KScheduler, core: int, priority: int, current: KThread) returns (ghost moved: Option<KThread>)
    requires s.queue.Holds(Placements(s.threads)) && 0 <= core < NUM_CORES
    modifies s.queue`scheduled, s.queue`suggested, s.threads`activeCore
    ensures s.queue.Holds(Placements(s.threads)) && OnlyMoved(s, moved, core)
    ensures Placements(s.threads) == Brought(old(Placements(s.threads)), moved, core)
    ensures SuggestedAfter(old(s.queue.suggested), s.queue.suggested, old(Placements(s.threads)), moved, core)
    ensures Joins(old(s.queue.scheduled), s.queue.scheduled, moved, core)
    ensures moved.Some? ==>
              moved.value in s.threads && Movable(old(s.queue.scheduled), old(Placements(s.threads)), moved.value)
              && old(Placements(s.threads))[moved.value].core == old(moved.value.activeCore) != core
    ensures moved.Some? ==> moved.value in old(Flat(s.queue.suggested, core))
    // It is more urgent than the best thread waiting here, which is what waits here besides it afterwards.
    ensures moved.Some? ==>
              var best := old(Waiting(Flat(s.queue.scheduled, core), current));
              && best.Some? && best.value in s.threads && best == Waiting(Without(Flat(s.queue.scheduled, core), moved.value), current)
              && moved.value.priority < best.value.priority && priority <= best.value.priority
    ensures var best := old(Waiting(Flat(s.queue.scheduled, core), current));
            if best.Some? && priority <= best.value.priority then
              BetterChoice(old(s.queue.scheduled), old(s.queue.suggested), old(Placements(s.threads)), core, best.value.priority, moved)
            else moved.None?
  {
    hide Flat, Front, Consistent, Placement.In, Without, Movable, BetterChoice;
    ghost var l, g, ms := s.queue.scheduled, s.queue.suggested, Placements(s.threads);
    moved := None;
    var best := BestWaiting(s, core, current);
    if best.Some? && best.value.priority >= priority {
      BestInThreads(s, core, current);
      moved := PullMoreUrgent(s, core, best.value.priority);
      if moved.Some? {
        JoinedFlat(l, g, s.queue.scheduled, ms, moved.value, core);
      }
    }
  }

  method SetSchedulerUpdateNeeded(s: KScheduler)
    requires s.queue.Holds(Placements(s.threads)) && Sound(s)
    modifies s`updateNeeded
    ensures s.Valid() && s.updateNeeded && Placements(s.threads) == old(Placements(s.threads))
  {
    hide KPriorityQueue.Holds, Sound, KScheduler.Valid;
    s.updateNeeded := true;
    ValidParts(s);
  }

  /** Give way to the next thread of the same priority on a core, and perhaps pull in threads that
      are suggested for it: `first` of that priority, `second` of a more urgent one. */
  method RotateScheduledQueue(s: KScheduler, core: int, priority: int, current: KThread)
    returns (ghost first: Option<KThread>, ghost second: Option<KThread>, ghost picked: nat, ghost between: Queues<KThread>)
    requires s.Valid() && 0 <= core < NUM_CORES && 0 <= priority <= LOWEST_PRIORITY + 1
    modifies s`updateNeeded, s.queue`scheduled, s.queue`suggested, s.threads`activeCore
    ensures s.Valid() && s.updateNeeded
    ensures forall t {:trigger t.activeCore} :: t in s.threads && t.activeCore != old(t.activeCore) ==>
              t.activeCore == core && Movable(old(s.queue.scheduled), old(Placements(s.threads)), t) && (first == Some(t) || second == Some(t))
    // The first suggestion of the priority that can be moved is pulled in, unless the new front has waited longer.
    ensures Chooses(old(s.queue.scheduled), old(Placements(s.threads)), old(At(s.queue.suggested, core, priority)),
                    Limit(old(At(s.queue.scheduled, core, priority))), first, picked)
    ensures WaitedLongest(old(s.queue.scheduled), old(Placements(s.threads)), old(At(s.queue.suggested, core, priority)),
                          old(At(s.queue.scheduled, core, priority)), first)
    ensures first.Some? ==> first.value.priority == priority
    ensures second.Some? ==>
              var best := Waiting(Without(Flat(s.queue.scheduled, core), second.value), current);
              best.Some? && second.value.priority < best.value.priority && priority <= best.value.priority
    // In between the FIFO has been rotated and `first` has joined it. Then `second` is the first one that can be moved of
    // those that are better than what waits here; if nobody is pulled in, none of them can be.
    ensures AfterRotation(old(s.queue.scheduled), between.scheduled, first, core, priority)
    ensures SuggestedAfter(old(s.queue.suggested), between.suggested, old(Placements(s.threads)), first, core)
    ensures between.placed == Brought(old(Placements(s.threads)), first, core)
    ensures var best := Waiting(Flat(between.scheduled, core), current);
            if best.Some? && priority <= best.value.priority then
              BetterChoice(between.scheduled, between.suggested, between.placed, core, best.value.priority, second)
            else second.None?
    ensures Joins(between.scheduled, s.queue.scheduled, second, core)
    ensures SuggestedAfter(between.suggested, s.queue.suggested, between.placed, second, core)
    ensures Placements(s.threads) == Brought(between.placed, second, core)
    ensures forall c :: c >= 0 && c != core ==> Front(s.queue.scheduled, c) == old(Front(s.queue.scheduled, c))
    ensures At(s.queue.scheduled, core, priority) ==
              (if second.Some? && second.value.priority == priority then [second.value] else [])
              + ((if first.Some? then [first.value] else []) + Rotated(old(At(s.queue.scheduled, core, priority))))
  {
    hide Flat, Front, Consistent, Placement.In, KScheduler.Valid, Sound, Without, Waiting, Chooses, BetterChoice, SuggestedAfter, Movable,
         WaitedLongest, Limit, Brought, Placements, Rotated, Joins, AfterRotation, KPriorityQueue.Holds;
    ValidParts(s);
    ghost var l, ms := s.queue.scheduled, Placements(s.threads);
    ghost var f, fifo := At(s.queue.suggested, core, priority), At(s.queue.scheduled, core, priority);
    first, picked := RotateAndPull(s, core, priority);
    between := State(s);
    BestInThreads(s, core, current);
    ChosenMovable(l, ms, f, Limit(fifo), first, picked);
    LongestWaiting(l, ms, f, fifo, first, picked);
    second := PullBetter(s, core, priority, current);
    if second.Some? {
      FrontsStay(l, between.scheduled, first, core, priority);
      MovableBefore(l, between.scheduled, ms, first, core, second.value);
    }
    RotationAndOne(l, between.scheduled, s.queue.scheduled, first, second, core, priority);
    BestInThreads(s, core, current);
    SetSchedulerUpdateNeeded(s);
  }

  lemma ChosenMovable(l: Lists<KThread>, ms: map<KThread, Placement>, f: seq<KThread>, limit: Option<int>, moved: Option<KThread>, picked: nat)
    requires Chooses(l, ms, f, limit, moved, picked)
    ensures moved.Some? ==> Movable(l, ms, moved.value)
  {
  }
}
