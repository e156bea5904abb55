/** The kernel's thread queue: for every core and priority, a FIFO of the threads that run there
    ("scheduled") and a FIFO of the threads that could be moved there ("suggested"). */
module PriorityQueues {
  import opened Options

  const NUM_CORES: int := 4
  const LOWEST_PRIORITY: int := 63

  /** One FIFO per (core, priority); an absent key is an empty FIFO. */
  type Lists<M> = map<(int, int), seq<M>>

  function At<M>(l: Lists<M>, core: int, priority: int): seq<M> {
    if (core, priority) in l then l[(core, priority)] else []
  }

  datatype Kind = Scheduled | Suggested

  /** Everything about a member that decides which FIFOs hold it. */
  datatype Placement = Placement(runnable: bool, core: int, priority: int, affinity: set<int>) {
    predicate Valid() {
      && 0 <= priority <= LOWEST_PRIORITY + 1
      && (forall c :: c in affinity ==> 0 <= c < NUM_CORES)
      && -1 <= core < NUM_CORES
      && (core >= 0 ==> core in affinity)
    }

    /** Does this placement belong in the FIFO of core `c` and priority `p`? */
    predicate In(kind: Kind, c: int, p: int) {
      && runnable
      && p == priority <= LOWEST_PRIORITY
      && match kind
         case Scheduled => 0 <= c && c == core
         case Suggested => c in affinity && c != core
    }
  }

  ghost predicate Distinct<M>(s: seq<M>) {
    forall i, j :: 0 <= i < j < |s| ==> s[i] != s[j]
  }

  /** `s` with its occurrence of `m` taken out; the order of the others is kept. */
  function Without<M(==)>(s: seq<M>, m: M): (r: seq<M>)
    ensures Distinct(s) ==> Distinct(r)
    ensures forall x :: x in r ==> x in s
    ensures forall x :: x in s && x != m ==> x in r
    ensures Distinct(s) ==> m !in r
    ensures |r| == if m in s then |s| - 1 else |s|
  {
    if s == [] then []
    else if s[0] == m then s[1..]
    else
      var w := Without(s[1..], m);
      assert Distinct(s) ==> s[0] !in s[1..];
      [s[0]] + w
  }

  lemma {:induction false} WithoutSplit<M>(a: seq<M>, m: M, b: seq<M>)
    requires m !in a
    ensures Without(a + [m] + b, m) == a + b
  {
    var s := a + [m] + b;
    if a == [] {
      assert s == [m] + b && s[1..] == b && a + b == b;
    } else {
      var tail := a[1..] + [m] + b;
      assert s == [a[0]] + tail;
      assert s[1..] == tail && s[0] == a[0];
      WithoutSplit(a[1..], m, b);
      assert [a[0]] + (a[1..] + b) == a + b;
    }
  }

  /** One kind of queue agrees with the placements: every FIFO is free of duplicates and holds
      exactly the members whose placement puts them there. */
  ghost predicate Matches<M>(l: Lists<M>, kind: Kind, ms: map<M, Placement>) {
    && (forall c, p {:trigger Distinct(At(l, c, p))} :: Distinct(At(l, c, p)))
    && (forall c, p, m {:trigger m in At(l, c, p)} :: m in At(l, c, p) ==> m in ms && ms[m].In(kind, c, p))
    && (forall c, p, m {:trigger ms[m].In(kind, c, p)} :: m in ms && ms[m].In(kind, c, p) ==> m in At(l, c, p))
  }

  ghost predicate Consistent<M>(l: Lists<M>, g: Lists<M>, ms: map<M, Placement>) {
    && (forall m {:trigger ms[m].Valid()} :: m in ms ==> ms[m].Valid())
    && Matches(l, Scheduled, ms)
    && Matches(g, Suggested, ms)
  }

  /** `l'` is `l` with `m` taken out of the FIFOs that `pl` names. */
  ghost predicate TakenOut<M>(l: Lists<M>, l': Lists<M>, kind: Kind, m: M, pl: Placement) {
    forall c, p :: At(l', c, p) == if pl.In(kind, c, p) then Without(At(l, c, p), m) else At(l, c, p)
  }

  /** `l'` is `l` with `m` put in front of, or behind, the FIFOs that `pl` names. */
  ghost predicate Put<M>(l: Lists<M>, l': Lists<M>, kind: Kind, m: M, pl: Placement, front: bool) {
    forall c, p :: At(l', c, p) == if pl.In(kind, c, p) then Joined(At(l, c, p), m, front) else At(l, c, p)
  }

  /** `m` has left the FIFOs it was in and gone, as `pl` says, in front of those that wait there, or behind them. */
  ghost predicate ChangedPlace<M>(l: Lists<M>, l': Lists<M>, kind: Kind, m: M, pl: Placement, front: bool) {
    forall c, p {:trigger At(l', c, p)} ::
      var rest := Without(At(l, c, p), m);
      At(l', c, p) == if !pl.In(kind, c, p) then rest else if front then [m] + rest else rest + [m]
  }

  /** `m` has gone behind those that wait where `pl` says. */
  ghost predicate Arrived<M>(l: Lists<M>, l': Lists<M>, kind: Kind, m: M, pl: Placement) {
    forall c, p {:trigger At(l', c, p)} :: At(l', c, p) == if pl.In(kind, c, p) then At(l, c, p) + [m] else At(l, c, p)
  }

  lemma {:induction false} WithoutAbsent<M>(s: seq<M>, m: M)
    requires m !in s
    ensures Without(s, m) == s
  {
    if s != [] {
      WithoutAbsent(s[1..], m);
    }
  }

  lemma PlaceChanged<M>(l: Lists<M>, l1: Lists<M>, l': Lists<M>, kind: Kind, m: M, pl: Placement, front: bool, ms: map<M, Placement>)
    requires Matches(l, kind, ms) && m in ms && TakenOut(l, l1, kind, m, ms[m]) && Put(l1, l', kind, m, pl, front)
    ensures ChangedPlace(l, l', kind, m, pl, front)
  {
    hide Without;
    forall c, p {:trigger At(l', c, p)}
      ensures At(l1, c, p) == Without(At(l, c, p), m)
    {
      if !ms[m].In(kind, c, p) {
        WithoutAbsent(At(l, c, p), m);
      }
    }
  }

  function Joined<M>(s: seq<M>, m: M, front: bool): (r: seq<M>)
    ensures m in r && forall x :: x in s ==> x in r
    ensures forall x :: x in r ==> x == m || x in s
    ensures Distinct(s) && m !in s ==> Distinct(r)
  {
    if front then [m] + s else s + [m]
  }

  lemma TakenOutMatches<M>(l: Lists<M>, l': Lists<M>, kind: Kind, m: M, ms: map<M, Placement>)
    requires Matches(l, kind, ms) && m in ms && TakenOut(l, l', kind, m, ms[m])
    ensures Matches(l', kind, ms[m := ms[m].(runnable := false)])
  {
    forall c, p ensures Distinct(At(l', c, p)) {
    }
  }

  lemma PutMatches<M>(l: Lists<M>, l': Lists<M>, kind: Kind, m: M, pl: Placement, front: bool, ms: map<M, Placement>)
    requires Matches(l, kind, ms) && (m in ms ==> !ms[m].runnable)
    requires Put(l, l', kind, m, pl, front)
    ensures Matches(l', kind, ms[m := pl])
  {
    forall c, p
      ensures m !in At(l, c, p) && Distinct(At(l', c, p))
    {
    }
    var ms' := ms[m := pl];
    forall c, p, x | x in At(l', c, p)
      ensures x in ms' && ms'[x].In(kind, c, p)
    {
      assert x == m || x in At(l, c, p);
    }
    forall c, p, x | x in ms' && ms'[x].In(kind, c, p)
      ensures x in At(l', c, p)
    {
      assert x == m || x in At(l, c, p);
    }
  }

  /** Members that are not queued do not matter. */
  lemma IdleMatches<M>(l: Lists<M>, kind: Kind, m: M, pl: Placement, ms: map<M, Placement>)
    requires Matches(l, kind, ms) && m in ms && !ms[m].runnable && !pl.runnable
    ensures Matches(l, kind, ms[m := pl])
  {
    var ms' := ms[m := pl];
    assert forall c, p, x :: x in ms' && ms'[x].In(kind, c, p) ==> x in ms && ms[x].In(kind, c, p);
  }

  /** `l'` is `l` with `m`, of priority `p`, taken out of the FIFO of core `out` and put into that of core `into`. */
  ghost predicate Relocated<M>(l: Lists<M>, l': Lists<M>, m: M, p: int, out: int, into: int, front: bool) {
    forall c, q :: At(l', c, q) ==
      if q != p || q > LOWEST_PRIORITY || c < 0 then At(l, c, q)
      else if c == out then Without(At(l, c, q), m)
      else if c == into then Joined(At(l, c, q), m, front)
      else At(l, c, q)
  }

  lemma RelocatedMatches<M>(l: Lists<M>, l': Lists<M>, kind: Kind, m: M, core: int, front: bool, ms: map<M, Placement>)
    requires Matches(l, kind, ms) && m in ms && ms[m].Valid() && ms[m].runnable && core != ms[m].core
    requires ms[m].(core := core).Valid()
    requires kind == Scheduled ==> Relocated(l, l', m, ms[m].priority, ms[m].core, core, front)
    requires kind == Suggested ==> Relocated(l, l', m, ms[m].priority, core, ms[m].core, front)
    ensures Matches(l', kind, ms[m := ms[m].(core := core)])
  {
    var ms' := ms[m := ms[m].(core := core)];
    forall c, p
      ensures Distinct(At(l', c, p))
    {
      assert m in At(l, c, p) <==> ms[m].In(kind, c, p);
    }
    forall c, p, x | x in At(l', c, p)
      ensures x in ms' && ms'[x].In(kind, c, p)
    {
      assert x in At(l, c, p) || x == m;
      assert m in At(l, c, p) <==> ms[m].In(kind, c, p);
    }
    forall c, p, x | x in ms' && ms'[x].In(kind, c, p)
      ensures x in At(l', c, p)
    {
      assert x in At(l, c, p) <==> ms[x].In(kind, c, p);
    }
  }

  lemma ReorderedMatches<M>(l: Lists<M>, l': Lists<M>, m: M, ms: map<M, Placement>)
    requires Matches(l, Scheduled, ms) && m in ms && ms[m].runnable && ms[m].core >= 0 && ms[m].priority <= LOWEST_PRIORITY
    requires forall c, p :: At(l', c, p) ==
               if c == ms[m].core && p == ms[m].priority then Without(At(l, c, p), m) + [m] else At(l, c, p)
    ensures Matches(l', Scheduled, ms)
  {
    assert ms[m].In(Scheduled, ms[m].core, ms[m].priority);
    forall c, p
      ensures Distinct(At(l', c, p)) && forall x :: x in At(l', c, p) <==> x in At(l, c, p)
    {
      assert Distinct(At(l, c, p));
    }
  }

  function PushedBack<M>(l: Lists<M>, core: int, priority: int, m: M): Lists<M> {
    if priority <= LOWEST_PRIORITY then l[(core, priority) := At(l, core, priority) + [m]] else l
  }

  function PushedFront<M>(l: Lists<M>, core: int, priority: int, m: M): Lists<M> {
    if priority <= LOWEST_PRIORITY then l[(core, priority) := [m] + At(l, core, priority)] else l
  }

  function Removed<M(==)>(l: Lists<M>, core: int, priority: int, m: M): Lists<M> {
    if priority <= LOWEST_PRIORITY then l[(core, priority) := Without(At(l, core, priority), m)] else l
  }

  lemma RelocatedBy<M>(l: Lists<M>, m: M, p: int, out: int, into: int, front: bool)
    requires out != into
    ensures var l1 := if out >= 0 then Removed(l, out, p, m) else l;
            Relocated(l, if into < 0 then l1 else if front then PushedFront(l1, into, p, m) else PushedBack(l1, into, p, m),
                      m, p, out, into, front)
  {
    hide Without;
  }

  /** All members queued for a core from priority `p` down: highest priority first, FIFO within one. */
  function FlatFrom<M>(l: Lists<M>, core: int, p: int): seq<M>
    decreases LOWEST_PRIORITY - p
  {
    if p > LOWEST_PRIORITY then [] else At(l, core, p) + FlatFrom(l, core, p + 1)
  }

  function Flat<M>(l: Lists<M>, core: int): seq<M> {
    FlatFrom(l, core, 0)
  }

  /** The front of the first non-empty FIFO from priority `p` down. */
  function FrontFrom<M>(l: Lists<M>, core: int, p: int): (r: Option<M>)
    ensures r == if FlatFrom(l, core, p) == [] then None else Some(FlatFrom(l, core, p)[0])
    decreases LOWEST_PRIORITY - p
  {
    if p > LOWEST_PRIORITY then None
    else if At(l, core, p) != [] then Some(At(l, core, p)[0])
    else FrontFrom(l, core, p + 1)
  }

  function Front<M>(l: Lists<M>, core: int): (r: Option<M>)
    ensures r == if Flat(l, core) == [] then None else Some(Flat(l, core)[0])
  {
    FrontFrom(l, core, 0)
  }

  class KPriorityQueue<M(==)> {
    var scheduled: Lists<M>
    var suggested: Lists<M>

    /** The queues are those of a set of members with the given placements. */
    ghost predicate Holds(ms: map<M, Placement>)
      reads this
    {
      Consistent(scheduled, suggested, ms)
    }

    constructor ()
      ensures scheduled == map[] && suggested == map[]
    {
      scheduled, suggested := map[], map[];
    }

    /** Append `m` to the scheduled FIFO of its core, and to the suggested FIFO of every other core
        it may run on. */
    method PushBack(m: M, pl: Placement)
      requires pl.Valid() && pl.runnable
      modifies `scheduled, `suggested
      ensures Put(old(scheduled), scheduled, Scheduled, m, pl, false)
      ensures Put(old(suggested), suggested, Suggested, m, pl, false)
    {
      var affinity := pl.affinity;
      if pl.core >= 0 {
        scheduled := PushedBack(scheduled, pl.core, pl.priority, m);
        affinity := affinity - {pl.core};
      }
      Suggest(m, pl, affinity);
    }

    /** Like PushBack, but in front of the scheduled FIFO. */
    method PushFront(m: M, pl: Placement)
      requires pl.Valid() && pl.runnable
      modifies `scheduled, `suggested
      ensures Put(old(scheduled), scheduled, Scheduled, m, pl, true)
      ensures Put(old(suggested), suggested, Suggested, m, pl, false)
    {
      var affinity := pl.affinity;
      if pl.core >= 0 {
        scheduled := PushedFront(scheduled, pl.core, pl.priority, m);
        affinity := affinity - {pl.core};
      }
      Suggest(m, pl, affinity);
    }

    method Suggest(m: M, pl: Placement, affinity: set<int>)
      requires pl.Valid() && pl.runnable && affinity == pl.affinity - {pl.core}
      modifies `suggested
      ensures Put(old(suggested), suggested, Suggested, m, pl, false)
    {
      for core := 0 to NUM_CORES
        invariant forall c, p :: c < core && pl.In(Suggested, c, p) ==> At(suggested, c, p) == old(At(suggested, c, p)) + [m]
        invariant forall c, p :: !(c < core && pl.In(Suggested, c, p)) ==> At(suggested, c, p) == old(At(suggested, c, p))
      {
        if core in affinity {
          suggested := PushedBack(suggested, core, pl.priority, m);
        }
      }
    }

    method Remove(m: M, pl: Placement)
      requires pl.Valid() && pl.runnable
      modifies `scheduled, `suggested
      ensures TakenOut(old(scheduled), scheduled, Scheduled, m, pl)
      ensures TakenOut(old(suggested), suggested, Suggested, m, pl)
    {
      var affinity := pl.affinity;
      if pl.core >= 0 {
        scheduled := Removed(scheduled, pl.core, pl.priority, m);
        affinity := affinity - {pl.core};
      }
      Unsuggest(m, pl, affinity);
    }

    method Unsuggest(m: M, pl: Placement, affinity: set<int>)
      requires pl.Valid() && pl.runnable && affinity == pl.affinity - {pl.core}
      modifies `suggested
      ensures TakenOut(old(suggested), suggested, Suggested, m, pl)
    {
      ghost var was := suggested;
      for core := 0 to NUM_CORES
        invariant forall c, p :: c < core && pl.In(Suggested, c, p) ==> At(suggested, c, p) == Without(At(was, c, p), m)
        invariant forall c, p :: !(c < core && pl.In(Suggested, c, p)) ==> At(suggested, c, p) == At(was, c, p)
      {
        ghost var before := suggested;
        if core in affinity {
          suggested := Removed(suggested, core, pl.priority, m);
        }
        assert forall c, p :: c != core ==> At(suggested, c, p) == At(before, c, p);
        assert forall p :: At(suggested, core, p) == if pl.In(Suggested, core, p) then Without(At(before, core, p), m) else At(before, core, p);
      }
    }

    /** `m` became runnable. */
    method Add(m: M, pl: Placement, ghost ms: map<M, Placement>)
      requires pl.Valid() && pl.runnable && (m in ms ==> !ms[m].runnable) && Holds(ms)
      modifies `scheduled, `suggested
      ensures Holds(ms[m := pl])
      ensures Arrived(old(scheduled), scheduled, Scheduled, m, pl) && Arrived(old(suggested), suggested, Suggested, m, pl)
    {
      ghost var s, g := scheduled, suggested;
      PushBack(m, pl);
      PutMatches(s, scheduled, Scheduled, m, pl, false, ms);
      PutMatches(g, suggested, Suggested, m, pl, false, ms);
    }

    /** `m` is no longer runnable. */
    method Drop(m: M, pl: Placement, ghost ms: map<M, Placement>)
      requires m in ms && ms[m] == pl && pl.runnable && Holds(ms)
      modifies `scheduled, `suggested
      ensures Holds(ms[m := pl.(runnable := false)])
      ensures TakenOut(old(scheduled), scheduled, Scheduled, m, pl) && TakenOut(old(suggested), suggested, Suggested, m, pl)
    {
      ghost var s, g := scheduled, suggested;
      Remove(m, pl);
      TakenOutMatches(s, scheduled, Scheduled, m, ms);
      TakenOutMatches(g, suggested, Suggested, m, ms);
    }

    /** The priority of `m` went from that of `was` to that of `pl`; a running thread goes to the front. */
    method ChangePriority(m: M, was: Placement, pl: Placement, running: bool, ghost ms: map<M, Placement>)
      requires was.Valid() && pl.Valid() && pl.runnable && was == pl.(priority := was.priority)
      requires m in ms && ms[m] == was && Holds(ms)
      modifies `scheduled, `suggested
      ensures Holds(ms[m := pl])
      ensures ChangedPlace(old(scheduled), scheduled, Scheduled, m, pl, running)
      ensures ChangedPlace(old(suggested), suggested, Suggested, m, pl, false)
    {
      hide Without, ChangedPlace;
      Remove(m, was);
      ghost var out := ms[m := was.(runnable := false)];
      ghost var s, g := scheduled, suggested;
      TakenOutMatches(old(scheduled), s, Scheduled, m, ms);
      TakenOutMatches(old(suggested), g, Suggested, m, ms);
      if running {
        PushFront(m, pl);
      } else {
        PushBack(m, pl);
      }
      PutMatches(s, scheduled, Scheduled, m, pl, running, out);
      PutMatches(g, suggested, Suggested, m, pl, false, out);
      assert out[m := pl] == ms[m := pl];
      PlaceChanged(old(scheduled), s, scheduled, Scheduled, m, pl, running, ms);
      PlaceChanged(old(suggested), g, suggested, Suggested, m, pl, false, ms);
    }

    /** The active core of `m` went from that of `was` to `core`. */
    method ChangeCore(m: M, was: Placement, core: int, toFront: bool, ghost ms: map<M, Placement>)
      requires was.runnable && was.(core := core).Valid() && m in ms && ms[m] == was && Holds(ms)
      modifies `scheduled, `suggested
      ensures Holds(ms[m := was.(core := core)])
      ensures was.core == core ==> scheduled == old(scheduled) && suggested == old(suggested)
      ensures was.core != core ==> Relocated(old(scheduled), scheduled, m, was.priority, was.core, core, toFront)
      ensures was.core != core ==> Relocated(old(suggested), suggested, m, was.priority, core, was.core, false)
    {
      if was.core == core {
        assert ms[m := was.(core := core)] == ms;
        return;
      }
      assert ms[m].Valid();
      Relocate(m, was, core, toFront);
      RelocatedMatches(old(scheduled), scheduled, Scheduled, m, core, toFront, ms);
      RelocatedMatches(old(suggested), suggested, Suggested, m, core, false, ms);
    }

    method Relocate(m: M, was: Placement, core: int, toFront: bool)
      requires was.Valid() && was.(core := core).Valid() && was.core != core
      modifies `scheduled, `suggested
      ensures Relocated(old(scheduled), scheduled, m, was.priority, was.core, core, toFront)
      ensures Relocated(old(suggested), suggested, m, was.priority, core, was.core, false)
    {
      hide Removed, PushedBack, PushedFront, Relocated;
      RelocatedBy(scheduled, m, was.priority, was.core, core, toFront);
      RelocatedBy(suggested, m, was.priority, core, was.core, false);
      if was.core >= 0 {
        scheduled := Removed(scheduled, was.core, was.priority, m);
      }
      if core >= 0 {
        suggested := Removed(suggested, core, was.priority, m);
        scheduled := if toFront then PushedFront(scheduled, core, was.priority, m) else PushedBack(scheduled, core, was.priority, m);
      }
      if was.core >= 0 {
        suggested := PushedBack(suggested, was.core, was.priority, m);
      }
    }

    /** Put a queued member behind the others of its scheduled FIFO; `front` is the new front. */
    method MoveToScheduledBack(m: M, pl: Placement, ghost ms: map<M, Placement>) returns (front: Option<M>)
      requires m in ms && ms[m] == pl && pl.runnable && pl.core >= 0 && pl.priority <= LOWEST_PRIORITY && Holds(ms)
      modifies `scheduled
      ensures Holds(ms)
      ensures scheduled == old(scheduled)[(pl.core, pl.priority) := Without(old(At(scheduled, pl.core, pl.priority)), m) + [m]]
      ensures front == Some(At(scheduled, pl.core, pl.priority)[0])
    {
      ghost var was := scheduled;
      scheduled := Removed(scheduled, pl.core, pl.priority, m);
      scheduled := PushedBack(scheduled, pl.core, pl.priority, m);
      ReorderedMatches(was, scheduled, m, ms);
      front := Some(At(scheduled, pl.core, pl.priority)[0]);
    }
  }
}
