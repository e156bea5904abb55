/** The linked lists behind one FIFO of the thread queue. Every thread has one entry per core, which
    serves whichever of that core's lists the thread is in. */
module IntrusiveQueues {
  import opened Options
  import opened PriorityQueues

  datatype Entry<+M> = Entry(prev: Option<M>, next: Option<M>)

  /** The entries that the threads have for one core. */
  type Entries<M> = map<M, Entry<M>>

  /** The root and the entries of the members of `s` are linked up in the order of `s`. */
  ghost predicate Linked<M>(root: Entry<M>, e: Entries<M>, s: seq<M>) {
    && Distinct(s) && (forall x :: x in s ==> x in e)
    && root == Entry(if s == [] then None else Some(s[|s| - 1]), if s == [] then None else Some(s[0]))
    && forall i {:trigger e[s[i]]} :: 0 <= i < |s| ==>
         e[s[i]] == Entry(if i == 0 then None else Some(s[i - 1]), if i == |s| - 1 then None else Some(s[i + 1]))
  }

  /** The entry of `m`; a thread that was never linked has empty links. */
  function Get<M(==)>(e: Entries<M>, m: M): Entry<M> {
    if m in e then e[m] else Entry(None, None)
  }

  function SetNext<M(==)>(root: Entry<M>, e: Entries<M>, at: Option<M>, next: Option<M>): (Entry<M>, Entries<M>) {
    if at.None? then (root.(next := next), e) else (root, e[at.value := Get(e, at.value).(next := next)])
  }

  function SetPrev<M(==)>(root: Entry<M>, e: Entries<M>, at: Option<M>, prev: Option<M>): (Entry<M>, Entries<M>) {
    if at.None? then (root.(prev := prev), e) else (root, e[at.value := Get(e, at.value).(prev := prev)])
  }

  /** Link a member behind the tail. */
  function LinkBack<M(==)>(root: Entry<M>, e: Entries<M>, m: M): (Entry<M>, Entries<M>) {
    var tail := root.prev;
    var (root1, e1) := SetNext(root, e[m := Entry(tail, None)], tail, Some(m));
    (root1.(prev := Some(m)), e1)
  }

  /** Link a member in front of the head. */
  function LinkFront<M(==)>(root: Entry<M>, e: Entries<M>, m: M): (Entry<M>, Entries<M>) {
    var head := root.next;
    var (root1, e1) := SetPrev(root, e[m := Entry(None, head)], head, Some(m));
    (root1.(next := Some(m)), e1)
  }

  /** Unlink a member: its neighbours, or the root, are linked past it. Its own entry stays as it is. */
  function Unlink<M(==)>(root: Entry<M>, e: Entries<M>, m: M): (Entry<M>, Entries<M>) {
    var (prev, next) := (Get(e, m).prev, Get(e, m).next);
    var (root1, e1) := SetNext(root, e, prev, next);
    SetPrev(root1, e1, next, prev)
  }

  lemma LinkBackRight<M>(root: Entry<M>, e: Entries<M>, s: seq<M>, m: M)
    requires Linked(root, e, s) && m !in s
    ensures var (root', e') := LinkBack(root, e, m); Linked(root', e', s + [m])
  {
  }

  lemma LinkFrontRight<M>(root: Entry<M>, e: Entries<M>, s: seq<M>, m: M)
    requires Linked(root, e, s) && m !in s
    ensures var (root', e') := LinkFront(root, e, m); Linked(root', e', [m] + s)
  {
    var s' := [m] + s;
    assert forall i :: 0 < i < |s'| ==> s'[i] == s[i - 1];
  }

  /** `t` is `s` without its element at `k`. */
  ghost predicate Skips<M>(s: seq<M>, k: nat, t: seq<M>) {
    && k < |s| == |t| + 1
    && (forall i {:trigger t[i]} :: 0 <= i < |t| ==> t[i] == s[if i < k then i else i + 1])
  }

  lemma UnlinkRight<M>(root: Entry<M>, e: Entries<M>, s: seq<M>, k: nat, t: seq<M>)
    requires Linked(root, e, s) && Skips(s, k, t)
    ensures var (root', e') := Unlink(root, e, s[k]); Linked(root', e', t)
  {
    var m := s[k];
    assert e[s[k]] == Entry(if k == 0 then None else Some(s[k - 1]), if k == |s| - 1 then None else Some(s[k + 1]));
    var (root', e') := Unlink(root, e, m);
    forall i {:trigger e'[t[i]]} | 0 <= i < |t|
      ensures e'[t[i]] == Entry(if i == 0 then None else Some(t[i - 1]), if i == |t| - 1 then None else Some(t[i + 1]))
    {
      var j := if i < k then i else i + 1;
      assert t[i] == s[j] && (i > 0 ==> t[i - 1] == s[if i - 1 < k then i - 1 else i]);
      assert i + 1 < |t| ==> t[i + 1] == s[if i + 1 < k then i + 1 else i + 2];
      assert e[s[j]] == Entry(if j == 0 then None else Some(s[j - 1]), if j == |s| - 1 then None else Some(s[j + 1]));
    }
    forall i, j | 0 <= i < j < |t| ensures t[i] != t[j] {
    }
  }

  /** One core's lists of one priority: the roots of the scheduled and the suggested list, and the entries. */
  datatype Core<M> = Core(scheduled: Entry<M>, suggested: Entry<M>, entries: Entries<M>)

  ghost predicate Right<M>(c: Core<M>, scheduled: seq<M>, suggested: seq<M>) {
    && Linked(c.scheduled, c.entries, scheduled) && Linked(c.suggested, c.entries, suggested)
    && forall x :: x in scheduled ==> x !in suggested
  }

  function Unschedule<M(==)>(c: Core<M>, m: M): Core<M>
  {
    var (root, e) := Unlink(c.scheduled, c.entries, m);
    c.(scheduled := root, entries := e)
  }

  function Unsuggest<M(==)>(c: Core<M>, m: M): Core<M>
  {
    var (root, e) := Unlink(c.suggested, c.entries, m);
    c.(suggested := root, entries := e)
  }

  function Schedule<M(==)>(c: Core<M>, m: M, toFront: bool): Core<M>
  {
    var (root, e) := if toFront then LinkFront(c.scheduled, c.entries, m) else LinkBack(c.scheduled, c.entries, m);
    c.(scheduled := root, entries := e)
  }

  function Suggest<M(==)>(c: Core<M>, m: M): Core<M>
  {
    var (root, e) := LinkBack(c.suggested, c.entries, m);
    c.(suggested := root, entries := e)
  }

  lemma UnscheduleRight<M>(c: Core<M>, s: seq<M>, g: seq<M>, k: nat, t: seq<M>)
    requires Right(c, s, g) && Skips(s, k, t)
    ensures Right(Unschedule(c, s[k]), t, g) && s[k] !in t && s[k] !in g
  {
    UnlinkRight(c.scheduled, c.entries, s, k, t);
    assert forall x :: x in t ==> x in s;
    Apart(c.suggested, c.entries, Unschedule(c, s[k]).entries, g, s);
  }

  lemma UnsuggestRight<M>(c: Core<M>, s: seq<M>, g: seq<M>, k: nat, t: seq<M>)
    requires Right(c, s, g) && Skips(g, k, t)
    ensures Right(Unsuggest(c, g[k]), s, t) && g[k] !in t && g[k] !in s
  {
    UnlinkRight(c.suggested, c.entries, g, k, t);
    assert forall x :: x in t ==> x in g;
    Apart(c.scheduled, c.entries, Unsuggest(c, g[k]).entries, s, g);
  }

  lemma ScheduleRight<M>(c: Core<M>, s: seq<M>, g: seq<M>, m: M, toFront: bool)
    requires Right(c, s, g) && m !in s && m !in g
    ensures Right(Schedule(c, m, toFront), Joined(s, m, toFront), g)
  {
    LinkFrontRight(c.scheduled, c.entries, s, m);
    LinkBackRight(c.scheduled, c.entries, s, m);
    Apart(c.suggested, c.entries, Schedule(c, m, toFront).entries, g, s + [m]);
  }

  lemma SuggestRight<M>(c: Core<M>, s: seq<M>, g: seq<M>, m: M)
    requires Right(c, s, g) && m !in s && m !in g
    ensures Right(Suggest(c, m), s, g + [m])
  {
    LinkBackRight(c.suggested, c.entries, g, m);
    Apart(c.scheduled, c.entries, Suggest(c, m).entries, s, g + [m]);
  }

  /** Only entries of threads in `others` have changed, so a list of other threads is still linked up. */
  lemma Apart<M>(root: Entry<M>, e: Entries<M>, e': Entries<M>, s: seq<M>, others: seq<M>)
    requires Linked(root, e, s) && (forall x :: x in s ==> x !in others)
    requires forall x {:trigger x in e'} {:trigger e'[x]} :: x in e && x !in others ==> x in e' && e'[x] == e[x]
    ensures Linked(root, e', s)
  {
  }

  function IndexOf<M(==)>(s: seq<M>, m: M): (k: nat)
    requires m in s
    ensures k < |s| && s[k] == m
  {
    if s[0] == m then 0 else 1 + IndexOf(s[1..], m)
  }

  lemma WithoutSkips<M>(s: seq<M>, m: M)
    requires m in s
    ensures Skips(s, IndexOf(s, m), Without(s, m))
  {
    if s[0] != m {
      WithoutSkips(s[1..], m);
    }
  }

  /** The steps of ChangeCore for a thread that moves between two cores. The step that should unlink
      it from the list of threads suggested for the new core is done on the core `unsuggestOn`. On
      core -1 it trips the assertion of the source. */
  function MoveCore<M(==)>(cores: map<int, Core<M>>, m: M, prevCore: int, newCore: int, unsuggestOn: int, toFront: bool): Option<map<int, Core<M>>>
    requires newCore in cores && (prevCore >= 0 ==> prevCore in cores) && unsuggestOn in {prevCore, newCore} && newCore >= 0
  {
    if prevCore == newCore then Some(cores)
    else if unsuggestOn < 0 then None
    else
      var cores1 := if prevCore < 0 then cores else cores[prevCore := Unschedule(cores[prevCore], m)];
      var cores2 := cores1[unsuggestOn := Unsuggest(cores1[unsuggestOn], m)];
      var cores3 := cores2[newCore := Schedule(cores2[newCore], m, toFront)];
      Some(if prevCore < 0 then cores3 else cores3[prevCore := Suggest(cores3[prevCore], m)])
  }

  /** ChangeCore as the source has it: the suggested list it unlinks from is that of the previous core. */
  function ChangeCore<M(==)>(cores: map<int, Core<M>>, m: M, prevCore: int, newCore: int, toFront: bool): Option<map<int, Core<M>>>
    requires newCore in cores && (prevCore >= 0 ==> prevCore in cores) && newCore >= 0
  {
    MoveCore(cores, m, prevCore, newCore, prevCore, toFront)
  }

  /** What the lists of a core should hold. */
  datatype Fifos<+M> = Fifos(scheduled: seq<M>, suggested: seq<M>)

  ghost predicate AllRight<M>(cores: map<int, Core<M>>, lists: map<int, Fifos<M>>) {
    && cores.Keys == lists.Keys
    && forall c {:trigger cores[c]} :: c in cores ==> Right(cores[c], lists[c].scheduled, lists[c].suggested)
  }

  /** The lists after `m` has moved as it should. */
  function ListsAfter<M(==)>(lists: map<int, Fifos<M>>, m: M, prevCore: int, newCore: int, toFront: bool): map<int, Fifos<M>>
    requires newCore in lists && (prevCore >= 0 ==> prevCore in lists)
  {
    if prevCore == newCore then lists
    else
      var n := lists[newCore];
      var lists1 := lists[newCore := Fifos(Joined(n.scheduled, m, toFront), Without(n.suggested, m))];
      if prevCore < 0 then lists1
      else lists1[prevCore := Fifos(Without(lists[prevCore].scheduled, m), lists[prevCore].suggested + [m])]
  }

  /** `m` sits where it should before it moves. */
  ghost predicate Placed<M>(cores: map<int, Core<M>>, lists: map<int, Fifos<M>>, m: M, prevCore: int, newCore: int) {
    && AllRight(cores, lists) && newCore in cores && newCore >= 0
    && (prevCore >= 0 ==> prevCore in cores && m in lists[prevCore].scheduled)
    && (prevCore != newCore ==> m in lists[newCore].suggested)
  }

  /** Unlinking from the suggested list of the new core does the move. */
  lemma MoveCoreRight<M>(cores: map<int, Core<M>>, lists: map<int, Fifos<M>>, m: M, prevCore: int, newCore: int, toFront: bool)
    requires Placed(cores, lists, m, prevCore, newCore)
    ensures var r := MoveCore(cores, m, prevCore, newCore, newCore, toFront);
            r.Some? && AllRight(r.value, ListsAfter(lists, m, prevCore, newCore, toFront))
  {
    hide Right, Joined, Without;
    if prevCore != newCore {
      var n, g := cores[newCore], lists[newCore].suggested;
      WithoutSkips(g, m);
      UnsuggestRight(n, lists[newCore].scheduled, g, IndexOf(g, m), Without(g, m));
      ScheduleRight(Unsuggest(n, m), lists[newCore].scheduled, Without(g, m), m, toFront);
      if prevCore >= 0 {
        var p, s := cores[prevCore], lists[prevCore].scheduled;
        WithoutSkips(s, m);
        UnscheduleRight(p, s, lists[prevCore].suggested, IndexOf(s, m), Without(s, m));
        SuggestRight(Unschedule(p, m), Without(s, m), lists[prevCore].suggested, m);
      }
    }
  }

  /** The neighbour before `m` in a list, or the root, still leads to `m` when nothing has unlinked it. */
  lemma StillLinked<M>(n: Core<M>, s: seq<M>, g: seq<M>, m: M, toFront: bool)
    requires Right(n, s, g) && m in g
    ensures var n' := Schedule(n, m, toFront); !Linked(n'.suggested, n'.entries, Without(g, m))
  {
    var k, t, n' := IndexOf(g, m), Without(g, m), Schedule(n, m, toFront);
    WithoutSkips(g, m);
    assert n.entries[g[k]].prev == if k == 0 then None else Some(g[k - 1]);
    if k > 0 {
      assert t[k - 1] == g[k - 1] && n.entries[g[k - 1]].next == Some(m);
      assert n'.entries[t[k - 1]].next == Some(m);
      assert m !in t;
    }
  }

  /** The move as written leaves the lists right exactly when there is nothing to move. */
  lemma ChangeCoreRightIff<M>(cores: map<int, Core<M>>, lists: map<int, Fifos<M>>, m: M, prevCore: int, newCore: int, toFront: bool)
    requires Placed(cores, lists, m, prevCore, newCore)
    ensures var r := ChangeCore(cores, m, prevCore, newCore, toFront);
            r.Some? && AllRight(r.value, ListsAfter(lists, m, prevCore, newCore, toFront)) <==> prevCore == newCore
  {
    hide Joined, Without, Schedule, Unschedule, Suggest, Unsuggest, Linked;
    if prevCore != newCore && prevCore >= 0 {
      assert Right(cores[newCore], lists[newCore].scheduled, lists[newCore].suggested);
      StillLinked(cores[newCore], lists[newCore].scheduled, lists[newCore].suggested, m, toFront);
      var r := ChangeCore(cores, m, prevCore, newCore, toFront).value;
      assert r[newCore] == Schedule(cores[newCore], m, toFront);
    }
  }

  /** A concrete failure: thread 7 moves from core 0 to core 1, and core 1 then has it both as its only
      scheduled thread and as its only suggested one. */
  lemma ChangeCoreExample()
    ensures var alone := Entry(Some(7), Some(7));
            var nothing := Entry(None, None);
            var cores := map[0 := Core(alone, nothing, map[7 := nothing]), 1 := Core(nothing, alone, map[7 := nothing])];
            && Placed(cores, map[0 := Fifos([7], []), 1 := Fifos([], [7])], 7, 0, 1)
            && var r := ChangeCore(cores, 7, 0, 1, false);
            r.Some? && r.value[1].scheduled == alone && r.value[1].suggested == alone
  {
    assert [7][0] == 7;
  }

  /** The FIFOs of one priority, for all cores. */
  ghost function FifosAt<M>(l: Lists<M>, g: Lists<M>, p: int): map<int, Fifos<M>> {
    map c | 0 <= c < NUM_CORES :: Fifos(At(l, c, p), At(g, c, p))
  }

  /** The FIFOs of a queued thread's priority after its migration are the lists after the move. */
  lemma ListsAfterMigration<M>(l: Lists<M>, g: Lists<M>, l': Lists<M>, g': Lists<M>, m: M, p: int, core: int, newCore: int, toFront: bool)
    requires -1 <= core < NUM_CORES && 0 <= newCore < NUM_CORES && newCore != core && p <= LOWEST_PRIORITY
    requires Relocated(l, l', m, p, core, newCore, toFront) && Relocated(g, g', m, p, newCore, core, false)
    ensures FifosAt(l', g', p) == ListsAfter(FifosAt(l, g, p), m, core, newCore, toFront)
  {
    hide Joined, Without, At, Relocated;
    var after := ListsAfter(FifosAt(l, g, p), m, core, newCore, toFront);
    forall c | 0 <= c < NUM_CORES ensures Fifos(At(l', c, p), At(g', c, p)) == after[c] {
      RelocatedAt(l, l', m, p, core, newCore, toFront, c, p);
      RelocatedAt(g, g', m, p, newCore, core, false, c, p);
      JoinedBack(At(g, c, p), m);
    }
  }

  /** The FIFOs of other priorities stay as they are. */
  lemma OtherListsAfterMigration<M>(l: Lists<M>, g: Lists<M>, l': Lists<M>, g': Lists<M>, m: M, p: int, core: int, newCore: int, toFront: bool, q: int)
    requires p <= LOWEST_PRIORITY && q != p
    requires Relocated(l, l', m, p, core, newCore, toFront) && Relocated(g, g', m, p, newCore, core, false)
    ensures FifosAt(l', g', q) == FifosAt(l, g, q)
  {
    hide Joined, Without, At, Relocated;
    forall c | 0 <= c < NUM_CORES ensures At(l', c, q) == At(l, c, q) && At(g', c, q) == At(g, c, q) {
      RelocatedAt(l, l', m, p, core, newCore, toFront, c, q);
      RelocatedAt(g, g', m, p, newCore, core, false, c, q);
    }
  }

  lemma RelocatedAt<M>(l: Lists<M>, l': Lists<M>, m: M, p: int, out: int, into: int, front: bool, c: int, q: int)
    requires Relocated(l, l', m, p, out, into, front) && 0 <= c && p <= LOWEST_PRIORITY
    ensures At(l', c, q) == if q != p then At(l, c, q)
                            else if c == out then Without(At(l, c, q), m)
                            else if c == into then Joined(At(l, c, q), m, front)
                            else At(l, c, q)
  {
  }

  lemma JoinedBack<M>(s: seq<M>, m: M)
    ensures Joined(s, m, false) == s + [m]
  {
  }

  lemma QueuedIsPlaced<M>(cores: map<int, Core<M>>, l: Lists<M>, g: Lists<M>, ms: map<M, Placement>, m: M, newCore: int)
    requires Consistent(l, g, ms) && m in ms && ms[m].runnable && ms[m].priority <= LOWEST_PRIORITY
    requires ms[m].(core := newCore).Valid() && 0 <= newCore && AllRight(cores, FifosAt(l, g, ms[m].priority))
    ensures Placed(cores, FifosAt(l, g, ms[m].priority), m, ms[m].core, newCore)
    ensures -1 <= ms[m].core < NUM_CORES && newCore < NUM_CORES
  {
    hide Right;
    var pl := ms[m];
    assert pl.Valid();
    assert pl.core >= 0 ==> pl.In(Scheduled, pl.core, pl.priority);
    assert newCore != pl.core ==> pl.In(Suggested, newCore, pl.priority);
  }

  /** The repaired steps refine the migration of a queued thread between FIFOs; the steps as written do so only
      when the thread stays where it is. */
  lemma MigrationRefined<M>(cores: map<int, Core<M>>, l: Lists<M>, g: Lists<M>, l': Lists<M>, g': Lists<M>, ms: map<M, Placement>,
                            m: M, newCore: int, toFront: bool)
    requires Consistent(l, g, ms) && m in ms && ms[m].runnable && ms[m].priority <= LOWEST_PRIORITY
    requires ms[m].(core := newCore).Valid() && 0 <= newCore != ms[m].core
    requires AllRight(cores, FifosAt(l, g, ms[m].priority))
    requires Relocated(l, l', m, ms[m].priority, ms[m].core, newCore, toFront)
    requires Relocated(g, g', m, ms[m].priority, newCore, ms[m].core, false)
    ensures newCore in cores && (ms[m].core >= 0 ==> ms[m].core in cores)
    ensures var r := MoveCore(cores, m, ms[m].core, newCore, newCore, toFront);
            r.Some? && AllRight(r.value, FifosAt(l', g', ms[m].priority))
    ensures var r := ChangeCore(cores, m, ms[m].core, newCore, toFront);
            !(r.Some? && AllRight(r.value, FifosAt(l', g', ms[m].priority)))
    ensures forall q :: q != ms[m].priority ==> FifosAt(l', g', q) == FifosAt(l, g, q)
  {
    hide AllRight, ListsAfter, Consistent, Relocated, MoveCore, ChangeCore;
    var p, a := ms[m].priority, ms[m].core;
    QueuedIsPlaced(cores, l, g, ms, m, newCore);
    ListsAfterMigration(l, g, l', g', m, p, a, newCore, toFront);
    MoveCoreRight(cores, FifosAt(l, g, p), m, a, newCore, toFront);
    ChangeCoreRightIff(cores, FifosAt(l, g, p), m, a, newCore, toFront);
    forall q | q != p ensures FifosAt(l', g', q) == FifosAt(l, g, q) {
      OtherListsAfterMigration(l, g, l', g', m, p, a, newCore, toFront, q);
    }
  }
}
