/** The queue of one core read from its highest priority down: how the scheduler scans it, and what
    moving a thread to another core does to it. */
module QueueScans {
  import opened Options
  import opened PriorityQueues

  /** The member after `m`, which has priority `p`: the next in its FIFO, or the front of the next
      non-empty one. */
  function Next<M(==)>(l: Lists<M>, core: int, p: int, m: M): Option<M> {
    var after := After(At(l, core, p), m);
    if after.Some? then after else FrontFrom(l, core, p + 1)
  }

  function After<M(==)>(s: seq<M>, m: M): Option<M> {
    if |s| <= 1 then None else if s[0] == m then Some(s[1]) else After(s[1..], m)
  }

  lemma {:induction false} AfterIndex<M>(s: seq<M>, i: nat)
    requires Distinct(s) && i < |s|
    ensures After(s, s[i]) == if i + 1 < |s| then Some(s[i + 1]) else None
  {
    if i > 0 {
      assert s[0] != s[i];
      AfterIndex(s[1..], i - 1);
    }
  }

  lemma {:induction false} FlatMembers<M>(l: Lists<M>, core: int, p: int, x: M)
    requires p >= 0
    ensures x in FlatFrom(l, core, p) <==> exists q :: p <= q <= LOWEST_PRIORITY && x in At(l, core, q)
    decreases LOWEST_PRIORITY - p
  {
    if p <= LOWEST_PRIORITY {
      FlatMembers(l, core, p + 1, x);
    }
  }

  lemma ConcatDistinct<M>(a: seq<M>, b: seq<M>)
    ensures Distinct(a + b) <==> Distinct(a) && Distinct(b) && forall x :: x in a ==> x !in b
  {
    var s := a + b;
    assert forall i :: 0 <= i < |a| ==> s[i] == a[i];
    assert forall i :: 0 <= i < |b| ==> s[|a| + i] == b[i];
    if Distinct(a) && Distinct(b) && forall x :: x in a ==> x !in b {
      forall i, j | 0 <= i < j < |s| ensures s[i] != s[j] {
        assert i < |a| <= j ==> s[i] in a && s[j] in b;
        assert |a| <= i ==> b[i - |a|] != b[j - |a|];
      }
    }
  }

  lemma {:induction false} FlatDistinct<M>(l: Lists<M>, kind: Kind, ms: map<M, Placement>, core: int, p: int)
    requires Matches(l, kind, ms) && p >= 0
    ensures Distinct(FlatFrom(l, core, p))
    ensures forall x :: x in FlatFrom(l, core, p) ==> x in ms && p <= ms[x].priority && ms[x].In(kind, core, ms[x].priority)
    decreases LOWEST_PRIORITY - p
  {
    if p <= LOWEST_PRIORITY {
      FlatDistinct(l, kind, ms, core, p + 1);
      assert Distinct(At(l, core, p));
      ConcatDistinct(At(l, core, p), FlatFrom(l, core, p + 1));
    }
  }

  lemma NextHere<M>(l: Lists<M>, core: int, p: int, a: seq<M>, b: seq<M>, i: nat)
    requires a == At(l, core, p) && b == FlatFrom(l, core, p + 1) && Distinct(a + b) && i < |a|
    ensures Next(l, core, p, a[i]) == if i + 1 < |a + b| then Some((a + b)[i + 1]) else None
  {
    ConcatDistinct(a, b);
    AfterIndex(a, i);
  }

  lemma {:induction false} FlatSplit<M>(l: Lists<M>, core: int, q: int, p: int) returns (before: seq<M>)
    requires q <= p <= LOWEST_PRIORITY + 1
    ensures FlatFrom(l, core, q) == before + FlatFrom(l, core, p)
    decreases p - q
  {
    if q == p {
      before := [];
    } else {
      before := FlatSplit(l, core, q + 1, p);
      before := At(l, core, q) + before;
    }
  }

  /** Scanning with Next visits the members in the order of the flat queue. */
  lemma NextInFlat<M>(l: Lists<M>, core: int, p: int, q: int, i: nat)
    requires Distinct(FlatFrom(l, core, q)) && i < |FlatFrom(l, core, q)|
    requires FlatFrom(l, core, q)[i] in At(l, core, p) && q <= p <= LOWEST_PRIORITY
    ensures var f := FlatFrom(l, core, q);
            Next(l, core, p, f[i]) == if i + 1 < |f| then Some(f[i + 1]) else None
  {
    hide Next, FrontFrom, Distinct;
    var f, a, b := FlatFrom(l, core, q), At(l, core, p), FlatFrom(l, core, p + 1);
    var before := FlatSplit(l, core, q, p);
    assert f == before + (a + b);
    var j :| 0 <= j < |a| && a[j] == f[i];
    DistinctIndex(f, i, |before| + j);
    ConcatDistinct(before, a + b);
    NextHere(l, core, p, a, b, j);
  }

  lemma DistinctIndex<M>(s: seq<M>, i: nat, j: nat)
    requires Distinct(s) && i < |s| && j < |s| && s[i] == s[j]
    ensures i == j
  {
  }

  lemma {:induction false} FlatSame<M>(l: Lists<M>, l': Lists<M>, core: int, p: int)
    requires forall q :: At(l', core, q) == At(l, core, q)
    ensures FlatFrom(l', core, p) == FlatFrom(l, core, p)
    decreases LOWEST_PRIORITY - p
  {
    if p <= LOWEST_PRIORITY {
      FlatSame(l, l', core, p + 1);
    }
  }

  lemma {:induction false} WithoutConcat<M>(a: seq<M>, b: seq<M>, m: M)
    ensures Without(a + b, m) == if m in a then Without(a, m) + b else a + Without(b, m)
  {
    if a == [] {
      assert a + b == b && a + Without(b, m) == Without(b, m);
    } else {
      assert (a + b)[1..] == a[1..] + b;
      if a[0] != m {
        WithoutConcat(a[1..], b, m);
        assert a == [a[0]] + a[1..];
        assert m in a <==> m in a[1..];
        assert [a[0]] + (a[1..] + Without(b, m)) == a + Without(b, m);
        assert [a[0]] + (Without(a[1..], m) + b) == ([a[0]] + Without(a[1..], m)) + b;
      }
    }
  }

  lemma {:induction false} WithoutAbsent<M>(s: seq<M>, m: M)
    requires m !in s
    ensures Without(s, m) == s
  {
    if s != [] {
      WithoutAbsent(s[1..], m);
      assert s == [s[0]] + s[1..];
    }
  }

  /** Taking `m` out of its FIFO takes it out of the flat queue. */
  lemma {:induction false} FlatWithout<M>(l: Lists<M>, l': Lists<M>, core: int, p: int, prio: int, m: M)
    requires 0 <= p && prio <= LOWEST_PRIORITY
    requires forall q :: At(l', core, q) == if q == prio then Without(At(l, core, q), m) else At(l, core, q)
    requires forall q :: q != prio ==> m !in At(l, core, q)
    ensures FlatFrom(l', core, p) == Without(FlatFrom(l, core, p), m)
    decreases LOWEST_PRIORITY - p
  {
    hide Without;
    if p > LOWEST_PRIORITY {
      WithoutAbsent([], m);
    } else {
      FlatWithout(l, l', core, p + 1, prio, m);
      var a, b := At(l, core, p), FlatFrom(l, core, p + 1);
      WithoutConcat(a, b, m);
      if p == prio {
        FlatMembers(l, core, p + 1, m);
        WithoutAbsent(b, m);
        if m !in a {
          WithoutAbsent(a, m);
        }
      }
    }
  }

  lemma {:induction false} FlatEmpty<M>(l: Lists<M>, core: int, p: int, q: int)
    requires FlatFrom(l, core, p) == [] && p <= q <= LOWEST_PRIORITY
    ensures At(l, core, q) == []
    decreases q - p
  {
    if p < q {
      FlatEmpty(l, core, p + 1, q);
    }
  }

  /** Appending to an empty queue makes a queue of one. */
  lemma {:induction false} FlatOne<M>(l: Lists<M>, l': Lists<M>, core: int, p: int, prio: int, m: M)
    requires FlatFrom(l, core, p) == [] && prio <= LOWEST_PRIORITY
    requires forall q :: At(l', core, q) == if q == prio then At(l, core, q) + [m] else At(l, core, q)
    ensures FlatFrom(l', core, p) == if p <= prio then [m] else []
    decreases LOWEST_PRIORITY - p
  {
    if p <= LOWEST_PRIORITY {
      FlatOne(l, l', core, p + 1, prio, m);
      FlatEmpty(l, core, p, p);
    }
  }
}
