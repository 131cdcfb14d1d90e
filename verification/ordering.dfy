/** Line 29 of plot_access_pattern.py: `data.sort(key=arrival_time)`.
    Python's sort is stable, so the result is the one arrangement of the
    records that is ordered by arrival time and keeps file order among
    records that arrive at the same time. */
module Ordering {
  import opened Seqs
  import opened Records

  predicate SortedByArrival(s: seq<IoRecord>) {
    forall i, j :: 0 <= i < j < |s| ==> s[i].arrivalTime <= s[j].arrivalTime
  }

  function ArrivesAt(t: int): IoRecord -> bool {
    (r: IoRecord) => r.arrivalTime == t
  }

  /** The records arriving at time `t`, in their order in `s`. */
  function Ties(s: seq<IoRecord>, t: int): seq<IoRecord> {
    Filter(s, ArrivesAt(t))
  }

  /** Places `x` after every record of `s` that arrives no later than it. */
  function Insert(s: seq<IoRecord>, x: IoRecord): (r: seq<IoRecord>)
    requires SortedByArrival(s)
    ensures SortedByArrival(r)
    ensures multiset(r) == multiset(s) + multiset{x}
  {
    if |s| == 0 || s[|s| - 1].arrivalTime <= x.arrivalTime then s + [x]
    else
      var init, y := s[..|s| - 1], s[|s| - 1];
      assert s == init + [y];
      var r := Insert(init, x);
      assert forall z :: z in r ==> z.arrivalTime <= y.arrivalTime by {
        forall z | z in r
          ensures z.arrivalTime <= y.arrivalTime
        {
          assert z in multiset(r);
        }
      }
      SortedSnoc(r, y);
      r + [y]
  }

  /** A record arriving no earlier than every record of a sorted sequence
      may follow them. */
  lemma SortedSnoc(s: seq<IoRecord>, y: IoRecord)
    requires SortedByArrival(s)
    requires forall z :: z in s ==> z.arrivalTime <= y.arrivalTime
    ensures SortedByArrival(s + [y])
  {
    var u := s + [y];
    forall i, j | 0 <= i < j < |u|
      ensures u[i].arrivalTime <= u[j].arrivalTime
    {
      assert u[i] == s[i];
      if j < |s| {
        assert u[j] == s[j];
      }
    }
  }

  /** Inserting `x` appends it to the records that tie with it and leaves
      every other arrival time's records as they were. */
  lemma {:induction false} InsertTies(s: seq<IoRecord>, x: IoRecord, t: int)
    requires SortedByArrival(s)
    ensures Ties(Insert(s, x), t) == Ties(s, t) + (if x.arrivalTime == t then [x] else [])
    decreases |s|
  {
    if |s| == 0 || s[|s| - 1].arrivalTime <= x.arrivalTime {
      assert Insert(s, x) == s + [x];
      FilterSnoc(s, x, ArrivesAt(t));
    } else {
      var init, y := s[..|s| - 1], s[|s| - 1];
      assert s == init + [y];
      var r := Insert(init, x);
      assert Insert(s, x) == r + [y];
      InsertTies(init, x, t);
      FilterSnoc(r, y, ArrivesAt(t));
      FilterSnoc(init, y, ArrivesAt(t));
      AppendDisjoint(Ties(init, t),
                     if x.arrivalTime == t then [x] else [],
                     if y.arrivalTime == t then [y] else []);
    }
  }

  /** Two appended pieces of which at least one is empty commute. */
  lemma AppendDisjoint(before: seq<IoRecord>, p: seq<IoRecord>, q: seq<IoRecord>)
    requires p == [] || q == []
    ensures before + p + q == before + q + p
  {
    if p == [] {
      assert before + p == before;
      assert before + q + p == before + q;
    } else {
      assert before + q == before;
      assert before + p + q == before + p;
    }
  }

  /** The stable sort: records are inserted in file order. */
  function SortByArrival(s: seq<IoRecord>): (r: seq<IoRecord>)
    ensures SortedByArrival(r)
    ensures multiset(r) == multiset(s)
  {
    if |s| == 0 then []
    else
      var init := s[..|s| - 1];
      assert s == init + [s[|s| - 1]];
      Insert(SortByArrival(init), s[|s| - 1])
  }

  /** Sorting keeps the file order among records with equal arrival times. */
  lemma {:induction false} SortKeepsTies(s: seq<IoRecord>, t: int)
    ensures Ties(SortByArrival(s), t) == Ties(s, t)
    decreases |s|
  {
    if |s| > 0 {
      var init, x := s[..|s| - 1], s[|s| - 1];
      assert s == init + [x];
      SortKeepsTies(init, t);
      InsertTies(SortByArrival(init), x, t);
      FilterConcat(init, [x], ArrivesAt(t));
      FilterSingleton(x, ArrivesAt(t));
    }
  }

  /** A sequence whose every group of ties is empty is empty. */
  lemma NoTiesEmpty(a: seq<IoRecord>)
    requires forall t :: Ties(a, t) == []
    ensures a == []
  {
    if |a| > 0 {
      TiesHoldMember(a, 0);
      assert false;
    }
  }

  /** Every record belongs to the group of records arriving when it does. */
  lemma TiesHoldMember(a: seq<IoRecord>, i: nat)
    requires i < |a|
    ensures a[i] in Ties(a, a[i].arrivalTime)
  {
  }

  /** The last records of two sorted arrangements with the same groups of
      ties arrive at the same time. */
  lemma LastArrivalsAgree(a: seq<IoRecord>, b: seq<IoRecord>)
    requires |a| > 0 && |b| > 0
    requires SortedByArrival(a) && SortedByArrival(b)
    requires forall t :: Ties(a, t) == Ties(b, t)
    ensures a[|a| - 1].arrivalTime == b[|b| - 1].arrivalTime
  {
    var x, y := a[|a| - 1], b[|b| - 1];
    assert y in Ties(b, y.arrivalTime);
    assert y in Ties(a, y.arrivalTime);
    assert x in Ties(a, x.arrivalTime);
    assert x in Ties(b, x.arrivalTime);
  }

  /** Removing the last record of both arrangements keeps their groups of
      ties equal, and those last records are the same record. */
  lemma DropLastTie(a': seq<IoRecord>, x: IoRecord, b': seq<IoRecord>, y: IoRecord)
    requires SortedByArrival(a' + [x]) && SortedByArrival(b' + [y])
    requires forall t :: Ties(a' + [x], t) == Ties(b' + [y], t)
    ensures x == y
    ensures forall t :: Ties(a', t) == Ties(b', t)
  {
    var a, b := a' + [x], b' + [y];
    LastArrivalsAgree(a, b);
    var k := x.arrivalTime;
    forall t
      ensures Ties(a', t) == Ties(b', t)
    {
      FilterSnoc(a', x, ArrivesAt(t));
      FilterSnoc(b', y, ArrivesAt(t));
      assert Ties(a, t) == Ties(b, t);
      if t == k {
        assert ArrivesAt(t)(x) && ArrivesAt(t)(y);
        SnocInjective(Ties(a', t), x, Ties(b', t), y);
      } else {
        assert !ArrivesAt(t)(x) && !ArrivesAt(t)(y);
        assert Ties(a', t) + [] == Ties(a', t);
        assert Ties(b', t) + [] == Ties(b', t);
      }
    }
    FilterSnoc(a', x, ArrivesAt(k));
    FilterSnoc(b', y, ArrivesAt(k));
    assert Ties(a, k) == Ties(b, k);
    SnocInjective(Ties(a', k), x, Ties(b', k), y);
  }

  /** Two arrangements that are both sorted and agree on the order of every
      group of ties are the same arrangement. */
  lemma {:induction false} SortedTiesDetermine(a: seq<IoRecord>, b: seq<IoRecord>)
    requires SortedByArrival(a) && SortedByArrival(b)
    requires forall t :: Ties(a, t) == Ties(b, t)
    ensures a == b
    decreases |a| + |b|
  {
    if |a| == 0 {
      NoTiesEmpty(b);
    } else if |b| == 0 {
      NoTiesEmpty(a);
    } else {
      var a', x := a[..|a| - 1], a[|a| - 1];
      var b', y := b[..|b| - 1], b[|b| - 1];
      assert a == a' + [x];
      assert b == b' + [y];
      DropLastTie(a', x, b', y);
      SortedTiesDetermine(a', b');
    }
  }

  lemma SnocInjective(p: seq<IoRecord>, x: IoRecord, q: seq<IoRecord>, y: IoRecord)
    requires p + [x] == q + [y]
    ensures p == q && x == y
  {
    assert p == (p + [x])[..|p|];
    assert q == (q + [y])[..|q|];
    assert x == (p + [x])[|p|];
    assert y == (q + [y])[|q|];
  }

  /** Whatever Python's stable sort returns, it is this: any arrangement
      that is ordered by arrival time and keeps every group of ties in file
      order equals `SortByArrival`. */
  lemma StableSortIsUnique(s: seq<IoRecord>, p: seq<IoRecord>)
    requires SortedByArrival(p)
    requires forall t :: Ties(p, t) == Ties(s, t)
    ensures p == SortByArrival(s)
  {
    forall t
      ensures Ties(p, t) == Ties(SortByArrival(s), t)
    {
      SortKeepsTies(s, t);
    }
    SortedTiesDetermine(p, SortByArrival(s));
  }

  /** A selection from a sorted sequence is sorted. */
  lemma {:induction false} FilterKeepsSorted(s: seq<IoRecord>, keep: IoRecord -> bool)
    requires SortedByArrival(s)
    ensures SortedByArrival(Filter(s, keep))
    decreases |s|
  {
    if |s| > 0 {
      var init, x := s[..|s| - 1], s[|s| - 1];
      assert s == init + [x];
      FilterKeepsSorted(init, keep);
      var f := Filter(init, keep);
      assert forall z :: z in f ==> z.arrivalTime <= x.arrivalTime;
    }
  }
}
