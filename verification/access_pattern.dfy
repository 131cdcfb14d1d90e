/** plot_access_pattern.py after the parse loop: the records are sorted by
    arrival time, the time origin is moved to the earliest arrival, and the
    result is split into writes and reads for the scatter plot. */
module AccessPattern {
  import opened Outcomes
  import opened Seqs
  import opened Records
  import opened Ordering

  // --------------------------------------------------------- time origin

  /** The earliest arrival time among the records. */
  function MinArrival(data: seq<IoRecord>): (m: int)
    requires |data| > 0
    ensures forall i :: 0 <= i < |data| ==> m <= data[i].arrivalTime
    ensures exists i :: 0 <= i < |data| && m == data[i].arrivalTime
  {
    if |data| == 1 then data[0].arrivalTime
    else
      var m := MinArrival(data[1..]);
      assert forall i :: 1 <= i < |data| ==> data[i] == data[1..][i - 1];
      if data[0].arrivalTime <= m then data[0].arrivalTime else m
  }

  /** `a` is `b` with possibly another arrival time. */
  predicate SameExceptArrival(a: IoRecord, b: IoRecord) {
    a.(arrivalTime := b.arrivalTime) == b
  }

  /** Every arrival time moved back by `delta`; nothing else changes. */
  function ShiftBy(data: seq<IoRecord>, delta: int): (r: seq<IoRecord>)
    ensures |r| == |data|
    ensures forall i :: 0 <= i < |r| ==> SameExceptArrival(r[i], data[i])
    ensures forall i :: 0 <= i < |r| ==> r[i].arrivalTime + delta == data[i].arrivalTime
  {
    seq(|data|, i requires 0 <= i < |data| => data[i].(arrivalTime := data[i].arrivalTime - delta))
  }

  /** Lines 32-35: when there are records, every arrival time is reduced by
      the first one; on no records nothing happens. Only arrival times
      change, their differences are kept, and the first becomes zero. */
  function ShiftToOrigin(data: seq<IoRecord>): (r: seq<IoRecord>)
    ensures |r| == |data|
    ensures |r| > 0 ==> r[0].arrivalTime == 0
    ensures forall i :: 0 <= i < |r| ==> SameExceptArrival(r[i], data[i])
    ensures forall i, j :: 0 <= i < |r| && 0 <= j < |r| ==>
      r[i].arrivalTime - r[j].arrivalTime == data[i].arrivalTime - data[j].arrivalTime
  {
    if |data| == 0 then [] else ShiftBy(data, data[0].arrivalTime)
  }

  /** On sorted records the shift keeps the order and leaves no negative
      arrival time. */
  lemma ShiftToOriginSorted(data: seq<IoRecord>)
    requires SortedByArrival(data)
    ensures SortedByArrival(ShiftToOrigin(data))
    ensures forall i :: 0 <= i < |data| ==> ShiftToOrigin(data)[i].arrivalTime >= 0
  {
  }

  /** Shifting an already shifted sequence again changes nothing. */
  lemma ShiftToOriginIdempotent(data: seq<IoRecord>)
    ensures ShiftToOrigin(ShiftToOrigin(data)) == ShiftToOrigin(data)
  {
  }

  /** A uniform shift keeps sortedness. */
  lemma ShiftBySorted(s: seq<IoRecord>, delta: int)
    requires SortedByArrival(s)
    ensures SortedByArrival(ShiftBy(s, delta))
  {
  }

  function Shifted(x: IoRecord, delta: int): IoRecord {
    x.(arrivalTime := x.arrivalTime - delta)
  }

  /** Shifting after appending one record is appending the shifted record. */
  lemma ShiftBySnoc(a: seq<IoRecord>, y: IoRecord, delta: int)
    ensures ShiftBy(a + [y], delta) == ShiftBy(a, delta) + [Shifted(y, delta)]
  {
    var l, r := ShiftBy(a + [y], delta), ShiftBy(a, delta) + [Shifted(y, delta)];
    forall i | 0 <= i < |l|
      ensures l[i] == r[i]
    {
      if i < |a| {
        assert (a + [y])[i] == a[i];
      }
    }
  }

  /** Shifting after an insertion is inserting the shifted record. */
  lemma {:induction false} ShiftByInsert(s: seq<IoRecord>, x: IoRecord, delta: int)
    requires SortedByArrival(s)
    ensures SortedByArrival(ShiftBy(s, delta))
    ensures ShiftBy(Insert(s, x), delta) == Insert(ShiftBy(s, delta), Shifted(x, delta))
    decreases |s|
  {
    ShiftBySorted(s, delta);
    var t := ShiftBy(s, delta);
    var x' := Shifted(x, delta);
    if |s| == 0 || s[|s| - 1].arrivalTime <= x.arrivalTime {
      assert Insert(s, x) == s + [x];
      ShiftBySnoc(s, x, delta);
      assert Insert(t, x') == t + [x'];
    } else {
      var init, y := s[..|s| - 1], s[|s| - 1];
      assert s == init + [y];
      ShiftByInsert(init, x, delta);
      ShiftByInsertLater(init, y, x, delta);
    }
  }

  /** The step of `ShiftByInsert` where `x` goes before the last record
      `y`: given the property for the records before `y`, it holds with `y`. */
  lemma ShiftByInsertLater(init: seq<IoRecord>, y: IoRecord, x: IoRecord, delta: int)
    requires SortedByArrival(init + [y]) && x.arrivalTime < y.arrivalTime
    requires SortedByArrival(ShiftBy(init, delta))
    requires ShiftBy(Insert(init, x), delta) == Insert(ShiftBy(init, delta), Shifted(x, delta))
    ensures ShiftBy(Insert(init + [y], x), delta) ==
      Insert(ShiftBy(init + [y], delta), Shifted(x, delta))
  {
    var s := init + [y];
    assert s[..|s| - 1] == init && s[|s| - 1] == y;
    var x', y' := Shifted(x, delta), Shifted(y, delta);
    ShiftBySorted(s, delta);
    ShiftBySnoc(init, y, delta);
    var t0, t := ShiftBy(init, delta), ShiftBy(s, delta);
    assert t[..|t| - 1] == t0;
    var r := Insert(init, x);
    assert Insert(s, x) == r + [y];
    ShiftBySnoc(r, y, delta);
    assert Insert(t, x') == Insert(t0, x') + [y'];
  }

  /** The shifted sequence without its last record is the shift of the
      sequence without its last record. */
  lemma ShiftByLast(s: seq<IoRecord>, delta: int)
    requires |s| > 0
    ensures var u := ShiftBy(s, delta);
      && u[..|u| - 1] == ShiftBy(s[..|s| - 1], delta)
      && u[|u| - 1] == Shifted(s[|s| - 1], delta)
  {
  }

  /** Shifting commutes with the stable sort. */
  lemma {:induction false} ShiftBySort(s: seq<IoRecord>, delta: int)
    ensures ShiftBy(SortByArrival(s), delta) == SortByArrival(ShiftBy(s, delta))
    decreases |s|
  {
    if |s| > 0 {
      var init, x := s[..|s| - 1], s[|s| - 1];
      ShiftBySort(init, delta);
      ShiftByInsert(SortByArrival(init), x, delta);
      ShiftByLast(s, delta);
    }
  }

  /** The first sorted record carries the earliest arrival time. */
  lemma SortFirstIsMin(data: seq<IoRecord>)
    requires |data| > 0
    ensures |SortByArrival(data)| == |data|
    ensures SortByArrival(data)[0].arrivalTime == MinArrival(data)
  {
    var r := SortByArrival(data);
    assert |r| == |multiset(r)| == |multiset(data)| == |data|;
    assert r[0] in multiset(data);
    var k :| 0 <= k < |data| && MinArrival(data) == data[k].arrivalTime;
    assert data[k] in multiset(r);
  }

  /** Lines 29-35: sort by arrival time, then measure every arrival from
      the earliest one. The result is sorted, starts at time zero, has no
      negative time, and is exactly the stable sort of the records with
      the earliest arrival time subtracted from every arrival. */
  function Normalize(data: seq<IoRecord>): (r: seq<IoRecord>)
    ensures |r| == |data|
    ensures SortedByArrival(r)
    ensures forall i :: 0 <= i < |r| ==> r[i].arrivalTime >= 0
    ensures |r| > 0 ==> r[0].arrivalTime == 0
    ensures |data| > 0 ==> r == SortByArrival(ShiftBy(data, MinArrival(data)))
    ensures |data| > 0 ==> multiset(r) == multiset(ShiftBy(data, MinArrival(data)))
  {
    var sorted := SortByArrival(data);
    if |data| > 0 then
      SortFirstIsMin(data);
      ShiftBySort(data, MinArrival(data));
      ShiftToOriginSorted(sorted);
      ShiftToOrigin(sorted)
    else
      assert |multiset(sorted)| == 0;
      ShiftToOrigin(sorted)
  }

  // ------------------------------------------------------------ kinds

  /** What the scatter plot draws: writes in blue, reads in red. */
  datatype AccessPlot = AccessPlot(writeOps: seq<IoRecord>, readOps: seq<IoRecord>)

  function IsUnclassified(r: IoRecord): bool {
    r.ioType != WriteType && r.ioType != ReadType
  }

  /** Lines 39-40: the writes and the reads, each in the order of `data`. */
  function SplitByKind(data: seq<IoRecord>): (p: AccessPlot)
    ensures forall x :: x in p.writeOps <==> x in data && x.ioType == WriteType
    ensures forall x :: x in p.readOps <==> x in data && x.ioType == ReadType
    ensures SortedByArrival(data) ==> SortedByArrival(p.writeOps) && SortedByArrival(p.readOps)
  {
    var p := AccessPlot(OfType(data, WriteType), OfType(data, ReadType));
    if SortedByArrival(data) then
      FilterKeepsSorted(data, HasType(WriteType));
      FilterKeepsSorted(data, HasType(ReadType));
      p
    else p
  }

  /** Writes, reads and the records of any other kind together are the
      records, each exactly once. */
  lemma {:induction false} SplitByKindAccounts(data: seq<IoRecord>)
    ensures multiset(SplitByKind(data).writeOps) + multiset(SplitByKind(data).readOps)
            + multiset(Filter(data, IsUnclassified)) == multiset(data)
    decreases |data|
  {
    if |data| > 0 {
      var init, x := data[..|data| - 1], data[|data| - 1];
      assert data == init + [x];
      SplitByKindAccounts(init);
      FilterSnoc(init, x, HasType(WriteType));
      FilterSnoc(init, x, HasType(ReadType));
      FilterSnoc(init, x, IsUnclassified);
    }
  }

  /** Within each group of records that arrive at the same time, the writes
      and the reads keep the order the group has in `data`. */
  lemma SplitByKindTies(data: seq<IoRecord>)
    ensures forall t :: Ties(SplitByKind(data).writeOps, t) == OfType(Ties(data, t), WriteType)
    ensures forall t :: Ties(SplitByKind(data).readOps, t) == OfType(Ties(data, t), ReadType)
  {
    forall t
      ensures Ties(SplitByKind(data).writeOps, t) == OfType(Ties(data, t), WriteType)
      ensures Ties(SplitByKind(data).readOps, t) == OfType(Ties(data, t), ReadType)
    {
      FilterCommutes(data, HasType(WriteType), ArrivesAt(t));
      FilterCommutes(data, HasType(ReadType), ArrivesAt(t));
    }
  }

  /** Writes and reads together hold at most all records, and all of them
      exactly when every record is a write or a read. */
  lemma SplitByKindCount(data: seq<IoRecord>)
    ensures |SplitByKind(data).writeOps| + |SplitByKind(data).readOps| <= |data|
    ensures |SplitByKind(data).writeOps| + |SplitByKind(data).readOps| == |data| <==>
      forall i :: 0 <= i < |data| ==> data[i].ioType == WriteType || data[i].ioType == ReadType
  {
    SplitByKindAccounts(data);
    var p := SplitByKind(data);
    var u := Filter(data, IsUnclassified);
    SizesAdd(p.writeOps, p.readOps, u, data);
    FilterEmpty(data, IsUnclassified);
  }

  lemma SizesAdd(a: seq<IoRecord>, b: seq<IoRecord>, c: seq<IoRecord>, d: seq<IoRecord>)
    requires multiset(a) + multiset(b) + multiset(c) == multiset(d)
    ensures |a| + |b| + |c| == |d|
  {
    assert |multiset(a) + multiset(b) + multiset(c)| == |multiset(d)|;
  }

  // ----------------------------------------------------------- the script

  /** The data plot_access_pattern.py draws from a log: the load fails as
      the parse loop does, otherwise the normalised records split by kind. */
  function PlotAccessPattern(lines: seq<string>): (r: Result<AccessPlot, LoadError>)
    ensures r.Err? <==> LoadTrace(lines).Err?
    ensures r.Err? ==> r.error == LoadTrace(lines).error
    ensures r.Ok? ==>
      && SortedByArrival(r.value.writeOps)
      && SortedByArrival(r.value.readOps)
      && (forall x :: x in r.value.writeOps ==> x.ioType == WriteType && x.arrivalTime >= 0)
      && (forall x :: x in r.value.readOps ==> x.ioType == ReadType && x.arrivalTime >= 0)
    ensures r.Ok? ==>
      var n := Normalize(LoadTrace(lines).value);
      && (forall x :: x in r.value.writeOps <==> x in n && x.ioType == WriteType)
      && (forall x :: x in r.value.readOps <==> x in n && x.ioType == ReadType)
      && multiset(r.value.writeOps) + multiset(r.value.readOps)
         + multiset(Filter(n, IsUnclassified)) == multiset(n)
      && (forall t :: Ties(r.value.writeOps, t) == OfType(Ties(n, t), WriteType))
      && (forall t :: Ties(r.value.readOps, t) == OfType(Ties(n, t), ReadType))
  {
    match LoadTrace(lines)
    case Err(e) => Err(e)
    case Ok(data) =>
      var n := Normalize(data);
      SplitByKindAccounts(n);
      SplitByKindTies(n);
      Ok(SplitByKind(n))
  }
}
