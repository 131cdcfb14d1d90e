/** plot_latency_distribution.py after the parse loop: the reads are picked
    out in file order, an empty selection ends the script with status 1,
    and otherwise the smallest and largest read latency and the number of
    reads are reported. */
module Latency {
  import opened Outcomes
  import opened Seqs
  import opened Records

  /** Line 30: the reads, in file order, unsorted. */
  function ReadOps(data: seq<IoRecord>): (r: seq<IoRecord>)
    ensures forall x :: x in r <==> x in data && x.ioType == ReadType
    ensures |r| == multiset(Kinds(data))[ReadType]
    ensures r == [] <==> forall i :: 0 <= i < |data| ==> data[i].ioType != ReadType
  {
    OfTypeCount(data, ReadType);
    FilterEmpty(data, HasType(ReadType));
    OfType(data, ReadType)
  }

  /** Line 40: the smallest elapsed time. */
  function MinElapsed(s: seq<IoRecord>): (m: int)
    requires |s| > 0
    ensures forall i :: 0 <= i < |s| ==> m <= s[i].elapsedTime
    ensures exists i :: 0 <= i < |s| && m == s[i].elapsedTime
  {
    if |s| == 1 then s[0].elapsedTime
    else
      var m := MinElapsed(s[1..]);
      assert forall i :: 1 <= i < |s| ==> s[i] == s[1..][i - 1];
      if s[0].elapsedTime <= m then s[0].elapsedTime else m
  }

  /** Line 41: the largest elapsed time. */
  function MaxElapsed(s: seq<IoRecord>): (m: int)
    requires |s| > 0
    ensures forall i :: 0 <= i < |s| ==> s[i].elapsedTime <= m
    ensures exists i :: 0 <= i < |s| && m == s[i].elapsedTime
  {
    if |s| == 1 then s[0].elapsedTime
    else
      var m := MaxElapsed(s[1..]);
      assert forall i :: 1 <= i < |s| ==> s[i] == s[1..][i - 1];
      if m <= s[0].elapsedTime then s[0].elapsedTime else m
  }

  /** What the script prints before the histogram, in nanoseconds. */
  datatype LatencySummary = LatencySummary(minLatency: int, maxLatency: int, total: nat)

  /** Why the script stops early. */
  datatype Failure =
    | LoadFailed(error: LoadError)   // `int()` raised in the parse loop
    | NoReadOperations               // lines 32-34: message and `exit(1)`

  /** Lines 30-45 on loaded records: no reads is a failure; otherwise the
      minimum and maximum latency bound every read's latency, each is the
      latency of some read, and the total counts the reads. */
  function Summarize(data: seq<IoRecord>): (r: Result<LatencySummary, Failure>)
    ensures r.Err? <==> forall i :: 0 <= i < |data| ==> data[i].ioType != ReadType
    ensures r.Err? ==> r.error == NoReadOperations
    ensures r.Ok? ==>
      && r.value.total == multiset(Kinds(data))[ReadType]
      && r.value.total > 0
      && (forall x :: x in data && x.ioType == ReadType ==>
            r.value.minLatency <= x.elapsedTime <= r.value.maxLatency)
      && (exists x :: x in data && x.ioType == ReadType && x.elapsedTime == r.value.minLatency)
      && (exists x :: x in data && x.ioType == ReadType && x.elapsedTime == r.value.maxLatency)
  {
    var ops := ReadOps(data);
    if ops == [] then Err(NoReadOperations)
    else
      var lo, hi := MinElapsed(ops), MaxElapsed(ops);
      assert forall x :: x in ops ==> lo <= x.elapsedTime <= hi;
      var i :| 0 <= i < |ops| && lo == ops[i].elapsedTime;
      var j :| 0 <= j < |ops| && hi == ops[j].elapsedTime;
      assert ops[i] in ops && ops[j] in ops;
      Ok(LatencySummary(lo, hi, |ops|))
  }

  /** The whole script on a log: a parse failure or no reads stop it (both
      with exit status 1); otherwise the summary of the loaded records. */
  function AnalyzeLatency(lines: seq<string>): (r: Result<LatencySummary, Failure>)
    ensures LoadTrace(lines).Err? ==> r == Err(LoadFailed(LoadTrace(lines).error))
    ensures r == Err(NoReadOperations) <==>
      LoadTrace(lines).Ok? && forall x :: x in LoadTrace(lines).value ==> x.ioType != ReadType
    ensures r.Ok? <==>
      LoadTrace(lines).Ok? && exists x :: x in LoadTrace(lines).value && x.ioType == ReadType
    ensures r.Ok? ==>
      var data := LoadTrace(lines).value;
      && r.value.total == multiset(Kinds(data))[ReadType]
      && r.value.total > 0
      && (forall x :: x in data && x.ioType == ReadType ==>
            r.value.minLatency <= x.elapsedTime <= r.value.maxLatency)
      && (exists x :: x in data && x.ioType == ReadType && x.elapsedTime == r.value.minLatency)
      && (exists x :: x in data && x.ioType == ReadType && x.elapsedTime == r.value.maxLatency)
  {
    match LoadTrace(lines)
    case Err(e) => Err(LoadFailed(e))
    case Ok(data) => Summarize(data)
  }
}
