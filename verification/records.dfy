/** The trace records and the parse loop both scripts share: each line of
    the log is stripped and split on commas, five-field lines are read as
    integers, and sector counts are turned into bytes. */
module Records {
  import opened Outcomes
  import opened Seqs
  import opened Text

  /** The operation kinds the scripts tell apart; other kinds pass through. */
  const WriteType := 1
  const ReadType := 2

  /** Sector counts are turned into bytes by a left shift of this many bits. */
  const SectorShift := 9
  const SectorSize := 512

  /** A record as written in the log: addresses and sizes in sectors,
      with `size` one less than the number of sectors transferred. */
  datatype RawRecord = RawRecord(ioType: int, arrivalTime: int, elapsedTime: int, lba: int, size: int)

  /** A record as the scripts hold it: `lba` is a byte offset and `size` a
      byte count; times are nanoseconds. */
  datatype IoRecord = IoRecord(ioType: int, arrivalTime: int, elapsedTime: int, lba: int, size: int)

  // ------------------------------------------------------- unit conversion

  function Pow2(n: nat): nat {
    if n == 0 then 1 else 2 * Pow2(n - 1)
  }

  /** Python's `x << n` on an arbitrary-precision integer: `n` doublings,
      for negative `x` as well. */
  function ShiftLeft(x: int, n: nat): int {
    if n == 0 then x else 2 * ShiftLeft(x, n - 1)
  }

  /** A left shift by `n` bits multiplies by two to the `n`. */
  lemma {:induction false} ShiftLeftMultiplies(x: int, n: nat)
    ensures ShiftLeft(x, n) == x * Pow2(n)
  {
    if n > 0 {
      ShiftLeftMultiplies(x, n - 1);
      assert x * Pow2(n) == 2 * (x * Pow2(n - 1));
    }
  }

  /** Lines 17-18 of either script: `lba << 9` and `(size + 1) << 9`. */
  function ToBytes(raw: RawRecord): (r: IoRecord)
    ensures r.ioType == raw.ioType
    ensures r.arrivalTime == raw.arrivalTime
    ensures r.elapsedTime == raw.elapsedTime
    ensures r.lba == raw.lba * SectorSize
    ensures r.size == (raw.size + 1) * SectorSize
    ensures raw.size >= 0 ==> r.size >= SectorSize
    ensures r.lba % SectorSize == 0 && r.size % SectorSize == 0
  {
    ShiftLeftMultiplies(raw.lba, SectorShift);
    ShiftLeftMultiplies(raw.size + 1, SectorShift);
    assert Pow2(SectorShift) == SectorSize;
    IoRecord(raw.ioType, raw.arrivalTime, raw.elapsedTime,
             ShiftLeft(raw.lba, SectorShift), ShiftLeft(raw.size + 1, SectorShift))
  }

  /** Back from bytes to the log's sector units. */
  function FromBytes(r: IoRecord): RawRecord {
    RawRecord(r.ioType, r.arrivalTime, r.elapsedTime, r.lba / SectorSize, r.size / SectorSize - 1)
  }

  /** The conversion loses nothing: the raw record can be read back. */
  lemma FromToBytes(raw: RawRecord)
    ensures FromBytes(ToBytes(raw)) == raw
  {
  }

  // ------------------------------------------------------------ one line

  /** The comma-separated fields of a line, after stripping it (line 8/9). */
  function Fields(line: string): seq<string> {
    Split(Strip(line), ',')
  }

  /** Only lines with exactly five fields are read as records (line 9/10). */
  predicate IsCandidate(line: string) {
    |Fields(line)| == 5
  }

  /** What one line of the log contributes. */
  datatype LineOutcome =
    | Skipped                      // not five fields: ignored
    | Parsed(record: IoRecord)     // five integers, converted to bytes
    | NotAnInteger(field: nat)     // `int()` raised on this field

  /** Lines 8-26 of plot_access_pattern.py for one line: skip it, read it,
      or fail on the first field that is not an integer. */
  function ParseLine(line: string): (o: LineOutcome)
    ensures o.Skipped? <==> !IsCandidate(line)
    ensures o.Parsed? <==>
      IsCandidate(line) && forall i :: 0 <= i < 5 ==> ParseInt(Fields(line)[i]).Some?
    ensures o.Parsed? ==>
      var f := Fields(line);
      o.record == ToBytes(RawRecord(ParseInt(f[0]).value, ParseInt(f[1]).value,
                                    ParseInt(f[2]).value, ParseInt(f[3]).value, ParseInt(f[4]).value))
    ensures o.NotAnInteger? ==>
      && IsCandidate(line)
      && o.field < 5
      && ParseInt(Fields(line)[o.field]).None?
      && forall j :: 0 <= j < o.field ==> ParseInt(Fields(line)[j]).Some?
  {
    var parts := Fields(line);
    if |parts| != 5 then Skipped
    else
      match ConvertAll(parts, ParseInt)
      case Err(k) => NotAnInteger(k)
      case Ok(v) => Parsed(ToBytes(RawRecord(v[0], v[1], v[2], v[3], v[4])))
  }

  /** A five-field line whose fields read as the numbers `v` is the
      record of those numbers. */
  lemma ParseLineOf(line: string, v: seq<int>)
    requires |v| == 5 && IsCandidate(line)
    requires forall i :: 0 <= i < 5 ==> ParseInt(Fields(line)[i]) == Some(v[i])
    ensures ParseLine(line) == Parsed(ToBytes(RawRecord(v[0], v[1], v[2], v[3], v[4])))
  {
  }

  // ------------------------------------------------------------ the file

  /** Why a load failed: `int()` raised on field `field` of line `line`
      (both counted from zero), which ends the script. */
  datatype LoadError = BadInteger(line: nat, field: nat)

  predicate IsBad(o: LineOutcome) {
    o.NotAnInteger?
  }

  predicate IsRecord(o: LineOutcome) {
    o.Parsed?
  }

  /** The parse loop over already-classified lines: the records in order,
      or the first line on which `int()` raised. */
  function Gather(outcomes: seq<LineOutcome>): (r: Result<seq<IoRecord>, LoadError>)
    ensures r.Ok? <==> forall i :: 0 <= i < |outcomes| ==> !IsBad(outcomes[i])
    ensures r.Err? ==>
      && r.error.line < |outcomes|
      && outcomes[r.error.line] == NotAnInteger(r.error.field)
      && forall j :: 0 <= j < r.error.line ==> !IsBad(outcomes[j])
  {
    if |outcomes| == 0 then Ok([])
    else
      var init := outcomes[..|outcomes| - 1];
      var last := outcomes[|outcomes| - 1];
      assert outcomes == init + [last];
      match Gather(init)
      case Err(e) => Err(e)
      case Ok(rs) =>
        match last
        case NotAnInteger(f) => Err(BadInteger(|outcomes| - 1, f))
        case Skipped => Ok(rs)
        case Parsed(x) => Ok(rs + [x])
  }

  /** Each line classified on its own. */
  function ParseLines(lines: seq<string>): seq<LineOutcome> {
    Map(lines, ParseLine)
  }

  /** The records of a log, in file order: lines 5-26 of
      plot_access_pattern.py (and 6-27 of plot_latency_distribution.py).
      The first five-field line with a non-integer field aborts the load. */
  function LoadTrace(lines: seq<string>): (r: Result<seq<IoRecord>, LoadError>)
    ensures r.Ok? <==> forall i :: 0 <= i < |lines| ==> !IsBad(ParseLine(lines[i]))
    ensures r.Err? ==>
      && r.error.line < |lines|
      && ParseLine(lines[r.error.line]) == NotAnInteger(r.error.field)
      && forall j :: 0 <= j < r.error.line ==> !IsBad(ParseLine(lines[j]))
  {
    Gather(ParseLines(lines))
  }

  /** Lines are read independently: the records of a concatenation are the
      records of each part, and a failure in the first part is reported
      as it is. */
  lemma {:induction false} GatherConcat(a: seq<LineOutcome>, b: seq<LineOutcome>)
    ensures Gather(a).Err? ==> Gather(a + b) == Gather(a)
    ensures Gather(a).Ok? && Gather(b).Ok? ==> Gather(a + b) == Ok(Gather(a).value + Gather(b).value)
    ensures Gather(a).Ok? && Gather(b).Err? ==>
      Gather(a + b) == Err(BadInteger(|a| + Gather(b).error.line, Gather(b).error.field))
    decreases |b|
  {
    if |b| == 0 {
      assert a + b == a;
      assert Gather(a).Ok? ==> Gather(a).value + [] == Gather(a).value;
    } else {
      var b', y := b[..|b| - 1], b[|b| - 1];
      assert b == b' + [y];
      assert (a + b)[..|a + b| - 1] == a + b';
      assert (a + b)[|a + b| - 1] == y;
      GatherConcat(a, b');
      if Gather(a).Ok? && Gather(b).Ok? {
        var ra, rb' := Gather(a).value, Gather(b').value;
        match y
        case Skipped =>
        case Parsed(x) =>
          assert ra + (rb' + [x]) == (ra + rb') + [x];
        case NotAnInteger(_) =>
      }
    }
  }

  /** The same for whole logs: the records of two logs read one after the
      other are the records of the first followed by those of the second. */
  lemma LoadTraceConcat(a: seq<string>, b: seq<string>)
    ensures LoadTrace(a).Err? ==> LoadTrace(a + b) == LoadTrace(a)
    ensures LoadTrace(a).Ok? && LoadTrace(b).Ok? ==>
      LoadTrace(a + b) == Ok(LoadTrace(a).value + LoadTrace(b).value)
  {
    MapConcat(a, b, ParseLine);
    GatherConcat(ParseLines(a), ParseLines(b));
  }

  /** What a single classified line yields. */
  lemma GatherOne(o: LineOutcome)
    ensures o.Parsed? ==> Gather([o]) == Ok([o.record])
    ensures o.Skipped? ==> Gather([o]) == Ok([])
    ensures o.NotAnInteger? ==> Gather([o]) == Err(BadInteger(0, o.field))
  {
    assert [o][..0] == [];
    if o.Parsed? {
      assert [] + [o.record] == [o.record];
    }
  }

  /** What a one-line log yields. */
  lemma LoadTraceLine(line: string)
    ensures ParseLine(line).Parsed? ==> LoadTrace([line]) == Ok([ParseLine(line).record])
    ensures ParseLine(line).Skipped? ==> LoadTrace([line]) == Ok([])
    ensures ParseLine(line).NotAnInteger? ==>
      LoadTrace([line]) == Err(BadInteger(0, ParseLine(line).field))
  {
    var o := ParseLine(line);
    assert Map([line], ParseLine) == [o];
    GatherOne(o);
  }

  /** A skipped line between two stretches of the log changes neither
      whether the load succeeds nor the records it yields. */
  lemma GatherSkipped(a: seq<LineOutcome>, b: seq<LineOutcome>)
    ensures Gather(a + [Skipped] + b).Ok? == Gather(a + b).Ok?
    ensures Gather(a + b).Ok? ==> Gather(a + [Skipped] + b) == Gather(a + b)
  {
    GatherConcat(a, [Skipped]);
    GatherConcat(a + [Skipped], b);
    GatherConcat(a, b);
    assert [Skipped][..0] == [];
    assert Gather([Skipped]) == Ok([]);
    if Gather(a).Ok? {
      assert Gather(a).value + [] == Gather(a).value;
      assert a + [Skipped] + b == (a + [Skipped]) + b;
    }
  }

  /** A line that is not five fields long contributes nothing, wherever it
      is: the load succeeds or fails as without it, with the same records. */
  lemma SkippedLineIgnored(a: seq<string>, line: string, b: seq<string>)
    requires !IsCandidate(line)
    ensures LoadTrace(a + [line] + b).Ok? == LoadTrace(a + b).Ok?
    ensures LoadTrace(a + b).Ok? ==> LoadTrace(a + [line] + b) == LoadTrace(a + b)
  {
    MapConcat(a, [line], ParseLine);
    MapConcat(a + [line], b, ParseLine);
    MapConcat(a, b, ParseLine);
    assert Map([line], ParseLine) == [Skipped];
    GatherSkipped(ParseLines(a), ParseLines(b));
  }

  /** A successful gather holds one record per parsed line. */
  lemma {:induction false} GatherCount(outcomes: seq<LineOutcome>)
    requires Gather(outcomes).Ok?
    ensures |Gather(outcomes).value| == |Filter(outcomes, IsRecord)|
    decreases |outcomes|
  {
    if |outcomes| > 0 {
      var init := outcomes[..|outcomes| - 1];
      assert outcomes == init + [outcomes[|outcomes| - 1]];
      GatherCount(init);
    }
  }

  /** A successful load holds one record per five-field line. */
  lemma LoadTraceCount(lines: seq<string>)
    requires LoadTrace(lines).Ok?
    ensures |LoadTrace(lines).value| == |Filter(lines, IsCandidate)|
  {
    GatherCount(ParseLines(lines));
    FilterMapCount(lines, ParseLine, IsRecord, IsCandidate);
  }

  // ------------------------------------------------------ selecting a kind

  function HasType(t: int): IoRecord -> bool {
    (r: IoRecord) => r.ioType == t
  }

  /** `[d for d in data if d['io_type'] == t]`. */
  function OfType(data: seq<IoRecord>, t: int): (r: seq<IoRecord>)
    ensures forall i :: 0 <= i < |r| ==> r[i].ioType == t
    ensures forall x :: x in r <==> x in data && x.ioType == t
  {
    Filter(data, HasType(t))
  }

  /** The kinds of the records, in order. */
  function Kinds(data: seq<IoRecord>): seq<int> {
    seq(|data|, i requires 0 <= i < |data| => data[i].ioType)
  }

  /** Selecting a kind keeps exactly as many records as there are of that kind. */
  lemma {:induction false} OfTypeCount(data: seq<IoRecord>, t: int)
    ensures |OfType(data, t)| == multiset(Kinds(data))[t]
    decreases |data|
  {
    if |data| > 0 {
      var init := data[..|data| - 1];
      OfTypeCount(init, t);
      assert Kinds(data) == Kinds(init) + [data[|data| - 1].ioType];
    }
  }
}
