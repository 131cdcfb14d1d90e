/** Worked logs: the two-record example of the trace format, a line with
    too few fields, and a log without reads. */
module Examples {
  import opened Outcomes
  import opened Seqs
  import opened Text
  import opened Records
  import opened Ordering
  import opened AccessPattern
  import opened Latency

  const Line1 := "2,1000,500,10,1\n"
  const Line2 := "1,2000,700,20,3\n"

  lemma Show500()
    ensures ShowNat(500) == "500"
  {
    assert ShowNat(50) == "50";
  }

  lemma Show700()
    ensures ShowNat(700) == "700"
  {
    assert ShowNat(70) == "70";
  }

  lemma Show1000()
    ensures ShowNat(1000) == "1000"
  {
    assert ShowNat(10) == "10";
    assert ShowNat(100) == "100";
  }

  lemma Show2000()
    ensures ShowNat(2000) == "2000"
  {
    assert ShowNat(20) == "20";
    assert ShowNat(200) == "200";
  }

  /** The fields of a line that has no whitespace but its final newline. */
  lemma FieldsOf(line: string, parts: seq<string>)
    requires |line| > 1 && line[|line| - 1] == '\n'
    requires !IsSpace(line[0]) && !IsSpace(line[|line| - 2])
    requires |parts| > 0 && forall i :: 0 <= i < |parts| ==> ',' !in parts[i]
    requires Join(parts, ',') == line[..|line| - 1]
    ensures Fields(line) == parts
  {
    var body := line[..|line| - 1];
    StrippedAtUnique(line, body, 0, IsSpace);
    SplitJoin(parts, ',');
  }

  lemma FieldsLine1(line: string)
    requires line == Line1
    ensures Fields(line) == ["2", "1000", "500", "10", "1"]
  {
    var parts := ["2", "1000", "500", "10", "1"];
    assert Join(parts, ',') == line[..|line| - 1];
    FieldsOf(line, parts);
  }

  lemma FieldsLine2(line: string)
    requires line == Line2
    ensures Fields(line) == ["1", "2000", "700", "20", "3"]
  {
    var parts := ["1", "2000", "700", "20", "3"];
    assert Join(parts, ',') == line[..|line| - 1];
    FieldsOf(line, parts);
  }

  /** A canonical decimal token reads back as its number. */
  lemma Token(s: string, n: nat)
    requires s == ShowNat(n)
    ensures ParseInt(s) == Some(n)
  {
    ParseShow(n);
  }

  /** Canonical decimal tokens read back as their numbers. */
  lemma Tokens(f: seq<string>, v: seq<nat>)
    requires |f| == |v|
    requires forall i :: 0 <= i < |f| ==> f[i] == ShowNat(v[i])
    ensures forall i :: 0 <= i < |f| ==> ParseInt(f[i]) == Some(v[i] as int)
  {
    forall i | 0 <= i < |f|
      ensures ParseInt(f[i]) == Some(v[i] as int)
    {
      Token(f[i], v[i]);
    }
  }

  /** A line whose five fields are the canonical decimal forms of `v`
      parses as the record those numbers describe. */
  lemma ParsedAs(line: string, v: seq<nat>)
    requires |v| == 5 && |Fields(line)| == 5
    requires forall i :: 0 <= i < 5 ==> Fields(line)[i] == ShowNat(v[i])
    ensures ParseLine(line) == Parsed(ToBytes(RawRecord(v[0], v[1], v[2], v[3], v[4])))
  {
    Tokens(Fields(line), v);
    ParseLineOf(line, v);
  }

  lemma CanonicalFields1(f: seq<string>)
    requires f == ["2", "1000", "500", "10", "1"]
    ensures forall i :: 0 <= i < 5 ==> f[i] == ShowNat([2, 1000, 500, 10, 1][i])
  {
    Show500();
    Show1000();
    var v := [2, 1000, 500, 10, 1];
    forall i | 0 <= i < 5
      ensures f[i] == ShowNat(v[i])
    {
      if i == 0 {} else if i == 1 {} else if i == 2 {} else if i == 3 {} else {}
    }
  }

  lemma ParseLine1(line: string)
    requires line == Line1
    ensures ParseLine(line) == Parsed(IoRecord(2, 1000, 500, 5120, 1024))
  {
    FieldsLine1(line);
    CanonicalFields1(Fields(line));
    ParsedAs(line, [2, 1000, 500, 10, 1]);
  }

  lemma CanonicalFields2(f: seq<string>)
    requires f == ["1", "2000", "700", "20", "3"]
    ensures forall i :: 0 <= i < 5 ==> f[i] == ShowNat([1, 2000, 700, 20, 3][i])
  {
    Show700();
    Show2000();
    var v := [1, 2000, 700, 20, 3];
    forall i | 0 <= i < 5
      ensures f[i] == ShowNat(v[i])
    {
      if i == 0 {} else if i == 1 {} else if i == 2 {} else if i == 3 {} else {}
    }
  }

  lemma ParseLine2(line: string)
    requires line == Line2
    ensures ParseLine(line) == Parsed(IoRecord(1, 2000, 700, 10240, 2048))
  {
    FieldsLine2(line);
    CanonicalFields2(Fields(line));
    ParsedAs(line, [1, 2000, 700, 20, 3]);
  }

  lemma MapTwo<A, B>(x: A, y: A, f: A -> B)
    ensures Map([x, y], f) == [f(x), f(y)]
  {
    var m := Map([x, y], f);
    assert m[0] == f(x) && m[1] == f(y);
  }

  /** Two record outcomes gather into their two records in order. */
  lemma GatherTwo(o1: LineOutcome, o2: LineOutcome)
    requires o1.Parsed? && o2.Parsed?
    ensures Gather([o1, o2]) == Ok([o1.record, o2.record])
  {
    assert [o1, o2][..1] == [o1];
    GatherOne(o1);
    assert [o1.record] + [o2.record] == [o1.record, o2.record];
  }

  /** Two record lines load as their two records in file order. */
  lemma LoadTwo(l1: string, l2: string, r1: IoRecord, r2: IoRecord)
    requires ParseLine(l1) == Parsed(r1) && ParseLine(l2) == Parsed(r2)
    ensures LoadTrace([l1, l2]) == Ok([r1, r2])
  {
    MapTwo(l1, l2, ParseLine);
    GatherTwo(Parsed(r1), Parsed(r2));
  }

  /** The two-line log loads as its two records in file order. */
  lemma LoadExample(l1: string, l2: string)
    requires l1 == Line1 && l2 == Line2
    ensures LoadTrace([l1, l2]) ==
      Ok([IoRecord(2, 1000, 500, 5120, 1024), IoRecord(1, 2000, 700, 10240, 2048)])
  {
    ParseLine1(l1);
    ParseLine2(l2);
    LoadTwo(l1, l2, IoRecord(2, 1000, 500, 5120, 1024), IoRecord(1, 2000, 700, 10240, 2048));
  }

  /** Two records already in arrival order stay as they are. */
  lemma SortPair(a: IoRecord, b: IoRecord)
    requires a.arrivalTime <= b.arrivalTime
    ensures SortByArrival([a, b]) == [a, b]
  {
    assert [a, b][..1] == [a];
    assert [a][..0] == [];
  }

  /** Normalising two records in arrival order moves the first to time 0
      and the second by the same amount. */
  lemma NormalizePair(a: IoRecord, b: IoRecord)
    requires a.arrivalTime <= b.arrivalTime
    ensures Normalize([a, b]) ==
      [a.(arrivalTime := 0), b.(arrivalTime := b.arrivalTime - a.arrivalTime)]
  {
    var data := [a, b];
    assert MinArrival(data) == a.arrivalTime;
    var shifted := ShiftBy(data, a.arrivalTime);
    assert shifted == [a.(arrivalTime := 0), b.(arrivalTime := b.arrivalTime - a.arrivalTime)];
    SortPair(shifted[0], shifted[1]);
  }

  /** A read followed by a write splits into one list each. */
  lemma SplitPair(rd: IoRecord, wr: IoRecord)
    requires rd.ioType == ReadType && wr.ioType == WriteType
    ensures SplitByKind([rd, wr]) == AccessPlot([wr], [rd])
  {
    assert [rd, wr] == [rd] + [wr];
    FilterSnoc([rd], wr, HasType(WriteType));
    FilterSnoc([rd], wr, HasType(ReadType));
    FilterSingleton(rd, HasType(WriteType));
    FilterSingleton(rd, HasType(ReadType));
  }

  /** After normalisation the read arrives at time 0 and the write at 1000. */
  lemma AccessPatternExample(l1: string, l2: string)
    requires l1 == Line1 && l2 == Line2
    ensures PlotAccessPattern([l1, l2]) ==
      Ok(AccessPlot([IoRecord(1, 1000, 700, 10240, 2048)], [IoRecord(2, 0, 500, 5120, 1024)]))
  {
    LoadExample(l1, l2);
    var rd, wr := IoRecord(2, 1000, 500, 5120, 1024), IoRecord(1, 2000, 700, 10240, 2048);
    NormalizePair(rd, wr);
    SplitPair(IoRecord(2, 0, 500, 5120, 1024), IoRecord(1, 1000, 700, 10240, 2048));
  }

  /** A three-field line is not a record. */
  lemma ShortLineSkipped(line: string)
    requires line == "1,100,50"
    ensures ParseLine(line) == Skipped
  {
    var parts := ["1", "100", "50"];
    assert Join(parts, ',') == line;
    TrimUnchanged(line, IsSpace);
    SplitJoin(parts, ',');
  }

  /** A log holding only a write stops the latency script with status 1. */
  lemma NoReadsExample(line: string)
    requires line == Line2
    ensures AnalyzeLatency([line]) == Err(NoReadOperations)
  {
    ParseLine2(line);
    LoadTraceLine(line);
  }

  /** A field with a leading U+001C is rejected by `int()`, although
      `strip()` would have removed that character. */
  lemma SeparatorNotSkipped(token: string)
    requires token == "\U{1C}5"
    ensures Strip(token) == "5"
    ensures ParseInt(token) == None
  {
    StrippedAtUnique(token, "5", 1, IsSpace);
    TrimUnchanged(token, IsIntSpace);
  }

  /** Underscores, a plus sign and leading zeros are all accepted, and the
      value is the one the digits spell. */
  lemma NonCanonicalToken(token: string)
    requires token == " +0_1_2\n"
    ensures ParseInt(token) == Some(12)
  {
    var t := "+0_1_2";
    StrippedAtUnique(token, t, 1, IsIntSpace);
    assert IsDigitText(t[1..]);
    assert t[1..] == "0_1_2";
    assert DigitsValue("0_1_2") == 12 by {
      assert "0"[..0] == "" && "0_"[..1] == "0" && "0_1"[..2] == "0_";
      assert "0_1_"[..3] == "0_1" && "0_1_2"[..4] == "0_1_";
      assert DigitsValue("0") == 0;
      assert DigitsValue("0_") == 0;
      assert DigitsValue("0_1") == 1;
      assert DigitsValue("0_1_") == 1;
    }
  }
}
