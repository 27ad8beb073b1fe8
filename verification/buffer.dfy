/** The per-file buffer: every scanned line of an input file contributes
    exactly one record, in input order, and a failed lookup does not stop
    the scan. */
module Buffer {
  import opened Strings
  import opened Records
  import Decimal
  import opened Wrappers

  /** A scanned line (the DOI) together with what its lookup produced. */
  datatype Line = Line(doi: string, outcome: FetchOutcome)

  /** The records of `lines`, one per line. */
  function RecordsOf(lines: seq<Line>): (rs: seq<string>)
    ensures |rs| == |lines|
    ensures forall i :: 0 <= i < |lines| ==> rs[i] == Record(lines[i].doi, lines[i].outcome)
  {
    if |lines| == 0 then []
    else [Record(lines[0].doi, lines[0].outcome)] + RecordsOf(lines[1..])
  }

  function Concat(rs: seq<string>): string {
    if |rs| == 0 then "" else rs[0] + Concat(rs[1..])
  }

  /** The buffer's contents once every line has been processed. */
  function Contents(lines: seq<Line>): string {
    Concat(RecordsOf(lines))
  }

  lemma {:induction false} ConcatAppend(a: seq<string>, b: seq<string>)
    ensures Concat(a + b) == Concat(a) + Concat(b)
    decreases |a|
  {
    if |a| > 0 {
      assert (a + b)[1..] == a[1..] + b;
      ConcatAppend(a[1..], b);
    } else {
      assert a + b == b;
    }
  }

  /** The buffer of a concatenation of inputs is the concatenation of their
      buffers. */
  lemma {:induction false} RecordsOfAppend(a: seq<Line>, b: seq<Line>)
    ensures RecordsOf(a + b) == RecordsOf(a) + RecordsOf(b)
    decreases |a|
  {
    if |a| > 0 {
      assert (a + b)[1..] == a[1..] + b;
      RecordsOfAppend(a[1..], b);
    } else {
      assert a + b == b;
    }
  }

  lemma {:induction false} ContentsAppend(a: seq<Line>, b: seq<Line>)
    ensures Contents(a + b) == Contents(a) + Contents(b)
  {
    RecordsOfAppend(a, b);
    ConcatAppend(RecordsOf(a), RecordsOf(b));
  }

  lemma {:induction false} ContentsSingle(l: Line)
    ensures Contents([l]) == Record(l.doi, l.outcome)
  {
    var rec := Record(l.doi, l.outcome);
    assert RecordsOf([l]) == [rec];
    assert Concat([rec]) == rec + Concat([]);
  }

  /** The buffer around one line is the buffer before it, its record, and
      the buffer after it. */
  lemma {:induction false} ContentsAround(before: seq<Line>, l: Line, after: seq<Line>)
    ensures Contents(before + [l] + after)
         == Contents(before) + Record(l.doi, l.outcome) + Contents(after)
  {
    ContentsSingle(l);
    ContentsAppend(before + [l], after);
    ContentsAppend(before, [l]);
  }

  /** A failed lookup writes the error record and processing goes on with
      the next line exactly as if nothing had happened. */
  lemma {:induction false} FailedLineContinues(before: seq<Line>, doi: string, after: seq<Line>)
    ensures Contents(before + [Line(doi, Failed)] + after)
         == Contents(before) + doi + " - error\n" + Contents(after)
  {
    ContentsAround(before, Line(doi, Failed), after);
    ErrorRecordIff(doi, Failed);
  }

  lemma {:induction false} ContentsStep(lines: seq<Line>, i: nat)
    requires i < |lines|
    ensures Contents(lines[..i + 1]) == Contents(lines[..i]) + Record(lines[i].doi, lines[i].outcome)
  {
    assert lines[..i + 1] == lines[..i] + [lines[i]];
    ContentsAppend(lines[..i], [lines[i]]);
    ContentsSingle(lines[i]);
  }

  /** The buffer loop of `PubPeerCheck`: one record appended per line. */
  method FillBuffer(lines: seq<Line>) returns (buf: string)
    ensures buf == Concat(RecordsOf(lines))
  {
    buf := "";
    var i := 0;
    while i < |lines|
      invariant i <= |lines|
      invariant buf == Contents(lines[..i])
    {
      var line := lines[i];
      var str := Record(line.doi, line.outcome);
      ContentsStep(lines, i);
      buf := buf + str;
      i := i + 1;
    }
    assert lines[..i] == lines;
  }

  /** Splits text into its newline-terminated lines; a final piece without
      a newline is kept as it is. */
  function SplitLines(s: string): (ls: seq<string>)
    decreases |s|
  {
    if |s| == 0 then []
    else
      var k := IndexOf(s, '\n');
      if k == |s| then [s] else [s[..k + 1]] + SplitLines(s[k + 1..])
  }

  /** Neither the DOI nor the title the record would use holds a newline
      (a scanned line never does; a title may). */
  predicate SingleLineFields(l: Line) {
    && NoNewline(l.doi)
    && (l.outcome.Decoded? && l.outcome.pubs.Some? && |l.outcome.pubs.value| > 0 ==>
          NoNewline(l.outcome.pubs.value[0].title))
  }

  /** Splitting text that starts with one newline-terminated line yields
      that line, then the split of the rest. */
  lemma {:induction false} SplitLinesStep(front: string, rest: string)
    requires NoNewline(front)
    ensures SplitLines(front + ['\n'] + rest) == [front + ['\n']] + SplitLines(rest)
  {
    var s := front + ['\n'] + rest;
    IndexOfAfter(front, '\n', rest);
    assert s[..|front| + 1] == front + ['\n'];
    assert s[|front| + 1..] == rest;
  }

  /** Reading the report back line by line gives one record per input line,
      in input order, failed lines included. */
  lemma {:induction false} ReportLinesMatchInput(lines: seq<Line>)
    requires forall i :: 0 <= i < |lines| ==> SingleLineFields(lines[i])
    ensures SplitLines(Contents(lines)) == RecordsOf(lines)
    ensures |SplitLines(Contents(lines))| == |lines|
  {
    if |lines| > 0 {
      var l := lines[0];
      var r := Record(l.doi, l.outcome);
      var rest := Contents(lines[1..]);
      assert Contents(lines) == r + rest;
      RecordIsOneLine(l.doi, l.outcome);
      var front := r[..|r| - 1];
      assert r == front + ['\n'];
      SplitLinesStep(front, rest);
      ReportLinesMatchInput(lines[1..]);
    }
  }

  /** Without the newline-free condition the count can differ: a title
      holding a newline splits its record over two report lines. */
  lemma MultiLineTitleSplitsRecord()
    ensures var lines := [Line("d", Decoded(Some([Pub(1, "A\nB")])))];
      |SplitLines(Contents(lines))| == 2 != |lines|
  {
    var l := Line("d", Decoded(Some([Pub(1, "A\nB")])));
    var front := "d&да&1&A";
    assert TrimSuffix("d", ".") == "d";
    assert Decimal.IntToString(1) == "1";
    FoundRecordShape("d", [Pub(1, "A\nB")]);
    ContentsSingle(l);
    assert Contents([l]) == front + ['\n'] + ("B" + ['\n'] + "");
    SplitLinesStep(front, "B" + ['\n'] + "");
    SplitLinesStep("B", "");
  }
}
