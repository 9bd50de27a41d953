/**
 * Whole calls on particular child outputs: the behaviours the server is
 * expected to show, each proved for every decoder that reads the lines the
 * way JSON.parse reads the records written in the comments.
 */
module Scenarios {
  import opened Wrappers
  import opened Text
  import opened Logging
  import opened Events
  import opened Finalizer
  import opened Stream

  /** A text record `{"type":"text","text":t}`. */
  predicate DecodesToText(decode: Decoder, line: string, t: string) {
    decode(line) == Some(Event("text", Some(t), None))
  }

  /** A line that is a complete record: no line break and not blank. */
  ghost predicate IsRecordLine(line: string) {
    '\n' !in line && !IsBlank(line)
  }

  lemma OneOutput(decode: Decoder, o: Output)
    ensures Replay(decode, [o]) == Step(decode, Acc("", "", "", None), o)
    ensures SessionLogs(decode, [o]) == LogsOfOutput(decode, o)
  {
    assert [o][..0] == [];
  }

  lemma TwoOutputs(decode: Decoder, o: Output, o': Output)
    ensures Replay(decode, [o, o']) == Step(decode, Step(decode, Acc("", "", "", None), o), o')
  {
    assert [o, o'][..1] == [o];
    OneOutput(decode, o);
  }

  /** `a + "\n"` holds just the line `a`, or nothing when `a` is blank. */
  lemma LinesOfTerminatedLine(a: string)
    requires '\n' !in a
    ensures Lines(a + "\n") == if IsBlank(a) then [] else [a]
  {
    LinesAtNewline(a, "");
    assert a + "\n" + "" == a + "\n";
    LinesOfOneLine(a);
    LinesOfOneLine("");
  }

  /** Lines none of which decodes contribute neither text nor a history id. */
  lemma {:induction false} NothingDecodes(decode: Decoder, lines: seq<string>, init: Option<string>)
    requires forall j :: 0 <= j < |lines| ==> decode(lines[j]).None?
    ensures TextOf(decode, lines) == ""
    ensures LastHistory(decode, lines, init) == init
    decreases |lines|
  {
    if |lines| > 0 {
      NothingDecodes(decode, lines[..|lines| - 1], init);
    }
  }

  /** `lines` written out as complete records, each ended by a line break. */
  function Records(lines: seq<string>): string {
    if |lines| == 0 then "" else lines[0] + "\n" + Records(lines[1..])
  }

  /** Of complete records the handler visits exactly the non-blank ones. */
  lemma {:induction false} LinesOfRecords(lines: seq<string>)
    requires forall i :: 0 <= i < |lines| ==> '\n' !in lines[i]
    ensures Lines(Records(lines)) == KeepContentLines(lines)
    decreases |lines|
  {
    if |lines| == 0 {
      LinesOfOneLine("");
    } else {
      LinesOfRecords(lines[1..]);
      LinesAtNewline(lines[0], Records(lines[1..]));
      LinesOfOneLine(lines[0]);
    }
  }

  /** The filter keeps every line that is not blank. */
  lemma {:induction false} KeepsRecordLines(lines: seq<string>)
    requires forall i :: 0 <= i < |lines| ==> !IsBlank(lines[i])
    ensures KeepContentLines(lines) == lines
    decreases |lines|
  {
    if |lines| > 0 {
      KeepsRecordLines(lines[1..]);
    }
  }

  /** What two text records contribute, one after the other. */
  lemma TwoTextRecords(decode: Decoder, a: string, b: string, t1: string, t2: string)
    requires DecodesToText(decode, a, t1) && DecodesToText(decode, b, t2)
    requires t1 != "" && t2 != ""
    ensures TextOf(decode, [a, b]) == t1 + t2
    ensures LastHistory(decode, [a, b], None) == None
    ensures InfoLogs(decode, [a, b]) == [LogMessage(Info, a), LogMessage(Info, b)]
  {
    assert [a, b] == [a] + [b];
    OneLine(decode, a, None);
    OneLine(decode, b, None);
    TextOfConcat(decode, [a], [b]);
    LastHistoryConcat(decode, [a], [b], None);
    InfoLogsConcat(decode, [a], [b]);
  }

  /** A call whose child printed one chunk and exited 0. */
  lemma OneChunkThenSuccess(decode: Decoder, chunk: string)
    ensures Expected(decode, [StdoutData(chunk)], Closed(Some(0)))
         == Finalize(Some(0), chunk, "", TextOf(decode, Lines(chunk)), LastHistory(decode, Lines(chunk), None))
    ensures SessionLogs(decode, [StdoutData(chunk)]) == InfoLogs(decode, Lines(chunk))
  {
    OneOutput(decode, StdoutData(chunk));
    assert "" + chunk == chunk;
  }

  /**
   * A chunk holding two text records, then exit 0: the result is their texts
   * concatenated (`Hello, ` and `world` give `Hello, world`), and each record
   * is logged once. `LinesOfRecords` and `KeepsRecordLines` show that
   * `Records([a, b])` is such a chunk.
   */
  lemma TextRecordsAreConcatenated(decode: Decoder, chunk: string, a: string, b: string, t1: string, t2: string)
    requires Lines(chunk) == [a, b]
    requires DecodesToText(decode, a, t1) && DecodesToText(decode, b, t2) && t1 != "" && t2 != ""
    ensures Expected(decode, [StdoutData(chunk)], Closed(Some(0))) == Resolved(GeminiResult(t1 + t2, None))
    ensures SessionLogs(decode, [StdoutData(chunk)]) == [LogMessage(Info, a), LogMessage(Info, b)]
  {
    TwoTextRecords(decode, a, b, t1, t2);
    OneChunkThenSuccess(decode, chunk);
  }

  /**
   * A history record `{"type":"historyId","result":id}`, then exit 0: the
   * call reports `id`; with no text record the result is the raw output.
   */
  lemma HistoryIdIsReported(decode: Decoder, line: string, id: string)
    requires IsRecordLine(line)
    requires decode(line) == Some(Event("historyId", None, Some(id)))
    ensures Expected(decode, [StdoutData(line + "\n")], Closed(Some(0)))
         == Resolved(GeminiResult(line + "\n", Some(id)))
  {
    LinesOfTerminatedLine(line);
    OneLine(decode, line, None);
    OneOutput(decode, StdoutData(line + "\n"));
  }

  /**
   * Raw output that is no record at all, then exit 0: the result falls back
   * to everything printed, and nothing is logged.
   */
  lemma PlainOutputIsTheResult(decode: Decoder, chunk: string)
    requires forall l :: l in Lines(chunk) ==> decode(l).None?
    ensures Expected(decode, [StdoutData(chunk)], Closed(Some(0))) == Resolved(GeminiResult(chunk, None))
    ensures SessionLogs(decode, [StdoutData(chunk)]) == []
  {
    var lines := Lines(chunk);
    assert forall j :: 0 <= j < |lines| ==> lines[j] in lines;
    NothingDecodes(decode, lines, None);
    OneOutput(decode, StdoutData(chunk));
    NoLogsWithoutRecords(decode, lines);
  }

  lemma {:induction false} NoLogsWithoutRecords(decode: Decoder, lines: seq<string>)
    requires forall l :: l in lines ==> decode(l).None?
    ensures InfoLogs(decode, lines) == []
    decreases |lines|
  {
    if |lines| > 0 {
      var init := lines[..|lines| - 1];
      assert forall l :: l in init ==> l in lines;
      NoLogsWithoutRecords(decode, init);
    }
  }

  /** The one-line instance: `plain output`. */
  lemma PlainOutputExample(decode: Decoder)
    requires decode("plain output").None?
    ensures Expected(decode, [StdoutData("plain output")], Closed(Some(0)))
         == Resolved(GeminiResult("plain output", None))
  {
    assert "plain output"[0] == 'p';
    LinesOfOneLine("plain output");
    PlainOutputIsTheResult(decode, "plain output");
  }

  /** Exit code 1 after `boom` on stderr: the failure names both. */
  lemma ExitCodeOneWithBoom(decode: Decoder)
    ensures Expected(decode, [StderrData("boom")], Closed(Some(1)))
         == Rejected("Gemini CLI exited with code 1. Error: boom")
  {
    assert CodeText(Some(1)) == "1";
    OneOutput(decode, StderrData("boom"));
  }

  /**
   * A chunk whose lines are a text record, a line that does not decode, and
   * another text record: the bad line is skipped, the records around it still
   * count, and it is not logged.
   */
  lemma MalformedLineIsSkipped(decode: Decoder, chunk: string, a: string, bad: string, b: string, t1: string, t2: string)
    requires Lines(chunk) == [a, bad, b]
    requires DecodesToText(decode, a, t1) && DecodesToText(decode, b, t2) && t1 != "" && t2 != ""
    requires decode(bad).None?
    ensures Expected(decode, [StdoutData(chunk)], Closed(Some(0))) == Resolved(GeminiResult(t1 + t2, None))
    ensures SessionLogs(decode, [StdoutData(chunk)]) == [LogMessage(Info, a), LogMessage(Info, b)]
  {
    RecordsAroundBadLine(decode, Lines(chunk), a, bad, b, t1, t2);
    assert Finalize(Some(0), chunk, "", t1 + t2, None) == Resolved(GeminiResult(t1 + t2, None));
    OneChunkThenSuccess(decode, chunk);
  }

  /** The line-level half of the scenario above: the bad line between two text records adds nothing. */
  lemma RecordsAroundBadLine(decode: Decoder, lines: seq<string>, a: string, bad: string, b: string, t1: string, t2: string)
    requires lines == [a, bad, b]
    requires DecodesToText(decode, a, t1) && DecodesToText(decode, b, t2) && t1 != "" && t2 != ""
    requires decode(bad).None?
    ensures TextOf(decode, lines) == t1 + t2
    ensures LastHistory(decode, lines, None) == None
    ensures InfoLogs(decode, lines) == [LogMessage(Info, a), LogMessage(Info, b)]
  {
    assert lines == [a] + [bad] + [b];
    assert [a, b] == [a] + [b];
    UndecodableLineIsIgnored(decode, [a], bad, [b], None);
    TwoTextRecords(decode, a, b, t1, t2);
  }

  /**
   * A text record that arrives split across two chunks is lost: each half is
   * tried on its own and fails to decode, so the result falls back to the
   * raw output, while the same record in one chunk gives its text.
   */
  lemma RecordSplitAcrossChunksIsLost(decode: Decoder, front: string, back: string, t: string)
    requires IsRecordLine(front + back) && DecodesToText(decode, front + back, t) && t != ""
    requires decode(front).None? && decode(back).None?
    ensures Expected(decode, [StdoutData(front + back + "\n")], Closed(Some(0)))
         == Resolved(GeminiResult(t, None))
    ensures Expected(decode, [StdoutData(front), StdoutData(back + "\n")], Closed(Some(0)))
         == Resolved(GeminiResult(front + back + "\n", None))
  {
    WholeRecord(decode, front + back, t);
    assert forall i :: 0 <= i < |front| ==> front[i] == (front + back)[i];
    assert forall i :: 0 <= i < |back| ==> back[i] == (front + back)[|front| + i];
    SplitRecord(decode, front, back);
  }

  lemma WholeRecord(decode: Decoder, whole: string, t: string)
    requires IsRecordLine(whole) && DecodesToText(decode, whole, t) && t != ""
    ensures Expected(decode, [StdoutData(whole + "\n")], Closed(Some(0))) == Resolved(GeminiResult(t, None))
  {
    var chunk := whole + "\n";
    LinesOfTerminatedLine(whole);
    assert Lines(chunk) == [whole];
    OneLine(decode, whole, None);
    assert TextOf(decode, Lines(chunk)) == t && LastHistory(decode, Lines(chunk), None) == None;
    assert Finalize(Some(0), chunk, "", t, None) == Resolved(GeminiResult(t, None));
    OneChunkThenSuccess(decode, chunk);
  }

  /** A fragment without a line break that does not decode adds nothing but raw output. */
  lemma SilentFragment(decode: Decoder, fragment: string)
    requires '\n' !in fragment && decode(fragment).None?
    ensures TextOf(decode, Lines(fragment)) == "" && LastHistory(decode, Lines(fragment), None) == None
    ensures TextOf(decode, Lines(fragment + "\n")) == "" && LastHistory(decode, Lines(fragment + "\n"), None) == None
  {
    LinesOfOneLine(fragment);
    LinesOfTerminatedLine(fragment);
    var lines := Lines(fragment);
    assert forall j :: 0 <= j < |lines| ==> lines[j] == fragment;
    NothingDecodes(decode, lines, None);
  }

  lemma SplitRecord(decode: Decoder, front: string, back: string)
    requires '\n' !in front && '\n' !in back
    requires decode(front).None? && decode(back).None?
    ensures Expected(decode, [StdoutData(front), StdoutData(back + "\n")], Closed(Some(0)))
         == Resolved(GeminiResult(front + back + "\n", None))
  {
    SplitRecordState(decode, front, back);
    assert front + (back + "\n") == front + back + "\n";
  }

  lemma SplitRecordState(decode: Decoder, front: string, back: string)
    requires '\n' !in front && '\n' !in back
    requires decode(front).None? && decode(back).None?
    ensures Replay(decode, [StdoutData(front), StdoutData(back + "\n")]) == Acc(front + (back + "\n"), "", "", None)
  {
    TwoOutputs(decode, StdoutData(front), StdoutData(back + "\n"));
    var first := Step(decode, Acc("", "", "", None), StdoutData(front));
    assert first == Acc(front, "", "", None) by {
      SilentFragment(decode, front);
      assert "" + front == front;
    }
    assert Step(decode, first, StdoutData(back + "\n")) == Acc(front + (back + "\n"), "", "", None) by {
      SilentFragment(decode, back);
    }
  }

  /**
   * Two calls on one session, one after the other: each settles exactly as it
   * would alone, and the session only gains each call's messages in turn.
   * Every call aggregates in a state of its own.
   */
  method TwoCalls(decode: Decoder, session: Session, first: seq<Output>, firstEnd: Termination,
                  second: seq<Output>, secondEnd: Termination)
    returns (o1: Outcome, o2: Outcome)
    modifies session
    ensures o1 == Expected(decode, first, firstEnd) && o2 == Expected(decode, second, secondEnd)
    ensures session.messages == old(session.messages) + SessionLogs(decode, first) + SessionLogs(decode, second)
  {
    o1 := Run(decode, session, first, firstEnd);
    o2 := Run(decode, session, second, secondEnd);
  }
}
