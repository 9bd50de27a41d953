/**
 * Decoded stream events and what each visited stdout line does to the
 * aggregation state: the text it appends, the history id it records and the
 * log message it sends.
 */
module Events {
  import opened Wrappers
  import opened Logging

  /**
   * A decoded `GeminiStreamEvent`: its `type`, and its `text` and `result`
   * fields when they are present. The other fields of the interface
   * (`toolName`, `args`, `error`) are never read.
   */
  datatype Event = Event(kind: string, text: Option<string>, result: Option<string>)

  /** `JSON.parse`: `None` when it throws. */
  type Decoder = string -> Option<Event>

  /** `event.type === "text" && event.text`: a text event with non-empty text. */
  predicate IsTextEvent(e: Event) {
    e.kind == "text" && e.text.Some? && e.text.value != ""
  }

  /** The `else if` branch: the event records a history id. */
  predicate IsHistoryEvent(e: Event) {
    !IsTextEvent(e) && e.kind == "historyId"
  }

  /** What a line appends to `lastText`. */
  function TextOfLine(decode: Decoder, line: string): (t: string)
    ensures t != "" <==> decode(line).Some? && IsTextEvent(decode(line).value)
  {
    match decode(line)
    case Some(e) => if IsTextEvent(e) then e.text.value else ""
    case None => ""
  }

  /** `Some(v)` when the line sets `currentHistoryId` to `v`; `None` when it leaves it alone. */
  function HistoryOfLine(decode: Decoder, line: string): (u: Option<Option<string>>)
    ensures u.Some? <==> decode(line).Some? && decode(line).value.kind == "historyId"
    ensures u.Some? ==> u.value == decode(line).value.result
  {
    match decode(line)
    case Some(e) => if IsHistoryEvent(e) then Some(e.result) else None
    case None => None
  }

  /** The log messages a line sends: one info message with the line itself when it decodes. */
  function LogsOfLine(decode: Decoder, line: string): (logs: seq<LogMessage>)
    ensures |logs| <= 1
    ensures logs != [] <==> decode(line).Some?
    ensures logs != [] ==> logs[0] == LogMessage(Info, line)
  {
    if decode(line).Some? then [LogMessage(Info, line)] else []
  }

  // ---------------------------------------------------------------------------
  // The effect of a sequence of lines, processed in order
  // ---------------------------------------------------------------------------

  /** What a sequence of lines appends to `lastText`. */
  function TextOf(decode: Decoder, lines: seq<string>): string
  {
    if |lines| == 0 then ""
    else TextOf(decode, lines[..|lines| - 1]) + TextOfLine(decode, lines[|lines| - 1])
  }

  /** `currentHistoryId` after the lines, starting from `init`. */
  function LastHistory(decode: Decoder, lines: seq<string>, init: Option<string>): Option<string>
  {
    if |lines| == 0 then init
    else
      var u := HistoryOfLine(decode, lines[|lines| - 1]);
      if u.Some? then u.value else LastHistory(decode, lines[..|lines| - 1], init)
  }

  /** The info messages the lines send. */
  function InfoLogs(decode: Decoder, lines: seq<string>): seq<LogMessage>
  {
    if |lines| == 0 then []
    else InfoLogs(decode, lines[..|lines| - 1]) + LogsOfLine(decode, lines[|lines| - 1])
  }

  /** Text accumulates in line order: the text of two runs of lines is the text of the first followed by that of the second. */
  lemma {:induction false} TextOfConcat(decode: Decoder, a: seq<string>, b: seq<string>)
    ensures TextOf(decode, a + b) == TextOf(decode, a) + TextOf(decode, b)
    decreases |b|
  {
    if |b| == 0 {
      assert a + b == a;
    } else {
      var b', last := b[..|b| - 1], b[|b| - 1];
      assert (a + b)[..|a + b| - 1] == a + b';
      assert (a + b)[|a + b| - 1] == last;
      assert TextOf(decode, a + b) == TextOf(decode, a + b') + TextOfLine(decode, last);
      TextOfConcat(decode, a, b');
      assert TextOf(decode, b) == TextOf(decode, b') + TextOfLine(decode, last);
      assert TextOf(decode, a) + TextOf(decode, b') + TextOfLine(decode, last)
          == TextOf(decode, a) + (TextOf(decode, b') + TextOfLine(decode, last));
    }
  }

  /** Last writer wins: processing `a` then `b` is processing `b` from the id `a` left. */
  lemma {:induction false} LastHistoryConcat(decode: Decoder, a: seq<string>, b: seq<string>, init: Option<string>)
    ensures LastHistory(decode, a + b, init) == LastHistory(decode, b, LastHistory(decode, a, init))
    decreases |b|
  {
    if |b| == 0 {
      assert a + b == a;
    } else {
      var b' := b[..|b| - 1];
      assert (a + b)[..|a + b| - 1] == a + b';
      assert (a + b)[|a + b| - 1] == b[|b| - 1];
      LastHistoryConcat(decode, a, b', init);
    }
  }

  /** Log messages are sent in line order. */
  lemma {:induction false} InfoLogsConcat(decode: Decoder, a: seq<string>, b: seq<string>)
    ensures InfoLogs(decode, a + b) == InfoLogs(decode, a) + InfoLogs(decode, b)
    decreases |b|
  {
    if |b| == 0 {
      assert a + b == a;
    } else {
      var b' := b[..|b| - 1];
      assert (a + b)[..|a + b| - 1] == a + b';
      assert (a + b)[|a + b| - 1] == b[|b| - 1];
      InfoLogsConcat(decode, a, b');
    }
  }

  /** The recorded id is the `result` of the last history event, whatever came before it. */
  lemma {:induction false} LastHistoryIsLastWriter(decode: Decoder, lines: seq<string>, init: Option<string>, k: nat)
    requires k < |lines|
    requires decode(lines[k]).Some? && decode(lines[k]).value.kind == "historyId"
    requires forall j :: k < j < |lines| ==> HistoryOfLine(decode, lines[j]).None?
    ensures LastHistory(decode, lines, init) == decode(lines[k]).value.result
    decreases |lines|
  {
    if k < |lines| - 1 {
      var prefix := lines[..|lines| - 1];
      assert forall j :: k < j < |prefix| ==> prefix[j] == lines[j];
      LastHistoryIsLastWriter(decode, prefix, init, k);
    }
  }

  /** Without any history event the id keeps its initial value. */
  lemma {:induction false} LastHistoryWithoutWriter(decode: Decoder, lines: seq<string>, init: Option<string>)
    requires forall j :: 0 <= j < |lines| ==> HistoryOfLine(decode, lines[j]).None?
    ensures LastHistory(decode, lines, init) == init
    decreases |lines|
  {
    if |lines| > 0 {
      var prefix := lines[..|lines| - 1];
      assert forall j :: 0 <= j < |prefix| ==> prefix[j] == lines[j];
      LastHistoryWithoutWriter(decode, prefix, init);
    }
  }

  /** Every message is an info message carrying, untrimmed, a line that decoded. */
  lemma {:induction false} InfoLogsCarryDecodedLines(decode: Decoder, lines: seq<string>)
    ensures forall m :: m in InfoLogs(decode, lines) ==> m.level == Info && m.data in lines && decode(m.data).Some?
    decreases |lines|
  {
    if |lines| > 0 {
      var prefix := lines[..|lines| - 1];
      InfoLogsCarryDecodedLines(decode, prefix);
      assert forall l :: l in prefix ==> l in lines;
    }
  }

  /** Processing one more line. */
  lemma NextLine(decode: Decoder, lines: seq<string>, i: nat, init: Option<string>)
    requires i < |lines|
    ensures TextOf(decode, lines[..i + 1]) == TextOf(decode, lines[..i]) + TextOfLine(decode, lines[i])
    ensures LastHistory(decode, lines[..i + 1], init) == HistoryOfLine(decode, lines[i]).GetOr(LastHistory(decode, lines[..i], init))
    ensures InfoLogs(decode, lines[..i + 1]) == InfoLogs(decode, lines[..i]) + LogsOfLine(decode, lines[i])
  {
    assert lines[..i + 1][..i] == lines[..i];
  }

  /** The effect of a single line. */
  lemma OneLine(decode: Decoder, line: string, init: Option<string>)
    ensures TextOf(decode, [line]) == TextOfLine(decode, line)
    ensures LastHistory(decode, [line], init) == HistoryOfLine(decode, line).GetOr(init)
    ensures InfoLogs(decode, [line]) == LogsOfLine(decode, line)
  {
    assert [line][..0] == [];
  }

  lemma SilentLineAddsNoText(decode: Decoder, a: seq<string>, line: string, b: seq<string>)
    requires TextOfLine(decode, line) == ""
    ensures TextOf(decode, a + [line] + b) == TextOf(decode, a + b)
  {
    OneLine(decode, line, None);
    TextOfConcat(decode, a + [line], b);
    TextOfConcat(decode, a, [line]);
    TextOfConcat(decode, a, b);
  }

  lemma SilentLineKeepsHistory(decode: Decoder, a: seq<string>, line: string, b: seq<string>, init: Option<string>)
    requires HistoryOfLine(decode, line).None?
    ensures LastHistory(decode, a + [line] + b, init) == LastHistory(decode, a + b, init)
  {
    var mid := LastHistory(decode, a, init);
    OneLine(decode, line, mid);
    LastHistoryConcat(decode, a + [line], b, init);
    LastHistoryConcat(decode, a, [line], init);
    LastHistoryConcat(decode, a, b, init);
  }

  lemma SilentLineSendsNoLog(decode: Decoder, a: seq<string>, line: string, b: seq<string>)
    requires decode(line).None?
    ensures InfoLogs(decode, a + [line] + b) == InfoLogs(decode, a + b)
  {
    OneLine(decode, line, None);
    InfoLogsConcat(decode, a + [line], b);
    InfoLogsConcat(decode, a, [line]);
    InfoLogsConcat(decode, a, b);
  }

  /** A line that does not decode changes neither the text, nor the history id, nor the log. */
  lemma UndecodableLineIsIgnored(decode: Decoder, a: seq<string>, line: string, b: seq<string>, init: Option<string>)
    requires decode(line).None?
    ensures TextOf(decode, a + [line] + b) == TextOf(decode, a + b)
    ensures LastHistory(decode, a + [line] + b, init) == LastHistory(decode, a + b, init)
    ensures InfoLogs(decode, a + [line] + b) == InfoLogs(decode, a + b)
  {
    SilentLineAddsNoText(decode, a, line, b);
    SilentLineKeepsHistory(decode, a, line, b, init);
    SilentLineSendsNoLog(decode, a, line, b);
  }

  /** A line that decodes sends exactly one info message, with the line, at its place in line order. */
  lemma DecodedLineIsLoggedOnce(decode: Decoder, a: seq<string>, line: string, b: seq<string>)
    requires decode(line).Some?
    ensures InfoLogs(decode, a + [line] + b) == InfoLogs(decode, a) + [LogMessage(Info, line)] + InfoLogs(decode, b)
  {
    OneLine(decode, line, None);
    InfoLogsConcat(decode, a + [line], b);
    InfoLogsConcat(decode, a, [line]);
  }

  /** A text event with non-empty text appends exactly that text, at its place in line order. */
  lemma TextEventAppends(decode: Decoder, a: seq<string>, line: string, b: seq<string>)
    requires decode(line).Some? && IsTextEvent(decode(line).value)
    ensures TextOf(decode, a + [line] + b) == TextOf(decode, a) + decode(line).value.text.value + TextOf(decode, b)
  {
    OneLine(decode, line, None);
    TextOfConcat(decode, a + [line], b);
    TextOfConcat(decode, a, [line]);
  }

  /** An event of any other kind (or a text event with empty text) changes nothing but the log. */
  lemma OtherEventOnlyLogs(decode: Decoder, a: seq<string>, line: string, b: seq<string>, init: Option<string>)
    requires decode(line).Some?
    requires !IsTextEvent(decode(line).value) && decode(line).value.kind != "historyId"
    ensures TextOf(decode, a + [line] + b) == TextOf(decode, a + b)
    ensures LastHistory(decode, a + [line] + b, init) == LastHistory(decode, a + b, init)
    ensures InfoLogs(decode, a + [line] + b) == InfoLogs(decode, a) + [LogMessage(Info, line)] + InfoLogs(decode, b)
  {
    SilentLineAddsNoText(decode, a, line, b);
    SilentLineKeepsHistory(decode, a, line, b, init);
    DecodedLineIsLoggedOnce(decode, a, line, b);
  }
}
