/**
 * The body of `runGeminiCLI` once the child is running: the state its
 * `data` handlers accumulate, and the call as a whole, driven by the order
 * in which the child's output reaches the handlers.
 */
module Stream {
  import opened Wrappers
  import opened Text
  import opened Logging
  import opened Events
  import opened Finalizer

  /** The closure state of one call, updated by the stdout and stderr `data` handlers. */
  class Aggregator {
    /** `JSON.parse`, as the handler sees it. */
    const decode: Decoder
    /** The shared server the handlers log to. */
    const session: Session

    var stdout: string
    var stderr: string
    var lastText: string
    var currentHistoryId: Option<string>

    constructor (decode: Decoder, session: Session)
      ensures this.decode == decode && this.session == session
      ensures stdout == "" && stderr == "" && lastText == "" && currentHistoryId == None
    {
      this.decode := decode;
      this.session := session;
      stdout, stderr, lastText, currentHistoryId := "", "", "", None;
    }

    /**
     * The stdout `data` handler: keep the raw chunk, then visit the chunk's
     * non-blank lines in order.
     */
    method OnStdout(chunk: string)
      modifies this, session
      ensures stdout == old(stdout) + chunk
      ensures stderr == old(stderr)
      ensures lastText == old(lastText) + TextOf(decode, Lines(chunk))
      ensures currentHistoryId == LastHistory(decode, Lines(chunk), old(currentHistoryId))
      ensures session.messages == old(session.messages) + InfoLogs(decode, Lines(chunk))
    {
      stdout := stdout + chunk;
      OnLines(Lines(chunk));
    }

    /** The `for (const line of lines)` loop of the stdout handler. */
    method OnLines(lines: seq<string>)
      modifies this, session
      ensures stdout == old(stdout) && stderr == old(stderr)
      ensures lastText == old(lastText) + TextOf(decode, lines)
      ensures currentHistoryId == LastHistory(decode, lines, old(currentHistoryId))
      ensures session.messages == old(session.messages) + InfoLogs(decode, lines)
    {
      for i := 0 to |lines|
        invariant stdout == old(stdout) && stderr == old(stderr)
        invariant lastText == old(lastText) + TextOf(decode, lines[..i])
        invariant currentHistoryId == LastHistory(decode, lines[..i], old(currentHistoryId))
        invariant session.messages == old(session.messages) + InfoLogs(decode, lines[..i])
      {
        NextLine(decode, lines, i, old(currentHistoryId));
        OnLine(lines[i]);
      }
      assert lines[..|lines|] == lines;
    }

    /**
     * The body of the line loop: a line that decodes is logged; a text event
     * extends the text and a history event replaces the history id. A line
     * that does not decode is ignored.
     */
    method OnLine(line: string)
      modifies this, session
      ensures stdout == old(stdout) && stderr == old(stderr)
      ensures lastText == old(lastText) + TextOfLine(decode, line)
      ensures currentHistoryId == HistoryOfLine(decode, line).GetOr(old(currentHistoryId))
      ensures session.messages == old(session.messages) + LogsOfLine(decode, line)
    {
      var event := decode(line);
      if event.Some? {
        session.SendLoggingMessage(LogMessage(Info, line));
        var e := event.value;
        if e.kind == "text" && e.text.Some? && e.text.value != "" {
          lastText := lastText + e.text.value;
        } else if e.kind == "historyId" {
          currentHistoryId := e.result;
        }
      }
    }

    /** The stderr `data` handler: keep the chunk and log it verbatim as an error. */
    method OnStderr(chunk: string)
      modifies this, session
      ensures stderr == old(stderr) + chunk
      ensures stdout == old(stdout) && lastText == old(lastText) && currentHistoryId == old(currentHistoryId)
      ensures session.messages == old(session.messages) + [LogMessage(Error, chunk)]
    {
      stderr := stderr + chunk;
      session.SendLoggingMessage(LogMessage(Error, chunk));
    }

    /** The four accumulators as one value. */
    function State(): Acc
      reads this
    {
      Acc(stdout, stderr, lastText, currentHistoryId)
    }

    /** A `data` event of either stream reaches its handler. */
    method Receive(output: Output)
      modifies this, session
      ensures State() == Step(decode, old(State()), output)
      ensures session.messages == old(session.messages) + LogsOfOutput(decode, output)
    {
      match output
      case StdoutData(chunk) =>
        OnStdout(chunk);
        assert stderr == old(stderr) + StderrPart(output);
      case StderrData(chunk) =>
        OnStderr(chunk);
        assert LinesOfOutput(output) == [];
        assert stdout == old(stdout) + StdoutPart(output);
        assert lastText == old(lastText) + TextOfOutput(decode, output);
    }
  }

  // ---------------------------------------------------------------------------
  // A whole call, driven by the child's output
  // ---------------------------------------------------------------------------

  /** One `data` event of the child, on stdout or on stderr. */
  datatype Output = StdoutData(chunk: string) | StderrData(chunk: string)

  /** What one event adds to `stdout`. */
  function StdoutPart(output: Output): string {
    if output.StdoutData? then output.chunk else ""
  }

  /** What one event adds to `stderr`. */
  function StderrPart(output: Output): string {
    if output.StderrData? then output.chunk else ""
  }

  /** The lines of one event that the stdout handler visits. */
  function LinesOfOutput(output: Output): seq<string> {
    if output.StdoutData? then Lines(output.chunk) else []
  }

  /** What one event appends to `lastText`. */
  function TextOfOutput(decode: Decoder, output: Output): string {
    TextOf(decode, LinesOfOutput(output))
  }

  /** `currentHistoryId` after one event, from `before`. */
  function HistoryAfter(decode: Decoder, output: Output, before: Option<string>): Option<string> {
    LastHistory(decode, LinesOfOutput(output), before)
  }

  /** The log messages one event sends. */
  function LogsOfOutput(decode: Decoder, output: Output): seq<LogMessage> {
    match output
    case StdoutData(chunk) => InfoLogs(decode, Lines(chunk))
    case StderrData(chunk) => [LogMessage(Error, chunk)]
  }

  /** The accumulators `stdout`, `stderr`, `lastText` and `currentHistoryId`. */
  datatype Acc = Acc(stdout: string, stderr: string, lastText: string, historyId: Option<string>)

  /** The state after one more event. */
  function Step(decode: Decoder, before: Acc, output: Output): Acc {
    Acc(before.stdout + StdoutPart(output), before.stderr + StderrPart(output),
        before.lastText + TextOfOutput(decode, output), HistoryAfter(decode, output, before.historyId))
  }

  /** The state after a sequence of events, from the initial one. */
  function Replay(decode: Decoder, trace: seq<Output>): Acc {
    if |trace| == 0 then Acc("", "", "", None) else Step(decode, Replay(decode, trace[..|trace| - 1]), trace[|trace| - 1])
  }

  /** Everything the child wrote on stdout, in order. */
  function StdoutOf(trace: seq<Output>): string {
    if |trace| == 0 then "" else StdoutOf(trace[..|trace| - 1]) + StdoutPart(trace[|trace| - 1])
  }

  /** Everything the child wrote on stderr, in order. */
  function StderrOf(trace: seq<Output>): string {
    if |trace| == 0 then "" else StderrOf(trace[..|trace| - 1]) + StderrPart(trace[|trace| - 1])
  }

  /** The lines the stdout handler visits, chunk after chunk. */
  function StreamLines(trace: seq<Output>): seq<string> {
    if |trace| == 0 then [] else StreamLines(trace[..|trace| - 1]) + LinesOfOutput(trace[|trace| - 1])
  }

  /** The log messages a call sends to the session, in the order the handlers run. */
  function SessionLogs(decode: Decoder, trace: seq<Output>): seq<LogMessage> {
    if |trace| == 0 then [] else SessionLogs(decode, trace[..|trace| - 1]) + LogsOfOutput(decode, trace[|trace| - 1])
  }

  /** Receiving one more output event. */
  lemma NextOutput(decode: Decoder, trace: seq<Output>, i: nat)
    requires i < |trace|
    ensures Replay(decode, trace[..i + 1]) == Step(decode, Replay(decode, trace[..i]), trace[i])
    ensures SessionLogs(decode, trace[..i + 1]) == SessionLogs(decode, trace[..i]) + LogsOfOutput(decode, trace[i])
  {
    assert trace[..i + 1][..i] == trace[..i];
  }

  /**
   * After any output, `stdout` and `stderr` hold all the child wrote on each
   * stream, `lastText` is the text of every stdout line across chunks in
   * arrival order, and `currentHistoryId` is what the last history event
   * among those lines carried.
   */
  lemma {:induction false} ReplayAccumulates(decode: Decoder, trace: seq<Output>)
    ensures Replay(decode, trace).stdout == StdoutOf(trace)
    ensures Replay(decode, trace).stderr == StderrOf(trace)
    ensures Replay(decode, trace).lastText == TextOf(decode, StreamLines(trace))
    ensures Replay(decode, trace).historyId == LastHistory(decode, StreamLines(trace), None)
    decreases |trace|
  {
    if |trace| > 0 {
      var prefix := trace[..|trace| - 1];
      ReplayAccumulates(decode, prefix);
      TextOfConcat(decode, StreamLines(prefix), LinesOfOutput(trace[|trace| - 1]));
      LastHistoryConcat(decode, StreamLines(prefix), LinesOfOutput(trace[|trace| - 1]), None);
    }
  }

  /** How the call settles, computed from the whole of what the child wrote. */
  function Expected(decode: Decoder, trace: seq<Output>, end: Termination): Outcome {
    var final := Replay(decode, trace);
    Settle(end, final.stdout, final.stderr, final.lastText, final.historyId)
  }

  /**
   * `runGeminiCLI` from the spawn on: a fresh aggregation state receives the
   * child's output in arrival order, then `close` or `error` settles the call.
   */
  method Run(decode: Decoder, session: Session, trace: seq<Output>, end: Termination) returns (outcome: Outcome)
    modifies session
    ensures outcome == Expected(decode, trace, end)
    ensures session.messages == old(session.messages) + SessionLogs(decode, trace)
  {
    ghost var sent := session.messages;
    var state := new Aggregator(decode, session);
    for i := 0 to |trace|
      invariant state.decode == decode && state.session == session
      invariant state.State() == Replay(decode, trace[..i])
      invariant session.messages == sent + SessionLogs(decode, trace[..i])
    {
      NextOutput(decode, trace, i);
      ghost var logs, more := SessionLogs(decode, trace[..i]), LogsOfOutput(decode, trace[i]);
      assert sent + logs + more == sent + (logs + more) by {
        var left, right := sent + logs + more, sent + (logs + more);
        forall k | 0 <= k < |left| ensures left[k] == right[k] {
          if k >= |sent| + |logs| { assert left[k] == more[k - |sent| - |logs|] == right[k]; }
        }
      }
      state.Receive(trace[i]);
    }
    assert trace[..|trace|] == trace;
    outcome := Settle(end, state.stdout, state.stderr, state.lastText, state.currentHistoryId);
  }
}
