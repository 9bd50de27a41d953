# gemini-cli-mcp: the `task` call, modelled in Dafny

`gemini-cli-mcp` is an MCP server with one tool, `task`. A call checks the
working directory, then starts the `gemini` command-line agent with the task as
its prompt and asks it for streaming JSON output. It folds what the child writes
into one answer. This project models that call:

- **Launch**: the argument list `runGeminiCLI` builds. The `--history-id` pair
  is added only when the id is truthy.
- **Stream**: the per-call aggregation state (`stdout`, `stderr`, `lastText`,
  `currentHistoryId`) as a class `Aggregator`, with one method per `data`
  handler.
  - A stdout chunk is appended whole.
  - The chunk alone is split on `"\n"`, and blank lines are dropped.
  - Every remaining line is offered to the JSON decoder.
  - A line that decodes is logged at `info`. A `text` event with non-empty text
    extends `lastText`. A `historyId` event overwrites the history id.
  - A line that fails to decode is skipped.
  - A stderr chunk is appended and logged at `error`.
  - `Run` drives a fresh aggregator over the child's output in arrival order,
    then settles the call.
- **Finalizer**: `close` resolves exit code 0 with `lastText || stdout` and the
  history id. Any other code, `null` included, rejects with a message that
  embeds the code and all of stderr. The spawn `error` event rejects with its
  own message.
- **Tool**: the handler's directory check, the call, and the wrapping of the
  outcome into a reply or a `"Failed to run Gemini CLI: "` error.
- **Text**: the JavaScript string operations this relies on:
  - `trim`, over ECMA-262's WhiteSpace and LineTerminator code points;
  - `split("\n")`, which always yields at least one piece;
  - the decimal text `${code}` gives an exit code.
- **Logging**: the server's logging sink, as a `Session` whose message list
  grows with each `sendLoggingMessage`.
- **Scenarios**: whole calls on particular outputs, proved for every decoder
  that reads the lines as the records they stand for:
  - two text records, such as `Hello, ` and `world`;
  - history id `abc123`;
  - raw `plain output`;
  - exit code 1 with `boom`;
  - a malformed line between good ones;
  - a record split across two chunks;
  - two calls on one session.

`JSON.parse` is a parameter: a `Decoder`, from a line to `Some(event)` or
`None` when parsing throws. The child's behaviour is also a parameter: the
sequence of its `data` events (`Output`) and how it ended (`Termination`).
Directory existence is a boolean argument.

Four behaviours of the code are easy to misread; the model follows the code:

- A history id is passed to the agent only when it is non-empty, not whenever it
  is supplied.
- Only lines that are non-blank and decode are logged, not every raw line.
- The directory error is thrown outside the `try`, so it lacks the
  `"Failed to run Gemini CLI: "` prefix.
- A record split across two stdout chunks is lost, because every chunk is split
  on its own (`Scenarios.RecordSplitAcrossChunksIsLost`).

## Model

| member | source | states |
|---|---|---|
| Launch.BuildArgs | src/index.ts:34-38 | the arguments are `-p`, the task, `--output-format`, `stream-json`; then `--history-id` and the id exactly when the id is present and non-empty; so there are 4 or 6 |
| Launch.CommandLineIsUnique | src/index.ts:34-38 | the argument contract fixes the argument list completely |
| Logging.Session.constructor | src/index.ts:8-18 | the one server instance starts out having sent no logging messages |
| Logging.Session.SendLoggingMessage | src/index.ts:61-64 | one message is appended to the session log; nothing else changes |
| Stream.Aggregator.constructor | src/index.ts:46-49 | a new call starts with empty `stdout`, `stderr`, `lastText` and no history id |
| Stream.Aggregator.OnStdout | src/index.ts:51-75 | `stdout` gains the whole chunk, whether or not any line decodes; `stderr` is untouched; `lastText`, the history id and the log change by exactly what the chunk's content lines contribute |
| Stream.Aggregator.OnLines | src/index.ts:57-74 | the loop over the lines adds their texts in order, leaves the history id as the last history event sets it, and logs each decoded line in order |
| Stream.Aggregator.OnLine | src/index.ts:58-73 | one line: a decoded line is logged once at `info`, untrimmed; a text event's non-empty text is appended; a history event's result replaces the id; an undecodable line changes nothing |
| Stream.Aggregator.OnStderr | src/index.ts:77-83 | `stderr` gains the chunk verbatim, it is logged once at `error`, and the stdout-side state is untouched |
| Stream.Aggregator.Receive | src/index.ts:51-83 | one `data` event on either stream advances the state by one step of the reference fold `Replay` |
| Stream.ReplayAccumulates | src/index.ts:46-83 | after any output, `stdout` and `stderr` hold everything written on each stream; `lastText` holds the text of every stdout line across all chunks in arrival order; the history id is what the last history event among those lines carried |
| Stream.Run | src/index.ts:40-101 | a call settles exactly as the fold of its whole output prescribes, and the session gains exactly that call's messages in handler order |
| Events.TextOfLine | src/index.ts:59-67 | a line adds text exactly when it decodes to a `text` event with non-empty text |
| Events.HistoryOfLine | src/index.ts:59-70 | a line sets the history id exactly when it decodes to a `historyId` event, and sets it to that event's result, possibly absent |
| Events.LogsOfLine | src/index.ts:59-64 | a line sends at most one message, and sends one exactly when it decodes; that message is `info` with the untrimmed line |
| Events.TextOfConcat | src/index.ts:57-67 | the text of consecutive runs of lines is the concatenation of each run's text |
| Events.LastHistoryConcat | src/index.ts:57-70 | the history id after two runs of lines is the second run's result, starting from the first's |
| Events.InfoLogsConcat | src/index.ts:57-64 | the messages of two runs of lines are each run's messages in order |
| Events.LastHistoryIsLastWriter | src/index.ts:49-70 | when a history event has no later history event after it, the final id is that event's result, even an absent one |
| Events.LastHistoryWithoutWriter | src/index.ts:49-70 | with no history event the id keeps its starting value |
| Events.InfoLogsCarryDecodedLines | src/index.ts:59-64 | every message sent for stdout is `info`, and carries one of the lines, and that line decodes |
| Events.UndecodableLineIsIgnored | src/index.ts:58-73 | a line that fails to decode, wherever it sits, changes neither the text, nor the history id, nor the log |
| Events.DecodedLineIsLoggedOnce | src/index.ts:59-64 | a decoded line of any kind puts exactly one `info` message with that line in its place among the others |
| Events.TextEventAppends | src/index.ts:66-67 | a text event's text lands between the texts of the lines before and after it |
| Events.OtherEventOnlyLogs | src/index.ts:59-70 | an event that is neither text nor history puts its one `info` message in its place among the others, and changes neither the text nor the history id |
| Text.Trim | src/index.ts:56 | `line.trim()` is empty exactly when every character of the line is whitespace; a non-empty result neither starts nor ends with whitespace |
| Text.TrimStart | src/index.ts:56 | the result is a suffix of the input and everything dropped before it is whitespace; when non-empty, it does not start with whitespace |
| Text.TrimEnd | src/index.ts:56 | the result is a prefix of the input and everything dropped after it is whitespace; when non-empty, it does not end with whitespace |
| Text.Split | src/index.ts:56 | splitting yields at least one piece |
| Text.SplitPiecesHaveNoNewline | src/index.ts:56 | no piece of `split("\n")` contains a line break |
| Text.JoinSplit | src/index.ts:56 | joining the pieces with `"\n"` gives back the chunk |
| Text.SplitJoin | src/index.ts:56 | splitting a join of newline-free pieces gives back the pieces |
| Text.SplitAtNewline | src/index.ts:56 | splitting at a line break is splitting each side |
| Text.LinesAreNonBlankPieces | src/index.ts:56 | the lines the handler visits are exactly the pieces of the chunk that are not blank, and none holds a line break |
| Text.KeepContentLines | src/index.ts:56 | the filter never adds pieces |
| Text.KeepContentLinesMembers | src/index.ts:56 | the filter keeps exactly the pieces whose trimmed text is non-empty |
| Text.KeepContentLinesConcat | src/index.ts:56 | filtering two runs of pieces is filtering each |
| Text.LinesAtNewline | src/index.ts:56 | the lines on either side of a line break are visited in order |
| Text.LinesOfOneLine | src/index.ts:56 | a piece with no line break is visited once, unless it is blank |
| Text.BlankLineIsDropped | src/index.ts:56 | a whitespace-only line between two others is not visited at all |
| Text.NatText | src/index.ts:93 | the decimal text of a number is non-empty and all digits, and starts with `0` only for zero, so it has no leading zeros |
| Text.IntText | src/index.ts:93 | the decimal text of an integer is non-empty, starts with a minus sign exactly when the integer is negative, and is otherwise all digits |
| Text.NatTextRoundTrip | src/index.ts:93 | the decimal text of a natural number reads back as that number |
| Text.IntTextRoundTrip | src/index.ts:93 | the text of any integer is an optional minus sign and digits, and reads back as that integer |
| Text.ContainsInfix | src/index.ts:93 | a string built around a part contains that part |
| Finalizer.CodeText | src/index.ts:93 | the text of the exit code is `null` exactly when there is no code, and never holds a `.` |
| Finalizer.ExitMessage | src/index.ts:93 | the exit failure's message starts with `Gemini CLI exited with code ` and contains the code's text and all of stderr |
| Finalizer.SpawnMessage | src/index.ts:99 | the spawn failure's message starts with `Failed to spawn Gemini CLI: ` and contains the error's message |
| Finalizer.Finalize | src/index.ts:85-96 | resolves exactly on exit code 0; then the result is `lastText` when it is non-empty, otherwise `stdout` (empty only when both are), paired with the history id; any other code, `null` included, rejects with a message containing the code's text and all of stderr |
| Finalizer.Settle | src/index.ts:85-100 | the call resolves exactly when the child closes with code 0, then with `lastText` when it is non-empty, otherwise `stdout`, and the history id; a spawn failure rejects with a message that starts with `Failed to spawn Gemini CLI: ` and carries the error's message; any other close rejects with a message that starts with `Gemini CLI exited with code ` and carries the code's text and all of stderr |
| Finalizer.CodeTextRoundTrip | src/index.ts:93 | the exit code's text holds no `.`, and reads back as the code, `null` included |
| Finalizer.ExitMessageInjective | src/index.ts:93 | two exit failures with the same message had the same code and the same stderr |
| Finalizer.SpawnAndExitFailuresDiffer | src/index.ts:93-99 | a spawn failure's message is never an exit failure's |
| Tool.DirectoryMessage | src/index.ts:126 | the missing-directory message starts with `Directory ` and contains the directory |
| Tool.Respond | src/index.ts:129-152 | a value becomes content with `stop` set and markdown equal to the result text; a rejection becomes an error whose message is the cause behind `Failed to run Gemini CLI: ` |
| Tool.Call | src/index.ts:124-153 | with no directory, the call fails with the directory message; nothing is started and nothing is logged; otherwise `gemini` is started in the directory with the specified arguments, the reply wraps the call's settled outcome, and the session gains the call's messages |
| Tool.FailureMessagesAreDistinct | src/index.ts:125-151 | a missing directory, a spawn failure and an exit failure never produce the same error message |
| Scenarios.LinesOfRecords | src/index.ts:56 | a chunk of complete records, each ended by a line break, is visited as exactly its non-blank records, in order |
| Scenarios.KeepsRecordLines | src/index.ts:56 | no line that is not blank is filtered out |
| Scenarios.TextRecordsAreConcatenated | src/index.ts:51-90 | a chunk whose lines are two text records (say `Hello, ` and `world`), then exit 0, gives their texts concatenated (`Hello, world`) and no history id, with both lines logged |
| Scenarios.HistoryIdIsReported | src/index.ts:51-90 | a history record with result `id`, then exit 0, reports `id`; the result text falls back to the raw output |
| Scenarios.PlainOutputIsTheResult | src/index.ts:51-90 | output none of whose lines decodes, then exit 0, gives the raw output as the result; nothing is logged |
| Scenarios.PlainOutputExample | src/index.ts:51-90 | `plain output`, then exit 0, gives `plain output` |
| Scenarios.ExitCodeOneWithBoom | src/index.ts:77-95 | `boom` on stderr, then exit code 1, rejects with `Gemini CLI exited with code 1. Error: boom` |
| Scenarios.MalformedLineIsSkipped | src/index.ts:56-90 | an undecodable line between two text records is skipped: the result is still the two texts concatenated, and only the two records are logged |
| Scenarios.RecordSplitAcrossChunksIsLost | src/index.ts:51-88 | a text record in one chunk gives its text; split across two chunks, where neither half decodes, its text is lost and the result is the raw output |
| Scenarios.TwoCalls | src/index.ts:40-49 | two calls on one session each settle as they would alone, and the session gains each call's messages in turn |

## Left out

- Spawning the child and piping stdio (src/index.ts:41-44) are operating-system services. The child is represented by the sequence of its `data` events and its ending. `Tool.Call` returns an `Invocation` record of what would be started.
- Promise settle-once semantics, and how the stdout, stderr, `close` and `error` events interleave, are event-loop behaviour. The model takes one given order, and a call settles once, after all output.
- `JSON.parse` is an abstract `Decoder` parameter. A JSON value without a `type`, `null` or a primitive is represented as an event of some other kind: it is logged and then changes nothing, the same observable effect. A non-string `text` or `result` field is not represented.
- `Buffer.toString()` on each chunk is UTF-8 decoding. It is not modelled, so chunks arrive as strings.
- `JSON.stringify(result)` in the reply is not modelled: the content carries the `GeminiResult` value itself.
- The MCP server, its transport, `registerTool` and zod's schema validation (src/index.ts:8-18, 104-123, 156-157) are a foreign SDK and library. `sendLoggingMessage` is the `Session` message list, with no delivery.
- `fs.existsSync(cwd)` is a boolean argument of `Tool.Call`.
- The spawn error's `error.message` is the string carried by `SpawnFailed`.
- The child's ending is given as a `Termination`. A child that never emits `close` or `error` leaves the promise pending forever, because the source has no time-out; the model does not represent that case.
