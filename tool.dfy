/**
 * The `task` tool handler: the working-directory check, the call, and the
 * shaping of its outcome into a tool reply or a thrown error.
 */
module Tool {
  import opened Wrappers
  import opened Text
  import opened Logging
  import opened Events
  import opened Finalizer
  import opened Launch
  import opened Stream

  /** The `_meta.chatwise` hint: do not submit again, and the markdown to show. */
  datatype Hint = Hint(stop: bool, markdown: string)

  /**
   * What the handler returns: text content carrying the call's value (its
   * JSON serialization is not modelled) with the hint, or the message of the
   * error it throws.
   */
  datatype Reply = Content(value: GeminiResult, hint: Hint) | ToolError(message: string)

  /** The child process the handler starts. */
  datatype Invocation = Invocation(program: string, args: seq<string>, cwd: string)

  const RunFailurePrefix := "Failed to run Gemini CLI: "

  /** The message for a missing working directory: it names the directory. */
  function DirectoryMessage(cwd: string): (m: string)
    ensures |m| >= 10 && m[..10] == "Directory "
    ensures Contains(m, cwd)
  {
    ContainsInfix("Directory ", cwd, " does not exist");
    "Directory " + cwd + " does not exist"
  }

  /**
   * The `try`/`catch` around the call: a value becomes content whose markdown
   * is the result text (`result.result || ""` never replaces it, since the
   * result is always a string), and a rejection becomes an error whose
   * message is the cause behind a fixed prefix.
   */
  function Respond(outcome: Outcome): (r: Reply)
    ensures outcome.Resolved? ==> r == Content(outcome.value, Hint(true, outcome.value.result))
    ensures outcome.Rejected? ==> r.ToolError? && r.message == RunFailurePrefix + outcome.message
  {
    match outcome
    case Resolved(v) => Content(v, Hint(true, if v.result != "" then v.result else ""))
    case Rejected(m) => ToolError(RunFailurePrefix + m)
  }

  /**
   * One tool call. `cwdExists` stands for `fs.existsSync(cwd)`; `trace` and
   * `end` for what the started child does. A missing directory is reported
   * before anything is started or logged, and is not wrapped by the `catch`.
   */
  method Call(task: string, cwd: string, historyId: Option<string>, cwdExists: bool,
              decode: Decoder, session: Session, trace: seq<Output>, end: Termination)
    returns (reply: Reply, started: Option<Invocation>)
    modifies session
    ensures !cwdExists ==> reply == ToolError(DirectoryMessage(cwd)) && started == None
    ensures !cwdExists ==> session.messages == old(session.messages)
    ensures cwdExists ==> started.Some? && started.value.program == "gemini" && started.value.cwd == cwd
    ensures cwdExists ==> IsGeminiCommandLine(started.value.args, task, historyId)
    ensures cwdExists ==> reply == Respond(Expected(decode, trace, end))
    ensures cwdExists ==> session.messages == old(session.messages) + SessionLogs(decode, trace)
  {
    if !cwdExists {
      return ToolError(DirectoryMessage(cwd)), None;
    }
    var args := BuildArgs(task, historyId);
    started := Some(Invocation("gemini", args, cwd));
    var outcome := Run(decode, session, trace, end);
    reply := Respond(outcome);
  }

  /** The three kinds of failure a caller can see never share a message. */
  lemma FailureMessagesAreDistinct(cwd: string, reason: string, code: Option<int>, stderr: string)
    ensures Respond(Rejected(SpawnMessage(reason))) != Respond(Rejected(ExitMessage(code, stderr)))
    ensures ToolError(DirectoryMessage(cwd)) != Respond(Rejected(SpawnMessage(reason)))
    ensures ToolError(DirectoryMessage(cwd)) != Respond(Rejected(ExitMessage(code, stderr)))
  {
    var spawn, exit := RunFailurePrefix + SpawnMessage(reason), RunFailurePrefix + ExitMessage(code, stderr);
    assert spawn[|RunFailurePrefix|] == 'F' && exit[|RunFailurePrefix|] == 'G';
    assert DirectoryMessage(cwd)[0] == 'D' && spawn[0] == 'F' && exit[0] == 'F';
  }
}
