/** The command line `runGeminiCLI` starts the `gemini` binary with. */
module Launch {
  import opened Wrappers

  /** JavaScript truthiness of an optional string: present and not empty. */
  predicate IsTruthy(s: Option<string>) {
    s.Some? && s.value != ""
  }

  /**
   * A command line for `task`: the prompt and the streaming output format,
   * then `--history-id` and the id exactly when an id is given and is not
   * empty.
   */
  predicate IsGeminiCommandLine(args: seq<string>, task: string, historyId: Option<string>) {
    && (|args| == 4 || |args| == 6)
    && args[..4] == ["-p", task, "--output-format", "stream-json"]
    && (|args| == 6 <==> IsTruthy(historyId))
    && (|args| == 6 ==> args[4..] == ["--history-id", historyId.value])
  }

  /** The command line is determined by the task and the history id. */
  lemma CommandLineIsUnique(args: seq<string>, args': seq<string>, task: string, historyId: Option<string>)
    requires IsGeminiCommandLine(args, task, historyId) && IsGeminiCommandLine(args', task, historyId)
    ensures args == args'
  {
    assert args == args[..4] + args[4..] && args' == args'[..4] + args'[4..];
  }

  /** `const args = [...]` and the conditional `args.push("--history-id", historyId)`. */
  method BuildArgs(task: string, historyId: Option<string>) returns (args: seq<string>)
    ensures IsGeminiCommandLine(args, task, historyId)
  {
    args := ["-p", task, "--output-format", "stream-json"];
    if IsTruthy(historyId) {
      args := args + ["--history-id", historyId.value];
    }
  }
}
