/**
 * How a call settles: the `close` handler turns the exit code and the
 * accumulated state into the promise's value or its rejection, and the
 * `error` handler rejects when the process could not be spawned.
 */
module Finalizer {
  import opened Wrappers
  import opened Text

  /** The promise's value `{ result, historyId }`; an undefined `historyId` is `None`. */
  datatype GeminiResult = GeminiResult(result: string, historyId: Option<string>)

  /** A settled promise: resolved with a value or rejected with an `Error` message. */
  datatype Outcome = Resolved(value: GeminiResult) | Rejected(message: string)

  /**
   * How the child process ended: `close` with its exit code (`None` is the
   * `null` code of a process killed by a signal), or `error` when it could
   * not be started.
   */
  datatype Termination = Closed(code: Option<int>) | SpawnFailed(reason: string)

  /** `${code}`: the decimal code, or `null` exactly when there is no code. */
  function CodeText(code: Option<int>): (s: string)
    ensures s == "null" <==> code.None?
    ensures '.' !in s
  {
    assert "null"[0] == 'n' && !IsDigit('n');
    match code
    case Some(n) => IntText(n)
    case None => "null"
  }

  const ExitPrefix := "Gemini CLI exited with code "
  const ErrorSeparator := ". Error: "

  const SpawnPrefix := "Failed to spawn Gemini CLI: "

  /** The message of a non-zero or null exit: it names the code and carries all of stderr. */
  function ExitMessage(code: Option<int>, stderr: string): (m: string)
    ensures |m| >= |ExitPrefix| && m[..|ExitPrefix|] == ExitPrefix
    ensures Contains(m, CodeText(code)) && Contains(m, stderr)
  {
    var m := ExitPrefix + CodeText(code) + ErrorSeparator + stderr;
    ContainsInfix(ExitPrefix, CodeText(code), ErrorSeparator + stderr);
    assert m == ExitPrefix + CodeText(code) + (ErrorSeparator + stderr);
    ContainsInfix(ExitPrefix + CodeText(code) + ErrorSeparator, stderr, "");
    assert m == ExitPrefix + CodeText(code) + ErrorSeparator + stderr + "";
    m
  }

  /** The message of a failed spawn: it carries the reason after a fixed prefix. */
  function SpawnMessage(reason: string): (m: string)
    ensures |m| >= |SpawnPrefix| && m[..|SpawnPrefix|] == SpawnPrefix
    ensures Contains(m, reason)
  {
    ContainsInfix(SpawnPrefix, reason, "");
    assert SpawnPrefix + reason + "" == SpawnPrefix + reason;
    SpawnPrefix + reason
  }

  /** The `close` handler. */
  function Finalize(code: Option<int>, stdout: string, stderr: string, lastText: string, historyId: Option<string>): (o: Outcome)
    ensures o.Resolved? <==> code == Some(0)
    ensures o.Resolved? ==> o.value.historyId == historyId
    ensures o.Resolved? && lastText != "" ==> o.value.result == lastText
    ensures o.Resolved? && lastText == "" ==> o.value.result == stdout
    ensures o.Resolved? ==> (o.value.result == "" <==> lastText == "" && stdout == "")
    ensures o.Rejected? ==> Contains(o.message, CodeText(code)) && Contains(o.message, stderr)
  {
    if code == Some(0) then
      Resolved(GeminiResult(if lastText != "" then lastText else stdout, historyId))
    else
      Rejected(ExitMessage(code, stderr))
  }

  /** The first of `close` and `error` to fire settles the promise; this is the outcome for each. */
  function Settle(end: Termination, stdout: string, stderr: string, lastText: string, historyId: Option<string>): (o: Outcome)
    ensures o.Resolved? <==> end == Closed(Some(0))
    ensures o.Resolved? ==> o.value.historyId == historyId
    ensures o.Resolved? ==> o.value.result == if lastText != "" then lastText else stdout
    ensures end.SpawnFailed? ==>
      o.Rejected? && |o.message| >= |SpawnPrefix| && o.message[..|SpawnPrefix|] == SpawnPrefix
      && Contains(o.message, end.reason)
    ensures end.Closed? && o.Rejected? ==>
      |o.message| >= |ExitPrefix| && o.message[..|ExitPrefix|] == ExitPrefix
      && Contains(o.message, CodeText(end.code)) && Contains(o.message, stderr)
  {
    match end
    case Closed(code) => Finalize(code, stdout, stderr, lastText, historyId)
    case SpawnFailed(reason) => Rejected(SpawnMessage(reason))
  }

  /** `${code}` reads back to the same code: `null` or a decimal integer. */
  function ParseCode(s: string): Option<int>
    requires s == "null" || forall i :: 0 <= i < |s| ==> IsDigit(s[i]) || (i == 0 && s[i] == '-')
  {
    if s == "null" then None else Some(ParseInt(s))
  }

  lemma CodeTextRoundTrip(code: Option<int>)
    ensures '.' !in CodeText(code)
    ensures ParseCode(CodeText(code)) == code
  {
    if code.Some? {
      var s := IntText(code.value);
      IntTextRoundTrip(code.value);
      assert !IsDigit("null"[1]);
    }
  }

  /** The text before the first dot. */
  function WordBeforeDot(s: string): string {
    if |s| == 0 || s[0] == '.' then "" else [s[0]] + WordBeforeDot(s[1..])
  }

  lemma {:induction false} WordBeforeDotOf(x: string, tail: string)
    requires '.' !in x && |tail| > 0 && tail[0] == '.'
    ensures WordBeforeDot(x + tail) == x
    decreases |x|
  {
    if |x| == 0 {
      assert x + tail == tail;
    } else {
      assert (x + tail)[0] == x[0] && (x + tail)[1..] == x[1..] + tail;
      WordBeforeDotOf(x[1..], tail);
    }
  }

  /** Two messages built alike from dot-free words and a separator starting with a dot agree word for word. */
  lemma SameMessageParts(prefix: string, sep: string, x: string, x': string, e: string, e': string)
    requires '.' !in x && '.' !in x' && |sep| > 0 && sep[0] == '.'
    requires prefix + x + sep + e == prefix + x' + sep + e'
    ensures x == x' && e == e'
  {
    var m, m' := prefix + x + sep + e, prefix + x' + sep + e';
    assert m == prefix + (x + (sep + e)) && m' == prefix + (x' + (sep + e'));
    assert x + (sep + e) == m[|prefix|..] && x' + (sep + e') == m'[|prefix|..];
    WordBeforeDotOf(x, sep + e);
    WordBeforeDotOf(x', sep + e');
    assert (x + (sep + e))[|x|..] == sep + e;
    assert (x' + (sep + e'))[|x'|..] == sep + e';
    assert e == (sep + e)[|sep|..] && e' == (sep + e')[|sep|..];
  }

  /** The exit message embeds the code and the whole of stderr recoverably: equal messages come from equal codes and equal stderr text. */
  lemma ExitMessageInjective(code: Option<int>, stderr: string, code': Option<int>, stderr': string)
    requires ExitMessage(code, stderr) == ExitMessage(code', stderr')
    ensures code == code' && stderr == stderr'
  {
    CodeTextRoundTrip(code);
    CodeTextRoundTrip(code');
    SameMessageParts(ExitPrefix, ErrorSeparator, CodeText(code), CodeText(code'), stderr, stderr');
  }

  /** A spawn failure never reads like an exit failure. */
  lemma SpawnAndExitFailuresDiffer(reason: string, code: Option<int>, stderr: string)
    ensures SpawnMessage(reason) != ExitMessage(code, stderr)
  {
    assert SpawnMessage(reason)[0] == 'F' && ExitMessage(code, stderr)[0] == 'G';
  }
}
