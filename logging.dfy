/**
 * The protocol session's logging side channel. The server instance is shared
 * by every call; each `sendLoggingMessage` appends one message to what the
 * session has been sent.
 */
module Logging {

  datatype Level = Info | Error

  datatype LogMessage = LogMessage(level: Level, data: string)

  class Session {
    /** Every logging message sent to the session so far, oldest first. */
    var messages: seq<LogMessage>

    constructor ()
      ensures messages == []
    {
      messages := [];
    }

    method SendLoggingMessage(message: LogMessage)
      modifies this
      ensures messages == old(messages) + [message]
    {
      messages := messages + [message];
    }
  }
}
