/** `MessageFault`: failures of message lookup and formatting. */
module MessageFaults {

  const ClassName: string := "at\\peekaboo\\MessageFault"

  datatype Case =
    | UnknownError | NoMessages | NoSuchMessage | NotAMessage | FormatFailed | BadMessages
    | IncompleteFormattingContext

  const Cases: seq<Case> := [
    UnknownError, NoMessages, NoSuchMessage, NotAMessage, FormatFailed, BadMessages,
    IncompleteFormattingContext]

  function CaseName(c: Case): string {
    match c
    case UnknownError => "UnknownError"
    case NoMessages => "NoMessages"
    case NoSuchMessage => "NoSuchMessage"
    case NotAMessage => "NotAMessage"
    case FormatFailed => "FormatFailed"
    case BadMessages => "BadMessages"
    case IncompleteFormattingContext => "IncompleteFormattingContext"
  }

  function Template(c: Case): string {
    match c
    case UnknownError => "unknown error"
    case NoMessages => "no messages provided for {class}"
    case NoSuchMessage => "no message format string found for {bundle}:{key}"
    case NotAMessage => "value at {bundle}:{key} is not a message format string"
    case FormatFailed =>
      "error formatting message: ({error_code}) {error_message}\n" + "locale: {locale}\n" +
      "format: {format}\n" + "context: {context}"
    case BadMessages => "MakesMessages::MESSAGES must be an array of message formats; {type} declared"
    case IncompleteFormattingContext => "provided context does not contain values for all formatting tokens"
  }
}
