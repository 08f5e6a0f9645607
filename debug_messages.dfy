/** `DebugMessages`: the two message enum cases a Handler logs while it works. */
module DebugMessages {

  const ClassName: string := "at\\exceptable\\Handler\\DebugMessages"

  datatype Case = Ignoring | Collected

  function Template(c: Case): string {
    match c
    case Ignoring => "ignored result: {result}"
    case Collected => "collected error ({result}) as {fault}"
  }
}
