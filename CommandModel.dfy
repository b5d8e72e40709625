/** The command model: one pipeline stage and its link to the next (struct command_t). */
module CommandModel {
  import opened Wrappers

  /**
   * A parsed stage. The three redirect slots are redirects[0] (input file),
   * redirects[1] (output file, truncating) and redirects[2] (output file,
   * appending); arg_count is |args|.
   */
  datatype Command = Command(
    name: string,
    args: seq<string>,
    inFile: Option<string>,
    outFile: Option<string>,
    appendFile: Option<string>,
    background: bool,
    autoComplete: bool,
    next: Option<Command>)

  /** The stage a blank line parses to: no name, nothing set. */
  const EmptyCommand := Command("", [], None, None, None, false, false, None)

  /** The stages of a pipeline in order, following next. */
  function Stages(c: Command): (s: seq<Command>)
    ensures |s| >= 1 && s[0] == c
  {
    match c.next
    case None => [c]
    case Some(n) => [c] + Stages(n)
  }
}
