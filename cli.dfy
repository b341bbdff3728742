/**
 * `lcats/lcats/cli.py`: the command dispatch of the `lcats` command.  The
 * "gather" and "inspect" commands hand over to other parts of the system,
 * which are parameters here; printing and the process exit are left to the
 * caller, which receives the text and the status.
 */
module Cli {
  import opened Wrappers

  const UsageMessage := "Usage: lcats <command> [<args>]\nCommands:   \n"
    + "    help      Display this help message.\n"
    + "    info      Describes LCATS, the literary captain's advisory tool system.\n"
    + "    gather    Gathers corpus data to a local database.\n"
    + "    inspect   Inspects a story JSON file and pretty-prints it.\n"
    + "    index     Preprocesses a corpus to answer questions.\n"
    + "    advise    LCATS command-line advising tool.\n"
    + "    eval      Evaluate LCATS on a benchmark suite.\n"

  const InfoMessage := "LCATS is a literary case based reasoning system."

  /** A command's reply: the text to print and the exit status. */
  datatype Reply = Reply(text: string, status: int)

  /** The reply of a command answered by the dispatcher itself, if it is one. */
  function Builtin(command: string): (r: Option<Reply>)
    ensures r.Some? <==> command in {"info", "index", "advise", "eval", "help"}
  {
    if command == "info" then Some(Reply(InfoMessage, 0))
    else if command == "index" then Some(Reply("Indexing data files is not yet implemented.", 1))
    else if command == "advise" then Some(Reply("Getting advice from LCATS is not yet implemented.", 1))
    else if command == "eval" then Some(Reply("Evaluating LCATS is not yet implemented.", 1))
    else if command == "help" then Some(Reply(UsageMessage, 0))
    else None
  }

  /**
   * `dispatch(command, args)`: `gather(args)` and `inspect(args)` stand for
   * the gatherers' and the inspector's entry points, whose exceptions pass
   * through.
   */
  function Dispatch(command: string, args: seq<string>, gather: seq<string> -> Result<Reply>,
                    inspect: seq<string> -> Result<Reply>): (r: Result<Reply>)
    ensures command == "gather" ==> r == gather(args)
    ensures command == "inspect" ==> r == inspect(args)
  {
    if command == "gather" then gather(args)
    else if command == "inspect" then inspect(args)
    else
      match Builtin(command)
      case Some(reply) => Ok(reply)
      case None => Ok(Reply("Unknown command: " + command, 1))
  }

  /** "info" and "help" answer with status 0 whatever the arguments and the other commands. */
  lemma InfoAndHelp(args: seq<string>, gather: seq<string> -> Result<Reply>, inspect: seq<string> -> Result<Reply>)
    ensures Dispatch("info", args, gather, inspect) == Ok(Reply(InfoMessage, 0))
    ensures Dispatch("help", args, gather, inspect) == Ok(Reply(UsageMessage, 0))
  {
  }

  /** The three planned commands answer with status 1, each with its own message. */
  lemma NotImplemented(args: seq<string>, gather: seq<string> -> Result<Reply>, inspect: seq<string> -> Result<Reply>)
    ensures Dispatch("index", args, gather, inspect) == Ok(Reply("Indexing data files is not yet implemented.", 1))
    ensures Dispatch("advise", args, gather, inspect) == Ok(Reply("Getting advice from LCATS is not yet implemented.", 1))
    ensures Dispatch("eval", args, gather, inspect) == Ok(Reply("Evaluating LCATS is not yet implemented.", 1))
  {
  }

  /** Any other command is unknown: status 1 and "Unknown command: <command>". */
  lemma UnknownCommand(command: string, args: seq<string>, gather: seq<string> -> Result<Reply>,
                       inspect: seq<string> -> Result<Reply>)
    requires command !in {"info", "gather", "inspect", "index", "advise", "eval", "help"}
    ensures Dispatch(command, args, gather, inspect) == Ok(Reply("Unknown command: " + command, 1))
  {
  }

  /** Apart from the two handed-over commands, the status is 0 exactly for "info" and "help". */
  lemma StatusZero(command: string, args: seq<string>, gather: seq<string> -> Result<Reply>,
                   inspect: seq<string> -> Result<Reply>)
    requires command != "gather" && command != "inspect"
    ensures var r := Dispatch(command, args, gather, inspect);
      r.Ok? && (r.value.status == 0 <==> command == "info" || command == "help")
  {
  }

  /**
   * `main()` on the argument vector `argv` (the program name first): with
   * no command the usage message and status 1, else the dispatch.
   */
  function Run(argv: seq<string>, gather: seq<string> -> Result<Reply>, inspect: seq<string> -> Result<Reply>): (r: Result<Reply>)
    ensures |argv| < 2 ==> r == Ok(Reply(UsageMessage, 1))
    ensures |argv| >= 2 ==> r == Dispatch(argv[1], argv[2..], gather, inspect)
  {
    if |argv| < 2 then Ok(Reply(UsageMessage, 1)) else Dispatch(argv[1], argv[2..], gather, inspect)
  }
}
