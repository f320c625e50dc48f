/**
 * The argument router at the bottom of the tool: which of its commands a command line
 * selects, and the exit status each outcome ends with.
 */
module Cli {
  import opened Wrappers
  import Workflow

  /** What the tool does for a command line. */
  datatype Command =
    | ShowHelp                                   // help text, exit 0
    | ListRecipes                                // recipe listing, exit 0, or 1 when a README read throws
    | UseRecipe(recipe: string, targetDir: string)
    | MissingArguments                           // `use` without both operands, exit 1
    | UnknownCommand(command: string)            // error, then the help text, exit 1

  const HelpWords: seq<string> := ["help", "--help", "-h"]

  /**
   * `args` are the words after the program name. A missing word (`undefined`) and the
   * empty word are both falsy, so both count as absent.
   */
  function Dispatch(args: seq<string>): (c: Command)
    ensures c == ShowHelp <==> |args| == 0 || args[0] == "" || args[0] in HelpWords
    ensures c == ListRecipes <==> |args| > 0 && args[0] == "list"
    ensures c == MissingArguments <==>
              |args| > 0 && args[0] == "use" && (|args| < 3 || args[1] == "" || args[2] == "")
    ensures c.UseRecipe? <==> |args| >= 3 && args[0] == "use" && args[1] != "" && args[2] != ""
    ensures c.UseRecipe? ==> c.recipe == args[1] && c.targetDir == args[2]
    ensures c.UnknownCommand? <==>
              |args| > 0 && args[0] != "" && args[0] !in HelpWords && args[0] != "list" && args[0] != "use"
    ensures c.UnknownCommand? ==> c.command == args[0]
  {
    if |args| == 0 || args[0] == "" || args[0] in HelpWords then
      ShowHelp
    else if args[0] == "list" then
      ListRecipes
    else if args[0] == "use" then
      if |args| < 3 || args[1] == "" || args[2] == "" then MissingArguments
      else UseRecipe(args[1], args[2])
    else
      UnknownCommand(args[0])
  }

  /**
   * The exit status. `outcome` is what the command's work on the disk produced, and only
   * matters for `list` and `use`. `use` runs `copyRecipe`, which exits with 1 on its own
   * refusals and ends the process with an uncaught exception (status 1) on an I/O or
   * parse failure. `list` reads each recipe's `README.md` that exists, and one that cannot
   * be read (a directory, or a file without read permission) throws in the same way.
   */
  function ExitStatus(c: Command, outcome: Result<(), Workflow.RecipeError>): (status: int)
    ensures status == 0 || status == 1
    ensures status == 0 <==> c == ShowHelp || ((c == ListRecipes || c.UseRecipe?) && outcome.Success?)
  {
    match c
    case ShowHelp => 0
    case ListRecipes => if outcome.Success? then 0 else 1
    case UseRecipe(_, _) => if outcome.Success? then 0 else 1
    case MissingArguments => 1
    case UnknownCommand(_) => 1
  }

  /** Extra words after `use <recipe> <directory>` are ignored. */
  lemma {:induction false} ExtraArgumentsIgnored(args: seq<string>, extra: seq<string>)
    requires |args| >= 3 && args[0] == "use"
    ensures Dispatch(args + extra) == Dispatch(args)
  {
    var all := args + extra;
    assert all[0] == args[0] && all[1] == args[1] && all[2] == args[2];
  }
}
