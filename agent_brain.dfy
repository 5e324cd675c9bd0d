/**
 * The agent's command router (src/AgentBrain.js): a lower-cased command is
 * tested against a fixed chain of phrases; the first phrase it includes picks
 * the reply, and a command including none gets the "not recognized" reply.
 */
module Brain {
  import opened Wrappers
  import opened Text

  /** The `{ reasoning, result }` object `handleCommand` resolves to. */
  datatype Reply = Reply(reasoning: string, result: string)

  /** The phrases tested, in the order of the `if` chain. */
  const Phrases: seq<string> := ["list files", "check dependencies", "todo app", "login", "build", "explain"]

  const ListFilesReasoning := "Listing project files using FileHandler stub."
  const NoFiles := "No files found."
  const DependenciesReply := Reply("Checking minimal dependencies for agent.",
    Join(["async", "archiver", "chalk", "readable-stream (if needed)"], ", "))
  const TodoAppReply := Reply("User requested a React todo app. Suggesting file structure and code.",
    Join(["Create src/TodoApp.jsx with a basic React todo component.",
          "Update routing or main entry to include TodoApp."], "\n"))
  const LoginReply := Reply("User wants a login screen. Suggesting file and code stub.",
    "Create src/Login.jsx and add form fields for username/password.")
  const BuildReply := Reply("User wants to build the project. Running build scripts.",
    "Executing: npm run build")
  const ExplainReply := Reply("User asked for an explanation. Parsing and summarizing function.",
    "This function handles user commands and routes them to the correct logic.")
  const UnknownReasoning := "Command not recognized. No action taken."

  /**
   * The `list files` result: the names from `globalThis.FileHandler.listFiles`
   * (`None` when there is no lister) joined by newlines, or `'No files found.'`
   * when that string is empty.
   */
  function ListFilesResult(lister: Option<seq<string>>): (r: string)
    ensures r != ""
    ensures Join(lister.GetOr([]), "\n") != "" ==> r == Join(lister.GetOr([]), "\n")
    ensures Join(lister.GetOr([]), "\n") == "" ==> r == NoFiles
  {
    var joined := Join(lister.GetOr([]), "\n");
    if joined == "" then NoFiles else joined
  }

  /** The fallback reply, quoting the command as typed. */
  function Unknown(command: string): Reply {
    Reply(UnknownReasoning, "Sorry, I do not understand: \"" + command + "\"")
  }

  /** `handleCommand(command)` with the file lister the global `FileHandler` offers. */
  function Respond(command: string, lister: Option<seq<string>>): (r: Reply)
    ensures r.reasoning != "" && r.result != ""
  {
    var cmd := Lower(command);
    if Contains(cmd, "list files") then Reply(ListFilesReasoning, ListFilesResult(lister))
    else if Contains(cmd, "check dependencies") then DependenciesReply
    else if Contains(cmd, "todo app") then TodoAppReply
    else if Contains(cmd, "login") then LoginReply
    else if Contains(cmd, "build") then BuildReply
    else if Contains(cmd, "explain") then ExplainReply
    else Unknown(command)
  }

  /** The reply of branch `i` of the chain, `Phrases[i]` being its test. */
  function BranchReply(i: nat, lister: Option<seq<string>>): Reply
    requires i < |Phrases|
  {
    [Reply(ListFilesReasoning, ListFilesResult(lister)), DependenciesReply, TodoAppReply,
     LoginReply, BuildReply, ExplainReply][i]
  }

  /**
   * The chain is a first-match table: the reply is that of the first phrase,
   * in chain order, that the lower-cased command includes, and the fallback
   * when it includes none.
   */
  lemma RespondIsFirstMatch(command: string, lister: Option<seq<string>>)
    ensures match FirstContained(Lower(command), Phrases)
      case Some(i) => Respond(command, lister) == BranchReply(i, lister)
      case None => Respond(command, lister) == Unknown(command)
  {
    match FirstContained(Lower(command), Phrases)
    case Some(i) => FirstMatchAnswers(command, lister, i);
    case None => NoMatchFallsBack(command, lister);
  }

  lemma FirstMatchAnswers(command: string, lister: Option<seq<string>>, i: nat)
    requires FirstContained(Lower(command), Phrases) == Some(i)
    ensures Respond(command, lister) == BranchReply(i, lister)
  {
    var cmd := Lower(command);
    RespondChain(command, lister);
    assert Contains(cmd, Phrases[i]);
    assert forall j :: 0 <= j < i ==> !Contains(cmd, Phrases[j]);
    if i == 0 {
    } else if i == 1 {
      assert !Contains(cmd, Phrases[0]);
    } else if i == 2 {
      assert !Contains(cmd, Phrases[0]) && !Contains(cmd, Phrases[1]);
    } else if i == 3 {
      assert !Contains(cmd, Phrases[0]) && !Contains(cmd, Phrases[1]) && !Contains(cmd, Phrases[2]);
    } else if i == 4 {
      assert !Contains(cmd, Phrases[0]) && !Contains(cmd, Phrases[1]) && !Contains(cmd, Phrases[2]);
      assert !Contains(cmd, Phrases[3]);
    } else {
      assert !Contains(cmd, Phrases[0]) && !Contains(cmd, Phrases[1]) && !Contains(cmd, Phrases[2]);
      assert !Contains(cmd, Phrases[3]) && !Contains(cmd, Phrases[4]);
    }
  }

  lemma NoMatchFallsBack(command: string, lister: Option<seq<string>>)
    requires FirstContained(Lower(command), Phrases).None?
    ensures Respond(command, lister) == Unknown(command)
  {
    var cmd := Lower(command);
    RespondChain(command, lister);
    assert !Contains(cmd, Phrases[0]) && !Contains(cmd, Phrases[1]) && !Contains(cmd, Phrases[2]);
    assert !Contains(cmd, Phrases[3]) && !Contains(cmd, Phrases[4]) && !Contains(cmd, Phrases[5]);
  }

  /** The `if` chain, read through `Phrases` and `BranchReply`. */
  lemma RespondChain(command: string, lister: Option<seq<string>>)
    ensures var cmd := Lower(command);
      Respond(command, lister) ==
        if Contains(cmd, Phrases[0]) then BranchReply(0, lister)
        else if Contains(cmd, Phrases[1]) then BranchReply(1, lister)
        else if Contains(cmd, Phrases[2]) then BranchReply(2, lister)
        else if Contains(cmd, Phrases[3]) then BranchReply(3, lister)
        else if Contains(cmd, Phrases[4]) then BranchReply(4, lister)
        else if Contains(cmd, Phrases[5]) then BranchReply(5, lister)
        else Unknown(command)
  {
  }

  /**
   * Dispatch is case-insensitive: commands that lower-case alike get the same
   * reasoning, and the same result unless they fall through to the fallback,
   * whose result quotes each command as typed.
   */
  lemma RespondCaseInsensitive(a: string, b: string, lister: Option<seq<string>>)
    requires Lower(a) == Lower(b)
    ensures Respond(a, lister).reasoning == Respond(b, lister).reasoning
    ensures Respond(a, lister).reasoning != UnknownReasoning ==> Respond(a, lister) == Respond(b, lister)
    ensures Respond(a, lister).reasoning == UnknownReasoning ==>
      Respond(a, lister).result == "Sorry, I do not understand: \"" + a + "\"" &&
      Respond(b, lister).result == "Sorry, I do not understand: \"" + b + "\""
  {
  }

  /** `list files` wins over every later phrase, e.g. over `build`. */
  lemma ListFilesWinsOverBuild(lister: Option<seq<string>>)
    ensures Respond("Build and LIST FILES", lister).reasoning == ListFilesReasoning
  {
    var command, head, phrase := "Build and LIST FILES", "build and ", "list files";
    var cmd := head + phrase;
    assert forall i :: 0 <= i < |command| ==> LowerChar(command[i]) == cmd[i];
    assert Lower(command) == cmd;
    assert cmd[|head|..|head| + |phrase|] == phrase;
    ContainsAt(cmd, phrase, |head|);
  }

  class AgentBrain {
    /** Set to the empty list by the constructor and never written afterwards. */
    var history: seq<Reply>

    constructor ()
      ensures history == []
    {
      history := [];
    }

    /** `handleCommand(command, context)`; `context` is unused by the source. */
    method HandleCommand(command: string, lister: Option<seq<string>>) returns (r: Reply)
      ensures r == Respond(command, lister)
      ensures history == old(history)
    {
      r := Respond(command, lister);
    }
  }
}
