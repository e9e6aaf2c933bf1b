/**
 * Choosing the agent command line program (src/utils/aiCommand.ts). Whether a
 * program is on the PATH (`which`, a process call) is the `available`
 * predicate.
 */
module AiCommand {
  import opened Strings

  /**
   * `resolveAiCommand`: a non-blank override, trimmed; otherwise `chatgpt` when
   * it is installed, else `codex` when that is, else `chatgpt` anyway.
   */
  function ResolveAiCommand(override: string, available: string -> bool): (r: string)
    ensures Trim(override) != [] ==> r == Trim(override)
    ensures Trim(override) == [] ==> (r == "codex" <==> !available("chatgpt") && available("codex"))
    ensures Trim(override) == [] ==> (r == "chatgpt" <==> available("chatgpt") || !available("codex"))
    ensures r != [] && !IsSpace(r[0]) && !IsSpace(r[|r| - 1])
  {
    var trimmed := Trim(override);
    if |trimmed| > 0 then trimmed
    else if available("chatgpt") then "chatgpt"
    else if available("codex") then "codex"
    else "chatgpt"
  }

  /** `codex` is chosen only when asked for by name, or when it is the only one of the two installed. */
  lemma CodexOnlyWhen(override: string, available: string -> bool)
    requires ResolveAiCommand(override, available) == "codex"
    ensures Trim(override) == "codex"
      || (Trim(override) == [] && !available("chatgpt") && available("codex"))
  {
  }

  /** Feeding the chosen command back in as the override chooses it again, whatever is installed. */
  lemma ResolveIsStable(override: string, available: string -> bool, later: string -> bool)
    ensures var r := ResolveAiCommand(override, available);
      ResolveAiCommand(r, later) == r
  {
    var r := ResolveAiCommand(override, available);
    TrimOfTrimmed(r);
  }
}
