# awkify: the script list of a chat bot that runs AWK scripts

awkify is a Telegram bot. A user registers AWK scripts with `/awk <script>`, lists
them with `/all`, removes one with `/del <index>` and empties the list with
`/clear`. Every other message is fed to every stored script, and the output of
each run that did not fail and printed something is sent back. Scripts run in `gawk --sandbox` with a temporary
script file and a temporary input file. A script is accepted only if a dry run
on empty input succeeds.

This project models the per-user session and its script list, the five handlers
that read and change it, and the string handling around them:

- `Text`: `String.prototype.replace` with a string pattern, which replaces only
  the first occurrence, for a replacement without `$` patterns (as at every call
  in the source), and the decimal rendering of list indices.
- `Runner`: the interpreter's result, and the helper that removes the first
  `awk: <path>:` from stderr, as the source does. A corrected strip of
  gawk's own `gawk: <path>:` prefix sits beside it (see Findings); the
  handlers use the strip as written.
- `Commands`: the script extracted from an `/awk` message, the `/all` listing,
  removal of one entry, and the choice of which evaluation results reach the user.
  The `/all` and evaluation loops are methods proved against these functions.
- `Bot`: the session as a class whose `scripts` field the handlers update in
  place, a context whose `session` field may be missing, and one method per handler.

The interpreter is an argument of type `Interpreter` (script and input to a
result with a failure flag, stdout and stderr). The temporary script path is an
argument of `AddScript`. A handler's reply is its result. In the evaluation
handler, the result is the list of calls made and the outputs to forward.

## Model

| member | source | states |
|---|---|---|
| `Text.ReplaceFirst` | src/index.ts:50-53 | without an occurrence of the pattern the string is unchanged; otherwise exactly the leftmost occurrence is replaced and everything around it is kept |
| `Text.ReplaceFirstLength` | src/index.ts:50-53 | when the pattern occurs, one copy of it is replaced, so the length changes by the replacement's length minus the pattern's |
| `Text.ReplaceLeading` | src/index.ts:51 | a string that starts with the pattern loses exactly that leading copy |
| `Text.NatToString` | src/index.ts:77 | an index renders as a non-empty string of decimal digits without a leading zero |
| `Text.NatToStringRoundTrip` | src/index.ts:77 | reading the rendered digits back gives the index |
| `Text.NatToStringInjective` | src/index.ts:77 | different indices render differently |
| `Runner.StripPathPrefix` | src/index.ts:45 | the stderr strip as written: the first `awk: <path>:` is removed, and stderr without it is unchanged |
| `Runner.StripPathPrefixLeavesInitial` | src/index.ts:44-45 | as written, the strip applied to gawk's `gawk: <path>:<message>` diagnostic leaves `g<message>` |
| `Runner.StripDiagnosticPrefix` | src/index.ts:45 | the intended strip: the first `gawk: <path>:` is removed, and stderr without it is unchanged |
| `Runner.StripDiagnosticPrefixLeavesMessage` | src/index.ts:45 | with the intended strip, a diagnostic about the script file reaches the user as just the message |
| `Runner.Awk` | src/index.ts:36-46 | the helper passes the failure flag and stdout through untouched and removes the first `awk: <path>:` from stderr; stderr without it is unchanged |
| `Runner.AwkOnDiagnostic` | src/index.ts:42-45 | as written, a gawk diagnostic `gawk: <path>:<message>` comes out of the helper as `g<message>` |
| `Runner.AwkIntended` | src/index.ts:36-46 | the helper with the corrected strip: failure flag and stdout untouched, and a gawk diagnostic about the script file reduced to its message |
| `Commands.ExtractScript` | src/index.ts:50-53 | a message with no `/awk`, no `“` and no `”` is registered as it is |
| `Commands.ExtractScriptOfCommand` | src/index.ts:50-53 | `/awk` followed by a body without curly quotes registers exactly the body |
| `Commands.ExtractScriptFirstQuotesOnly` | src/index.ts:50-53 | only the first `“` and the first `”` become `"`; any later curly quotes are kept |
| `Commands.EntryShape` | src/index.ts:77 | an entry is the rendered index, `. `, the script, and a blank line, in that order |
| `Commands.ListingMessage` | src/index.ts:72-78 | an empty list gets the "no scripts" reply; a non-empty one begins with the `Your scripts:` header |
| `Commands.EntriesInOrder` | src/index.ts:75-78 | the listing body is the entry `i. scripts[i]` for i = 0, 1, … in insertion order |
| `Commands.ListingEntryAt` | src/index.ts:72-78 | in a non-empty listing, entry i sits after the header and the entries before it and is followed by the entries after it |
| `Commands.ListingOfOne` | src/index.ts:72-78 | after one script S is added, the listing is `Your scripts:` and the single entry `0. S` |
| `Commands.ListingEmptyIff` | src/index.ts:72-78 | the "no scripts" reply is given exactly when the list is empty |
| `Commands.FormatScripts` | src/index.ts:75-78 | the `/all` loop builds the header and one entry per script, in index order |
| `Commands.RemoveAt` | src/index.ts:86 | removing index i drops the length by one, keeps the entries before i and moves the later ones down by one, and removes exactly one copy of `scripts[i]` |
| `Commands.Outcomes` | src/index.ts:106-108 | each call gets the interpreter's result for its own script and input |
| `Commands.Forwarded` | src/index.ts:109-113 | at most one output per result, and no output is empty |
| `Commands.ForwardedMembership` | src/index.ts:106-116 | a string is sent back if and only if some run did not fail and printed exactly that string |
| `Commands.ForwardedMultiplicity` | src/index.ts:106-116 | each string is sent exactly as many times as runs did not fail and printed it, so repeated scripts give repeated outputs and failing or silent runs give none |
| `Commands.ForwardedAllDelivered` | src/index.ts:106-116 | when every run succeeds with output, all N outputs are sent, none dropped, duplicated or merged |
| `Commands.ForwardedIgnoresStderr` | src/index.ts:108-113 | what is sent back depends only on the failure flags and stdouts, so the stderr strip does not affect it |
| `Commands.FanOut` | src/index.ts:105-116 | exactly one call per stored script, in list order, each on the message text; the outputs are the stdouts of the runs that succeeded with output, at most one per script |
| `Bot.BotContext.EnsureScripts` | src/index.ts:30-31 | a missing session or list becomes an empty one; an existing session and list are kept; the visible list is unchanged |
| `Bot.DeletedReply` | src/index.ts:87 | the reply to a successful `/del` is `Command `, the rendered index, and ` deleted!` |
| `Bot.BotContext.Start` | src/index.ts:29-33 | `/start` creates a fresh session when there was none and otherwise keeps the existing one, leaves the list as it was and greets the user |
| `Bot.BotContext.AddScript` | src/index.ts:49-66 | a missing session is created fresh, an existing one is kept; a failing dry run on empty input leaves the list unchanged and replies with the error text followed by stderr after the helper's `awk: <path>:` strip; otherwise the extracted script is appended at the end |
| `Bot.BotContext.ListAll` | src/index.ts:69-80 | a missing session is created fresh, an existing one is kept; `/all` replies with the listing of the current list and leaves the list as it was |
| `Bot.BotContext.Delete` | src/index.ts:82-91 | an index inside the list removes that entry; a negative, too large or non-numeric index, or a missing session or list, changes nothing and gives the invalid-index reply |
| `Bot.BotContext.Clear` | src/index.ts:93-97 | the context gets a fresh, empty session whatever it held before, so clearing twice is the same as clearing once |
| `Bot.BotContext.OnText` | src/index.ts:99-118 | a missing session is created fresh, an existing one is kept; an empty list runs nothing and sends nothing; otherwise every script runs once on the message and exactly the successful non-empty outputs are sent; the list is unchanged |

## Left out

- Writing the temporary files and spawning `gawk`: the process result is the `Interpreter` argument, and the temporary path is an argument.
- The Telegram transport: `reply*` calls, Markdown rendering and the command routing are omitted. Replies are results, and the `/del` argument arrives already parsed.
- `parseInt`: `Delete` takes the parsed index as an `Option<int>`, where None stands for NaN.
- Session persistence by the session middleware, the environment and token checks at startup, `bot.launch` and signal handling are outside the model.
- Concurrency: the dry-run callback of `/awk` runs later, and other handlers may run in between. The model runs it at once.
- Bot.BotContext.OnText: the outputs come in list order. The source sends each one from its process's exit callback, whenever that process finishes. `Promise.all` receives the child process objects, not promises, so it waits for none of them. The order in which outputs are sent is therefore not modelled. `ForwardedMembership` states which strings are sent, independent of order.
- Bot.BotContext.OnText: runs the interpreter's raw result, without the stderr strip. The callback ignores stderr, and `ForwardedIgnoresStderr` shows the strip cannot change what is sent.
- `for...in` on line 76 yields the array's keys, as decimal strings. The model renders each index with `NatToString`.
- The `Interpreter` argument is a function, so two runs of the same script on the same input get the same result. Real gawk scripts can use `rand()` or `systime()`, so two such runs may differ; no contract depends on this.
- The source has no timeout and deletes no temporary files, so neither is modelled.

## Findings

| source | as written | input that shows it | evidently intended | confidence | as-written member | corrected member |
|---|---|---|---|---|---|---|
| src/index.ts:45 | removes the first `awk: <path>:` from stderr, but the command on line 44 is `gawk`, whose diagnostics begin with `gawk: <path>:` | stderr `gawk: /tmp/x:1: syntax error` with path `/tmp/x` becomes `g1: syntax error` | remove the whole `gawk: <path>:` prefix, giving `1: syntax error` | medium, not executed; rests on gawk naming itself `gawk` in its diagnostics | `Runner.StripPathPrefixLeavesInitial` | `Runner.StripDiagnosticPrefixLeavesMessage` |
