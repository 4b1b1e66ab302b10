# reSearch: the coding agent and the search-management console

This project models the two halves of the reSearch program in Dafny.

- `agent/agent.go` holds a coding agent. It runs a conversation loop with a language model. The model may answer with text or with requests to run one of three local tools (`read_file`, `list_files`, `edit_file`). The agent runs those tools against the working directory and feeds their results back to the model. When the model answers with text only, the agent asks the human for the next line.
- `main.go` is a terminal menu over a database of arXiv "searches". It lets the user create a search, page through the active searches ten at a time, view one search's details and delete a search after confirmation.

Everything is modelled as immutable data and pure functions:

- The working directory is a tree of files and directories whose entries are kept in name order. This is the order `filepath.Walk` visits them.
- Text is a sequence of characters, one character per byte.
- Standard input is a sequence of lines. A read past the end yields the empty line, as `bufio.Scanner.Text` does.
- The model's streamed replies, the user's lines, fresh ids and clock readings are all parameters.

Modules:

| file | module | what it holds |
|---|---|---|
| results.dfy | `Results` | `Option` and `Result` |
| text.dfy | `Text` | `strings.TrimSpace`, `strings.ToLower`, `strings.Replace(s, old, new, -1)`, `fmt.Sscanf("%d")`, byte-wise string order |
| fs.dfy | `FileSystem` | the directory tree; `os.ReadFile`, `os.WriteFile`, `os.MkdirAll`, `filepath.Walk` and their `*PathError` values |
| tools.dfy | `Tools` | the three tool functions and `createNewFile` |
| dispatch.dfy | `Dispatch` | the tool registry and `executeTool` |
| events.dfy | `Events` | stream fragments and the output events forwarded for them |
| conversation.dfy | `Conversation` | `Run`: the history, the phases of the loop and its invariant |
| arbiter.dfy | `Arbiter` | the four-way `select` that ends `runInference`, as written and as corrected |
| searches.dfy | `Searches` | the main menu, table cells, details view, `createNewSearch` and `deleteSearch` |
| browse.dfy | `Browse` | `manageSearches`' pagination loop and one pass of the main loop |

Four behaviours of the code that the model keeps as written:

- **Tool results are not paired with tool uses.** The assistant message that `Run` records keeps only the text blocks (agent/agent.go:194-210). The `tool_use` blocks the results answer are never put in the history. `Conversation.ToolUseNotRecorded` states this.
- **Editing replaces every occurrence.** `edit_file` replaces every occurrence of `old_str`, not one unique occurrence (agent/agent.go:427). An empty `old_str` on an existing file inserts `new_str` before every byte and at the end.
- **Duplicate tool names are not rejected.** Nothing checks for them. The first tool with the requested name runs.
- **A finished stream is not always a success.** The inference call may report a stream that stopped with an error as a success; see Findings.

## Model

| member | source | states |
|---|---|---|
| Text.TrimSpace | main.go:58 | the result is an infix of the line that neither starts nor ends with white space, with only white space cut off |
| Text.TrimSpaceIdempotent | main.go:58 | trimming an already trimmed line changes nothing |
| Text.TrimSpacePadded | main.go:188 | white space added on either side of a choice does not change its trimmed form |
| Text.ToLower | main.go:306 | same length; every upper-case ASCII letter becomes the letter 32 code points above it, every other byte is kept, and no upper-case letter is left |
| Text.ToLowerIdempotent | main.go:306 | lowering twice is lowering once |
| Text.LowerIsEqualFold | main.go:306 | lowering a line gives a lower-case word exactly when the line equals that word up to the case of its letters |
| Text.AfterEach | agent/agent.go:427 | inserting the fill after every byte multiplies the length by one plus the fill's length |
| Text.Replace | agent/agent.go:427 | `strings.Replace` with no limit; it has no contract of its own: `ReplaceLength`, `ReplaceAbsent`, `ReplaceUnchangedIffAbsent` and `ReplaceEmptyOldChanges` characterise it |
| Text.ReplaceLength | agent/agent.go:427 | replacing all n non-overlapping occurrences changes the length by n times the length difference |
| Text.CountPositive | agent/agent.go:427-431 | a non-empty pattern is counted at least once exactly when it occurs |
| Text.ReplaceIdentity | agent/agent.go:414-416 | replacing a string by itself changes nothing, the case `edit_file` rejects up front |
| Text.ReplaceAbsent | agent/agent.go:427 | a text without the pattern is returned unchanged |
| Text.ReplaceUnchangedIffAbsent | agent/agent.go:427-431 | for a non-empty pattern different from its replacement, the text is unchanged exactly when the pattern does not occur, which is the "old_str not found" test |
| Text.ReplaceEmptyOldChanges | agent/agent.go:427-431 | with an empty pattern and a non-empty replacement the text always changes, so that error is never raised |
| Text.BelowTotal | agent/agent.go:375 | byte-wise name order is total, so directory entries have one walking order |
| Text.BelowTransitive | agent/agent.go:375 | byte-wise name order is transitive |
| Text.ScanInt | main.go:202-204 | a value is read only from text holding a digit, and it always fits in 64 bits (a larger one is a parse error) |
| Text.ScanDecimal | main.go:203 | scanning a plain decimal numeral yields its value |
| Text.ScanStopsAtNonDigit | main.go:203 | the numeral ends at the first byte that is not a decimal digit, whatever follows it |
| Text.UnderscoreEndsNumeral | main.go:203 | `1_0` reads as 1 and `0x1` as 0: an underscore or a base prefix ends the numeral for `%d` |
| FileSystem.ComponentsOfJoin | agent/agent.go:380-389 | joining path components with `/` and splitting again gives back the components |
| FileSystem.SegmentsTrailingSlash | agent/agent.go:387 | a trailing `/` does not change the path's components |
| FileSystem.FindSorted | agent/agent.go:375 | in a directory with sorted names every entry is found under its own name |
| FileSystem.InsertSorted | agent/agent.go:450 | adding a new name keeps the directory sorted |
| FileSystem.ChildInsert | agent/agent.go:450 | after adding a name, only that name resolves to something new |
| FileSystem.LookupAppend | agent/agent.go:375-389 | resolving a concatenated path resolves the first part, then the rest |
| FileSystem.ReadFile | agent/agent.go:355-358 | reading succeeds exactly for a non-empty path naming a file, and yields that file's content |
| FileSystem.WriteAtFiles | agent/agent.go:433 | after a write the target holds the new content and every other path holds what it held |
| FileSystem.WriteAtValid | agent/agent.go:433 | a write keeps the tree well formed |
| FileSystem.MkdirAllFiles | agent/agent.go:444 | creating directories changes no file |
| FileSystem.MkdirAllForMissing | agent/agent.go:442-450 | when a path does not exist, creating its parent directories succeeds and writing the file then succeeds |
| FileSystem.MkdirAllValid | agent/agent.go:444 | creating directories keeps the tree well formed |
| FileSystem.MakeDirs | agent/agent.go:444-447 | after a successful `MkdirAll` the path names a directory and every file is as it was; it fails, with a not-a-directory error from `mkdir`, exactly when a prefix of the path is a regular file |
| FileSystem.MkdirAllFailsIff | agent/agent.go:444-447 | `MkdirAll` fails exactly when a prefix of the path is a regular file, and the prefix it reports is one |
| FileSystem.MkdirAllMakesDir | agent/agent.go:444-447 | after `MkdirAll` succeeds the whole path resolves to a directory |
| FileSystem.WriteFile | agent/agent.go:433-436 | a successful write stores the content at the path and leaves every other file unchanged; the empty path fails |
| FileSystem.WriteExisting | agent/agent.go:418-433 | overwriting a file that could be read always succeeds |
| FileSystem.WalkFrom | agent/agent.go:375-393 | `filepath.Walk` below one directory; it has no contract of its own: `WalkSound` and `WalkComplete` say which paths it lists, `WalkIncreasing` and `WalkDistinct` say in which order and that none is listed twice |
| FileSystem.LookupNamesValid | agent/agent.go:375-393 | a path that resolves in a well-formed tree consists of valid names |
| FileSystem.WalkSound | agent/agent.go:375-393 | every walked path exists below the root, with the right directory flag |
| FileSystem.WalkComplete | agent/agent.go:375-393 | every path below the root is walked |
| FileSystem.WalkIncreasing | agent/agent.go:375-393 | the walk is in lexical path order: names compared byte-wise component by component, each directory before everything inside it |
| FileSystem.WalkDistinct | agent/agent.go:375-393 | the walk lists no path twice |
| Tools.ReadFileTool | agent/agent.go:348-360 | `read_file` changes nothing and yields the file's content exactly when the input decodes and names a file |
| Tools.ListFiles | agent/agent.go:362-397 | the walk succeeds exactly when the listed directory resolves; it lists every path below it and nothing else |
| Tools.ListedEntriesExist | agent/agent.go:375-391 | every listed entry is a non-empty path below the listed directory, with the right directory flag |
| Tools.RenderFaithful | agent/agent.go:385-390 | a listed name is never the root `.`, ends in `/` exactly for directories, and splits back into its path |
| Tools.ListedRenderFaithful | agent/agent.go:385-390 | every entry `ListFiles` returns is printed as something other than the root, ends in `/` exactly for a directory, and splits back into its path |
| Tools.ListFilesTool | agent/agent.go:362-405 | `list_files` changes nothing and succeeds exactly when the input decodes and the walk succeeds |
| Tools.ListingExample | agent/agent.go:369-404 | listing a directory holding a file `a.txt` and an empty directory `b` yields `a.txt` then `b/` |
| Tools.CreateNewFile | agent/agent.go:441-456 | on success the file holds the content and the message names the path; no other file changes |
| Tools.CreateNewFileSucceeds | agent/agent.go:441-456 | creating a file at a path that does not exist succeeds |
| Tools.EditFile | agent/agent.go:407-439 | `edit_file` changes no file other than the one named |
| Tools.EditFileInvalid | agent/agent.go:414-416 | an empty path or identical old and new strings is rejected, and nothing changes |
| Tools.EditFileCreates | agent/agent.go:418-422 | a missing file with an empty `old_str` is created holding `new_str` |
| Tools.EditFileUnreadable | agent/agent.go:418-424 | an unreadable path fails without change unless it is missing and `old_str` is empty |
| Tools.EditFileReplaces | agent/agent.go:426-438 | a present `old_str` is replaced everywhere and "OK" returned; an absent one yields "old_str not found in file" and nothing changes |
| Tools.EditFileEmptyOldStr | agent/agent.go:426-438 | an empty `old_str` on an existing file succeeds and always changes it |
| Tools.EditFileFailureChangesNothing | agent/agent.go:407-439 | a failed edit leaves the directory as it was |
| Dispatch.DefaultTools | agent/agent.go:114 | the registry holds `read_file`, `list_files` and `edit_file`, in that order |
| Dispatch.FindTool | agent/agent.go:148-156 | the lookup finds the first tool with the name, and finds none exactly when no tool has it |
| Dispatch.ExecuteTool | agent/agent.go:147-167 | the result answers the request's id; an unknown name gives "tool not found" as an error, with no event and no change; a known one emits one "Using tool" note |
| Dispatch.ExecuteToolRunsFirstMatch | agent/agent.go:150-166 | the first tool with the name runs; its error becomes an error result and its output a plain result |
| Dispatch.UnknownDefaultTool | agent/agent.go:157-159 | a name outside the three registered tools yields "tool not found" |
| Events.Forward | agent/agent.go:294-303 | the events forwarded while streaming; it has no contract of its own: `ForwardAppend` fixes the events of each fragment and their place, `ForwardFaithful` and `ForwardOnlyRawAndContent` summarise the whole stream |
| Events.ForwardFaithful | agent/agent.go:290-303 | the forwarded raw events are exactly the fragments, in order; the forwarded text is exactly the streamed text; one extra event per text delta |
| Events.ForwardOnlyRawAndContent | agent/agent.go:294-303 | streaming forwards only raw and content events |
| Events.ForwardAppend | agent/agent.go:294-303 | one more fragment appends its raw event and, straight after it, its text as a content event when it is a text delta, and nothing else |
| Conversation.DispatchBlocks | agent/agent.go:194-203 | the assistant message keeps exactly the text blocks, in order; there are as many results as tool uses |
| Conversation.DispatchAnswers | agent/agent.go:194-203 | the k-th result is a tool result answering the id of the k-th tool use |
| Conversation.DispatchEvents | agent/agent.go:194-203 | going through the blocks shows only progress notes, at most one per tool result |
| Conversation.NoToolUseKeepsFs | agent/agent.go:194-203 | a reply without tool uses runs no tool and emits no tool event |
| Conversation.StepModel | agent/agent.go:181-224 | an inference error ends the run with the history untouched; otherwise the assistant message is appended, then either the tool results, after which the model is called again, or nothing, after which the human is asked and no tool has run |
| Conversation.StepModelAnswers | agent/agent.go:194-218 | after tool calls the appended user message answers every tool use of the response, in order, under its id |
| Conversation.StepModelEvents | agent/agent.go:181-224 | a model turn first shows the assistant prefix; after tool calls it does not show the user prefix; otherwise the user prefix is the last thing shown |
| Conversation.StepUser | agent/agent.go:225-237 | end of input closes the conversation; a line is appended as a user message |
| Conversation.Run | agent/agent.go:169-241 | the history and the events only grow, a finished run stays finished, and the loop invariant holds throughout |
| Conversation.StartValid | agent/agent.go:170-179 | the seeded history satisfies the loop invariant |
| Conversation.ModelSeesUserLast | agent/agent.go:181-184 | whenever the model is called the history ends with a user message |
| Conversation.ResultsAreNotToolUse | agent/agent.go:198-201 | the synthetic user message holds no tool use |
| Conversation.StepModelValid | agent/agent.go:181-221 | a model turn keeps the roles alternating |
| Conversation.StepUserValid | agent/agent.go:224-237 | a user turn keeps the roles alternating |
| Conversation.ToolUseNotRecorded | agent/agent.go:194-218 | a reply that is one tool use records an empty assistant message followed by the result for its id |
| Arbiter.SelectAsWritten | agent/agent.go:283-343 | as written, a success can only carry the accumulated message of a task that is no longer running |
| Arbiter.StoppedTaskCanSucceedAsWritten | agent/agent.go:307-331 | as written, a task that stopped with an error also closes `done`, and choosing that case returns the partial message as a success |
| Arbiter.ReadyAsWritten | agent/agent.go:283-343 | as written, `done` is ready once the goroutine has ended in any way, so after an error both `done` and `errCh` are ready |
| Arbiter.Ready | agent/agent.go:328-343 | in the corrected arbiter the completion case is ready only after the stream is drained, the error case only after an error |
| Arbiter.Select | agent/agent.go:328-343 | in the corrected arbiter a success implies a fully drained stream; an error, cancellation or shutdown gives its own message |
| Arbiter.TurnOfAsWritten | agent/agent.go:184-187 | as written, a successful turn carries the accumulated message of a goroutine that has ended, drained or not; a failed open gives its error and no fragments |
| Arbiter.StoppedTurnSucceedsAsWritten | agent/agent.go:184-187 | as written, the conversation can be handed a successful turn holding the partial message of a stream that stopped on an error |
| Arbiter.TurnOf | agent/agent.go:184-187 | in the corrected arbiter the turn handed to the conversation succeeds only when the stream was drained |
| Searches.Action | main.go:62-89 | "1" creates, "2" manages, "3" to "5" are not yet available, exactly "q", "Q", "exit" and "quit" quit, anything else is invalid |
| Searches.MenuIgnoresPadding | main.go:57-62 | surrounding white space does not change the menu's decision |
| Searches.PaddedQuitQuits | main.go:58-85 | "quit" padded with white space quits |
| Searches.UpperCaseQuitRejected | main.go:83-88 | "QUIT" is an invalid option: the match is case-sensitive |
| Searches.Abbreviate | main.go:153-162 | a cell is at most the width; a longer value keeps its first width-3 bytes followed by "..." |
| Searches.AbbreviateIdempotent | main.go:153-162 | abbreviating twice is abbreviating once |
| Searches.DescriptionCell | main.go:153-156 | descriptions longer than 22 keep their first 19 bytes followed by "..." |
| Searches.UrlCell | main.go:159-162 | URLs longer than 26 keep their first 23 bytes followed by "..." |
| Searches.DefaultIfNullRoundTrip | main.go:288-293 | a stored value reads back as itself and a missing one as the default; a result other than the default comes from a valid value |
| Searches.DetailsRoundTrip | main.go:239-245 | whatever the row stored comes back in the details: the stored results per fetch or 50, and the stored last fetch or "Never" |
| Searches.Remove | main.go:338 | deleting keeps exactly the records with another id |
| Searches.RemoveAbsent | main.go:338 | deleting an id no record has changes nothing |
| Searches.RemoveIdempotent | main.go:338 | deleting twice is deleting once |
| Searches.Confirmed | main.go:305-308 | the answer that confirms a deletion; it has no contract of its own: `ConfirmedIffEqualFold` characterises it |
| Searches.ConfirmedIffEqualFold | main.go:305-308 | a line confirms exactly when, trimmed, it equals "y" or "yes" up to the case of its letters |
| Searches.ShoutedYesConfirms | main.go:305-308 | "YES" with surrounding white space confirms |
| Searches.OtherAnswersDecline | main.go:305-311 | "yep" and the empty line cancel the deletion |
| Searches.DeleteSearch | main.go:296-345 | one line is read; a confirmed deletion removes exactly the searches with that id; anything else leaves the database unchanged |
| Searches.FindSearch | main.go:224-228 | the lookup yields a record with the id, or none when no record has it |
| Searches.ViewSearchDetails | main.go:220-285 | the details view only ever deletes, and only when the search exists and the choice is "d" |
| Searches.CreateNewSearch | main.go:348-394 | a record is built exactly when the trimmed description and URL are both non-empty; an empty description stops before the URL is read; the record has the given id, both timestamps equal, 50 results per fetch and no last fetch |
| Searches.CreatedFieldsTrimmed | main.go:353-366 | a stored description and URL are non-empty and already trimmed |
| Searches.CreatedDetails | main.go:239-245 | a new search shows 50 results per fetch and "Never" as its last fetch |
| Browse.Page | main.go:115-125 | a page is the up to ten consecutive searches from the offset, and empty past the end |
| Browse.Navigate | main.go:188-215 | "b" leaves; "n" turns the page only when it is full; "p" turns back only past the first page; a number from 1 to the page's length selects that row |
| Browse.NumberSelectsRow | main.go:202-205 | typing a row's number in decimal selects that row |
| Browse.ListStep | main.go:118-216 | an empty first page leaves; an empty later page steps back one page without reading; a page forward only follows a full page; the database only loses records; on a non-empty page each navigation has its own lemma below, and `Navigate` ties each navigation to the typed choice |
| Browse.ListStepBack | main.go:192-193 | on a non-empty page, "b" returns to the menu with the database unchanged |
| Browse.ListStepNextPage | main.go:194-196 | on a full page, "n" lists the next page, ten further on |
| Browse.ListStepPreviousPage | main.go:197-199 | past the first page, "p" lists the page before |
| Browse.ListStepOpensSelected | main.go:200-205 | a shown row's number opens the details of that row's search, then lists again at the same offset |
| Browse.ListStepStays | main.go:200-214 | any other input changes nothing and lists the same page again |
| Browse.ListStepKeepsGrid | main.go:115-199 | the offset stays a multiple of ten |
| Browse.ListStepDeletesOnlyShown | main.go:192-216 | the listing only changes the database when the typed line selects a row of a non-empty page, and then it removes exactly the search on that row and nothing else |
| Browse.ManageSearches | main.go:111-217 | managing searches never adds a search |
| Browse.FullLastPageStepsBack | main.go:131-196 | with exactly ten searches, "n" turns to an empty page, which steps straight back to the first page |
| Browse.MainStep | main.go:51-90 | only a quit word stops the loop; creating adds the new record when one was built, at the end of the listing order, and nothing otherwise |
| Browse.MainStepOthers | main.go:62-89 | choices other than creating add nothing; unavailable and invalid choices only wait for Enter |
| Browse.EndOfInputNeverQuits | main.go:57-88 | at the end of input the main loop goes round forever without quitting |

## Left out

- JSON: tool inputs arrive already decoded, as a record of fields or a decoding error message. The `list_files` output is assembled as `null` or a bracketed list of quoted names, without JSON string escaping. The input schemas (`GenerateSchema`) are not modelled.
- Stream accumulation: the SDK's `Message.Accumulate` is not modelled. An inference call's outcome is a parameter: the content blocks it yields, or its error.
- Concurrency: the goroutine, the channels, `Close` and the 100-event buffer are reduced to the set of `select` cases that are ready when `runInference` waits. Closing `done` twice in `Close` and blocking on a full output channel are not modelled.
- The Anthropic client, the system prompt, the model name and the token limit: calls into code outside this repository.
- File system:
  - Symbolic links, permissions, file modes and I/O errors are not modelled.
  - Absolute paths, `..` and the host's current directory are not modelled: `..` is an ordinary name.
  - The model chooses to split paths on `/` and drop empty and `.` components, so `a//b/` and `a/b` name the same file. The OS differs when a `/` or a `.` component follows a file name: opening `x.txt/` or `x.txt/.` fails with ENOTDIR where the model reads `x.txt`, and `createNewFile` on `new/` makes the directory `new` and then fails with EISDIR. So `Tools.EditFileCreates` and `Tools.EditFileFailureChangesNothing` hold for such paths only under this choice.
  - The `*PathError` path for a failing `MkdirAll` is the joined prefix, not the caller's spelling.
- Unicode: `TrimSpace`, `ToLower`, `Replace` and the cell widths work on bytes. Non-ASCII white space and case mappings are not modelled.
- Text.ScanInt: `%d` reads an optional sign and decimal digits, as Go's scanner does for that verb. The numeral ends at the first other byte: `1_0` reads as 1 and `0x1` as 0. Leading white space is not skipped, because every scanned choice is already trimmed.
- Browse.MainStep: a new search is placed last in listing order. The `ListActiveSearches` query and its ordering are not part of this model, so this placement is the model's choice.
- Database: the `searches` queries are not part of this model. The active searches are a sequence in listing order, and query errors are not modelled.
- Creation ids and timestamps: `uuid.New` and `time.Now` are parameters.
- Output formatting: dates, table borders and the `[DEBUG]` lines are printing only. The one-second pauses are left out.
- Browse.ManageSearches: the listing loop runs for at most `fuel` passes, because the program's loop ends only on user input.
- Conversation.Run: the conversation is driven by scripted turns and inputs and stops when they run out.
- The check `rel != "."` in `ListFiles`: `WalkFrom` simply never yields the root.

## Findings

| source | as written | input that shows it | evidently intended | confidence | as-written member | corrected member |
|---|---|---|---|---|---|---|
| agent/agent.go:283-343 | The streaming goroutine's deferred cleanup closes `done` on every exit. This includes the exits right after it sends an accumulation, cancellation or stream error on `errCh`. When the `errCh` send and the `close(done)` both happen before `runInference` enters its `select`, Go picks at random between the two ready cases. This happens when the goroutine reaches its error exit before `runInference` has reached the `select`, for example when the stream fails at once and the scheduler runs the goroutine first. A `select` that is already blocked is woken by the `errCh` send, and then the error wins. | A stream whose last fragment fails to accumulate, or that ends with a stream error: `SelectAsWritten(Streaming(partial, Stopped(e), NoSignal), DoneCase)` returns `Ok(partial)` | An error stops the call; `done` signals success only after the stream was drained. | not executed | Arbiter.StoppedTaskCanSucceedAsWritten | Arbiter.Select |
