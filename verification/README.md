# Ontrak: a verified model of its protocols and text algorithms

A Dafny model of the parts of the Ontrak repository that carry real invariants. Code that
the repository writes as loops over mutable state is a method or a class here, proved
against a function; what it promises is then proved of that function for all inputs.

| files | what they model |
|---|---|
| `EditScript`, `EditOrder`, `LineDiff`, `Lines`, `Hunks` | the line diff of `ontrak-genie/src/diff.ts`: trimming, the flat LCS table, the walk, the coarse fallback, the hunks |
| `TextBuffer`, `ChainWalk`, `Transcript`, `AgentTurn` | one turn of `ontrak-genie/src/agent.ts`: streamed text that may be held back, a fallback chain that grows while it is walked, tool calls behind an approval gate, the stuck-loop counter, the transcript |
| `Approval` | the approval desk of `ontrak-genie/src/approval.ts` |
| `CanonicalJson`, `JsonReader`, `Packet` | the canonical printer, a reader for it, and the signed packet of `scripts/verify-packet.ts` |
| `MeteredRun`, `StreamMeter` | the charge, run and refund protocol and the usage splitter of `g0dm0d3/src/app.js` and `g0dm0d3/src/credits.js` |
| `Inspector` | the visual inspector's undo history (`ontrak-bolt/public/inspector-script.js`) |
| `StringSpans` | the string-literal scanner of `scripts/secret-scan.py` |
| `ChangeSet` | proposals and their application (`ontrak-genie/src/change-set.ts`, `ontrak-genie/src/proposals.ts`) |
| `Highlight` | the highlighter (`ontrak-genie/public/highlight.js`) |

Gateway replies, tool results, approval answers, lost calls, chunk boundaries, digests,
regular expressions, path collation and the browser's CSS are parameters: the results hold
for every choice of them. `hide` statements only keep definitions a proof does not need out
of the solver's way.

## Where the code and its own words part

Each of these is proved, with the exact condition or a concrete case:

- The diff is not always shortest: past the matrix ceiling it is only when the trimmed
  middles share no line (`EditScript.DiffIsMinimalIff`, `EditScript.FallbackCanBeFar`).
- `MAX_DIFF_LINES` is described as a number of changed lines but counts context, so a long
  unchanged file is "truncated" (`Hunks.TruncationCountsContext`, `Hunks.UnchangedFileTruncated`).
- A hunk has three context lines in front and up to four behind (`Hunks.IsRange`).
- A code fence split by a chunk boundary is not held (`TextBuffer.SplitFenceIsShown`);
  exactly the split ones are missed (`TextBuffer.StreamSettles`).
- A model unknown to one gateway is left out of the retry on the other too, since models are
  dropped by name (`ChainWalk.OneNameOnBothGateways`); only refused entries are left out
  exactly when no name is on both (`ChainWalk.OnlyRefusedLeftOutIff`).
- A prompt that reuses a waiting id puts the first out of reach of any answer
  (`Approval.ReusedIdOrphans`, `Approval.OpenOpenAnswer`); the desk stays in order exactly
  without such reuse (`Approval.Desk.RequestApproval`). The only caller,
  `ontrak-genie/src/agent.ts:870-882`, draws a fresh UUID for every prompt.
- A run that produced nothing is not always refunded, as `g0dm0d3/src/app.js:20-23` says it
  is: it gets its price back exactly when the attempt that was told of the charge met no 200,
  its refund call arrived, and no refund of zero was booked before it
  (`MeteredRun.GivenBackIff`). The promise fails for a stream that dies before its first byte
  (`MeteredRun.DeadStreamIsPaid`), for a lost refund call (`MeteredRun.LostRefundIsPaid`) and
  for a charge whose answer was lost (`MeteredRun.LostAnswerIsPaid`).
- If the control plane books a grant of zero credits under its reference, as the comment at
  `g0dm0d3/src/app.js:938-939` suggests, an unpaid duplicate can use up the refund of the
  attempt that paid (`MeteredRun.DuplicateSwallowsRefund`); if it does not, a refund of zero
  leaves it as it was (`MeteredRun.FirstRefundDecides`).
- A change proposed while the set is being applied is forgotten unwritten
  (`ChangeSet.Workspace.Apply`), harmless exactly when it repeats what the set holds
  (`ChangeSet.LateProposalsLostIff`); a set discarded meanwhile is written all the same.
- An untracked style property declared back at its original loses its value
  (`Inspector.Inspector.EditStyle`), and undo on an empty history throws. The panel in the
  repository edits only tracked properties.
- A selected element that leaves the document with edits pending locks the inspector
  (`Inspector.Inspector.HandleAll`), and nothing else does (`Inspector.Inspector.MoveOn`).
- `inside_spans` and the reading of quotes differ at the very end of a line
  (`StringSpans.FindSpans`).

## Model

| member | source | states |
|---|---|---|
| `EditScript.DiffIsMinimalIff` | ontrak-genie/src/diff.ts:77-132 | the script is a shortest one for the untrimmed files, among all scripts with the same two sides, if and only if the trimmed middles fit the matrix ceiling or have no line in common |
| `EditScript.FallbackCanBeFar` | ontrak-genie/src/diff.ts:97-100 | 2001 equal lines between different first and last lines are reported as 4006 changes where 4 would do |
| `EditScript.DiffIsValid` | ontrak-genie/src/diff.ts:58-137 | in both branches dropping the additions gives the old lines and dropping the deletions gives the new ones; the numbers of kept, deleted and added lines are exact, so deletions plus additions are the two lengths minus twice the LCS of the untrimmed files whenever the table is used |
| `EditScript.NoScriptKeepsMore` | ontrak-genie/src/diff.ts:103-112 | no edit script whatever keeps more lines than the recurrence of the table says |
| `EditScript.MinimalMeansLcs` | ontrak-genie/src/diff.ts:103-131 | a script is shortest exactly when it keeps as many lines as the recurrence says |
| `EditScript.LcsTrim` | ontrak-genie/src/diff.ts:77-104 | trimming loses nothing: the LCS of the files is the LCS of the middles plus the trimmed head and tail |
| `EditScript.LcsSharedHead` | ontrak-genie/src/diff.ts:77-80 | a shared head is worth exactly its length |
| `EditScript.LcsSharedTail` | ontrak-genie/src/diff.ts:81-90 | a shared tail is worth exactly its length |
| `EditScript.HeadIsLongest` | ontrak-genie/src/diff.ts:79-80 | the trimmed head is a common prefix, and no longer one exists |
| `EditScript.TailIsLongest` | ontrak-genie/src/diff.ts:81-90 | the trimmed tail is a common suffix of what the head leaves, and no longer one exists |
| `EditScript.TrimParts` | ontrak-genie/src/diff.ts:92-95 | head, middle and tail put together are the two files again |
| `EditScript.AlignKeepsLcs` | ontrak-genie/src/diff.ts:115-131 | the walk that deletes on `>=` transforms one middle into the other and keeps as many lines as the recurrence allows |
| `EditOrder.AlignDeletesFirst` | ontrak-genie/src/diff.ts:117-129 | on a tie the walk deletes, so it never turns from adding to deleting |
| `EditOrder.DiffDeletesFirst` | ontrak-genie/src/diff.ts:77-132 | in every diff, in both branches, no addition stands directly in front of a deletion |
| `EditScript.MiddleIsValid` | ontrak-genie/src/diff.ts:97-132 | both the table branch and the coarse replacement transform the middle; the coarse one keeps nothing |
| `EditScript.SwapSwapsCounts` | ontrak-genie/src/diff.ts:77-132 | swapping the two files swaps the counts of added and removed lines, in either branch |
| `EditScript.SideLengths` | ontrak-genie/src/diff.ts:191-196 | for every script the lengths of its two sides are kept plus deleted and kept plus added lines, so added minus removed is the difference of the lengths |
| `EditScript.NoChangesMeansEqual` | ontrak-genie/src/diff.ts:58-137 | a diff without changes is reported exactly for equal line lists |
| `EditScript.LcsZeroMeansDisjoint` | ontrak-genie/src/diff.ts:97-100 | the recurrence is zero exactly for line lists without a common line, which is when the coarse replacement is no worse |
| `LineDiff.BuildOps` | ontrak-genie/src/diff.ts:58-137 | trim, table, walk and fallback, as loops: the lines are those of the diff script; the old and the new column each read 1, 2, 3 to the end of its file, each line is in exactly the columns its kind says, and deletions stand in front of additions |
| `LineDiff.NumbersCountUp` | ontrak-genie/src/diff.ts:63-75 | numbering any script makes each column count up from 1 without gaps |
| `LineDiff.FillTable` | ontrak-genie/src/diff.ts:102-113 | the flat 32-bit table holds, in every cell, the recurrence for the two suffixes it stands for |
| `LineDiff.FillCell` | ontrak-genie/src/diff.ts:106-112 | one cell is computed from its three neighbours; no other cell changes and nothing leaves the 32-bit range |
| `LineDiff.LcsFits` | ontrak-genie/src/diff.ts:97-104 | no cell of a table under the ceiling can overflow 32 bits |
| `LineDiff.FlatInRange` | ontrak-genie/src/diff.ts:104-112 | every flat index used lies inside the array |
| `LineDiff.FlatInjective` | ontrak-genie/src/diff.ts:104-112 | different cells have different flat indices |
| `LineDiff.Walk` | ontrak-genie/src/diff.ts:115-131 | the walk over the finished table records exactly the optimal alignment |
| `LineDiff.WalkStep` | ontrak-genie/src/diff.ts:117-129 | each step keeps, deletes or adds one line and leaves the alignment of the rest to be recorded |
| `LineDiff.SkipHead` | ontrak-genie/src/diff.ts:79-80 | the head loop stops at the end of the longest common prefix |
| `LineDiff.SkipTail` | ontrak-genie/src/diff.ts:81-90 | the tail loop stops at the start of the longest common suffix of what is left |
| `LineDiff.PushMiddle` | ontrak-genie/src/diff.ts:97-132 | the ceiling picks between the coarse replacement and the alignment |
| `LineDiff.Recorder.Push` | ontrak-genie/src/diff.ts:59-75 | a recorded line carries the numbers its place in the script demands, and the two counters stay one ahead of the two sides |
| `LineDiff.NumberAppend` | ontrak-genie/src/diff.ts:63-75 | numbering a longer script numbers the earlier lines as before |
| `Lines.ToLinesIdentifies` | ontrak-genie/src/diff.ts:50-55 | two texts have the same lines if and only if they are equal or differ by one final newline on a non-empty text that does not already end in one |
| `Lines.ToLinesMeans` | ontrak-genie/src/diff.ts:50-55 | the empty text has no lines; any other has lines without newlines in them which joined are the text but for one final newline |
| `Lines.JoinSplit` | ontrak-genie/src/diff.ts:52-52 | joining the pieces of a split gives the text back |
| `Lines.SplitLastEmpty` | ontrak-genie/src/diff.ts:53-53 | the phantom last piece is there exactly for the empty text and for texts that end in a newline |
| `Hunks.BuildHunks` | ontrak-genie/src/diff.ts:140-178 | the hunks are disjoint and ordered, more than six context lines apart, cover every change, have three lines of context before and up to four after, and patch the old file to the new one and back |
| `Hunks.Extend` | ontrak-genie/src/diff.ts:151-163 | a group is extended over every gap of at most six context lines and stops in front of seven or at the end |
| `Hunks.GroupingStep` | ontrak-genie/src/diff.ts:144-174 | starting behind the hunk just written keeps the groups disjoint and loses no change |
| `Hunks.HunkStarts` | ontrak-genie/src/diff.ts:169-172 | both start numbers are the true line numbers, because the fallback to 1 is reached only by a change at the very first line |
| `Hunks.HunksPatch` | ontrak-genie/src/diff.ts:140-178 | copying the gaps and applying the hunks in order, each checked against the old file at its old start, gives exactly the new lines |
| `Hunks.HunksPatchBack` | ontrak-genie/src/diff.ts:140-178 | the same hunks read backwards, by their new starts, turn the new lines into the old ones |
| `Hunks.GapIsContext` | ontrak-genie/src/diff.ts:144-148 | outside the groups there is no change |
| `Hunks.NoHunksMeansNoChanges` | ontrak-genie/src/diff.ts:140-178 | there are no hunks exactly when there is no change |
| `Hunks.BuildFileDiff` | ontrak-genie/src/diff.ts:181-207 | the counts are exact; unless truncated the hunks are those of a grouping of the diff and patch both ways; no change is counted, and no hunk made, exactly for texts equal up to a final newline |
| `Hunks.CountChanges` | ontrak-genie/src/diff.ts:191-196 | the counting loop counts the additions and deletions of the script |
| `Hunks.TruncationCountsContext` | ontrak-genie/src/diff.ts:43-44 | the ceiling, described as a number of changed lines, counts context too; files of two given lengths on which the readings part exist if and only if the lengths add up to at least 2002 and differ by at most 2000 |
| `Hunks.KeepsTheHead` | ontrak-genie/src/diff.ts:77-132 | files that begin alike and share no line after that keep exactly the beginning, in either branch |
| `Hunks.UnchangedFileTruncated` | ontrak-genie/src/diff.ts:198-205 | an unchanged file of 2001 lines is marked too large |
| `TextBuffer.StreamSettles` | ontrak-genie/src/agent.ts:547-593 | for every chunking what was shown is a prefix of the reply, a reply is held at most once, it is held exactly when it has a marker that no chunk boundary splits, and while it is held or suppressed nothing behind the marker was shown |
| `TextBuffer.StreamReply` | ontrak-genie/src/agent.ts:547-593 | the streaming loop emits pieces that concatenate to what the buffer has shown |
| `TextBuffer.HeldIsDecided` | ontrak-genie/src/agent.ts:584-593 | for every chunking, a held reply is suppressed if the first chunk that settles it shows it to name a tool, released if that chunk only makes it longer than the limit, and held until then |
| `TextBuffer.MarkerMeans` | ontrak-genie/src/agent.ts:252-257 | the marker is the brace or bracket behind nothing but white space, or else the first fence |
| `TextBuffer.MarkerStable` | ontrak-genie/src/agent.ts:252-257 | more text never moves a marker once there is one |
| `TextBuffer.MarkerWasThere` | ontrak-genie/src/agent.ts:252-257 | a marker that lies whole in the earlier text was found before the later text came |
| `TextBuffer.SplitAppears` | ontrak-genie/src/agent.ts:570-583 | a marker that appears with a chunk is split by a boundary exactly when it starts before that chunk |
| `TextBuffer.JsonAlwaysHeld` | ontrak-genie/src/agent.ts:252-257 | a reply that opens with JSON is held however it is chunked |
| `TextBuffer.SplitFenceIsShown` | ontrak-genie/src/agent.ts:570-583 | a fence cut in two by a chunk boundary is not held: its marker lies below what was already shown |
| `ChainWalk.Walk` | ontrak-genie/src/agent.ts:496-740 | the attempt loop over a growing list: attempts follow the chain and its repeats, an attempt is left for another only when nothing was shown and it may clear later or its model is unknown, a repeat happens only when something in the walk before it may clear, no filter ended it and no tool has run, no more often than configured; the text events are those of the last attempt, and a step gives up only with nothing left to try |
| `ChainWalk.AttemptsBounded` | ontrak-genie/src/agent.ts:496-740 | a step makes at most the length of the chain times (repeats + 1) attempts although the list grows while it is walked |
| `ChainWalk.RepeatHolds` | ontrak-genie/src/agent.ts:734-736 | every repeat walks exactly the chain's entries no earlier attempt at whose model name turned out unknown, on whichever gateway |
| `ChainWalk.RepeatAttempts` | ontrak-genie/src/agent.ts:734-737 | the attempts of every repeat follow that walk, entry by entry |
| `ChainWalk.RepeatSkipsUnknown` | ontrak-genie/src/agent.ts:734-736 | once any repeat has begun, neither it nor a later one goes to a model name found unknown before it |
| `ChainWalk.OnlyRefusedLeftOutIff` | ontrak-genie/src/agent.ts:674-736 | in every walk, whatever the gateways reply, only entries that were themselves refused are left out of a repeat, if and only if no model name of the chain is on both gateways |
| `ChainWalk.OneNameOnBothGateways` | ontrak-genie/src/agent.ts:674-736 | with one name on both gateways, unknown to the first and busy on the second, the repeat walks nothing at all |
| `ChainWalk.TargetsStable` | ontrak-genie/src/agent.ts:496-518 | attempts made after a repeat do not change the list that repeat walks |
| `ChainWalk.WalkingTried` | ontrak-genie/src/agent.ts:654-676 | the flags for throttling and for dropped models stay right over one more attempt |
| `ChainWalk.WalkingRepeat` | ontrak-genie/src/agent.ts:712-738 | lengthening the list keeps the walk on schedule; a repeat that adds nothing has nothing left to try |
| `ChainWalk.GivesUp` | ontrak-genie/src/agent.ts:681-739 | when neither the next target nor a repeat is allowed the step has nothing left to try |
| `ChainWalk.TryTarget` | ontrak-genie/src/agent.ts:532-676 | one attempt, as the gateway and the buffer make it, and how it is judged |
| `ChainWalk.JudgeMeans` | ontrak-genie/src/agent.ts:643-676 | an answer is good unless a filter stopped it before anything was shown, or it has neither a call nor a character that is not white space |
| `ChainWalk.WithoutKeepsOrder` | ontrak-genie/src/agent.ts:736-736 | what a repeat walks stands in the chain's order, each entry as often as there |
| `ChainWalk.ShownIsPrefix` | ontrak-genie/src/agent.ts:570-593 | what an attempt showed is a prefix of that attempt's content |
| `Transcript.AppendExchange` | ontrak-genie/src/agent.ts:846-933 | an assistant message with calls followed by one matching reply per call keeps a transcript well formed |
| `Transcript.AppendPlain` | ontrak-genie/src/agent.ts:448-453 | a message without calls keeps a transcript well formed |
| `Transcript.RunLengthIsLongest` | ontrak-genie/src/agent.ts:908-915 | the counter's value is the length of the longest suffix of equal failures |
| `AgentTurn.Turn.Run` | ontrak-genie/src/agent.ts:446-974 | every saved transcript is well formed; the final one, the shown text and the failures are those of the steps' records in order; no chain is walked twice once a tool has run, and a turn makes at most the chain's length times (steps + retries) attempts; a gated tool starts only right after its own prompt was answered with approve; there is exactly one `done`, last, whose count is the number of steps and within the budget; the failures are exactly the turn's failed calls in order, successes in between ignored, and the turn is stuck if and only if they end in three equal ones; the last transcript saved is the final one |
| `AgentTurn.TurnAttemptsBounded` | ontrak-genie/src/agent.ts:489-740 | over a whole turn only the first step can repeat the chain |
| `AgentTurn.TurnedStep` | ontrak-genie/src/agent.ts:489-966 | one more step extends the record of the turn: its walk, failures, messages and text |
| `AgentTurn.StartedOnlyIfApproved` | ontrak-genie/src/agent.ts:869-903 | with decisions taken from the approval desk, one prompt for each call, a gated tool was started only if its own prompt was waiting when somebody approved it by its id; nothing later takes that back, and no other started call shares the prompt |
| `AgentTurn.Turn.RunStep` | ontrak-genie/src/agent.ts:489-966 | one step: its walk, with no repeat once a tool has run; an answered one has shown exactly the content of its last attempt, any other what that attempt had shown; the calls carried out are that attempt's own or the salvaged ones; tools have run exactly if there were calls; the transcript grows by exactly what the exit calls for and is saved, on every exit but the one for an empty chain |
| `AgentTurn.Turn.AskModels` | ontrak-genie/src/agent.ts:489-760 | the walk of a step, the text it showed, and what its outcome says about its last attempt |
| `AgentTurn.Turn.GiveUp` | ontrak-genie/src/agent.ts:762-818 | a step without a good answer ends as stopped, as failed with one note in the transcript, or without a result |
| `AgentTurn.Turn.Accept` | ontrak-genie/src/agent.ts:820-859 | the calls are the model's own or else the salvaged ones; with none, what is still unsent is released so that the shown text is completed; with some, tools have run |
| `AgentTurn.Turn.CallTools` | ontrak-genie/src/agent.ts:846-966 | all calls are answered in order before the transcript is saved, and the step ends as stuck exactly at three equal failures |
| `AgentTurn.Turn.RunTools` | ontrak-genie/src/agent.ts:861-952 | the replies, the failures and the events of a step's calls, in order |
| `AgentTurn.Turn.RunTool` | ontrak-genie/src/agent.ts:861-942 | one call: asked for if gated, run only on approve, answered under its own id, nudged on a repeated failure; a successful one leaves the failures, the counter and the last signature as they were |
| `AgentTurn.Turn.CountFailure` | ontrak-genie/src/agent.ts:908-915 | the counter is the length of the longest suffix of equal failures, successes in between ignored |
| `AgentTurn.RepliesAnswer` | ontrak-genie/src/agent.ts:861-933 | the replies answer the calls one by one, in order, with matching ids, whatever the decisions and outcomes |
| `AgentTurn.CallMeans` | ontrak-genie/src/agent.ts:869-942 | a call that needs no approval or got it is started, and its tool's content reaches its reply; any other gets the refusal of its decision; the nudge follows exactly a failure that repeats the last one |
| `AgentTurn.SignatureTells` | ontrak-genie/src/agent.ts:909-909 | calls of one tool have the same signature exactly when they have the same arguments |
| `AgentTurn.FailedByMeans` | ontrak-genie/src/agent.ts:861-925 | a step adds the signatures of exactly its failing calls, each once and in order; successes in between take nothing away |
| `AgentTurn.FailedOverMeans` | ontrak-genie/src/agent.ts:474-925 | what the counter counts in is exactly the turn's failed calls, each once and in order, over all steps |
| `AgentTurn.CallsOverComplete` | ontrak-genie/src/agent.ts:861-952 | the calls that are listed are all calls of all steps, in order |
| `AgentTurn.LastWord` | ontrak-genie/src/agent.ts:798-974 | the transcript ends with the answer, the note of the failure or of the loop, or a tool's reply; a stopped step leaves it as it was |
| `AgentTurn.CallEventsInner` | ontrak-genie/src/agent.ts:869-903 | the events of a call respect the gate and contain no text, step or end |
| `AgentTurn.CountedStep` | ontrak-genie/src/agent.ts:908-915 | comparing with the last failure only is enough to keep the counter right |
| `Approval.Desk.RequestApproval` | ontrak-genie/src/approval.ts:152-196 | its exact effect on any desk; one in order stays so if and only if no prompt with that id is waiting; a request that is already aborted settles at once |
| `Approval.Desk.ResolveApproval` | ontrak-genie/src/approval.ts:205-214 | its exact effect on any desk; on one in order it returns true exactly when a prompt with that id was waiting, and then settles that one, with that decision and actor, and no other |
| `Approval.Desk.Fire` | ontrak-genie/src/approval.ts:181-193 | its exact effect on any desk; a timer or an abort keeps one in order, settled prompts included |
| `Approval.Desk.Finish` | ontrak-genie/src/approval.ts:171-179 | the first call settles, removes and files; every later call changes nothing |
| `Approval.FirstDecisionStands` | ontrak-genie/src/approval.ts:171-173 | a settled prompt keeps its decision over every continuation |
| `Approval.ApprovalIsAnAnswer` | ontrak-genie/src/approval.ts:171-194 | a settled prompt is approved if and only if an approving answer to its id arrived while it was waiting: no timer, abort or other answer approves it |
| `Approval.VerdictMeans` | ontrak-genie/src/approval.ts:171-193 | a prompt is settled with a verdict exactly when some event that met it waiting gives that verdict: an answer to its id under its actor's name, or its own timer or abort under the system's |
| `Approval.TimerSettles` | ontrak-genie/src/approval.ts:193-193 | an open prompt is settled at the latest when its timer runs out |
| `Approval.PendingMeansWaiting` | ontrak-genie/src/approval.ts:205-212 | an id is in the map exactly when a prompt with that id waits |
| `Approval.Settles` | ontrak-genie/src/approval.ts:171-179 | settling one prompt keeps the map, the promises and the log consistent and touches no other prompt: opened is pending plus settled, and each settled prompt is filed once |
| `Approval.OpenWaits` | ontrak-genie/src/approval.ts:192-194 | a fresh prompt is listed and waits |
| `Approval.OpenSettles` | ontrak-genie/src/approval.ts:187-190 | a prompt opened with an aborted signal is settled and filed at once |
| `Approval.ReusedIdOrphans` | ontrak-genie/src/approval.ts:176-194 | a second prompt under a waiting id puts the first out of reach of any answer while it still waits; when the first times out it takes the second's entry with it |
| `Approval.OpenOpenAnswer` | ontrak-genie/src/approval.ts:171-214 | the run Open, Open, Answer with one id: the second prompt is settled, the first still waits, and only its own timer or abort ever ends it |
| `Approval.NoAnswerReaches` | ontrak-genie/src/approval.ts:205-214 | a prompt no id leads to keeps waiting over every sequence of events but its own timer and abort |
| `Approval.ReusedId` | ontrak-genie/src/approval.ts:176-194 | no desk in order lists a second prompt under a waiting id |
| `Packet.CanonicalForm` | scripts/verify-packet.ts:90-100 | two values print the same canonical text if and only if they are equal up to key order, undefined members, and undefined or non-finite values read as null |
| `JsonReader.RoundTrip` | scripts/verify-packet.ts:90-100 | a reader gives back the meaning of the printed value and consumes exactly the printed text, whatever delimited text follows |
| `JsonReader.ReadBack` | scripts/verify-packet.ts:92-98 | every string literal reads back as its code units, over all escapes of section 7 of RFC 8259 and lone surrogates |
| `JsonReader.ListTrip` | scripts/verify-packet.ts:93-93 | the round trip for lists |
| `JsonReader.RecordTrip` | scripts/verify-packet.ts:94-99 | the round trip for records with sorted keys |
| `JsonReader.PrintedKeysAscend` | scripts/verify-packet.ts:95-98 | read off the printed record, the keys are its defined ones in ascending code-unit order |
| `Packet.MeaningPrints` | scripts/verify-packet.ts:90-100 | values with the same meaning print the same text |
| `CanonicalJson.SortSorts` | scripts/verify-packet.ts:95-97 | sorting keeps the keys and leaves distinct ones in strictly ascending code-unit order |
| `CanonicalJson.SortedIsUnique` | scripts/verify-packet.ts:95-97 | a set of keys has one sorted listing |
| `CanonicalJson.LessTotal` | scripts/verify-packet.ts:97-97 | code-unit order is a strict total order: exactly one of less, greater and equal |
| `CanonicalJson.LessTransitive` | scripts/verify-packet.ts:97-97 | code-unit order is transitive |
| `CanonicalJson.LessMeans` | scripts/verify-packet.ts:97-97 | one key is less than another exactly when they agree up to somewhere and there it ends or has the smaller code unit |
| `CanonicalJson.ShortEscapes` | scripts/verify-packet.ts:92-98 | the bytes of the seven short escapes |
| `CanonicalJson.HexEscape` | scripts/verify-packet.ts:92-98 | other control characters and lone surrogates are escaped in lower-case hexadecimal |
| `CanonicalJson.LiteralUnit` | scripts/verify-packet.ts:92-98 | a code unit stands for itself exactly when it is no control character, quote, backslash or surrogate |
| `CanonicalJson.PlainBytes` | scripts/verify-packet.ts:91-99 | the bytes of the literals, of numbers and of the empty list and record; undefined and the non-finite numbers print as null |
| `Packet.SealVerifies` | scripts/verify-packet.ts:169-212 | a packet sealed the way the builder does verifies under its key, whatever the digest functions are |
| `Packet.SealedTravels` | scripts/verify-packet.ts:90-212 | sealed, printed and read back as any value that means what the text says, it still verifies |
| `Packet.KeyMattersOnlyWhenIntact` | scripts/verify-packet.ts:180-211 | a document that fails its shape, digests or algorithm fails alike under every key; an intact one fails only by its signature |
| `Packet.VerifiedIff` | scripts/verify-packet.ts:169-212 | a document verifies under a key if and only if it is intact and its signature member is that key's signature over the content hash; an intact one that is not fails as a signature mismatch |
| `Packet.ReasonIff` | scripts/verify-packet.ts:170-206 | every other failure names the first thing wrong, in the order object, shape, content, record, algorithm, each if and only if it is wrong and nothing before it is |
| `Packet.SealUnderOtherKey` | scripts/verify-packet.ts:207-209 | a packet sealed under one key verifies under another exactly when both sign the content hash alike, and fails as a signature mismatch otherwise |
| `Packet.VerdictByMeaning` | scripts/verify-packet.ts:169-212 | key order, undefined members and the export time do not change the verdict |
| `Packet.HashPinsContent` | scripts/verify-packet.ts:188-190 | with an injective digest two verifying packets have equal content hashes if and only if they have equal content |
| `Packet.EditIsCaught` | scripts/verify-packet.ts:188-190 | with an injective digest an edit that keeps the content hash is reported as a content mismatch under every key |
| `Packet.DropFields` | scripts/verify-packet.ts:175-192 | taking the envelope, or the audit anchor, off a record takes exactly those fields off its meaning |
| `Packet.VerifyWithKeys` | scripts/verify-packet.ts:349-365 | succeeds if and only if the document is intact and signed under some key, returns the first such key, and otherwise blames the signature if and only if digests and algorithm pass |
| `Packet.CandidateKeys` | scripts/verify-packet.ts:331-336 | keeps the first of every non-blank key, in order |
| `MeteredRun.AnyInterleaving` | g0dm0d3/src/app.js:880-976 | from an empty ledger, for any interleaving of any attempts with any calls lost: each run was charged nothing or one price and given back no more, and the balance is conserved |
| `MeteredRun.NothingRunsUncharged` | g0dm0d3/src/app.js:880-904 | from an empty ledger, after any steps, on a metered account without a flat rate every attempt that connects, relays or has met a response belongs to a run that was charged: a refused one never connects |
| `MeteredRun.RefusedIff` | g0dm0d3/src/app.js:880-900 | an answered charge is refused exactly when the account is metered, has no flat rate, was not charged for the run before and cannot pay; otherwise it costs the price the first time and nothing after |
| `MeteredRun.NeverOverdrawn` | g0dm0d3/src/credits.js:92-117 | no charge overdraws the account |
| `MeteredRun.BytesAreRelayed` | g0dm0d3/src/app.js:964-969 | an attempt's byte count is that of the chunks relayed while its stream was open |
| `MeteredRun.RunValid` | g0dm0d3/src/app.js:880-976 | the ledger and attempt invariant holds after every sequence of steps |
| `MeteredRun.NextValid` | g0dm0d3/src/app.js:880-976 | each single step keeps it |
| `MeteredRun.RunCharges` | g0dm0d3/src/app.js:880-954 | what the invariant says of one run's debits and refunds |
| `MeteredRun.SpendValid` | g0dm0d3/src/credits.js:92-117 | a charge, a refusal, a duplicate and a lost answer each keep the ledger in order, and whoever is told of a charge has a debit to show |
| `MeteredRun.RefundValid` | g0dm0d3/src/credits.js:120-134 | a refund of what was spent keeps the ledger in order, delivered or not |
| `MeteredRun.FirstRowStands` | g0dm0d3/src/credits.js:86-126 | once a run has a charge, or a refund, no later step changes its amount: a retry is free, also after a refund |
| `MeteredRun.FirstRefundDecides` | g0dm0d3/src/app.js:924-934 | the first refund call that arrives fixes for good what the run gets back: what that attempt had spent; only one of zero credits that the plane does not book leaves the plane as it was |
| `MeteredRun.DuplicateSwallowsRefund` | g0dm0d3/src/app.js:924-939 | a duplicate attempt that spent nothing and cannot reach the upstream refunds first; the payer's refund is then dropped if and only if the plane books a grant of zero credits under the run's reference |
| `MeteredRun.GivenBackIff` | g0dm0d3/src/app.js:880-976 | from an empty ledger, whatever the interleaving and whatever was lost, a run gets its price back if and only if the attempt that was told of the charge met no 200, its refund call arrived, and no refund of zero had been booked for the run before it; in every other case it gets nothing |
| `MeteredRun.BackIsFirstBooked` | g0dm0d3/src/app.js:924-953 | a run gets back what the first booked refund call for it had spent, and nothing if there is none |
| `MeteredRun.OnlyOneToldOfCharge` | g0dm0d3/src/app.js:880-900 | of all attempts that share a run id at most one is ever told that it spent something |
| `MeteredRun.RefundAskedIff` | g0dm0d3/src/app.js:902-976 | in every run an attempt that is over called refund if and only if the upstream was unreachable, or refused what it had been told it had paid; among attempts told of a charge and without a relayed byte exactly those whose upstream had answered 200 did not call |
| `MeteredRun.DeadStreamIsPaid` | g0dm0d3/src/app.js:956-976 | a run: one attempt pays, gets a 200 and relays no byte; it stays charged and never gets anything back, whatever happens later |
| `MeteredRun.LostRefundIsPaid` | g0dm0d3/src/app.js:924-934 | a run: the upstream is unreachable and the refund call is lost; it stays charged, whatever happens later |
| `MeteredRun.LostAnswerIsPaid` | g0dm0d3/src/app.js:880-953 | a run: the charge is booked but its answer is lost, and the free retry is refused; nobody calls refund and it stays charged, whatever happens later |
| `MeteredRun.StreamedNeverRefunds` | g0dm0d3/src/app.js:956-976 | an attempt that got a 200 never refunds, with or without a relayed byte |
| `StreamMeter.Meter` | g0dm0d3/src/app.js:670-704 | when no line exceeds the cap the inspected lines are the newline split of the whole stream whatever the chunking, and the recorded usage is that of the last usage frame; for every stream the buffer after each chunk is within the cap and each complete line is seen whole, or by an end of at least 4096 characters if it is over-long |
| `StreamMeter.MeterChunk` | g0dm0d3/src/app.js:687-697 | one chunk more, and the buffer is within the cap afterwards |
| `StreamMeter.TakeChunk` | g0dm0d3/src/app.js:687-697 | the lines taken off and the trimmed rest, exactly; they see every piece as splitting the whole line would, except an over-long one, of which an end is kept |
| `StreamMeter.Drain` | g0dm0d3/src/app.js:690-694 | the lines taken off and what is left are the newline split of the buffer |
| `StreamMeter.SplitAppend` | g0dm0d3/src/app.js:689-694 | splitting text that arrives in two parts is splitting its first part and then the last piece of that together with the second |
| `StreamMeter.SplitSeen` | g0dm0d3/src/app.js:689-696 | continuing from a trimmed line finds the same complete lines behind it |
| `StreamMeter.AllLines` | g0dm0d3/src/app.js:698-699 | the unfinished last line is inspected if there is one and the stream did not die |
| `StreamMeter.LastUsageIsLast` | g0dm0d3/src/app.js:673-684 | the recorded usage is what the last line that reports any reports, and none exactly if no line does |
| `StreamMeter.LinesOfWhole` | g0dm0d3/src/app.js:686-704 | a stream that ends well is inspected as the split of all its text but for an empty last piece; one that dies loses the piece it died in |
| `Inspector.Inspector.Click` | ontrak-bolt/public/inspector-script.js:250-281 | a click selects unless another element has edits pending; the page then is as it was loaded but for the selected element, and every record is the selected element's |
| `Inspector.Inspector.EditStyle` | ontrak-bolt/public/inspector-script.js:300-324 | an edit appends one record of the previous declaration; a return to the original removes exactly the property's records and writes back what was recorded for it; every property keeps what it goes back to, except one declared back, which goes back to that |
| `Inspector.Inspector.Declare` | ontrak-bolt/public/inspector-script.js:305-323 | recording and writing one property leaves every base as it was |
| `Inspector.Inspector.DeclareBack` | ontrak-bolt/public/inspector-script.js:312-321 | filtering a property's records out of the middle of the history leaves every other base as it was |
| `Inspector.Inspector.EditText` | ontrak-bolt/public/inspector-script.js:325-332 | a text edit, or its return to the original, keeps what the element goes back to |
| `Inspector.Inspector.Undo` | ontrak-bolt/public/inspector-script.js:333-334 | undo takes off the last record, puts its property or the HTML back to what the record says and leaves everything else, and keeps what the element goes back to; on an empty history it throws |
| `Inspector.Inspector.EditAndUndo` | ontrak-bolt/public/inspector-script.js:305-334 | a style edit and an undo leave the element and the history exactly as they were |
| `Inspector.Inspector.TypeAndUndo` | ontrak-bolt/public/inspector-script.js:325-334 | a text edit and an undo leave the element and the history exactly as they were |
| `Inspector.Inspector.Reset` | ontrak-bolt/public/inspector-script.js:335-336 | draining the history restores the ten tracked properties with priorities and the inner HTML as they were loaded |
| `Inspector.Inspector.Deselect` | ontrak-bolt/public/inspector-script.js:337-343 | deselecting leaves the whole page as it was loaded |
| `Inspector.Inspector.HandleAll` | ontrak-bolt/public/inspector-script.js:250-344 | when the selected element has left the document with edits pending, no sequence of clicks and messages selects anything else or takes an edit back |
| `Inspector.Inspector.MoveOn` | ontrak-bolt/public/inspector-script.js:250-336 | in every other state a reset and a click select any element: the selection can move on if and only if it is not locked that way |
| `Inspector.Inspector.RestoreEdit` | ontrak-bolt/public/inspector-script.js:283-295 | one record put back, on a connected element only |
| `Inspector.PopKeeps` | ontrak-bolt/public/inspector-script.js:283-295 | restoring and removing the last record changes no property's base and not the text's |
| `Inspector.EditKeeps` | ontrak-bolt/public/inspector-script.js:305-324 | an edit keeps every base, and filtering makes the property's present value its base |
| `Inspector.WithoutStyleBases` | ontrak-bolt/public/inspector-script.js:313-313 | filtering one property's records affects that property alone |
| `Inspector.WithoutTextBases` | ontrak-bolt/public/inspector-script.js:328-328 | filtering the text records affects the text alone |
| `Inspector.WithoutStyleFilters` | ontrak-bolt/public/inspector-script.js:313-313 | exactly the property's records go, and the others keep their order |
| `Inspector.WithoutTextFilters` | ontrak-bolt/public/inspector-script.js:328-328 | exactly the text records go, and the others keep their order |
| `StringSpans.FindSpans` | scripts/secret-scan.py:235-266 | spans are ordered, disjoint and start at quotes; a position in the line is inside one if and only if the one-character automaton is inside a literal there; at the end of the line the two agree only on a trailing backslash |
| `StringSpans.SkipLiteral` | scripts/secret-scan.py:250-260 | the index jumps to the first position the automaton finds outside again, one past the line after a trailing backslash |
| `StringSpans.AgreesAppend` | scripts/secret-scan.py:261-266 | one literal more keeps the spans right about every earlier position |
| `StringSpans.OnlyEvenBackslashesClose` | scripts/secret-scan.py:253-260 | a literal's own quote closes it behind an even number of backslashes, and nothing else does |
| `StringSpans.OnlyQuotesOpen` | scripts/secret-scan.py:247-252 | outside a literal a quote opens one of its own kind, and nothing else changes anything |
| `ChangeSet.StagedStandsFor` | ontrak-genie/src/change-set.ts:67-73 | after any proposals the set names the proposed paths once each, in the order in which they were first proposed, each with what was proposed last |
| `ChangeSet.AddKeeps` | ontrak-genie/src/change-set.ts:67-73 | one more proposal keeps that correspondence |
| `ChangeSet.StagedWritesTheSame` | ontrak-genie/src/change-set.ts:67-73 | writing the set leaves the files that writing every proposal in sequence would leave |
| `ChangeSet.SortKeeps` | ontrak-genie/src/change-set.ts:98-100 | sorting is a permutation of the set |
| `ChangeSet.SortOrders` | ontrak-genie/src/change-set.ts:98-100 | for every total preorder on paths the sorted set is in order |
| `ChangeSet.SortIsStable` | ontrak-genie/src/change-set.ts:98-100 | entries the comparison does not tell apart keep their order |
| `ChangeSet.SortWritesTheSame` | ontrak-genie/src/change-set.ts:98-100 | the order of application does not change the resulting files |
| `ChangeSet.ApplyIsReplay` | ontrak-genie/src/proposals.ts:153-169 | applying the sorted set equals replaying every proposal, for every file map |
| `ChangeSet.RetryCompletes` | ontrak-genie/src/proposals.ts:135-137 | a run after one that stopped partway ends where one whole run would have |
| `ChangeSet.Workspace.Stage` | ontrak-genie/src/proposals.ts:88-98 | the pending set stands for all proposals since it was last closed |
| `ChangeSet.Workspace.Apply` | ontrak-genie/src/proposals.ts:144-182 | whatever is proposed or discarded while writes are awaited: a finished apply leaves the files of a replay of the set it started from, and no pending set; a stopped one has written a prefix of the sorted order, names the next path and keeps everything proposed |
| `ChangeSet.LateProposalsLostIff` | ontrak-genie/src/proposals.ts:152-171 | what is proposed during an apply is forgotten; that does no harm, whatever is on disk, if and only if each such path had been proposed before, last with the same content |
| `ChangeSet.Workspace.Happen` | ontrak-genie/src/proposals.ts:88-98 | the set follows what is proposed and discarded meanwhile |
| `ChangeSet.Workspace.Discard` | ontrak-genie/src/proposals.ts:191-206 | drops the set, and says whether there was one, without touching a file |
| `Highlight.ShowsTheTextIff` | ontrak-genie/public/highlight.js:116-153 | what the page shows, tags skipped and entities decoded, is the input text if and only if the scan met no empty match |
| `Highlight.HighlightCode` | ontrak-genie/public/highlight.js:116-153 | the loop with its waiting plain text writes exactly the rendering of the pieces the matcher finds, and terminates for every matcher that stays inside the text; the page shows the text if and only if no match was empty, and the raw angle brackets are those of the spans |
| `Highlight.PiecesAreShown` | ontrak-genie/public/highlight.js:148-152 | for any pieces the page shows their texts one after the other |
| `Highlight.ScanLength` | ontrak-genie/public/highlight.js:128-150 | the pieces cover the text but for one character per empty match |
| `Highlight.NeverEmptyLosesNothing` | ontrak-genie/public/highlight.js:128-150 | a matcher that never matches empty loses nothing |
| `Highlight.BracketsAreSpans` | ontrak-genie/public/highlight.js:144-152 | the raw angle brackets of the output are two of each for every coloured piece and no more, whatever the text holds |
| `Highlight.SpanMeans` | ontrak-genie/public/highlight.js:148-148 | a coloured piece is a span of its group's class around the escaped text, a plain one the escaped text alone |
| `Highlight.PiecesFollowMatcher` | ontrak-genie/public/highlight.js:128-150 | where no text is lost each piece is what the matcher answered at the place the text before it reaches, with its group |
| `Highlight.EscapeIsClean` | ontrak-genie/public/highlight.js:20-22 | escaped text has no angle bracket or quote of its own |
| `Highlight.EscapedIsShown` | ontrak-genie/public/highlight.js:20-22 | a browser decodes escaped text back to the text, whatever follows |

## Left out

- AgentTurn.Turn.Run: says nothing of draft, session and readiness events, of the wording and payload of notices and errors, of the session's title, images and summary, or of the memory and tool lists fetched before the first step.
- AgentTurn.Turn.RunStep: the event that names the answering gateway is emitted but not specified.
- AgentTurn.StartedOnlyIfApproved: the turn and the desk are joined by the desk's history and the prompt each call opened, not by running both in one program.
- AgentTurn.Turn.RunTool: tools and previews are taken not to throw, and observations recorded beside the turn are not modelled.
- ChainWalk.Walk: a failure is known by three tests (abort, retryable, unknown model), waits take no time, and a completed reply's content is taken to be the concatenation of its text chunks, as the gateway client assembles it; that client is not part of this model.
- ChainWalk.TryTarget: credential bookkeeping on 401 and 403, usage reports and the list of failure sentences are not modelled.
- TextBuffer.StreamReply: which texts look like a tool call, and what is salvaged from them, is an arbitrary function; the draft previews beside the text are not modelled.
- A consumer that abandons the turn's event stream midway.
- Approval.Desk.Fire: timers and abort listeners fire at any moment after they were installed; clearing them is not modelled beyond their having no effect on a settled prompt.
- The sorted listing of pending approvals, the table of which tools need approval, and the wording of refusals: easy members.
- CanonicalJson: numbers are known by the numeral the language prints; functions, symbols, big integers, `toJSON` methods and cyclic values are not values here.
- Packet.VerifyWithKeys: report lines, headlines and command-line parsing are not modelled; the digests are functions on text, and the constant-time comparison is equality.
- Packet.CandidateKeys: the candidates are given as a list instead of being read from the command line and the environment.
- MeteredRun.NextValid: request validation, sign-in and the entitlement check before the charge are not modelled; the control plane is one account's ledger that deduplicates debits and refunds on their references, and whether a grant of zero credits makes a row is a parameter, since that plane is not part of this model.
- StreamMeter.Meter: UTF-8 decoding and the parsing of a usage frame are an arbitrary function of the line; the cap bounds the buffer after each chunk, not the chunk itself.
- Inspector.Inspector.Click: the elements of the page are taken to be unrelated, while in a browser an ancestor's inner HTML shows the inline style of its descendants and a text edit replaces child elements.
- Inspector.Inspector.EditStyle: properties are independent of each other (no shorthands), restoring a value read from the page is taken to be accepted by it, and hover highlighting and the messages to the parent window are not modelled.
- The scanner's rules, placeholders, masking and file walk around the string scanner.
- ChangeSet.Workspace.Apply: one account, and no second apply while one is under way; snapshots, the ledger file, set ids and the workspace fence are not modelled, and a path names one file.
- ChangeSet.SortOrders: path collation is an arbitrary total preorder.
- The totals and one-line summaries of a change set: easy members.
- Highlight.HighlightCode: none of the four shipped patterns matches empty text, so the case of a lost character concerns rule sets the module does not have; the rule sets are an arbitrary matcher that matches inside the text and names one of the rule's groups; the choice of language by file name is not modelled.
