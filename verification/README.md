# Limpiador: a verified model of its algorithms and its agent loop

Limpiador is a coding agent: a loop lets a language model discover, load and call tools
that read and rewrite a Python repository. This project models the parts whose behaviour
cannot be read off one function body, and proves what they promise.

* **Import cycles** (`Graphs`, `Cycles`, `CycleInvariant`, `CycleSearch`): Tarjan's
  algorithm as the program runs it, with its dictionaries, stack and recursive `connect`,
  proved to report exactly the strongly connected components with more than one node, for
  every finite graph, including successors that are not keys.
* **Call graph and dependency tree** (`DepthSearch`): one queue invariant, instantiated
  twice, proves both depth-bounded searches exact.
* **The unified-diff engine** (`Text`, `Hunks`, `StandardDiff`, `PatchParser`,
  `PatchHeaders`, `PatchPrinter`, `PatchTool`, `PatchSequence`, `PatchUndo`): the parser, the
  hunk applier and the plan-then-commit write, with the round trip, the inverse patch,
  all-or-nothing over a tree of files, and the commit against one section after another. The
  format is the "Diff -u or -U Output Format" of the `diff` utility, IEEE Std 1003.1-2017.
  Three conditions say where the program reads it otherwise: `PatchHeaders` for the lines
  that name a file, `PatchPrinter` for where a hunk ends, `StandardDiff` for what a hunk does
  to the lines of a file.
* **Rename** (`Rename`, `RenameTool`, `RenameSpellings`, `RenameUndo`): right-to-left
  splicing against one-pass substitution, planned over all files before any is written, over
  files with several spellings, and back again.
* **Retry and rate limit** (`Retry`): the token bucket, backoff and the combined boundary,
  over reals and an arbitrary forward-moving clock.
* **Tools** (`Naming`, `Registry`): the naming rule, ranking, loading and dispatch.
* **The agent** (`Memory`, `Transcript`, `AgentLoop`, `AgentLedger`, `AgentRun`,
  `AgentTheorems`): working memory, the wire transcript, and whole runs against any language
  model and any tools. The loop is proved to go through the states of a machine
  (`AgentLoop.StateAt`), and the theorems are about those states.

Objects whose methods update their fields are classes here, and loops are loops; each such
method is proved against a function or predicate over values, and the theorems are about
those. The language model is an arbitrary function from the number of the turn to a
response, and what a dispatched call folds back is an arbitrary function from the number
of the call, so a theorem about these runs is one about every run. Clocks, path resolution
and the outcomes of external calls are arbitrary functions in the same way.

The functions the rest is stated by each have a lemma that says over characters, positions or
lengths what they compute: the order of names (`Sorting.StringLeIs`), blanks (`Text.StripIs`),
hunk headers (`PatchParser.HeaderIs`), body lines (`PatchParser.BodyLineIs`), words
(`Registry.TokenIs`), tool names (`Naming.ValidNameIs`), estimates (`Memory.DurableIs`), steps
(`AgentLoop.ListIsPlanned`).

## Where the code and its documentation differ

The model follows the code.

* A refused call is documented as recoverable. After a refused `finish` the loop reads
  `["result"]` from the error payload and leaves on a `KeyError`
  (src/limpiador/agent/loop.py:145-146 and 321-323); after a refused `plan_add` it iterates
  the refused `sub_goals`, and leaves on a `TypeError` when that is, say, 5
  (src/limpiador/agent/loop.py:292-294). Of the errors the loop itself raises these are all:
  `AgentTheorems.CrashedExactly` says that a run crashes exactly when its last batch holds one
  of the two, and `AgentTheorems.RefusedFinishCrashes` and
  `AgentTheorems.NumberAsPlanCrashes` are runs that do. Otherwise a refused plan call still
  writes the plan: a text as `sub_goals` plans each of its characters
  (`AgentTheorems.RefusedTextPlans`), and `AgentTheorems.PlanUnchanged` says exactly when a
  call, refused or not, leaves the plan as it was.
* A patch is documented as atomic. A plan that deletes one file twice stops in the middle of
  its commit (src/limpiador/tools/fs_tools.py:452-454): `PatchTool.Workspace.Commit` crashes
  exactly then, and `PatchSequence.TwoDeletionsStop` is such a patch. And all sections are
  planned from the tree as it was (src/limpiador/tools/fs_tools.py:450), so of two edits of
  one file the first is lost although both are reported
  (`PatchSequence.TwoEditsOverwrite`); `PatchSequence.SequenceAgrees` says exactly when the
  commit is what the sections do one after another.
* Compaction is documented to lighten the transcript; a summary may be longer than its text,
  so a pass can grow the footprint, as the captured session shows
  (traces/har-33/long-session.md:44). `Memory.CompactionCanGrow` is a smallest case and
  `Memory.FootprintChange` the exact change.
* Evictions are mirrored onto the transcript by call id (src/limpiador/agent/loop.py:315), so
  with a repeated id a live result can be overwritten. `AgentLedger.AgreementStep` says
  exactly when a turn keeps every tool result equal to what its payload stands for, and
  `AgentTheorems.RepeatedIdRun` is a run whose second model call reads a wrong result.
* A unified diff gives every hunk the number of its lines; the parser does not use it, and
  goes by what a line starts with (src/limpiador/tools/fs_tools.py:350-356). It ends a hunk at
  any line that starts with `--- `, so the deletion of a line `-- x` is lost
  (`PatchPrinter.DashLineIsLost`); and it takes into a hunk what stands behind it and passes
  its guard: a blank line, which then deletes an empty line of the file
  (`PatchPrinter.BlankLineIsTaken`), or the line `-- ` at the end of a mailed patch, which
  then asks for a line `- ` to delete (`PatchPrinter.SignatureIsTaken`).
  `PatchPrinter.ParseUndoesPrint` gives the exact condition.
* A header names a file and, behind a tab, a time; the parser strips blanks and nothing else
  (src/limpiador/tools/fs_tools.py:367-370), so the time becomes part of the path, and a
  created or deleted file is taken for an edited one (`PatchHeaders.TimesAreRead`). A name
  printed without a prefix loses a first directory called `a` or `b`
  (`PatchHeaders.DirectoryIsStripped`). `PatchHeaders.HeadersReadBack` gives the exact
  condition.
* Emptying a newline-terminated file writes a lone newline
  (src/limpiador/tools/fs_tools.py:414-415). On lists of lines an inverse patch always
  restores; on texts exactly when `Hunks.Faithful` holds of the file and the hunks.
* The applier reads the old start of a hunk as the number of its first consumed line, also
  for an empty old range, which IEEE Std 1003.1-2017 numbers by the line before; and it
  deletes at an empty body line, which the standard allows for an unchanged empty line
  (src/limpiador/tools/fs_tools.py:398-412). `StandardDiff.ReadsLikeStandard` gives the exact
  condition under which the two readings agree, and `StandardDiff.EmptyRangeMisplaced`,
  `StandardDiff.EmptyFileRefused` and `StandardDiff.BlankLineDeleted` are inputs on which
  they do not.
* `retrying` calls its last line unreachable; it is reached when `max_attempts` is below one
  (src/limpiador/observability/retry.py:73).
* Rename checks the line of a site and neither its column nor the text it replaces.
  `Rename.RightToLeftIsSubstitution` therefore asks for sites that lie apart and inside the
  line, and renaming back restores a line, or a whole repository, exactly when every site
  held the old name (`Rename.RenameBack`, `RenameUndo.RenameBackRestores`).
* The files of a rename are told apart by path, the references grouped by spelling
  (src/limpiador/tools/ast_tools.py:580-601), so of two spellings of one file only the last is
  written. `RenameSpellings.SpellingsRenamed` says exactly when nothing is lost and
  `RenameSpellings.FirstSpellingLost` is an input on which a site is.

## Model

| member | source | states |
|---|---|---|
| `CycleSearch.StronglyConnected` | src/limpiador/tools/ast_tools.py:338-366 | for every finite graph and every order of its keys: the reported lists are exactly the strongly connected components with more than one node, no component reaches one reported after it, and in each every name comes before the later ones: where two first differ it ends or has the smaller character |
| `CycleSearch.Tarjan.constructor` | src/limpiador/tools/ast_tools.py:340-345 | the empty search satisfies the invariant |
| `CycleSearch.Tarjan.Connect` | src/limpiador/tools/ast_tools.py:347-361 | a call keeps the whole invariant, only grows the stack above its old top, changes no number or finished link, leaves a popped node as its own link, and no edge from what it left on the stack lands below its link; recursion ends on the unvisited nodes |
| `CycleSearch.Tarjan.Follow` | src/limpiador/tools/ast_tools.py:352-357 | one more successor followed: its link is folded in after a recursive call, its number when it is on the stack, nothing when it was popped |
| `CycleSearch.Tarjan.CloseRoot` | src/limpiador/tools/ast_tools.py:358-361 | a root takes exactly the stack from its position up, and the report stays right about every finished node |
| `CycleSearch.Tarjan.PopComponent` | src/limpiador/tools/ast_tools.py:369-377 | removes exactly the suffix of the stack that starts at the root, in reverse, and clears the flag of exactly those nodes |
| `CycleInvariant.OpenKeepsInvariant` | src/limpiador/tools/ast_tools.py:348-351 | numbering and pushing a node every open call reaches keeps numbers increasing, links witnessed and finished nodes closed |
| `CycleInvariant.LowerKeepsInvariant` | src/limpiador/tools/ast_tools.py:355-357 | lowering a link to the number of a reachable stack node keeps the invariant |
| `CycleInvariant.ReturnKeepsInvariant` | src/limpiador/tools/ast_tools.py:352-358 | returning from a node whose link is below its number leaves every stack node able to reach a call that is still open |
| `CycleInvariant.PoppedIsComponent` | src/limpiador/tools/ast_tools.py:358-361 | the suffix popped at a root is a whole strongly connected component, no node more or less |
| `CycleInvariant.PopKeepsInvariant` | src/limpiador/tools/ast_tools.py:369-377 | popping a component keeps the invariant: what is finished stays closed under edges and links stay on the stack |
| `CycleInvariant.PopKeepsReport` | src/limpiador/tools/ast_tools.py:358-361 | adding the popped component when it has more than one node keeps the report right for all finished nodes |
| `CycleSearch.FollowCalled` | src/limpiador/tools/ast_tools.py:353-355 | after the recursive call the parent, with the child's link folded in, has followed one successor more, also when the child was popped |
| `CycleSearch.FollowStacked` | src/limpiador/tools/ast_tools.py:356-357 | the same for a successor that is on the stack |
| `CycleSearch.AllFollowed` | src/limpiador/tools/ast_tools.py:358 | once all successors are followed, a link equal to the number means that no edge escapes below the node |
| `CycleSearch.AllDone` | src/limpiador/tools/ast_tools.py:363-366 | with no call open the stack is empty and the report covers the graph |
| `Cycles.ReportSeparates` | src/limpiador/tools/ast_tools.py:338-339 | two nodes reach each other if and only if they are in one reported component |
| `Cycles.ReportedOnce` | src/limpiador/tools/ast_tools.py:338-339 | no node is in two reported components |
| `Cycles.ReportUnique` | src/limpiador/tools/ast_tools.py:363-366 | any two reports for a graph have the same components: the order in which the dictionary is walked cannot change them |
| `Graphs.EdgeIs` | src/limpiador/tools/ast_tools.py:352 | an edge is an entry of the dictionary; a name that is no key has none |
| `Sorting.StringLeIs` | src/limpiador/tools/ast_tools.py:361 | the order of names, by which components, changed files, ties of a ranking and loaded schemas are sorted: where two names first differ the earlier one ends or has the smaller character |
| `DepthSearch.CallGraph` | src/limpiador/tools/ast_tools.py:488-501 | expands exactly the indexed functions at a shortest distance below the bound, each once, nearest first and at equal distance in the order in which they were first queued, and returns their full callee lists in that order |
| `DepthSearch.PushCalls` | src/limpiador/tools/ast_tools.py:498-500 | appends every callee to the edges and, one level deeper, to the queue |
| `DepthSearch.DependencyTree` | src/limpiador/tools/ast_tools.py:513-529 | the same exactness over the imports that resolve inside the repository |
| `DepthSearch.PushImports` | src/limpiador/tools/ast_tools.py:524-528 | appends exactly the local imports, in order |
| `DepthSearch.SkipKeeps` | src/limpiador/tools/ast_tools.py:495-496 | dropping a seen, too deep or unindexed head keeps the queue invariant: depths never decrease and differ by at most one, and everything owed is queued or expanded early enough |
| `DepthSearch.ExpandKeeps` | src/limpiador/tools/ast_tools.py:497-500 | expanding the head keeps it |
| `DepthSearch.Finished` | src/limpiador/tools/ast_tools.py:493-501 | with an empty queue the visits are exactly the indexed nodes within the bound, by distance |
| `DepthSearch.ReportedEdges` | src/limpiador/tools/ast_tools.py:488-501 | an edge is reported if and only if its source is an indexed node nearer than the bound and it is an edge of the graph |
| `DepthSearch.DeeperSeesMore` | src/limpiador/tools/ast_tools.py:495 | raising the bound loses no edge |
| `DepthSearch.ExpandTaken` | src/limpiador/tools/ast_tools.py:493-500 | expanding the head keeps the visits in the order in which nodes were first queued |
| `DepthSearch.ReportDetermined` | src/limpiador/tools/ast_tools.py:488-501 | the graph, the root and the bound determine the list of edges, its order included |
| `Hunks.ApplyHunks` | src/limpiador/tools/fs_tools.py:392-415 | the cursor loop computes the declarative splice of the lines, with the original's final newline, and fails as it does |
| `Hunks.ApplyBody` | src/limpiador/tools/fs_tools.py:403-412 | one hunk succeeds exactly when its pre-image is the slice at its start, and gives its post-image |
| `Hunks.SpliceSucceedsIff` | src/limpiador/tools/fs_tools.py:397-406 | applying succeeds if and only if the hunks are in order, in bounds, without overlap, and every pre-image is in place |
| `Hunks.SpliceLength` | src/limpiador/tools/fs_tools.py:396-413 | the number of lines changes by additions minus deletions |
| `Hunks.PostImagePlaced` | src/limpiador/tools/fs_tools.py:396-413 | every post-image stands at its hunk's start, moved by the hunks before it |
| `Hunks.GapKept` | src/limpiador/tools/fs_tools.py:401-413 | a line outside every hunk is still there, moved by the hunks above it |
| `Hunks.InvertSwapsImages` | src/limpiador/tools/fs_tools.py:403-412 | swapping the tags of a body swaps its pre-image and post-image |
| `Hunks.InverseRestoresLines` | src/limpiador/tools/fs_tools.py:392-415 | whatever hunks applied, the inverse hunks at the shifted starts apply to the result and give back the original lines, with no condition on the hunks |
| `Hunks.InverseRestoresText` | src/limpiador/tools/fs_tools.py:394-415 | on texts this holds if and only if a terminated file keeps a line, by the count of its lines, additions and deletions, and an unterminated one does not come to end in an empty line, by the last line its hunks keep or add |
| `Hunks.LastLineIs` | src/limpiador/tools/fs_tools.py:396-413 | the last line of the patched file, found from the file and the hunks without applying them |
| `Hunks.EmptiedFileIsNotRestored` | src/limpiador/tools/fs_tools.py:414-415 | for any line: deleting the only line of a terminated file writes a lone newline, and the inverse does not restore the file |
| `StandardDiff.ReadsLikeStandard` | src/limpiador/tools/fs_tools.py:396-413 | on every diff that fits its file by IEEE Std 1003.1-2017 the program's result is the standard's if and only if no body line is empty and every empty old range has room for one more line before it and adds nothing but copies of that line |
| `StandardDiff.PrintedReadsLikeStandard` | src/limpiador/tools/fs_tools.py:344-413 | the same for hunks printed under headers with any counts: the parser returns them, and leaves what is behind, if and only if every body line passes its guard and the first line behind does not; and then the result is the standard's if and only if they are read alike |
| `StandardDiff.OrdinaryHunksAlike` | src/limpiador/tools/fs_tools.py:396-413 | hunks with a non-empty old range and no empty body line are read alike on every file |
| `StandardDiff.EmptyRangeMisplaced` | src/limpiador/tools/fs_tools.py:398-402 | `@@ -1,0 +2 @@` inserts before the first line instead of after it |
| `StandardDiff.EmptyFileRefused` | src/limpiador/tools/fs_tools.py:398-400 | `@@ -0,0 +1 @@` is refused on an empty file |
| `StandardDiff.BlankLineDeleted` | src/limpiador/tools/fs_tools.py:403-412 | an unchanged empty line written as an empty body line is deleted |
| `Text.SplitJoin` | src/limpiador/tools/fs_tools.py:414 | lines without line breaks survive joining and splitting |
| `Text.LinesDetermineText` | src/limpiador/tools/fs_tools.py:394-415 | a text is its lines plus a newline when it ends with one |
| `Text.StripIs` | src/limpiador/tools/fs_tools.py:369-372 | stripping a text between blanks (space, tab, newline, carriage return, 0x0B, 0x0C, 0x1C to 0x1F, 0x85, 0xA0) gives exactly the text, when its own ends are none of those |
| `Text.StartsWithIs` | src/limpiador/tools/fs_tools.py:353-367 | a text starts with a prefix if and only if it is the prefix and something behind it |
| `PatchParser.ParseHunk` | src/limpiador/tools/fs_tools.py:344-357 | reads the header's old start and takes exactly the longest run of lines that pass the guard, or reports a malformed header |
| `PatchParser.ParseHunks` | src/limpiador/tools/fs_tools.py:373-376 | reads all consecutive hunks and leaves the rest |
| `PatchParser.ParsePatch` | src/limpiador/tools/fs_tools.py:360-389 | the index loop computes the recursive grammar, errors included: a missing new-file header, a malformed hunk, no sections |
| `PatchParser.ParsedBodiesAreLines` | src/limpiador/tools/fs_tools.py:360-389 | every body the parser returns, for any text, is made of lines without line breaks |
| `PatchParser.HeaderIs` | src/limpiador/tools/fs_tools.py:336-348 | a line is a hunk header if and only if it is `@@ -`, digits, perhaps a comma and digits, ` +`, digits, perhaps a comma and digits, ` @@` and anything; every other line is malformed |
| `PatchParser.HeaderRead` | src/limpiador/tools/fs_tools.py:336-357 | such a header is read as the number its first digits stand for |
| `PatchParser.BodyLineIs` | src/limpiador/tools/fs_tools.py:353 | the guard by first characters: an empty line, or one that starts with a blank, a plus, or a minus that does not begin `--- ` |
| `PatchParser.KindsRead` | src/limpiador/tools/fs_tools.py:370-385 | for any path: the names `a/` and `b/` are an edit, `/dev/null` as the old one a creation, as the new one a deletion |
| `Text.NumberOfDecimal` | src/limpiador/tools/fs_tools.py:357 | a printed number reads back as itself |
| `Text.LeadingZero` | src/limpiador/tools/fs_tools.py:357 | leading zeros do not change what is read |
| `PatchPrinter.ParsePrintedHeader` | src/limpiador/tools/fs_tools.py:336-357 | a printed hunk header, with any optional counts and section text, reads back as its old start |
| `PatchHeaders.NameRead` | src/limpiador/tools/fs_tools.py:339-341 | a printed name reads back as its path if and only if it does not end in a blank, only blanks stand behind it, and, without a prefix, it does not start with `a/` or `b/` |
| `PatchHeaders.HeadersReadBack` | src/limpiador/tools/fs_tools.py:339-385 | the two headers of an ordinary, created or deleted file, with or without a prefix and with anything set off behind the names, read back as its path and kind if and only if the name that gives the path is kept, the name of a missing file has only blanks behind it, and no other name looks like it |
| `PatchHeaders.TabIsDropped` | src/limpiador/tools/fs_tools.py:369-372 | a tab behind both names, as Git prints it behind a name with a blank, changes nothing: every path and kind is kept |
| `PatchHeaders.TimesAreRead` | src/limpiador/tools/fs_tools.py:367-385 | with a time behind both names, the path ends in the time and every creation or deletion reads as an edit, of `/dev/null` and the time where the file is deleted |
| `PatchHeaders.DirectoryIsStripped` | src/limpiador/tools/fs_tools.py:339-341 | any file in a directory `a`, printed without a prefix, is read as one outside it |
| `PatchPrinter.TakeBodyOf` | src/limpiador/tools/fs_tools.py:351-356 | a body is taken whole and alone if and only if all its lines pass the guard and the line behind it does not |
| `PatchPrinter.HunksReadBack` | src/limpiador/tools/fs_tools.py:344-376 | printed hunks come back, and what is behind them is left, if and only if every body line passes the guard, no further `@@` follows, and behind a hunk the first line does not pass the guard |
| `PatchPrinter.SectionsReadBack` | src/limpiador/tools/fs_tools.py:360-389 | a list of sections, with any lines between them but file headers, comes back if and only if in every section the names are kept and the hunks come back; the next file header always ends a hunk |
| `PatchPrinter.ParseUndoesPrint` | src/limpiador/tools/fs_tools.py:360-389 | the same for the text: for every list of file patches, every layout of names and hunk headers and all lines before and between the sections |
| `PatchPrinter.LineIsTaken` | src/limpiador/tools/fs_tools.py:351-356 | a line behind a complete hunk that passes the guard becomes its last line |
| `PatchPrinter.BlankLineIsTaken` | src/limpiador/tools/fs_tools.py:351-356 | for any lines: a blank line behind a hunk deletes an empty line that the hunk alone keeps |
| `PatchPrinter.SignatureIsTaken` | src/limpiador/tools/fs_tools.py:351-356 | for any hunk: the line `-- ` behind it makes it expect one line `- ` more |
| `PatchPrinter.DashLineIsLost` | src/limpiador/tools/fs_tools.py:353-354 | the patch that deletes a line "-- x" does not read back |
| `PatchTool.Workspace.ApplyPatch` | src/limpiador/tools/fs_tools.py:448-459 | any parse or planning error changes no file; otherwise every named file holds exactly its last planned outcome and every other file is unchanged, unless the plan deletes a file twice, when everything before that deletion is written |
| `PatchTool.Workspace.Plan` | src/limpiador/tools/fs_tools.py:425-450 | all outcomes are computed from the tree as it was, or the first error is returned |
| `PatchTool.Workspace.Commit` | src/limpiador/tools/fs_tools.py:451-459 | carries out the plan, and stops with an untyped error if and only if the plan deletes a file twice |
| `PatchTool.PlanAllEach` | src/limpiador/tools/fs_tools.py:450 | planning succeeds if and only if every section can be planned by itself |
| `PatchTool.PlanFileIs` | src/limpiador/tools/fs_tools.py:425-436 | a section can be planned if and only if its path is allowed, a file it deletes or edits is there, and the hunks of an edit apply; its outcome is nothing, the added lines or the patched text; otherwise which error |
| `PatchTool.CommitStep` | src/limpiador/tools/fs_tools.py:452-458 | one committed outcome keeps the tree equal to its planned state, and finds a file missing exactly at a second deletion |
| `PatchTool.DistinctTargetsAreSafe` | src/limpiador/tools/fs_tools.py:452-454 | a patch that names no file twice cannot stop half-way |
| `PatchTool.CreatedFileHolds` | src/limpiador/tools/fs_tools.py:418-422 | a file created from added lines holds those lines, terminated unless they are empty |
| `PatchSequence.DistinctFilesCommute` | src/limpiador/tools/fs_tools.py:448-459 | a patch that names no file twice can be planned if and only if its sections can be applied one after another, and its commit is the tree they leave |
| `PatchSequence.SequenceAgrees` | src/limpiador/tools/fs_tools.py:425-459 | for any patch that can be planned and be applied section by section the two trees are equal if and only if every edit that is the last to name its file finds the text the patch was planned from, or leaves nothing but the newline of both, by the count of lines, additions and deletions and the last line kept or added |
| `PatchSequence.PatchedInjective` | src/limpiador/tools/fs_tools.py:392-415 | hunks tell any two texts they apply to apart, unless both end in a newline and keep no line, or one that is empty |
| `PatchSequence.TwoEditsOverwrite` | src/limpiador/tools/fs_tools.py:450 | two sections that add a line to one empty file: both are committed and the first is lost |
| `PatchSequence.TwoDeletionsStop` | src/limpiador/tools/fs_tools.py:452-454 | two sections that delete one existing file can be planned, and their commit stops |
| `PatchUndo.FileUndone` | src/limpiador/tools/fs_tools.py:425-436 | undoing one section puts its file back if and only if: a created file was new; a deleted one was empty or terminated and not a lone newline, and the hunks delete exactly its lines; an edited one keeps its lines as text |
| `PatchUndo.DeletionSpelledOut` | src/limpiador/tools/fs_tools.py:418-422 | the file that the inverse of a deletion creates is the deleted text if and only if the deleted lines are the lines of that text |
| `PatchUndo.InverseRestoresTree` | src/limpiador/tools/fs_tools.py:448-459 | the inverse patch gives back the whole tree if and only if every section was undoable |
| `PatchUndo.UndoReadsBack` | src/limpiador/tools/fs_tools.py:344-389 | the printed inverse of a patch reads back if and only if no line the patch added starts with `-- `, the printed names are kept, and no line behind the hunks of a section runs into them |
| `PatchUndo.PrintedUndoRestores` | src/limpiador/tools/fs_tools.py:360-459 | applying a text of the inverse that reads back gives the tree back if and only if every section was undoable |
| `Rename.RightToLeftIsSubstitution` | src/limpiador/tools/ast_tools.py:586-600 | splicing sites that lie apart from right to left is the one-pass replacement of all of them |
| `Rename.SubstituteTwice` | src/limpiador/tools/ast_tools.py:684-686 | substituting at the moved sites of a substituted line replaces the same sites of the first line |
| `Rename.RenameBack` | src/limpiador/tools/ast_tools.py:598-600 | renaming back at the shifted columns restores the line if and only if every site held the old name |
| `Rename.LoopOrder` | src/limpiador/tools/ast_tools.py:586 | the descending order of the references meets the sites of each line from right to left, whatever order they came in |
| `Rename.RenameLines` | src/limpiador/tools/ast_tools.py:586-600 | succeeds if and only if every line number is in the file; every line then has its own sites replaced and no other change |
| `Rename.RenamedOnePass` | src/limpiador/tools/ast_tools.py:586-600 | when the sites of a line lie apart the line is its one-pass substitution |
| `Rename.UnnamedLineKept` | src/limpiador/tools/ast_tools.py:592-600 | a line with no reference is untouched |
| `Rename.ReplaceAtIs` | src/limpiador/tools/ast_tools.py:684-686 | a site is replaced inside its line; what hangs over the end is cut off, and behind the end the new name is added |
| `Rename.NoColumnIsFirst` | src/limpiador/tools/ast_tools.py:586-600 | a reference without a column stands at the start of its line |
| `RenameTool.GroupByFile` | src/limpiador/tools/ast_tools.py:580-582 | the groups hold each file's references in their order |
| `RenameTool.Repository.PlanRename` | src/limpiador/tools/ast_tools.py:583-601 | plans every named file, or fails with the first one that is missing or has a line out of range |
| `RenameTool.Repository.RenameSymbol` | src/limpiador/tools/ast_tools.py:578-614 | every named file can be planned and is written, or no file changes; the counts and the sorted file names are those of the request |
| `RenameTool.EachFileRenamed` | src/limpiador/tools/ast_tools.py:601-608 | when no two names denote one file, each file gets all its sites |
| `RenameSpellings.LeavingOut` | src/limpiador/tools/ast_tools.py:592-600 | of sites that lie apart some can be left out without a change if and only if each one left out holds the new text already |
| `RenameSpellings.SpellingsRenamed` | src/limpiador/tools/ast_tools.py:580-608 | a file named in any number of spellings gets the sites of all of them if and only if every site that its last spelling leaves out already holds the new name, which is as wide as the old one |
| `RenameSpellings.FirstSpellingLost` | src/limpiador/tools/ast_tools.py:580-608 | one file in two spellings with a site each: the first site is not renamed |
| `RenameUndo.FileBack` | src/limpiador/tools/ast_tools.py:583-601 | renaming back in one file restores its text if and only if every site held the old name |
| `RenameUndo.BackIsPlannable` | src/limpiador/tools/ast_tools.py:592-597 | the way back names no missing file and no line out of range |
| `RenameUndo.RenameBackRestores` | src/limpiador/tools/ast_tools.py:578-614 | over files with one name each and sites that lie apart, renaming back at the moved references restores the whole repository if and only if every site held the old name |
| `Retry.TokenBucket.constructor` | src/limpiador/observability/retry.py:101-107 | the bucket starts full and satisfies its invariant |
| `Retry.TokenBucket.Refill` | src/limpiador/observability/retry.py:118-122 | tokens accrue at the rate for the elapsed time, never beyond the burst |
| `Retry.TokenBucket.Acquire` | src/limpiador/observability/retry.py:109-116 | for any clock that moves forward and sleeps at least as long as asked: tokens stay within the burst and every window of the run obeys the rate bound, if and only if a full bucket can cover the cost; for any clock it never sleeps when what accrued up to its first reading covers the cost, and else exactly as long as the missing part takes; with an exact clock the time and the tokens after it, whatever time has passed since the last one |
| `Retry.GrantKeeps` | src/limpiador/observability/retry.py:109-122 | one more grant keeps the bound over all windows of the run |
| `Retry.UnitGrantsInWindow` | src/limpiador/observability/retry.py:81-84 | in a run of unit costs the grants of any window number at most burst plus rate times its length |
| `Retry.AcquireBackToBack` | src/limpiador/observability/retry.py:109-116 | n acquisitions from a full bucket take exactly max(0, n - burst) / rate when only the bucket's sleeps move the clock |
| `Retry.BackoffBounded` | src/limpiador/observability/retry.py:48-50 | k waits add up to at most k times the cap and at most base times (2^k - 1) |
| `Retry.BackoffGrows` | src/limpiador/observability/retry.py:48-50 | later waits are never shorter |
| `Retry.BackoffDoubles` | src/limpiador/observability/retry.py:48-50 | the first wait is the base delay and each later one twice the one before, up to the cap |
| `Retry.Boundary.Attempt` | src/limpiador/observability/retry.py:159-161 | one attempt spends exactly one token, granted before the operation begins |
| `Retry.ResilientCall` | src/limpiador/observability/retry.py:64-73 | for any outcomes: returns or raises the first settled one among the allowed attempts, else gives up with their number; spends one token per attempt and waits exactly the policy's delays, one per retry |
| `Naming.WireNameInjective` | src/limpiador/tools/base.py:114-116 | on valid names, underscores in the tool part included, the wire name determines the name |
| `Naming.WireNameNeverCore` | src/limpiador/tools/base.py:177-188 | no valid tool name becomes a core verb on the wire |
| `Naming.ValidNameIs` | src/limpiador/tools/base.py:177-188 | a name is valid if and only if it is one of the six namespaces, a dot and a nonempty tool name without one |
| `Naming.WireNameIs` | src/limpiador/tools/base.py:114-116 | on the wire the dot is an underscore and nothing else changes |
| `Registry.TokensSplit` | src/limpiador/tools/registry.py:124-131 | a separator splits the tokens of a text into those of its two sides |
| `Registry.TokenIs` | src/limpiador/tools/registry.py:124-131 | a word is a token of a text if and only if it is a maximal run of its letters and digits, in lower case |
| `Registry.ScorePositive` | src/limpiador/tools/registry.py:282-287 | a tool scores if and only if its name or description shares a word with the query |
| `Registry.OneWordScores` | src/limpiador/tools/registry.py:282-287 | a query word counts two in the name and one in the description |
| `Registry.ScoresAdd` | src/limpiador/tools/registry.py:282-287 | the words of a query add up |
| `Registry.LongerQueryScoresHigher` | src/limpiador/tools/registry.py:282-287 | adding words to a query never lowers a score |
| `Registry.RankingUnique` | src/limpiador/tools/registry.py:265-280 | the ranking is a function of the set of tools: any two lists that rank it are equal |
| `Registry.ToolRegistry.Register` | src/limpiador/tools/registry.py:153-157 | adds the tool, or refuses a taken name and changes nothing |
| `Registry.ToolRegistry.Rank` | src/limpiador/tools/registry.py:265-280 | returns exactly the tools with a positive score, strictly ordered by score and then name |
| `Registry.ToolRegistry.Search` | src/limpiador/tools/registry.py:171-185 | returns the first min(limit, matches) of the ranking: only tools that share a word with the query, and all of them when the limit allows; traces a search that follows a search |
| `Registry.ToolRegistry.Load` | src/limpiador/tools/registry.py:187-196 | loads a registered name and nothing else |
| `Registry.ToolRegistry.LoadedTool` | src/limpiador/tools/registry.py:240-248 | finds the handler of a wire name whatever order the loaded set is walked in |
| `Registry.ToolRegistry.Dispatch` | src/limpiador/tools/registry.py:217-238 | what every call replies and does to the registry: core verbs by name (the best matches of a search, the tool loaded or not found, the steps, the result), every other call to the one loaded tool of that wire name |
| `Registry.ToolRegistry.ActiveSchemas` | src/limpiador/tools/registry.py:251-262 | the core schemas, then the loaded tools' in order of name |
| `Registry.DispatchUnambiguous` | src/limpiador/tools/registry.py:240-248 | in every reachable registry a tool handles a wire name if and only if it is loaded and that is its wire name |
| `Memory.AddGoalKeeps` | src/limpiador/agent/context.py:165-168 | adding a step keeps the plan free of repetitions, in order, and everything resolved |
| `Memory.ResolveGoalKeeps` | src/limpiador/agent/context.py:170-180 | resolving does too, and the step is then resolved |
| `Memory.EstimateIs` | src/limpiador/agent/context.py:43-49 | a token is four characters, rounded down |
| `Memory.DurableIs` | src/limpiador/agent/context.py:287-291 | the durable estimate is that of the task, every planned step and every fact, by their characters |
| `Memory.Context.AddSubGoal` | src/limpiador/agent/context.py:165-168 | the plan with the step appended unless listed |
| `Memory.Context.ResolveSubGoal` | src/limpiador/agent/context.py:170-180 | the plan with exactly that step resolved |
| `Memory.Context.RecordSymbolFact` | src/limpiador/agent/context.py:182-185 | facts are kept once, in order |
| `Memory.Context.RecordPayload` | src/limpiador/agent/context.py:204-232 | appends one live payload of any kind, pinned or not, with the given or the default summary, leaves the others as they were, and traces a file read before |
| `Memory.DefaultSummaryTells` | src/limpiador/agent/context.py:299-302 | the default summary names the kind and the key and gives the length of the text |
| `Memory.Context.EstimatedTokens` | src/limpiador/agent/context.py:255-257 | the durable estimate plus every payload's |
| `Memory.Context.MostRecentLive` | src/limpiador/agent/context.py:293-297 | the last live payload, by position |
| `Memory.Context.Compact` | src/limpiador/agent/context.py:259-284 | below the threshold nothing; above it exactly the live, unpinned payloads but the most recent live one give up their text; the three figures of the result |
| `Memory.Context.EvictStale` | src/limpiador/agent/context.py:271-277 | the eviction loop and its count |
| `Memory.FootprintChange` | src/limpiador/agent/context.py:271-284 | a pass changes the footprint by exactly the sum of summary minus text over what it evicted |
| `Memory.NoneEvictedUnchanged` | src/limpiador/agent/loop.py:312-314 | a pass that counts no eviction changed nothing |
| `Memory.CompactionCanGrow` | src/limpiador/agent/context.py:267-284 | a pass can grow the footprint |
| `Memory.CompactedIsFlat` | src/limpiador/agent/context.py:259-284 | after a pass over the threshold over unpinned payloads only the most recent live one holds its text, and the footprint is exactly that text and the summaries of all others |
| `Transcript.Mirror` | src/limpiador/agent/loop.py:315-318 | rewrites exactly the last tool result of each evicted id, to the summary of the last payload evicted under it |
| `Transcript.MirrorKeepsShapes` | src/limpiador/agent/loop.py:304-318 | mirroring changes no message but the content of tool results |
| `Transcript.MirrorAgrees` | src/limpiador/agent/loop.py:304-318 | for any ids: if each tool result shows what its payload stands for, a mirrored pass keeps that if and only if each evicted payload is the last of its id and the last evicted under it has its summary, or is not the last and was shown as that summary already, and each live one is not the last of its id, or nothing was evicted under it, or the summary written over it is what it shows |
| `Transcript.MirroredContent` | src/limpiador/agent/loop.py:315-318 | what a mirrored pass leaves in the tool result number k |
| `Transcript.DistinctHarmless` | src/limpiador/agent/loop.py:315-318 | with distinct ids every payload comes through unharmed |
| `Transcript.CoreOfActive` | src/limpiador/agent/llm.py:134-136 | the core part of the request head does not depend on what is loaded |
| `Transcript.PlanningIs` | src/limpiador/agent/llm.py:107-117 | a turn is for planning if and only if the transcript holds no tool result |
| `Transcript.SystemAdds` | src/limpiador/agent/llm.py:120-136 | the system part of the prefix takes every system message, in order |
| `AgentLoop.CallGuard.Record` | src/limpiador/agent/guard.py:48-50 | counts one call |
| `AgentLoop.CallGuard.Check` | src/limpiador/agent/guard.py:52-57 | aborts if and only if the ceiling is reached |
| `AgentLoop.FirstFatalIs` | src/limpiador/agent/loop.py:143-146 | the first call that ends the run in an error is the first whose plan cannot be iterated, or that is the first `finish` and refused |
| `AgentLoop.FirstFinishIs` | src/limpiador/agent/loop.py:145-146 | the first `finish` is the call of that name behind none of that name |
| `AgentLoop.GoesOnIs` | src/limpiador/agent/loop.py:126-157 | the run goes on after a response if and only if it has calls, none of them `finish` or a plan that cannot be iterated |
| `AgentLoop.SummaryTells` | src/limpiador/agent/loop.py:266-280 | the summary names the tool and gives the length of the result it stands for |
| `AgentLoop.ListIsPlanned` | src/limpiador/agent/loop.py:292-295 | a list of steps adds exactly those not yet on the plan behind it, each once, unresolved, in the order of first mention |
| `AgentLoop.ApplyProtocolVerb` | src/limpiador/agent/loop.py:283-301 | writes the plan for exactly the two plan verbs, also when their dispatch was refused: the elements of a list, behind the plan, once, unresolved and in order of first mention, unless listed; the characters of a text; raises on a value that cannot be iterated and has then written nothing |
| `AgentLoop.Remember` | src/limpiador/agent/loop.py:138-144 | one call adds its payload, with its id and summary, and applies its verb |
| `AgentLoop.DispatchCall` | src/limpiador/agent/loop.py:133-144 | one call moves transcript, names, guard, payloads, plan, verbs and loaded tools together |
| `AgentLoop.DispatchNext` | src/limpiador/agent/loop.py:133-146 | one round of the dispatch loop is one step of the machine, or a crash exactly on a fatal call |
| `AgentLoop.DispatchBatch` | src/limpiador/agent/loop.py:130-146 | the batch is dispatched in order, to its end or to its first fatal call, and leaves the machine's state there; the first `finish` decides the result |
| `AgentLoop.Compact` | src/limpiador/agent/loop.py:304-318 | compaction, mirrored exactly when it evicted something |
| `AgentLedger.FoldKeepsLedger` | src/limpiador/agent/loop.py:133-144 | after any call the names, the guard, the verbs, the plan, the loaded tools, the payloads and the ids of the tool results are all those of the calls dispatched so far |
| `AgentLedger.CompactKeepsLedger` | src/limpiador/agent/loop.py:148-154 | compaction keeps the books, the shape of the transcript, the plan and every eviction |
| `AgentLedger.LedgerAt` | src/limpiador/agent/loop.py:116-157 | at the model call of any turn the books balance, and the transcript is the head and one block per turn: an assistant message and exactly its results, same ids, same order |
| `AgentLedger.LedgerIn` | src/limpiador/agent/loop.py:130-144 | the same inside a turn, with the results of the calls dispatched so far |
| `AgentLedger.DurableAt` | src/limpiador/agent/loop.py:138-154 | what was planned, resolved and evicted at one model call still is at every later one |
| `AgentLedger.BatchAgrees` | src/limpiador/agent/loop.py:133-144 | folding results back keeps every tool result equal to what its payload stands for, whatever the ids |
| `AgentLedger.AgreementStep` | src/limpiador/agent/loop.py:148-154 | the end of a turn keeps that if and only if it evicts nothing or every payload comes through the mirrored pass unharmed |
| `AgentLedger.DistinctIdsAgree` | src/limpiador/agent/loop.py:116-157 | with distinct call ids it holds at every model call of every run |
| `AgentRun.TakeTurn` | src/limpiador/agent/loop.py:122-157 | one turn takes the machine to its next state, or ends as a plain answer, a finish or a crash |
| `AgentRun.Run` | src/limpiador/agent/loop.py:69-157 | every run ends; each model call is made in the machine's state for its turn, below the ceiling, with that turn's schemas; the run ends by the guard in the state it stands in, or by a response without calls, a fatal call or a `finish`, with the result that response determines |
| `AgentTheorems.RunIsBounded` | src/limpiador/agent/guard.py:48-57 | at most as many turns as calls were left, dispatched calls below the ceiling plus the last batch; aborted if and only if every response asked for more; dispatched names, guard count, tool messages and payloads have equal length |
| `AgentTheorems.RunDetermined` | src/limpiador/agent/loop.py:69-157 | two runs of one setup end after the same turns with the same result, abort, crash and state, and sent the same messages |
| `AgentTheorems.CrashedExactly` | src/limpiador/agent/loop.py:143-146 | a run that is not aborted crashes if and only if its last batch holds a plan that cannot be iterated, or its first `finish`, refused |
| `AgentTheorems.EndsExactly` | src/limpiador/agent/loop.py:126-157 | a run that neither is aborted nor crashes ends with the text of a response without calls, or with the result of the first `finish` of its last batch, which was accepted |
| `AgentTheorems.FatalCallCrashes` | src/limpiador/agent/loop.py:130-146 | any run whose first answer is one fatal call crashes in its first turn |
| `AgentTheorems.RefusedFinishCrashes` | src/limpiador/agent/loop.py:145-146 | a run of one refused `finish` crashes |
| `AgentTheorems.NumberAsPlanCrashes` | src/limpiador/agent/loop.py:292-294 | a run of one `plan_add` with a number for its steps crashes |
| `AgentTheorems.PlanUnchanged` | src/limpiador/agent/loop.py:283-301 | a call, refused or accepted, leaves the plan as it was if and only if it is no plan verb, all steps it adds are planned, or the step it resolves is empty or resolved already |
| `AgentTheorems.RefusedTextPlans` | src/limpiador/agent/loop.py:292-295 | any text for steps is refused and plans each of its characters once; it changes nothing if and only if all of them are planned |
| `AgentTheorems.TwoCharactersPlanned` | src/limpiador/agent/loop.py:292-295 | the text "ab" on an empty plan leaves two steps |
| `AgentTheorems.PlanIsWhatWasAsked` | src/limpiador/agent/loop.py:283-301 | at every model call of every run a step is on the plan if and only if a call before it asked for it, and is resolved if and only if a call before it resolved it |
| `AgentTheorems.EveryTurnCalls` | src/limpiador/agent/loop.py:126-134 | every turn the run survives has dispatched a call |
| `AgentTheorems.PrefixConstant` | src/limpiador/agent/llm.py:120-136 | at every turn of every run the cacheable prefix is the system prompt, when there is one, and the five core schemas, despite loads and compaction |
| `AgentTheorems.HeadFirst` | src/limpiador/agent/loop.py:160-165 | every model call is sent the system prompt first, when there is one, and then the task |
| `AgentTheorems.TurnKinds` | src/limpiador/agent/llm.py:107-117 | the first turn is planning and every later one dispatch |
| `AgentTheorems.ResultsReadBack` | src/limpiador/agent/loop.py:266-318 | with distinct call ids the tool result number k is, at every model call, the text folded back for call k or, once evicted, that call's summary |
| `AgentTheorems.RepeatedIdDisagrees` | src/limpiador/agent/loop.py:315-318 | any first turn with one id twice that ends over the threshold: the second result reads as the summary of the first although its payload is live, and the first as its text although its payload is gone |
| `AgentTheorems.RepeatedIdRun` | src/limpiador/agent/loop.py:315-318 | a run whose second model call is sent that transcript |
| `AgentTheorems.ResolvedForGood` | src/limpiador/agent/context.py:91-95 | a step resolved at one turn is resolved, in its place, at every later one |
| `AgentTheorems.EvictedForGood` | src/limpiador/agent/context.py:115-118 | an evicted payload never regains its text |
| `AgentTheorems.MemoryFlat` | src/limpiador/agent/context.py:259-284 | at every model call the footprint is at most the threshold, or only the newest payload is live and the footprint is exactly the durable state, the earlier summaries and its text; before the first turn there is no payload |

## Left out

- `PatchHeaders.HeadersReadBack`: a name printed without a prefix starts with a character that is no blank, and what is printed behind a name is set off by one, as in every diff that follows the format.
- `Rename.RightToLeftIsSubstitution`: sites that overlap or leave the line are not characterised further than by what the clamped splices do, because the program promises nothing about them.
- `Retry.ResilientCall`: `retrying` without a limiter is the same loop and has no row of its own; delays below zero, on which a sleep raises, are excluded.
- `Registry.TokensSplit`: tokens are runs of ASCII letters and digits; lower-casing beyond ASCII is not modelled.
- Line breaks other than "\n", digits and blanks outside ASCII and Latin-1, encodings: texts are sequences of characters.
- JSON: the text a call folds back is arbitrary, and a `finish` reads back the result of its dispatch.
- Validation of arguments against their schemas: a call carries whether its arguments are valid; a value for `sub_goals` is a list or object, whose elements count by their texts, a text, or something that cannot be iterated.
- A tool that raises something other than a typed tool error ends the run in the program; here every dispatched call folds back a text.
- Directories, symbolic links, permissions and partial writes: a tree maps a resolved path to a text, and path resolution is an arbitrary function; two spellings of one file keep the last.
- Parsing of Python sources, and symbol, call and import extraction: the graphs and reference lists are inputs.
- Unresolved mentions in comments and strings that a rename reports: they come from a regular expression over the sources.
- `pin` and `release`: the loop uses neither; `pinned` is set when a payload is recorded, and compaction respects it.
- The tracer beyond the log of model calls and the re-search tag; prices, fingerprints and the byte layout of requests.
- The recursion limit of Python on deep import graphs, and the static registry of scoped runs.
- Floating-point rounding: rates, waits and clocks are reals.
- The git, GitHub and test tools, the command line, reports, evaluations and the code-review prompt: wrappers around other programs and orchestration of the parts modelled here.
