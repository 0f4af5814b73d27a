# DataLooker, modelled and proved

DataLooker is a desktop client for PostgreSQL and BigQuery. This project models
the parts of it where a mistake would be silent: a template whose blanks are
filled with values, the tables that keep sessions and catalogues and servers
while others change the connections behind them, a query plan drawn as a graph
with its time shared out, a half-typed GoogleSQL statement made to resolve, a
point in time shown in another zone, what is written for another reader to
read back, passwords in one keychain item, and the schema tree.

`dafny verify dfyconfig.toml` checks it all. A module follows a source file or
one part of it; where the source works step by step, so does a method here,
proved against a function, and the lemmas are about the function. Work that
interleaves is a transition system: what runs between two waits, or under one
lock, is one step, and the lemmas hold in every state of every run; others say
that a call nothing disturbs gets what it asked for.

- **Templates** (`Template*.dfy`): two SQL dialects scanned for `@name` blanks,
  and values spliced in. The scanner at a place depends only on what it passes,
  the character after, and two behind, so a value leaves the rest read as it was
  unless its neighbours can run into it. Which can is settled exactly, by
  dialect, from two characters behind the blank, its name and one ahead. What
  the scanner finds is told besides by how a statement is written
  (`TemplatePieces.dfy`), and what a value is written as by what a reader of SQL
  makes of it (`TemplateReadBack.dfy`).
- **Registries** (`Registries.dfy`, `Freshness.dfy`, `LspLifecycle.dfy`,
  `Shells.dfy`): tables behind a lock, with counters read before slow work to
  notice an invalidation that overtook it.
- **Plans** (`Plan*.dfy`): the graph's boxes, lines and CTE links, and the
  split of wall time into self times.
- **Completion** (`SqlTokens.dfy`, `SelectLists.dfy`, `Locating.dfy`,
  `StatementEndings.dfy`, `Completing.dfy`, `Offsets.dfy`): finding the cursor's
  statement, the `GROUP BY` select list, the cuts and their endings, and the
  search through them, the parser and the analyzer being any functions.
- **Calendar** (`Decimals.dfy`, `Calendar.dfy`, `CellTime.dfy`,
  `CellTimeProofs.dfy`, `CellTimeSent.dfy`, `Shards.dfy`): the Gregorian calendar
  of section 21.4.1 of ECMA-262, an instant re-written in another zone, and tables
  named after a day.
- **Printers and readers** (`Framing.dfy`, `AppFraming.dfy`, `HelperFraming.dfy`,
  `Headers.dfy`, `Conversation.dfy`, `Delimited.dfy`, `ArrayLiterals.dfy`, `JsonKeys.dfy`): the
  base protocol of the Language Server Protocol 3.17 read from both ends, the
  one-request-at-a-time conversation above it, CSV by section 2 of RFC 4180, TSV,
  array literals by section 8.15.6 of the PostgreSQL manual, and JSON keys.
- **Secrets** (`Secrets.dfy`): a write-through bundle with a migration, as a map.
- **Schema tree** (`ShardGroups.dfy`, `TreeRows.dfy`, `TreeRowsProofs.dfy`,
  `TreeIds.dfy`, `TreeShown.dfy`, `TreeNesting.dfy`, `TreeOrder.dfy`): shards folded
  into sets, and the tree flattened into rows: which there are, under which, and in
  what order.

Where the code does not do all its comments say, the code is followed and the
difference proved: a value filled in where its neighbours run into it
(`TemplateWitnesses.FitsExactly`), an empty frame whose last byte alone is missing
(`AppFraming.CutIsAnError`; "a stream that ends mid-message is an error",
`src-tauri/src/lsp/framing.rs:12-13`), a select list that leaves a parenthesis
open (`StatementEndings.AnOpenListIsClosedTwice`; "Parentheses left open are
closed", `bigquery-analyzer/complete.cc:312-314`), an alias with a backquote
(`SelectLists.StandInKeepsNames`), a complaint that is not "the statement's own"
(`Completing.ACutIsComplainedOf`, `bigquery-analyzer/complete.cc:556`), a CSV
file of one column whose last cell is empty (`Delimited.ANullAloneIsLost`; "RFC
4180, with a header", `src/features/query/export.ts:25`, whose records also end
in a carriage return and a line feed, not a line feed alone), and a
refused deletion that uncovers an older password (`Secrets.RefusedDeletionExactly`;
"A leftover copy would be harmless", `src-tauri/src/secrets.rs:138`). A request
whose method is no text ends the helper (`HelperFraming.TheAppReadsEachAnswer`).

## Model

| member | source | states |
|---|---|---|
| TemplateScanner.FindBlanks | src/features/query-templates/variables.ts:22-90 | finds the blanks a scan turn by turn finds, each an `@` and a whole name, in order and apart |
| TemplateScanner.Turn | src/features/query-templates/variables.ts:49-88 | one turn of the loop, in either dialect, looks next where the scan does and passes at most the blank there |
| TemplateScanner.ClosingLoop | src/features/query-templates/variables.ts:28-42 | ends past the quote that closes what is open, doubled quotes and backslashes passed over, or at the end of the text |
| TemplateScanner.CommentLoop | src/features/query-templates/variables.ts:63-76 | ends past the `*/` that closes the outermost of nested comments, or at the end of the text |
| TemplateScanner.BlanksAreWellPlaced | src/features/query-templates/variables.ts:77-82 | every blank found is an `@` and the longest name after it, none before the scan's start or overlapping another |
| TemplatePieces.BlanksAreTheVariables | src/features/query-templates/variables.ts:15-99 | of a statement written of names, words, strings, quoted names, dollar quotes, comments, system variables and marks, with a gap after each, the blanks are exactly its variables where they are written, in either dialect |
| TemplatePieces.NothingIsFoundInTheOpen | src/features/query-templates/variables.ts:27-47 | a string, a quoted name, a dollar quote or a comment that nothing closes runs to the end of the statement, and hides nothing before it |
| TemplateLocality.TurnAlike | src/features/query-templates/variables.ts:49-99 | a turn that stays inside a stretch two texts share, the character after it seen too, is the same turn in both |
| TemplateLiterals.FourReplacementsEscape | src/features/query-templates/variables.ts:125-129 | the four replacements over the whole text are one escape of each character, none escaped twice |
| TemplateLiterals.ClosingPassesEscaped | src/features/query-templates/variables.ts:28-42 | the scanner goes over an escaped text and closes at just the quote written after it |
| TemplateLiterals.LiteralReadsBack | src/features/query-templates/variables.ts:118-131 | for every text and both dialects, a literal before anything but a quote ends where it was written to and stands for the text |
| TemplateFilling.FillIn | src/features/query-templates/variables.ts:152-162 | the loop's result is the template with each blank that has a value replaced by what is written for it |
| TemplateReadBack.NumbersAreSpelled | src/features/query-templates/variables.ts:12 | the numbers that can be written are just the texts that spell one, digits, a point, a power of ten and a sign, with any space around |
| TemplateReadBack.WrittenReadsBack | src/features/query-templates/variables.ts:133-149 | a reader of SQL literals gives the value meant for everything but raw SQL, in both dialects, before anything that does not go on with it: a text itself, a number the one its text spells, a boolean false just when its text is `false`, and NULL |
| TemplateReadBack.FilledReadsAsMeant | src/features/query-templates/variables.ts:151-162 | the filled statement is the template with, at each blank that has a value, raw SQL as it is or else a literal that reads back as the value meant |
| TemplateSeams.WrittenIsSkipped | src/features/query-templates/variables.ts:133-149 | from the start and from the end of a written text, number, boolean or NULL the scan finds the same, a doubled quote after it or a word that goes on included |
| TemplateJoins.TurnJoins | src/features/query-templates/variables.ts:49-88 | whatever turn ends where a blank starts, with a value there instead the scan goes on from it as from the value, though the turn may take in a word or a whole text |
| TemplateTheorems.FillingIsStable | src/features/query-templates/variables.ts:151-162 | where the two characters behind, the one ahead and the name let a value be written, and no blank touches it behind (in PostgreSQL, and at the end of a GoogleSQL statement: none left unfilled), the blanks of the filled statement are exactly those left unfilled, in order, each moved by how much longer what is before it became |
| TemplateTheorems.FillingInTwoRounds | src/features/query-templates/variables.ts:151-162 | filling some blanks now and others later gives the statement filling them all at once gives |
| TemplateTheorems.FillingAgainChangesNothing | src/features/query-templates/variables.ts:151-162 | filling a filled statement with the same values changes nothing |
| TemplateTheorems.FillingKeepsTheRest | src/features/query-templates/variables.ts:152-162 | whatever is written, raw SQL too, the template can be read back out of the filled statement: nothing outside the filled blanks changed |
| TemplateWitnesses.AfterABlank | src/features/query-templates/variables.ts:77-82 | right after a blank left unfilled, a number goes on that blank's name |
| TemplateWitnesses.TwoTextsTouch | src/features/query-templates/variables.ts:52-53 | in GoogleSQL two texts filled in side by side, whatever character is after them, can make three quotes in a row and hide a blank |
| TemplateWitnesses.AfterALoneE | src/features/query-templates/variables.ts:92-99 | after an `e` that is all of a word, PostgreSQL reads a text's backslash as an escape, and a blank inside the text is found |
| TemplateWitnesses.BeforeAnEscape | src/features/query-templates/variables.ts:92-99 | a blank named `e` makes the string after it an escape string, which a value in its place does not, and a blank inside is found |
| TemplateWitnesses.BeforeADollar | src/features/query-templates/variables.ts:57-60 | before any dollar, a number takes the dollars of a PostgreSQL dollar quote into its word, and a blank inside is found |
| TemplateWitnesses.BeforeAQuote | src/features/query-templates/variables.ts:52-53 | before any GoogleSQL quote, an empty text makes three in a row and hides a blank |
| TemplateWitnesses.AfterTwoQuotes | src/features/query-templates/variables.ts:52-53 | after an empty GoogleSQL string, whatever follows the blank, a text makes three quotes in a row and hides a blank |
| TemplateWitnesses.FitsExactly | src/features/query-templates/variables.ts:151-162 | the condition on a blank's neighbourhood is exact: it holds just when every statement is stable whatever is written at blanks with that neighbourhood |
| Registries.SessionRegistry.Asked | src-tauri/src/drivers/session.rs:282-289 | under the lock, gives the open session or else the connection's count of closes, and changes nothing |
| Registries.SessionRegistry.Land | src-tauri/src/drivers/session.rs:293-303 | registers a session opened since, unless a close overtook it, and gives an earlier one when there is one |
| Registries.SessionRegistry.DropOne | src-tauri/src/drivers/session.rs:354-356 | takes out the one caller's session of the one connection, and counts no close |
| Registries.SessionRegistry.Close | src-tauri/src/drivers/session.rs:359-363 | takes out all of a connection's sessions and counts one more close of it |
| Registries.Catalogs.Generation | src-tauri/src/app/completion.rs:119-126 | gives how often the connection was forgotten, none where it never was |
| Registries.Catalogs.Learn | src-tauri/src/app/completion.rs:129-158 | keeps what a table holds only when the connection was not forgotten since the generation was read; every other table, of this connection and of others, is known as it was |
| Registries.AllLearnedIsTold | src-tauri/src/app/completion.rs:129-158 | whatever tables are learned one after another, all of them and all known before are known, while the connection is not forgotten |
| Registries.Catalogs.Forget | src-tauri/src/app/completion.rs:161-168 | forgets all a connection's tables and moves its generation on |
| Registries.LspRegistry.BeforeStarting | src-tauri/src/lsp/mod.rs:57-65 | gives the connection's count of stops, and records the connection so that stopping all counts it |
| Registries.LspRegistry.Insert | src-tauri/src/lsp/mod.rs:70-82 | registers the server unless a stop overtook its start, and gives an earlier one when there is one |
| Registries.LspRegistry.Remove | src-tauri/src/lsp/mod.rs:85-89 | takes the connection's server out and counts a stop, whether or not there was one |
| Registries.LspRegistry.RemoveSession | src-tauri/src/lsp/mod.rs:93-103 | takes a server out only if it is still the one, and says whether the connection is left without |
| Registries.LspRegistry.TakeAll | src-tauri/src/lsp/mod.rs:106-113 | takes every server out and counts a stop of every connection ever asked about |
| Freshness.NothingStaleIsKept | src-tauri/src/app/connections.rs:15-33 | in every run, whenever no save or delete of a connection is between its first write and its last invalidation, its sessions, its server and all remembered of its tables come from its current row and secret |
| Freshness.NextInv | src-tauri/src/drivers/session.rs:274-341 | every lock section, read and write, of any caller, keeps that what is not current is still to be invalidated by somebody, or will be noticed by its counter |
| Freshness.UndisturbedOpens | src-tauri/src/drivers/session.rs:275-341 | from any state, a call nothing disturbs gets the session that is open or else one opened from the connection's row and password |
| Freshness.UndisturbedServes | src-tauri/src/app/lsp.rs:22-49 | a start of a language server nothing disturbs registers one started from the connection's row and password, where there was none |
| Freshness.UndisturbedLearns | src-tauri/src/app/completion.rs:189-222 | what a completion nothing disturbs learns of a table is known after it, from a session of the connection's row and password |
| Freshness.StoreStepKeeps | src-tauri/src/app/connections.rs:15-56 | what a writer's step can spoil is of its own connection and of no table it has already invalidated |
| LspLifecycle.ExactlyOnePlace | src-tauri/src/app/lsp.rs:17-49 | every started server is in exactly one place: with its one start, registered, with the one call about to stop it, or over |
| LspLifecycle.NoneIsLost | src-tauri/src/app/lsp.rs:17-67 | once no call is in progress every server started is registered or over |
| LspLifecycle.TakingAllOvertakesEveryStart | src-tauri/src/lsp/mod.rs:105-113 | stopping all leaves none registered and overtakes every start in progress that has asked |
| LspLifecycle.OvertakenIsNeverRegistered | src-tauri/src/lsp/mod.rs:67-82 | a server whose start was overtaken by a stop is not registered in that state or any after |
| LspLifecycle.EndingSpeaksForItself | src-tauri/src/lsp/session.rs:124-137 | a server whose output ends evicts no other, and its end is announced exactly when its connection is left without a server |
| LspLifecycle.UndisturbedStarts | src-tauri/src/app/lsp.rs:22-49 | a start nothing disturbs ends with its server registered and its output read, every other server as it was |
| LspLifecycle.SecondStartGivesWay | src-tauri/src/app/lsp.rs:36-48 | where the connection has a server by then, that is kept and the new one is stopped |
| LspLifecycle.UndisturbedStops | src-tauri/src/app/lsp.rs:63-67 | a stop nothing disturbs leaves the connection without a server, the one there was over and no other touched |
| Shells.ShellRegistry.Insert | src-tauri/src/shell/mod.rs:29-36 | registers a run only when the connection has none, and says whether it did |
| Shells.ShellRegistry.RemoveRun | src-tauri/src/shell/mod.rs:40-46 | takes a run out only if it is still the one registered |
| Shells.ShellRegistry.TakeAll | src-tauri/src/shell/mod.rs:48-55 | takes every run out and leaves none |
| Shells.NextInv | src-tauri/src/shell/session.rs:90-175 | every step of starts, watchers, stops and quitting keeps that runs up are the ones registered, ends are said once, and stops return only on what is gone |
| Shells.OneCommandToAConnection | src-tauri/src/app/shell.rs:12-32 | until the app quits, two runs registered or watched of one connection are one run, and it is the registered one |
| Shells.StoppedIsGone | src-tauri/src/app/shell.rs:38-43 | in every state after a stop has returned, the run it found is reaped and not registered |
| Shells.EndsAreSaidOnce | src-tauri/src/shell/session.rs:150-163 | a run's end is announced at most once, only when it is over, and never while it is registered |
| Shells.UndisturbedRuns | src-tauri/src/app/shell.rs:12-32 | a start nothing disturbs, of a connection with no command, ends with its run watched and registered |
| Shells.UndisturbedStops | src-tauri/src/app/shell.rs:34-43 | a stop nothing disturbs finds the run, waits until it is reaped, and leaves the connection free |
| PlanGraph.LayOut | src/features/query-plan/layout.ts:28-72 | the walk's boxes, lines, links, width and height are those of the recursive layout |
| PlanGraph.Walk.Place | src/features/query-plan/layout.ts:36-58 | placing a subtree pushes its boxes, lines, CTEs and scans after what was there, and takes its leaves' columns |
| PlanLayout.NoTwoBoxesOverlap | src/features/query-plan/layout.ts:22-27 | however a plan branches, no two boxes overlap |
| PlanLayout.BoxesInside | src/features/query-plan/layout.ts:65-71 | every box lies inside the graph's width and height |
| PlanLayout.SpotsAreTheRows | src/features/query-plan/PlanView.tsx:21-23 | the boxes are the table's rows, one for one, in its order and at its depths |
| PlanLayout.LeavesAreSideBySide | src/features/query-plan/layout.ts:22-27 | the leaves stand side by side in the table's order, a column each, every row as far down as it is deep, and the graph is just as wide as their columns |
| PlanLayout.DeepestIsThere | src/features/query-plan/layout.ts:65-71 | the graph is no higher than its deepest row |
| PlanLayout.CteOfExactly | src/features/query-plan/layout.ts:41 | a node is a CTE's own plan exactly when its role is `CTE ` and a name, in one line |
| PlanGraph.ParentsAreCentred | src/features/query-plan/layout.ts:48-53 | every node with inputs is midway between the first and the last of the rows indented right under it |
| PlanEdges.EdgesAreTheParents | src/features/query-plan/layout.ts:54-77 | the lines are exactly those from each row to the row it is indented under, each with the rows handed up: a loop's over all its loops, or the estimate |
| PlanGraph.LinksJoinScansToTheirCte | src/features/query-plan/layout.ts:41-44 | a scan is joined to a CTE's plan exactly when that is the plan, the last one, of the CTE it reads |
| PlanTimes.CteTimes.Collect | src/features/query-plan/plan.ts:134-139 | fills the map with what each CTE's own plan took, a later one over an earlier of its name |
| PlanTimes.Measure | src/features/query-plan/plan.ts:166-185 | a node's total and self time, its CTEs' plans left out of its inputs and what a scanned CTE took put in |
| PlanTimes.ReadPlan | src/features/query-plan/plan.ts:92-108 | the times of the whole plan, each node's with the processes that ran it |
| PlanTimes.TotalsAreWallTime | src/features/query-plan/plan.ts:110-130 | every node is shown with its counts, its inputs and what the wall clock saw: with no `Gather` above it its time over all loops, with as many processes as loops the time of one, and else so many loops at a time |
| PlanTimes.TimeIsConserved | src/features/query-plan/plan.ts:158-185 | with every node measured, the self times add up to the root's total and its CTEs' totals, less what scans were relieved of, and more only by what the floor at zero adds |
| PlanTimes.RecordedIsTheLast | src/features/query-plan/plan.ts:133-139 | a name's time is that of the last CTE of the name, and other names keep theirs |
| PlanTimes.BodiesAreShown | src/features/query-plan/plan.ts:133-139 | the times collected of the CTEs before anything is shown are the totals then shown at their own plans, in the same order, under parallel workers too |
| PlanTimes.ScansAreGivenWhatIsShown | src/features/query-plan/plan.ts:166-185 | what a CTE's scan, anywhere in the plan, is relieved of is the total shown at the last plan of the CTE it names; that and its inputs' shown totals off its own, down to zero at most, is the self time shown |
| PlanTimes.SelfIsWhatInputsLeave | src/features/query-plan/plan.ts:177-184 | any other node's self time shown is its total less its inputs' totals shown, CTEs' own plans aside, down to zero at most |
| PlanTimes.SharesMakeTheTotal | src/features/query-plan/plan.ts:158-165 | where each CTE is scanned once, self times add up to the root's total exactly when no node's inputs took longer than the node, and else to more |
| SqlTokens.Back | bigquery-analyzer/complete.cc:112-135 | gives the nearest accepted token in the same query with every `)` passed matched, or -1 when there is none before it |
| SqlTokens.MatchedAtDepthZero | bigquery-analyzer/complete.cc:117-135 | the walk's depth is zero exactly where every `)` passed is matched |
| SelectLists.Split | bigquery-analyzer/complete.cc:170-184 | splits at exactly the commas within no parentheses of the list |
| SelectLists.AliasIsTheName | bigquery-analyzer/complete.cc:137-148 | an item has a name exactly when it is one, or ends in one after an `AS`, a dot, a closing parenthesis, an `END`, a name or a value |
| SelectLists.ItemsMakeTheList | bigquery-analyzer/complete.cc:176-184 | the items with the separators between them are the list's tokens, in order |
| SelectLists.ItemsAreWhole | bigquery-analyzer/complete.cc:176-184 | no item has a top-level comma of its own |
| SelectLists.StandInKeepsNames | bigquery-analyzer/complete.cc:150-194 | the stand-in reads back as one entry to each item but an empty one after the last of several commas, in order and under its name, exactly when no name holds a backquote, a backslash or a line break, whatever escapes the reader undoes |
| SelectLists.NamesThatAreLost | bigquery-analyzer/complete.cc:188-191 | an alias with a backquote, one that ends in a backslash and one with a line break are not read back at all |
| SelectLists.GroupedSelectList | bigquery-analyzer/complete.cc:154-194 | stands in for the list of the `GROUP BY`'s own query, with an entry for each item under its name but none for an empty one at the end of several, and for none exactly when there is no such clause, `FROM` or `SELECT` in it |
| Locating.FindStatement | bigquery-analyzer/complete.cc:206-232 | finds the one span between semicolons the cursor is in, its tokens without comments, and whether the cursor is within a string or a comment |
| Locating.StatementIsUnique | bigquery-analyzer/complete.cc:220-228 | no other span between semicolons has the cursor in it |
| Locating.DottedPrefix | bigquery-analyzer/complete.cc:246-253 | walks back over all of the names and dots that touch each other up to the word, and no further |
| Locating.PathSpellsTheNames | bigquery-analyzer/complete.cc:258-265 | the path's parts hold no dot and, joined by dots, spell the names typed |
| Locating.FindCuts | bigquery-analyzer/complete.cc:272-288 | the cuts are before each token after the word that no dotted name runs through, and the statement's end, each with the parentheses open there |
| Locating.Locate | bigquery-analyzer/complete.cc:196-290 | the statement, the word, the dotted prefix, the select list and the cuts are what their definitions say of the tokens |
| Locating.TheWordIsReplaced | bigquery-analyzer/complete.cc:234-244 | what is replaced is the name or keyword the cursor is in or at the end of, and nothing where there is none |
| Locating.ThePrefixIsSpelled | bigquery-analyzer/complete.cc:246-269 | the prefix runs from the first of the touching names to the last dot, its path spells their names, and a table is expected exactly after `FROM` or `JOIN` |
| Locating.QuietExactly | bigquery-analyzer/complete.cc:211-219 | nothing is completed exactly where a text, a number or a comment would take what is typed |
| StatementEndings.FindEndings | bigquery-analyzer/complete.cc:298-310 | the endings are the cuts' from the last to the first, none where more is closed than opened |
| StatementEndings.EndingsKeepLess | bigquery-analyzer/complete.cc:298-310 | every cut that closes no more than it opens is tried as it is and with a `NULL` where no dot is before it, and each ending keeps less of the statement than those before, but for the `NULL` |
| StatementEndings.TailIsInLines | bigquery-analyzer/complete.cc:312-320 | after what is kept come lines of their own: `NULL` just where it is asked for, and as many closing parentheses as are open |
| StatementEndings.PlaceIsSound | bigquery-analyzer/complete.cc:196-290 | the replaced word has the cursor and lies in the statement; cuts ascend and none is within a dotted name; the parentheses of the text tried come out even exactly when the stood-in list left open what its stand-in opens, which is none where its names are plain |
| StatementEndings.EndingsBalance | bigquery-analyzer/complete.cc:315-320 | the head with the list stood in for, what is kept of the tail, and the text added to close it lack as many parentheses as the list left open, which is never fewer than none; a stand-in of plain names adds none |
| StatementEndings.AnOpenListIsClosedTwice | bigquery-analyzer/complete.cc:526-536 | whatever place is located at the end of `SELECT (a FROM t GROUP BY `, it has endings and every one of them closes a parenthesis too many |
| Completing.Search | bigquery-analyzer/complete.cc:556-623 | the loop's outcome is that of the first ending tried that neither fails to parse nor to resolve, and else the complaint of the first ending; it parses nineteen statements at most and analyzes twenty-four |
| Completing.Probe | bigquery-analyzer/complete.cc:605-617 | finds the first of the six probes that fits, and keeps no complaint but the first probe's |
| Completing.OutcomeIsUnique | bigquery-analyzer/complete.cc:556-623 | a parser and an analyzer leave only one outcome possible |
| Completing.FewAreTried | bigquery-analyzer/complete.cc:471-475 | at most nineteen endings are tried, whatever the parser and the analyzer say |
| Completing.TheBudgetIsExact | bigquery-analyzer/complete.cc:471-475 | where nothing parses just sixteen endings are tried, and where all parse and none resolves just four |
| Completing.NeedsAreNew | bigquery-analyzer/complete.cc:572-579 | what is asked for is not empty and never among the tables the catalog already tells of |
| Completing.FewRoundsAsk | src-tauri/src/app/completion.rs:192-226 | however the analyzer answers as the catalog grows, at most four rounds of one completion ask for tables |
| Completing.LearningAnswers | src-tauri/src/app/completion.rs:209-222 | when all a round asks for is learned, the next round's catalog has it and all that was there |
| Completing.CompletionsAreShort | src-tauri/src/app/completion.rs:192-226 | so a completion whose connection is not forgotten has at most four rounds that ask, whatever else is learned meanwhile |
| Completing.OneRoundAsks | src-tauri/src/app/completion.rs:18-20 | where a shorter ending names no table a longer one that parses does not, one round asks at most |
| Completing.FourRoundsCanAsk | src-tauri/src/app/completion.rs:18-20 | four is the least such bound: with a parser that finds in each ending a table no longer one names, four rounds ask, one more than are made |
| Completing.FirstIsTheStatement | bigquery-analyzer/complete.cc:556 | the first complaint is the whole statement's exactly when the statement closes no more than it opens |
| Completing.ACutIsComplainedOf | bigquery-analyzer/complete.cc:556 | whatever place is located after the `a` of `SELECT a) FROM t`, the first ending tried there is a cut one |
| Offsets.ByteOffset | src-tauri/src/app/completion.rs:329-338 | gives the byte after the fewest characters of so many UTF-16 units, or the text's end |
| Offsets.Utf16Offset | src-tauri/src/app/completion.rs:340-345 | counts the UTF-16 units before a byte between characters, or of the whole text |
| Offsets.BytesComeBack | src-tauri/src/app/completion.rs:329-345 | from a byte between characters to units and back is the same byte |
| Offsets.UnitsComeBack | src-tauri/src/app/completion.rs:329-345 | from units to bytes and back is the same exactly where the unit is between characters; within a pair it is the next, past the text its end |
| Calendar.MakeDayUndoesCivil | src/features/query/cell.ts:62-65 | the date a day is written as names that day |
| Calendar.CivilUndoesMakeDay | src/features/schema-tree/rows.ts:142-148 | a date of the calendar is the one its day is written as |
| Calendar.KnownDays | src/features/query/cell.ts:62-65 | the first day of 1970 is day 0, and 29 February 2000 is day 11016 |
| Calendar.DaysFollow | src/features/query/cell.ts:62-65 | the day after a day is the next, after a month's last the next month's first, and twelve months on the next year's |
| CellTime.InTimeZone | src/features/query/cell.ts:54-93 | the date built field by field, moved by the offset and printed, is the function's |
| CellTimeProofs.ZoneKeepsTheInstant | src/features/query/cell.ts:47-53 | shown in any zone, an instant is left as it came or reads back as the same instant, to the last digit of its fraction |
| CellTimeSent.SentIsShown | src/features/query/cell.ts:54-93 | whatever date, clock, fraction and offset a driver writes, the text shown names the day and second less the offset sent, the same fraction, and the zone's offset at that instant; or it is left, exactly where the zone or the year has no place for it |
| CellTimeSent.DatesAreShown | src/features/query/cell.ts:59-66 | every date of the calendar, second of its day, fraction and offset is written as such a text, whose instant is that day and second less the offset |
| CellTimeSent.OthersAreKept | src/features/query/cell.ts:50-58 | a text no driver sends of a point in time is left as it came |
| CellTimeSent.CellsAreShown | src/features/query/cell.ts:47-57 | a cell keeps its shape, and each text in it, however deep in arrays, is shown so or left as it came |
| CellTimeProofs.TrimZerosKeepsTheFraction | src/features/query/cell.ts:79-80 | dropping trailing zeros keeps the fraction's value |
| CellTimeProofs.TimesStayInRange | src/features/query/cell.ts:62-77 | no date built here is past what a `Date` can hold |
| Shards.ShardIsADay | src/features/schema-tree/rows.ts:128-149 | a name has a shard prefix exactly when what follows it is a day the calendar has, in the years 1000 to 9999 |
| Shards.NamesSortAsDays | src/features/schema-tree/rows.ts:186-189 | shards sort by the digits of their names as their days do |
| AppFraming.Read | src-tauri/src/lsp/framing.rs:14-54 | the reading, and what is left of the stream after a message, are those of the headers read line by line |
| AppFraming.Write | src-tauri/src/lsp/framing.rs:57-62 | appends a header with the length in bytes, a blank line and the message |
| AppFraming.MessagesReadBack | src-tauri/src/lsp/framing.rs:12-62 | any list of messages of at most 16 MiB, written one after another, is read back as that list and then the end |
| AppFraming.CutIsAnError | src-tauri/src/lsp/framing.rs:12-13 | a frame cut off is an error and no message, for every cut but one: an empty message's, its last byte alone missing, which is read |
| AppFraming.CutStream | src-tauri/src/lsp/framing.rs:12-13 | cut inside a non-empty message, a stream gives the messages before it and then an error |
| Headers.TheAppTakesTheLastLength | src-tauri/src/lsp/framing.rs:14-54 | whatever header lines come before a message, the last length among them says how much is read and other headers change nothing; it is an error without a length, with one that is no number, with one past 16 MiB, and where too little follows or it is no UTF-8 |
| Headers.AFrameIsALength | src-tauri/src/lsp/framing.rs:57-62 | what is written is one header line, `Content-Length` and the length, a blank line and the message |
| HelperFraming.Read | bigquery-analyzer/main.cc:27-49 | the request is that of the lines read until a blank one, a malformed length changing nothing |
| HelperFraming.CutIsNoRequest | bigquery-analyzer/main.cc:45-48 | a frame cut off, wherever and of whatever message, is no request |
| Headers.TheHelperTakesTheLastLength | bigquery-analyzer/main.cc:27-49 | whatever header lines come before a request, the last length that is a number says how much is read, and one that is none or another header changes nothing |
| HelperFraming.Serve | bigquery-analyzer/main.cc:69-96 | what the loop writes is a reply to each request read, in order, until there is none or one ends the process |
| HelperFraming.EachIsAnswered | bigquery-analyzer/main.cc:69-96 | requests written one after another are each answered once, up to the first that ends the process |
| HelperFraming.AnswersCarryTheId | bigquery-analyzer/main.cc:70-95 | whatever goes wrong, what is written to a request is one reply with the request's id, and a result only where `hello` or `complete` was asked |
| HelperFraming.EachMethodIsAnswered | bigquery-analyzer/main.cc:70-95 | `hello` is answered with the greeting and `complete` with its completion, or with its error as the code says; another method, no method and no JSON object each with their error, and a result that cannot be printed with one too |
| HelperFraming.ANumberForAMethodIsNotAnswered | bigquery-analyzer/main.cc:76 | a request whose method is a number is not answered, nor is any after it |
| HelperFraming.TheAppReadsEachAnswer | src-tauri/src/analyzer/mod.rs:153-164 | what the app writes to the helper and reads back is a reply to each request, in their order, and then the end; none is left without one exactly when each request that is an object names its method in text or not at all |
| Conversation.Running.Begin | src-tauri/src/analyzer/mod.rs:153-157 | takes the next id and marks the helper midway before the first wait |
| Conversation.Running.End | src-tauri/src/analyzer/mod.rs:165-170 | clears the mark once a whole reply is read, and says whether it is this request's |
| Conversation.NextInv | src-tauri/src/analyzer/mod.rs:68-88 | every step of calls, replies, time-outs and drops keeps that a helper being asked has just that request or its reply |
| Conversation.EachIsToldItsOwnAnswer | src-tauri/src/analyzer/mod.rs:148-179 | in every run no call is told another request was answered, each answer is to the caller's own request, and a kept helper that is not midway has nothing unread |
| Conversation.UndisturbedIsAnswered | src-tauri/src/analyzer/mod.rs:68-88 | from any state a run comes to with the lock free, a call nothing disturbs is told its answer: by the helper that is kept, asked once, or where there is none or it was given up on, by a fresh one greeted first; and it leaves one the next can ask |
| Delimited.CsvReadsBack | src/features/query/export.ts:25-40 | a reader of RFC 4180, to whom a line break at the end is nothing, recovers the header and every row, NULL as the empty field, exactly when there is a column and not just one with a NULL or an empty text last |
| Delimited.CsvLosesABlankLastRow | src/features/query/export.ts:25-30 | of such a block the last row is lost, and no other |
| Delimited.ANullAloneIsLost | src/features/query/export.ts:25-30 | the column `a` with one NULL is written as `a` and a line break, which reads as the header alone |
| Delimited.TsvReadsBack | src/features/query/export.ts:13-23 | a reader that takes a field as quoted only when it starts with a quote recovers the rows, exactly when there is a column and something is written; one to whom a line break at the end is nothing, only if the last of several lines is not an empty field alone too |
| Delimited.OnlyWhatNeedsThemHasQuotes | src/features/query/export.ts:13-39 | a field is written as it is exactly when it holds no separator, no line break and no quote, in TSV no quote it starts with |
| ArrayLiterals.ArrayReadsBack | src/features/query/export.ts:91-117 | an array of texts and NULLs, however nested, is read back as it was, through the string constant, with the text NULL kept a text |
| JsonKeys.Keys | src/features/query/export.ts:57-63 | the keys are distinct, each the first of its column's name and its numberings that no column before has |
| JsonKeys.KeysAreUnique | src/features/query/export.ts:52-56 | the names settle the keys |
| JsonKeys.NoCellIsLost | src/features/query/export.ts:64 | a row's object holds every cell under its column's key, and nothing else |
| Secrets.Bundled.With | src-tauri/src/secrets.rs:88-106 | gives the bundle as believed or else as stored, and changes nothing when it cannot be read |
| Secrets.Bundled.Change | src-tauri/src/secrets.rs:108-122 | writes the bundle before believing it, and leaves both as they were when the write is refused |
| Secrets.Bundled.Get | src-tauri/src/secrets.rs:125-142 | the state and the answer after a read are the function's, for every choice of refusals |
| Secrets.Bundled.Set | src-tauri/src/secrets.rs:144-150 | the state and the outcome after a write are the function's, for every choice of refusals |
| Secrets.Bundled.Delete | src-tauri/src/secrets.rs:152-160 | the state and the outcome after a deletion are the function's, for every choice of refusals |
| Secrets.OutcomesExactly | src-tauri/src/secrets.rs:82-160 | a read, a write or a deletion succeeds exactly when nothing it has to ask of the keychain is refused |
| Secrets.ReadingMovesItIn | src-tauri/src/secrets.rs:125-142 | a secret that was read is in the bundle, and its own item is gone unless its removal was refused |
| Secrets.TheBundleIsReadOnce | src-tauri/src/secrets.rs:72-106 | once the bundle was read, whether it can be read makes no difference |
| Secrets.GetReadsTheMap | src-tauri/src/secrets.rs:125-142 | reading never changes the map, moves included, and what it gives is the map's |
| Secrets.SetUpdatesTheMap | src-tauri/src/secrets.rs:108-122 | a write that succeeds is the map's update, and one that fails changes nothing stored |
| Secrets.DeleteRemovesFromTheMap | src-tauri/src/secrets.rs:152-160 | a deletion that succeeds removes the secret; one that fails changes nothing unless the item of its own could not be removed, and then that item is what the secret is |
| Secrets.RefusedDeletionExactly | src-tauri/src/secrets.rs:152-160 | a deletion that fails leaves the map as it was exactly when it did not take out of the bundle a secret that hid another, or none, in an item of its own |
| Secrets.ARefusedDeletionUncovers | src-tauri/src/secrets.rs:137-159 | a secret moved into the bundle with its item left behind, changed, and then deleted with the item's removal refused again, is the secret it was before the change |
| Secrets.AlwaysBelievesWhatIsStored | src-tauri/src/secrets.rs:72-122 | through any run of operations, refusals and restarts, what is believed of the bundle is what is stored |
| Secrets.LeftAsItWas | src-tauri/src/secrets.rs:108-122 | a secret no write or deletion names stays as it was, whatever is done to others and whatever is refused |
| Secrets.WhatWasSetIsRead | src-tauri/src/secrets.rs:125-150 | a secret that was set is the one read until it is set again or a deletion is tried, restarts and refusals between |
| ShardGroups.Count | src/features/schema-tree/rows.ts:162-166 | counts the tables of each prefix |
| ShardGroups.Fold | src/features/schema-tree/rows.ts:159-191 | the groups are each table alone or, where its prefix first appears, the whole set of it |
| ShardGroups.FoldingKeepsTheTables | src/features/schema-tree/rows.ts:155-158 | the groups hold every table once; a set is all of one prefix, two at least, the newest first, and no prefix has two; a table alone has no other of its prefix |
| ShardGroups.GroupsKeepTheOrder | src/features/schema-tree/rows.ts:155-184 | the groups come in the order of the tables, a set where the first of its shards does |
| ShardGroups.OnlyTablesAreShards | src/features/schema-tree/rows.ts:127-149 | only a table is a shard, and of a day of the calendar: a view is none, whatever its name |
| TreeRows.LayOutRows | src/features/schema-tree/rows.ts:365-443 | the loops' rows are the schemas' rows, folders before groups, one after another |
| TreeRows.PushGroup | src/features/schema-tree/rows.ts:417-439 | pushes a table's rows, or a set's row and its shards' when it is open or there is a filter |
| TreeRowsProofs.ShownAreTheMatching | src/features/schema-tree/rows.ts:379-384 | grouping before filtering, the groups left hold just the tables that match, each as often as it is there |
| TreeRowsProofs.FilterIsExact | src/features/schema-tree/rows.ts:358-364 | with a filter, the rows for tables are exactly the tables that match, each as often as it is there |
| TreeShown.EachIsShown | src/features/schema-tree/rows.ts:195-443 | for every view, filtered or not, the rows of each kind but sets are exactly what there is of it to show, each as often as it is there: tables of open schemas that match and are in no closed set, columns and indexes of open tables, what open folders hold, folders and schemas with a match |
| TreeShown.SetsAreShown | src/features/schema-tree/rows.ts:417-436 | a set of shards has one row in an open schema just when a table folded into it matches |
| TreeShown.ItemsAreCounted | src/features/schema-tree/rows.ts:388-402 | a schema's row counts all of it that matches, and says whether it is open |
| TreeNesting.EachStandsUnderItsOwner | src/features/schema-tree/rows.ts:355-443 | the nearest row less far in above any row is that of what it belongs to, open and one step out; schemas are outermost |
| TreeOrder.SchemaIsInOrder | src/features/schema-tree/rows.ts:404-439 | under an open schema come its folders with something in them, routines, sequences and types, and then its tables and sets with a match, in the order of their groups |
| TreeOrder.ColumnsAreInOrder | src/features/schema-tree/rows.ts:226-242 | under a table come its columns in their order and then its indexes' folder |
| TreeIds.NoTwoRowsHaveOneId | src/features/schema-tree/rows.ts:101-114 | however the tree is opened and filtered, no two rows have one id where no two names in one place are one |

## Left out

- TemplateWitnesses.FitsExactly: is of a neighbourhood some blank has that is the first of its name; one that touches a blank of its own name, as in `@a@a`, is never filled alone, and is left to `FillingIsStable` and `TwoTextsTouch`.
- TemplatePieces.BlanksAreTheVariables: is of pieces with a character between that begins nothing; pieces that touch are told by the scan alone, and a comment's own text holds no slash.
- TemplateReadBack.FilledReadsAsMeant: says what a literal means to a reader where what follows does not go on with it; the reader takes a text, a number in parentheses or not, and the words `TRUE`, `FALSE` and `NULL`.
- TemplateTheorems.FillingIsStable: takes no `raw` value, which is SQL and means to be read.
- CellTimeProofs.ZoneKeepsTheInstant: asks of the zone only that offsets are under a hundred hours; what the zone database says of an instant is any function.
- Completing.Search: what the parser and the analyzer answer is any function of the ending and the probe; what `Answer` and `Scopes` make of a resolved statement is not modelled.
- SqlTokens.Back: takes well-formed tokens, in order and apart; GoogleSQL's tokenizer is not part of this model, nor is a text it cannot read.
- Conversation.EachIsToldItsOwnAnswer: takes a helper that answers each request once and in order, which `HelperFraming.TheAppReadsEachAnswer` proves of requests that name their method in text, as all of the app's do; a request is put to the helper whole or not at all.
- HelperFraming.TheAppReadsEachAnswer: takes errors that can be printed as JSON, and replies of at most 16 MiB; what parses, completes and prints is any function otherwise.
- StatementEndings.EndingsBalance: counts what is kept by its tokens and what is written by its characters; the probe's own parentheses are not part of it.
- Completing.FewRoundsAsk: takes a catalog that forgets nothing between the rounds of one completion, as `CompletionsAreShort` shows of one whose connection is not forgotten, but for what is forgotten by age.
- Delimited.CsvReadsBack: takes a reader that takes a line feed for the line break of RFC 4180, which is a carriage return and a line feed.
- TemplateTheorems.FillingIsStable: of GoogleSQL blanks that touch each other takes two at the end of a statement and no longer chains.
- ArrayLiterals.ArrayReadsBack: reads the array's syntax; PostgreSQL also wants sub-arrays of one size, and takes an array of empty arrays as empty.
- TreeOrder.SchemaIsInOrder: says nothing of the order of what one folder holds, nor of a row's kind, comment and other details.
- TreeIds.NoTwoRowsHaveOneId: takes a row's id as its parts, since `JSON.stringify` writes different lists of texts differently.
- ShardGroups.Fold: sorts a set by a stable insertion on the names' digits, for the engine's `sort` by `localeCompare`.
- PlanTimes.TimeIsConserved: takes times as reals and the counts PostgreSQL writes as naturals; rounding is not modelled.
- Offsets.Utf16Offset: takes a byte between two characters, as the analyzer's spans are; a slice elsewhere panics.
- The registries' counters are unbounded, and wrap at 64 bits in the source.
- Texts are sequences of UTF-16 units in the TypeScript parts and of bytes in the framing; `values` is a map, without the names every JavaScript object inherits.
- The rounds of `complete` in `src-tauri/src/app/completion.rs` are steps of `Freshness`, without their limit of rounds and without what is forgotten by age.
- `save`, `delete` and their SQLite transactions are writes in any order of `Freshness`, with a commit as one step; validation and ordering of connections add nothing hard.
- The PostgreSQL and BigQuery drivers, processes beyond alive and reaped, Tauri commands, windows, React components, Monaco, downloads and the MCP server are not modelled.
- The language server's handshake and messages, a shell's output, and the time a watcher waits for it are not modelled.
- `toMarkdown`, whose escaping two texts share, and the rest of `toInsert` and `literal` around quoted texts and arrays are not modelled.
- `variablesIn`, `invalid`, `misestimate`, `warnings`, `operation`, `target`, `zoomAt`, `fit`, `reveal` and `openTables` would only add easy members.
