# pgAdmin III: verified core algorithms

A Dafny 4.11 model of the algorithmic core of pgAdmin III, with proofs. `dafny verify dfyconfig.toml`
checks everything.

| files | what they model |
|---|---|
| `PlanText`, `PlanLines`, `PlanTree`, `ExplainCanvas` | The EXPLAIN canvas: indented plan lines become shapes linked by parent pointers; one pass over the shape list sizes them, a second one places them. |
| `QueryWorker`, `QueryWorkerSafety`, `QueryWorkerProgress`, `QueryWorkerService` | The query thread as atomic steps over a nondeterministic libpq, interleaved with threads that add queries or cancel: what it keeps, when a query ends, and that the queue is served. |
| `CancelHandle`, `NoticeBuffer` | The mutex-protected `PGcancel` handle, and the message buffer whose emptiness test is outside its lock. |
| `TreeSearch`, `CheckTree` | Type-ahead search in the object tree by first-child, sibling and parent links; the tree view with check boxes. |
| `SyncScript`, `OptionText`, `OptionDialogs`, `ForeignServerOptions`, `DatabaseVariables` | Dialogs that compare the server's list with the edited one and emit ADD/SET/DROP, SECURITY LABEL or SET/RESET. |
| `ScheduleExceptions` | The exceptions of a pgAgent schedule: editing, and the DELETE/UPDATE/INSERT script. |
| `SqlText`, `CommentLines`, `SqlBox` | String literals, block comments, find and replace all. |
| `SortColumns`, `SortText`, `Keywords` | The sort list's printer and parser with identifier quoting, and keyword lookup. |
| `ColumnShrink` | The pass that shrinks wide grid columns. |
| `Basics`, `ParentVector` | Vocabulary that several of them share. |

Code that works by changing things is modelled as classes and loops. Each loop is proved against a
function on values, and what that function means is proved separately, over all inputs, runs or
interleavings. Statements are a datatype with a server semantics in which a statement that does not fit
the server's state fails.

Where a promise does not hold, the model keeps the code as it is and states exactly when it holds:

- A shape hangs below the most recent shallower shape if and only if no dropped line (Total, Trigger,
  Settings, Slice) between the two was as shallow as that shape; in general it hangs below the latest
  shape still open.
- A schedule's stored exceptions equal the displayed ones if and only if no displayed row was added and
  then changed before saving: such a row is neither updated nor inserted.
- Commenting and uncommenting a selection restores it if and only if it does not end in `-- `.
- The sort list survives printing and parsing if and only if no name holds a double quote and the last
  name is not empty; the server reads it as meant whatever characters its names hold.
- A foreign server's options are read back as they are if and only if names and values hold no comma,
  names no equals sign, and neither blanks at its ends; the script made from them is right for every
  sequence of edits under exactly the same condition.
- The text of an option script is read as the script if and only if every name in it stays itself without
  quotes and no value in it holds a quote: `DROP Host` drops `host`.
- The variable script reaches the edited list if and only if no changed `search_path` or
  `temp_tablespaces` shows DEFAULT, which the server takes for a reset, and no other changed value holds a
  quote. An empty text typed into the dialog becomes DEFAULT.
- Closing a connection frees its cancel handle if and only if the last operation of another thread between
  the two steps of closing is not a granted `SetConnCancel`.
- An Execute that gets enough steps ends if and only if it is not cancelled in the middle of COPY data:
  after a cancel that loop reads no more input.

Two remarks on races that lose nothing: a reader between the emptiness test and the append of a message
finds the separator in front of it (`NoticeBuffer.ReaderBetweenSteps`, against
`NoticeBuffer.UndisturbedAppend`), and a cancel sends one request exactly while a handle is in the field
(`CancelHandle.CancelReachesLiveQuery`).

The code and its own comments disagree in one place. The comment at `pgadmin/ctl/ctlTree.cpp:132-133`
says that an unsuccessful search yields no item; the code yields the current item, and the model follows
the code.

Assumptions about parts that are not modelled: the shape list inserts at its head and appends at its
tail; `wxString::Replace` works left to right without overlap; an item that has children has a first
child; a tree view's nodes are created after their parents; lists loaded from the server have distinct
keys; editor positions count characters; libpq refuses to send a query while results of an earlier one
are pending, and takes COPY data off the socket only when told to consume input.

## Model

| member | source | states |
|---|---|---|
| PlanText.ReadingDepicts | pgadmin/ctl/explainCanvas.cpp:59-123 | For every text, on its characters: exactly the lines at the top or behind an arrow whose first word names no summary, setting or slice become shapes, each of its line's level and below the latest shape still open there; other deeper lines become no shape and close none. |
| PlanText.ClassifiedAsMeant | pgadmin/ctl/explainCanvas.cpp:92-104 | Every line is read as a shape of its level, as only popping to it, or as a condition, according to its characters. |
| PlanText.DroppedWords | pgadmin/ctl/explainShape.cpp:221-227 | A line is dropped if and only if its first word is Total, Trigger, Settings: or Slice, or starts with (slice. |
| PlanLines.ReadingFindsParents | pgadmin/ctl/explainCanvas.cpp:59-123 | For every text, the pop-while-level loop hangs each plan line below the latest shape that no later line, dropped ones included, has closed; exactly the plan lines become shapes. |
| PlanLines.ForestUnique | pgadmin/ctl/explainCanvas.cpp:59-123 | That description determines the tree: two forests that fit a text agree in every shape, level and parent. |
| PlanLines.ParentsAreShallower | pgadmin/ctl/explainCanvas.cpp:107-112 | Parents have strictly smaller levels than their children, so the pop loop terminates along the chain. |
| PlanLines.ParentIsMostRecentShallower | pgadmin/ctl/explainCanvas.cpp:107-122 | The parent is the most recent earlier shape of smaller level if and only if no dropped line in between cut that shape off. |
| PlanLines.WithoutDroppedLines | pgadmin/ctl/explainCanvas.cpp:107-122 | For every text without dropped lines the parent is the most recent earlier shape of strictly smaller level, or the root. |
| PlanLines.DroppedLineMovesParent | pgadmin/ctl/explainShape.cpp:221-227 | A three-line text in which a dropped line moves a later line's parent up to the root. |
| PlanTree.KidsAfterAdding | pgadmin/ctl/explainShape.cpp:442-449 | Taking the parent's kid count as number and adding one keeps numbers equal to the number of earlier siblings and counts equal to the number of kids. |
| PlanTree.ExtentCountsLeaves | pgadmin/ctl/explainCanvas.cpp:131-141 | The accumulated total of every shape is the number of leaves at or below it. |
| PlanTree.TotalsAreExtents | pgadmin/ctl/explainCanvas.cpp:131-141 | After the child-first pass has visited shapes k and up, those totals are final and the others are partial sums over visited kids. |
| PlanTree.ChildrenTileParent | pgadmin/ctl/explainCanvas.cpp:143-171 | The row bands of a shape's kids tile its band: each row of it lies in exactly one of them and no other row does. |
| PlanTree.UnrelatedBandsApart | pgadmin/ctl/explainCanvas.cpp:143-171 | Shapes of which neither contains the other own disjoint rows. |
| PlanTree.PlacementIsInjective | pgadmin/ctl/explainCanvas.cpp:143-171 | No two shapes share both level and row. |
| PlanTree.RowsFitRoot | pgadmin/ctl/explainCanvas.cpp:143-175 | Every row used lies in 0 to the root's total minus one. |
| PlanTree.PlacesAreRows | pgadmin/ctl/explainCanvas.cpp:143-171 | The parent-first pass puts every shape at the first line of its band and leaves in each shape the rows handed out to its kids. |
| ExplainCanvas.LayoutKeepsApart | pgadmin/ctl/explainCanvas.cpp:126-177 | For every text the computed columns and lines keep all shapes apart, on the canvas and inside the scroll height. |
| ExplainCanvas.Shape.constructor | pgadmin/ctl/explainShape.cpp:416-449 | A new shape gets its level and parent, takes the parent's kid count as its number and adds one to it. |
| ExplainCanvas.Canvas.FindParent | pgadmin/ctl/explainCanvas.cpp:107-108 | The pointer loop ends at the shape that popping by levels reaches in the forest. |
| ExplainCanvas.Canvas.InsertShape | pgadmin/ctl/explainCanvas.cpp:112-122 | The new shape enters the list linked as the extended forest says, with kid numbers and counts right. |
| ExplainCanvas.Canvas.Read | pgadmin/ctl/explainCanvas.cpp:51-123 | Reading builds fresh shapes linked exactly as the text's forest and reports the deepest level. |
| ExplainCanvas.Canvas.SizeShapes | pgadmin/ctl/explainCanvas.cpp:131-141 | The first pass leaves in the shapes the totals of the vector pass. |
| ExplainCanvas.Canvas.PlaceShapes | pgadmin/ctl/explainCanvas.cpp:143-171 | The second pass leaves in the shapes the lines and used rows of the vector pass, and each shape in its level's column. |
| ExplainCanvas.Canvas.SetExplainString | pgadmin/ctl/explainCanvas.cpp:49-178 | For every text: the shapes are what the text means, linked and with its levels, totals equal to leaf counts, kids numbered, each shape in its level's column and on the first line of its band of rows, no two at the same place, all inside the scroll height, which is given. |
| QueryWorker.ChoiceIsErrorOrNthOrLast | pgadmin/db/pgQueryThread.cpp:425-484 | For every result stream without COPY OUT the selected result is the first error, else the n-th if that many came, else the last, else none. |
| QueryWorker.CopyOutIsPassedOver | pgadmin/db/pgQueryThread.cpp:501-591 | A COPY OUT result is passed over; the result after its data counts as if it had not been there, as an ordinary one even if it is an error. |
| QueryWorkerSafety.RunKeepsInv | pgadmin/db/pgQueryThread.cpp:343-738 | Every interleaving keeps the invariant on queue order, result stream, selection and ownership of results. |
| QueryWorkerSafety.QueueIsServedInOrder | pgadmin/db/pgQueryThread.cpp:681-738 | Over any interleaving, executed queries are a prefix of the added ones, and each finished one raised exactly one event, none only if cancelled with such events off. |
| QueryWorkerSafety.QueueIsWhatWasAdded | pgadmin/db/pgQueryThread.cpp:125-134 | The queue always is the sequence of queries added so far. |
| QueryWorkerSafety.ExecuteDrainsAndSelects | pgadmin/db/pgQueryThread.cpp:343-678 | An Execute without send or consume failure drained its stream; if not cancelled it reported the result its stream selects, as a success exactly if that is no error. Only such an Execute succeeds, and then the caller has the result; only a cancelled worker reports a cancel. |
| QueryWorkerSafety.SentIsAnswered | pgadmin/db/pgQueryThread.cpp:318-345 | A query sent has the server's results, in order, each under an address of its own. |
| QueryWorkerSafety.FailuresAreReported | pgadmin/db/pgQueryThread.cpp:199-420 | How failures to send and to read are reported, with and without a cancel. |
| QueryWorkerSafety.ResultsAreFreedOnce | pgadmin/db/pgQueryThread.cpp:370-484 | Over any interleaving no result is freed twice and none handed to a caller is freed. |
| QueryWorkerSafety.ConnectionIsReusable | pgadmin/db/pgQueryThread.cpp:345-357 | After an Execute without failure nothing is pending when the next query is sent. |
| QueryWorkerSafety.ErrorSurvivesFailure | pgadmin/db/pgQueryThread.cpp:438-465 | After an error result, a failure to read the rest keeps that error as the result, unless cancelled. |
| QueryWorkerSafety.CancelIsRequestedOnce | pgadmin/db/pgQueryThread.cpp:358-375 | One Execute asks the server to cancel at most once, and only if it is cancelled. |
| QueryWorkerProgress.CancelIsRequested | pgadmin/db/pgQueryThread.cpp:358-375 | A cancelled worker at the head of its loop or with COPY data to take does ask, exactly once in that Execute. |
| QueryWorkerSafety.CancelStopsTheQueue | pgadmin/db/pgQueryThread.cpp:619-635 | From any cancelled state on no result is handed out or reported and at most one more query starts. |
| QueryWorkerProgress.ExecuteEndsUnlessStuck | pgadmin/db/pgQueryThread.cpp:343-638 | Over any interleaving that gives the worker more steps than the results and libpq's waits call for, the Execute has ended if and only if it was at no point cancelled with its COPY data not fully read. |
| QueryWorkerProgress.UncancelledExecuteEnds | pgadmin/db/pgQueryThread.cpp:343-638 | Without a cancel it always ends. |
| QueryWorkerProgress.StuckForever | pgadmin/db/pgQueryThread.cpp:512-524 | Once cancelled with the buffered COPY data used up, no answer of libpq and no other thread gets the worker out of the loop. |
| QueryWorkerProgress.CancelledCopyHangs | pgadmin/db/pgQueryThread.cpp:501-524 | From any state in which a COPY OUT result is next: libpq without data and a cancel lead there. |
| QueryWorkerService.QueueIsServed | pgadmin/db/pgQueryThread.cpp:699-738 | Over any interleaving without a cancel: given more steps after the last query was added than what is left and what results and waits call for, the executed queries are exactly the added ones, in order, and each has its outcome. |
| QueryWorkerService.NeverStopsUncancelled | pgadmin/db/pgQueryThread.cpp:730-731 | Without a cancel a worker for several queries never stops. |
| QueryWorkerService.StopsUnlessStuck | pgadmin/db/pgQueryThread.cpp:730-731 | A cancelled worker, and one for a single query, given enough steps has stopped if and only if it did not get stuck in COPY data. |
| QueryWorkerService.SingleServesFirst | pgadmin/db/pgQueryThread.cpp:699-731 | A worker for a single query executes the first query there is when it first looks, if any, and no other. |
| CancelHandle.RunKeepsValid | pgadmin/db/pgConn.cpp:1029-1079 | Under every interleaving each handle is allocated before use, freed at most once and never used after, and exactly the one in the field is allocated and not freed. |
| CancelHandle.OneRequestPerSet | pgadmin/db/pgConn.cpp:1029-1079 | At most one cancel request is sent per SetConnCancel. |
| CancelHandle.RequestsAreCancels | pgadmin/db/pgConn.cpp:1029-1079 | Under every interleaving exactly as many requests are sent as cancels, asked for or by closing an open connection, found the last operation on the handle to be a granted Set on an open connection. |
| CancelHandle.NoCancelNoRequest | pgadmin/db/pgConn.cpp:1029-1056 | Setting and resetting the handle alone never sends a request. |
| CancelHandle.HandleIsLive | pgadmin/db/pgConn.cpp:1029-1079 | A handle is in the field exactly when the history of operations says so. |
| CancelHandle.NothingLiveAfterEnd | pgadmin/db/pgConn.cpp:1047-1079 | After Reset or CancelExecution every handle ever allocated is freed. |
| CancelHandle.ClosedCleanlyExactlyWhen | pgadmin/db/pgConn.cpp:328-337 | Closing an open connection leaves every handle freed if and only if the last operation of other threads between the cancel and the end of closing, if any, is not a granted SetConnCancel. |
| CancelHandle.ClosedTwice | pgadmin/db/pgConn.cpp:328-337 | Closing a connection already closed skips the cancel: a handle left over is freed only by another thread's operation. |
| CancelHandle.HandleOutlivesClose | pgadmin/db/pgQueryThread.cpp:705-727 | The race: a worker that asks for its handle while the connection is being closed keeps it. |
| CancelHandle.Connection.SetConnCancel | pgadmin/db/pgConn.cpp:1029-1044 | Frees the old handle, if any, and allocates a new one if the connection exists and libpq grants it. |
| CancelHandle.Connection.ResetConnCancel | pgadmin/db/pgConn.cpp:1047-1056 | Frees the handle, if any. |
| CancelHandle.Connection.CancelRunning | pgadmin/db/pgConn.cpp:1059-1079 | Sends one request on the handle, if any, and frees it. |
| CancelHandle.Connection.CloseCancelling | pgadmin/db/pgConn.cpp:328-332 | Cancels what runs on an open connection. |
| CancelHandle.Connection.CloseFinishing | pgadmin/db/pgConn.cpp:333-336 | Marks the connection closed and leaves the handle alone. |
| NoticeBuffer.RunLosesNothing | pgadmin/db/pgQueryThread.cpp:144-175 | For every interleaving and every query, what GetMessagesAndClear returned followed by what is left equals all the worker wrote, taken from its actions alone, in order, up to newlines. |
| NoticeBuffer.TakeEmpties | pgadmin/db/pgQueryThread.cpp:144-159 | A reader gets the whole buffer of the query it names, or of the current one for -1, and leaves exactly that one empty. |
| TreeSearch.PreorderStepsThrough | pgadmin/ctl/ctlTree.cpp:66-81 | For every tree and item, first child or else next sibling of the nearest ancestor is exactly the next item in preorder, or none at the end. |
| TreeSearch.NextItem | pgadmin/ctl/ctlTree.cpp:66-81 | The do-while climb computes that successor and terminates. |
| TreeSearch.Walk | pgadmin/ctl/ctlTree.cpp:62-82 | The search loop terminates at the first hit, at the stop item or off the end, and passes over no hit. |
| TreeSearch.MatchesMeans | pgadmin/ctl/ctlTree.cpp:62-65 | A match starts with the prefix up to the case of ASCII letters; only the item with the placeholder's text and nothing behind it is passed over. |
| TreeSearch.FindItem | pgadmin/ctl/ctlTree.cpp:28-137 | Returns the first non-dummy prefix match in cyclic preorder, after the current item for one letter and from it otherwise; else the current item; a hidden root is never reached from the top. |
| CheckTree.ClicksKeepClosed | pgadmin/ctl/ctlCheckTreeView.cpp:43-84 | Over every click sequence from an ancestor-closed start, a checked node's parent is checked. |
| CheckTree.CheckTreeView.SetParentAndChildImage | pgadmin/ctl/ctlCheckTreeView.cpp:65-75 | Sets exactly the node's subtree. |
| CheckTree.CheckTreeView.SetParentImage | pgadmin/ctl/ctlCheckTreeView.cpp:77-84 | Sets exactly the node and its ancestors. |
| CheckTree.CheckTreeView.OnLeftClick | pgadmin/ctl/ctlCheckTreeView.cpp:43-63 | A click on an unchecked node checks exactly its subtree and ancestors, on any other node clears exactly its subtree; all other images stay. |
| CheckTree.CheckTreeView.IsChecked | pgadmin/ctl/ctlCheckTreeView.cpp:86-89 | In an ancestor-closed tree, true means that every node above is checked too, false that nothing below is. |
| SyncScript.KeysAreIndependent | pgadmin/dlg/dlgForeignTable.cpp:446-504 | A script runs through if it does so on every key taken alone, and then each key ends as its own statements leave it. |
| SyncScript.EveryKeyRuns | pgadmin/dlg/dlgForeignTable.cpp:446-504 | Conversely, if a script runs through, each key ends as its own statements leave it. |
| SyncScript.ExactScriptSynchronises | pgadmin/dlg/dlgForeignTable.cpp:446-504 | A script that is right on every key never fails, ends at exactly the edited map, and is empty if and only if nothing changed. |
| OptionDialogs.EditsKeepDistinct | pgadmin/dlg/dlgForeignTable.cpp:406-443 | For every sequence of add and remove edits the names stay distinct. |
| OptionDialogs.UpsertSetsOneKey | pgadmin/dlg/dlgForeignTable.cpp:406-430 | Adding sets the first name that matches, ignoring case for options, else the new name, and no other. |
| OptionDialogs.RemoveRowRemovesOneKey | pgadmin/dlg/dlgForeignTable.cpp:433-443 | Removing a row removes its name and no other. |
| OptionDialogs.SameIgnoringCaseMeans | pgadmin/dlg/dlgForeignTable.cpp:412 | Names count as the same if and only if they differ at most in the case of ASCII letters. |
| OptionDialogs.OptionsSynchronised | pgadmin/dlg/dlgForeignTable.cpp:406-504 | For every sequence of edits the option script never hits a misplaced ADD, SET or DROP, ends at exactly the edited options, and is empty if and only if they are unchanged. |
| OptionDialogs.OptionsTextSynchronised | pgadmin/dlg/dlgForeignTable.cpp:446-504 | For every sequence of edits the emitted text reads as the script that leads to the edited options if and only if every name in it is plain and no value in it holds a quote. |
| OptionText.ScriptReadsBack | pgadmin/dlg/dlgForeignTable.cpp:466-500 | The printed clauses, joined by commas, are read back as the script if and only if every clause is plain. |
| OptionText.ClauseReadsBack | pgadmin/dlg/dlgForeignTable.cpp:472-499 | A printed clause and whatever follows it is read back as the clause, up to its end, if and only if its name is a lower-case identifier of at most 63 characters and its value holds no quote. |
| OptionText.UpperCaseDropsAnother | pgadmin/dlg/dlgForeignTable.cpp:477-479 | The text for dropping `Host` drops `host`. |
| OptionText.QuotedValueIsMisread | pgadmin/dlg/dlgForeignTable.cpp:472 | Whatever the name, a value with a quote is not read back. |
| OptionDialogs.LabelsSynchronised | pgadmin/ctl/ctlSeclabelPanel.cpp:249-321 | The same for security labels; IS NULL is emitted only for labels that exist. |
| OptionDialogs.OptionList.OnAddOption | pgadmin/dlg/dlgForeignTable.cpp:406-430 | The first row with that name in any case gets the value and keeps its name; without one a row is appended. |
| OptionDialogs.OptionList.OnRemoveOption | pgadmin/dlg/dlgForeignTable.cpp:433-443 | Removes the selected row, if any. |
| OptionDialogs.OptionList.GetOptionsSql | pgadmin/dlg/dlgForeignTable.cpp:446-504 | The nested loops emit exactly the text of the option script. |
| OptionDialogs.SeclabelPanel.OnAddSeclabel | pgadmin/ctl/ctlSeclabelPanel.cpp:196-222 | The provider's row gets the label; without one a row is appended. |
| OptionDialogs.SeclabelPanel.OnDelSeclabel | pgadmin/ctl/ctlSeclabelPanel.cpp:181-193 | Removes the selected label, if any. |
| OptionDialogs.SeclabelPanel.GetSqlForSecLabels | pgadmin/ctl/ctlSeclabelPanel.cpp:249-338 | The loops, which never break, emit exactly the label script, for a new object that of an object without labels. |
| ForeignServerOptions.LoadOptions | pgadmin/dlg/dlgForeignServer.cpp:82-91 | The loop that consumes the string yields its parsed rows. |
| ForeignServerOptions.ParsedExactlyWhenClean | pgadmin/dlg/dlgForeignServer.cpp:82-91 | Parsing the joined options gives them back if and only if every option is clean. |
| ForeignServerOptions.CommaInValueMisparsed | pgadmin/dlg/dlgForeignServer.cpp:82-91 | A comma in a value is misread. |
| ForeignServerOptions.ServerOptionsSynchronised | pgadmin/dlg/dlgForeignServer.cpp:201-265 | The script made from the string is right for every sequence of edits, and empty if and only if nothing changed, if and only if all options are clean. |
| ForeignServerOptions.RightEmptiedMeansDistinct | pgadmin/dlg/dlgForeignServer.cpp:208-236 | If the string reads as two rows of one name, the script drops that name twice once both are removed. |
| ForeignServerOptions.GetOptionsSql | pgadmin/dlg/dlgForeignServer.cpp:201-265 | The loops over the string emit exactly the text of the option script of its parsed form. |
| DatabaseVariables.AddVariableSetsOneKey | pgadmin/dlg/dlgDatabase.cpp:618-669 | Adding a text typed as blanks, a value and blanks sets the role and variable to exactly the value, or to DEFAULT if it is empty, and no other key. |
| DatabaseVariables.EveryTextIsTyped | pgadmin/dlg/dlgDatabase.cpp:626 | Every text is typed as exactly one value, empty for blanks only. |
| DatabaseVariables.AddVariableAdds | pgadmin/dlg/dlgDatabase.cpp:618-669 | Without a name nothing is added; a known role and variable gets the value in its place; a new one gets a row just before the last row of the same variable, or at the end. |
| DatabaseVariables.EditsKeepOrder | pgadmin/dlg/dlgDatabase.cpp:618-679 | For every sequence of edits keys stay distinct, and every row was loaded or has a typed value that is not empty. |
| DatabaseVariables.SurvivesIfUnderstood | pgadmin/dlg/dlgDatabase.cpp:778-785 | The server takes a SET statement for one to the displayed value if and only if the value is, without quotes, neither empty nor DEFAULT, and between quotes free of quotes. |
| DatabaseVariables.VariablesScriptExactWhen | pgadmin/dlg/dlgDatabase.cpp:736-807 | For any two lists the script ends at exactly the edited variables if and only if every changed value is one the server takes as displayed and no key unknown to the server has an empty value. |
| DatabaseVariables.VariablesSynchronised | pgadmin/dlg/dlgDatabase.cpp:618-807 | For every sequence of edits of the loaded list the script is right if and only if no changed list variable shows DEFAULT and no other changed value holds a quote; it is empty if and only if nothing changed. |
| DatabaseVariables.DefaultSearchPathIsReset | pgadmin/dlg/dlgDatabase.cpp:628-629 | An empty text for a loaded search path shows DEFAULT, and the script removes the setting. |
| DatabaseVariables.EmptyNewVariableIsLost | pgadmin/dlg/dlgDatabase.cpp:754-771 | A new variable with an empty value would get no statement. |
| DatabaseVariables.VariableList.OnVarAdd | pgadmin/dlg/dlgDatabase.cpp:618-669 | The list afterwards is the one described for the value typed, and looking the key up finds exactly that value. |
| DatabaseVariables.VariableList.OnVarRemove | pgadmin/dlg/dlgDatabase.cpp:672-679 | Removes the selected row, if any. |
| DatabaseVariables.VariableList.GetVariablesSql | pgadmin/dlg/dlgDatabase.cpp:736-807 | The loops, with matched rows removed from the copy in place, emit exactly the variable script, list variables without quotes. |
| ScheduleExceptions.EditsKeepInv | pgadmin/agent/dlgSchedule.cpp:301-419 | For every run of edits no two exceptions are equal, and rows and deletions together account for every stored record once. |
| ScheduleExceptions.RemoveRemoves | pgadmin/agent/dlgSchedule.cpp:407-419 | After any edits, removing a row: exactly its exception is shown no more, its record is gone once saved, and every other loaded record is saved as without the removal. |
| ScheduleExceptions.ChangeChanges | pgadmin/agent/dlgSchedule.cpp:351-404 | After any edits, changing a row: unless one of the named refusals applies, the new exception is shown in place of the old one, the row's record holds it once saved, and all else is as without the change; otherwise nothing changes. |
| ScheduleExceptions.AddAdds | pgadmin/agent/dlgSchedule.cpp:301-348 | After any edits, adding an exception: unless refused, it is shown besides the others, a new record holds it once saved, and the loaded records are as without it; otherwise nothing changes. |
| ScheduleExceptions.CoversMeans | pgadmin/agent/dlgSchedule.cpp:321-344 | An exception shuts out another if and only if it holds whenever the other does (any date at any time apart). |
| ScheduleExceptions.CoverageDependsOnOrder | pgadmin/agent/dlgSchedule.cpp:321-344 | Any time on a date shuts out later exceptions on it but accepts being added after them. |
| ScheduleExceptions.ScriptRuns | pgadmin/agent/dlgSchedule.cpp:573-642 | The script never misses a record and ends at the recorded rows plus the added, unchanged ones. |
| ScheduleExceptions.SavedExactlyUnlessSkipped | pgadmin/agent/dlgSchedule.cpp:573-642 | For every run of edits each displayed exception is stored exactly once and no other, if and only if no displayed row was added and then changed. |
| ScheduleExceptions.AddThenChangeIsLost | pgadmin/agent/dlgSchedule.cpp:400-402 | Adding and then changing an exception yields an empty script. |
| ScheduleExceptions.ScheduleDialog.IsRefused | pgadmin/agent/dlgSchedule.cpp:373-398 | The scan refuses exactly if neither date nor time is given or another row is or covers the exception. |
| ScheduleExceptions.ScheduleDialog.OnAddException | pgadmin/agent/dlgSchedule.cpp:301-348 | An exception that may stand is appended; otherwise nothing changes. |
| ScheduleExceptions.ScheduleDialog.OnChangeException | pgadmin/agent/dlgSchedule.cpp:351-404 | The focused row, and no other, becomes the new exception, flagged and with its id, if that may stand. |
| ScheduleExceptions.ScheduleDialog.OnRemoveException | pgadmin/agent/dlgSchedule.cpp:407-419 | The focused row is gone, the others keep their order, and its record is noted for deletion. |
| ScheduleExceptions.ScheduleDialog.GetUpdateSql | pgadmin/agent/dlgSchedule.cpp:573-642 | The three loops emit exactly the script. |
| SqlText.ReplacementsEncode | pgadmin/db/pgConn.cpp:603-604 | The two replacements in sequence are one encoding per character. |
| SqlText.QtDbString | pgadmin/db/pgConn.cpp:599-618 | For every string, both version branches and any text after it that does not start with a quote, decoding the literal yields the string and ends at its closing quote. |
| SqlText.CommentRoundTrip | pgadmin/ctl/ctlSQLBox.cpp:538-576 | For each line-end mode and non-empty selection, comment then uncomment gives it back, except that a comment mark at its very end is lost. |
| CommentLines.CommentMarksLines | pgadmin/ctl/ctlSQLBox.cpp:558-561 | Commenting puts a mark before every line of the selection; if the last line then ends in a mark, it loses that one. |
| CommentLines.UncommentUnmarksLines | pgadmin/ctl/ctlSQLBox.cpp:565-567 | Uncommenting takes one mark off the front of every line that has one and leaves the other lines. |
| CommentLines.EveryTextHasLines | pgadmin/ctl/ctlSQLBox.cpp:540-552 | Every text is lines joined by the line end. |
| SqlBox.CommentUncommentRestores | pgadmin/ctl/ctlSQLBox.cpp:554-576 | The whole buffer is restored if and only if the selection does not end in a comment mark. |
| SqlBox.SubstitutedIsReplace | pgadmin/ctl/ctlSQLBox.cpp:312-332 | Replace all with matching case is left-to-right, non-overlapping string replacement. |
| SqlBox.SameTextMeans | pgadmin/ctl/ctlSQLBox.cpp:375 | Texts count as the same if they are equal, or without matching case differ at most in the case of ASCII letters. |
| SqlBox.Editor.FindText | pgadmin/ctl/ctlSQLBox.cpp:422-426 | The first match from a position on, or none. |
| SqlBox.Editor.DoFind | pgadmin/ctl/ctlSQLBox.cpp:334-445 | Replaces the selection if it matches, then selects the first match after the caret, or reports that there is none. |
| SqlBox.Editor.ReplaceAll | pgadmin/ctl/ctlSQLBox.cpp:312-332 | Terminates even if the replacement contains the pattern; the text is the left-to-right, non-overlapping replacement of all matches and the count is their number. |
| SqlBox.Editor.BlockComment | pgadmin/ctl/ctlSQLBox.cpp:538-576 | Replaces the selection by its commented or uncommented form and keeps it selected. |
| SortColumns.SortListRoundTrip | pgadmin/dlg/dlgEditGridOptions.cpp:102-162 | Parsing the printed list gives it back if and only if no name holds a double quote and the last name is not empty; commas and blanks are allowed. |
| SortColumns.ParsePrinted | pgadmin/dlg/dlgEditGridOptions.cpp:102-162 | In general names lose their double quotes and a last name left empty is dropped. |
| SortColumns.FeedIdent | pgadmin/utils/misc.cpp:429-443 | Whatever the name, the parser reads its quoted form as the name without double quotes and ends outside quotes. |
| SortText.SortOrderReadsBack | pgadmin/dlg/dlgEditGridOptions.cpp:305-322 | The server reads the printed sort order as the list it was printed from, names and directions, if and only if every name has between one and 63 characters, whatever those are. |
| SortText.IdentReadsBack | pgadmin/utils/misc.cpp:429-443 | The printed form of a name is read back as the name, up to its end, under the same condition. |
| SortText.NeedsQuotingMeans | pgadmin/utils/misc.cpp:360-411 | A name is quoted exactly if it is not made of small letters, digits and underscores without a leading digit, or is a keyword that is not free. |
| SortColumns.ParseSortColumns | pgadmin/dlg/dlgEditGridOptions.cpp:106-162 | The character loop computes the parser's result. |
| SortColumns.PrintSortColumns | pgadmin/dlg/dlgEditGridOptions.cpp:305-322 | The printing loop computes the printed list. |
| Keywords.ExtraIsSorted | pgadmin/db/keywords.c:41-67 | The extra table as written is sorted. |
| Keywords.BinarySearch | pgadmin/db/keywords.c:113-128 | On a sorted table the search stays in bounds, terminates and agrees with linear search. |
| Keywords.LookupMeans | pgadmin/db/keywords.c:82-152 | What is found has the word's letters in lower case; the extra table is used only for words unknown to the main one; a word shorter than 32 characters in either table is found. |
| Keywords.ScanKeywordLookup | pgadmin/db/keywords.c:82-152 | For any sorted main table lookup agrees with linear search of the main and then the extra table under ASCII-only downcasing, and finds nothing for words of 32 characters or more. |
| ColumnShrink.Grid.ShrinkColumns | pgadmin/ctl/ctlSQLGrid.cpp:530-553 | The running total is the sum of widths, no column grows, user-sized ones stay, the total never drops below the available width, and the end is an exact fit or every automatic column at most half of it. |

## Left out

- ExplainCanvas.Canvas.SetExplainString: takes each line with its level, because levels of joined continuation lines rest on unsigned wrap-around; the condition text stored in shapes, the connecting lines and the horizontal extent are not modelled.
- QueryWorker.ChoiceIsErrorOrNthOrLast: speaks of streams without COPY OUT; the steps and all run-level results include COPY OUT and COPY IN.
- QueryWorkerSafety.ResultsAreFreedOnce: does not say that every result is eventually freed; the code leaves some unfreed.
- QueryWorkerSafety.QueueIsServedInOrder: assumes that a caller is registered for events.
- The EnterpriseDB callable branch, the parameter arrays and the messages of Execute: no further property.
- TreeSearch.FindItem: folds case for ASCII letters only, because locale tables are not modelled.
- CancelHandle.ClosedCleanlyExactlyWhen: takes the end of the connection and the clearing of its pointer as one step, and one thread that closes it.
- OptionText.ReadScript: reads blanks only where the dialogs print one, no comments, and no backslash escapes as with standard-conforming strings off; letters outside ASCII keep their case.
- DatabaseVariables.VariablesScriptExactWhen: takes the text of an unquoted list, apart from DEFAULT, as stored as it is typed, a literal that its own value ends early as a failing statement, and names and roles as they are printed; whether the server accepts a value for a variable is not modelled.
- OptionDialogs.LabelsSynchronised: takes provider names as they are printed.
- ScheduleExceptions.ScheduleDialog.GetUpdateSql: dates and times are opaque, because their formatting and parsing depend on the locale; the schedule's own columns are not modelled.
- SqlText.QtDbString: the decoder leaves out octal, hexadecimal and Unicode escapes, which the encoder never emits.
- SqlBox.Editor.DoFind: forward search for plain text only, because backward, whole-word and regular-expression search depend on Scintilla; case is folded for ASCII letters only.
- SqlBox.Editor.BlockComment: models the branch with a selection; without one a single line is edited.
- ColumnShrink.Grid.ShrinkColumns: requires an available width of at least zero; the first, measuring pass is not modelled.
- Drawing, dialogs' layout, menus, settings, start-up and the remaining property dialogs: user interface plumbing.
