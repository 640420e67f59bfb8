# Verified model of a collaborative document store

The system stores plain-text documents for many writers. A document is a list of sentences; a
writer locks one sentence, edits its words, and commits. Storage servers keep the documents. A
name manager decides which server holds a document as primary and which as backup, replicates
asynchronously, and fails over when a server's connection drops. All programs exchange messages
in a small escaped-string format.

The project models the parts of that system where a mistake loses or mixes up text, in Dafny, and
proves what they keep.

| file | what it models |
|---|---|
| `wrappers.dfy` | shared small definitions |
| `text.dfy` | the meaning of the sentence and word splitters and joiners, and their laws |
| `grow_array.dfy`, `text_ops.dfy` | the growable array and the text helpers as loops over buffers |
| `merge.dfy` | the commit-time merge and how it finds a moved sentence again |
| `commute.dfy`, `distant.dfy` | several writers on one document, on sentences that occur once and on repeated ones |
| `word_edits.dfy`, `write_session.dfy` | word edits and the write session object |
| `undo.dfy` | the single undo slot over whole runs |
| `locks.dfy` | sentence locks and the file's lock flag over all interleavings |
| `tickets.dfy` | capability tickets |
| `file_index.dfy` | the hash-chained file table with swap-with-last removal |
| `round_robin.dfy`, `lru_cache.dfy` | server choice and the location cache |
| `json.dfy`, `json_ops.dfy` | the message codec |
| `exec_text.dfy` | a script stored by one program and flattened by the other |
| `placement.dfy` | placement, failover and replication as one transition system |
| `coalescing.dfy`, `lost_update.dfy` | when merging queued replication tasks loses no update, and exactly when it does |
| `name_manager.dfy` | the name manager's handlers as methods on its tables |

Code that works by loops and assignments is a method or a class with fields; its contract ties the
new state to a function of the old one, and the theorems are about those functions and about runs
of them. `dafny verify dfyconfig.toml` checks the project.

## Where the code and its documentation differ

* The documentation says that undo, revert and delete are refused while a write is in progress
  (line 50 of the repository's README.md). The lock flag is one per file and any session's end clears it, so this fails
  with two writers: `Locks.FlagMissesSecondWriter`. `Locks.FlagUpIff` says exactly when the flag is up.
* After a server has disconnected, an assignment already stored on it, or a creation that has
  placed its backup there, is still recorded, so a file can name a server that is down as its
  backup: `LostUpdate.LateAssignmentHappens`, `LostUpdate.LateCreationHappens`.
  `Placement.BackupNamedIff` says for every run when a file names that server again.
* The replication queue merges tasks, and the name manager tells updates apart by their second
  alone. No update is lost as long as no server that comes or goes displaces the first candidate
  of a file with an assignment under way, no failing call gives up such an assignment for a file
  that has got a backup meanwhile, and no update falls into the second that the name manager has
  recorded for the file (`Coalescing.DrainedBackupsAreCurrent`). Each condition is needed, and
  three equivalences say when it matters: `LostUpdate.LosesUpdateIff` for one server that
  registers, disconnects or is marked down, `LostUpdate.FailureLosesUpdateIff` for failing calls,
  `LostUpdate.SameSecondLosesUpdateIff` for a second update within a recorded second, which needs
  neither a failure nor a change of servers. The losing runs of the first two start with a file
  created without a backup although another server is up: its create call was refused or failed.
* The window in which relocation surely finds an occurrence with full context is 45 positions to
  the left and 49 to the right of the original index; beyond both bounds there are texts, for any
  three sentences, on which it is lost.

## Model

| member | source | states |
|---|---|---|
| Text.TrimFindsCore | ss/ss_main.c:2322-2335 | trimming any trimmed core between two runs of blanks returns that core |
| Text.TrimSplits | ss/ss_main.c:2322-2335 | every text is its trimmed form between two runs of blanks |
| Text.SplitShape | ss/ss_main.c:2368-2408 | every sentence the splitter outputs is non-empty, trimmed, on one line, with a delimiter only at its end, and all but the last have one |
| Text.SplitCharacters | ss/ss_main.c:2368-2408 | the same character by character: no blank at either end, no line break, '.', '!' or '?' only at the end, and there for all but the last |
| Text.SplitJoin | ss/ss_main.c:2368-2462 | for every list of segments, splitting the joined text gives the list with each undelimited segment fused to its successor by one space |
| Text.SplitJoinGlued | ss/ss_main.c:2368-2462 | an undelimited segment in the buffer is glued to the segment behind the line break |
| Text.FuseKeepsSentences | ss/ss_main.c:2368-2462 | fusing leaves a list alone in which all but the last are delimited |
| Text.FuseIsSentenceList | ss/ss_main.c:2368-2462 | a fused list is again a possible splitter output |
| Text.SplitJoinIdentity | ss/ss_main.c:2368-2462 | joining and splitting again is the identity on the splitter's outputs |
| Text.JoinInjective | ss/ss_main.c:2437-2462 | a joined list of segments says which segments they were: different lists are stored as different texts |
| Text.SplitJoinConservesText | ss/ss_main.c:2368-2462 | splitting and joining keep the exact sequence of visible characters |
| Text.WordsShape | ss/ss_main.c:2337-2366 | words are non-empty and contain no blank |
| Text.WordsJoin | ss/ss_main.c:2337-2435 | the words of a joined text are the words of its parts, in order |
| Text.WordsRoundTrip | ss/ss_main.c:2337-2435 | splitting joined words gives the words back |
| Text.WordsConserveText | ss/ss_main.c:2337-2366 | the words carry exactly the visible characters |
| GrowArrays.GrowArray.Reserve | common/array.c:23-42 | growing makes room and keeps the elements |
| GrowArrays.GrowArray.Push | common/array.c:51-58 | appends one element |
| GrowArrays.GrowArray.Insert | common/array.c:60-72 | shifts the tail and inserts, or fails beyond the end and changes nothing |
| GrowArrays.GrowArray.Remove | common/array.c:74-81 | closes the gap; an index out of range changes nothing |
| TextOps.TrimSpaces | ss/ss_main.c:2322-2335 | leaves the trimmed content in the same buffer |
| TextOps.SplitSentences | ss/ss_main.c:2368-2408 | the list it fills is the sentence list of the text |
| TextOps.FlushSentence | ss/ss_main.c:2382-2405 | pushes the trimmed buffer unless it is blank |
| TextOps.SplitWords | ss/ss_main.c:2337-2366 | the list it fills is the word list of the sentence |
| TextOps.JoinStrings | ss/ss_main.c:2410-2462 | the copied buffer is exactly the joined text; the measured length always suffices |
| TextOps.CountIsWordCount | ss/ss_main.c:2522-2534 | counting transitions into a word counts the words the splitter yields |
| TextOps.CountWords | ss/ss_main.c:2522-2534 | returns the number of words the splitter yields |
| Merge.Locate | ss/ss_main.c:640-675 | finds a sentence iff the baseline occurs; the one found is the first of highest score; how its parts weigh against each other is in the rows of `Merge.NeighbourOutweighsDistance`, `Merge.RightWindowIsExact` and `Merge.LeftWindowIsExact` |
| Merge.CountedBehind | ss/ss_main.c:586-607 | the context behind a candidate counts the equal neighbours up to the first difference, missing neighbour or the fifth |
| Merge.CountedBefore | ss/ss_main.c:586-607 | so does the context in front of it |
| Merge.NeighbourOutweighsDistance | ss/ss_main.c:655-666 | an occurrence with the one preceding neighbour is preferred to one without context at the session's own index iff it is fewer than 100 positions further on |
| Merge.CommitShape | ss/ss_main.c:609-720 | replacing fails iff the baseline is absent; otherwise exactly one best occurrence is exchanged for the new sentences; appending removes nothing |
| Merge.CommitResplits | ss/ss_main.c:677-720 | the committed text splits into the fused splice |
| Merge.CommitConservesText | ss/ss_main.c:677-734 | visible text and words of a commit are those of the kept prefix, the new text and the kept suffix |
| Merge.RelocatesToItself | ss/ss_main.c:586-675 | on an unchanged file the session's own index wins, even among equal sentences |
| Merge.RelocatesToFullContext | ss/ss_main.c:586-675 | if an occurrence with full context lies at most 45 left or 49 right, the chosen one has full context |
| Merge.RightWindowIsExact | ss/ss_main.c:643-672 | for every distance beyond 49 to the right and every three different sentences there are two texts and a session begun on one of them that, on the other, is drawn away from the only occurrence with its full context |
| Merge.LeftWindowIsExact | ss/ss_main.c:643-672 | the same for every distance beyond 45 to the left |
| Merge.UneditedChangesNothing | ss/ss_main.c:367-410 | a session opens iff the index is a sentence or the end, and committing it unedited stores the sentences that were there |
| Commute.CommitStep | ss/ss_main.c:609-741 | in block form a commit replaces its own block only, and the stored text splits into the new blocks |
| Commute.CommitAllShape | ss/ss_main.c:609-741 | after any run of writers on different sentences each sentence is its writer's text or unchanged |
| Commute.CommitsCommute | ss/ss_main.c:609-741 | any number of sessions on different sentences that occur once, whatever earlier texts they began on, all succeed in any two orders and store the identical document |
| Commute.TwoWritersCommute | ss/ss_main.c:367-410 | two sessions begun on one text at different sentences commute, and the document has both edits in place |
| Commute.RepeatedSentencesDoNotCommute | ss/ss_main.c:643-672 | with three equal sentences, whatever they are, replacing the first by two and the second by one stores different documents in the two orders, without a conflict |
| Commute.SecondWriterConflicts | ss/ss_main.c:640-672 | once a unique baseline is replaced and gone, another session holding it conflicts |
| Commute.AppendBesideReplace | ss/ss_main.c:635-704 | an appending session beside a replacing one: the two orders store the same document exactly when the appended sentences can change places with those pushed past the old end |
| Distant.FindsItsOwn | ss/ss_main.c:586-675 | where the context is kept within the window and no other occurrence has it all, the score finds exactly that occurrence |
| Distant.DistantWritersCommute | ss/ss_main.c:609-741 | writers more than four sentences apart commute on repeated sentences, too, while no other occurrence has the full context of theirs and the first text adds at most 49 sentences; the document has both edits |
| WordEdits.InsertRefinesList | ss/ss_main.c:412-493 | insertion succeeds iff the index is at most the word count, and is list insertion; only behind a last word that ends in '.', '!' or '?' does that character move to the end of what is inserted |
| WordEdits.AppendKeepsTerminator | ss/ss_main.c:425-486 | if the last visible character is '.', '!' or '?', appending words keeps the rest, the content and that character, in this order, as visible text |
| WordEdits.AppendBehindOpenText | ss/ss_main.c:437-486 | if it is no such character, or there is none, the words are the old ones followed by the content's |
| WordEdits.InsertIsNormal | ss/ss_main.c:2410-2435 | after an insertion before the end the text is its words with single spaces between them |
| WordEdits.EditsAreNormal | ss/ss_main.c:2410-2435 | so it is after a replacement and a deletion |
| WordEdits.ReplaceRefinesList | ss/ss_main.c:495-539 | replacement succeeds iff the word exists, and exchanges it for the content's words |
| WordEdits.DeleteRefinesList | ss/ss_main.c:541-572 | deletion succeeds iff the word exists, and removes just it |
| WordEdits.InsertThenDeleteRestores | ss/ss_main.c:412-572 | inserting before the end and deleting as many words there restores the words |
| WriteSessions.CountContextMatches | ss/ss_main.c:586-607 | counts the consecutive equal neighbours, at most four |
| WriteSessions.AppendSentenceList | ss/ss_main.c:574-582 | appends the other list in order and leaves it alone |
| WriteSessions.MergeSentences | ss/ss_main.c:683-704 | the two-latch loop outputs the splice |
| WriteSessions.WriteSession.Begin | ss/ss_main.c:367-410 | opens iff the index is a sentence or the end; the sentence is baseline and text, and both are empty at the end (`Merge.UneditedChangesNothing` for what that means) |
| WriteSessions.WriteSession.ApplyInsert | ss/ss_main.c:412-493 | an inactive session or a bad index changes nothing; otherwise the text becomes the edited one |
| WriteSessions.WriteSession.ApplyReplace | ss/ss_main.c:495-539 | the same for replacement |
| WriteSessions.WriteSession.ApplyDelete | ss/ss_main.c:541-572 | the same for deletion |
| WriteSessions.DetachTerminator | ss/ss_main.c:437-448 | takes the last character off exactly when the insertion goes behind the last word and that word ends in '.', '!' or '?' |
| WriteSessions.InsertAll | ss/ss_main.c:449-456 | inserting the words one by one is one list insertion |
| WriteSessions.EditWords | ss/ss_main.c:437-486 | detaching, inserting and attaching again leave the edited word list in place |
| WriteSessions.WriteSession.MergeLatest | ss/ss_main.c:635-704 | finds no place iff the merge conflicts; otherwise the merged list |
| WriteSessions.WriteSession.LocateBaseline | ss/ss_main.c:640-675 | the candidate loop finds the first best-scored occurrence, or none |
| WriteSessions.WriteSession.Commit | ss/ss_main.c:609-751 | a conflict stores nothing; otherwise the merged text is stored, the old one goes to the undo file, and the reported counts are right |
| Undo.PerformUndo | ss/ss_main.c:814-898 | refused when locked or without a slot, with nothing changed; otherwise the slot's text returns and the slot empties |
| Undo.RevertCheckpoint | ss/ss_main.c:1581-1662 | refused without the checkpoint or when locked; otherwise the checkpoint's text replaces the old one, which fills the slot |
| Undo.StoreSynced | ss/ss_main.c:1387-1457 | stores the pulled text; the old one fills the slot |
| Undo.UndoSlotPresence | ss/ss_main.c:814-898 | over any run the slot is filled iff a mutation followed creation and every completed undo |
| Undo.UndoSlotContent | ss/ss_main.c:715-724 | it holds the text from just before the latest mutation |
| Undo.UndoRestoresOnce | ss/ss_main.c:835-855 | undo returns that text byte for byte and a second undo right behind it does nothing |
| Locks.LockTable.Acquire | ss/ss_main.c:2229-2248 | busy iff the sentence has an entry; otherwise the entry is added |
| Locks.LockTable.Release | ss/ss_main.c:2250-2264 | removes the first entry of the sentence |
| Locks.RemovedIsFirst | ss/ss_main.c:2250-2264 | what a release leaves: all but the first entry with that file and sentence |
| Locks.LocksMatchSessions | ss/ss_main.c:1053-1269 | in every interleaving entries and lock-holding sessions correspond, and no two share a sentence |
| Locks.NoSharedSentence | ss/ss_main.c:2217-2264 | in every interleaving two sessions that hold locks differ in file or sentence |
| Locks.ReleaseRemovesOwn | ss/ss_main.c:2250-2264 | though it ignores the user, a release removes the releasing session's own entry and nothing else |
| Locks.FlagNeedsSession | ss/ss_main.c:792-812 | a raised flag means some session on the file is open |
| Locks.FlagExactWhenAlone | ss/ss_main.c:792-812 | while sessions on a file never overlap, the flag is up exactly while one is announced |
| Locks.FlagUpIff | ss/ss_main.c:792-812 | the flag is up iff some announcement has not been followed by any session's clearing step |
| Locks.FlagMissesSecondWriter | ss/ss_main.c:1265-1267 | a run with a second writer still editing and the flag down |
| Tickets.TicketTable.Prune | ss/ss_main.c:2156-2167 | in-place pruning keeps the tickets not expired, in order |
| Tickets.TicketTable.Take | ss/ss_main.c:2185-2207 | hands out and removes the first ticket with the request's token, user, file and op that has not expired; refuses only if every such ticket has |
| Tickets.TakeMeans | ss/ss_main.c:2185-2207 | the same about the table before pruning, field by field |
| Tickets.TicketTable.Add | ss/ss_main.c:2169-2183 | adds the ticket at the end |
| Tickets.LiveCounts | nm/nm_main.c:382-395 | pruning keeps every copy of a live ticket and no expired one; zero never expires |
| Tickets.LiveConcat | nm/nm_main.c:382-395 | pruning is an order-keeping filter |
| Tickets.TicketsBalance | ss/ss_main.c:2156-2207 | over any run each added ticket is live, pruned or taken, exactly once |
| Tickets.TakeSucceedsIff | ss/ss_main.c:2185-2207 | a take succeeds iff some ticket added and not taken has the request's token, user, file and op and expiry zero or not yet past; it takes such a one |
| Tickets.TicketsAreSingleUse | ss/ss_main.c:2185-2207 | no ticket is handed out more often than it was added |
| FileIndex.LinkFront | nm/nm_state.c:21-29 | threading a free slot at the front keeps all chains exact |
| FileIndex.LinkAround | nm/nm_state.c:31-45 | unlinking a slot keeps all chains exact for the remaining slots |
| FileIndex.Table.constructor | nm/nm_state.c:47-58 | an empty table |
| FileIndex.Table.HashName | nm/nm_state.c:12-19 | the rolling hash with machine-word wrap-around |
| FileIndex.Table.WalkChain | nm/nm_state.c:173-187 | the walk terminates and misses no slot of the chain |
| FileIndex.Table.FindIndex | nm/nm_state.c:173-187 | finds a name iff it is stored, with its entry |
| FileIndex.Table.HashInsert | nm/nm_state.c:21-29 | the slot joins the chains; names and entries stay |
| FileIndex.Table.Unlink | nm/nm_state.c:33-43 | the link before the slot, or the bucket head, now passes it by |
| FileIndex.Table.HashRemove | nm/nm_state.c:31-45 | the slot leaves the chains; names and entries stay |
| FileIndex.Table.Add | nm/nm_state.c:197-227 | map update; refused iff the table is full or the name is stored |
| FileIndex.Table.RemoveSlot | nm/nm_state.c:229-244 | the last slot moves into the hole and all chains stay exact |
| FileIndex.Table.Remove | nm/nm_state.c:229-244 | map delete, every other entry intact; fails iff the name is absent |
| RoundRobin.ServerTable.PickServer | nm/nm_state.c:138-152 | returns the next available server and moves the cursor behind it |
| RoundRobin.ServerTable.PickBackupServer | nm/nm_state.c:154-171 | the same with one server left out and its own cursor |
| RoundRobin.AnyRoundIsFair | nm/nm_state.c:138-171 | from any cursor, as many picks as there are usable servers return each of them exactly once |
| RoundRobin.PickFailsIff | nm/nm_state.c:138-171 | a pick fails iff no server is usable |
| RoundRobin.PickIsNext | nm/nm_state.c:138-171 | all servers between the cursor and the one picked are unusable, and the cursor moves right behind the pick |
| LruCache.Oldest | nm/nm_state.c:449-456 | the eviction victim is the first slot with the smallest time |
| LruCache.Cache.Lookup | nm/nm_state.c:425-437 | returns the cached server and refreshes its time, or changes nothing |
| LruCache.Cache.Evict | nm/nm_state.c:448-459 | drops the slot used longest ago; the last one moves into its place |
| LruCache.Cache.Put | nm/nm_state.c:439-465 | updates the cached name, or adds it, evicting when full |
| LruCache.CacheIsLru | nm/nm_state.c:425-465 | with strictly increasing readings the cache is, over any run, exactly the most recently used names up to the capacity, each once, with its value |
| LruCache.UsedStandsFirst | nm/nm_state.c:425-465 | in the recency list a put or hit name goes to the front, a put one with its new value, and the others keep their order |
| LruCache.MissChangesNothing | nm/nm_state.c:425-437 | a lookup of a name not among the latest ones changes nothing |
| LruCache.CacheKeepsNewest | nm/nm_state.c:425-465 | with readings that never run back, equal ones included: each cached name once, with its last value and last use; a name is left out only by a full cache, and was used no later than any cached one |
| LruCache.KnownHoldsLastPut | nm/nm_state.c:439-465 | whatever the clock reads, the reference map holds the names put with their last values |
| LruCache.SteadyLookupAnswers | nm/nm_state.c:425-437 | for the same clocks: a hit answers the last put value, and a miss on a name once put means a full cache of names used no earlier |
| LruCache.RecencyHoldsLastPut | nm/nm_state.c:439-465 | the recency list holds what was ever put, with the last put value |
| LruCache.LookupAnswers | nm/nm_state.c:425-437 | with strictly increasing readings a lookup hits iff the name is among the latest ones, and answers its last put value |
| Json.DecodeEscape | common/json_util.c:178-221 | decoding an escaped value up to its closing quote returns the value |
| Json.EscapeIsQuoteSafe | common/json_util.c:178-221 | in an escaped value every quote stands behind a backslash |
| Json.EscapeHidesControls | common/json_util.c:190-200 | no line break, carriage return or tab is left in an escaped value |
| Json.DecodePlainEscape | common/json_util.c:22-60 | a backslash before any character but n, r and t stands for that character |
| Json.MessageOnTheWire | common/json_util.c:8-20 | the exact text of messages with no field, one string field, and a string and a number field |
| Json.FieldScan | common/json_util.c:8-20 | within a rendered field the search pattern matches only at a string field of that key, at its start |
| Json.FieldRoundTrip | common/json_util.c:8-68 | reading a key from any message returns the original value of the first string field of that key, or nothing |
| Json.EveryFieldReadsBack | common/json_util.c:8-151 | with distinct keys every string field reads back, whatever the values contain |
| JsonOps.GetStringFixed | common/json_util.c:8-68 | agrees with the unbounded reader exactly when value and terminator fit |
| JsonOps.DecodeInto | common/json_util.c:21-67 | the copying loop succeeds iff the value is closed and fits |
| JsonOps.MeasureValue | common/json_util.c:84-105 | the first pass finds the exact decoded length |
| JsonOps.GetStringAlloc | common/json_util.c:70-151 | returns what the unbounded reader returns |
| JsonOps.EscapeValue | common/json_util.c:178-221 | writes the escaped value iff it and its terminator fit |
| JsonOps.EscapeLength | common/json_util.c:227-244 | the exact length of the escaped value |
| JsonOps.EscapeDup | common/json_util.c:246-260 | the measured buffer always suffices |
| ExecText.FlattenScript | nm/nm_main.c:641-669 | the loop drops carriage returns and the line breaks behind a delimiter |
| ExecText.FlattenJoin | nm/nm_main.c:641-669 | flattening a stored sentence list puts the sentences side by side |
| ExecText.FlattenDropsBreaks | nm/nm_main.c:641-669 | flattening any script drops line breaks and carriage returns and nothing else, and leaves no carriage return |
| ExecText.FlattenKeepsOpenLines | nm/nm_main.c:641-669 | the line break behind a line survives iff the line does not end in '.', '!' or '?' |
| ExecText.ScriptRoundTrip | nm/nm_main.c:641-669 | storing and flattening returns a script iff it has no line breaks, trimmed ends and no blank right behind a delimiter |
| Placement.FirstOther | nm/nm_main.c:1366-1377 | the first available server other than the primary, or none |
| Placement.AlwaysSafe | nm/nm_main.c:2435-2519 | in every reachable state recorded primaries and backups hold copies and are different servers |
| Placement.PrimaryMovesToBackup | nm/nm_main.c:784-800 | a primary moves only onto the recorded, available backup, and only when it is not available itself |
| Placement.PrimaryStays | nm/nm_main.c:1403-1452 | over any stretch of a run in which a file's primary is available it stays the primary |
| Placement.DisconnectPromotes | nm/nm_main.c:767-836 | a lost server's files are promoted iff their backup is available; others keep their primary and, unless lost, their backup |
| Placement.SelectionServes | nm/nm_main.c:1403-1452 | a server is found iff primary or backup is available; it holds a copy and is the primary from then on |
| Placement.CopyStep | ss/ss_main.c:1387-1457 | one step changes an existing copy only as a write on its server, or by storing the text the worker fetched, which keeps the server's own modification time |
| Placement.CopiesHoldWrittenText | nm/nm_main.c:2435-2519 | over any run every copy of a file, on any server, holds the empty text or one that was written to this very file before |
| Placement.UpdateAsks | nm/nm_main.c:2556-2589 | an update report asks for a synchronisation iff the file has a backup and the time is new, for an assignment iff it has none and another server is up, else for nothing |
| Placement.ScheduledAtEnd | nm/nm_main.c:2361-2412 | a task goes to the end of the queue or not at all, and then an equal one, or another assignment of the file, is waiting |
| Placement.ScheduledKeepsNoDuplicates | nm/nm_main.c:2377-2398 | the queue never holds two assignments of a file or two equal synchronisations |
| Placement.QueueIsFifo | nm/nm_main.c:2361-2458 | over any stretch of any run, what waited followed by what came is what left followed by what waits: first in, first out |
| Placement.BackupsStayCleared | nm/nm_main.c:2507-2516 | one step makes some file name a server again iff it records an assignment or a creation already under way |
| Placement.BackupNamedIff | nm/nm_main.c:811-814 | over any run: after a server's disconnect a file names it as backup iff an assignment or a creation has recorded it since and nothing has dropped it after that |
| Placement.NamedOnlyIfLate | nm/nm_main.c:767-836 | over any run in which the server does not register again a file can name it only if, at the disconnect, an assignment past its fetch or a creation aimed at it for that file |
| Placement.LateAssignmentNamesDownServer | nm/nm_main.c:2507-2516 | such an assignment leaves a backup that is down |
| LostUpdate.LateAssignmentHappens | nm/nm_main.c:2507-2516 | for all servers a run in which a file's first candidate disconnects before it is recorded and is then a backup that is down |
| LostUpdate.LateCreationHappens | nm/nm_main.c:1219-1261 | the same through a creation |
| Coalescing.EnqueuedIsQueued | nm/nm_main.c:2361-2412 | with servers fixed, a task merged away has its equal in the queue |
| Coalescing.ReceiveKeepsCare | nm/nm_main.c:2521-2589 | handling an update message leaves a task or a newer message behind for a stale backup |
| Coalescing.ChangeKeepsTracked | nm/nm_main.c:767-836 | a server that comes or goes without being a primary or displacing a first candidate leaves every backup current or cared for |
| Coalescing.FailKeepsTracked | nm/nm_main.c:2414-2433 | so does a failing call that gives up no assignment for a file with a backup |
| Coalescing.AlwaysTracked | nm/nm_main.c:2435-2519 | in every reachable state each backup is current or will be by a message or task under way |
| Coalescing.DrainedBackupsAreCurrent | nm/nm_main.c:2361-2412 | when messages, handlers, queue and worker are empty every recorded backup has the primary's text |
| LostUpdate.LosesUpdateIff | nm/nm_main.c:2484-2497 | for all servers, a primary and another server that registers, disconnects or is marked down: some otherwise calm run drains with a stale backup iff there was a first candidate and it is displaced |
| LostUpdate.KeptCandidateLosesNothing | nm/nm_main.c:2361-2412 | no otherwise calm run loses an update when the first candidate is kept or there was none |
| LostUpdate.DisplacedCandidateLoses | nm/nm_main.c:2390-2398 | some run does when it is displaced |
| LostUpdate.FailureLosesUpdateIff | nm/nm_main.c:2414-2433 | runs with fixed servers in which any call may fail can lose an update iff a backup is possible at all |
| LostUpdate.SameSecondLosesUpdateIff | nm/nm_main.c:2556-2588 | runs with fixed servers, no failing call and a clock that does not run back, but with updates in a second already recorded, can lose one iff a backup is possible at all |
| NameManagers.NameManager.ScheduleReplication | nm/nm_main.c:2361-2412 | refused iff malformed; queued unless a covering task waits |
| NameManagers.NameManager.PickTarget | nm/nm_main.c:2484-2497 | the worker's scan finds the first possible backup |
| NameManagers.NameManager.TryAssignBackup | nm/nm_main.c:2344-2359 | queues an assignment iff the file has a primary and no backup |
| NameManagers.NameManager.FailoverSlot | nm/nm_main.c:779-824 | one slot of the disconnect loop: it asks for a new backup iff the file lost its primary or its backup, has a primary and no backup now, and another server is available |
| NameManagers.NameManager.HandleDisconnect | nm/nm_main.c:767-836 | fails over every file; afterwards each file that lost a server, has a primary and no backup, and could get one has an assignment in the queue, and every added task is such an assignment with the present primary |
| NameManagers.DisconnectAsks | nm/nm_main.c:811-834 | that statement about the queue, for all tables, servers and queues |
| NameManagers.DisconnectAsksInOrder | nm/nm_main.c:831-834 | the tasks are added in the order of the table's slots |
| NameManagers.WantsBackupMeans | nm/nm_main.c:811-824 | which files ask, in terms of the entry before and after |
| NameManagers.NameManager.AssignPending | nm/nm_main.c:831-834 | the second loop asks for every listed file, in order |
| NameManagers.NameManager.SelectStorageServer | nm/nm_main.c:1403-1452 | primary if available, else the promoted backup, else none and the backup dropped |
| NameManagers.NameManager.UpdateMetadata | nm/nm_state.c:255-278 | counts are replaced; a zero time or an empty user keeps the old value |
| NameManagers.NameManager.HandleFileUpdate | nm/nm_main.c:2521-2589 | records the report and queues a synchronisation or an assignment; a synchronisation that the queue refuses drops the backup; unknown files change nothing |
| NameManagers.NameManager.TakeTask | nm/nm_main.c:2441-2458 | the worker takes the oldest task |
| NameManagers.NameManager.CapturePrimary | nm/nm_main.c:2461-2473 | a task for another primary is dropped |
| NameManagers.NameManager.ChooseTarget | nm/nm_main.c:2474-2502 | a synchronisation for another backup is dropped; an assignment aims at the first candidate |
| NameManagers.NameManager.FinaliseTask | nm/nm_main.c:2507-2516 | an assignment is recorded iff the primary is still the same |
| NameManagers.NameManager.HandleReplicationFailure | nm/nm_main.c:2414-2433 | the failed backup is dropped if still recorded, and a new assignment is asked for |
| NameManagers.NameManager.PlaceBackup | nm/nm_main.c:1219-1252 | the first other available server that accepts, or none |
| NameManagers.NameManager.RecordCreated | nm/nm_main.c:1253-1261 | refused iff the table is full or the name appeared in the meantime |

## Left out

* Sockets, framing, threads and mutexes: critical sections, messages and remote calls are atomic steps; update messages arrive in any order.
* Commit is one atomic step, although the code holds no lock between reading and storing the file; the early exit for a missing baseline is a plain conflict.
* Disk and memory: reads and writes succeed, a missing data file reads as empty; allocation failures, truncation and reply and name length limits are not modelled. Text is the content of a C string.
* Integer widths: sizes, scores and times are unbounded; only the file-name hash wraps, at 64 bits.
* The capacities of the table, the cache and the bucket array are parameters.
* NameManagers.NameManager.HandleFileUpdate: queueing a well-formed task does not fail for lack of memory; a malformed one is refused and handled as a failure.
* The class NameManager keeps the file table as a map; that the chained table behaves as one is proved in `FileIndex`.
* NameManagers.NameManager.HandleDisconnect: one atomic call here; in `Placement` the queueing of the tasks is a later step of its own, interleaved with everything else.
* Placement.AlwaysSafe: files are not deleted; deleting and recreating a name while a task for it is in flight is not covered.
* Coalescing.DrainedBackupsAreCurrent: primaries stay available, and the clock that stamps a file's updates does not run back. That re-replication eventually happens after a failover is not claimed, since stale tasks are dropped.
* LostUpdate.LosesUpdateIff: one server changes, and all files of the run are created on one primary.
* LruCache.CacheIsLru: which of several names with equal readings goes is fixed by their slots only; `LruCache.CacheKeepsNewest` is what holds for such clocks.
* JsonOps.GetStringAlloc: the second pass is the bounded copying loop of the fixed-size reader on a buffer of the measured size.
* Commute.CommitsCommute: for sentences that occur once in the document; `Commute.RepeatedSentencesDoNotCommute` shows that repeated ones need a condition, and `Distant.DistantWritersCommute` gives a sufficient one.
* Distant.DistantWritersCommute: sufficient, not necessary; with partial contexts the outcome depends on every score.
* Tickets.TakeSucceedsIff: for a clock that never runs back.
* Deleting files, access control and requests, checkpoint listing, the state file, running scripts, the integer reader of the codec, the storage server's sorted file list, the client program, logging.
