# Verification of KetPlus's core logic

KetPlus is a C++/Qt editor that keeps, beside the editor, a static prototype of its successor in
JavaScript and a set of benchmark tools. Under the widgets sit a text codec, two protocols between the UI
thread and a worker, a bounded history, an eviction policy, a trace reducer, a chunked transfer and two
acknowledgment state machines. This project models those in Dafny and proves what they promise over all
inputs and all runs. `dafny verify dfyconfig.toml` verifies everything.

## What is modelled

- **Text codec** (`Utf.dfy`, `TextCodec.dfy`, `Document.dfy`). Detection, decoding and encoding over bytes, and
  the document object that loads and saves with them. The Qt converters are written from the standards: UTF-8
  from sections 3 and 4 of RFC 3629 (its mark from section 6), UTF-16 from sections 2.1, 2.2 and 3.2 of RFC 2781.
  Qt's own habits are explicit: `fromUtf8` and the UTF-16 decoder drop one leading U+FEFF, `fromUtf8` shows each
  byte that starts no sequence as U+FFFD, `toUtf8` writes `?` for an unpaired surrogate, the UTF-16 decoder keeps
  a trailing odd byte back, and the strict decoder used for detection reports an error exactly for bytes that are
  not well-formed UTF-8. A QString is a sequence of 16-bit units that need not be paired.
- **Background search** (`WorkspaceSearch.dfy`, `DefinitionLookup.dfy`). The window's handlers as methods of a
  class, and a step relation over the window, the worker and the queue of posted events. The worker reads the
  cancel flag and posts in two separate steps, so a cancel can fall between them; the UI thread blocks in the
  wait for the worker, and nothing is delivered meanwhile.
- **Workspace file index** (`FileIndex.dfy`). The cache, the one worker, the queued completion, and the open folder
  that changes while the worker runs.
- **Back and forward** (`Workspaces.dfy`, `NavigationHistory.dfy`, `NavigationZipper.dfy`, `NavigationSessions.dfy`).
  Two stacks around the caret, entries that go dead, and the guard against recording while an entry is restored.
  Restoring acts on the tabs, the split view and the files as the source does: it wakes a hibernated tab, reads an
  open file again, opens a closed one in a new tab, replaces a pristine document, clamps the caret, and lets the tab
  policy release others (any choice, `naps`). A guarded pointer to a destroyed editor reads as null.
- **Tab hibernation** (`TabPolicy.dfy`). The survey, the sort and the eviction loop over two budgets. `refuses` is
  the set of tabs whose `hibernate` reports failure; an editor that is a candidate never refuses
  (core/src/editor/EditorWidget.cpp:365-389), so the empty set is the real case, and the accounting is proved for
  any set.
- **Scroll-trace reducer** (`ScrollRuns.dfy`, `ScrollMetrics.dfy`, `ScrollEpisodes.dfy`, `ScrollReport.dfy`,
  `MaximalBlocks.dfy`). The segmenter, the accumulating loops and their composition from events to metrics, over
  exact reals and before any rounding.
- **Bulk transfer** (`BulkTransfer.dfy`). The pattern buffer with `size_t` wrap-around, the sender's loop with
  backpressure, the hashing receiver, and both ends over a reliable ordered channel. SHA-256 is an arbitrary
  function of the bytes.
- **Prototype** (`RepositoryPicker.dfy`, `Journey.dfy`, `JourneyEffects.dfy`). The repository switch guarded by
  request numbers, and the queued operation with the deletion guard that is evaluated again at its acknowledgment.

Code that changes state in place is a class or a loop, each method proved equal to a function of the old state;
the promises are lemmas about those functions and about runs built from them. What such a function computes is
pinned a second time without it: by a history the program does not keep, by a reference over the raw input, or by
the numbers and names the source spells out. Time, the answers given in dialogs, failures of the file system and
what background workers find are inputs. A handler is one step.

## What the proofs found

- A UTF-16 file that is damaged, or that carries a second byte order mark, is always changed by opening it and
  saving it untouched; every other file is rewritten byte for byte (`TextCodec.SaveUnchanged`).
- Latin-1 leaves no mark in the file, so a reload guesses; `TextCodec.Latin1Reload` says exactly when the guess
  shows the saved text.
- Back and then Forward does not return to a new, untouched document when it is the only tab, because the file that
  Back reopens replaces it, nor to the split view of a document without a file
  (`NavigationSessions.BackThenForward`, `NavigationSessions.ReplacedDocumentIsForgotten`).
- A definition lookup that replaces a listed search leaves the panel announcing a search that no longer runs. A lookup
  that ends by listing matches puts it right; one that opens a single declaration or finds no use does not, and then
  the announcement stays until the next listed search, listed answer or cancel
  (`WorkspaceSearch.IndicatorIsWrongWhen`, `WorkspaceSearch.IndicatorCanStick`).
- `beginSwitch` alone does not remember the worktree of the repository the page opened in until that repository
  is left; the guard in `switchTo` covers it (`RepositoryPicker.BeginAloneRestores`,
  `RepositoryPicker.ReturningRestoresTheTree`).
- Should `maxMessageSize()` return zero, the sender's loop ends only by the channel closing
  (`BulkTransfer.LoopEndsUnlessChunksAreEmpty`).
- A snapshot restored from the address passes its check with a counter behind the ids it holds; a new
  conversation can then replace one with an active turn (`Journey.RestoredCounterCanOverwrite`,
  `Journey.CreationEndsTurnWhen`).
- The acknowledgment of a new worktree replaces the conversations of a scope that was opened under the same name in
  the meantime by one empty draft, active turns included, those in a record named `draft` as well
  (`Journey.CreateEndsTurnWhen`, `Journey.CreateLosesWhen`, `Journey.CreateDropsAnActiveTurn`).

## Model

| member | source | states |
|---|---|---|
| Utf.ReadIsEncoded | core/src/core/Document.cpp:146-150 | the strict decoder reads only the shortest form of a scalar value: no overlong sequence, no surrogate |
| Utf.EncodedIsRead | core/src/core/Document.cpp:146-150 | the encoding of every scalar value is read back, whatever follows it |
| Utf.EncodingBits | core/src/core/Document.cpp:146-150 | the length, lead byte and payload bits of each encoding, in numbers: one byte to 7F, two to 7FF, three to FFFF, four beyond |
| Utf.CleanedIsIdentityOnPaired | core/src/core/Document.cpp:153-171 | the replacement of unpaired surrogates changes a string if and only if it holds one |
| Utf.ToUtf8IsWellFormed | core/src/core/Document.cpp:153-171 | what the decoder hands to the editor is well-formed UTF-8, even from damaged UTF-16 |
| Utf.FromUtf8InvertsToUtf8 | core/src/core/Document.cpp:173-199 | a QString survives UTF-8 up to its unpaired surrogates |
| Utf.ToUtf8InvertsFromUtf8 | core/src/core/Document.cpp:173-199 | bytes survive a QString if and only if they are well-formed UTF-8 |
| Utf.WellFormedIsEncoded | core/src/core/Document.cpp:136-151 | a well-formed text is the encodings of the scalar values it is read as |
| Utf.EncodedIsWellFormed | core/src/core/Document.cpp:136-151 | the encodings of any scalar values are well-formed and read as those values |
| Utf.ToUtf8Characters | core/src/core/Document.cpp:159-166 | decoded units become exactly the characters their numbers stand for, a lone surrogate a question mark |
| Utf.FromUtf8Characters | core/src/core/Document.cpp:173-199 | a text becomes units that stand for exactly its characters |
| Utf.FromUtf8IsPaired | core/src/core/Document.cpp:173-199 | decoded text has no unpaired surrogate, and malformed bytes always show as U+FFFD |
| Utf.UnitsSurviveBytes | core/src/core/Document.cpp:173-187 | units come back from their bytes, read low byte first when little-endian and high byte first when big-endian |
| Utf.ByteOrder | core/src/core/Document.cpp:159-166 | unit i of a little-endian payload is byte 2i + 256 * byte 2i+1, of a big-endian one 256 * byte 2i + byte 2i+1 |
| Utf.BytesSurviveUnits | core/src/core/Document.cpp:153-166 | bytes come back from their units if and only if none is left over |
| TextCodec.BomPrefixOfToUtf8 | core/src/core/Document.cpp:136-151 | a text starts with the UTF-8 mark if and only if its first character is U+FEFF |
| TextCodec.ScanLatin1 | core/src/core/Document.cpp:188-196 | the scan refuses a text if and only if some character lies beyond U+00FF, and otherwise gives its bytes |
| TextCodec.Encode | core/src/core/Document.cpp:173-199 | the encoder with its scan loop is the specified one for all five encodings, and as UTF-16 it writes the mark (FF FE or FE FF) and the characters of the text in that byte order |
| TextCodec.DetectionByMark | core/src/core/Document.cpp:136-151 | EF BB BF, FF FE and FE FF decide, and without one well-formedness chooses between UTF-8 and Latin-1 |
| TextCodec.Utf16LittleDecodes | core/src/core/Document.cpp:153-171 | the text is the characters of the payload read low byte first, less one leading U+FEFF; a file without a mark loses nothing |
| TextCodec.Utf16BigDecodes | core/src/core/Document.cpp:153-171 | the same, high byte first |
| TextCodec.Utf16Encodes | core/src/core/Document.cpp:173-187 | UTF-16 bytes are the mark and the characters of the text, less a leading U+FEFF, in that byte order |
| TextCodec.Utf8Encodes | core/src/core/Document.cpp:153-178 | UTF-8 is the text itself, with or without the three bytes of its mark in front |
| TextCodec.Latin1Numbers | core/src/core/Document.cpp:153-199 | Latin-1 bytes are the numbers of the characters, both ways |
| TextCodec.Utf16Rewrites | core/src/core/Document.cpp:136-199 | decoding and encoding a marked UTF-16 file rewrites it if and only if the payload is whole, paired and has no second mark |
| TextCodec.SaveUnchanged | core/src/core/Document.cpp:136-199 | for every byte string, decoding it as detected and encoding it again gives it back if and only if it is not a damaged or doubly marked UTF-16 file |
| TextCodec.Utf16Reload | core/src/core/Document.cpp:136-199 | UTF-16 carries a text if and only if it is well-formed and does not start with a mark |
| TextCodec.SaveThenReload | core/src/core/Document.cpp:63-110 | in the four Unicode encodings the reload detects the saved encoding and shows the same text for exactly the texts named; UTF-8 with mark carries all |
| TextCodec.Latin1Refusal | core/src/core/Document.cpp:188-196 | Latin-1 is accepted if and only if the text is well-formed and no scalar value exceeds U+00FF |
| TextCodec.Latin1Inverts | core/src/core/Document.cpp:153-199 | when Latin-1 accepts a text its decoder gives it back, less a leading mark |
| TextCodec.Latin1Reload | core/src/core/Document.cpp:63-199 | a reload shows a text saved as Latin-1 if and only if no mark was dropped and detection answers Latin-1 or the bytes are ASCII |
| DocumentFile.Document.constructor | core/src/core/Document.h:58-60 | a new document has no path, is UTF-8 and is not modified |
| DocumentFile.Document.LoadWith | core/src/core/Document.cpp:63-79 | a failed read changes nothing; a successful one sets path, encoding and flag together and returns the decoded text |
| DocumentFile.Document.SaveAs | core/src/core/Document.cpp:88-110 | a text that cannot be encoded and every write failure leave disk and document as they were; success writes exactly the encoded bytes |
| DocumentFile.Document.Save | core/src/core/Document.cpp:81-86 | saving without a path fails and touches nothing, otherwise it is a save to that path |
| DocumentFile.Document.SetTextEncoding | core/src/core/Document.cpp:130-134 | only the encoding changes |
| DocumentFile.OpenThenSave | core/src/core/Document.cpp:63-110 | open and save leaves the whole disk as it was if and only if the file is not a damaged or doubly marked UTF-16 file |
| DocumentFile.SaveThenOpen | core/src/core/Document.cpp:63-110 | save and open shows the same text and encoding for exactly the texts named, at the same absolute path |
| DocumentFile.SaveThenOpenAs | core/src/core/Document.cpp:63-110 | reopened with the encoding it was saved in, chosen by hand, a file shows the saved text for exactly the texts named, Latin-1 included |
| DocumentFile.OpeningMeans | core/src/core/Document.cpp:63-79 | a file opens if and only if it is there and readable, at its absolute path and in the encoding chosen; a failure changes nothing |
| DocumentFile.SavingMeans | core/src/core/Document.cpp:88-110 | a save fails if and only if Latin-1 cannot carry the text or writing fails, with the matching message and nothing changed; otherwise only its own file changes |
| DefinitionLookup.KeptHits | core/src/app/MainWindowNavigation.cpp:655-673 | the per-file filtering keeps exactly the declarations, in order, and leaves no empty file |
| DefinitionLookup.LookupMeaning | core/src/app/MainWindowNavigation.cpp:642-699 | a lookup opens the single declaration, lists exactly the declarations when there are several, exactly all uses when there is none, and reports no use when there is none |
| DefinitionLookup.DeclarationMeans | core/src/app/MainWindowNavigation.cpp:655-673 | a use is a declaration if and only if there is a pattern and it matches the preview line |
| DefinitionLookup.KeptFilesAreResults | core/src/app/MainWindowNavigation.cpp:655-673 | a listed file keeps both its paths, and lists only declarations of its own |
| DefinitionLookup.FinishDefinitionSearch | core/src/app/MainWindowNavigation.cpp:642-699 | the counting and classifying loops compute that answer |
| WorkspaceSearch.SearchController.StartWorkspaceSearch | core/src/app/MainWindowSearch.cpp:134-162 | a refused start changes nothing; another one drops pending results, chooses the sink and takes a new generation |
| WorkspaceSearch.SearchController.CancelWorkspaceSearch | core/src/app/MainWindowSearch.cpp:223-231 | cancelling only takes a new generation |
| WorkspaceSearch.SearchController.CancelRequested | core/src/app/MainWindowSearch.cpp:45-49 | the cancel button also stops the panel's announcement |
| WorkspaceSearch.SearchController.OnFile | core/src/app/MainWindowSearch.cpp:184-201 | a file of another generation changes nothing; otherwise it goes to the end of the current sink |
| WorkspaceSearch.SearchController.OnEnd | core/src/app/MainWindowSearch.cpp:208-216 | an end of another generation changes nothing |
| WorkspaceSearch.SearchController.FinishWorkspaceSearch | core/src/app/MainWindowSearch.cpp:233-260 | the end of a lookup lists the declarations of the collected files when there are several, all uses when there is none, and else leaves the panel; the end of a listed search sets the status |
| WorkspaceSearch.ReachableInv | core/src/app/MainWindowSearch.cpp:134-243 | one invariant over window, worker, queue and history holds after every interleaving |
| WorkspaceSearch.DeliveredFiles | core/src/app/MainWindowSearch.cpp:149-231 | the files shown are an in-order prefix of what the last start's own worker posted, in the sink that start chose, all of them once its end is delivered, with nothing suppressed; a lookup's answer is computed from exactly them, and a finished listed search shows exactly them |
| WorkspaceSearch.DeliveredEvents | core/src/app/MainWindowSearch.cpp:174-243 | a stale event changes the queue and nothing else, and an end that passes the generation test was never cancelled |
| WorkspaceSearch.PanelTellsTheSearch | core/src/app/MainWindowSearch.cpp:134-260 | on every run: a finished lookup shows the declarations among its own posts when there are several, its posts when there are uses only, and else the panel it found; a listed search shows its posts and its own count or no results; a cancelled one keeps its files and says so |
| WorkspaceSearch.RestMeansFinished | core/src/app/MainWindowSearch.cpp:174-221 | when the worker has stopped and the queue is empty, a search that was not cancelled has been finished |
| WorkspaceSearch.IndicatorStep | core/src/app/MainWindowSearch.cpp:149-162 | from an accurate indicator, a step keeps it accurate if and only if it is not a lookup replacing a listed search |
| WorkspaceSearch.IndicatorIsWrongWhen | core/src/app/MainWindowSearch.cpp:134-260 | on every run the panel's announcement is wrong if and only if a lookup has replaced a listed search and no listed start, cancel button or listed answer has followed |
| WorkspaceSearch.IndicatorCanStick | core/src/app/MainWindowSearch.cpp:233-242 | a run after which everything has ended and the panel still announces a search |
| FileIndex.WorkspaceFileIndex.RefreshWorkspaceFileIndex | core/src/app/MainWindowNavigation.cpp:173-205 | a collection starts unless no folder is open, one is under way, or the list is fresh and no rescan is forced |
| FileIndex.WorkspaceFileIndex.FinishWorkspaceFileIndex | core/src/app/MainWindowNavigation.cpp:223-237 | a list of another folder is dropped and the open folder collected; its own list is stored, and a truncated one leads to the question |
| FileIndex.WorkspaceFileIndex.AskAboutFullWorkspaceScan | core/src/app/MainWindowNavigation.cpp:257-283 | the question is put once; refusing is remembered for the session, accepting remembers the folder and rescans |
| FileIndex.WorkspaceFileIndex.OpenFolder | core/src/app/MainWindow.cpp:286-307 | the folder changes, its list is stale, and a collection starts unless one is under way |
| FileIndex.ReachableInv | core/src/app/MainWindowNavigation.cpp:173-283 | one invariant over cache, worker, queue and questions holds after every run |
| FileIndex.IndexingFlag | core/src/app/MainWindowNavigation.cpp:173-237 | the flag is on if and only if exactly one worker or completion is in flight, and when it is off the cached list belongs to the open folder or no folder is open |
| FileIndex.NeverAnothersList | core/src/app/MainWindowNavigation.cpp:131-248 | whatever searches or the file list are given for a folder was collected for that folder, and Go to File is given the last list delivered for the open one |
| FileIndex.PresentedList | core/src/app/MainWindowNavigation.cpp:152-248 | on every run Go to File is given exactly the last list delivered for the open folder, and searches are given a folder's list if and only if it is under thirty seconds old, not empty, and nothing is being collected |
| FileIndex.RequestMeans | core/src/app/MainWindowNavigation.cpp:173-205 | on every run a request starts a collection if and only if a folder is open, none is under way, and it is forced or no own list is younger than thirty seconds |
| FileIndex.OpeningMeans | core/src/app/MainWindow.cpp:286-307 | on every run an opened folder is collected at once, unless a collection is under way |
| FileIndex.DeliveryMeans | core/src/app/MainWindowNavigation.cpp:223-283 | on every run a foreign list is dropped and the open folder collected, an own list is kept, and a truncated one asks if and only if that folder has no answer yet; both answers take effect |
| FileIndex.ReopenedListIsStale | core/src/app/MainWindow.cpp:286-307 | on every run a folder that is opened again is not served its old list and is collected anew |
| FileIndex.AskedOncePerRoot | core/src/app/MainWindowNavigation.cpp:257-283 | no folder is asked about twice, and none that was asked about can be asked about again |
| FileIndex.Settles | core/src/app/MainWindow.cpp:294-306 | once the folder stops changing, any three or more rounds of collection and delivery leave in the cache, and in Go to File, the folder's own list that was collected last |
| NavigationHistory.NavigationHistory.TrackNavigation | core/src/app/MainWindowNavigation.cpp:729-745 | a caret event under the guard or without a resident editor changes nothing; another one records the place left when the editor changed or the caret jumped |
| NavigationHistory.NavigationHistory.PushNavigationLocation | core/src/app/MainWindowNavigation.cpp:747-764 | an empty or repeated entry is not recorded; after another one the back stack is the newest fifty, or all, of what it was with the entry on top, and forward is cleared |
| NavigationHistory.NavigationHistory.RestoreLocation | core/src/app/MainWindowNavigation.cpp:783-811 | the caret events fired while restoring record nothing, whatever they are |
| NavigationHistory.NavigationHistory.NavigateHistory | core/src/app/MainWindowNavigation.cpp:766-781 | the move takes the nearest available entry and leaves the active place on the other stack |
| NavigationHistory.NavigationHistory.TakeAvailable | core/src/app/MainWindowNavigation.cpp:766-781 | the loop that pops entries stops at the nearest available one |
| NavigationHistory.LiveIsNearest | core/src/app/MainWindowNavigation.cpp:715-727 | the entries dropped are exactly the unavailable ones above the nearest available one |
| NavigationHistory.TrackRecordsDepartures | core/src/app/MainWindowNavigation.cpp:729-764 | after a departure the place left is on top of the back stack; any other move leaves both stacks alone; recording clears forward |
| NavigationHistory.PushMeans | core/src/app/MainWindowNavigation.cpp:747-764 | a recorded push leaves the suffix of length min(50, n + 1) of the stack and the entry |
| NavigationHistory.BackIsNewestDepartures | core/src/app/MainWindowNavigation.cpp:729-764 | over every run of caret moves and jumps, from any history, the back stack is the newest fifty of all places departed from, in order |
| NavigationHistory.ForgetMeans | core/src/app/MainWindowNavigation.cpp:701-727 | when an editor is gone its entries keep file, position and line and lose only the editor |
| NavigationHistory.HistoryIsBounded | core/src/app/MainWindowNavigation.cpp:729-781 | on every run both stacks together hold at most fifty entries, although moving never trims, and the guard is down between handlers |
| Workspaces.LandsWhereRecorded | core/src/app/MainWindowNavigation.cpp:783-811 | an available entry is restored to the place it records if and only if its file and line still stand |
| Workspaces.LandingIsCurrent | core/src/app/MainWindowNavigation.cpp:701-713 | where restoring lands is where the caret of an editor on the screen then is |
| Workspaces.RestoreKeepsTheRest | core/src/app/MainWindow.cpp:238-283 | while the texts do not change and no pristine document is thrown away, restoring one entry leaves every other as available as it was and leading to the same text, whatever tabs it opens, wakes or releases |
| Workspaces.LandsInEditor | core/src/app/MainWindowNavigation.cpp:783-811 | restoring goes to the entry's own editor, else to the leftmost tab that shows its file, else to a new one |
| Workspaces.LineCountsEnds | core/src/editor/EditorWidget.cpp:1409-1413 | the line of a caret is one more than the line ends before it: line feeds, and carriage returns not followed by one |
| Workspaces.OpeningAddsTab | core/src/app/MainWindow.cpp:253-276 | a file opens in a new tab at the end, or in place of the only document when that is new and untouched |
| NavigationZipper.NavigateIsZipper | core/src/app/MainWindowNavigation.cpp:715-811 | from any window, a move keeps the line of places and loses exactly the unavailable entries it passes, if and only if the entry it goes to is unchanged; without an available entry it only empties that side |
| NavigationZipper.AdvancesTravel | core/src/app/MainWindowNavigation.cpp:766-811 | n moves over available, unchanged entries leave the trail of places they visited behind, every entry of it still good to return to |
| NavigationZipper.ThinnedMeaning | core/src/app/MainWindowNavigation.cpp:766-781 | the side ahead after the round trip is what was not reached, untouched, and exactly the available entries of what was passed |
| NavigationZipper.ThereAndBackAgain | core/src/app/MainWindowNavigation.cpp:766-811 | n moves and n opposite moves, skipping dead entries on the way, restore caret and sides with exactly the dead entries passed missing, if and only if no file on the way opened by replacing a pristine document; nothing is asked of entries beyond the n visited |
| NavigationZipper.ThereAndBack | core/src/app/MainWindowNavigation.cpp:766-811 | over n entries that are all available the line and the caret's index on it are the same, under the same condition |
| NavigationZipper.DiscardIsForGood | core/src/app/MainWindow.cpp:253-276 | once a pristine document has been replaced the caret never gets back into it |
| NavigationZipper.UnavailableCaretIsLeft | core/src/app/MainWindowNavigation.cpp:715-727 | a caret in the split view of a document without a file does not get back there |
| NavigationSessions.EntriesStayTrue | core/src/app/MainWindowNavigation.cpp:701-764 | in every state of a session without edits (tabs and split view opened, closed and focused, jumps that land or not, Back and Forward, editors destroyed) each recorded entry, if available, still leads to the file and line it names |
| NavigationSessions.MovesAdvance | core/src/app/MainWindowNavigation.cpp:766-781 | Back and Forward are the one zipper move in two directions |
| NavigationSessions.BackThenForward | core/src/app/MainWindowNavigation.cpp:766-811 | in every state such a session reaches and for every n that the available entries allow, n uses of Back and n of Forward, or the reverse, undo each other up to the dead entries passed, if and only if the caret's place can be returned to and no pristine document is replaced |
| NavigationSessions.LandingRecordsNothing | core/src/app/MainWindowNavigation.cpp:729-811 | in every state of a session, a move with an available entry ahead makes the caret's place the last location, so the caret event after it records nothing; a move without one changes neither |
| NavigationSessions.ReplacedDocumentIsForgotten | core/src/app/MainWindow.cpp:253-276 | a session in which Forward does not return because Back has replaced the new document |
| TabPolicy.TabStrip.Survey | core/src/app/MainWindowDocuments.cpp:515-532 | the counters are the real sums and the candidates are exactly the tabs that may be released, each once |
| TabPolicy.TabStrip.SortByLastActivated | core/src/app/MainWindowDocuments.cpp:534 | the sorted list holds the same tabs, least recently activated first |
| TabPolicy.TabStrip.EnforceTabResourcePolicy | core/src/app/MainWindowDocuments.cpp:514-545 | the loop with its running counters releases the shortest prefix of that order that meets both budgets, even when some tabs refuse |
| TabPolicy.TabStrip.ActivateCurrentTab | core/src/app/MainWindowDocuments.cpp:488-512 | a tab that cannot be restored changes nothing; otherwise its stamp becomes later than every other tab's and the policy runs |
| TabPolicy.HibernateSums | core/src/app/MainWindowDocuments.cpp:535-544 | releasing one tab lowers the two sums by exactly what the loop subtracts |
| TabPolicy.ReleaseAt | core/src/app/MainWindowDocuments.cpp:535-544 | a tab changes if and only if it was chosen, was resident and did not refuse |
| TabPolicy.EvictionIsMinimalLru | core/src/app/MainWindowDocuments.cpp:514-545 | the evicted tabs are the shortest prefix in last-activated order that meets both budgets, or all candidates when none does; no candidate that stays was used earlier than an evicted one |
| TabPolicy.OnlyCandidatesChange | core/src/app/MainWindowDocuments.cpp:515-544 | no active, split-shown, untitled or modified tab is released, whatever refuses |
| TabPolicy.ReleaseMeans | core/src/app/MainWindowDocuments.cpp:514-545 | only background tabs with saved text lose it, and at the end twelve tabs and 64 MiB or less are resident or no such tab is left |
| TabPolicy.CountersMean | core/src/app/MainWindowDocuments.cpp:515-532 | the count is the number of tabs not hibernated, the bytes add up over the same tabs |
| TabPolicy.ActivationIsNewest | core/src/app/MainWindowDocuments.cpp:488-506 | activating wakes the tab with the text read back, stamps it later than every other, and changes no other |
| TabPolicy.StampsAreUses | core/src/app/MainWindowDocuments.cpp:488-512 | over every run of activations and edits a tab's stamp is the number of its last use |
| TabPolicy.EvictionFollowsUse | core/src/app/MainWindowDocuments.cpp:488-545 | over every run no released tab was used later than a background tab that stays, and the tab left last is last in line |
| TabPolicy.EnforcingTwiceIsEnforcingOnce | core/src/app/MainWindowDocuments.cpp:514-545 | a second run evicts nothing, in whatever order its sort puts ties |
| TabPolicy.OrderIsUnique | core/src/app/MainWindowDocuments.cpp:488-545 | among tabs that have been activated the sort has no choice, so eviction is deterministic |
| ScrollRuns.ReadRuns | benchmarks/transcript-scroll-metrics.py:67-124 | the event loop computes the specified runs |
| ScrollRuns.RunsAreTheTrace | benchmarks/transcript-scroll-metrics.py:67-124 | the runs laid end to end are the trace's gesture frames, each once and in order; two consecutive ones share a session if and only if at most one frame was presented between them; each run has one reported direction |
| ScrollRuns.RunsAreMaximal | benchmarks/transcript-scroll-metrics.py:67-124 | a run is cut only where the session ends or the direction changes |
| ScrollRuns.SamplesAreTheTrace | benchmarks/transcript-scroll-metrics.py:67-124 | the runs' row samples laid end to end are the trace's: each that comes before the second presented frame after a gesture frame, once, in order, in that frame's session and direction |
| ScrollRuns.SplitterMeansTraceRuns | benchmarks/transcript-scroll-metrics.py:67-141 | the splitter's runs are the trace's own gesture frames and row samples, cut exactly where session or direction changes, each named by its reported or inferred direction |
| ScrollRuns.RegroupingUndoesTheSplit | benchmarks/transcript-scroll-metrics.py:156-166 | regrouping the runs by session gives back each whole scroll, whatever the direction splitting did |
| ScrollRuns.GestureMeans | benchmarks/transcript-scroll-metrics.py:87-110 | a gesture frame enters with its own phase, offset, height and direction, and no row counts yet |
| ScrollRuns.DirectionMeans | benchmarks/transcript-scroll-metrics.py:127-141 | an unnamed run is upward when its offset fell by more than two pixels, downward when it rose by more, else undirected |
| ScrollMetrics.GroupBySession | benchmarks/transcript-scroll-metrics.py:156-158 | the dictionary holds every session's frames in order and no other key, its keys in order of first appearance |
| ScrollMetrics.SessionsAreNumbered | benchmarks/transcript-scroll-metrics.py:67-124 | the sessions of a trace are exactly 1 to n, first seen in that order |
| ScrollMetrics.ReadScrolls | benchmarks/transcript-scroll-metrics.py:156-166 | grouping the runs of a trace gives its scrolls, as the gesture and presented frames alone define them, in order |
| ScrollMetrics.MovementTelescopes | benchmarks/transcript-scroll-metrics.py:164-194 | forward and backward movement add up to the path and differ by the net |
| ScrollMetrics.MeasureScroll | benchmarks/transcript-scroll-metrics.py:164-194 | the loop over one scroll computes path and net, with path = forward + backward and the size of the net = forward - backward |
| ScrollMetrics.MeasureM3 | benchmarks/transcript-scroll-metrics.py:144-213 | every scroll of two or more frames is reported, the totals are the sums, and no per-scroll or aggregate ratio is below one |
| ScrollMetrics.PathIsSumOfSteps | benchmarks/transcript-scroll-metrics.py:164-194 | any place in a path splits it into two, and one step is as long as it is |
| ScrollMetrics.TotalsAddUp | benchmarks/transcript-scroll-metrics.py:164-194 | path, net and the list of measured scrolls add up over any cut of the trace |
| ScrollMetrics.TotalsOfOne | benchmarks/transcript-scroll-metrics.py:164-194 | a scroll adds the path and net of its own offsets, one of a single frame nothing |
| ScrollMetrics.BucketsPartition | benchmarks/transcript-scroll-metrics.py:219-224 | each non-negative density lies in exactly one bucket and a negative one in none |
| ScrollMetrics.BucketArithmetic | benchmarks/transcript-scroll-metrics.py:258-294 | in each bucket progress is the path less twice the reverse distance, and reverse is zero if and only if no frame reversed |
| ScrollMetrics.ClassesPartition | benchmarks/transcript-scroll-metrics.py:258-294 | every pair of frames is counted exactly once, and none falls between the buckets unless its density is negative |
| ScrollMetrics.MeasureReverseDrift | benchmarks/transcript-scroll-metrics.py:231-323 | the nested loops fill each bucket with exactly the pairs of its class, over the sessions with non-zero net |
| ScrollMetrics.DriftTable | benchmarks/transcript-scroll-metrics.py:231-323 | bucket frames, teleports and pairs without density account for every pair of the table |
| ScrollMetrics.PairMeans | benchmarks/transcript-scroll-metrics.py:258-294 | a pair has the move and the change of height since the frame before, the heading of its scroll, and the density of the table's own field |
| ScrollMetrics.ClassMeans | benchmarks/transcript-scroll-metrics.py:258-294 | the class of a pair by the printed ranges 0-5, 6-20, 21-60 and 61 on |
| ScrollMetrics.SummaryMeans | benchmarks/transcript-scroll-metrics.py:276-294 | a pair adds its distance to ground won along the heading, or to ground lost |
| MaximalBlocks.BlocksGrow | benchmarks/transcript-scroll-metrics.py:382-405 | what one more flag does to the set of maximal blocks |
| MaximalBlocks.CountIsNumberOfBlocks | benchmarks/transcript-scroll-metrics.py:382-439 | counting hits that follow a miss counts the maximal blocks |
| ScrollEpisodes.MeasureRun | benchmarks/transcript-scroll-metrics.py:382-405 | the loop with its two carried flags computes frames, episodes as maximal blocks, backward distance and worst step |
| ScrollEpisodes.MeasureM1 | benchmarks/transcript-scroll-metrics.py:370-412 | undirected runs are left out and the rest add up |
| ScrollEpisodes.EpisodeIsMaximal | benchmarks/transcript-scroll-metrics.py:382-405 | an episode is exactly a longest stretch of compared frames of one phase that each go further back than the threshold |
| ScrollEpisodes.TallyMeans | benchmarks/transcript-scroll-metrics.py:382-405 | a run adds one frame for each pair of neighbours of the phase, and its worst step is the longest that opposes the gesture |
| ScrollEpisodes.OpposingIsCounter | benchmarks/transcript-scroll-metrics.py:382-405 | a frame counts if and only if the offset moved more than the threshold the way the gesture did not ask, and adds that distance |
| ScrollEpisodes.TalliesAddUp | benchmarks/transcript-scroll-metrics.py:370-412 | tallies add up over any cut of the runs, and the worst is the worst of both |
| ScrollEpisodes.CountRun | benchmarks/transcript-scroll-metrics.py:433-439 | a key's entries are its maximal blocks of consecutive samples, for exactly the keys ever shown |
| ScrollEpisodes.Collect | benchmarks/transcript-scroll-metrics.py:440-444 | every number joins the list as often as keys have it, the repeated count grows by the keys above one, and the worst is the maximum |
| ScrollEpisodes.MeasureM2 | benchmarks/transcript-scroll-metrics.py:415-455 | each number is in the list as often as pairs of an upward run and a key have that many maximal blocks, the repeated count is the number of such pairs above one, and the worst key's entries and the largest count are one number, attained and never exceeded |
| ScrollEpisodes.PairsShownAddUp | benchmarks/transcript-scroll-metrics.py:415-455 | the pairs of runs and keys add up over any cut of the runs |
| ScrollEpisodes.PairsShownIn | benchmarks/transcript-scroll-metrics.py:427-431 | only runs that scroll upward and have samples add pairs |
| ScrollReport.ReduceTrace | benchmarks/transcript-scroll-metrics.py:458-470 | from events to report: M3 and both drift tables are those of the trace's scrolls, untouched by the splitting by direction, and M1 and M2 those of the runs read off the trace |
| BulkTransfer.WrappedPattern | benchmarks/webrtc-datachannel/WebRtcSpike.cpp:73-77 | wrap-around at 64 bits does not change the pattern's byte |
| BulkTransfer.FillPattern | benchmarks/webrtc-datachannel/WebRtcSpike.cpp:73-77 | the buffer is filled in place with the pattern from the given offset |
| BulkTransfer.PatternSteps | benchmarks/webrtc-datachannel/WebRtcSpike.cpp:73-77 | the pattern starts with 7 and each byte is 31 more than the one before, modulo 256 |
| BulkTransfer.SendBulk | benchmarks/webrtc-datachannel/WebRtcSpike.cpp:151-193 | the chunks appended to the channel concatenate to the one pattern of the total length, or to a proper prefix when the channel closes; the digest is of that pattern; nothing above high water plus one chunk is ever buffered; every chunk but the last has the full size, and the reported maximum is the highest level after a message |
| BulkTransfer.LoopEndsUnlessChunksAreEmpty | benchmarks/webrtc-datachannel/WebRtcSpike.cpp:156-189 | the loop ends if and only if the chunk size is positive, there is nothing to send, or some wait finds the channel closed |
| BulkTransfer.OffsetIsExact | benchmarks/webrtc-datachannel/WebRtcSpike.cpp:171-189 | after n rounds min(n chunks, total) bytes have been sent |
| BulkTransfer.BulkSink.Expect | benchmarks/webrtc-datachannel/WebRtcSpike.cpp:102-107 | a size announced late completes at once |
| BulkTransfer.BulkSink.Add | benchmarks/webrtc-datachannel/WebRtcSpike.cpp:108-113 | bytes are hashed in order and may complete the transfer |
| BulkTransfer.BulkSink.FinishIfComplete | benchmarks/webrtc-datachannel/WebRtcSpike.cpp:122-133 | completion takes the callback away before calling it |
| BulkTransfer.ReachableInv | benchmarks/webrtc-datachannel/WebRtcSpike.cpp:99-193 | what has arrived and what is on the link are always the pattern sent so far |
| BulkTransfer.DigestIsSenders | benchmarks/webrtc-datachannel/WebRtcSpike.cpp:382-395 | under every interleaving a digest is published if and only if the size is known and every byte has arrived, it is the sender's, and the completion runs at most once |
| BulkTransfer.BufferIsBounded | benchmarks/webrtc-datachannel/WebRtcSpike.cpp:151-193 | on every run the buffered amount stays within high water plus one chunk |
| BulkTransfer.PublishedOnce | benchmarks/webrtc-datachannel/WebRtcSpike.cpp:99-142 | whatever sizes and bytes come in, the digest is that of the bytes in when they first covered the size, never changes, and the completion runs at most once |
| BulkTransfer.SinkFollowsCalls | benchmarks/webrtc-datachannel/WebRtcSpike.cpp:99-142 | for every sequence of calls: the digest is published if and only if some prefix of them covers the last announced size, it is that of the bytes in by the first such moment, and the completion of the last `expect` before it, if it has one, runs there once with those bytes and that digest |
| BulkTransfer.SinkOfRun | benchmarks/webrtc-datachannel/WebRtcSpike.cpp:382-395 | the sink of a whole transfer is what its deliveries and its `expect` make of it, so the completion runs there under the same condition |
| RepositoryPicker.Picker.constructor | ketplus-desktop-redesign.ketatlas/screens/repository-picker-model.js:25-40 | a requested worktree is taken only when it belongs to the repository |
| RepositoryPicker.Picker.BeginSwitch | ketplus-desktop-redesign.ketatlas/screens/repository-picker-model.js:51-59 | a refused switch changes nothing; an accepted one takes the next number and replaces what was pending |
| RepositoryPicker.Picker.CompleteSwitch | ketplus-desktop-redesign.ketatlas/screens/repository-picker-model.js:60-74 | another number changes nothing, a failure remembers its target, a success commits the pending target and both last worktrees |
| RepositoryPicker.OnlyTheLatestRequestCommits | ketplus-desktop-redesign.ketatlas/screens/repository-picker-model.js:51-74 | on every run the current worktree belongs to the current repository and no number but the latest can commit |
| RepositoryPicker.SettledForGood | ketplus-desktop-redesign.ketatlas/screens/repository-picker-model.js:51-74 | a number that was answered or superseded never commits again, whatever is clicked and acknowledged afterwards |
| RepositoryPicker.SupersededRequestIsIgnored | ketplus-desktop-redesign.ketatlas/screens/repository-picker-model.js:51-74 | after a newer request the older acknowledgment is void in every later state, and the newer one commits its own target |
| RepositoryPicker.RequestMeans | ketplus-desktop-redesign.ketatlas/screens/repository-picker-model.js:51-59 | a switch to a named worktree is accepted if and only if it is one of that repository's and the page is neither offline, loading nor stale |
| RepositoryPicker.AnswerMeans | ketplus-desktop-redesign.ketatlas/screens/repository-picker-model.js:60-74 | the awaited answer settles the request: a failure is remembered and moves nothing, a success makes the target current and remembers where both repositories stand |
| RepositoryPicker.AnsweredOnce | ketplus-desktop-redesign.ketatlas/screens/repository-picker-model.js:60-74 | an answered number is void in every later state, whatever the answer was |
| RepositoryPicker.ClickMeans | ketplus-desktop-redesign.ketatlas/screens/repository-picker.js:87-91 | clicking what is open asks for nothing, any other click asks for a switch |
| RepositoryPicker.ReturningRestoresTheTree | ketplus-desktop-redesign.ketatlas/screens/repository-picker.js:87-91 | returning to a repository by name restores the worktree last used there, and a new one opens at its preferred worktree |
| RepositoryPicker.BeginAloneRestores | ketplus-desktop-redesign.ketatlas/screens/repository-picker-model.js:51-59 | without the guard that holds if and only if the repository has an entry of its own or stands at its preferred worktree |
| RepositoryPicker.BeginAloneCanForget | ketplus-desktop-redesign.ketatlas/screens/repository-picker-model.js:51-59 | a page where it does not |
| RepositoryPicker.CatalogIsConsistent | ketplus-desktop-redesign.ketatlas/screens/repository-picker-model.js:3-22 | every preferred worktree of the tables belongs to its repository |
| Journey.DemoStore.QueueOperation | ketplus-desktop-redesign.ketatlas/screens/journey-model.js:9-21 | the operation is due after 900 ms, takes the next number, and replaces one still waiting |
| Journey.DemoStore.AdvanceOperation | ketplus-desktop-redesign.ketatlas/screens/journey-model.js:22-168 | nothing happens before the operation is due; then it is taken and acknowledged against the state as it is by now |
| Journey.DemoStore.CreateRecord | ketplus-desktop-redesign.ketatlas/screens/journey-model.js:31-54 | a fork copies its conversation, a new one starts empty, both under the next number, unless the conversation is gone or may not be forked |
| Journey.DemoStore.CreateWorktree | ketplus-desktop-redesign.ketatlas/screens/journey-model.js:117-133 | a scope not marked created is given one empty conversation and nothing else |
| Journey.DemoStore.ChangeResource | ketplus-desktop-redesign.ketatlas/screens/journey-model.js:134-166 | archive, restore and delete act only on a target that exists, is not blocked and, for restore, whose worktree is there |
| Journey.DemoStore.ChangeTurn | ketplus-desktop-redesign.ketatlas/screens/journey-model.js:58-95 | sends, steers, stops, reconnections and answers change their own conversation and no other |
| Journey.ReachableInv | ketplus-desktop-redesign.ketatlas/screens/conversations.js:165-223 | from a fresh start every record is filed under its own id, every numbered id is behind the counter, and removed worktrees are archived and never the main one |
| Journey.DeletionIsSafe | ketplus-desktop-redesign.ketatlas/screens/archive.js:21-35 | in any state at all an acknowledgment takes a conversation only as the target of a deletion with no active turn, or with a worktree created over it; it removes no main or dirty worktree and none with an active turn, whatever changed since the request |
| Journey.RemovalIsFinal | ketplus-desktop-redesign.ketatlas/screens/journey-model.js:134-166 | on every run a removed worktree stays removed and archived |
| Journey.TurnOutcome | ketplus-desktop-redesign.ketatlas/screens/journey-model.js:58-95 | an acknowledged turn operation reaches its own conversation and no other; a successful send or steer makes the turn active, a stop ends it, an answer keeps it active, only a successful send counts as a request, and a draft is cleared only by success |
| Journey.FailureChangesNothing | ketplus-desktop-redesign.ketatlas/screens/journey-model.js:55-167 | a failed operation changes the state if and only if the turn to fall back to is not the current one; reconnection, answer and sign-in report their failure instead |
| Journey.RestoreUndoesArchive | ketplus-desktop-redesign.ketatlas/screens/archive.js:1-35 | archive then restore is the identity if and only if the target was not archived before, or was and its worktree has been removed |
| Journey.DevicesStayValid | ketplus-desktop-redesign.ketatlas/screens/journey-model.js:96-116 | on every run no device is listed twice, and one is added only while signed in with a claimed ticket |
| Journey.FreshIdsNeverOverwrite | ketplus-desktop-redesign.ketatlas/screens/journey-model.js:31-54 | in every state reached from a fresh start a fork or new conversation lands on a free id and changes no record |
| Journey.CreationEndsTurnWhen | ketplus-desktop-redesign.ketatlas/screens/journey-model.js:31-54 | in any state a creation touches only the record under the next id at its destination, and ends an active turn if and only if that record has one |
| Journey.RestoredCounterCanOverwrite | ketplus-desktop-redesign.ketatlas/screens/conversations.js:52-128 | a snapshot that passes the check and loses an active turn to an acknowledgment |
| Journey.CreateLosesWhen | ketplus-desktop-redesign.ketatlas/screens/journey-model.js:117-133 | an acknowledged create takes away or replaces a record if and only if its scope exists, is not marked created and holds anything but the empty draft |
| Journey.CreateEndsTurnWhen | ketplus-desktop-redesign.ketatlas/screens/journey-model.js:117-133 | an acknowledged create ends an active turn if and only if it succeeds over an existing scope, not marked created, with an active turn under any id |
| Journey.CreateDropsAnActiveTurn | ketplus-desktop-redesign.ketatlas/screens/journey-model.js:117-133 | runs from a fresh start in which a conversation with an active turn disappears, and in which a busy draft is emptied |
| JourneyEffects.QueuedOperationWaits | ketplus-desktop-redesign.ketatlas/screens/journey-model.js:9-26 | a queued operation does nothing for 900 ms, and empties its slot when it is taken |
| JourneyEffects.BlockersAre | ketplus-desktop-redesign.ketatlas/screens/archive.js:21-35 | what blocks a deletion, and that nothing else does |
| JourneyEffects.ConversationIsDeleted | ketplus-desktop-redesign.ketatlas/screens/journey-model.js:134-166 | an unblocked deletion takes its conversation away and changes nothing else |
| JourneyEffects.WorktreeIsDeleted | ketplus-desktop-redesign.ketatlas/screens/journey-model.js:134-166 | an unblocked deletion of a worktree marks it removed and archives and closes each conversation in it, and no other |
| JourneyEffects.MarkIsSet | ketplus-desktop-redesign.ketatlas/screens/journey-model.js:134-166 | archive and restore set the mark of their target alone, except that a removed worktree is not restored |
| JourneyEffects.CreationFiles | ketplus-desktop-redesign.ketatlas/screens/journey-model.js:31-54 | a fork files a copy under the next number, retitled and unsent; a new conversation files an empty one with the provider asked for; every other record stays |
| JourneyEffects.WorktreeIsCreated | ketplus-desktop-redesign.ketatlas/screens/journey-model.js:117-133 | a created worktree holds one empty selected draft; one created before is left alone |
| JourneyEffects.TurnTakesEffect | ketplus-desktop-redesign.ketatlas/screens/journey-model.js:58-95 | the fields a turn operation changes in its conversation, and that it adds an Atlas if and only if the prompt asks for one |
| JourneyEffects.AccountTakesEffect | ketplus-desktop-redesign.ketatlas/screens/journey-model.js:96-116 | sign-in, confirmation of a claimed ticket and revocation change the account and nothing else |
| JourneyEffects.RevokingKeepsTheRest | ketplus-desktop-redesign.ketatlas/screens/journey-model.js:109-115 | the other devices stay, in order |

## Left out

- Widgets, focus, status texts, menus and dialogs: a dialog's answer is an input.
- Paths: the absolute path is the path itself or the working directory and the path; normalisation and links are not modelled.
- Settings: the remembered full scans are a set of folders given at the start; the file limit that a full scan raises is part of what the worker finds.
- The window's destructor, which cancels and waits as the start does.
- Replacing in the workspace, the list of open tabs in Go to File, and the symbol index.
- Workers: what they find is any sequence of files, and a summary is any triple of numbers.
- NavigationSessions.BackThenForward: a session edits, saves and renames nothing and its files stay on disk as they are, which is what unchanged texts means; for windows with edits NavigationZipper.ThereAndBackAgain asks only that the entries visited are unchanged and that tabs without unsaved text show what is on disk.
- Workspaces.RestoreKeepsTheRest: opening a file over a pristine document that the split view shows ends the split view in the model; the source removes the tab without telling the split pane and keeps its plain pointer to the destroyed editor (core/src/app/MainWindow.cpp:273-276, core/src/app/MainWindow.h:239), and what happens on that pointer's next use is not modelled.
- Restoring into a tab that is already current and whose own restore has failed tries the file again in the model; the source tries when the tab becomes current.
- Texts in the history model are byte strings; the order in which diff views stand between editor tabs is not modelled, only their number.
- TabPolicy.TabStrip.ActivateCurrentTab: does not say what restoring an editor reads, only whether it succeeded and how long the text is.
- TabPolicy.EvictionFollowsUse: its runs open and change tabs and do not close or move them, which would renumber the tabs and leave their stamps as they are.
- NavigationHistory.BackIsNewestDepartures: is about runs without Back and Forward; what those keep is in NavigationZipper and NavigationSessions.
- TabPolicy.TabStrip.Insert: `std::sort` is modelled as an insertion sort, because only the order it leaves matters.
- Percentiles, rounding to digits, the verdict's wording and the report of the scroll metrics.
- Sender's waiting: the two-minute time limit of the wait and the clock of the throughput figures.
- BulkTransfer.DigestIsSenders: is stated for a positive chunk size, because with an empty one the sender never finishes.
- `rankedRepositories` and `visibleWorktrees`, which only sort and filter for display, and the step a page opens at.
- The prototype's page state, addresses, toasts, attachments and time stamps, and the title suggested from a first prompt, which is an input.
- Journey.RestoredCounterCanOverwrite: the check on snapshots is modelled for scopes, ids, counter and operation, not for the lengths and alphabets of its texts.
- Conversation ids are the constructors `Draft(n)`, `Fork(n)` and `Named(name)`: that no fixed name spells a numbered one is taken from the names the prototype uses.
