# The Harmony browser's own state

The Harmony browser keeps a good deal of state by hand in C++ around its WebKit
engine: a bookmark tree addressed by ids, a tab registry with an undo stack, the
history, downloads, settings and session of a profile, and four protocols between
its threads. This project models that state and proves what the code promises
about it.

How it is laid out:

- `Sequences`, `Text`, `Address` with `AddressParts`, and `Calendar` hold what the others share:
  escaped fields and decimal numbers, hosts and spellings, days and dates.
- `BookmarkTree` says what a tree is and how it is walked, `BookmarkEdits` and
  `BookmarkRuns` what edits do to it, `BookmarkLeaves` what is counted,
  `BookmarkPlaces` where each edit puts things, `BookmarkStore` is the vector the code
  really edits, and `BookmarkFile`, `BookmarkReload`, `BookmarkRoundTrip` and
  `BookmarkAnyFile` are the file.
- `Tabs`, `TabRuns`, `TabPlaces`, `TabUndo` and `TabRedeal` are the registry as values,
  `TabRegistry` the registry as it is changed in place.
- `Commands`, `Permissions`, `Dialogs` and `Removal` are protocols: a state, a step
  for each thing a thread can do under one lock, and runs that are any interleaving
  of steps. What every run keeps is proved in the same module or in the one named
  `...Runs`. `DialogAnswers`, `PermissionAnswers` and `PermissionWords`, and `RemovalReach`
  read off the steps alone what pages hear and how far a removal reaches. `CommandQueue`,
  `PermissionBroker` (with `PermissionPolicy`), `DialogQueue` and `RemovalPump` are the
  code each thread runs between its locks.
  Their contracts are stated in the functions the steps are made of, and
  `PermissionBroker.DrainIsSteps`, `CommandQueue.PostIsSteps`, `CommandQueue.StopIsSteps`
  and `Commands.DrainEnds` say which steps a whole call is.
- `Session` and `SessionFile`, `FileTree`, `History` with `HistoryRuns`,
  `HistoryVisits`, `HistoryQuery`, `HistoryStore` and `HistoryFile`, `Downloads` with
  `DownloadRuns`, `DownloadReports`, `DownloadsFile`, `DownloadSaves` and `DownloadList`, and
  `Settings` with `SettingsEdits`, `SettingsFile`, `SettingsSaves` and `SettingsStore` are the
  codecs and stores. `FileFormats` spells a sample of each file out.

A class or a method with a loop stands where the code changes something in place; its
contract says what it does in terms of a function on values, and what the code
promises is proved of those functions.

What comes from outside is a parameter: the clock, whether a view can be made, what a
page does while it is torn down, what the disk refuses, when the engine answers, the
score of a history row, and the order a library sort leaves equals in. Times are
real numbers; integers are unbounded except where a conversion matters and is
written out (the calendar, node ids, sizes and indices of the session file).

Where the code does not do what was meant, the code is what is modelled:

- Closing every tab and reopening them all does not in general restore their order,
  although the comment at `browser/NativeLibs/harmony_tabs_model.cpp:315-316` says
  that the list rebuilds itself; `TabUndo.CloseAllRedeals` says what comes back and
  `TabUndo.CloseAllUndoneExactly` when that is the list.
- A reopening that takes an entry and then cannot make its tab leaves the published
  depth of the stack stale (`TabRuns.CountIsPublished`).
- The bookmark reader accepts two records of one id, and a folder put into itself, so
  that walks never end; `BookmarkAnyFile.AnyFileIsSoundExactly` says when a file gives
  a tree, and `BookmarkAnyFile.AnyTextIsSoundExactly` how to see it in the text. It
  does not restore an empty root title (`BookmarkRoundTrip.RootTitleSurvives`).
- Visits can come less than two seconds apart, and out of order, when the clock goes
  back (`HistoryRuns.SpacingKeptExactlyWhen`, `HistoryRuns.OrderKeptExactlyWhen`), and
  the binary search of a list out of order then forgets the wrong ones
  (`HistoryRuns.ForgetIsFilterExactlyWhen`, `HistoryRuns.ClockBackForgetsWrongly`).
- The history reader keeps an address as often as a file names it
  (`HistoryFile.AnyFileIsSoundExactly`).
- A session with an entry without an address can reopen with another tab active
  (`Session.ActiveFollows`).
- A run that ends before it ever looked at its downloads empties their file
  (`DownloadRuns.TakingForgetsUnlessLoaded`), and two saves can reach the file in the
  wrong order (`DownloadSaves.CrossedWritesForget`): a file nobody is writing to holds
  the newest copy exactly when that copy was not written past one that still waited
  (`DownloadSaves.QuietFileIsNewestExactly`).
- The engine chosen in the settings is found again by name, so an earlier engine of
  the same name takes its place (`SettingsFile.LoadUndoesSave`).
- A save of the settings clears their mark before it knows whether it can write, so one
  that cannot is not tried again (`SettingsSaves.FailedIsNotTriedAgain`,
  `SettingsSaves.QuietFileIsCurrentExactly`); and a settings file of another version,
  which the comment at `browser/NativeLibs/harmony_settings_file.cpp:170-171` says is
  left exactly as it is, is overwritten by the first save of an edit
  (`SettingsSaves.OtherVersionIsLeftExactly`).
- A file that cannot be deleted is left without its read-only mark
  (`FileTree.LeftAreSurvivors`).

## Model

| member | source | states |
|---|---|---|
| `Calendar.CivilIsStepping` | browser/NativeLibs/harmony_bookmarks_text.cpp:40-53 | for every integer day, `civilFromDays` is the date reached by stepping a naive leap-year calendar that many days from 1970-01-01, and `daysFromCivil` takes it back to the day |
| `Calendar.CivilUndoesDays` | browser/NativeLibs/harmony_bookmarks_text.cpp:30-53 | for every valid Gregorian date, counting its days and turning them back gives the date |
| `Calendar.DaysIsInjective` | browser/NativeLibs/harmony_bookmarks_text.cpp:30-38 | two dates have one day number only if they are one date, and stepping that far gets there |
| `Calendar.TomorrowIsOneMore` | browser/NativeLibs/harmony_bookmarks_text.cpp:30-38 | the era arithmetic moves by one from any date to the next, over month ends, leap days and year ends |
| `Calendar.YesterdayIsOneLess` | browser/NativeLibs/harmony_bookmarks_text.cpp:30-38 | the same going back, before the epoch as after it |
| `Calendar.SteppedCounts` | browser/NativeLibs/harmony_bookmarks_text.cpp:30-38 | n steps of the naive calendar are n days of the era arithmetic, for negative n too |
| `Calendar.WeekdayIsStepping` | browser/NativeLibs/harmony_bookmarks_text.cpp:281-289 | the weekday formula is stepping seven names from Thursday |
| `Calendar.CalendarOfDayIsStepping` | browser/NativeLibs/harmony_bookmarks_text.cpp:281-289 | a day number of 0 or less has no date; any other has the date and the weekday stepping reaches |
| `Calendar.YearFits` | browser/NativeLibs/harmony_bookmarks_text.cpp:40-53 | no 32-bit day number overflows the year |
| `Text.EscapeField` | browser/NativeLibs/harmony_bookmarks_codec.cpp:27-41 | the loop builds the escaped field |
| `Text.UnescapeField` | browser/NativeLibs/harmony_bookmarks_codec.cpp:43-61 | the loop undoes escapes one after the other, a lone backslash at the end kept |
| `Text.SplitOn` | browser/NativeLibs/harmony_bookmarks_codec.cpp:65-80 | the loop cuts at every separator, dropping carriage returns only when lines are cut |
| `Text.ParseSigned` | browser/NativeLibs/harmony_bookmarks_codec.cpp:82-97 | the loop reads an optional sign and the leading digits |
| `Text.UnescapeUndoesEscape` | browser/NativeLibs/harmony_bookmarks_codec.cpp:27-61 | every field comes back as it was, whatever it holds |
| `Text.EscapedIsField` | browser/NativeLibs/harmony_bookmarks_codec.cpp:27-41 | no escaped field holds what ends a field or a line |
| `Text.CutUndoesJoin` | browser/NativeLibs/harmony_bookmarks_codec.cpp:65-80 | fields joined with a separator are cut into the same fields |
| `Text.CutUndoesEnded` | browser/NativeLibs/harmony_bookmarks_codec.cpp:65-80 | ended lines are cut into the same lines and an empty one after them |
| `Text.ParseUndoesToString` | browser/NativeLibs/harmony_bookmarks_codec.cpp:82-97 | every number written in decimal is read back |
| `Address.HostIsBare` | browser/NativeLibs/harmony_bookmarks_text.cpp:161-195 | a host holds no path, query, fragment, user information or capital letter |
| `Address.CaseIsIgnored` | browser/NativeLibs/harmony_bookmarks_text.cpp:148-206 | the host and the matchable spelling do not depend on the case an address is written in |
| `Address.Fold` | browser/NativeLibs/harmony_bookmarks_text.cpp:148-159 | the loop folds ASCII capitals only |
| `Address.ReadScheme` | browser/NativeLibs/harmony_bookmarks_text.cpp:73-86 | the loop gives the scheme in lower case, or nothing at the first character no scheme has |
| `Address.ReadAuthority` | browser/NativeLibs/harmony_bookmarks_text.cpp:161-176 | the loop stops at the first of `/`, `?` and `#` |
| `BookmarkRuns.EveryRunKeepsTheTree` | browser/NativeLibs/harmony_bookmarks_tree.cpp:126-232 | every run of add, add folder, remove, move, rename, set address and toggle from an empty store keeps ids unique and below the next id, both roots once made, each other node exactly once in exactly its own parent's list, and every parent chain finite and ending at a root |
| `BookmarkTree.ChainEndsAtRoot` | browser/NativeLibs/harmony_bookmarks_tree.cpp:66-78 | every walk up the parents ends at a root and never repeats |
| `BookmarkTree.ListedOnce` | browser/NativeLibs/harmony_bookmarks_tree.cpp:92-101 | a node is in its own parent's list once and in no other list |
| `BookmarkTree.InsideIsWayDown` | browser/NativeLibs/harmony_bookmarks_tree.cpp:66-78 | the ancestor test going up finds exactly what a path down the child lists reaches |
| `BookmarkTree.SubtreeIsInside` | browser/NativeLibs/harmony_bookmarks_tree.cpp:51-64 | the subtree walk lists a node and all its descendants, each once |
| `BookmarkEdits.InsertKeepsForest` | browser/NativeLibs/harmony_bookmarks_tree.cpp:92-101 | inserting a new node under a folder, at any index, keeps the tree one |
| `BookmarkEdits.PruneKeepsForest` | browser/NativeLibs/harmony_bookmarks_tree.cpp:180-198 | taking a whole subtree out keeps the rest a tree |
| `BookmarkEdits.MoveKeepsForest` | browser/NativeLibs/harmony_bookmarks_tree.cpp:200-232 | moving a node anywhere but inside itself keeps the tree one: no cycle appears |
| `BookmarkEdits.AddKeepsSound` | browser/NativeLibs/harmony_bookmarks_tree.cpp:148-178 | adding keeps the store sound, refused or not |
| `BookmarkEdits.RemoveKeepsSound` | browser/NativeLibs/harmony_bookmarks_tree.cpp:180-198 | removing keeps it sound |
| `BookmarkEdits.MoveKeepsSound` | browser/NativeLibs/harmony_bookmarks_tree.cpp:200-232 | moving keeps it sound |
| `BookmarkEdits.RelabelKeepsSound` | browser/NativeLibs/harmony_bookmarks_tree.cpp:382-415 | renaming and setting an address keep it sound |
| `BookmarkEdits.EnsureKeepsSound` | browser/NativeLibs/harmony_bookmarks_tree.cpp:126-146 | making the roots makes an empty store a tree and leaves another alone |
| `BookmarkEdits.NodeForUrlFinds` | browser/NativeLibs/harmony_bookmarks_tree.cpp:234-243 | the search finds a bookmark of the address if there is one, and answers 0 only if there is none |
| `BookmarkRuns.RemoveIsExact` | browser/NativeLibs/harmony_bookmarks_tree.cpp:180-198 | removing takes exactly a node and its descendants, and of the others only the parent's list changes |
| `BookmarkRuns.MoveRefusesExactly` | browser/NativeLibs/harmony_bookmarks_tree.cpp:200-232 | a move is refused exactly when the target is no folder or lies inside the node, and then changes nothing |
| `BookmarkRuns.MovedLandsInFront` | browser/NativeLibs/harmony_bookmarks_tree.cpp:200-232 | a moved node lands in front of the row pointed at, as the list was seen before the move |
| `BookmarkRuns.RemoveUndoesAdd` | browser/NativeLibs/harmony_bookmarks_tree.cpp:148-198 | removing what was just added gives the tree back |
| `BookmarkRuns.UnfileIsExact` | browser/NativeLibs/harmony_bookmarks_tree.cpp:423-455 | unfiling takes every bookmark of an address and nothing else |
| `BookmarkRuns.ToggleTurnsOver` | browser/NativeLibs/harmony_bookmarks_tree.cpp:423-455 | toggling files a page exactly when it was not filed, and answers which |
| `BookmarkLeaves.LeafCountIsLeaves` | browser/NativeLibs/harmony_bookmarks_tree.cpp:256-269 | the recursive count is the number of bookmarks in the subtree |
| `BookmarkLeaves.WholeListsAll` | browser/NativeLibs/harmony_bookmarks_tree.cpp:51-64 | the subtrees of the two roots hold every node once |
| `BookmarkLeaves.RootsCountEverything` | browser/NativeLibs/harmony_bookmarks_tree.cpp:256-269 | the leaf counts of the two roots add up to the number of bookmarks |
| `BookmarkStore.Store.constructor` | browser/NativeLibs/harmony_bookmarks_tree.cpp:105-124 | starts empty |
| `BookmarkStore.Store.Find` | browser/NativeLibs/harmony_bookmarks_tree.cpp:110-119 | the linear search finds the first node of an id, which is the one of the table when ids are unique |
| `BookmarkStore.Store.EnsureRoots` | browser/NativeLibs/harmony_bookmarks_tree.cpp:126-146 | makes both roots, once |
| `BookmarkStore.Store.InsertChild` | browser/NativeLibs/harmony_bookmarks_tree.cpp:92-101 | puts an id into a child list at a clamped place, or does nothing when there is no such folder |
| `BookmarkStore.Store.Detach` | browser/NativeLibs/harmony_bookmarks_tree.cpp:34-48 | takes a node out of its parent's list, or does nothing when either is missing |
| `BookmarkStore.Store.Add` | browser/NativeLibs/harmony_bookmarks_tree.cpp:148-178 | is the add of the model, of which `BookmarkPlaces.AddLands` says where the node lands |
| `BookmarkStore.Store.CollectSubtree` | browser/NativeLibs/harmony_bookmarks_tree.cpp:51-64 | the recursion appends the subtree in depth-first order, even for an id that is missing |
| `BookmarkStore.Store.LeafCountBelow` | browser/NativeLibs/harmony_bookmarks_tree.cpp:256-269 | the recursion counts the bookmarks below |
| `BookmarkStore.Store.IsInside` | browser/NativeLibs/harmony_bookmarks_tree.cpp:66-78 | the loop decides the ancestor-or-self relation and terminates |
| `BookmarkStore.Store.Depth` | browser/NativeLibs/harmony_bookmarks_tree.cpp:245-254 | the loop counts the parents up to the root |
| `BookmarkStore.Store.Erase` | browser/NativeLibs/harmony_bookmarks_tree.cpp:180-198 | the loop keeps exactly the nodes not doomed, in their order |
| `BookmarkStore.Store.Remove` | browser/NativeLibs/harmony_bookmarks_tree.cpp:180-198 | is the remove of the model |
| `BookmarkStore.Store.Move` | browser/NativeLibs/harmony_bookmarks_tree.cpp:200-232 | is the move of the model |
| `BookmarkStore.Store.Rename` | browser/NativeLibs/harmony_bookmarks_tree.cpp:382-397 | is the rename of the model |
| `BookmarkStore.Store.SetUrl` | browser/NativeLibs/harmony_bookmarks_tree.cpp:399-415 | is the change of address of the model |
| `BookmarkStore.Store.NodeForUrl` | browser/NativeLibs/harmony_bookmarks_tree.cpp:234-243 | the search of the model, in storage order, and 0 for the empty address |
| `BookmarkStore.Store.Toggle` | browser/NativeLibs/harmony_bookmarks_tree.cpp:423-455 | the loop unfiles every bookmark of the address, or files one |
| `BookmarkFile.EncodeNode` | browser/NativeLibs/harmony_bookmarks_codec.cpp:99-123 | appends the dump of a whole subtree, parents before children |
| `BookmarkFile.EncodeBookmarks` | browser/NativeLibs/harmony_bookmarks_codec.cpp:209-221 | writes the header and both roots' subtrees, making the roots if need be |
| `BookmarkReload.DecodeBookmarks` | browser/NativeLibs/harmony_bookmarks_codec.cpp:223-293 | rebuilds the nodes line by line, or touches nothing when the header is another |
| `BookmarkReload.ReadRecord` | browser/NativeLibs/harmony_bookmarks_codec.cpp:240-290 | takes one record: a root updated, a child appended to its folder, anything else passed over |
| `BookmarkAnyFile.AnyFileIsSoundExactly` | browser/NativeLibs/harmony_bookmarks_codec.cpp:223-293 | for every text the reader takes, the store it leaves satisfies the invariant of every run - both roots, parents and child lists that agree, chains that end, a next id above all - exactly when no two of its nodes carry one id |
| `BookmarkAnyFile.AnyTextIsSoundExactly` | browser/NativeLibs/harmony_bookmarks_codec.cpp:223-293 | the same said of the text alone: the store is sound exactly when, going down its lines, no record that is taken carries an id of a record taken before |
| `BookmarkAnyFile.RecordAddsItsId` | browser/NativeLibs/harmony_bookmarks_codec.cpp:240-290 | a record that is taken adds its id, whatever ids there are: the reader does not look |
| `BookmarkAnyFile.AcceptedIsInserted` | browser/NativeLibs/harmony_bookmarks_codec.cpp:262-287 | a record taken under a new id is an insertion at the end of its folder |
| `BookmarkAnyFile.RepeatedIdIsKept` | browser/NativeLibs/harmony_bookmarks_codec.cpp:240-290 | a file that names one bookmark twice gives two nodes of one id, and no sound store |
| `BookmarkAnyFile.FolderListsItself` | browser/NativeLibs/harmony_bookmarks_codec.cpp:240-290 | a file can put a folder into itself: the node found under its id lists itself, and going down from it never ends |
| `BookmarkRoundTrip.WholeKeepsOrder` | browser/NativeLibs/harmony_bookmarks_codec.cpp:99-123 | the dump lists each folder's children in their order |
| `BookmarkRoundTrip.WholeParentsFirst` | browser/NativeLibs/harmony_bookmarks_codec.cpp:99-123 | no record comes before its parent's |
| `BookmarkReload.LineIsSaved` | browser/NativeLibs/harmony_bookmarks_codec.cpp:99-123 | every line is read back as the node it was written from, to the second |
| `BookmarkRoundTrip.DecodedIsNodes` | browser/NativeLibs/harmony_bookmarks_codec.cpp:209-293 | reading the written file is taking the nodes one by one in dump order |
| `BookmarkRoundTrip.ReloadRebuilds` | browser/NativeLibs/harmony_bookmarks_codec.cpp:209-293 | decoding what the encoder wrote for any forest rebuilds ids, parents, kinds, whole-second times, titles, addresses and ordered children, and leaves the next id above every id; the roots keep a fresh time and an empty root title is not restored |
| `BookmarkRoundTrip.ReloadIsSound` | browser/NativeLibs/harmony_bookmarks_codec.cpp:209-293 | a store filled from its own file satisfies the invariant of every run again |
| `BookmarkRoundTrip.RootTitleSurvives` | browser/NativeLibs/harmony_bookmarks_codec.cpp:209-260 | written and read back, a root keeps its title exactly when it is not empty |
| `BookmarkRoundTrip.EmptyTitleIsLost` | browser/NativeLibs/harmony_bookmarks_codec.cpp:253-260 | an example: a bar named emptily has its first name again after a restart |
| `BookmarkRoundTrip.EveryLifeKeepsTheTree` | browser/NativeLibs/harmony_bookmarks_codec.cpp:209-293 | what every run keeps is kept over edits, makings of the roots and restarts in any order, for as long as ids fit 32 bits |
| `BookmarkPlaces.AddLands` | browser/NativeLibs/harmony_bookmarks_tree.cpp:148-178 | an add is refused exactly when there is no such folder or a bookmark has no address; otherwise the folder lists its old children with the new id at the index when that is a place in the list and last when it is not, the node under the id answered has the parent, kind, title, address and time it was given, and no other node changes |
| `BookmarkPlaces.RootsAreMadeOnce` | browser/NativeLibs/harmony_bookmarks_tree.cpp:126-146 | both roots are made under their ids and first names when there is no node, and never again |
| `BookmarkPlaces.MoveMovesOnlyIt` | browser/NativeLibs/harmony_bookmarks_tree.cpp:200-232 | a move changes the parent of its node and the two lists: the node is gone from the one and stands in front of the row pointed at in the other |
| `BookmarkPlaces.RemoveLeavesTheRest` | browser/NativeLibs/harmony_bookmarks_tree.cpp:180-198 | every node that is not in the subtree stays as it was, but for the gap in the parent's list, and in storage order |
| `BookmarkPlaces.RefusedChangesNothing` | browser/NativeLibs/harmony_bookmarks_tree.cpp:180-232 | moving or removing a root or a node that is not there, and moving under what is no folder or into the node itself, change nothing |
| `BookmarkPlaces.RelabelChangesOnlyIt` | browser/NativeLibs/harmony_bookmarks_tree.cpp:382-415 | a rename changes one title; a change of address changes that of a bookmark, and only to one that is not empty; no other field of any node changes |
| `BookmarkPlaces.NodeForUrlIsFirst` | browser/NativeLibs/harmony_bookmarks_tree.cpp:234-243 | of several bookmarks of an address the one stored first is found |
| `BookmarkPlaces.UnfileLeavesTheRest` | browser/NativeLibs/harmony_bookmarks_tree.cpp:423-455 | unfiling an address changes every other node only by the gaps in the lists |
| `BookmarkPlaces.StarFilesLast` | browser/NativeLibs/harmony_bookmarks_tree.cpp:423-455 | the star files last on the bar, under the title, or else the host, or else the address |
| `TabRuns.EveryRunKeepsInv` | browser/NativeLibs/harmony_tabs_model.cpp:139-463 | after every command of every run: pinned tabs first, ids distinct, the active id listed exactly when there are tabs and 0 otherwise, at most 24 tabs to reopen, the published list and selection equal to the registry's |
| `TabRuns.CloseAllKeepsInv` | browser/NativeLibs/harmony_tabs_model.cpp:305-337 | closing everything leaves nothing, whatever tabs page teardown opens meanwhile |
| `TabRuns.CountIsPublished` | browser/NativeLibs/harmony_tabs_model.cpp:339-368 | the published depth of the reopen stack stays right through a command exactly when the command is not a reopening that takes an entry and then cannot make its tab |
| `TabRuns.CountIsLost` | browser/NativeLibs/harmony_tabs_model.cpp:339-368 | an example: open, close and a reopening that fails publish one tab to reopen when there is none |
| `TabUndo.UndoRestores` | browser/NativeLibs/harmony_tabs_model.cpp:265-368 | any at most 24 closings of tabs with an address, undone by as many reopenings that succeed, give back address and pin position by position with fresh ids, and the stack below |
| `TabUndo.CloseOthersUndone` | browser/NativeLibs/harmony_tabs_model.cpp:286-303 | closing all other tabs, where those have an address, is undone the same way |
| `TabUndo.CloseAllRedeals` | browser/NativeLibs/harmony_tabs_model.cpp:305-368 | closing up to 24 addressed tabs at once and reopening them all gives, whatever the addresses, the pinned tabs dealt from both ends, then as many others as there are pinned ones from the end backwards, then the rest dealt |
| `TabRedeal.RebuiltIsRedealt` | browser/NativeLibs/harmony_tabs_model.cpp:339-368 | the same said of positions alone |
| `TabRedeal.DealtAt` | browser/NativeLibs/harmony_tabs_model.cpp:339-368 | dealing takes the first, the last, the second, the last but one, and so on |
| `TabUndo.CloseAllUndoneExactly` | browser/NativeLibs/harmony_tabs_model.cpp:305-368 | closing everything and reopening all that was remembered gives the list back exactly when every tab had an address and dealing changes nothing |
| `TabRedeal.RedealtExactly` | browser/NativeLibs/harmony_tabs_model.cpp:339-368 | among different addresses dealing changes nothing exactly when there are at most two pinned tabs beside at most one other, or two others alone |
| `TabUndo.ThreeTabsAreSwapped` | browser/NativeLibs/harmony_tabs_model.cpp:305-368 | a registry of three plain tabs, closed and reopened, shows first, third, second |
| `TabUndo.TooManyToComeBack` | browser/NativeLibs/harmony_tabs_model.cpp:35-48 | more than 24 tabs never all come back |
| `Tabs.ClampIsInGroup` | browser/NativeLibs/harmony_tabs_model.cpp:19-33 | an insertion place is always within the group of the tab's kind |
| `Tabs.CreateKeepsInv` | browser/NativeLibs/harmony_tabs_model.cpp:174-234 | making a tab keeps the invariant whether the view can be made or not |
| `Tabs.CloseKeepsInv` | browser/NativeLibs/harmony_tabs_model.cpp:265-284 | closing a tab keeps it, with tabs opening during the teardown |
| `TabRegistry.Tabbar.IndexOfTab` | browser/NativeLibs/harmony_tabs_model.cpp:118-125 | finds a tab's place |
| `TabRegistry.Tabbar.FindTab` | browser/NativeLibs/harmony_tabs_model.cpp:91-100 | finds a tab, never one of id 0 |
| `TabRegistry.Tabbar.CountPinned` | browser/NativeLibs/harmony_tabs_model.cpp:127-135 | counts the pinned prefix |
| `TabRegistry.Tabbar.ClampIndex` | browser/NativeLibs/harmony_tabs_model.cpp:19-33 | clamps an index into the group |
| `TabRegistry.Tabbar.PublishTabs` | browser/NativeLibs/harmony_tabs_model.cpp:139-165 | copies list and selection out |
| `TabRegistry.Tabbar.SelectTab` | browser/NativeLibs/harmony_tabs_model.cpp:376-403 | is the selection of the model |
| `TabRegistry.Tabbar.CreateTab` | browser/NativeLibs/harmony_tabs_model.cpp:174-234 | is the creation of the model and answers whether it was made |
| `TabRegistry.Tabbar.OpenTab` | browser/NativeLibs/harmony_tabs_model.cpp:236-261 | is the opening of the model |
| `TabRegistry.Tabbar.RememberClosedTab` | browser/NativeLibs/harmony_tabs_model.cpp:35-48 | pushes a tab with an address, dropping the oldest beyond 24 |
| `TabRegistry.Tabbar.CloseTab` | browser/NativeLibs/harmony_tabs_model.cpp:265-284 | is the closing of the model |
| `TabRegistry.Tabbar.SelectNeighbour` | browser/NativeLibs/harmony_tabs_model.cpp:71-85 | selects the neighbour of a removed tab |
| `TabRegistry.Tabbar.CloseOtherTabs` | browser/NativeLibs/harmony_tabs_model.cpp:286-303 | the loops close every tab but one |
| `TabRegistry.Tabbar.CloseAllTabs` | browser/NativeLibs/harmony_tabs_model.cpp:305-337 | the loops remember and then destroy every tab |
| `TabRegistry.Tabbar.ReopenClosedTab` | browser/NativeLibs/harmony_tabs_model.cpp:339-368 | is the reopening of the model |
| `TabRegistry.Tabbar.SelectTabAtIndex` | browser/NativeLibs/harmony_tabs_model.cpp:405-410 | selects by place |
| `TabRegistry.Tabbar.SelectAdjacentTab` | browser/NativeLibs/harmony_tabs_model.cpp:412-428 | wraps around with a remainder that may be negative |
| `TabRegistry.Tabbar.MoveTab` | browser/NativeLibs/harmony_tabs_model.cpp:432-445 | is the move of the model, of which `TabPlaces.MoveLands` says where the tab lands |
| `TabRegistry.Tabbar.SetTabPinned` | browser/NativeLibs/harmony_tabs_model.cpp:447-463 | pins or unpins and moves across the border |
| `TabPlaces.MoveLands` | browser/NativeLibs/harmony_tabs_model.cpp:432-445 | a moved tab stands at the place asked for among the others when that is in its group, last in its group for a negative one, at the nearer edge for one outside it; the others keep their order, and nothing else changes |
| `TabPlaces.PinLands` | browser/NativeLibs/harmony_tabs_model.cpp:447-463 | a tab pinned or unpinned stands on the border of the two groups, the others in their order; one that is so already changes nothing |
| `TabPlaces.OthersDoNotMove` | browser/NativeLibs/harmony_tabs_model.cpp:432-463 | an id that is not listed moves and pins nothing |
| `TabPlaces.CreateLands` | browser/NativeLibs/harmony_tabs_model.cpp:174-234 | a tab is made unless its id is 0 or taken or its view cannot be had; it stands where it was wanted, as nearly as its group allows, and is selected when in front or alone |
| `TabPlaces.OpenLands` | browser/NativeLibs/harmony_tabs_model.cpp:236-261 | an opened tab is not pinned, stands where it was wanted among the others of its kind, and shows what it loaded or, when that could not be issued, what its new page reports |
| `TabPlaces.ArrivalLands` | browser/NativeLibs/harmony_tabs_model.cpp:174-234 | a window a page opens comes last and in front |
| `TabPlaces.LoadShows` | browser/NativeLibs/harmony_tabs_model.cpp:467-491 | a load shows in its own tab once it could be issued, and in no other |
| `TabPlaces.SelectSelects` | browser/NativeLibs/harmony_tabs_model.cpp:376-403 | the listed tab asked for is the active one, an id that is not listed selects nothing, and no tab changes |
| `TabPlaces.SelectByPlace` | browser/NativeLibs/harmony_tabs_model.cpp:405-410 | the tab at a place that exists is selected; any other place selects nothing |
| `TabPlaces.NeighbourIsSelected` | browser/NativeLibs/harmony_tabs_model.cpp:412-428 | the next tab is the one to the right, after the last the first; the previous one the one to the left, before the first the last |
| `TabPlaces.CloseTakes` | browser/NativeLibs/harmony_tabs_model.cpp:265-284 | closing takes the tab off, leaves the others as they stood before anything that opened meanwhile, and remembers a tab with an address last, with its place |
| `TabPlaces.CloseSelects` | browser/NativeLibs/harmony_tabs_model.cpp:71-85 | closing the active tab selects the one that comes to stand in its place, or the last; closing another leaves the selection alone |
| `TabPlaces.CloseOthersLeavesOne` | browser/NativeLibs/harmony_tabs_model.cpp:286-303 | closing the others leaves the one tab, as it was and active |
| `TabPlaces.ReopenLands` | browser/NativeLibs/harmony_tabs_model.cpp:339-368 | the entry remembered last is taken; if its tab can be made it stands as nearly where it stood as its kind allows, pinned or not as it was, and is active |
| `Commands.EveryRunKeepsInv` | browser/NativeLibs/harmony_tabs_engine.cpp:247-665 | in every interleaving of any number of producers, the worker and the stopper: the lock has one holder, nothing is behind Shutdown, first in is first out, and every owned context is in exactly one place |
| `Commands.EveryRunIsOrderly` | browser/NativeLibs/harmony_tabs_engine.cpp:247-329 | commands run in the order they were queued, Shutdown is the last ever queued, and no context is consumed twice or both ways |
| `Commands.StoppedConsumesAll` | browser/NativeLibs/harmony_tabs_engine.cpp:621-665 | once stop has returned the queue is empty and each owned context handed in was consumed exactly once, unless a caller still in `postCommand` holds it |
| `Commands.LateCallsCleanUp` | browser/NativeLibs/harmony_tabs_engine.cpp:568-587 | a call that outlives the stop can only clean up |
| `Commands.NormalExitLeavesNothing` | browser/NativeLibs/harmony_tabs_engine.cpp:261-329 | a worker that saw Shutdown left nothing queued and ran everything queued |
| `Commands.DrainEnds` | browser/NativeLibs/harmony_tabs_engine.cpp:261-274 | left alone, a drain ends and has run the whole queue in order |
| `CommandQueue.PostIsSteps` | browser/NativeLibs/harmony_tabs_engine.cpp:568-587 | a call nobody interrupts takes the two or four steps of the protocol and does to the queue what `PostCommand` does |
| `CommandQueue.StopIsSteps` | browser/NativeLibs/harmony_tabs_engine.cpp:621-665 | stopping behind a worker that left takes the six steps of the protocol and does what `StopAfterWorker` does |
| `CommandQueue.Queue.PostCommand` | browser/NativeLibs/harmony_tabs_engine.cpp:568-587 | queues, or cleans an owned context up when stopping |
| `CommandQueue.Queue.RunCommand` | browser/NativeLibs/harmony_tabs_engine.cpp:186-259 | runs a command, Shutdown asking the loop to end |
| `CommandQueue.Queue.DrainCommands` | browser/NativeLibs/harmony_tabs_engine.cpp:261-274 | the loop runs everything queued, in order |
| `CommandQueue.Queue.Reclaim` | browser/NativeLibs/harmony_tabs_engine.cpp:621-665 | the loop cleans up every owned context still queued |
| `CommandQueue.Queue.StopAfterWorker` | browser/NativeLibs/harmony_tabs_engine.cpp:621-665 | stopping behind a worker that left cleans up what it did not take |
| `Commands.PostedWereHandedIn` | browser/NativeLibs/harmony_tabs_engine.cpp:568-587 | the contexts the protocol accounts for are exactly those the calls of the run handed in |
| `Commands.NothingHandedInIsLost` | browser/NativeLibs/harmony_tabs_engine.cpp:568-665 | at every moment each context a call handed in is with its caller, queued, with the worker, run or cleaned up, and only one of them; once stopping has returned it is run or cleaned up, or still with its caller |
| `PermissionRuns.EveryRunKeepsInv` | browser/NativeLibs/harmony_permissions.cpp:364-469 | what every interleaving of pages, host, WebKit thread and shutdown keeps |
| `PermissionRuns.AnsweredOnce` | browser/NativeLibs/harmony_permissions.cpp:386-469 | each request that arrived has one answer or is still on its way or queued, never both; a reference is taken at most once and given back exactly when the request leaves the queue |
| `PermissionRuns.RetainedOnce` | browser/NativeLibs/harmony_permissions.cpp:386-407 | no reference is taken twice, or for a request that did not arrive |
| `PermissionRuns.NeverOfferedAgain` | browser/NativeLibs/harmony_permissions.cpp:495-502 | a request the person answered is never offered again |
| `PermissionRuns.AllowsWereGiven` | browser/NativeLibs/harmony_permissions.cpp:418-440 | WebKit hears an allow only for a request the person or a remembered decision allowed |
| `PermissionRuns.ShutdownAnswersAll` | browser/NativeLibs/harmony_permissions.cpp:610-615 | after the shutdown task nothing is queued ever again, everything that arrived is answered but one about to be refused, and every reference is given back |
| `PermissionRuns.PageSplits` | browser/NativeLibs/harmony_permissions.cpp:453-469 | closing a page splits the queue without losing or doubling a request |
| `PermissionRuns.StepKeepsPlace` | browser/NativeLibs/harmony_permissions.cpp:364-469 | each step keeps every request in exactly one place |
| `PermissionPolicy.RememberedAfterSet` | browser/NativeLibs/harmony_permissions.cpp:563-597 | what was set is what is remembered of that kind and origin, and nothing else changes; Ask forgets |
| `PermissionPolicy.SetKeepsOneEach` | browser/NativeLibs/harmony_permissions.cpp:563-590 | the table keeps at most one entry for a kind and origin |
| `PermissionPolicy.CombinedNeedsBoth` | browser/NativeLibs/harmony_permissions_clients.cpp:53-65 | camera with microphone is allowed unasked only when each is, refused as soon as one is, and a decision stored for the pair is never read |
| `PermissionBroker.Broker.PolicyDecision` | browser/NativeLibs/harmony_permissions.cpp:341-349 | the first matching entry, or Ask |
| `PermissionBroker.Broker.PolicySet` | browser/NativeLibs/harmony_permissions.cpp:563-590 | the search and edit set one decision and leave every other one |
| `PermissionBroker.Broker.MarkResolved` | browser/NativeLibs/harmony_permissions.cpp:409-416 | the loop marks one request or all |
| `PermissionBroker.Broker.PostResolution` | browser/NativeLibs/harmony_permissions.cpp:364-372 | marks first, then lets the answer cross |
| `PermissionBroker.Broker.EnqueueRequest` | browser/NativeLibs/harmony_permissions.cpp:386-407 | refuses once the shutdown flag is set, else queues under a new id |
| `PermissionBroker.Broker.AnswerRequest` | browser/NativeLibs/harmony_permissions.cpp:418-440 | the search takes a request out once and settles it; an unknown id does nothing |
| `PermissionBroker.Broker.DenyEveryRequest` | browser/NativeLibs/harmony_permissions.cpp:442-451 | denies the whole queue, taken off first |
| `PermissionBroker.Broker.DenyRequestsForPage` | browser/NativeLibs/harmony_permissions.cpp:453-469 | is the denial of a page of the model, of which `PermissionAnswers.PageCloseIsExact` says whom it denies |
| `PermissionBroker.Broker.DrainResolutions` | browser/NativeLibs/harmony_permissions.cpp:67-80 | carries out every answer that crossed, in order |
| `PermissionBroker.Broker.FrontUnresolved` | browser/NativeLibs/harmony_permissions.cpp:495-502 | the oldest request nobody answered |
| `PermissionBroker.Broker.Route` | browser/NativeLibs/harmony_permissions_clients.cpp:90-115 | refuses, queues, or queues and grants, as the table says |
| `PermissionBroker.DrainIsSteps` | browser/NativeLibs/harmony_permissions.cpp:67-80 | one drain is one step of the protocol for each answer |
| `PermissionAnswers.PageCloseIsExact` | browser/NativeLibs/harmony_permissions.cpp:453-469 | closing a page, which the WebKit thread does while it is not taking a request in, leaves exactly the requests of other pages, in their order, and adds one refusal for each of its own, in the order they were asked |
| `PermissionAnswers.PageCloseRefusesItsOwn` | browser/NativeLibs/harmony_permissions.cpp:453-469 | after any run: every queued request of another page is still queued, in the old order and with no new answer; every request of the page is gone from the queue and was refused |
| `PermissionWords.EveryRequestIsAsAsked` | browser/NativeLibs/harmony_permissions_clients.cpp:83-115 | whatever is queued, on its way in or answered is of the page that asked it; what was refused unqueued had no name, was always denied, or came after the shutdown began |
| `PermissionWords.AnswerIsAsSaid` | browser/NativeLibs/harmony_permissions.cpp:364-469 | in every run each answer WebKit hears is, read off the steps alone, the refusal of one that was not to be queued, the allow of one allowed for good, the refusal of one whose page closed or that the shutdown found, or else the first word the person said of its id or of everything |
| `PermissionWords.AskedIsSomewhere` | browser/NativeLibs/harmony_permissions.cpp:386-469 | every request a page asked is on its way in, queued or answered, exactly one of them and once |
| `PermissionWords.OldestIsOffered` | browser/NativeLibs/harmony_permissions.cpp:495-502 | the person is shown the oldest queued request nobody spoke of, and 0 only when there is none |
| `DialogRuns.EveryRunKeepsInv` | browser/NativeLibs/harmony_dialogs.cpp:150-453 | what every interleaving of askers, the frame thread, deliveries, refusals and nested waiting callbacks keeps |
| `DialogRuns.AnsweredOnce` | browser/NativeLibs/harmony_dialogs.cpp:33-252 | every question is queued, about to be told, told, or returned, exactly one of them and once; one with a waiting callback is never told to a listener, one without is never returned |
| `DialogRuns.FirstAnswerCounts` | browser/NativeLibs/harmony_dialogs.cpp:150-170 | what is told agrees with the record the model keeps of first replies; `DialogAnswers.OutcomeIsFirstReply` says the same of the steps alone |
| `DialogRuns.OnlyTheWaiterTakesIt` | browser/NativeLibs/harmony_dialogs.cpp:339-371 | a waiting callback's question leaves the queue only through that callback's own return, with its answer |
| `DialogRuns.PollTakesOwn` | browser/NativeLibs/harmony_dialogs.cpp:339-371 | one look of the innermost callback takes its own question or none |
| `DialogRuns.RefusalUnwinds` | browser/NativeLibs/harmony_dialogs.cpp:224-252 | refusing everything lets every nested callback return, innermost first, and leaves nothing queued |
| `DialogRuns.PresentedIsNewest` | browser/NativeLibs/harmony_dialogs.cpp:470-491 | a question is shown exactly when it is the newest unanswered one that is not a file picker, and nothing exactly when there is none |
| `DialogRuns.RefusalSplits` | browser/NativeLibs/harmony_dialogs.cpp:224-252 | refusing splits the queue without losing or doubling a question |
| `DialogQueue.Queue.FindRequest` | browser/NativeLibs/harmony_dialogs.cpp:172-179 | finds a question by id |
| `DialogQueue.Queue.EnqueueRequest` | browser/NativeLibs/harmony_dialogs.cpp:321-337 | queues under the next id |
| `DialogQueue.Queue.Answer` | browser/NativeLibs/harmony_dialogs.cpp:150-170 | only the first answer changes anything; `DialogAnswers.OutcomeIsFirstReply` says what it comes to |
| `DialogQueue.Queue.FilePickerCompleted` | browser/NativeLibs/harmony_dialogs.cpp:390-402 | only the first answer changes anything, and `DialogAnswers.Says` has no paths mean refused |
| `DialogQueue.Queue.TakeAnswered` | browser/NativeLibs/harmony_dialogs.cpp:184-197 | the loop takes what is answered and has no callback waiting, in order |
| `DialogQueue.Queue.RefuseParked` | browser/NativeLibs/harmony_dialogs.cpp:416-453 | the loop marks waited-for questions and takes the others, for one page or for all |
| `DialogQueue.Queue.LookForAnswer` | browser/NativeLibs/harmony_dialogs.cpp:339-371 | one round of the waiting loop |
| `DialogQueue.Queue.Present` | browser/NativeLibs/harmony_dialogs.cpp:470-491 | the loop from the newest back |
| `DialogAnswers.OutcomeIsFirstReply` | browser/NativeLibs/harmony_dialogs.cpp:150-170 | in every run, whatever a listener is told and whatever a callback returns is, field by field, what the first step that found the question queued and unanswered said - or a refusal, exactly when one came while it was queued |
| `DialogAnswers.EveryQuestionIsAsAsked` | browser/NativeLibs/harmony_dialogs.cpp:321-337 | whatever is queued or about to be told has the kind and page it was asked with, and the number of its place among the questions asked |
| `DialogAnswers.TakeTellsAnswered` | browser/NativeLibs/harmony_dialogs.cpp:184-197 | handing over takes exactly the answered questions no callback waits for, in their order, and leaves the others |
| `DialogAnswers.RefuseTellsItsScope` | browser/NativeLibs/harmony_dialogs.cpp:416-453 | a refusal takes exactly the questions of its scope that no callback waits for, to be told a refusal; marks exactly those one waits for; and leaves the others as they are, all in their order |
| `RemovalRuns.EveryRunKeepsInv` | browser/NativeLibs/harmony_data_store_remove.cpp:158-390 | in every run, however late answers come: the outstanding count is the number of unanswered asks of the current step, one worker job at most, requests in order, asks those the request calls for |
| `RemovalRuns.SweepWaitsForEngine` | browser/NativeLibs/harmony_data_store_remove.cpp:353-390 | a sweep starts only when every ask of its engine step has been answered or its deadline has passed, and those asks were the ones its request calls for |
| `RemovalRuns.FinishedInOrder` | browser/NativeLibs/harmony_data_store_remove.cpp:307-349 | requests finish one at a time in the order made, one generation each, each swept once with the cutoff it started with, which `RemovalReach.FinishedReachBack` spells out |
| `RemovalRuns.LateAnswersChangeNothing` | browser/NativeLibs/harmony_data_store_remove.cpp:163-169 | an answer to an earlier step changes nothing the pump looks at |
| `RemovalRuns.NothingHoldsItUp` | browser/NativeLibs/harmony_data_store_remove.cpp:353-390 | a request under way finishes within six steps even if the engine never answers |
| `RemovalRuns.OpenedIsFresh` | browser/NativeLibs/harmony_data_store_remove.cpp:173-178 | a new step has nothing outstanding and no answer in flight can count against it |
| `RemovalRuns.AskedAllKeeps` | browser/NativeLibs/harmony_data_store_remove.cpp:180-186 | asking keeps the count right, whether an answer comes before the call returns or later |
| `RemovalRuns.RangesStayInRange` | browser/NativeLibs/harmony_data_store_remove.cpp:217-281 | a range short of all time asks the engine only for what it limits to those hours, cookies and click measurements; hours and seconds of a range agree |
| `RemovalPump.Pump.FinishStep` | browser/NativeLibs/harmony_data_store_remove.cpp:163-169 | counts only answers of the current step |
| `RemovalPump.Pump.BeginStep` | browser/NativeLibs/harmony_data_store_remove.cpp:173-178 | opens a step with a new token and deadline |
| `RemovalPump.Pump.AskEngine` | browser/NativeLibs/harmony_data_store_remove.cpp:180-186 | counts an ask, answered at once or not |
| `RemovalPump.Pump.StartFlushing` | browser/NativeLibs/harmony_data_store_remove.cpp:202-213 | asks what can be flushed |
| `RemovalPump.Pump.StartEngineRemovals` | browser/NativeLibs/harmony_data_store_remove.cpp:217-281 | asks what the request calls for |
| `RemovalPump.Pump.StartSweeping` | browser/NativeLibs/harmony_data_store_remove.cpp:283-305 | hands the sweep to the worker |
| `RemovalPump.Pump.TakeNextRequest` | browser/NativeLibs/harmony_data_store_remove.cpp:332-340 | takes the oldest request and fixes its cutoff, which `RemovalReach.EveryRequestReachesBack` spells out |
| `RemovalPump.Pump.FinishRequest` | browser/NativeLibs/harmony_data_store_remove.cpp:307-330 | ends a request and its generation |
| `RemovalPump.Pump.RunMeasuring` | browser/NativeLibs/harmony_data_store_remove.cpp:353-390 | goes on when the worker is done, skipping a flush nobody can do |
| `RemovalPump.Pump.RunPump` | browser/NativeLibs/harmony_data_store_remove.cpp:353-390 | is one pump step of the model |
| `RemovalPump.Pump.Enqueue` | browser/NativeLibs/harmony_data_store_remove.cpp:342-349 | adds behind the others |
| `RemovalReach.EveryRequestReachesBack` | browser/NativeLibs/harmony_data_store_remove.cpp:66-96 | in every run each request was taken up with the cutoff its range calls for: the moment it was taken up less 1, 24, 168 or 672 hours, 0 when that is not positive, and 0 for all time and for an origin |
| `RemovalReach.FinishedReachBack` | browser/NativeLibs/harmony_data_store_remove.cpp:89-96 | so the n-th finished request is the n-th one made, and was swept back exactly that far |
| `RemovalReach.AsksAreExactly` | browser/NativeLibs/harmony_data_store_remove.cpp:217-281 | the engine is asked for a kind of data exactly when the request wants it, the range does not forbid it and the engine has the entry point |
| `RemovalReach.FlushAsksAreExactly` | browser/NativeLibs/harmony_data_store_remove.cpp:202-213 | a flush asks for what can be flushed and nothing else |
| `RemovalReach.EveryAskIsAccountedFor` | browser/NativeLibs/harmony_data_store_remove.cpp:163-186 | the asks made are, as often as they were made, those in flight and those answered |
| `RemovalReach.SweepsAfterAnswers` | browser/NativeLibs/harmony_data_store_remove.cpp:353-390 | only a pump starts a sweep, and only when no ask of its step is in flight or twenty seconds have gone by |
| `Session.LoadUndoesEncode` | browser/NativeLibs/harmony_data_store_session.cpp:225-379 | loading an encoded session gives back every entry with an address, in order, and the active index; with no empty address, everything; bytes after it change nothing |
| `Session.PrefixLoadsNothing` | browser/NativeLibs/harmony_data_store_session.cpp:334-379 | a session file cut short anywhere restores nothing at all |
| `Session.ActiveFollows` | browser/NativeLibs/harmony_data_store_session.cpp:358-378 | the active tab is the same tab after loading exactly when no entry before it lost its place for want of an address |
| `Session.WrongTabActive` | browser/NativeLibs/harmony_data_store_session.cpp:358-378 | an example where another tab becomes active |
| `Session.EntryExtends` | browser/NativeLibs/harmony_data_store_session.cpp:85-107 | what can be read from part of a file is what the whole file says there |
| `Session.ReadsEntry` | browser/NativeLibs/harmony_data_store_session.cpp:225-267 | an entry is read back wherever in the file it is |
| `SessionFile.RestartRestores` | browser/NativeLibs/harmony_data_store_session.cpp:225-267 | a restart gives back exactly the tabs that are not private, each with pin and history, and the active one active |
| `SessionFile.AppendU32` | browser/NativeLibs/harmony_data_store_session.cpp:70-76 | four bytes, lowest first |
| `SessionFile.AppendBytes` | browser/NativeLibs/harmony_data_store_session.cpp:78-83 | a size and the bytes |
| `SessionFile.ChooseTabs` | browser/NativeLibs/harmony_data_store_session.cpp:230-244 | the loop leaves private tabs out and notes where the active one went |
| `SessionFile.EncodeSession` | browser/NativeLibs/harmony_data_store_session.cpp:225-267 | writes header and entries |
| `SessionFile.ReadWord` | browser/NativeLibs/harmony_data_store_session.cpp:85-95 | four bytes at the cursor, or nothing when they are not all there |
| `SessionFile.ReadBytes` | browser/NativeLibs/harmony_data_store_session.cpp:97-107 | a block at the cursor, or nothing when it is cut short |
| `SessionFile.SessionLoad` | browser/NativeLibs/harmony_data_store_session.cpp:334-379 | is the load of the model |
| `SessionFile.ReadKept` | browser/NativeLibs/harmony_data_store_session.cpp:357-373 | the loop reads every entry and keeps those with an address |
| `FileFormats.SessionIsSpelled` | browser/NativeLibs/harmony_data_store_session.cpp:225-267 | a sample session, byte by byte |
| `FileTree.BytesConserved` | browser/NativeLibs/harmony_data_store_paths.cpp:207-324 | bytes before are bytes freed and bytes left, for every tree, cutoff and set of refusals |
| `FileTree.LeftAreSurvivors` | browser/NativeLibs/harmony_data_store_paths.cpp:261-324 | the files left are, in order and place, those older than the cutoff untouched, those that could not be deleted and are no longer read-only, and those no walk reaches |
| `FileTree.OldFilesStay` | browser/NativeLibs/harmony_data_store_paths.cpp:261-280 | every file older than the cutoff survives, and every other reached survivor is a failed deletion |
| `FileTree.DirsLeftHoldFiles` | browser/NativeLibs/harmony_data_store_paths.cpp:282-324 | where the disk lists and releases directories, each directory left still holds a file |
| `FileTree.LeftAreJustified` | browser/NativeLibs/harmony_data_store_paths.cpp:282-324 | in general a directory left holds a file or one the disk would not list or release |
| `FileTree.OnceIsEnough` | browser/NativeLibs/harmony_data_store_paths.cpp:282-324 | removing again changes and frees nothing |
| `FileTree.StatTree` | browser/NativeLibs/harmony_data_store_paths.cpp:207-259 | the recursion adds bytes and finds the newest write |
| `FileTree.RemoveFileIfNewer` | browser/NativeLibs/harmony_data_store_paths.cpp:261-280 | spares, fails or deletes one file |
| `FileTree.RemoveTree` | browser/NativeLibs/harmony_data_store_paths.cpp:282-324 | the recursion leaves what the model leaves and reports what it freed |
| `FileTree.BytesAreReached` | browser/NativeLibs/harmony_data_store_paths.cpp:207-259 | a tree weighs the sizes of the files a walk reaches, together |
| `FileTree.NewestIsLatest` | browser/NativeLibs/harmony_data_store_paths.cpp:207-259 | no file a walk reaches is later than the newest write, which one of them has unless it is 0 |
| `HistoryRuns.EveryRunIsSound` | browser/NativeLibs/harmony_bookmarks_history.cpp:94-311 | whatever the clock does: addresses unique, at most 8192 of them, each with 1 to 128 visits |
| `HistoryRuns.EveryRunIsTimely` | browser/NativeLibs/harmony_bookmarks_history.cpp:94-135 | while the clock never goes back, visits ascend at least two seconds apart |
| `HistoryRuns.SpacingKeptExactlyWhen` | browser/NativeLibs/harmony_bookmarks_history.cpp:116-131 | recording keeps visits two seconds apart exactly when the moment is at least two seconds after the visit before the last |
| `HistoryRuns.ClockBackComesTooClose` | browser/NativeLibs/harmony_bookmarks_history.cpp:116-131 | an example with a clock that goes back |
| `HistoryRuns.OrderKeptExactlyWhen` | browser/NativeLibs/harmony_bookmarks_history.cpp:116-131 | recording keeps visits in order exactly when the moment is not before the visit before the last |
| `HistoryRuns.ClockBackDisorders` | browser/NativeLibs/harmony_bookmarks_history.cpp:116-131 | an example with a clock that goes back further |
| `HistoryRuns.ClockBackForgetsWrongly` | browser/NativeLibs/harmony_bookmarks_history.cpp:283-311 | an example: one page visited at 10, at 20 and, the clock put back, at 5; forgetting since 7 never leaves just the visit at 5, wherever the search stops |
| `HistoryRuns.OrderIsWhatSearchingNeeds` | browser/NativeLibs/harmony_bookmarks_history.cpp:294-301 | the binary search suits a list of visits at every moment exactly when it is in order |
| `HistoryRuns.ForgetIsFilterExactlyWhen` | browser/NativeLibs/harmony_bookmarks_history.cpp:283-311 | forgetting since a moment keeps exactly the (address, visit) pairs before it, in order, if and only if the search suits every list of visits |
| `HistoryRuns.ForgetSinceIsFilter` | browser/NativeLibs/harmony_bookmarks_history.cpp:283-311 | so it does after every run over which the clock never went back |
| `HistoryRuns.TrimKeepsTheNewest` | browser/NativeLibs/harmony_bookmarks_history.cpp:51-60 | at the cap nothing recent is dropped for something older, however the sort orders equals |
| `HistoryQuery.QueryIs` | browser/NativeLibs/harmony_bookmarks_history.cpp:219-246 | the answer holds exactly the matching entries, in order of score, last visit and address; a limit keeps its start |
| `HistoryQuery.QueryIgnoresStorage` | browser/NativeLibs/harmony_bookmarks_history.cpp:219-246 | with any score the answer depends only on which entries there are |
| `HistoryQuery.OrderIsUnique` | browser/NativeLibs/harmony_bookmarks_history.cpp:235-241 | rows in order are determined by which rows they are |
| `HistoryQuery.TypingNarrows` | browser/NativeLibs/harmony_bookmarks_history.cpp:196-215 | typing on only narrows the answer, looking inside only widens it |
| `HistoryStore.Store.FindEntry` | browser/NativeLibs/harmony_bookmarks_history.cpp:40-47 | finds an address |
| `HistoryStore.Store.AddVisit` | browser/NativeLibs/harmony_bookmarks_history.cpp:116-131 | adds, folds and caps the visits of one address |
| `HistoryStore.Store.Note` | browser/NativeLibs/harmony_bookmarks_history.cpp:94-112 | finds or makes the entry and takes a title that is not empty |
| `HistoryStore.Store.Trim` | browser/NativeLibs/harmony_bookmarks_history.cpp:51-60 | keeps the latest 8192 |
| `HistoryStore.Store.Record` | browser/NativeLibs/harmony_bookmarks_history.cpp:94-135 | records a visit, or nothing for an address not to be remembered |
| `HistoryStore.Store.Retitle` | browser/NativeLibs/harmony_bookmarks_history.cpp:137-150 | changes one title and nothing when it is the same |
| `HistoryStore.Store.RemoveIf` | browser/NativeLibs/harmony_bookmarks_history.cpp:250-281 | keeps the others in order |
| `HistoryStore.Store.ForgetUrl` | browser/NativeLibs/harmony_bookmarks_history.cpp:250-264 | forgets one address |
| `HistoryStore.Store.ForgetHost` | browser/NativeLibs/harmony_bookmarks_history.cpp:266-281 | forgets one site |
| `HistoryStore.Store.CutVisits` | browser/NativeLibs/harmony_bookmarks_history.cpp:294-301 | cuts every list where the search stops: at the moment, if the search suits the list |
| `HistoryStore.Store.ForgetSince` | browser/NativeLibs/harmony_bookmarks_history.cpp:283-311 | is a forgetting of the model |
| `HistoryStore.Store.Query` | browser/NativeLibs/harmony_bookmarks_history.cpp:219-246 | is the query of the model |
| `HistoryStore.LowerBound` | browser/NativeLibs/harmony_bookmarks_history.cpp:294-301 | the binary search ends inside any list, and at the first visit not before the moment if the list suits it |
| `HistoryFile.EveryLifeIsRemembered` | browser/NativeLibs/harmony_bookmarks_codec.cpp:129-205 | after any steps and restarts, whatever the clock did, the history comes back from its file, visits to the second and in order |
| `HistoryFile.EveryLifeIsSound` | browser/NativeLibs/harmony_bookmarks_codec.cpp:129-205 | what every run keeps is kept across restarts |
| `HistoryFile.EveryLifeIsTimely` | browser/NativeLibs/harmony_bookmarks_codec.cpp:129-205 | while the clock never goes back, visits stay two seconds apart across restarts, and a restart only cuts them to whole seconds |
| `HistoryFile.LineReadsBack` | browser/NativeLibs/harmony_bookmarks_codec.cpp:129-205 | the line of any entry of 1 to 128 visits is read back as the entry with its visits to the second and sorted, or passed over when no whole second is left |
| `HistoryFile.WholeIsNothing` | browser/NativeLibs/harmony_bookmarks_codec.cpp:129-205 | an entry is lost to its file exactly when every visit was in the first second |
| `HistoryFile.SortedIs` | browser/NativeLibs/harmony_bookmarks_codec.cpp:189-193 | sorting puts the visits in order and changes nothing else |
| `HistoryFile.DecodeUndoesEncode` | browser/NativeLibs/harmony_bookmarks_codec.cpp:129-205 | any entries written are read back with visits cut to whole seconds and sorted, one without a whole second dropped |
| `HistoryFile.WholeKeepsSpaced` | browser/NativeLibs/harmony_bookmarks_codec.cpp:129-150 | cutting to whole seconds keeps visits two seconds apart |
| `HistoryFile.AnyFileIsInOrder` | browser/NativeLibs/harmony_bookmarks_codec.cpp:152-205 | whatever a file holds, visits read are positive, in order and within the caps |
| `HistoryFile.AnyFileIsSoundExactly` | browser/NativeLibs/harmony_bookmarks_codec.cpp:152-205 | what is read of a file satisfies the invariant of every run exactly when, going down its lines, no line that is read names an address of a line read before |
| `HistoryFile.RepeatedAddressIsKept` | browser/NativeLibs/harmony_bookmarks_codec.cpp:152-205 | a file that names one address twice gives two entries of one address, and no sound history |
| `HistoryFile.EncodeHistory` | browser/NativeLibs/harmony_bookmarks_codec.cpp:129-150 | the loop writes every entry that has a visit |
| `HistoryFile.DecodeHistory` | browser/NativeLibs/harmony_bookmarks_codec.cpp:152-205 | the loops read the lines, or leave the entries when the header is another |
| `HistoryVisits.RecordingTouchesOne` | browser/NativeLibs/harmony_bookmarks_history.cpp:94-135 | recording leaves every other address as it was; the one visited keeps its place or comes last when new, takes a title that is not empty, and the visit |
| `HistoryVisits.VisitedIs` | browser/NativeLibs/harmony_bookmarks_history.cpp:116-131 | the visit is listed last, in the place of one less than two seconds before it, behind the newest of the others, 128 in all |
| `HistoryVisits.RetitlingTouchesOne` | browser/NativeLibs/harmony_bookmarks_history.cpp:137-150 | only the title of the address reported changes, and only to one that is not empty |
| `HistoryVisits.ForgettingLeavesTheOthers` | browser/NativeLibs/harmony_bookmarks_history.cpp:250-281 | forgetting an address, or a site however it is cased, leaves exactly the others in their order |
| `HistoryVisits.MatchesExactly` | browser/NativeLibs/harmony_bookmarks_history.cpp:196-215 | an entry answers exactly when its host, address or title starts with the text or, looking inside, has it anywhere |
| `HistoryVisits.BelowIsBefore` | browser/NativeLibs/harmony_bookmarks_history.cpp:235-241 | the order of addresses is the order of their first difference |
| `HistoryVisits.QueryAnswers` | browser/NativeLibs/harmony_bookmarks_history.cpp:219-246 | however it is cased, a query has one row for every entry that answers and for no other, better scored first, then later visited, then by address |
| `AddressParts.HostIsFound` | browser/NativeLibs/harmony_bookmarks_text.cpp:161-195 | put together from a scheme, user, host, port and rest, an address is of its host in small letters, without port and without `www.` |
| `AddressParts.NoHostIsFound` | browser/NativeLibs/harmony_bookmarks_text.cpp:161-195 | an address without `://` is of no host |
| `AddressParts.MatchableIsFound` | browser/NativeLibs/harmony_bookmarks_text.cpp:197-206 | a query is held against what follows the scheme, in small letters and without `www.` |
| `AddressParts.FoldsLetters` | browser/NativeLibs/harmony_bookmarks_text.cpp:148-159 | folding turns A to Z small and leaves every other character |
| `AddressParts.RecordableExactly` | browser/NativeLibs/harmony_bookmarks_text.cpp:208-221 | an address is remembered exactly when it has a scheme other than about, data, blob and javascript, however it is cased |
| `FileFormats.BookmarkIsSpelled` | browser/NativeLibs/harmony_bookmarks_codec.cpp:99-123 | a sample line of the bookmark file, character by character |
| `FileFormats.HistoryIsSpelled` | browser/NativeLibs/harmony_bookmarks_codec.cpp:129-150 | a sample line of the history file |
| `FileFormats.EscapesAreSpelled` | browser/NativeLibs/harmony_bookmarks_codec.cpp:27-41 | the escapes |
| `FileFormats.NumbersAreSpelled` | browser/NativeLibs/harmony_bookmarks_codec.cpp:82-97 | sample numbers, read and written |
| `DownloadRuns.EveryRunKeepsInv` | browser/NativeLibs/harmony_downloads_model.cpp:29-383 | ids unique and below the next, ended downloads hold no object, every object handed over is held or was handed back, as often as it was handed over |
| `DownloadRuns.TakingReturnsAll` | browser/NativeLibs/harmony_downloads_model.cpp:250-302 | once the live objects are taken, each ever adopted has been handed back exactly once through `finish` or `takeLiveDownloads` |
| `DownloadRuns.EndedStaysEnded` | browser/NativeLibs/harmony_downloads_model.cpp:196-280 | over any continuation of any run, a download that ended never changes how, when or with how many bytes it ended |
| `DownloadRuns.HolderIsKept` | browser/NativeLibs/harmony_downloads_model.cpp:250-356 | a record holding an object is never forgotten: it still holds it, or the object was handed back and the record remains |
| `DownloadRuns.TakingForgetsUnlessLoaded` | browser/NativeLibs/harmony_downloads_model.cpp:282-302 | taking the live objects leaves the remembered downloads in the file exactly when the file had been loaded or was empty |
| `DownloadRuns.UnloadedRunForgets` | browser/NativeLibs/harmony_downloads_model.cpp:282-302 | a run that ends before its first look loses what the last one remembered |
| `DownloadRuns.NextRunRemembers` | browser/NativeLibs/harmony_downloads_model.cpp:29-41 | what a loaded run leaves behind is what the next one loads, each save having reached the file before the next |
| `DownloadSaves.FileIsAlwaysWhole` | browser/NativeLibs/harmony_downloads_model.cpp:250-356 | with copies written after the lock is let go, the file always holds one whole copy, or what it held at the start |
| `DownloadSaves.QuietFileIsNewestExactly` | browser/NativeLibs/harmony_downloads_model.cpp:250-356 | after every run, a file nobody is writing to was last written with the newest copy exactly when that copy was not written while an older one still waited, and holds what it says exactly then or when the copy written over it says the same |
| `DownloadSaves.QuietFileIsNewest` | browser/NativeLibs/harmony_downloads_model.cpp:250-356 | so it does while every write takes the oldest copy that waits |
| `DownloadSaves.CrossedWritesForget` | browser/NativeLibs/harmony_downloads_model.cpp:250-280 | an example: two downloads end, their writes pass one another, and the file knows one of them |
| `DownloadSaves.SavesIsSaving` | browser/NativeLibs/harmony_downloads_model.cpp:63-74 | a call that saves means the file to hold the newest ended records, and any other leaves it alone |
| `DownloadsFile.DecodeUndoesEncode` | browser/NativeLibs/harmony_downloads_history.cpp:256-354 | the newest 200 ended records written are read back unchanged apart from ids |
| `DownloadsFile.WriteHistory` | browser/NativeLibs/harmony_downloads_history.cpp:256-304 | the loop writes ended records up to the limit |
| `DownloadsFile.ReadHistory` | browser/NativeLibs/harmony_downloads_history.cpp:306-354 | the loop reads lines it can, up to the limit |
| `DownloadList.List.EnsureLoaded` | browser/NativeLibs/harmony_downloads_model.cpp:29-41 | loads the file once, numbering what it holds |
| `DownloadList.List.FindRecord` | browser/NativeLibs/harmony_downloads_model.cpp:43-50 | finds a record |
| `DownloadList.List.Add` | browser/NativeLibs/harmony_downloads_model.cpp:78-94 | puts a new record first and adopts its object |
| `DownloadList.List.SetUrl` | browser/NativeLibs/harmony_downloads_model.cpp:196-208 | changes an address that differs |
| `DownloadList.List.SetDestination` | browser/NativeLibs/harmony_downloads_model.cpp:210-230 | names the file and starts the download running |
| `DownloadList.List.SetProgress` | browser/NativeLibs/harmony_downloads_model.cpp:232-248 | ignored once ended |
| `DownloadList.List.Finish` | browser/NativeLibs/harmony_downloads_model.cpp:250-280 | ends a download once and hands its object back |
| `DownloadList.List.TakeLiveDownloads` | browser/NativeLibs/harmony_downloads_model.cpp:282-302 | hands every object back and saves |
| `DownloadList.List.Remove` | browser/NativeLibs/harmony_downloads_model.cpp:304-331 | forgets only an ended download |
| `DownloadList.List.ClearTerminal` | browser/NativeLibs/harmony_downloads_model.cpp:333-356 | forgets every ended download |
| `DownloadList.List.QueueCancel` | browser/NativeLibs/harmony_downloads_model.cpp:358-372 | queues a running download once |
| `DownloadList.List.TakeCancel` | browser/NativeLibs/harmony_downloads_model.cpp:374-383 | first in, first out |
| `DownloadList.List.Save` | browser/NativeLibs/harmony_downloads_model.cpp:63-74 | writes the ended records |
| `DownloadReports.EveryRecordTells` | browser/NativeLibs/harmony_downloads_model.cpp:78-280 | after any run each listed download says, read off the calls alone, what was last said of it: address, name, place, kind, bytes come and expected, whether it runs, and how, when and with what error it ended |
| `DownloadReports.EveryStepFollows` | browser/NativeLibs/harmony_downloads_model.cpp:196-302 | a call changes of a listed download only what the call says of it |
| `DownloadReports.ListedAfter` | browser/NativeLibs/harmony_downloads_model.cpp:78-356 | a new download is listed first; one that ended can be taken off, and all of them at once; nothing else comes, goes or changes its place |
| `DownloadReports.LookReadsOnce` | browser/NativeLibs/harmony_downloads_model.cpp:29-41 | the first look brings in what the file remembers, behind what is there and numbered on; a second one nothing |
| `DownloadReports.CallsLookFirst` | browser/NativeLibs/harmony_downloads_model.cpp:29-41 | every call that needs the list reads the file first |
| `DownloadReports.SavedAreTheEnded` | browser/NativeLibs/harmony_downloads_model.cpp:63-74 | what is saved is the newest 200 downloads that ended, in order |
| `DownloadReports.CancelsWaitInLine` | browser/NativeLibs/harmony_downloads_model.cpp:358-383 | a download under way waits to be cancelled at most once, and they are handed out first come first served |
| `FileFormats.DownloadIsSpelled` | browser/NativeLibs/harmony_downloads_history.cpp:256-304 | a sample line of the downloads file |
| `Settings.EveryRunIsSound` | browser/NativeLibs/harmony_settings_engines.cpp:164-222 | every run of edits keeps at least one usable engine, the choice in range and the zoom in its limits, and nothing a line could not hold |
| `Settings.ChoiceFollowsEngine` | browser/NativeLibs/harmony_settings_engines.cpp:190-222 | the choice stays with the same engine through any edit but one of that engine |
| `Settings.SearchAlwaysAnswers` | browser/NativeLibs/harmony_settings_engines.cpp:100-124 | a search always makes an address: the chosen template around the phrase, which decodes to what was typed |
| `Settings.DecodeUndoesPercent` | browser/NativeLibs/harmony_settings_engines.cpp:81-98 | percent encoding is undone by decoding and leaves only unreserved characters and `%` |
| `Settings.OneLineIs` | browser/NativeLibs/harmony_settings_engines.cpp:35-51 | what is stored is one trimmed line, and storing it again changes nothing |
| `Settings.TermsFound` | browser/NativeLibs/harmony_settings_engines.cpp:17-20 | a template with the token anywhere is usable |
| `Settings.DefaultsAreTidy` | browser/NativeLibs/harmony_settings_engines.cpp:64-72 | the built-in settings satisfy the invariant |
| `SettingsFile.LoadUndoesSave` | browser/NativeLibs/harmony_settings_file.cpp:158-298 | saving and loading gives the same settings back, the choice going to the first engine of its name: the same engine exactly when no earlier one shares the name |
| `SettingsFile.NamesakeIsChosen` | browser/NativeLibs/harmony_settings_file.cpp:158-298 | an example: two engines of one name, the second chosen, the first chosen after a restart |
| `SettingsFile.EveryRunIsRemembered` | browser/NativeLibs/harmony_settings_file.cpp:158-298 | so it is after every run of edits from the built-in settings |
| `SettingsFile.AnyFileIsSound` | browser/NativeLibs/harmony_settings_file.cpp:158-224 | whatever a file holds, what is loaded has a usable engine, a choice in range and a zoom in its limits |
| `SettingsFile.LinesUndoEnded` | browser/NativeLibs/harmony_settings_file.cpp:76-92 | lines written are the lines read, carriage returns at their ends apart |
| `SettingsSaves.QuietFileIsCurrentExactly` | browser/NativeLibs/harmony_settings_file.cpp:158-298 | over edits, saves that may fail and restarts in any order: while no edit waits to be saved, the next start finds the settings as they are, the choice by its name, exactly when the last save that had something to write could, or the file happens to say the same |
| `SettingsSaves.FailedIsNotTriedAgain` | browser/NativeLibs/harmony_settings_file.cpp:241-298 | a save that cannot write drops the mark all the same, so the next save leaves the file as it was although it could write |
| `SettingsSaves.OtherVersionIsLeftExactly` | browser/NativeLibs/harmony_settings_file.cpp:158-298 | a file of another version stays as it is exactly until a save writes; from then on it is a file of this version |
| `SettingsStore.Store.SetHome` | browser/NativeLibs/harmony_settings_store.cpp:121-130 | an empty home is the built-in one |
| `SettingsStore.Store.SetDownloads` | browser/NativeLibs/harmony_settings_store.cpp:239-250 | the loop drops separators at the end |
| `SettingsStore.Store.SetEngineDefault` | browser/NativeLibs/harmony_settings_engines.cpp:164-171 | only a place in range is chosen |
| `SettingsStore.Store.AddEngine` | browser/NativeLibs/harmony_settings_engines.cpp:173-188 | adds a usable engine and answers its place, or -1 |
| `SettingsStore.Store.UpdateEngine` | browser/NativeLibs/harmony_settings_engines.cpp:190-204 | replaces by a usable engine |
| `SettingsStore.Store.RemoveEngine` | browser/NativeLibs/harmony_settings_engines.cpp:206-222 | never the last one, and the choice follows |
| `SettingsStore.Store.LoadSettings` | browser/NativeLibs/harmony_settings_file.cpp:158-224 | takes a file of this version, leaves the settings otherwise, and reports a file of another |
| `SettingsStore.Store.Flush` | browser/NativeLibs/harmony_settings_file.cpp:241-298 | writes every setting when there is an edit to write, and clears the mark either way |
| `SettingsStore.StripToLine` | browser/NativeLibs/harmony_settings_engines.cpp:35-51 | the loop and the two searches make one line |
| `SettingsStore.PercentEncode` | browser/NativeLibs/harmony_settings_engines.cpp:81-98 | the loop encodes byte by byte |
| `SettingsStore.SplitLines` | browser/NativeLibs/harmony_settings_file.cpp:76-92 | the searching loop cuts the lines |
| `SettingsStore.SplitLine` | browser/NativeLibs/harmony_settings_file.cpp:108-118 | key and value around the first tab |
| `SettingsStore.ReadLines` | browser/NativeLibs/harmony_settings_file.cpp:182-206 | the loop takes the lines it knows |
| `SettingsStore.ChooseDefaultEngine` | browser/NativeLibs/harmony_settings_file.cpp:134-142 | the first engine of the name |
| `SettingsStore.Settle` | browser/NativeLibs/harmony_settings_file.cpp:211-221 | puts what is out of range right |
| `SettingsEdits.EveryRunHoldsTheLast` | browser/NativeLibs/harmony_settings_store.cpp:121-250 | after any run of edits home, new tab, zoom, the four switches and the directory each hold what they were last set to, as it is stored, and what they held before when never set |
| `SettingsEdits.EnginesAfter` | browser/NativeLibs/harmony_settings_engines.cpp:173-222 | an engine with a name and a place for the phrase is added last or put in another's place, one without is not; any but the last left can be taken away; the others stay in their order |
| `SettingsEdits.ChoiceAfter` | browser/NativeLibs/harmony_settings_engines.cpp:164-222 | the choice changes when one is made of an engine there is and when an engine is taken away: to the first when it was the chosen one, along with its own otherwise |
| `SettingsEdits.UsableExactly` | browser/NativeLibs/harmony_settings_engines.cpp:74-79 | an engine is usable exactly when its name is not empty and its template has the token somewhere |
| `SettingsEdits.SearchFillsIn` | browser/NativeLibs/harmony_settings_engines.cpp:100-124 | a search puts the encoded phrase where the chosen template first asks for it and leaves the rest |
| `SettingsEdits.LineIsTheText` | browser/NativeLibs/harmony_settings_engines.cpp:35-51 | what is stored is the text without breaks and tabs, and without the spaces around that |
| `SettingsEdits.DirectoryLosesSeparators` | browser/NativeLibs/harmony_settings_store.cpp:239-250 | a directory loses the separators at its end and keeps at least three characters |
| `FileFormats.SettingsAreSpelled` | browser/NativeLibs/harmony_settings_file.cpp:241-298 | a sample settings file, line by line |

## Left out

- WebKit itself, its C interface and the loading of its symbols: views, listeners, download objects and answers of the engine are inputs and tokens.
- Windows: handles, painting, snapshots, focus, printing, notifications, location, the shell, and the raw reading, writing and renaming of files.
- Local time and locale formatting: the calendar starts from a day number.
- The weights of the history score: the score is any function.
- The loading and progress a page reports of its tab: `Tabs` keeps id, address, title, pin and whether the view can be made.
- Host and folded copies kept beside a title or an address: they are computed from it; the roots are made without a folded title, which only a search of titles would show.
- Running out of ids: node, tab, request, dialog and download ids are unbounded, so the wrap-around of the dialog ids to 1 does not happen.
- The removal's pending flag, which is set outside the lock and can stay set after the queue empties.
- The ledger of sites a removal edits, the list of directories it sweeps, and the bytes it measures before and after.
- Forced downloads: one is matched without a look at its deadline, so nothing is claimed about expiry.
- The order of a direct bookmark write and a queued one at shutdown.
- The mark that makes the next opened tab private.
- A second start of the WebKit thread while it is being stopped: one start and one stop are modelled.
- A page that closes, or a shutdown that runs, before the entry points of the engine are resolved: nothing has been asked by then.
- Certificates a person trusted, repainting, and the geolocation state beside the dialogs and permissions.
- Zoom steps, find counts, menus and file name cleaning: one loop deep.
- BookmarkRoundTrip.ReloadRebuilds: stated for ids that fit 32 bits, which is what the reader converts them to.
- Session.LoadUndoesEncode: stated for fewer than 2^31 entries and blocks under 2^32 bytes, which is what the format can say.
- TabUndo.CloseAllRedeals: stated for at most 24 tabs; beyond them see `TabUndo.TooManyToComeBack`.
- FileTree.RemoveTree: gives the tree that is left instead of changing a disk in place, so another process changing it meanwhile is not modelled.
- HistoryStore.Store.Trim: is given the order the library sort chose, any that is by last visit.
- HistoryStore.Store.ForgetSince: says of a list out of order only that a front part is left, since the library's search promises nothing of one.
- BookmarkRoundTrip.EveryLifeKeepsTheTree: stated for fewer than 2^31 - 2 events, so that every id fits the reader's 32 bits.
- DownloadRuns.NextRunRemembers: takes each save as one step with its write; `DownloadSaves` takes them apart.
- DownloadList.List.Save: copies and writes in one step, which is what one thread alone sees.
- TabRegistry.Tabbar.PublishTabs: publishes what `Tabs` keeps of a tab, not its loading, progress, host and history flags.
- CommandQueue.Queue.RunCommand: records that a command ran; the tab commands it dispatches are `TabRegistry`'s.
- CommandQueue.Queue.StopAfterWorker: is the stop once the worker has left; the waiting for it is in `Commands`.
- RemovalPump.Pump.StartSweeping: starts the worker's job, without ending the network process or naming directories.
- RemovalPump.Pump.FinishRequest: ends the request, without the site ledger and the pending flag.
- RemovalPump.Pump.Enqueue: queues the request, without the pending flag.
- SettingsSaves.QuietFileIsCurrentExactly: starts from no file, one of another version, or one none of whose values ends in a carriage return, which a line of the file would lose; every file this program writes is one.
- The delay before a save: `SettingsSaves` lets a save come at any time.
- HistoryStore.Store.Query: sorts with the model's own ordering of rows, which `HistoryQuery.OrderIsUnique` shows is the only one.
