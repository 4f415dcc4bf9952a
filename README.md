# Study-notes web app: list pipelines and dashboard handlers

This project models the list logic of two pages of a study-notes web
application and proves what those pages promise about the lists they show.

- **Notes page** (`NotesPage`, `notes.dfy`)
  - the tag list offered by the "My Notes" filter (`extractTags`);
  - the "My Notes" list: search, then tag filter, then a keyed sort whose direction can be flipped;
  - the "Global Notes" list: search, then subject filter, then minimum rating, then a keyed sort;
  - the "Recent" tab: both lists merged, newest first, cut to twelve;
  - the "Groups" tab: a group search, a tag filter and a sort by name or creation time.
- **Dashboard page** (`Dashboard`, `dashboard.dfy`)
  - the task update handler, with its `completedAt` bookkeeping;
  - the task delete handler, which also deletes the task's study sessions;
  - the session scheduling handler;
  - the local override maps for saved flags and vote counts;
  - the share link built for each social platform.

The page state the dashboard's handlers replace (`tasks`, `sessions`,
`savedQuestions`, `questionVotes`) is a class, `Dashboard.DashboardState`.
Each handler is a method on that class. Each method's `ensures` ties the new
state to a pure function of the old state, and the lemmas are about those
functions.

The JavaScript built-ins the pipelines rely on are modelled once, in helper
modules:

- `Text`: `toLowerCase`, `includes`, `split(" ")` and `localeCompare`;
- `Seqs`: `filter`, and `Set` followed by `Array.from`;
- `Sorting`: `Array.prototype.sort`. This sort is stable since ES2019. It is modelled as a stable insertion sort under a comparator returning an `int`.

Each comparator of the pages is proved to be consistent: sign antisymmetry
and transitivity. The sort is proved to be a permutation, sorted, stable and
idempotent.

Timestamps are integers. `new Date()`, `generateId()`,
`window.location.origin` and `encodeURIComponent` are parameters (`now`,
`freshId`, `origin`, `encode`). So are the answers of the saved-items and
voting libraries (`isSaved`, `count`). The mock data collections are inputs.

For the "My Notes" and "Global Notes" lists, the title sort computes
`a.title.localeCompare(b.title)` and then negates it for `"asc"`. So `"asc"`
lists titles Z to A and `"desc"` lists them A to Z.
`NotesPage.TitleAscendingIsZToA` shows this on a three-note list. The
"Groups" tab does not negate, so its `"asc"` is A to Z.

## Model

| member | source | states |
|---|---|---|
| Text.Lower | app/notes/page.tsx:88-90 | lower-casing keeps the length and lower-cases each character (ASCII letters only) |
| Text.LowerIdempotent | app/notes/page.tsx:88-90 | lower-casing twice is lower-casing once |
| Text.Contains | app/notes/page.tsx:89 | `includes`, defined as "the term is a prefix of the string or of one of its suffixes"; its properties are in Text.ContainsIffOccurs and Text.ContainsEmpty |
| Text.ContainsIffOccurs | app/notes/page.tsx:89 | `includes` holds exactly when the term occurs at some position |
| Text.ContainsEmpty | app/notes/page.tsx:88-90 | every string includes the empty string |
| Text.JoinSplit | app/notes/page.tsx:23 | `split(" ")` loses nothing: joining the pieces again gives the title back |
| Text.SplitJoin | app/notes/page.tsx:23 | splitting a join of space-free words gives those words back (empty words included) |
| Text.Split | app/notes/page.tsx:23 | `split` yields at least one piece and no piece contains the separator |
| Text.LocaleCompare | app/notes/page.tsx:124 | the code-unit stand-in for `localeCompare`, defined as lexicographic comparison giving -1, 0 or 1; its properties are in Text.LocaleCompareLaws and Text.LocaleCompareZeroIffEqual |
| Text.LocaleCompareLaws | app/notes/page.tsx:124 | `localeCompare` is antisymmetric in sign and transitive, so it is a total preorder |
| Text.LocaleCompareZeroIffEqual | app/notes/page.tsx:124 | the code-unit stand-in for `localeCompare` gives 0 exactly for equal strings |
| Seqs.Filter | app/notes/page.tsx:89 | `filter` keeps exactly the elements that pass the predicate and never lengthens the list |
| Seqs.FilterCounts | app/notes/page.tsx:89 | `filter` keeps each passing element as often as it occurs, drops the others, and keeps the order (a subsequence) |
| Seqs.ConditionalFilter | app/notes/page.tsx:88-90 | a filter applied only when a condition holds is one filter by the predicate with `!condition \|\|` in front |
| Seqs.FilterFilter | app/notes/page.tsx:93-105 | two filters in a row are one filter by the conjunction |
| Seqs.FilterIdempotent | app/dashboard/page.tsx:214-219 | filtering twice by the same predicate is filtering once |
| Seqs.Dedup | app/notes/page.tsx:20-36 | `Array.from(new Set(...))` has the same members as its input and no duplicates |
| Seqs.DedupPrefix | app/notes/page.tsx:31-33 | adding later elements to a `Set` does not move the earlier ones |
| Seqs.DedupFirstOccurrenceOrder | app/notes/page.tsx:20-36 | a `Set` lists its elements in the order of their first insertion |
| Sorting.StableSort | app/notes/page.tsx:108-130 | the sorted list is a permutation of its input |
| Sorting.StableSortSorted | app/notes/page.tsx:108-130 | under a consistent comparator, every earlier element compares `<= 0` with every later one |
| Sorting.StableSortStable | app/notes/page.tsx:108-130 | elements that compare equal keep their input order |
| Sorting.StableSortOfSorted | app/notes/page.tsx:108-130 | an already sorted list is left exactly as it is |
| Sorting.StableSortIdempotent | app/notes/page.tsx:108-130 | sorting twice is sorting once |
| NotesPage.FindGroup | app/notes/page.tsx:100 | `NOTES_GROUPS.find` gives nothing exactly when no group has the id; otherwise a group with that id |
| NotesPage.FindGroupIsFirst | app/notes/page.tsx:100 | `find` gives the first group with the id |
| NotesPage.TitleWordTagsMembers | app/notes/page.tsx:22-30 | the title-word candidates are exactly the words longer than 3 characters of the titles' space-separated words |
| NotesPage.TagCandidatesMembers | app/notes/page.tsx:19-37 | the tag candidates are exactly the long title words and the group names |
| NotesPage.AddTitleWords | app/notes/page.tsx:23-29 | adding one title's words leaves the set of everything added so far plus that title's words longer than 3 characters |
| NotesPage.AddGroupNames | app/notes/page.tsx:31-33 | adding the groups leaves the set of everything added so far plus every group name, in group order |
| NotesPage.ExtractTags | app/notes/page.tsx:19-37 | the tag list has no duplicates; it contains a string exactly when it is a long title word or a group name; title words come first, in first-insertion order |
| NotesPage.MyNotesCompare | app/notes/page.tsx:108-130 | the `switch` comparator, defined per key and negated for `"asc"`; its properties are in NotesPage.MyNotesComparatorConsistent and NotesPage.FilteredMyNotesOrder |
| NotesPage.GlobalNotesCompare | app/notes/page.tsx:160-184 | the `switch` comparator, defined per key and negated for `"asc"`; its properties are in NotesPage.GlobalNotesComparatorConsistent and NotesPage.FilteredGlobalNotesOrder |
| NotesPage.GroupsCompare | app/notes/page.tsx:355-364 | the Groups-tab comparator, by name or by `createdAt`, with the operands swapped for `"desc"`; its properties are in NotesPage.GroupsComparatorConsistent and NotesPage.VisibleGroupsOrder |
| NotesPage.MyNotesComparatorConsistent | app/notes/page.tsx:108-130 | every key and direction of the "My Notes" sort is a consistent comparator |
| NotesPage.GlobalNotesComparatorConsistent | app/notes/page.tsx:160-184 | every key and direction of the "Global Notes" sort is a consistent comparator |
| NotesPage.GroupsComparatorConsistent | app/notes/page.tsx:355-364 | both keys and directions of the "Groups" sort are consistent comparators |
| NotesPage.FirstIndexWithId | app/notes/page.tsx:100 | when some group has the id, the index returned is the first such group's position |
| NotesPage.FilteredMyNotes | app/notes/page.tsx:84-133 | defined as the stable sort of the notes passing `KeepsMyNote`; its properties are in NotesPage.ComputeFilteredMyNotes and the FilteredMyNotes lemmas below |
| NotesPage.ComputeFilteredMyNotes | app/notes/page.tsx:84-133 | the staged reassignment of `result` (search if a term is given, tags if any are selected, then sort) equals the filtered and sorted list |
| NotesPage.FilteredMyNotesContents | app/notes/page.tsx:84-105 | the list is a permutation of the notes passing both filters: each kept note appears as often as in `NOTES`, no other note appears |
| NotesPage.FilteredMyNotesSearch | app/notes/page.tsx:88-90 | with a search term every listed title contains it, ignoring case; with no term and no tags every note is listed |
| NotesPage.FilteredMyNotesNoMatch | app/notes/page.tsx:88-90 | a term that occurs in no title empties the list |
| NotesPage.TagMatches | app/notes/page.tsx:97-103 | defined as the tag occurring, ignoring case, in the title or in the name of the group `find` returns, with `?.` on a missing group counting as no match; its properties are in NotesPage.TagMatchesIff |
| NotesPage.TagMatchesIff | app/notes/page.tsx:96-103 | a tag matches through the title or through the name of the first group with the note's group id; with no such group only the title counts |
| NotesPage.FilteredMyNotesTags | app/notes/page.tsx:93-105 | while tags are selected, each listed note matches one of them |
| NotesPage.FilteredMyNotesOrder | app/notes/page.tsx:108-130 | `"desc"` gives non-increasing `updatedAt` (`createdAt` for `"recent-upload"`) and `"asc"` the reverse; `"recent-view"` and unknown keys sort by `updatedAt`; for `"title"`, `"desc"` is ascending and `"asc"` descending |
| NotesPage.FilteredMyNotesStable | app/notes/page.tsx:108-130 | notes whose keys tie keep their `NOTES` order |
| NotesPage.FilteredMyNotesIdempotent | app/notes/page.tsx:84-133 | recomputing the list from its own output gives the same list |
| NotesPage.FilteredGlobalNotes | app/notes/page.tsx:136-187 | defined as the stable sort of the global notes passing `KeepsGlobalNote`; its properties are in NotesPage.ComputeFilteredGlobalNotes and the FilteredGlobalNotes lemmas below |
| NotesPage.ComputeFilteredGlobalNotes | app/notes/page.tsx:136-187 | the staged reassignment of `result` (search, subjects, minimum rating, sort) equals the filtered and sorted list |
| NotesPage.FilteredGlobalNotesContents | app/notes/page.tsx:136-157 | the list is a permutation of the global notes passing all three filters |
| NotesPage.FilteredGlobalNotesFilters | app/notes/page.tsx:140-157 | each listed note matches the term in its title, group name or author name; its group name is exactly one of the chosen subjects; and its rating is at least a positive minimum |
| NotesPage.FilteredGlobalNotesNoFilter | app/notes/page.tsx:140-157 | with no term, no subjects and no minimum, every global note is listed |
| NotesPage.FilteredGlobalNotesOrder | app/notes/page.tsx:160-184 | the list is ordered by `updatedAt`, likes, views or rating as chosen (`"desc"` non-increasing), unknown keys sort like `"recent"`, and the title direction is flipped as for "My Notes" |
| NotesPage.FilteredGlobalNotesStable | app/notes/page.tsx:160-184 | global notes whose keys tie keep their `GLOBAL_NOTES` order |
| NotesPage.FilteredGlobalNotesIdempotent | app/notes/page.tsx:136-187 | recomputing the list from its own output gives the same list |
| NotesPage.GroupNotes | app/notes/page.tsx:377 | a group's card shows exactly the notes whose group id is the group's id |
| NotesPage.VisibleGroups | app/notes/page.tsx:347-364 | defined as the two chained filters followed by the stable sort; its properties are in NotesPage.VisibleGroupsIsFilter, NotesPage.VisibleGroupsContents and NotesPage.VisibleGroupsOrder |
| NotesPage.VisibleGroupsIsFilter | app/notes/page.tsx:347-354 | the two group filters in a row are one filter by "matches the search and some tag" |
| NotesPage.VisibleGroupsContents | app/notes/page.tsx:347-364 | the tab lists each group that passes both filters, as often as it occurs, and no other (each filter vacuous when its input is empty) |
| NotesPage.VisibleGroupsOrder | app/notes/page.tsx:355-364 | `"title"` with `"asc"` lists names A to Z and `"desc"` Z to A; every other key sorts by `createdAt`, oldest first for `"asc"` |
| NotesPage.MyEntry | app/notes/page.tsx:65-71 | an own note enters the merge marked "my", viewed at `updatedAt`, with a group name exactly when a group has its group id, and then the name of the first such group |
| NotesPage.GlobalEntry | app/notes/page.tsx:72-76 | a global note enters the merge marked "global", viewed at `updatedAt`, with its group name |
| NotesPage.CombinedEntries | app/notes/page.tsx:64-76 | the merge lists the own notes first and the global notes after them, one entry each |
| NotesPage.RecencyCompare | app/notes/page.tsx:77 | defined as `b.lastViewed - a.lastViewed`; its properties are in NotesPage.RecentlyViewedOrder |
| NotesPage.RecentlyViewed | app/notes/page.tsx:63-80 | defined as the stable sort of the merge, cut to its first 12 entries; its properties are in the RecentlyViewed lemmas below |
| NotesPage.RecentlyViewedLength | app/notes/page.tsx:63-80 | the tab holds min(12, own + global notes) entries |
| NotesPage.RecentlyViewedOrder | app/notes/page.tsx:77 | the tab lists entries in non-increasing `lastViewed` (= `updatedAt`) |
| NotesPage.RecentlyViewedSources | app/notes/page.tsx:64-76 | each entry is drawn from its source list and carries the matching "my" or "global" mark |
| NotesPage.RecentlyViewedMostRecent | app/notes/page.tsx:77-80 | the tab is a prefix of the sorted merge, and no entry left out was viewed later than one shown |
| NotesPage.TitleAscendingIsZToA | app/notes/page.tsx:122-129 | with `"title"` and `"asc"`, titles Zeta, Alpha, Mu are listed Zeta, Mu, Alpha |
| Dashboard.WithCompletion | app/dashboard/page.tsx:194-201 | a move to "completed" sets `completedAt` to now; a move away from it sets `completedAt` to undefined, also when the patch has no status; otherwise the patch is untouched; no other key changes |
| Dashboard.MergeTask | app/dashboard/page.tsx:203-207 | the spread, defined as each key the patch carries overriding the task's own, then `updatedAt = now`; its properties are in Dashboard.UpdateTasksEffect and Dashboard.CompletedAtAfterUpdate |
| Dashboard.UpdateTasks | app/dashboard/page.tsx:190-211 | the `map`, defined task by task with the patch carried from one matching task to the next; its properties are in Dashboard.UpdateTasksEffect, Dashboard.UpdateTasksNoMatch and Dashboard.UpdateTasksUnique |
| Dashboard.UpdateTasksEffect | app/dashboard/page.tsx:189-211 | the update keeps length and order and leaves tasks with other ids unchanged; each matching task takes every field the patch carries, gets `updatedAt = now`, and follows the completion rule |
| Dashboard.UpdateTasksNoMatch | app/dashboard/page.tsx:189-211 | an id no task has changes neither the list nor the patch |
| Dashboard.UpdateTasksUnique | app/dashboard/page.tsx:189-211 | with exactly one task carrying the id, only that position changes, to the merge with the completion-adjusted patch, and that patch is what the caller's `taskData` holds afterwards |
| Dashboard.CompletedAtAfterUpdate | app/dashboard/page.tsx:193-205 | a task updated alone gets `completedAt = now` on a move to "completed"; it is cleared on a move away, and a patch without a status clears it while the status stays "completed"; otherwise the patch's value is taken, or the old one kept |
| Dashboard.TasksWithout | app/dashboard/page.tsx:215 | the remaining tasks are exactly those whose id differs |
| Dashboard.SessionsWithout | app/dashboard/page.tsx:218 | the remaining sessions are exactly those not planned for the task |
| Dashboard.DeleteTaskSpec | app/dashboard/page.tsx:214-219 | after a delete no task has the id and no session refers to it; all other tasks and sessions remain as often as before and in their order |
| Dashboard.DeleteUnknownTask | app/dashboard/page.tsx:214-219 | deleting an id nothing refers to changes nothing |
| Dashboard.DeleteTaskIdempotent | app/dashboard/page.tsx:214-219 | deleting twice is deleting once |
| Dashboard.NewSession | app/dashboard/page.tsx:222-228 | the new session's id is the data's own id if it has one and the fresh id otherwise; it has user "user_1", `createdAt = updatedAt = now`, and the data's task and times |
| Dashboard.SavedAfter | app/dashboard/page.tsx:91-113 | the question's entry becomes the negation of the store's saved status; other entries are unchanged |
| Dashboard.Displayed | app/dashboard/page.tsx:288-295 | a local entry, when present, is shown; otherwise the external value is shown |
| Dashboard.VotesAfter | app/dashboard/page.tsx:69-72 | the question's entry becomes the library's fresh count; other entries are unchanged |
| Dashboard.ToggledStore | app/dashboard/page.tsx:93-106 | unsave removes a saved question and save adds an unsaved one; other questions are untouched |
| Dashboard.SaveQuestionDisplay | app/dashboard/page.tsx:91-113 | while the local flags agree with the store, saving makes the shown flag the opposite of the flag shown before and equal to the store's new status; flags of other questions do not change, and the local flags still agree with the store |
| Dashboard.SaveQuestionTwice | app/dashboard/page.tsx:91-113 | while the local flags agree with the store, toggling twice restores the store and the flag shown before |
| Dashboard.InitialSavedAgrees | app/dashboard/page.tsx:44 | the initial empty `savedQuestions` agrees with any store |
| Dashboard.VoteCountDisplay | app/dashboard/page.tsx:69-72 | after a vote the shown count is the fresh count; other shown counts do not change |
| Dashboard.QuestionUrl | app/dashboard/page.tsx:134 | defined as the origin, then "/question/", then the id; its properties are in Dashboard.ShareUrl |
| Dashboard.ShareUrl | app/dashboard/page.tsx:134-149 | a link exists exactly for "facebook", "twitter" and "linkedin", each its fixed prefix followed by the encoded question URL (the title first for "twitter") |
| Dashboard.ShareUrlPlatform | app/dashboard/page.tsx:137-149 | the platform can be read back from the link's prefix, so the three links never collide |
| Dashboard.DashboardState.constructor | app/dashboard/page.tsx:43-48 | the page starts with the given tasks and sessions and empty override maps |
| Dashboard.DashboardState.UpdateTask | app/dashboard/page.tsx:189-212 | `handleUpdateTask` replaces `tasks` by the updated list and leaves `taskData` as the callbacks rewrote it; nothing else changes |
| Dashboard.DashboardState.DeleteTask | app/dashboard/page.tsx:214-219 | `handleDeleteTask` removes the task and, in cascade, its sessions; nothing else changes |
| Dashboard.DashboardState.ScheduleSession | app/dashboard/page.tsx:221-231 | `handleScheduleSession` appends exactly one new session at the end; nothing else changes |
| Dashboard.DashboardState.SaveQuestion | app/dashboard/page.tsx:88-114 | `handleSaveQuestion` updates only `savedQuestions` |
| Dashboard.DashboardState.RecordVoteCount | app/dashboard/page.tsx:64-72 | the local part of `handleVote` updates only `questionVotes` |

## Left out

- Rendering, styling, modals, tabs and the section toggle are not modelled. Neither are routing, toasts, `alert`, `console.log`, the clipboard, `window.open` and `useMobile`. They are user interface or browser I/O.
- The saved-items and voting libraries and `generateId` are not modelled. Their answers are parameters. For `ToggledStore`, the saved-items store is assumed to behave as its function names say.
- `handleVote` keeps only its local map update. Its vote logic lives in the voting library, which is not part of this model.
- The study-plan percentage is not modelled. It is floating point and divides by zero on an empty plan.
- The login page is not modelled. It is a two-step screen toggle with no logic.
- `encodeURIComponent` is a parameter `encode`. Percent-encoding is not modelled.
- Text.Lower: lower-cases ASCII letters only. Locale rules and the rest of Unicode are not modelled.
- Text.LocaleCompare: code-unit lexicographic order returning -1, 0 or 1, rather than locale collation. The sort proofs only rely on it being a total preorder.
- String lengths count characters, not UTF-16 code units.
- Ratings, counts and timestamps are integers, not floating point. `Date` objects are their millisecond values.
- NotesPage.RecentEntry: keeps 6 of the fields that `...note` copies into a merged entry: id, title, rating, source, viewing time and group name. These are the fields the "Recent" tab shows or links with. The rest of each note's fields are not modelled.
- Dashboard.TaskData: only `completedAt` can be present but undefined. For every other key, absent and undefined are not told apart. Task and session fields beyond the ones listed in the datatypes are not modelled.
- Dashboard.MergeTask: the two `new Date()` calls of one update, and the two in `handleScheduleSession`, are one `now`.
- Sorting in place is modelled on values, as are the copies `[...NOTES]` and `[...GLOBAL_NOTES]` it works on: the model does not capture aliasing. The sort's exact sequence of comparator calls is not modelled either. Its result is fully determined, because the sort is stable.
- `useMemo` and `useEffect` memoisation and their dependency lists are not modelled. They do not change any result.
