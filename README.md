# LearnHub quiz core in Dafny

LearnHub is a bilingual (en-US / es-MX) quiz web application. This project models
its logic, with the browser taken away:

- **Content registry.** Every content file the bundler finds is registered once
  per (subject, unit, class number), the first file winning. The list of class
  metadata is then sorted by subject, unit and class. The registry answers slug
  lookups for the metadata and for the whole file.
- **Quiz adapter.** Raw bilingual questions become playable ones. Per locale the
  adapter picks one text variant, shuffles the options, locates the correct
  option in the shuffled list and defaults the explanation to nothing. It also
  computes the grade and progress percentages and the narration voice
  preference.
- **Quiz session.** The session covers quiz selection, answer submission with
  its delayed (700 ms) advance to the next question, jump to a question, restart,
  language swap and the toolbar toggles. It is a `Session` class whose fields
  are the component's state. Each handler is proved to perform a pure
  transition on a `State` value, and the invariants are proved about those
  transitions.
- **Recent quizzes.** A bounded (8), duplicate-free, most-recent-first history
  is kept in browser storage. It is loaded through a shape filter, updated by
  "mark opened" and resolved against the catalog.
- **Home catalog.** The home page derives subjects, units, available tags, the
  filter pipeline (subject, unit, search text, tags), the sort by unit and
  class, and pagination (9 per page). `HomeState` holds the page's filter state
  and its reset handlers.
- **Pagination and tag filter widgets.** These cover the page list, the guarded
  `goTo`, the disabled arrows and the tag toggle. The predicates
  `Pagination.Shown` and `FilterTags.Shown` state when each widget renders at
  all (more than one page; at least one tag).

Randomness is injected. A `Draw` holds the variant index and the shuffle
"picks"; a pick is a draw without replacement. `PicksForShuffle` proves that
every permutation of the options is produced by some draw.

The browser's storage and JSON codec are parameters. Time (`Date.now`) is a
parameter. The bundler's file list is an input sequence.

Files:

- `wrappers.dfy`: the `Option` type.
- `seqs.dfy`: list operations the source uses (`filter`, `map`, `flatMap`,
  `find`, `indexOf`, `slice`, `Array.from(new Set(...))`, a stable sort).
- `strings.dfy`: `trim`, lower-casing, `includes`, `join`/`split`, number
  formatting, string order.
- `content.dfy`: content file types.
- `registry.dfy`, `adapter.dfy`, `session.dfy`, `recents.dfy`, `catalog.dfy`,
  `pagination.dfy`, `filtertags.dfy`: the parts listed above.

## Model

| member | source | states |
|---|---|---|
| Strings.JoinSplit | src/data/quizzes/registry.ts:84 | joining the pieces of `split` with the separator gives back the key |
| Registry.Folder | src/data/quizzes/registry.ts:84-85 | the folder is present exactly when the key has a '/' (more than one component) |
| Registry.FolderBetweenSlashes | src/data/quizzes/registry.ts:84-85 | the folder is the text between the first '/' and the next one or the end of the key, i.e. the second component |
| Registry.MetaFrom | src/data/quizzes/registry.ts:66-70 | the stored meta carries the file's slug and (subject, unit, classNo) key and no id |
| Registry.RegisteredWellFormed | src/data/quizzes/registry.ts:51-101 | after the registration loop, keys are distinct; the seen set is exactly the listed keys; every listed meta has a non-empty slug with a stored file; every stored slug belongs to a listed meta |
| Registry.FirstWithKey | src/data/quizzes/registry.ts:54-81 | the first registrable entry with a given key, or -1 when there is none |
| Registry.FirstRegisteredWins | src/data/quizzes/registry.ts:70-81 | a key is registered iff some registrable entry has it, and the registered meta is the one from the first such entry |
| Registry.LaterSlugOverwrites | src/data/quizzes/registry.ts:88 | a later registrable file with a new key replaces the stored file of its slug |
| Registry.DuplicateKeyDropped | src/data/quizzes/registry.ts:72-80 | an entry whose key was already seen changes nothing |
| Registry.SkippedEntriesIgnored | src/data/quizzes/registry.ts:54-64 | shadow keys under "data/quizzes/" and files without a slug have no effect: registering only the other entries gives the same registry |
| Registry.MetaLeTotalPreorder | src/data/quizzes/registry.ts:104-108 | the comparator (subject, then unit, then classNo) is total and transitive |
| Registry.SortMetas | src/data/quizzes/registry.ts:104-108 | the sorted list is a permutation of the registered list, ordered by that comparator |
| Registry.SortedCatalogOrder | src/data/quizzes/registry.ts:104-108 | with one entry per key, the sorted list is strictly increasing in (subject, unit, classNo) |
| Registry.KeysDistinctPermutation | src/data/quizzes/registry.ts:104-108 | reordering does not create two entries with one key |
| Registry.WellFormedPermutation | src/data/quizzes/registry.ts:104-108 | the registry's invariant survives the in-place sort |
| Registry.FindBySlug | src/data/quizzes/registry.ts:124-126 | the first meta whose slug is the given one, or none when no meta has it |
| Registry.LoadBySlug | src/data/quizzes/registry.ts:128-137 | the stored file when the slug is known, none (the source's null) otherwise |
| Registry.LookupsAgree | src/data/quizzes/registry.ts:124-137 | for a well-formed registry the two lookups succeed for the same slugs, and the loaded file's slug is the asked one |
| Registry.Registry.constructor | src/data/quizzes/registry.ts:37-108 | the loop over the bundler's entries fills the dictionary and seen set as the registration fold does, then sorts the list |
| Registry.Registry.GetAllQuizMeta | src/data/quizzes/registry.ts:120-122 | the listed metas are sorted and one per key |
| Registry.Registry.GetQuizBySlug | src/data/quizzes/registry.ts:124-126 | found exactly for the stored slugs, and the result is a listed meta with that slug |
| Registry.Registry.LoadQuizJsonBySlug | src/data/quizzes/registry.ts:128-137 | a file exactly when some listed meta has the slug, and that file's meta has the slug |
| QuizAdapter.Shuffle | src/components/InterviewQuiz.tsx:189 | the shuffled options are a permutation of the input (same length, same multiset) |
| QuizAdapter.ShuffleMembers | src/components/InterviewQuiz.tsx:189 | shuffling keeps exactly the elements of the list |
| QuizAdapter.PicksForShuffle | src/components/InterviewQuiz.tsx:189 | every permutation of the input is the result of some valid draw |
| QuizAdapter.PickVariant | src/components/InterviewQuiz.tsx:193-197 | the picked text is an element of the pool; an empty pool gives nothing (the source's undefined) |
| QuizAdapter.CorrectIndex | src/components/InterviewQuiz.tsx:208-209 | the first position of the correct text in the shuffled list when present, 0 when absent |
| QuizAdapter.AdaptQuestion | src/components/InterviewQuiz.tsx:192-223 | per locale the word is from the pool, the options are a permutation of the source's, the correct text is kept and found at the correct index, and the explanation defaults to [] |
| QuizAdapter.Adapt | src/components/InterviewQuiz.tsx:192-224 | one adapted question per source question, in source order, each faithful in both locales |
| QuizAdapter.DrawFor | src/components/InterviewQuiz.tsx:199-203 | the two locales are shuffled independently: any pair of option orders, with any variants, is what some draw gives |
| QuizAdapter.RoundedPercent | src/components/InterviewQuiz.tsx:124 | the result is 100x/t rounded half up: within half a unit of it |
| QuizAdapter.Grade | src/components/InterviewQuiz.tsx:122-126 | 0 before any attempt; otherwise the rounded share of correct answers, at most 100, and 100 when nothing was wrong |
| QuizAdapter.GradeExamples | src/components/InterviewQuiz.tsx:122-126 | (0,0) gives 0, (3,1) gives 75, (1,3) gives 25 and (2,0) gives 100 |
| QuizAdapter.ProgressPercent | src/components/InterviewQuiz.tsx:448-449 | the progress bar is 100(index + 1)/total rounded half up, with total the question count or 1 when there are none: at most 100 on a valid index and exactly 100 on the last question |
| QuizAdapter.PickVoice | src/components/InterviewQuiz.tsx:172-175 | the first voice of the language whose name mentions Google, else the first voice of the language, else none |
| QuizAdapter.LoadVoices | src/components/InterviewQuiz.tsx:168-179 | with no voices the current choice stays; otherwise a voice of the question language (en-US when none is set), a Google one when there is one, and none only when no voice has that language |
| QuizSession.Initial | src/components/InterviewQuiz.tsx:80-116 | the initial state satisfies the session invariant, with no questions, no language, retry-until-correct mode and read-aloud and response mode on |
| QuizSession.MovedTo | src/components/InterviewQuiz.tsx:353 | changing the index clears the selected answer |
| QuizSession.ToggleTwice | src/components/InterviewQuiz.tsx:816-881 | each toolbar toggle changes its setting, and pressing it twice restores the view |
| QuizSession.SubmitPreservesInv | src/components/InterviewQuiz.tsx:283-337 | an answer keeps the index in range, the score equal to the correct count and at most one pending advance |
| QuizSession.FirePreservesInv | src/components/InterviewQuiz.tsx:316-337 | the delayed advance keeps the invariant |
| QuizSession.StepPreservesInv | src/components/InterviewQuiz.tsx:191-351 | every session action keeps the invariant; an action whose control is not on screen (a quiz card once a quiz is selected, restart off the result screen) does nothing |
| QuizSession.RunPreservesInv | src/components/InterviewQuiz.tsx:283-337 | after any sequence of actions the index never exceeds n-1 and the score equals the correct count |
| QuizSession.SubmitCounts | src/components/InterviewQuiz.tsx:285-314 | a refused answer changes nothing (no questions, result shown, advance pending); an accepted one raises exactly one counter, decided by exact equality with the active locale's correct text, and keeps score == correctCount |
| QuizSession.AdvanceRules | src/components/InterviewQuiz.tsx:316-337 | after the advance: a wrong answer in retry mode stays on the question; a right answer or advance-always mode moves to the next question, or shows the result on the last one |
| QuizSession.JumpRules | src/components/InterviewQuiz.tsx:1003-1018 | for 1 <= k <= n the index becomes k-1 and the selection, answer panel and correct mark are cleared, counters kept; any other input (NaN included) changes nothing |
| QuizSession.RestartRules | src/components/InterviewQuiz.tsx:911-921 | restart zeroes score and counters, goes back to question 0, clears the result, the selection flag and the three panels, and keeps the mode and read-aloud setting |
| QuizSession.RestartPreservesInv | src/components/InterviewQuiz.tsx:896-921 | restart from the result screen (result shown, or no questions) leaves a state satisfying the invariant, with no advance pending |
| QuizSession.SelectRules | src/components/InterviewQuiz.tsx:226-233 | selecting a quiz starts a fresh attempt at question 0 of the adapted questions in the chosen language |
| QuizSession.SwapRules | src/components/InterviewQuiz.tsx:483-488 | the swap flips en-US and es-MX, hides the translation, and two swaps restore the language |
| QuizSession.InitialLoad | src/components/InterviewQuiz.tsx:259-280 | nothing is loaded once a quiz is selected or when there is neither file nor non-empty slug; otherwise the given file is adapted or the pinned slug loaded, in the forced, chosen or default es-MX language |
| QuizSession.RestartReadaptsPinnedFile | src/components/InterviewQuiz.tsx:259-280 | on a page with a pinned file, restart makes the initial-load effect adapt that file again |
| QuizSession.TwoQuestionQuiz | src/components/InterviewQuiz.tsx:283-337 | a two-question example state that satisfies the invariant and accepts answers |
| QuizSession.ScenarioAllRight | src/components/InterviewQuiz.tsx:283-337 | two right answers finish the quiz with grade 100 |
| QuizSession.ScenarioWrongThenRight | src/components/InterviewQuiz.tsx:316-337 | in retry mode a wrong answer stays on the question and the right one then moves on |
| QuizSession.DoubleSubmitOverrunsAsWritten | src/components/InterviewQuiz.tsx:283-337 | as written, two quick right answers on the first of two questions count twice and leave the index one past the last question with no result |
| QuizSession.JumpWhilePendingOverrunsAsWritten | src/components/InterviewQuiz.tsx:1003-1018 | as written, a jump to the last question while an advance is pending ends one past the last question |
| QuizSession.SelectWhilePendingOverrunsAsWritten | src/components/InterviewQuiz.tsx:224-233 | as written, a keyboard answer on the selector screen after a restart, then a one-question quiz picked within 700 ms, ends at index 1 of 1 with no result |
| QuizSession.GuardedSessionStaysInRange | src/components/InterviewQuiz.tsx:283-337 | the same inputs through the guarded session (double answer, jump) count once and stay in range |
| QuizSession.GuardedSelectStaysInRange | src/components/InterviewQuiz.tsx:224-233 | selecting a quiz while the keyboard answer's advance is pending, through the guarded session, leaves the new quiz at its first question |
| QuizSession.Session.constructor | src/components/InterviewQuiz.tsx:80-116 | the fields hold the initial state |
| QuizSession.Session.HandleJsonSelection | src/components/InterviewQuiz.tsx:191-234 | the fields become the selection transition of the old state, and the invariant holds |
| QuizSession.Session.ChooseQuiz | src/components/InterviewQuiz.tsx:236-246 | an unknown slug changes nothing; a known one records the slug and selects its file |
| QuizSession.Session.HandleAnswerSelect | src/components/InterviewQuiz.tsx:283-351 | the fields become the guarded submit transition, and the invariant holds |
| QuizSession.Session.AdvanceTimerFires | src/components/InterviewQuiz.tsx:316-337 | the oldest pending advance runs, and the invariant holds |
| QuizSession.Session.JumpTo | src/components/InterviewQuiz.tsx:1003-1018 | the fields become the jump transition, and the invariant holds |
| QuizSession.Session.Restart | src/components/InterviewQuiz.tsx:896-921 | called from the result screen, the fields become the restart transition, and the invariant holds |
| QuizSession.Session.SwapLanguage | src/components/InterviewQuiz.tsx:483-488 | the fields become the language swap, and the invariant holds |
| QuizSession.Session.Toggle | src/components/InterviewQuiz.tsx:816-881 | only the toggled view setting changes |
| RecentQuizzes.Entries | src/components/home/useRecentQuizzes.tsx:19-26 | the shape filter keeps every object with a string id and a number ts, and nothing else |
| RecentQuizzes.EntriesFromItems | src/components/home/useRecentQuizzes.tsx:19-26 | every kept entry comes from a well-shaped item |
| RecentQuizzes.EntriesAppend | src/components/home/useRecentQuizzes.tsx:19-26 | the filter works item by item, in order |
| RecentQuizzes.Decode | src/components/home/useRecentQuizzes.tsx:17-27 | a non-array gives []; an array gives exactly the first min(k, 8) of its k well-shaped entries, in order |
| RecentQuizzes.SafeParse | src/components/home/useRecentQuizzes.tsx:14-31 | no stored text, empty text or a parse failure gives []; otherwise the decoded list; never more than 8 |
| RecentQuizzes.Encode | src/components/home/useRecentQuizzes.tsx:45 | one JSON object per entry, in order |
| RecentQuizzes.EntriesEncode | src/components/home/useRecentQuizzes.tsx:45 | decoding the encoded list gives it back |
| RecentQuizzes.SaveThenLoad | src/components/home/useRecentQuizzes.tsx:14-49 | with a codec whose parse undoes stringify, loading after a save gives the first 8 saved entries back |
| RecentQuizzes.RegisteredIdIsSlug | src/components/home/useRecentQuizzes.tsx:56 | for a registered meta the derived id is its slug |
| RecentQuizzes.MarkedOpened | src/components/home/useRecentQuizzes.tsx:52-64 | the new list has 1 to 8 entries, its head is {id, now}, and the rest are old entries with other ids, so id occurs once |
| RecentQuizzes.MarkOpenedKeepsOthers | src/components/home/useRecentQuizzes.tsx:59-60 | the other entries follow in their old order, truncated to the room left; none is lost when there is room |
| RecentQuizzes.MarkOpenedEvictsOldest | src/components/home/useRecentQuizzes.tsx:59-60 | a full list without the id loses its last (oldest) entry |
| RecentQuizzes.FilterOthersAround | src/components/home/useRecentQuizzes.tsx:59 | filtering out an id that occurs once removes just that entry |
| RecentQuizzes.MarkOpenedMovesToFront | src/components/home/useRecentQuizzes.tsx:59-60 | reopening a listed quiz moves its entry to the front with the new time, the rest unchanged |
| RecentQuizzes.FilterKeepsUniqueIds | src/components/home/useRecentQuizzes.tsx:59 | filtering keeps a duplicate-free list duplicate-free |
| RecentQuizzes.MarkOpenedKeepsUnique | src/components/home/useRecentQuizzes.tsx:59-60 | a duplicate-free list stays duplicate-free |
| RecentQuizzes.LastWithId | src/components/home/useRecentQuizzes.tsx:68-72 | the last meta with a derived id, or -1 when there is none |
| RecentQuizzes.IdMap | src/components/home/useRecentQuizzes.tsx:68-72 | the map holds exactly the derived ids, each bound to the last meta with it |
| RecentQuizzes.IdMapUniqueId | src/components/home/useRecentQuizzes.tsx:68-72 | a meta no later meta shares its id with is the one the map returns |
| RecentQuizzes.LookupAll | src/components/home/useRecentQuizzes.tsx:73-75 | every known recent id gives its meta, unknown ids are dropped, empty exactly when no id is known |
| RecentQuizzes.LookupAllFromRecents | src/components/home/useRecentQuizzes.tsx:73-75 | every listed meta is the meta of some known recent id |
| RecentQuizzes.LookupAllAppend | src/components/home/useRecentQuizzes.tsx:73-75 | the lookup works entry by entry, in recents order |
| RecentQuizzes.Last | src/components/home/useRecentQuizzes.tsx:78 | the head of the list, or none (the source's null) when empty |
| RecentQuizzes.LastIsFirstKnown | src/components/home/useRecentQuizzes.tsx:73-78 | `last` is the meta of the first known recent id |
| RecentQuizzes.OpenedQuizIsLast | src/components/home/useRecentQuizzes.tsx:52-78 | after opening a catalog quiz, `last` is the catalog's meta for its id |
| RecentQuizzes.ReloadAfterMarkOpened | src/components/home/useRecentQuizzes.tsx:14-61 | with a faithful codec, reloading after mark-opened gives the new list back |
| RecentQuizzes.RecentQuizzes.constructor | src/components/home/useRecentQuizzes.tsx:34 | the hook starts with no recents |
| RecentQuizzes.RecentQuizzes.Load | src/components/home/useRecentQuizzes.tsx:37-40 | the list becomes the safe parse of the stored text |
| RecentQuizzes.RecentQuizzes.Save | src/components/home/useRecentQuizzes.tsx:42-49 | the list becomes `next`, and the first 8 of it are stored when storage succeeds; a failure leaves the stored text |
| RecentQuizzes.RecentQuizzes.MarkOpened | src/components/home/useRecentQuizzes.tsx:52-64 | the list becomes the mark-opened list of the derived id, and is saved |
| RecentQuizzes.RecentQuizzes.ClearRecents | src/components/home/useRecentQuizzes.tsx:80 | the list becomes empty and the empty list is saved |
| RecentQuizzes.RecentQuizzes.RecentMetas | src/components/home/useRecentQuizzes.tsx:67-76 | the loop's map is the id map of the catalog, and the result is the lookup of the recents in it |
| HomeCatalog.Subjects | src/components/home/HomeClient.tsx:27-30 | distinct subjects, the first one being the first meta's |
| HomeCatalog.SubjectsMember | src/components/home/HomeClient.tsx:27-30 | a subject is listed iff some meta has it |
| HomeCatalog.SubjectsInFirstAppearanceOrder | src/components/home/HomeClient.tsx:27-30 | subjects are in order of first appearance |
| HomeCatalog.InitialSubject | src/components/home/HomeClient.tsx:32 | the first subject, or "" without metas |
| HomeCatalog.IntLeTotalPreorder | src/components/home/HomeClient.tsx:39 | the numeric comparator is a total preorder |
| HomeCatalog.SubjectUnits | src/components/home/HomeClient.tsx:35-39 | the units of the subject are strictly increasing |
| HomeCatalog.SubjectUnitsMember | src/components/home/HomeClient.tsx:35-39 | a unit is listed iff some meta of the subject has it |
| HomeCatalog.UnitsForSubject | src/components/home/HomeClient.tsx:34-41 | "all" first, then the units, strictly increasing |
| HomeCatalog.UnitsForSubjectMember | src/components/home/HomeClient.tsx:34-41 | a unit is offered iff some meta of the subject has it |
| HomeCatalog.ActiveFiltersCount | src/components/home/HomeClient.tsx:91-97 | between 0 and 3; 0 iff no search text, no unit and no tags; 3 iff all three are set |
| HomeCatalog.AvailableTags | src/components/home/HomeClient.tsx:99-104 | distinct tags, sorted |
| HomeCatalog.AvailableTagsMember | src/components/home/HomeClient.tsx:99-104 | a tag is offered iff some meta of the subject carries it |
| HomeCatalog.StagedIsOneFilter | src/components/home/HomeClient.tsx:107-128 | the four filter stages keep exactly what the single combined predicate keeps, in order |
| HomeCatalog.UnitClassLeTotalPreorder | src/components/home/HomeClient.tsx:130-133 | the (unit, classNo) comparator is a total preorder |
| HomeCatalog.Filtered | src/components/home/HomeClient.tsx:106-136 | the result is a permutation of the metas that pass all filters, sorted by (unit, classNo) |
| HomeCatalog.FilteredMember | src/components/home/HomeClient.tsx:106-136 | a meta is listed iff it is in the catalog and passes all filters |
| HomeCatalog.FilteredNarrows | src/components/home/HomeClient.tsx:107-128 | a listed meta has the subject, the unit unless "all", matches a non-empty query in title, description or joined tags, and shares a selected tag when tags are selected |
| HomeCatalog.NoFiltersListSubject | src/components/home/HomeClient.tsx:107-121 | with no unit, no search and no tags the listing is every meta of the subject |
| HomeCatalog.TotalPages | src/components/home/HomeClient.tsx:138 | at least 1, and the ceiling of count / 9 when there are items |
| HomeCatalog.CurrentPage | src/components/home/HomeClient.tsx:139 | the minimum of the page and the page count |
| HomeCatalog.PageItems | src/components/home/HomeClient.tsx:141-144 | at most 9 items, the slice starting at (page - 1) * 9, empty past the end |
| HomeCatalog.PagesPartitionList | src/components/home/HomeClient.tsx:138-144 | item i appears on page i / 9 + 1 at position i % 9, and that page is a valid page |
| HomeCatalog.NoEmptyPage | src/components/home/HomeClient.tsx:138-144 | every valid page of a non-empty listing has items |
| HomeCatalog.ShownFiltered | src/components/home/HomeClient.tsx:106-144 | the shown items come from the catalog and pass all filters |
| HomeCatalog.OpenedClassLoads | src/components/home/HomeClient.tsx:82-89 | opening a registered class navigates to a slug whose file the registry loads, with that slug |
| HomeCatalog.HomeState.constructor | src/components/home/HomeClient.tsx:32-46 | the first subject, all units, no search, no tags, page 1 |
| HomeCatalog.HomeState.SubjectChange | src/components/home/HomeClient.tsx:53-59 | sets the subject and resets unit to "all", search, tags and page to 1, so no filter is active |
| HomeCatalog.HomeState.UnitChange | src/components/home/HomeClient.tsx:61-64 | sets the unit, resets the page to 1, keeps the rest |
| HomeCatalog.HomeState.SearchChange | src/components/home/HomeClient.tsx:66-69 | sets the search text, resets the page to 1, keeps the rest |
| HomeCatalog.HomeState.TagsChange | src/components/home/HomeClient.tsx:71-74 | sets the tags, resets the page to 1, keeps the rest |
| HomeCatalog.HomeState.ClearFilters | src/components/home/HomeClient.tsx:76-81 | resets unit, search, tags and page, keeps the subject |
| HomeCatalog.HomeState.PageChange | src/components/home/HomeClient.tsx:319 | sets the page and keeps the filters |
| HomeCatalog.HomeState.Shown | src/components/home/HomeClient.tsx:106-144 | at most 9 shown items, each from the catalog and passing the current filters |
| Pagination.Pages | src/components/home/Pagination.tsx:11 | the page list is 1..total in order |
| Pagination.PagesExactly | src/components/home/Pagination.tsx:11 | a page is listed iff 1 <= p <= total, strictly increasing |
| Pagination.GoTo | src/components/home/Pagination.tsx:13-16 | p outside 1..total reports nothing; otherwise exactly p is reported |
| Pagination.ArrowsMatchGoTo | src/components/home/Pagination.tsx:22-49 | prev is disabled iff current is 1 and next iff current is total, matching when `goTo` would ignore them |
| Pagination.ButtonsReportTheirPage | src/components/home/Pagination.tsx:30-34 | the i-th page button reports page i + 1 |
| FilterTags.Toggle | src/components/home/FilterTags.tsx:11-17 | the tag is selected afterwards iff it was not; an absent tag is appended at the end; a present one is removed |
| FilterTags.ToggleKeepsOthers | src/components/home/FilterTags.tsx:11-17 | the other tags keep their order in both cases |
| FilterTags.ToggleTwice | src/components/home/FilterTags.tsx:11-17 | toggling an absent tag twice restores the list |

## Left out

- Speech synthesis, audio effects and fullscreen are browser I/O. Only the voice preference rule is modelled.
- `Math.random`: the variant index and shuffle picks are parameters. The distribution of the random-comparator sort is not modelled; only that its result is a permutation, and that every permutation is possible.
- QuizAdapter.Grade: `Math.round` on a float quotient is modelled as exact round-half-up, floor((200c + t) / (2t)). A float tie could round differently.
- QuizAdapter.ProgressPercent: the same exact rounding stands in for the float one.
- Timers other than the 700 ms advance: the 300 ms answer narration, the keyboard shortcuts and their `Date.now` debounce. The 700 ms advance itself is an explicit step (`AdvanceTimer`) that runs the oldest pending callback.
- Rendering, the explanation-block renderers, the filters summary text and the layout counters are left out. So is `showLogo`.
- The `loadingQuiz` flag of `chooseQuiz` is set and cleared around the load and affects nothing else, so it is not modelled.
- The initial-load effect also records the language it chose (`setSelectedLanguage`). `InitialLoad` returns the load to perform and its language; the record itself is not modelled.
- Bundler discovery (`require.context`) and the dynamic import are not modelled. The (key, file) list is an input.
- Browser storage and the JSON codec are parameters. Stored numbers are integers. A stored entry's other fields are dropped. A storage failure is a boolean passed to `Save`.
- RecentQuizzes.Decode: `JSON.parse` keeps extra fields of stored objects; the model keeps only `id` and `ts`.
- `router.push` is represented by the slug it would navigate to (`OpenSlug`). Console logging is left out.
- `localeCompare` is replaced by lexicographic order on code points (`StrLe`), which is a total order just as the source needs; it differs from the locale's collation, and from UTF-16 code-unit order where characters above U+FFFF meet characters in U+E000-U+FFFF. `toLowerCase` covers ASCII and Latin-1 letters only. `trim` is modelled in full: `IsSpace` is the whole WhiteSpace and LineTerminator set of ECMA-262.
- Registry.SortMetas: stability of the sort is not stated. With one entry per key (the registry's invariant) the order is fully determined, as `SortedCatalogOrder` shows.
- HomeCatalog.Filtered: stability of the sort is not stated. Two listed classes with the same unit and class number (impossible for a registry-built list of one subject) could appear in either order.
- Content files whose shape differs from the declared types (a missing `Options`, `Explanation` or `Question Text` entry) make the source throw. The model's types always carry these fields.
- The keyboard shortcuts other than answering (showing the answer, toggling `responseMode`, the audio keys) are left out. An answer key is a `SubmitAnswer`, like a click; the keyboard handler does not look at which screen is shown. The toolbar toggles are modelled.
- QuizSession.Visible: only necessary conditions of the rendering are stated (quiz cards only while no quiz is selected, restart only when a result is shown or there are no questions). The language screen, `hideQuizSelector`, and the toolbar's and jump form's own screens are not gated, so the model allows more action sequences than the page offers.
- QuizSession.JumpAsWritten: the jump form's `parseInt` of the typed text is not modelled. `JumpAsWritten` and `Jump` take its result as a parameter (`None` for NaN), so "2abc" giving 2 and "1.9" giving 1 happen outside the model.
- QuizSession.Jump: same as `JumpAsWritten`; the parse is a parameter.
- Registry.LoadBySlug: the source's dictionary is a plain object, so `QUIZ_JSON[slug]` also finds inherited property names ("constructor", "toString", "hasOwnProperty") and returns a function instead of null; a content file whose slug is "__proto__" replaces the object's prototype instead of adding an entry. The model's map holds only registered slugs, so for those names it returns none.
- Registry.LookupsAgree: holds for the model's map; in the source it fails for inherited names such as "toString", which `loadQuizJsonBySlug` finds and `getQuizBySlug` does not.
- Registry.Registry.LoadQuizJsonBySlug: the same prototype-key lookups and the "__proto__" slug are not modelled.
- Presentational components, configuration, style constants and the unused static quiz list are not part of this model.
- The home page's `selectedUnit` can also be null in the source's type; `UnitSel.NoUnit` stands for it and counts as no unit filter, as in the source.

## Findings

| source | as written | input that shows it | evidently intended | confidence | as-written member | corrected member |
|---|---|---|---|---|---|---|
| src/components/InterviewQuiz.tsx:283-337 | an answer is accepted while the previous answer's 700 ms advance is pending, and each advance adds one to the index current when it fires | two clicks on the right option of question 1 of 2 within 700 ms: both count and both advances fire, so the index becomes 2 (past the last question) with no result shown, and correctCount is 2 | one answer per question: ignore answers while an advance is pending | not executed | QuizSession.DoubleSubmitOverrunsAsWritten | QuizSession.RunPreservesInv |
| src/components/InterviewQuiz.tsx:1003-1018 | a jump does not cancel a pending advance | a right answer on question 1 of 2, then a jump to question 2 within 700 ms: the advance moves from question 2 to index 2 (past the last question) | a jump cancels the pending advance | not executed | QuizSession.JumpWhilePendingOverrunsAsWritten | QuizSession.RunPreservesInv |
| src/components/InterviewQuiz.tsx:224-233 | selecting a quiz does not cancel a pending advance, and the keyboard handler (356-405) answers the kept first question on the selector screen after a restart | finish a two-question quiz, restart, press "-" (answers question 1 right), then pick a one-question quiz within 700 ms: the old advance, captured with count 2, moves the new quiz to index 1 (past its last question) with no result | selecting a quiz cancels the pending advance (restart needs no cancel: no advance is pending on the result screen) | not executed | QuizSession.SelectWhilePendingOverrunsAsWritten | QuizSession.RunPreservesInv |
