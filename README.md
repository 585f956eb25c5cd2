# uLearn: the automatic-checking queue and the exercise front end, in Dafny

This project models two parts of the uLearn e-learning platform.

The main part is the automatic-checking queue of `UserSolutionsRepo`. A learner's
submission is stored together with an automatic checking record. Checking agents claim
waiting checkings one at a time behind a one-slot semaphore. An agent reports a result,
and the checking is finalised: its verdict, score and output, and the right-answer flag
of every submission that refers to it. Beside the database sits an in-memory rendezvous
of two maps, pending ids and handled ids. The web request that submitted the solution
polls it until its checking is done.

The second part is the code around it that decides what a learner sees:

- the submission colours and review selection of `ExerciseUtils.ts`;
- the exercise page's store mapping;
- the slides reducer;
- the slide's block packing;
- the location parser;
- the course navigation state;
- the user search controller;
- the anti-plagiarism "most similar submissions" repository;
- the hint button;
- the comment list's pagination.

Modules follow the source files:

- `CheckingQueue` (`checking_queue.dfy`): the queue as a class `UserSolutionsRepo`. The submission and checking tables are `map` fields. The rendezvous maps and the semaphore's free count are fields too. Every method that writes the tables keeps the invariant `Valid()`, except `SaveAll`, a helper that upserts whatever it is given; its callers establish `Valid()` afterwards through lemmas. The other methods leave the tables, the id counters and the gate unchanged. The methods that write the tables state their whole new state. The waits give the handled map exactly in `WaitUntilSubmissionHandled`, but `AwaitChecking` and `RunAutomaticChecking` only bound it: entries already there stay, and new keys come only from the arrivals. `Consistent` says ids stay below the identity counters, checkings are stored under their own id, and every submission's flag agrees with its checking. `StatusesAdvance` says statuses only take the steps Waiting→Running→Done and no checking vanishes; it is stated for every public method that changes the checkings. `SaveAll` does not state it, since the checkings it is given may carry any status.
- `SubmissionRecords`: the pure parts of the same file. These are the new records, the code normalisation behind `CodeHash`, `IsRightAnswer` and the finished checking record.
- `ExerciseUtils`, `ExercisePage`, `ReviewInfoModel`, `SlidesReducer`, `Slide`, `GetSlideInfo`, `Course`, `UsersSearch`, `MostSimilar`, `ShowHintButton`, `CommentsList`: one per source file.
- `Wrappers`, `Sets`, `Seqs`, `Strings`, `Query`: the library semantics they rely on. These are Option/Result, `Array.prototype.filter`, a stable sort, the .NET and JavaScript string methods, and a parsed query string.

Time is an integer number of milliseconds and is passed in explicitly. The polling loops
run on an idealised clock: every `Task.Delay` takes its nominal time and all other work
takes none. Calls run one at a time. Other actors reach the waits only through their
parameters: the entries they add to a rendezvous map before each poll, and what each
re-read of a submission finds.

Behaviour of the code that is easy to misread, which the model follows:

- `RunAutomaticChecking`: when the submission disappears while the request waits, the loop breaks. The method then drops the id from the pending map and throws `SubmissionCheckingTimeout`, exactly as on a timeout (UserSolutionsRepo.cs:593-605).
- `WaitUntilSubmissionHandled` returns nothing. The caller cannot tell a handled id from a timeout.
- A claim in `TryGetExerciseSubmission` records only the status (Running) and the agent's name. It records no claim time.
- `SaveResult` finalises the checking whatever its current status. It writes Done even over a checking that is not Running.

## Model

| member | source | states |
|---|---|---|
| CheckingQueue.UserSolutionsRepo.constructor | src/Database.Core/Repos/UserSolutionsRepo.cs:29-31 | starts with empty tables, empty rendezvous maps and a free one-slot gate, and the table invariant holds |
| CheckingQueue.UserSolutionsRepo.AddUserExerciseSubmission | src/Database.Core/Repos/UserSolutionsRepo.cs:43-103 | stores the new submission under the next id. A checking in the requested status is created exactly when the language is checked automatically and is C# or the exercise is universal. The submission refers to that checking. The submission id counter advances by one, and the checking id counter by one exactly when a checking is created. Nothing else changes, and the tables stay consistent |
| CheckingQueue.UserSolutionsRepo.AddChecking | src/Database.Core/Repos/UserSolutionsRepo.cs:76 | the checking is stored under the next checking id, which was free, and the counter advances |
| CheckingQueue.UserSolutionsRepo.AddSubmission | src/Database.Core/Repos/UserSolutionsRepo.cs:98 | the submission is stored under the next submission id, which was free, and the counter advances |
| CheckingQueue.UserSolutionsRepo.TryLike | src/Database.Core/Repos/UserSolutionsRepo.cs:124-151 | an unknown solution fails with no change. Otherwise the user's like is toggled, and the result is the new count (one less or one more) and whether the solution is now liked |
| CheckingQueue.ToggledLikes | src/Database.Core/Repos/UserSolutionsRepo.cs:131-143 | the user is in the new likes iff they were not before, other users are unaffected, and the count moves by one |
| CheckingQueue.ToggleTwice | src/Database.Core/Repos/UserSolutionsRepo.cs:124-151 | liking twice restores the likes |
| CheckingQueue.UserSolutionsRepo.MaxEligibleId | src/Database.Core/Repos/UserSolutionsRepo.cs:367-379 | the result is -1 iff no submission is eligible (younger than 15 minutes, its checking Waiting, its sandbox among the agent's). Otherwise it is an eligible id no smaller than any other |
| CheckingQueue.UserSolutionsRepo.ClaimCandidate | src/Database.Core/Repos/UserSolutionsRepo.cs:390-440 | claims exactly when the gate is taken and the re-read checking is still Waiting. The claim sets Running and the agent's name, and removes the id from the pending map. Otherwise nothing changes. The gate is released on every path |
| CheckingQueue.UserSolutionsRepo.GetUnhandledSubmission | src/Database.Core/Repos/UserSolutionsRepo.cs:350-441 | never throws. It claims iff the gate is taken and some submission is eligible. The claimed id is the largest eligible one, and its checking is now Running under the agent's name. On a claim only that checking's status and agent change, and only the claimed id leaves the pending map; submissions, the handled map and the id counters never change. With no claim nothing changes |
| CheckingQueue.UserSolutionsRepo.UpdateIsRightAnswerForSubmission | src/Database.Core/Repos/UserSolutionsRepo.cs:458-464 | every submission referring to the checking takes its right-answer flag. Every other submission is unchanged |
| CheckingQueue.WithFlag | src/Database.Core/Repos/UserSolutionsRepo.cs:461-463 | only a submission that refers to the checking changes, and only its flag |
| CheckingQueue.Flagged | src/Database.Core/Repos/UserSolutionsRepo.cs:458-464 | the same submission ids, each updated as WithFlag says |
| CheckingQueue.UserSolutionsRepo.SaveAll | src/Database.Core/Repos/UserSolutionsRepo.cs:466-477 | upserts every checking by id, in order, and refreshes the flags of the submissions referring to it. The set of checking ids does not change |
| CheckingQueue.UserSolutionsRepo.SaveResult | src/Database.Core/Repos/UserSolutionsRepo.cs:479-504 | a missing submission returns with no change. A submission without a checking throws a null reference. Saving succeeds iff the finished record can be built. Then the checking is replaced by the finished record, the flags follow it, and the id is recorded as handled unless it already was. On every other path nothing changes |
| CheckingQueue.UserSolutionsRepo.WaitUntilSubmissionHandled | src/Database.Core/Repos/UserSolutionsRepo.cs:636-651 | for every pattern of other actors' results landing in the handled map before each 100 ms poll (an entry already there wins): the wait ends at the first poll that finds the id, after that many polls' time, having removed the id. When no poll within the timeout finds it, the wait takes the first multiple of 100 ms that reaches the timeout. Either way the handled map holds exactly the landed arrivals of the polls made, other entries are kept, and with a positive timeout the id is no longer there. Nothing else changes |
| CheckingQueue.UserSolutionsRepo.AwaitChecking | src/Database.Core/Repos/UserSolutionsRepo.cs:588-601 | for every pattern of arrivals and re-reads: every slice but the last re-read a checking not yet Done, and the last re-read decides how the wait ends (vanished, unresolved checking, or Done). The clock ends it only once the timeout has passed. No slice runs iff the timeout is zero or less. The time stays below the timeout plus one slice |
| CheckingQueue.UserSolutionsRepo.RunAutomaticChecking | src/Database.Core/Repos/UserSolutionsRepo.cs:577-606 | registers the id as pending (an existing entry wins), and without waiting returns at once. For every pattern of arrivals and re-reads: a re-read that finds the checking Done makes it return at that slice, and no earlier slice found it Done. A return after waiting means the last re-read found it Done. A checking that does not resolve throws NullReference. A vanished submission or the timeout drops the pending id and throws SubmissionCheckingTimeout, and a timeout of zero or less does so at once. The time spent stays below the timeout plus one 5-second slice. The tables never change, the handled map keeps other entries, gains only arrivals, and no longer holds the id once a slice ran |
| CheckingQueue.UserSolutionsRepo.ClearHandleDictionary | src/Database.Core/Repos/UserSolutionsRepo.cs:660-667 | an entry is kept iff its time is not before the cutoff, with its value unchanged |
| CheckingQueue.UserSolutionsRepo.ClearHandleDictionaries | src/Database.Core/Repos/UserSolutionsRepo.cs:653-658 | both rendezvous maps lose exactly their entries older than 3 minutes |
| CheckingQueue.UserSolutionsRepo.WaitAnyUnhandledSubmissions | src/Database.Core/Repos/UserSolutionsRepo.cs:620-634 | for every pattern of other requests' registrations landing in the pending map before each 100 ms poll: the first poll within the timeout that finds a pending id cleans both maps at that poll's time and returns after that many polls. When none does, the wait takes the first multiple of 100 ms reaching the timeout, the handled map is unchanged and the pending map holds exactly the landed arrivals |
| CheckingQueue.Polls | src/Database.Core/Repos/UserSolutionsRepo.cs:640-649 | a wait that nothing ends polls the least number of times whose 100 ms delays reach the timeout, and not at all for a timeout of zero or less |
| CheckingQueue.ArrivedKeys | src/Database.Core/Repos/UserSolutionsRepo.cs:499 | arrivals are TryAdds: every entry already in the map is kept with its time, every arrived key is present, and no other key appears |
| CheckingQueue.SightingAt | src/Database.Core/Repos/UserSolutionsRepo.cs:640-645 | a poll finds the id iff it is the first poll that finds it or a later one |
| CheckingQueue.PendingAt | src/Database.Core/Repos/UserSolutionsRepo.cs:623-625 | a poll finds a pending id iff it is the first poll that finds one or a later one |
| CheckingQueue.AgreementExtends | src/Database.Core/Repos/UserSolutionsRepo.cs:76 | adding checkings that leave existing ones alone keeps every submission's flag in agreement |
| CheckingQueue.AddCheckingKeepsConsistent | src/Database.Core/Repos/UserSolutionsRepo.cs:76 | storing a checking under the next id keeps the table invariant |
| CheckingQueue.InsertKeepsConsistent | src/Database.Core/Repos/UserSolutionsRepo.cs:98 | storing an agreeing submission under the next id keeps the table invariant |
| CheckingQueue.FlaggedUnchanged | src/Database.Core/Repos/UserSolutionsRepo.cs:419 | re-saving a checking whose flag every referring submission already carries leaves the submissions unchanged, so a claim touches no submission |
| CheckingQueue.SavedOne | src/Database.Core/Repos/UserSolutionsRepo.cs:492 | saving a one-element list is one upsert and one flag copy |
| CheckingQueue.SaveOneKeepsConsistent | src/Database.Core/Repos/UserSolutionsRepo.cs:466-477 | replacing a stored checking and copying its flag keeps the table invariant |
| CheckingQueue.FlaggedKeepsAgreement | src/Database.Core/Repos/UserSolutionsRepo.cs:458-464 | after the flag copy every submission agrees with the updated checkings |
| SubmissionRecords.LegalStepsCompose | src/Database.Core/Repos/UserSolutionsRepo.cs:416 | the status steps of the queue compose, and a status never goes back |
| SubmissionRecords.StoredCode | src/Database.Core/Repos/UserSolutionsRepo.cs:51-52 | blank code is stored as "// no code", and code that is not blank is stored as given, so the stored code is never blank |
| SubmissionRecords.TrimLines | src/Database.Core/Repos/UserSolutionsRepo.cs:90 | each line is trimmed, and the number of lines is kept |
| SubmissionRecords.NewChecking | src/Database.Core/Repos/UserSolutionsRepo.cs:61-74 | the new checking has the requested id, status and time. It is not a right answer and has no agent. It is a compilation error iff the compilation text is not blank. Course, slide, user, compilation text, output, execution service and display name are copied from the arguments |
| SubmissionRecords.NewSubmission | src/Database.Core/Repos/UserSolutionsRepo.cs:83-96 | the new submission keeps the course, slide, user, language and sandbox, is stamped with the current time, and stores the code as StoredCode says. Its hash text is the normalised stored code, and it has no likes. It refers to the checking iff there is one, and its flag is true iff it has no checking or the checking is right |
| SubmissionRecords.NormalizedCodeIdempotent | src/Database.Core/Repos/UserSolutionsRepo.cs:90 | the text behind CodeHash has no line break and no surrounding white space, and normalising it again changes nothing |
| Strings.SplitJoin | src/Database.Core/Repos/UserSolutionsRepo.cs:90 | joining the pieces of a split on one character with that character gives the text back |
| SubmissionRecords.TrimmedLines | src/Database.Core/Repos/UserSolutionsRepo.cs:90 | the trimmed lines of a text hold no line break and are trimmed |
| SubmissionRecords.ConcatTrimmed | src/Database.Core/Repos/UserSolutionsRepo.cs:90 | a concatenation of trimmed pieces is trimmed |
| SubmissionRecords.ConcatAvoids | src/Database.Core/Repos/UserSolutionsRepo.cs:90 | a concatenation of pieces without a character has none |
| SubmissionRecords.TrimAvoids | src/Database.Core/Repos/UserSolutionsRepo.cs:90 | trimming adds no character |
| SubmissionRecords.NormalizeEoln | src/Database.Core/Repos/UserSolutionsRepo.cs:509 | the result is never longer, and text without carriage returns is unchanged |
| SubmissionRecords.IsRightAnswer | src/Database.Core/Repos/UserSolutionsRepo.cs:548-575 | not Ok, or no exercise block (the sandbox and web runners), is never right. Exit-code exercises are right. Output exercises are right iff the output equals the normalised expected output. Points exercises are right iff points are present and pass the bar within 0.00001 in the block's direction. An unknown type fails |
| SubmissionRecords.FinishedChecking | src/Database.Core/Repos/UserSolutionsRepo.cs:506-546 | fails iff the slide is missing (except for the web runner) or the type is unknown. Otherwise the record is Done and keeps the identity, owner, time, service and agent. It takes the verdict's compilation flag, the normalised output, the points and the elapsed time. Its right-answer flag is exactly IsRightAnswer's verdict on the normalised output, and a right answer needs an Ok verdict and a real slide. A non-zero score needs a right answer on a slide that is not skipped, and then equals the slide's passed-tests score |
| SubmissionRecords.FinishedCheckingIdempotent | src/Database.Core/Repos/UserSolutionsRepo.cs:506-546 | finishing an already finished record with the same report and time gives the same record |
| ExerciseUtils.GetSubmissionColor | src/Frontend/src/components/course/Course/Slide/Blocks/Exercise/ExerciseUtils.ts:22-50 | WrongAnswer iff the run failed. Otherwise an ignored run needs improvements, and a skipped slide gives MaxResult for the last submission and Message otherwise. For the last success, NeedImprovements iff the score is not maximal and manual checking is allowed, and never Message. For any other submission, NeedImprovements iff it is also the last one under the same conditions, and never MaxResult |
| ExerciseUtils.ColorIgnoresHasSuccess | src/Frontend/src/components/course/Course/Slide/Blocks/Exercise/ExerciseUtils.ts:22-50 | the colour does not depend on whether the learner has a successful solution |
| ExerciseUtils.NoImprovementAtMaxScore | src/Frontend/src/components/course/Course/Slide/Blocks/Exercise/ExerciseUtils.ts:36-49 | at maximal score or with manual checking prohibited, only an ignored run is coloured NeedImprovements |
| ExerciseUtils.SubmissionIsLast | src/Frontend/src/components/course/Course/Slide/Blocks/Exercise/ExerciseUtils.ts:60-62 | true iff the submission is the head of the list |
| ExerciseUtils.GetLastSuccessSubmission | src/Frontend/src/components/course/Course/Slide/Blocks/Exercise/ExerciseUtils.ts:64-70 | none iff no submission is successful. Otherwise the first successful submission of the newest-first list |
| ExerciseUtils.HasSuccessIffLastSuccess | src/Frontend/src/components/course/Course/Slide/Blocks/Exercise/ExerciseUtils.ts:56-70 | hasSuccessSubmission holds iff getLastSuccessSubmission finds one |
| ExerciseUtils.IsFirstRightAnswer | src/Frontend/src/components/course/Course/Slide/Blocks/Exercise/ExerciseUtils.ts:72-75 | true iff the submission is successful and no later submission of the list is |
| ExerciseUtils.FirstRightAnswerAt | src/Frontend/src/components/course/Course/Slide/Blocks/Exercise/ExerciseUtils.ts:72-75 | the last element of the filtered successes is exactly a success after which no submission succeeds |
| ExerciseUtils.IsSubmissionShouldBeEditable | src/Frontend/src/components/course/Course/Slide/Blocks/Exercise/ExerciseUtils.ts:77-79 | editable without a checking, and otherwise iff the result is neither RightAnswer nor NotChecked |
| ExerciseUtils.GetReviewsWithoutDeleted | src/Frontend/src/components/course/Course/Slide/Blocks/Exercise/ExerciseUtils.ts:80-82 | the same reviews with everything but their comments unchanged. A comment is kept iff it is neither deleted nor loading. Every shown comment keeps all its occurrences, no other comment remains, and the kept comments stay in their order |
| Seqs.FilterCounts | src/Frontend/src/components/course/Course/Slide/Blocks/Exercise/ExerciseUtils.ts:81 | a filter keeps every occurrence of an element satisfying the predicate and no occurrence of any other |
| Seqs.FilterSubsequence | src/Frontend/src/components/course/Course/Slide/Blocks/Exercise/ExerciseUtils.ts:81 | a filter keeps the input's order |
| ExerciseUtils.GetAllReviewsFromSubmission | src/Frontend/src/components/course/Course/Slide/Blocks/Exercise/ExerciseUtils.ts:85-93 | no submission, no reviews. Otherwise the manual reviews followed by the automatic ones, each missing list counting as empty |
| ExerciseUtils.ReviewsUnderCursor | src/Frontend/src/components/course/Course/Slide/Blocks/Exercise/ExerciseUtils.ts:142-146 | a review is kept iff its range covers the cursor |
| ExerciseUtils.FirstMinimal | src/Frontend/src/components/course/Course/Slide/Blocks/Exercise/ExerciseUtils.ts:152-167 | a review of the list that no review precedes in the sort order |
| ExerciseUtils.GetSelectedReviewIdByCursor | src/Frontend/src/components/course/Course/Slide/Blocks/Exercise/ExerciseUtils.ts:136-168 | -1 when no review covers the cursor. Otherwise the id of a covering review that no covering review precedes (shorter selection, then earlier line, then earlier position) |
| ExerciseUtils.IsAcceptedSolutionsWillNotDiscardScore | src/Frontend/src/components/course/Course/Slide/Blocks/Exercise/ExerciseUtils.ts:265-267 | true iff the slide is skipped or some submission is a right answer |
| ExercisePage.KeptSubmissions | src/Frontend/src/components/course/Course/Slide/Blocks/Exercise/Exercise.page.tsx:20-23 | the last submission is always kept (and stays last), and an earlier one is kept iff it is successful. The result is a sub-multiset |
| ExercisePage.ShownSubmissions | src/Frontend/src/components/course/Course/Slide/Blocks/Exercise/Exercise.page.tsx:20-26 | the kept submissions, a permutation of them, newest first |
| ExercisePage.LastIsShown | src/Frontend/src/components/course/Course/Slide/Blocks/Exercise/Exercise.page.tsx:20-26 | the last submission of the store is always shown |
| ExercisePage.ShownIffSuccessful | src/Frontend/src/components/course/Course/Slide/Blocks/Exercise/Exercise.page.tsx:20-26 | any other submission is shown iff it is successful |
| ExercisePage.LastCheckingResponse | src/Frontend/src/components/course/Course/Slide/Blocks/Exercise/Exercise.page.tsx:32 | the stored response is passed on iff it is for this course and slide |
| ExercisePage.SlideProgressOf | src/Frontend/src/components/course/Course/Slide/Blocks/Exercise/Exercise.page.tsx:18 | the slide's progress when the store has it, otherwise the empty progress |
| ExercisePage.MapStateToProps | src/Frontend/src/components/course/Course/Slide/Blocks/Exercise/Exercise.page.tsx:15-37 | fails iff the store has no submissions for the course and slide. Otherwise it gives the shown submissions, the matching response and the slide's progress |
| ReviewInfoModel.Build | src/Web.Api/Models/Responses/Exercise/ReviewInfo.cs:41-57 | no author iff the review is the bot's. No time iff it is the bot's or not after the epoch. The text and range are copied. The comments are a permutation of the given ones ordered by time, a missing list being empty |
| SlidesReducer.IndexByIdHoldsLast | src/Frontend/src/redux/slides.js:35-39 | the index holds exactly the submissions' ids, each mapped to the last submission with that id |
| SlidesReducer.IndexSubmissions | src/Frontend/src/redux/slides.js:35-39 | the loop builds the index |
| SlidesReducer.FindBlock | src/Frontend/src/redux/slides.js:32 | the first block of the exercise type, or none when there is none |
| SlidesReducer.Nested | src/Frontend/src/redux/slides.js:43-58 | the nested spread sets the one inner entry and leaves every other entry, inner and outer, as it was |
| SlidesReducer.Reduce | src/Frontend/src/redux/slides.js:14-72 | START sets loading and clears the error. FAIL clears loading and records the error. Other actions keep the state. SUCCESS fails (a TypeError) iff the exercise block has no submission list. Otherwise it stores the slide with that block's submissions cleared and the indexed submissions under the course and slide, and clears loading and error |
| SlidesReducer.SuccessKeepsOtherSlides | src/Frontend/src/redux/slides.js:52-58 | loading one slide leaves every other stored slide as it was |
| SlidesReducer.SuccessKeepsOtherSubmissions | src/Frontend/src/redux/slides.js:43-49 | loading one slide leaves the submissions stored for every other slide as they were |
| SlidesReducer.LoadedSlideIsStored | src/Frontend/src/redux/slides.js:41-58 | the loaded slide is stored with its blocks in order, and its exercise block carries no submissions |
| Slide.ComponentOf | src/Frontend/src/components/course/Course/Slide/Slide.js:14-30 | a component exists iff the type is one of the six block types |
| Slide.MapElementToBlock | src/Frontend/src/components/course/Course/Slide/Slide.js:125-134 | full size iff the lower-cased type is video. Hidden iff hide is given and true. The component is found by the lower-cased type, and the other props are copied |
| Slide.MapElementIgnoresCase | src/Frontend/src/components/course/Course/Slide/Slide.js:125-134 | elements that differ only in the case of their type give the same block |
| Slide.TexContentAppend | src/Frontend/src/components/course/Course/Slide/Slide.js:105-107 | the content of concatenated lines is the concatenation of their contents |
| Slide.TexContentInOrder | src/Frontend/src/components/course/Course/Slide/Slide.js:105-107 | the content starts with the first line's paragraph |
| Slide.FirstVideoIndex | src/Frontend/src/components/course/Course/Slide/Slide.js:89-91 | the first element whose type is video, or none |
| Slide.AdditionalPropsSet | src/Frontend/src/components/course/Course/Slide/Slide.js:87-103 | the first video autoplays when the query asks for it. A video that is the only element opens its annotation. Every tex element gets the paragraphs of its lines as content, and every other element keeps its content. Every element keeps its type, hide flag and lines, and the number of elements is kept |
| Slide.AutoplayOnlyOnFirstVideo | src/Frontend/src/components/course/Course/Slide/Slide.js:91-94 | autoplay changes only on the first video, and only when the query asks for it |
| Slide.AnnotationOnlyForSoleVideo | src/Frontend/src/components/course/Course/Slide/Slide.js:96-98 | the annotation is opened only when the slide is a single video |
| Slide.AddAdditionalPropsToBlocks | src/Frontend/src/components/course/Course/Slide/Slide.js:87-103 | the array afterwards holds exactly the elements with the extra props applied |
| Slide.BlocksAt | src/Frontend/src/components/course/Course/Slide/Slide.js:110-116 | each element mapped to its block, in order |
| Slide.FlattenPush | src/Frontend/src/components/course/Course/Slide/Slide.js:72 | pushing a pack appends its blocks |
| Slide.MaximalPush | src/Frontend/src/components/course/Course/Slide/Slide.js:72 | pushing a pack that starts with another kind keeps the packs maximal |
| Slide.GetBlocksPack | src/Frontend/src/components/course/Course/Slide/Slide.js:109-123 | a non-empty pack of one kind, carrying its first block's flags. It holds the blocks from i on, in order, and ends at the end or before a block of another kind |
| Slide.PackSlideBlocks | src/Frontend/src/components/course/Course/Slide/Slide.js:66-73 | every pack is a pack, the packs hold all blocks in order, and neighbouring packs differ in kind |
| Slide.RenderSlideBlocks | src/Frontend/src/components/course/Course/Slide/Slide.js:64-85 | adds the extra props in place, then packs the resulting blocks as PackSlideBlocks does |
| GetSlideInfo.GetSlideInfo | src/Frontend/src/utils/getSlideInfo.js:5-41 | null iff the lower-cased path is outside the course route. isReview iff the review key is present. isAcceptedSolutions iff the last path segment, lower-cased, is that route. With a slide id in the query, the id is taken from it and the alert and LTI flags come from the action segment. Without it, the flags are false and the id is the last underscore-separated piece of the last path segment, a suffix of the path holding no underscore or slash |
| GetSlideInfo.SlideIdFromSlug | src/Frontend/src/utils/getSlideInfo.js:26-29 | for an address `<course directory>/<slug>_<id>` the slide id is the id |
| GetSlideInfo.SlugSegments | src/Frontend/src/utils/getSlideInfo.js:16 | the last segment of such an address is `<slug>_<id>`, and its last piece is the id |
| GetSlideInfo.ToLowerPrefix | src/Frontend/src/utils/getSlideInfo.js:7-9 | lower-casing keeps a matching prefix |
| Strings.LastPiece | src/Frontend/src/utils/getSlideInfo.js:16 | the suffix after the last separator, which holds no separator |
| Strings.LastPieceAfter | src/Frontend/src/utils/getSlideInfo.js:28 | the last piece of `init + sep + last` is `last` when `last` holds no separator |
| Course.ContainsSlug | src/Frontend/src/components/course/Course/Course.js:111-115 | true iff some slide of the unit has the slug |
| Course.FirstUnitWith | src/Frontend/src/components/course/Course/Course.js:107-118 | none iff no unit contains the slide. Otherwise the id of the first unit that does |
| Course.FindActiveUnit | src/Frontend/src/components/course/Course/Course.js:102-119 | none without course info or units. Otherwise the first unit containing the slide |
| Course.ActiveUnitIgnoresLaterUnits | src/Frontend/src/components/course/Course/Course.js:102-119 | units appended after the one found do not change the answer |
| Course.DerivedHighlightedUnit | src/Frontend/src/components/course/Course/Course.js:32-40 | the state changes iff no unit is highlighted and course info is present, and then to the active unit |
| Course.HighlightIsSticky | src/Frontend/src/components/course/Course/Course.js:32-40 | a highlighted unit is never replaced by new props |
| Course.CourseComponent.constructor | src/Frontend/src/components/course/Course/Course.js:10-18 | on course navigation, no open unit, and the active unit highlighted |
| Course.CourseComponent.ReceiveProps | src/Frontend/src/components/course/Course/Course.js:32-40 | the highlighted unit follows DerivedHighlightedUnit, and the rest is unchanged |
| Course.CourseComponent.UnitClickHandle | src/Frontend/src/components/course/Course/Course.js:121-128 | opens the clicked unit and leaves course navigation |
| Course.CourseComponent.ReturnInUnitsMenu | src/Frontend/src/components/course/Course/Course.js:130-135 | closes the unit and returns to course navigation |
| UsersSearch.Words | src/Web.Api/Controllers/Users/UsersSearchController.cs:36-38 | no query gives no words. Otherwise one word more than there are spaces and tabs, and no word holds either |
| UsersSearch.Validate | src/Web.Api/Controllers/Users/UsersSearchController.cs:36-66 | succeeds iff there are at most 10 words and every rule holds. With a course, the course role must be present, not Student, and the caller an instructor. Without a course, a course role or an LMS role needs a system administrator. Success gives the words. Bad request iff there are too many words or the course role is missing or Student |
| UsersSearch.AdministratorIsAuthorized | src/Web.Api/Controllers/Users/UsersSearchController.cs:43-66 | a system administrator who may see the course is never refused as unauthorized |
| UsersSearch.FirstIndexOf | src/Web.Api/Controllers/Users/UsersSearchController.cs:84 | the first entry with the user id, or none |
| UsersSearch.FieldsForMembers | src/Web.Api/Controllers/Users/UsersSearchController.cs:79-89 | a field is matched for a user iff one of the user's entries matched it |
| UsersSearch.MergeUsers | src/Web.Api/Controllers/Users/UsersSearchController.cs:79-89 | the strict matches in order, each first entry's fields extended by the non-strict matches of that user. Then the non-strict matches of other users, in order |
| UsersSearch.MergeStep | src/Web.Api/Controllers/Users/UsersSearchController.cs:82-89 | one loop step extends the first strict entry of the user, or appends the user when there is none |
| UsersSearch.MergedUserFields | src/Web.Api/Controllers/Users/UsersSearchController.cs:79-89 | a merged user's fields are its own plus those of its non-strict entries |
| UsersSearch.NoDuplicateOfStrict | src/Web.Api/Controllers/Users/UsersSearchController.cs:84-88 | an appended user is not among the strict matches |
| UsersSearch.Response | src/Web.Api/Controllers/Users/UsersSearchController.cs:90-97 | the login is disclosed iff the login matched, and the email iff the email matched |
| UsersSearch.Search | src/Web.Api/Controllers/Users/UsersSearchController.cs:34-98 | fails iff validation fails, with its error. Otherwise the responses of the merged users, in order |
| MostSimilar.IndexOf | src/AntiPlagiarism.Web/Database/Repos/MostSimilarSubmissionsRepo.cs:33 | a row with the submission id, or none when there is none |
| MostSimilar.UpsertSpec | src/AntiPlagiarism.Web/Database/Repos/MostSimilarSubmissionsRepo.cs:29-37 | after the upsert the submission ids stay unique and the saved row is the only one with its id. Rows of other submissions are kept, and no other row is added |
| MostSimilar.MostSimilarSubmissionsRepo.constructor | src/AntiPlagiarism.Web/Database/Repos/MostSimilarSubmissionsRepo.cs:29-37 | the table starts empty |
| MostSimilar.MostSimilarSubmissionsRepo.SaveMostSimilarSubmission | src/AntiPlagiarism.Web/Database/Repos/MostSimilarSubmissionsRepo.cs:29-37 | the table becomes the upsert of the row, keeping submission ids unique |
| MostSimilar.Selected | src/AntiPlagiarism.Web/Database/Repos/MostSimilarSubmissionsRepo.cs:42-49 | exactly the projections of the rows whose submission belongs to the client and task |
| MostSimilar.Authors | src/AntiPlagiarism.Web/Database/Repos/MostSimilarSubmissionsRepo.cs:53 | the distinct authors of the selection |
| MostSimilar.AuthorsInFirstAppearanceOrder | src/AntiPlagiarism.Web/Database/Repos/MostSimilarSubmissionsRepo.cs:53 | the group keys come in order of first appearance: before any row of a later author there is a row of every earlier one |
| MostSimilar.Heaviest | src/AntiPlagiarism.Web/Database/Repos/MostSimilarSubmissionsRepo.cs:56 | none iff the author has no row. Otherwise one of the author's rows with the greatest weight |
| MostSimilar.GetMostSimilarSubmissionsByTask | src/AntiPlagiarism.Web/Database/Repos/MostSimilarSubmissionsRepo.cs:39-64 | one entry per distinct author |
| MostSimilar.ByTaskIsHeaviestPerAuthor | src/AntiPlagiarism.Web/Database/Repos/MostSimilarSubmissionsRepo.cs:53-62 | each entry is a selected row of its author, and no row of that author weighs more |
| ShowHintButton.PressesRevealHints | src/Frontend/src/components/course/Course/Slide/Blocks/Exercise/Controls/ShowHintButton.tsx:89-95 | k presses show min(count + k, hints) hints |
| ShowHintButton.AllHintsAfterEnoughPresses | src/Frontend/src/components/course/Course/Slide/Blocks/Exercise/Controls/ShowHintButton.tsx:25-26 | starting from one hint, one press fewer than the number of hints shows them all |
| ShowHintButton.HintButton.constructor | src/Frontend/src/components/course/Course/Slide/Blocks/Exercise/Controls/ShowHintButton.tsx:25-26 | one hint shown and the tooltip closed |
| ShowHintButton.HintButton.RenderHints | src/Frontend/src/components/course/Course/Slide/Blocks/Exercise/Controls/ShowHintButton.tsx:61-87 | a prefix of the hints, as many as are shown when there are any |
| ShowHintButton.HintButton.NoHintsLeftIffAllRendered | src/Frontend/src/components/course/Course/Slide/Blocks/Exercise/Controls/ShowHintButton.tsx:62-67 | no hints are left iff all hints are rendered |
| ShowHintButton.HintButton.ShowTooltip | src/Frontend/src/components/course/Course/Slide/Blocks/Exercise/Controls/ShowHintButton.tsx:50-55 | opens the tooltip and reports "all shown" iff the count has reached the hints |
| ShowHintButton.HintButton.CloseTooltip | src/Frontend/src/components/course/Course/Slide/Blocks/Exercise/Controls/ShowHintButton.tsx:57-59 | closes the tooltip and keeps the count |
| ShowHintButton.HintButton.ShowHint | src/Frontend/src/components/course/Course/Slide/Blocks/Exercise/Controls/ShowHintButton.tsx:89-95 | shows one hint more, up to the number of hints. It reports "all shown" iff the next count reaches the hints, and then no hints are left |
| CommentsList.SomeReply | src/Frontend/src/components/comments/CommentsList/CommentsList.tsx:296 | true iff some reply has the id |
| CommentsList.IsInList | src/Frontend/src/components/comments/CommentsList/CommentsList.tsx:293-299 | the guard of updateComment: true iff a comment or one of its replies has the id |
| CommentsList.CommentsListComponent.constructor | src/Frontend/src/components/comments/CommentsList/CommentsList.tsx:99-119 | renders min(15, all comments) at first, not sending and without animation |
| CommentsList.CommentsListComponent.ReceiveComments | src/Frontend/src/components/comments/CommentsList/CommentsList.tsx:141 | new props change the comment count only |
| CommentsList.CommentsListComponent.RenderPackOfComments | src/Frontend/src/components/comments/CommentsList/CommentsList.tsx:136-143 | renders min(rendered + pack, all) and never more than all |
| CommentsList.CommentsListComponent.HandleScrollToBottom | src/Frontend/src/components/comments/CommentsList/CommentsList.tsx:151-162 | near the bottom with comments left, renders 15 more (up to all), and otherwise nothing changes. The count never decreases |
| CommentsList.CommentsListComponent.HandleScrollToCommentByHash | src/Frontend/src/components/comments/CommentsList/CommentsList.tsx:164-179 | a linked comment beyond the rendered ones is rendered, with 5 more after it (up to all). A linked comment on another tab switches the tab once. Otherwise nothing changes |
| CommentsList.CommentsListComponent.HandleAddComment | src/Frontend/src/components/comments/CommentsList/CommentsList.tsx:301-323 | a comment added renders one more. Either way sending ends and the animation is on |

## Left out

- Concurrency: several web servers and agents share the database and the static maps. The model runs one call at a time on an idealised clock. The semaphore wait of `TryGetExerciseSubmission` is the parameter `gate` (timed out, taken, taken and then faulted). Races between the claim query and the gate are modelled only as far as the re-read checking may no longer be Waiting.
- WaitUntilSubmissionHandled: other actors only add entries to the handled map, and only just before a poll. Entries they remove meanwhile (another request for the same id, a cleanup) are not modelled.
- WaitAnyUnhandledSubmissions: other requests only add pending ids, just before a poll. Pending ids claimed by another agent during the wait are not modelled.
- RunAutomaticChecking: what other actors do is the arrivals and re-reads passed in. Their changes to the tables take effect only through the re-read results. Once the given re-reads run out, a re-read finds the tables as they are, and the method itself never writes them.
- The text store (`ITextsRepo`) is not part of this model: texts are stored in place of their hashes. `CodeHash` is the normalised code text, not its `GetHashCode`, so hash collisions are not modelled.
- The course manager and the visits repository are parameters. They are the catalog of exercise slides and the set of skipped (course, slide, user) triples. `Language.HasAutomaticChecking` is the set `autoCheckedLanguages`, and the universal exercise test is the flag `isUniversalExercise`.
- The other queries of `UserSolutionsRepo` (solutions listings, `GetBestTrendingAndNewAndOldSolutions`, `RemoveSubmission`, `FindNoTrackingSubmission`, `GetSolutionsForSubmissions`) are left out. They read or delete data and play no part in the queue.
- `Like` retries `TryLike` up to three times on a database failure. The model has no database failures, so `Like` is `TryLike`.
- `SaveResult`'s `onSave` callback and the transaction commit are left out. In the model a thrown failure changes nothing, as the rolled-back transaction does.
- `RunningResults.GetOutput` and `NormalizeEoln` are not part of this model. The output is taken as given. `NormalizeEoln` is modelled as replacing every "\r\n" with "\n".
- Floating point: points, weights and passing points are `real`. `float` rounding in the eps comparison and in `weight` is not modelled.
- Logging is left out.
- `ExerciseUtils.ts` CodeMirror helpers (`getReviewAnchorTop`, markers, line and position arithmetic of the editor) and the plural and text helpers are rendering code and are left out. The selection length of a review in the editor is the parameter `selectionLength`.
- ExerciseUtils.SubmissionIsLast: JavaScript `===` on submission objects compares references, while the model compares values. The two agree as long as no two submissions of a list are equal in every field, which holds because every submission has its own id.
- ExerciseUtils.IsFirstRightAnswer: compares submissions by value where `===` compares references; as for `SubmissionIsLast`, the unique submission ids make the two agree.
- ExerciseUtils.GetSelectedReviewIdByCursor: the comparator's last tie-break compares adding times, with `Math.random()` standing in for a missing time. The model leaves that tie-break unspecified: it returns some covering review that no other precedes in length, start line and start position. Which of several tied reviews the sort's stability picks is not stated.
- ExercisePage: the store keys submissions by their integer ids, and `Object.values` lists integer keys in ascending order. The input is therefore the slide's submissions in ascending submission-id order, and the last of them is the one with the largest id. The `Array.prototype.sort` tie order of equal timestamps is not stated. `isAuthenticated`, `user`, `submissionError` and `deviceType` are copied from the store and are left out.
- ReviewInfoModel.Build: `BuildShortUserInfo` and `ReviewCommentResponse.Build` are not part of this model. Authors and comments are carried as they are, and `OrderBy`'s stability is not stated.
- SlidesReducer: blocks are reduced to their type and their submission list. Submission ids are integer keys of a map; the order in which a JavaScript object lists them (ascending, for integer keys) is what ExercisePage relies on. Reading `submissions` of an exercise block that has none throws a TypeError; the model's `None` is that error. The exercise block's type name is the parameter `exerciseType`, because `blockTypes` is not part of this model.
- Slide: the React rendering (`BlocksWrapper`, video and code components, `isBLock`) is left out. The components are named by an enumeration. `hide` is either a boolean or absent. `autoplay` is the parsed query of the current location, passed in.
- GetSlideInfo: the route constants of `src/consts/routes` are the parameter `routes`. `query-string` parsing is the map `Query` (one value per key, `None` for a key without value). Repeated keys, which parse to arrays, are left out. `isLti` in the query branch is a truth value; the source passes the raw query value on. `toLowerCase` is modelled on ASCII letters only.
- Course: rendering and the navigation props are left out. `findActiveUnit` takes every unit to have its slide list. The unit map of `unitClickHandle` is a parameter.
- UsersSearch: the user search itself, the course and role lookups, and the instructor check are parameters: the strict and non-strict matches, `isSystemAdministrator` and `isInstructor`. The found users are values, so the source's mutation of a shared user object is modelled as an update of the merged entry. `BuildShortUserInfo` is not part of this model; disclosure is modelled as the two flags.
- MostSimilar: `AddOrUpdate` and `MaxBy` are not part of this model. The upsert replaces the row with the same submission id. The table keeps submission ids unique, as its key does. `MaxBy` is taken to return the first row of greatest weight. `Where` is taken to return rows in table order. The foreign keys of the rows are a precondition of the query, as the database guarantees them.
- ShowHintButton: the `renderedHints` prop is fixed for the life of a component. `onAllHintsShowed` is a counter of its calls. The JSX is left out.
- CommentsList: `countAllComments`, `findIndexOfComment`, `parseCommentIdFromHash` and `isSlideContainsComment` are parameters, and so are the DOM measurements of `handleScrollToBottom`. The API calls of `handleAddComment` and `updateComment` are left out; the outcome of `addComment` is the flag `added`. Sending, editing, replies, likes and moderation are left out. A stale `commentsToRender` in `handleAddComment` behaves the same when calls run one at a time.
