# Training progress, quizzes and HR helpers — a Dafny model

This project models the computational core of an HR and training platform.
A Django backend stores formations (trainings made of modules, resources and
an optional quiz), each user's progress through them, and teams. A React
frontend shows the catalogue, the training pages, the quiz and the manager
screens. The model covers:

- **Backend progress and access** (`FormationModels`, `FormationSignals`,
  `FormationSerializers`, `FormationSync`, `PersonnePermissions`):
  - the role-or-team access rule for confidential resources;
  - the keyword check of free-text answers;
  - the progress aggregation of `UserFormation.update_progress`, which
    counts an overview item, the modules, the resources and the quiz, and
    truncates;
  - the signal handlers that fan a saved per-user record out to every
    formation containing the item;
  - the derived views of the serializers: the `HH:MM:SS` duration, the two
    `tabsCompleted` shapes and the score percentage;
  - quiz-answer validation and the one-team-per-user rule of team updates;
  - the set arithmetic that keeps a formation's resources and quiz questions
    in sync with submitted data;
  - the two role permissions.
- **Frontend progress and quiz engines** (`Trainings`, `UseTrainingProgress`,
  `QuizTab`, `QuizList`, `TrainingList`, `TrainingDetail`):
  - the tab-based progress of the in-memory catalogue;
  - the item-based progress hook with its actions;
  - the quiz state machine and its pass threshold;
  - the simple quiz page;
  - the catalogue's status, filter and statistics;
  - the tab navigation of the training page.
- **Manager screens and small helpers**:
  - progress filters and the training form (`TrainingProgress`,
    `TrainingForm`);
  - org-chart flattening (`Hierarchie`);
  - team membership (`EquipeForm`) and the filter dropdown (`FilterDropdown`);
  - the duration formatters (`Formatters`, `TrainingCard`, `TrainingTable`,
    `OverviewTab`);
  - the resource preview (`ResourcePreview`);
  - the profile page (`Profile`), the competence radar (`RadarCompetence`)
    and the project form (`ProjetForm`);
  - user initials (`Navbar`) and the route guard (`ProtectedRoute`);
  - the local progress store (`ProgressStore`).

Objects whose fields the source updates in place are classes with
`modifies` frames:
- `UserFormation` and `Resource`;
- the signal hub with its list of deferred callbacks;
- the team store and the formation catalogue;
- the quiz store and the quiz sessions;
- the progress hook's state and the detail page;
- the training store and the local storage.

Pure code is datatypes and functions. Loops in the source are methods with
loop invariants, proved against specification functions. `Text` and
`JsMath` hold the shared string and number semantics of the two languages:
- ASCII case mapping, substring search, `split`/`join` and decimal digits;
- JavaScript `parseInt`/`Number` on integer text;
- `Math.round` of a quotient and the truncating `%`.

Numbers are exact integers; where the source uses floating point the model
uses the exact rational value (see below). I/O is a parameter or is left
out: the database, HTTP calls, `localStorage` serialisation, clocks and
timers.

## Model

| member | source | states |
|---|---|---|
| FormationModels.AllowedTeamListsUser | backend/formation/models.py:71 | true exactly when some listed team is in the allowlist and has the user among its assigned users |
| FormationModels.Resource.constructor | backend/formation/models.py:43-46 | a new resource is unsaved (primary key 0) and holds the given name, confidentiality flag and allowlist |
| FormationModels.Resource.UserHasAccess | backend/formation/models.py:59-71 | a non-confidential resource is open to everyone; a confidential one is open to `TL1`/`TL2` without a team check, and otherwise exactly to users assigned to an allowed team (also line 4) |
| FormationModels.Resource.Clean | backend/formation/models.py:51-57 | a saved non-confidential resource ends with an empty allowlist; an unsaved or confidential one is unchanged; the other fields and every access decision stay the same |
| FormationModels.AllKeywordsIn | backend/formation/models.py:128 | true exactly when every keyword, lower-cased, is a substring of the answer |
| FormationModels.CheckAnswer | backend/formation/models.py:115-128 | false for every type other than `image_text` and for an empty answer; otherwise true exactly when every lower-cased keyword occurs in the lower-cased answer |
| FormationModels.LowerIdempotent | backend/formation/models.py:127-128 | lower-casing twice is lower-casing once |
| FormationModels.CheckAnswerIgnoresCase | backend/formation/models.py:127-128 | the answer's letter case never changes the verdict |
| FormationModels.NoKeywordsAcceptsAnyText | backend/formation/models.py:124-128 | an `image_text` question without keywords accepts every non-empty answer |
| FormationModels.CountDone | backend/formation/models.py:179-189 | the count of flagged rows never exceeds the number of rows |
| FormationModels.CountQuizDone | backend/formation/models.py:193-197 | the count of completed quiz rows never exceeds the number of rows |
| FormationModels.DoneItems | backend/formation/models.py:179-189 | the items done are among the formation's items |
| FormationModels.DoneItemsMembers | backend/formation/models.py:179-189 | an item is done exactly when it belongs to the formation and the user has a flagged row for it |
| FormationModels.CountDoneDistinct | backend/formation/models.py:224-238 | with at most one row per (user, item), the count equals the number of distinct items done (also lines 179-189) |
| FormationModels.SubsetCard | backend/formation/models.py:179-189 | a subset is no larger than its superset, and equal size means equal sets (used for the "all done" reading) |
| FormationModels.CountDoneBounds | backend/formation/models.py:179-189 | with unique rows the count is at most the number of items, and reaches it exactly when every item is done |
| FormationModels.CountQuizDoneBounds | backend/formation/models.py:191-197 | with unique quiz rows the quiz term is 0 or 1, and 1 exactly when a completed row exists (also lines 240-244) |
| FormationModels.ForeignRowIgnored | backend/formation/models.py:179-189 | a row for an item outside the formation never changes the count |
| FormationModels.TotalItems | backend/formation/models.py:160-172 | the total is one overview item plus modules, resources and the quiz, so it is at least 1 and the `total_items == 0` branch cannot be taken |
| FormationModels.UserFormation.constructor | backend/formation/models.py:145-149 | a new record has progress 0, status `nouvelle` and no completed steps |
| FormationModels.UserFormation.UpdateProgress | backend/formation/models.py:154-222 | the stored progress is the truncated percentage of completed items, the status is derived from it, and the completed steps are untouched, so a second call on unchanged rows changes nothing |
| FormationModels.StatusOfProgress | backend/formation/models.py:211-219 | status `terminee` exactly at 100, `en_cours` exactly for another positive value, `nouvelle` exactly at 0 |
| FormationModels.StatusOf | backend/formation/models.py:211-219 | the status derived from a percentage; `StatusOfProgress` states it: `terminee` exactly at 100, `en_cours` exactly in between, `nouvelle` exactly at 0 |
| FormationModels.DivBelow | backend/formation/models.py:202 | a truncated percentage of `c` out of `t`, with `c <= t`, is at most 100 and equals 100 exactly when `c == t` |
| FormationModels.CompletedAtMostTotal | backend/formation/models.py:177-199 | without duplicate rows the completed items never exceed the total |
| FormationModels.ProgressAtMost100 | backend/formation/models.py:202 | without duplicate rows the percentage is at most 100 |
| FormationModels.ProgressFullIff | backend/formation/models.py:177-212 | without duplicate rows, 100 % exactly when the overview, every module, every resource and the quiz (if any) are done |
| FormationModels.ProgressOf | backend/formation/models.py:177-202 | the truncated percentage of completed items; `ProgressAtMost100` and `ProgressFullIff` state that with unique rows it is at most 100 and is 100 exactly when every item is done |
| FormationModels.DuplicateRowsExceed100 | backend/formation/models.py:179-183 | two completed rows for a formation's only module, plus the overview, give 150 % and status `en_cours` (also lines 224-227) |
| FormationModels.FourOfFive | backend/formation/models.py:199-202 | the overview and three of four modules give 80 % |
| FormationSignals.FindFormation | backend/formation/signals.py:32 | a found formation is in the table with the requested id; none is found exactly when no formation has that id |
| FormationSignals.FormationsWithModule | backend/formation/signals.py:10 | exactly the formations that contain the module |
| FormationSignals.FormationsWithResource | backend/formation/signals.py:20 | exactly the formations that contain the resource |
| FormationSignals.FormationOfQuiz | backend/formation/signals.py:32 | a found formation owns the quiz; none is found exactly when no formation owns it |
| FormationSignals.Hub.constructor | backend/formation/signals.py:1-6 | an empty hub over the given formations and per-user tables, with no progress records and no pending callbacks |
| FormationSignals.Hub.GetOrCreate | backend/formation/signals.py:11-33 | returns a record for (user, formation); an existing one leaves the records unchanged, a missing one is appended, and nothing fails |
| FormationSignals.Hub.FetchRecords | backend/formation/signals.py:10-14 | one record per target formation, in order, each belonging to the user; afterwards every target has a record |
| FormationSignals.Hub.OnUserModuleComplete | backend/formation/signals.py:8-16 | as written: the targets are exactly the formations holding the module, each gets a record, and the callbacks scheduled by the loop, one per target, all refer to the last record bound |
| FormationSignals.Hub.OnUserResourceRead | backend/formation/signals.py:18-26 | as written: the targets are exactly the formations holding the resource, each gets a record, and all scheduled callbacks refer to the last record bound |
| FormationSignals.Hub.OnUserModuleCompleteEach | backend/formation/signals.py:8-16 | one callback per formation holding the module, in order, each for that formation and the saving user |
| FormationSignals.Hub.OnUserResourceReadEach | backend/formation/signals.py:18-26 | one callback per formation holding the resource, in order, each for that formation and the saving user |
| FormationSignals.Hub.OnUserQuizComplete | backend/formation/signals.py:28-35 | exactly one callback is queued, for a stored record of the saving user and the quiz's own formation |
| FormationSignals.Hub.SaveUserModule | backend/formation/signals.py:8-9 | the row is appended whatever its `completed` flag, and a recomputation is scheduled for every formation holding the module; this is the corrected per-iteration binding (see Findings), not the as-written late binding of `OnUserModuleComplete`; the old queue stays as a prefix, every record queued belongs to the saving user, and that user now has a record for each target formation, so a following `Commit` refreshes the saving user's record for each of those formations (`get_or_create(user=instance.user, …)`, signals.py:11-16, 21-26, 30-35). |
| FormationSignals.Hub.UpdateUserModule | backend/formation/views.py:45-47 | re-saving an existing row through the API replaces it in place whatever its `completed` flag, and schedules a recomputation for every formation holding the module, with the corrected binding; the old queue stays as a prefix, every record queued belongs to the saving user, and that user now has a record for each target formation, so a following `Commit` refreshes the saving user's record for each of those formations (`get_or_create(user=instance.user, …)`, signals.py:11-16, 21-26, 30-35). |
| FormationSignals.Hub.SaveUserResource | backend/formation/signals.py:18-19 | the row is appended whatever its `read` flag, and a recomputation is scheduled for every formation holding the resource; this is the corrected per-iteration binding (see Findings), not the as-written late binding of `OnUserResourceRead`; the old queue stays as a prefix, every record queued belongs to the saving user, and that user now has a record for each target formation, so a following `Commit` refreshes the saving user's record for each of those formations (`get_or_create(user=instance.user, …)`, signals.py:11-16, 21-26, 30-35). |
| FormationSignals.Hub.UpdateUserResource | backend/formation/views.py:49-51 | re-saving an existing row replaces it in place whatever its `read` flag, and schedules a recomputation for every formation holding the resource, with the corrected binding; the old queue stays as a prefix, every record queued belongs to the saving user, and that user now has a record for each target formation, so a following `Commit` refreshes the saving user's record for each of those formations (`get_or_create(user=instance.user, …)`, signals.py:11-16, 21-26, 30-35). |
| FormationSignals.Hub.SaveUserQuiz | backend/formation/signals.py:28-29 | the row is appended and a recomputation is scheduled for the quiz's formation only; exactly one record is queued after the old queue, and it is the saving user's record for that formation, which now exists |
| FormationSignals.Hub.UpdateUserQuiz | backend/formation/views.py:53-55 | re-saving an existing row replaces it in place and schedules a recomputation for the quiz's formation only; exactly one record is queued after the old queue, and it is the saving user's record for that formation, which now exists |
| FormationSignals.Hub.Commit | backend/formation/signals.py:16-35 | running the pending callbacks leaves each scheduled record with the progress and status `update_progress` derives from the current tables |
| FormationSignals.UncompletingLowersProgress | backend/formation/models.py:177-212 | re-saving a formation's only module row as not completed takes the recomputed progress from 100 to 50 with the overview done |
| FormationSignals.LateBindingExample | backend/formation/signals.py:10-16 | a module shared by formations 1 and 2: as written both callbacks recompute formation 2; bound per iteration they recompute 1 and 2 |
| FormationSerializers.PyPad2 | backend/formation/serializers.py:246 | `{n:02}` is the two-digit zero-padded form for every non-negative value |
| FormationSerializers.HmsDecomposition | backend/formation/serializers.py:242-245 | the hours, minutes and seconds shown add back up to the seconds, with minutes and seconds below 60 |
| FormationSerializers.DigitsHaveNoColon | backend/formation/serializers.py:246 | a run of digits contains no `:` (so the three fields of the text are separable) |
| FormationSerializers.SplitThree | backend/formation/serializers.py:246 | three colon-free fields joined by `:` split back into exactly those fields |
| FormationSerializers.FormatHmsRoundTrip | backend/formation/serializers.py:231-247 | reading the `HH:MM:SS` text back gives the original number of seconds, for both copies of the method (which share one definition); 0 or no duration gives `00:00:00`, read back as 0 (also lines 730-746) |
| FormationSerializers.FormatHms | backend/formation/serializers.py:231-247 | the `HH:MM:SS` text of a duration; `FormatHmsRoundTrip` states that it reads back as the same number of seconds and `FormatHmsWidth` that it is eight characters below 100 hours |
| FormationSerializers.ParsePadded | backend/formation/serializers.py:246 | reading back padded hours, minutes and seconds gives `3600·h + 60·m + s` |
| FormationSerializers.FormatHmsWidth | backend/formation/serializers.py:246 | below 100 hours the text is exactly eight characters |
| FormationSerializers.ValidateAnswers | backend/formation/serializers.py:771-779 | the answers come back unchanged exactly when every question id belongs to the quiz; otherwise the error names the first answer whose id does not |
| FormationSerializers.DetailTabsMeaning | backend/formation/serializers.py:693-728 | with unique rows, the modules flag holds exactly when there is at least one module and all are completed (likewise resources), and the overview flag follows the completed steps |
| FormationSerializers.DetailTabsCompleted | backend/formation/serializers.py:693-728 | the four tab flags of the detail view; `DetailTabsMeaning` states that each flag holds exactly when that content exists and is all done |
| FormationSerializers.DuplicateRowCompletesModulesTab | backend/formation/serializers.py:701-708 | two rows for one module mark a two-module tab done while the second module is not |
| FormationSerializers.ProgressTabsKeys | backend/formation/serializers.py:978-1013 | no user gives `{}`; otherwise `overview` is always a key and `modules`/`resources`/`quiz` are keys exactly when that content exists |
| FormationSerializers.ProgressTabsCompleted | backend/formation/serializers.py:978-1013 | the tab map of the progress view; `ProgressTabsKeys` states its keys and `ProgressTabsAgreeWithDetail` that its values are the detail view's flags |
| FormationSerializers.ProgressTabsAgreeWithDetail | backend/formation/serializers.py:693-728 | every key of the progress view carries the detail view's flag, and a missing content key corresponds to a false flag in the detail view (also lines 978-1013) |
| FormationSerializers.ScoreFinalOf | backend/formation/serializers.py:827-833 | the score is passed through; the total is the sum of the points, or 100 when that sum is 0 or there are no questions, so it is never 0 |
| FormationSerializers.ScorePercentageMeaning | backend/formation/serializers.py:832 | the percentage is the largest whole percentage not above `score/total`, at most 100 when the score does not exceed the total, and 100 exactly when they are equal |
| FormationSerializers.FloorQuotient | backend/formation/serializers.py:832 | the truncated quotient is bracketed by the dividend |
| FormationSerializers.ScoreWithoutQuestions | backend/formation/serializers.py:828 | a score of 20 on a quiz without questions gives total 100 and 20 % |
| FormationSerializers.RemoveUsers | backend/formation/serializers.py:100-103 | every team keeps its place and loses exactly the listed users |
| FormationSerializers.TransferredMembership | backend/formation/serializers.py:98-106 | the edited team holds exactly the listed users; a listed user is in that team and no other; an unlisted user keeps their other memberships and leaves the edited team |
| FormationSerializers.Transferred | backend/formation/serializers.py:98-106 | the teams after a transfer; `TransferredMembership` states who is in which team and `TransferKeepsOneTeamPerUser` that nobody ends up in two teams |
| FormationSerializers.TransferKeepsOneTeamPerUser | backend/formation/serializers.py:98-106 | if no user was on two teams before, none is after |
| FormationSerializers.RemoveUsersTwice | backend/formation/serializers.py:100-103 | clearing users in two rounds is clearing them all at once (the loop step) |
| FormationSerializers.EquipeStore.constructor | backend/formation/serializers.py:88-89 | the store holds the given teams |
| FormationSerializers.WithFields | backend/formation/serializers.py:94-96 | `super().update` writes a given name and replaces the domains when they are given, keeps every field the request leaves out, and never touches the members |
| FormationSerializers.EquipeStore.Update | backend/formation/serializers.py:88-108 | the edited team first gets its given name and domains (absent ones kept); without `assigned_users` nothing else changes; with it, each listed user is cleared from every team and the team's members become exactly the list |
| FormationSync.TeamsFor | backend/formation/serializers.py:437-479 | a non-confidential resource gets no team; a confidential one gets exactly the listed ids that name existing teams |
| FormationSync.ApplyEntriesFacts | backend/formation/serializers.py:432-482 | over the loop, keys only grow; unprocessed resources keep their records; each processed id is a linked resource or a new key; each processed resource has the confidentiality and teams of some entry; exactly the matching or file-carrying entries are processed, the others skipped |
| FormationSync.DropUnreferenced | backend/formation/serializers.py:487-497 | a dropped resource disappears exactly when no formation still lists it; the others keep their records |
| FormationSync.Catalog.constructor | backend/formation/serializers.py:431-433 | an empty resource table with the given team ids |
| FormationSync.Catalog.SyncResources | backend/formation/serializers.py:431-497 | the processed ids are those of the entry loop, the formation's resources become exactly the processed set, and the removed resources no other formation references are deleted |
| FormationSync.Catalog.ApplyResourceEntries | backend/formation/serializers.py:434-482 | the loop produces the table, next key and processed ids of the entry-by-entry fold |
| FormationSync.Catalog.DropRemoved | backend/formation/serializers.py:487-497 | the loop over the removed ids deletes exactly the unreferenced ones |
| FormationSync.SubmittedIds | backend/formation/serializers.py:518 | exactly the non-zero ids of the submitted questions |
| FormationSync.KeepSubmitted | backend/formation/serializers.py:521 | exactly the existing questions whose id was submitted remain, unchanged |
| FormationSync.ApplyQuestionsFacts | backend/formation/serializers.py:523-571 | over the question loop the keys are the starting ones plus new keys below the next key; the loop fails exactly when a submitted id is not an existing question, and then it names the first such entry |
| FormationSync.LastEntryOptions | backend/formation/serializers.py:549-554 | the last entry for an existing question decides its options: they are replaced wholesale |
| FormationSync.SyncQuizKeys | backend/formation/serializers.py:502-575 | without quiz data the quiz is gone; with it the questions left are the submitted old ones plus the newly created ones, and the loop fails exactly when a submitted id is not an existing question |
| FormationSync.QuizStore.constructor | backend/formation/serializers.py:503 | the store holds the formation's quiz |
| FormationSync.QuizStore.Sync | backend/formation/serializers.py:502-575 | the quiz, next key and failure afterwards are those of the specification of the quiz block |
| FormationSync.ApplyAfterFailure | backend/formation/serializers.py:529 | once `Question.objects.get` fails, later entries change nothing |
| PersonnePermissions.PermissionsExclusive | backend/personne/permissions.py:7-15 | an anonymous user passes neither permission, no user passes both, and `IsTeamLeader` holds exactly for an authenticated `TL1`, `TL2`, `CL` or `UDL` |
| PersonnePermissions.IsCollaborateur | backend/personne/permissions.py:7-8 | `has_permission`; `PermissionsExclusive` states that no anonymous user passes and nobody passes both permissions |
| PersonnePermissions.IsTeamLeader | backend/personne/permissions.py:14-15 | `has_permission`; `PermissionsExclusive` states it holds exactly for an authenticated `TL1`, `TL2`, `CL` or `UDL` |
| PersonnePermissions.DeclaredRolesAreNotTeamLeaders | backend/personne/permissions.py:15 | none of the declared roles `N1`, `N2`, `COLLABORATEUR` passes `IsTeamLeader`, and among them only `COLLABORATEUR` passes `IsCollaborateur` (the roles are declared in backend/personne/models.py, lines 17-21) |
| Trainings.AvailableTabs | frontend/src/data/trainings.js:220-225 | between 1 and 4 tabs: the overview always, then one per kind of content present |
| Trainings.CalculateProgressBounds | frontend/src/data/trainings.js:219-236 | completed tabs never outnumber the available ones; the progress lies in 0..100 and is 100 exactly when every available tab is flagged |
| Trainings.CalculateProgress | frontend/src/data/trainings.js:219-236 | the rounded share of available tabs flagged; `CalculateProgressBounds` states it lies in 0..100 and is 100 exactly when every available tab is flagged |
| Trainings.AbsentContentFlagsIgnored | frontend/src/data/trainings.js:227-233 | changing the flag of a tab whose content is absent never changes the progress |
| Trainings.TwoOfThreeTabs | frontend/src/data/trainings.js:235 | two of three available tabs round to 67 |
| Trainings.UpdatedMeaning | frontend/src/data/trainings.js:242-250 | a progress passed in the update is replaced by the recomputed one; the status becomes `completed` at 100, `in_progress` above 0, and at 0 keeps the merged status; every other field is the merged one |
| Trainings.Merge | frontend/src/data/trainings.js:242 | `{ ...training, ...updates }`: every training field the update carries, the id included, replaces the training's and every other keeps its value |
| Trainings.Updated | frontend/src/data/trainings.js:242-250 | the merged training with its progress and status recomputed; `UpdatedMeaning` states the recomputed progress and the three status cases |
| Trainings.StatusNotResetAtZero | frontend/src/data/trainings.js:246-250 | an update claiming `completed` on a training with nothing flagged leaves progress 0 and status `completed` |
| Trainings.FindIndex | frontend/src/data/trainings.js:240 | a found index is the first with the id; none is found exactly when no training has it |
| Trainings.TrainingStore.constructor | frontend/src/data/trainings.js:216 | the store holds the given trainings |
| Trainings.TrainingStore.UpdateTrainingProgress | frontend/src/data/trainings.js:239-255 | an unknown id changes nothing; otherwise only the first matching training is replaced, by the merged and recomputed one |
| UseTrainingProgress.CountCompleted | frontend/src/components/Training/Hooks/useTrainingProgress.js:36 | the completed chapters never outnumber the chapters |
| UseTrainingProgress.CountRead | frontend/src/components/Training/Hooks/useTrainingProgress.js:39 | the read resources never outnumber the resources |
| UseTrainingProgress.CountCompletedAll | frontend/src/components/Training/Hooks/useTrainingProgress.js:36 | the count reaches the number of chapters exactly when every chapter is completed (the `every` test) (also line 156) |
| UseTrainingProgress.CountReadAll | frontend/src/components/Training/Hooks/useTrainingProgress.js:39 | the count reaches the number of resources exactly when every resource is read (also line 161) |
| UseTrainingProgress.FullyCompletedMeaning | frontend/src/components/Training/Hooks/useTrainingProgress.js:155-174 | `isFullyCompleted` holds exactly when all chapters are done, all resources read and the quiz, if any, finished; with at least one item it implies progress 100 and status `completed` (also lines 43-49) |
| UseTrainingProgress.IsFullyCompleted | frontend/src/components/Training/Hooks/useTrainingProgress.js:155-174 | the completion test; `FullyCompletedMeaning` states it holds exactly when every chapter, every resource and the quiz if any are done |
| UseTrainingProgress.FullRounds | frontend/src/components/Training/Hooks/useTrainingProgress.js:49 | all items done rounds to exactly 100 |
| UseTrainingProgress.ProgressBounds | frontend/src/components/Training/Hooks/useTrainingProgress.js:32-59 | the progress lies in 0..100; the status is `completed` exactly at 100, `in_progress` exactly strictly between, `new` exactly at 0 |
| UseTrainingProgress.CalculatedProgress | frontend/src/components/Training/Hooks/useTrainingProgress.js:32-50 | the rounded share of done items, 0 without state or items; `ProgressBounds` states it lies in 0..100 and `FullRounds` that all items done gives 100 |
| UseTrainingProgress.CalculatedStatus | frontend/src/components/Training/Hooks/useTrainingProgress.js:52-59 | the status of the progress; `ProgressBounds` states `completed` exactly at 100, `in_progress` strictly between, `new` at 0 |
| UseTrainingProgress.EmptyTrainingFullyCompletedAtZero | frontend/src/components/Training/Hooks/useTrainingProgress.js:170-174 | a training with no items counts as fully completed while its progress is 0 and its status `new` (also line 47) |
| UseTrainingProgress.MarkChapterIn | frontend/src/components/Training/Hooks/useTrainingProgress.js:76-80 | same length; the chapters with the id are marked completed and the others are unchanged |
| UseTrainingProgress.MarkResourceIn | frontend/src/components/Training/Hooks/useTrainingProgress.js:88-92 | same length; the resources with the id are marked read and the others are unchanged |
| UseTrainingProgress.MarkIdempotent | frontend/src/components/Training/Hooks/useTrainingProgress.js:73-94 | marking twice is marking once, and afterwards an entry is done exactly when it was done before or has the id |
| UseTrainingProgress.MarkChapterCounts | frontend/src/components/Training/Hooks/useTrainingProgress.js:73-82 | marking a chapter never lowers the number of completed chapters |
| UseTrainingProgress.ClearChapters | frontend/src/components/Training/Hooks/useTrainingProgress.js:135-138 | same chapters, each marked incomplete, so none is completed |
| UseTrainingProgress.ClearResources | frontend/src/components/Training/Hooks/useTrainingProgress.js:139-142 | same resources, each marked unread, so none is read |
| UseTrainingProgress.ResetMeaning | frontend/src/components/Training/Hooks/useTrainingProgress.js:131-152 | after a reset every chapter is incomplete, every resource unread, the quiz unfinished with no score, progress 0 and status `new` |
| UseTrainingProgress.NoneCompleted | frontend/src/components/Training/Hooks/useTrainingProgress.js:36 | no completed chapter gives a count of 0 |
| UseTrainingProgress.NoneRead | frontend/src/components/Training/Hooks/useTrainingProgress.js:39 | no read resource gives a count of 0 |
| UseTrainingProgress.ProgressHook.constructor | frontend/src/components/Training/Hooks/useTrainingProgress.js:6-29 | the state starts as the base training with its marks defaulted, or null without one |
| UseTrainingProgress.ProgressHook.SyncDerived | frontend/src/components/Training/Hooks/useTrainingProgress.js:62-70 | a present state receives the derived progress and status; a null one is left alone |
| UseTrainingProgress.ProgressHook.MarkChapter | frontend/src/components/Training/Hooks/useTrainingProgress.js:73-82 | only the chapters change, marked as above |
| UseTrainingProgress.ProgressHook.MarkResource | frontend/src/components/Training/Hooks/useTrainingProgress.js:85-94 | only the resources change, marked as above |
| UseTrainingProgress.ProgressHook.FinishQuiz | frontend/src/components/Training/Hooks/useTrainingProgress.js:97-106 | a null quiz stays null; otherwise it is finished with exactly the given score; nothing else changes |
| UseTrainingProgress.ProgressHook.MarkAllChaptersCompleted | frontend/src/components/Training/Hooks/useTrainingProgress.js:109-117 | every chapter becomes completed and nothing else changes |
| UseTrainingProgress.ProgressHook.MarkAllResourcesRead | frontend/src/components/Training/Hooks/useTrainingProgress.js:120-128 | every resource becomes read and nothing else changes |
| UseTrainingProgress.ProgressHook.ResetProgress | frontend/src/components/Training/Hooks/useTrainingProgress.js:131-152 | with a base training the state becomes the reset state; without one nothing changes |
| QuizTab.CalcScoreBounds | frontend/src/components/Training/TrainingDetail/QuizTab.jsx:20-24 | with non-negative points the score lies between 0 and the points total; with positive points it reaches the total exactly when every question is answered correctly |
| QuizTab.CalcScore | frontend/src/components/Training/TrainingDetail/QuizTab.jsx:20-24 | the points of the correctly answered questions; `CalcScoreBounds` states it lies between 0 and the points total and reaches it exactly when every answer is right |
| QuizTab.CalcScoreNoAnswers | frontend/src/components/Training/TrainingDetail/QuizTab.jsx:22-29 | with no answers the score is 0 |
| QuizTab.PassesIffMinimum | frontend/src/components/Training/TrainingDetail/QuizTab.jsx:40 | an integer score passes `score >= 0.7·total` exactly when it reaches the displayed minimum `ceil(0.7·total)` (also lines 84, 106, 135) |
| QuizTab.Passes | frontend/src/components/Training/TrainingDetail/QuizTab.jsx:40 | `score >= 0.7·total` in exact arithmetic; `PassesIffMinimum` ties it to the displayed minimum (also line 84) |
| QuizTab.MinimumScore | frontend/src/components/Training/TrainingDetail/QuizTab.jsx:106 | `Math.ceil(0.7·total)`; `PassesIffMinimum` states that an integer score passes exactly when it reaches this minimum (also line 135) |
| QuizTab.QuizSession.constructor | frontend/src/components/Training/TrainingDetail/QuizTab.jsx:9-14 | not started, on question 0, no answers, no results, score 0, not done |
| QuizTab.QuizSession.CurrentScreen | frontend/src/components/Training/TrainingDetail/QuizTab.jsx:83-84 | the completion screen exactly when the formation is completed or validated, ahead of the results; results exactly otherwise when they are shown, with the pass verdict; a question screen only once started and for an existing question; a started quiz without questions renders `Crashed`, since `current` is `undefined` and `current.text` throws (also lines 16, 57, 119, 149, 165) |
| QuizTab.QuizSession.Start | frontend/src/components/Training/TrainingDetail/QuizTab.jsx:26-32 | started, on question 0, answers `{}`, score 0, results hidden; the screen is then the completion screen, `Crashed` for a quiz without questions, or question 0 |
| QuizTab.QuizSession.Retry | frontend/src/components/Training/TrainingDetail/QuizTab.jsx:48-54 | the same reset as a start, but not started |
| QuizTab.QuizSession.Select | frontend/src/components/Training/TrainingDetail/QuizTab.jsx:179 | only the current question's answer is replaced |
| QuizTab.QuizSession.Previous | frontend/src/components/Training/TrainingDetail/QuizTab.jsx:188-191 | one question back, disabled on the first |
| QuizTab.QuizSession.NextOrFinish | frontend/src/components/Training/TrainingDetail/QuizTab.jsx:200-207 | nothing happens while the current question is unanswered; otherwise it moves on, or on the last question finishes |
| QuizTab.QuizSession.Finish | frontend/src/components/Training/TrainingDetail/QuizTab.jsx:34-46 | the score is the computed one, results are shown, and the validation timer is armed exactly on a pass |
| QuizTab.QuizSession.ValidationTimerFires | frontend/src/components/Training/TrainingDetail/QuizTab.jsx:41-44 | the formation is validated and the completion screen is shown |
| QuizTab.PerfectScorePasses | frontend/src/components/Training/TrainingDetail/QuizTab.jsx:40 | all correct answers pass when the declared total is the points total |
| QuizTab.DeclaredTotalBelowPoints | frontend/src/data/trainings.js:201-205 | training 105 declares a total of 10 while its questions are worth 20, so one correct answer out of two passes |
| QuizList.Verdicts | frontend/src/components/Training/Quiz.jsx:35-38 | one verdict per question, true exactly when the chosen index is the correct one; an unanswered question is false |
| QuizList.CountCorrectBounds | frontend/src/components/Training/Quiz.jsx:8-13 | the score lies in 0..number of verdicts, is the maximum exactly when all are correct and 0 exactly when none is |
| QuizList.CountCorrect | frontend/src/components/Training/Quiz.jsx:8-13 | the number of true verdicts; `CountCorrectBounds` states it lies in 0..n, is n exactly when all are true and 0 exactly when none is |
| QuizList.NoAnswersScoreZero | frontend/src/components/Training/Quiz.jsx:37 | with no answers every question counts as incorrect |
| QuizList.CountIsUnitPointScore | frontend/src/components/Training/Quiz.jsx:8-38 | with one point per question, this score equals the QuizTab score |
| QuizList.QuizPage.constructor | frontend/src/components/Training/Quiz.jsx:6-30 | no answers and no score yet |
| QuizList.QuizPage.Toggle | frontend/src/components/Training/Quiz.jsx:32-33 | only that question's entry is overwritten |
| QuizList.QuizPage.Submit | frontend/src/components/Training/Quiz.jsx:8-40 | the score becomes the number of correct verdicts, between 0 and the number of questions |
| TrainingList.StatusFromProgress | frontend/src/pages/Training/TrainingList.jsx:22-27 | a non-empty explicit status is returned unchanged; otherwise `terminee` exactly for progress ≥ 100, `en_cours` exactly for 0 < progress < 100, `nouvelle` exactly for progress ≤ 0 |
| TrainingList.IndexOfMeaning | frontend/src/pages/Training/TrainingList.jsx:59-62 | a formation id is indexed exactly when some user state names it, and it maps to the last such state |
| TrainingList.IndexUserStates | frontend/src/pages/Training/TrainingList.jsx:59-62 | the `forEach` loop builds exactly that index |
| TrainingList.Enrich | frontend/src/pages/Training/TrainingList.jsx:65-74 | a formation without a user record gets progress 0, no record id and status `nouvelle`; with one it takes the record's id, its progress (0 when missing) and the status derived from them |
| TrainingList.EnrichAll | frontend/src/pages/Training/TrainingList.jsx:65 | one enriched entry per formation, in order |
| TrainingList.Visible | frontend/src/pages/Training/TrainingList.jsx:91-101 | the visible entries are drawn from the list and pass the domain filter (string equality, every entry when the domain id is missing or empty) and the case-insensitive title-or-description search with the category test; every entry passing them is visible, and the visible entries keep their order in the list |
| TrainingList.EmptyDomainIsNoFilter | frontend/src/pages/Training/TrainingList.jsx:91-93 | an empty domain id is falsy and filters exactly as no domain id does |
| TrainingList.EmptySearchKeepsAll | frontend/src/pages/Training/TrainingList.jsx:96-101 | an empty search in category `all` without a domain keeps every entry that has a title or a description |
| TrainingList.CountWhere | frontend/src/pages/Training/TrainingList.jsx:114-115 | a status count never exceeds the number of entries |
| TrainingList.CountOther | frontend/src/pages/Training/TrainingList.jsx:116 | the count of other statuses never exceeds the number of entries |
| TrainingList.BucketsPartition | frontend/src/pages/Training/TrainingList.jsx:111-120 | every entry falls in exactly one of the three buckets |
| TrainingList.ComputeStats | frontend/src/pages/Training/TrainingList.jsx:111-120 | `total` is the visible count, the buckets count `terminee`, `en_cours` and every other status, and `total = completed + inProgress + new` |
| TrainingDetail.DefaultFlags | frontend/src/pages/Training/TrainingDetail.jsx:44-51 | exactly the four tab keys, each the received flag or `false` when missing |
| TrainingDetail.AvailableTabs | frontend/src/pages/Training/TrainingDetail.jsx:89-92 | 1 to 4 tabs starting with the overview; `modules`, `resources`, `quiz` are present exactly when that content exists |
| TrainingDetail.IndexOf | frontend/src/pages/Training/TrainingDetail.jsx:93 | -1 exactly when absent; otherwise the first position of the tab |
| TrainingDetail.NextTabMeaning | frontend/src/pages/Training/TrainingDetail.jsx:93-94 | completing an available tab that is not last moves to the tab after it; the last tab or an unavailable one leaves the current tab |
| TrainingDetail.NextTab | frontend/src/pages/Training/TrainingDetail.jsx:93-94 | the tab after a completed one; `NextTabMeaning` states it is the following available tab, or the current tab for the last or an unavailable one |
| TrainingDetail.DistinctTabs | frontend/src/pages/Training/TrainingDetail.jsx:89-92 | no tab appears twice |
| TrainingDetail.FullTabOrder | frontend/src/pages/Training/TrainingDetail.jsx:89-94 | with every kind of content the order is overview, modules, resources, quiz, and completing each moves to the next |
| TrainingDetail.CompleteModule | frontend/src/pages/Training/TrainingDetail.jsx:99-101 | same modules, each completed exactly when it was or has the id |
| TrainingDetail.DetailPage.constructor | frontend/src/pages/Training/TrainingDetail.jsx:44-51 | the loaded training with its flags defaulted, on the overview tab |
| TrainingDetail.DetailPage.CompleteTab | frontend/src/pages/Training/TrainingDetail.jsx:76-95 | only that flag becomes true, the others are kept, and the tab moves as above |
| TrainingDetail.DetailPage.CompleteChapter | frontend/src/pages/Training/TrainingDetail.jsx:97-117 | only the matching module is marked; the `modules` flag becomes true when all are done and otherwise keeps its value; then the tab becomes resources, else quiz, else overview |
| TrainingDetail.CompleteModuleLocal | frontend/src/pages/Training/TrainingDetail.jsx:99-101 | other modules are untouched, and completing twice is completing once |
| TrainingDetail.LastChapterCompletesModules | frontend/src/pages/Training/TrainingDetail.jsx:102 | completing the last pending chapter makes every module done |
| TrainingProgress.MembersOf | frontend/src/pages/Training/Manager/TrainingProgress.jsx:195 | exactly the collaborators whose `equipe_id` equals the team id parsed in base 10, in list order, never more than the list |
| TrainingProgress.MembersOfFirst | frontend/src/pages/Training/Manager/TrainingProgress.jsx:206-209 | the first member listed is the first collaborator of that team in list order |
| TrainingProgress.FilteredCollaborators | frontend/src/pages/Training/Manager/TrainingProgress.jsx:188-196 | nobody while no team is selected; otherwise exactly the team's members |
| TrainingProgress.TeamChange | frontend/src/pages/Training/Manager/TrainingProgress.jsx:200-214 | the selected team becomes the chosen one |
| TrainingProgress.TeamChangeSelectsMember | frontend/src/pages/Training/Manager/TrainingProgress.jsx:200-214 | after a team change the collaborator is the first one shown in the filtered list, and `''` when the team is cleared or has no member |
| TrainingProgress.QueryParams | frontend/src/pages/Training/Manager/TrainingProgress.jsx:161-165 | `equipe_id` and `collaborateur_id` are sent exactly when selected, with the selected values, and nothing else is sent |
| TrainingProgress.ResponseTextExamples | frontend/src/pages/Training/Manager/TrainingProgress.jsx:98-99 | an array response shows its texts joined by `", "`: one element shows as itself, none as the empty text |
| TrainingProgress.ResponseText | frontend/src/pages/Training/Manager/TrainingProgress.jsx:98-99 | the shown response, arrays joined by `", "`; `SplitJoinedResponse` states that splitting at the commas gives the items back when none contains a comma |
| TrainingProgress.SplitJoinedResponse | frontend/src/pages/Training/Manager/TrainingProgress.jsx:98-99 | with no comma in any item, the joined text splits at the commas into as many pieces as items, the first the first item and each later one the item after the space |
| TrainingProgress.IsSuccess | frontend/src/pages/Training/Manager/TrainingProgress.jsx:74 | success from 80 %; `SuccessIsFourFifths` states it holds exactly when the score is at least four fifths of the backend's total |
| TrainingProgress.SuccessIsFourFifths | frontend/src/pages/Training/Manager/TrainingProgress.jsx:74 | with the `score_final` of the backend, the badge shows success exactly when `5·score >= 4·total` |
| TrainingProgress.IsCorrect | frontend/src/pages/Training/Manager/TrainingProgress.jsx:97 | an answer is correct when it earned points; `ViewAnswer` states the icon and the expected response follow it |
| TrainingProgress.ViewAnswer | frontend/src/pages/Training/Manager/TrainingProgress.jsx:96-108 | the check icon exactly when points were earned; the expected response shown exactly otherwise; both responses shown as joined text |
| TrainingProgress.UnansweredShowsExpected | frontend/src/pages/Training/Manager/TrainingProgress.jsx:96-108 | an unanswered question (0 points, `null` response) shows the cross, an empty response and the expected one |
| TrainingProgress.FirstOf | frontend/src/pages/Training/Manager/TrainingProgress.jsx:173 | a single object is kept; an array gives its first element, and nothing when empty |
| TrainingForm.ValidateForm | frontend/src/pages/Training/Manager/TrainingForm.jsx:65-74 | each field's error is present exactly when that field is empty, or for the duration when it is empty, not a number or not positive, with that field's message |
| TrainingForm.MaxId | frontend/src/pages/Training/Manager/TrainingForm.jsx:116 | `Math.max` of the ids: an upper bound that is one of them |
| TrainingForm.NewId | frontend/src/pages/Training/Manager/TrainingForm.jsx:116 | larger than every existing id; 1 for an empty catalogue |
| TrainingForm.CreatedMeaning | frontend/src/pages/Training/Manager/TrainingForm.jsx:116-130 | a created training has an id no other training has, no chapters, resources or questions, progress 0, every tab flag false, the form's title and a positive duration |
| TrainingForm.Created | frontend/src/pages/Training/Manager/TrainingForm.jsx:116-130 | the training creation appends; `CreatedMeaning` states its fresh id, empty content, progress 0 and the form's fields |
| TrainingForm.Edited | frontend/src/pages/Training/Manager/TrainingForm.jsx:104-111 | the overlaid training keeps its id, content, quiz, progress and tab flags and takes the form's title, status and a positive duration |
| TrainingForm.FindByParam | frontend/src/pages/Training/Manager/TrainingForm.jsx:102 | the first training whose id, as text, equals the route parameter; none when no id matches |
| TrainingForm.Submit | frontend/src/pages/Training/Manager/TrainingForm.jsx:90-131 | no error exactly when the form is valid; an invalid form changes nothing; edit mode overlays the matching training in place and an unknown id changes nothing; creation appends the new training |
| Hierarchie.Referenced | frontend/src/pages/Hierarchie/Hierarchie.jsx:19-21 | exactly the ids some node names as its parent |
| Hierarchie.Keep | frontend/src/pages/Hierarchie/Hierarchie.jsx:22-24 | exactly the nodes that have a parent or are some node's parent, never more nodes than given |
| Hierarchie.KeepIsSubsequence | frontend/src/pages/Hierarchie/Hierarchie.jsx:22-24 | the kept nodes keep their relative order |
| Hierarchie.PruneMeaning | frontend/src/pages/Hierarchie/Hierarchie.jsx:18-25 | pruning keeps an ordered subsequence, drops exactly the roots nobody points to, and pruning twice is pruning once |
| Hierarchie.Prune | frontend/src/pages/Hierarchie/Hierarchie.jsx:18-25 | `pruneIsolatedNodes`; `PruneMeaning` states it keeps an ordered subsequence of exactly the nodes with a parent or referenced as one, and is idempotent |
| Hierarchie.PruneKeepsReferences | frontend/src/pages/Hierarchie/Hierarchie.jsx:18-25 | pruning never removes a parent reference |
| Hierarchie.KeepAll | frontend/src/pages/Hierarchie/Hierarchie.jsx:22-24 | when every node passes, the list is unchanged |
| Hierarchie.FlattenInto | frontend/src/pages/Hierarchie/Hierarchie.jsx:44-84 | the loop over the people appends exactly the flattened nodes to `result` |
| Hierarchie.VisitPerson | frontend/src/pages/Hierarchie/Hierarchie.jsx:53-81 | one loop step appends that person's nodes and records their first team's node id |
| Hierarchie.PersonIdsAppend | frontend/src/pages/Hierarchie/Hierarchie.jsx:69-70 | the person ids of two node lists concatenate |
| Hierarchie.EmitPersonIds | frontend/src/pages/Hierarchie/Hierarchie.jsx:58-81 | a person contributes their own id followed by their subordinates' ids |
| Hierarchie.FlattenPreorder | frontend/src/pages/Hierarchie/Hierarchie.jsx:44-84 | the people appear in the flattened list in depth-first pre-order, each once |
| Hierarchie.Flatten | frontend/src/pages/Hierarchie/Hierarchie.jsx:44-84 | `flattenHierarchy`; `FlattenPreorder` states the people appear in depth-first pre-order, each once, and `FlattenInto` that the loop appends exactly these nodes |
| Hierarchie.PreorderLength | frontend/src/pages/Hierarchie/Hierarchie.jsx:44-84 | one person node per person of the tree |
| Hierarchie.TeamsAddedMeaning | frontend/src/pages/Hierarchie/Hierarchie.jsx:45-65 | a team node id is recorded exactly when some sibling's first team yields it |
| Hierarchie.TeamNodeBeforeFirstMember | frontend/src/pages/Hierarchie/Hierarchie.jsx:54-67 | a person's team node is emitted exactly before the first sibling of that team, and the person hangs under it |
| Hierarchie.ParentsOfPerson | frontend/src/pages/Hierarchie/Hierarchie.jsx:53-81 | a person on no team hangs under the given parent, and subordinates hang under the person |
| EquipeForm.ComputeBusy | frontend/src/pages/Equipe/EquipeForm.jsx:78-81 | the loop collects exactly the ids assigned to some team |
| EquipeForm.FindTeam | frontend/src/pages/Equipe/EquipeForm.jsx:86 | the first team with that id, as `find` returns it, or none when no team has it |
| EquipeForm.CurrentMembers | frontend/src/pages/Equipe/EquipeForm.jsx:84-88 | exactly the members of the first team whose id is `Number` of the route's id; none in create mode, for a non-numeric id or when no team has it |
| EquipeForm.FreeUsers | frontend/src/pages/Equipe/EquipeForm.jsx:91-93 | exactly the users on no team or on the team being edited, in list order, never more than the list |
| EquipeForm.CreateModeFreeUsers | frontend/src/pages/Equipe/EquipeForm.jsx:84-93 | in create mode the available users are exactly those no team lists |
| EquipeForm.EditModeFreeUsers | frontend/src/pages/Equipe/EquipeForm.jsx:84-93 | in edit mode the available users are exactly those no team lists and the members of the team being edited |
| EquipeForm.FilteredUsers | frontend/src/pages/Equipe/EquipeForm.jsx:98-102 | exactly the available users whose `"first last"` contains the search, both lower-cased, in list order |
| EquipeForm.EmptySearchShowsAll | frontend/src/pages/Equipe/EquipeForm.jsx:98-102 | an empty search shows every available user |
| EquipeForm.ToggleMember | frontend/src/pages/Equipe/EquipeForm.jsx:186-193 | checking appends the id; unchecking removes every occurrence; other ids keep their counts |
| EquipeForm.ValidateForm | frontend/src/pages/Equipe/EquipeForm.jsx:38-42 | a `name` error exactly when the trimmed name is empty, and no other key |
| EquipeForm.MakePayload | frontend/src/pages/Equipe/EquipeForm.jsx:117-122 | the name and members as entered, and each domain id converted with `Number` in order |
| EquipeForm.AllSpaceNameRejected | frontend/src/pages/Equipe/EquipeForm.jsx:38-42 | a name made only of characters that `trim` removes, no-break spaces and line separators included, gets the `name` error |
| EquipeForm.NoBreakSpaceNameRejected | frontend/src/pages/Equipe/EquipeForm.jsx:112-124 | a name of two no-break spaces is not sent |
| EquipeForm.Submit | frontend/src/pages/Equipe/EquipeForm.jsx:112-124 | a payload is sent exactly when the trimmed name is not empty |
| EquipeForm.DomainIdsRoundTrip | frontend/src/pages/Equipe/EquipeForm.jsx:62 | domain ids loaded with `toString()` are sent back as the same numbers (also line 121) |
| FilterDropdown.HandleCheckboxChange | frontend/src/components/FilterDropdown.jsx:27-34 | the option is selected afterwards exactly when it was not; others keep their membership; unchecking removes it and shrinks the list, checking appends it at the end |
| FilterDropdown.ToggleTwiceRestores | frontend/src/components/FilterDropdown.jsx:27-34 | checking then unchecking an option gives back the previous selection |
| Formatters.Unit | frontend/src/utils/formatters.js:22-25 | the count followed by the unit word, ending in an added `s` exactly when the count is above one |
| Formatters.Pieces | frontend/src/utils/formatters.js:17-26 | one piece for positive hours and one for positive minutes, hours first; a `NaN` or non-positive field contributes nothing |
| Formatters.FormatDuration | frontend/src/utils/formatters.js:4-34 | `null` exactly for a missing or empty input or one with fewer than three `:`-separated fields |
| Formatters.SecondsIgnored | frontend/src/utils/formatters.js:12-18 | only the first two fields matter: the seconds and anything after them are ignored |
| Formatters.ReadsBackendDuration | frontend/src/utils/formatters.js:4-34 | the backend's `HH:MM:SS` text of `d` seconds reads as the spoken whole hours and remaining minutes of `d` (`Moins d'une minute` below a minute, `et` between hours and minutes) |
| Formatters.HmsFields | frontend/src/utils/formatters.js:12-18 | the backend text splits into exactly three fields whose first two parse as the hours and the minutes |
| Formatters.PiecesSpoken | frontend/src/utils/formatters.js:20-33 | joining the pieces of whole hours and minutes gives their spoken form |
| TrainingCard.DurationParts | frontend/src/components/Training/TrainingCard.jsx:27-33 | `"{h} h"` for positive hours and `"{m} min"` for positive minutes, in that order, and nothing else |
| TrainingCard.CardDuration | frontend/src/components/Training/TrainingCard.jsx:22-39 | `null` for a missing or empty text, and otherwise exactly when neither the first field nor the second is a positive number |
| TrainingCard.ReadsBackendDuration | frontend/src/components/Training/TrainingCard.jsx:22-57 | the backend's `HH:MM:SS` text of `d` seconds shows as its whole hours and remaining minutes, and nothing below a minute |
| TrainingCard.PartsShort | frontend/src/components/Training/TrainingCard.jsx:27-38 | joining the parts of whole hours and minutes gives their short form |
| TrainingCard.StatusBadge | frontend/src/components/Training/TrainingCard.jsx:16-48 | the `Inconnue` badge exactly for a missing status or one outside `nouvelle`, `en_cours`, `terminee` |
| TrainingCard.CtaLabel | frontend/src/components/Training/TrainingCard.jsx:51-52 | `Revoir` exactly for `terminee`, `Commencer` exactly for `nouvelle`, `Continuer` otherwise |
| TrainingCard.Card | frontend/src/components/Training/TrainingCard.jsx:47-57 | the progress bar is shown exactly when the status is not `nouvelle`, the given progress when there is one and 0 otherwise; the module and resource counts as given, 0 when missing; the badge, the call to action and the duration text of the status and the duration (also line 123) |
| TrainingCard.CountLabel | frontend/src/components/Training/TrainingCard.jsx:111-116 | the count and the word, with a plural `s` exactly above one |
| TrainingTable.PadStart2 | frontend/src/components/Training/CRUD/TrainingTable.jsx:16 | zeros in front up to two characters; a longer text is unchanged |
| TrainingTable.MinutesTwoDigits | frontend/src/components/Training/CRUD/TrainingTable.jsx:15-16 | for a non-negative duration the minutes field is exactly two digits |
| TrainingTable.ReadTableDurationRoundTrip | frontend/src/components/Training/CRUD/TrainingTable.jsx:13-17 | the `Hh MMm` text of a non-negative number of minutes reads back as that number: the hours are the quotient by 60 and the minutes the remainder |
| TrainingTable.TableDuration | frontend/src/components/Training/CRUD/TrainingTable.jsx:13-17 | the `Hh MMm` text; `ReadTableDurationRoundTrip` states a non-negative duration reads back as itself and `MinutesTwoDigits` that the minutes take two digits |
| TrainingTable.Body | frontend/src/components/Training/CRUD/TrainingTable.jsx:35-94 | one row per training, in order, or a single row spanning all eight header columns exactly when the list is empty (also lines 23-32) |
| TrainingTable.RowOf | frontend/src/components/Training/CRUD/TrainingTable.jsx:37-54 | the row of one training shows its id, title, department, author, status and progress, and its duration as `TableDuration`, which reads back as the duration when it is not negative |
| OverviewTab.GetExt | frontend/src/components/Training/TrainingDetail/OverviewTab.jsx:21-24 | a resource without a file has the empty extension |
| OverviewTab.GetExtOfDotted | frontend/src/components/Training/TrainingDetail/OverviewTab.jsx:21-24 | a file name ending in `.ext` has extension `ext`, lower-cased |
| OverviewTab.GetExtWithoutDot | frontend/src/components/Training/TrainingDetail/OverviewTab.jsx:21-24 | a name without a dot is its own extension, lower-cased |
| OverviewTab.ToAbsolute | frontend/src/components/Training/TrainingDetail/OverviewTab.jsx:26-29 | `""` for a missing or empty URL; a URL starting with `http` unchanged; any other prefixed with the page origin |
| OverviewTab.ToAbsoluteIdempotent | frontend/src/components/Training/TrainingDetail/OverviewTab.jsx:26-29 | with an `http` origin, making a URL absolute twice is making it absolute once |
| OverviewTab.FmtDurationRoundTrip | frontend/src/components/Training/TrainingDetail/OverviewTab.jsx:31-38 | a positive number of minutes is shown as whole hours (omitted when 0) and fewer than 60 minutes that add back up to it |
| OverviewTab.FmtDuration | frontend/src/components/Training/TrainingDetail/OverviewTab.jsx:31-38 | the `Hh Mmin` text; `FmtDurationRoundTrip` states a positive duration shows whole hours and fewer than 60 minutes adding back up to it |
| ResourcePreview.ToAbsolute | frontend/src/components/Training/TrainingDetail/ResourcePreviewModal.jsx:9-10 | a missing or empty URL is returned as it is; a URL starting with `http` unchanged; any other prefixed with the page origin |
| ResourcePreview.GetExtensionFromUrl | frontend/src/components/Training/TrainingDetail/ResourcePreviewModal.jsx:12-20 | a URL that fails to decode has the empty extension |
| ResourcePreview.ExtensionOfPath | frontend/src/components/Training/TrainingDetail/ResourcePreviewModal.jsx:14-16 | the extension is the lower-cased text after the last dot of the last path segment |
| ResourcePreview.NoDotNoExtension | frontend/src/components/Training/TrainingDetail/ResourcePreviewModal.jsx:16 | a last path segment without a dot has the empty extension |
| ResourcePreview.HelpersDisagree | frontend/src/components/Training/TrainingDetail/ResourcePreviewModal.jsx:9-20 | the dialog's helpers differ from the overview tab's on a dotless name (`readme` against `""`) and on a missing URL (`""` against the missing value) |
| ResourcePreview.RenderPreview | frontend/src/components/Training/TrainingDetail/ResourcePreviewModal.jsx:25-47 | nothing without a URL; a PDF frame exactly for `pdf`; the office viewer exactly for an office extension over `https://`; an image or video exactly for those extensions; the frames show the URL itself |
| ResourcePreview.OfficeNeedsHttps | frontend/src/components/Training/TrainingDetail/ResourcePreviewModal.jsx:29-46 | an office document not served over `https://` shows "preview unavailable" |
| ResourcePreview.ModalPreview | frontend/src/components/Training/TrainingDetail/ResourcePreviewModal.jsx:80-81 | an explicit extension decides the preview of `res.file \|\| res.url` made absolute |
| ResourcePreview.DerivedExtensionDecides | frontend/src/components/Training/TrainingDetail/ResourcePreviewModal.jsx:80-81 | without a truthy `ext`, a URL that decodes to a path ending in `.ext` is previewed as an `ext` file, so a `.pdf` path gets the PDF frame |
| ResourcePreview.ExplicitExtensionWins | frontend/src/components/Training/TrainingDetail/ResourcePreviewModal.jsx:81 | with an explicit `pdf` extension the preview is the PDF frame, whatever the URL decodes to |
| Profile.ExperienceText | frontend/src/pages/Profile.jsx:165-174 | a value that is not a number, `NaN` or negative shows the fallback `0 ans, 0 mois` |
| Profile.ExperienceRoundTrip | frontend/src/pages/Profile.jsx:165-174 | the text of a non-negative month count reads back as that count: whole years and fewer than 12 remaining months |
| Profile.ReadWords | frontend/src/pages/Profile.jsx:173 | `"Y an[s], M mois"` with `M < 12` reads as `12·Y + M` months, whichever year word is used |
| Profile.SplitFour | frontend/src/pages/Profile.jsx:173 | the experience text has exactly four space-separated words |
| Profile.ZeroIsNotTheFallback | frontend/src/pages/Profile.jsx:166-173 | zero months shows `0 an, 0 mois`, which differs from the fallback `0 ans, 0 mois` |
| Profile.NonNumericShowsZero | frontend/src/pages/Profile.jsx:243 | a field value that does not start with a number shows as zero months |
| Profile.ExperienceField | frontend/src/pages/Profile.jsx:243 | `parseInt(value, 10) || 0` shown as experience; `NonNumericShowsZero` states non-numeric text shows as zero months |
| Profile.HandleSave | frontend/src/pages/Profile.jsx:108-130 | the loop over the profile's keys sends exactly the payload of the whole profile, key by key in order |
| Profile.EntriesForMeaning | frontend/src/pages/Profile.jsx:111-130 | `projet` is never sent; `photo` and `ddc` are sent only as files; `manager` and `backup` only when truthy; `null` adds one empty text; an empty text on an ordinary key is appended twice and `undefined` not at all |
| Profile.PayloadKeys | frontend/src/pages/Profile.jsx:108-130 | every entry sent carries a key of the profile, and none is `projet` |
| Profile.EntriesFor | frontend/src/pages/Profile.jsx:111-130 | the entries one key adds; `EntriesForMeaning` states which keys and values are sent |
| Profile.Payload | frontend/src/pages/Profile.jsx:108-130 | the entries of the whole profile, key by key; `PayloadKeys` states every entry has a profile key and none is `projet`, and `HandleSave` that the loop sends exactly this |
| Profile.SubmitPassword | frontend/src/pages/Profile.jsx:179-192 | no request exactly when the new password and its confirmation differ; otherwise the old and new passwords are sent |
| RadarCompetence.Params | frontend/src/pages/Radar/RadarCompetence.jsx:51-55 | `user_id`, `equipe_id` and `projet_id` are sent exactly when selected, with the selected values, and nothing else is sent |
| RadarCompetence.TotalCollab | frontend/src/pages/Radar/RadarCompetence.jsx:92 | the number of table rows when there are any, otherwise the number of users |
| RadarCompetence.SumBounds | frontend/src/pages/Radar/RadarCompetence.jsx:94 | scores between `lo` and `hi` sum to between `n·lo` and `n·hi` |
| RadarCompetence.MeanScoreBounds | frontend/src/pages/Radar/RadarCompetence.jsx:94 | the rounded mean score lies between the lowest and the highest possible score |
| RadarCompetence.MeanOfEqualScores | frontend/src/pages/Radar/RadarCompetence.jsx:94 | the mean of equal scores is that score |
| RadarCompetence.MeanScore | frontend/src/pages/Radar/RadarCompetence.jsx:94 | the rounded mean score, 0 without data; `MeanScoreBounds` bounds it by the lowest and highest score and `MeanOfEqualScores` gives the mean of equal scores |
| RadarCompetence.InsertDesc | frontend/src/pages/Radar/RadarCompetence.jsx:95 | inserting a row adds exactly that row |
| RadarCompetence.InsertDescSorted | frontend/src/pages/Radar/RadarCompetence.jsx:95 | inserting into a list ordered by decreasing average keeps it ordered |
| RadarCompetence.SortDesc | frontend/src/pages/Radar/RadarCompetence.jsx:95 | the sorted copy is a permutation of the table ordered by decreasing average |
| RadarCompetence.Top3Meaning | frontend/src/pages/Radar/RadarCompetence.jsx:95 | the top three holds `min(3, n)` rows of the table in decreasing order of average, and no row left out has a higher average than the last one kept |
| RadarCompetence.Top3 | frontend/src/pages/Radar/RadarCompetence.jsx:95 | the first three sorted rows; `Top3Meaning` states they are `min(3, n)` rows of the table by decreasing average, none left out above the last one kept |
| RadarCompetence.ScoreCell | frontend/src/pages/Radar/RadarCompetence.jsx:128-130 | the domain's score, and 0 when the row has no score for that domain |
| RadarCompetence.Body | frontend/src/pages/Radar/RadarCompetence.jsx:120-135 | one row of one cell per domain for each table row, the cell showing that row's score for the domain or 0 when it has none, or a single row spanning the domains plus three columns exactly when the table is empty |
| ProjetForm.InitialForm | frontend/src/pages/Projet/ProjetForm.jsx:14-28 | the form starts with all thirteen fields |
| ProjetForm.Check | frontend/src/pages/Projet/ProjetForm.jsx:36-44 | one validation step adds the error of the next required field exactly when it is empty |
| ProjetForm.ValidateForm | frontend/src/pages/Projet/ProjetForm.jsx:35-46 | an error exactly for each of the seven required fields that is empty, each with its field's message |
| ProjetForm.HandleChange | frontend/src/pages/Projet/ProjetForm.jsx:83-90 | the named field takes the typed value and every other field is unchanged |
| ProjetForm.HandleSelectChange | frontend/src/pages/Projet/ProjetForm.jsx:92-98 | the named field becomes `null` exactly when the empty option is chosen, the value otherwise; every other field is unchanged |
| ProjetForm.HandlersAndValidation | frontend/src/pages/Projet/ProjetForm.jsx:83-98 | choosing the empty option makes a field missing, a non-empty value makes it filled, and other fields keep their state (also lines 35-46) |
| ProjetForm.HandleSubmit | frontend/src/pages/Projet/ProjetForm.jsx:100-121 | a request is sent exactly when there is no error, carrying the form as it is: a `PUT` to the project in edit mode, a `POST` otherwise |
| ProjetForm.InitialFormBlocked | frontend/src/pages/Projet/ProjetForm.jsx:14-46 | the initial form fails every required field, while `statut` starts filled |
| JsMath.RoundDivMeaning | frontend/src/components/Training/Hooks/useTrainingProgress.js:49 | `Math.round` of a quotient is the integer within one half of it, halves rounded up |
| JsMath.RoundPercentBounds | frontend/src/components/Training/Hooks/useTrainingProgress.js:49 | a rounded percentage of `c` items out of `t` lies in 0..100, is 0 exactly below one half percent, and below 200 items is 100 exactly when every item is done |
| JsMath.OneShortRoundsToFull | frontend/src/components/Training/Hooks/useTrainingProgress.js:49 | 199 items out of 200 already round to 100 % |
| JsMath.JsRem | frontend/src/components/Training/CRUD/TrainingTable.jsx:15 | JavaScript's `%` agrees with the mathematical remainder on non-negative operands and stays strictly between `-b` and `b` |
| Navbar.GetUserInitials | frontend/src/components/Public/Navbar/Navbar.jsx:100-116 | `?` without a user or without either name; the upper-cased first letters of the last name then the first name when both are set; otherwise the one set name's upper-cased first letter; always one or two characters |
| Navbar.TwoInitialsIffBothNames | frontend/src/components/Public/Navbar/Navbar.jsx:107-113 | two initials exactly when both names are non-empty |
| ProtectedRoute.Decide | frontend/src/components/ProtectedRoute.jsx:10-27 | an unauthenticated user always goes to the login page; an authenticated one sees the page exactly when their role is among the allowed roles, and goes to the unauthorised page otherwise |
| ProtectedRoute.GuardOrder | frontend/src/components/ProtectedRoute.jsx:15-23 | authentication is checked before the role; an empty list of roles lets nobody in; allowing one more role never locks out someone already admitted |
| ProgressStore.Saved | frontend/src/helpers/progressStore.js:7-9 | the store afterwards holds exactly the old trainings plus the saved one |
| ProgressStore.SavedMeaning | frontend/src/helpers/progressStore.js:9 | the partial entry's keys take its values, the other keys of the old entry keep theirs, no other key appears, and every other training is untouched |
| ProgressStore.SaveEmptyPartial | frontend/src/helpers/progressStore.js:9 | saving an empty partial entry keeps the training's values and creates `{}` for an unknown training |
| ProgressStore.SaveIdempotent | frontend/src/helpers/progressStore.js:7-11 | saving the same partial entry twice is saving it once |
| ProgressStore.Storage.constructor | frontend/src/helpers/progressStore.js:1-5 | nothing is stored at first |
| ProgressStore.Storage.LoadProgress | frontend/src/helpers/progressStore.js:4-5 | the stored object, and `{}` when nothing was ever saved |
| ProgressStore.Storage.SaveProgress | frontend/src/helpers/progressStore.js:7-11 | the storage item afterwards is the saved merge of what was loaded |

## Left out

- Floating point: `int((c / t) * 100)` in `update_progress`, the score percentage and JavaScript's `Math.round(x / y * 100)` are computed on exact rationals. Binary floating point can differ in the last unit, e.g. Python gives `int(29 / 50 * 100) == 57` where the model gives 58. QuizTab's `score >= 0.7 * total` is taken as `10 * score >= 7 * total`.
- Database persistence: `save()`, `get_or_create`, relation managers and `transaction.on_commit` timing are not modelled. Tables are sequences of records, and deferred callbacks are an explicit pending list that `Commit` runs. In autocommit mode Django runs `on_commit` callbacks at once, which the model does not distinguish.
- Files and request parsing in the formation serializer are left out, as foreign code: `os.remove`, `request.FILES`, `json.loads` and Django's `parse_duration`. A resource entry's file is a flag, and a missing or falsy id is 0.
- Debug `print` calls in the backend have no effect on results and are left out.
- Logic that the core only calls is not part of this model: `Question.get_score_for_answer`, `Formation.total_estimated_time`, the radar and competence endpoints, and `getUserRole`/`isAuthenticated`. Their results are parameters (an integer score, a number of seconds, the table rows, a role and a flag).
- React rendering, toasts, navigation, axios/fetch, Chart.js, PDF export and the image fetch `toBase64` are left out; the person nodes of the org chart carry no image.
- `QuizTab.QuizSession.ValidationTimerFires`: the `setTimeout` auto-validation is a method the caller invokes; the delay itself is not modelled.
- `localStorage`: the progress store is an `Option<map>` field. `JSON.stringify`/`JSON.parse` are assumed to round-trip its values, and the store's key string is left out. The in-memory catalogue's `persist` is left out.
- Clocks and locale: `formatDate` in the project form and the `localeCompare`/`created_at` sort of the training list are left out. The statistics and filters do not depend on the order.
- Case mapping is ASCII only: `toLowerCase`/`toUpperCase`/`lower()` leave non-ASCII letters unchanged, and `ß` does not expand.
- JavaScript numbers are integers: `Number(s)` and `parseInt(s, 10)` are modelled on integer text. Any other text, including a fraction or an exponent, is `NaN`.
- `decodeURIComponent` is a parameter of the preview dialog (a result, or `None` where it throws), and `encodeURIComponent` of the office viewer is left out: the viewer variant carries the raw URL.
- JavaScript object keys are plain strings: inherited prototype keys such as `toString` are not modelled in the progress store or the quiz answer maps.
- `RadarCompetence.SortDesc`: the sort is specified as a stable insertion sort. The source relies on `Array.prototype.sort`, whose order among equal averages the model does not claim; `Top3Meaning` holds for any order among ties.
- `Profile.HandleSave`: `FormData` turns values into text; the payload keeps the typed values instead.
- `TrainingCard.Card`: `undefined` and `null` are one missing value, although the source defaults only an `undefined` progress to 0 and shows a `null` one as a bare `%`.
- `TrainingForm.Submit`: in edit mode the overlaid duration is stored as the parsed number, while the source's spread keeps the duration's text.
- `EquipeForm`'s `getAvailableUsers` is defined but never called by the page, so it is not modelled.
- `UseTrainingProgress.ProgressHook.MarkChapter`, `MarkResource`, `FinishQuiz`, `MarkAllChaptersCompleted` and `MarkAllResourcesRead` require a loaded state: on a `null` state the source throws.
- Aliasing: the in-memory catalogue (`mockTrainings`, `trainings`) and the component states are `seq` fields of one object each. Two references sharing an array are not modelled.
- The `total_items == 0` branch of `update_progress` cannot be taken, because the overview item makes the total at least 1 (`FormationModels.TotalItems`). The model marks that branch as unreachable.
- `FormationModels.ProgressAtMost100` assumes at most one row per user and item. The models declare no uniqueness constraint, and `FormationModels.DuplicateRowsExceed100` shows a progress above 100 from duplicate rows.
- FormationSignals.Hub.SaveUserModule: runs the corrected handler `OnUserModuleCompleteEach`, one callback per formation bound to its own record, which is also what autocommit mode gives. Inside a transaction the code as written queues the last record once per formation (`OnUserModuleComplete`, see Findings); the same holds for `UpdateUserModule`.
- FormationSignals.Hub.SaveUserResource: runs the corrected handler `OnUserResourceReadEach`; inside a transaction the code as written queues the last record once per formation (`OnUserResourceRead`, see Findings); the same holds for `UpdateUserResource`.
- FormationSync: the module block of `FormationWriteSerializer.update` (backend/formation/serializers.py, lines 386-428) is not part of this model. That block looks modules up by title in the whole module table, creates them from uploaded videos and deletes orphans, and it depends on file uploads. The `setattr` loop over the simple fields (lines 383-384) is left out too. Only the resource and quiz blocks are modelled.
- TrainingCard.StatusBadge: `statusMap[status] ?? statusMap.default` is modelled on the three own keys. An inherited key such as `toString` finds a function on the prototype instead of falling back to the `Inconnue` badge, and the model does not represent that.
- Trainings.Merge: an update may carry any training field, the id included. Keys that are not training fields, and a key given explicitly as `undefined`, are not represented.
- TrainingList.InDomain: the domain id arrives as its `String` form, so only a missing or empty id turns the domain filter off. A numeric id `0`, which is falsy too, is not represented.

## Findings

| source | as written | input that shows it | evidently intended | confidence | as-written member | corrected member |
|---|---|---|---|---|---|---|
| backend/formation/signals.py:10-16, 19-26 | the deferred `lambda: user_formation.update_progress()` reads the loop variable when the callbacks run, so every callback scheduled by one save recomputes the record of the last formation in the loop | a module that belongs to formations 1 and 2, saved inside a transaction: the callbacks recompute formation 2 twice and formation 1 never | each callback recomputes the record it was scheduled for (bind it, e.g. `lambda uf=user_formation: uf.update_progress()`) | not executed; only inside a transaction, since in autocommit mode `on_commit` runs each callback at once | `FormationSignals.Hub.OnUserModuleComplete`, `FormationSignals.Hub.OnUserResourceRead`, `FormationSignals.LateBindingExample` | `FormationSignals.Hub.OnUserModuleCompleteEach`, `FormationSignals.Hub.OnUserResourceReadEach` |
