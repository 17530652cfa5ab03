# Pokétwo helper bot: image matcher and quest store, modelled in Dafny

This project models two cogs of a Discord bot for the Pokétwo game.

`Cogs/ai.py` identifies the Pokémon on a spawn picture. `predict_pokemon` does
the following:
- normalises the colour channels;
- picks the largest foreground contour and cuts a padded region of interest (ROI) around it;
- scores every stored artwork against the ROI, combining two scores:
  - a structural score: the share of ORB keypoints that have a cross-checked match;
  - a regional score from `calculate_similarity`, which compares histograms over
    n×n grid cells, n horizontal, n vertical and n diagonal bands, the central
    region and four corners;
- keeps the first candidate with the best score, shows a top-six leaderboard,
  and calls the result a good match only when the best score is strictly above
  the threshold.

`Cogs/quest.py` stores quests in a `Servers` collection, keyed by guild id and
then by member id. Its `Quest_Data` class validates, inserts, creates, deletes
and updates quests. Its `Quest_Checker` class listens to messages and
reactions, advances the progress of the quests an event counts for, and
deletes a quest once it is completed.

Modules:
- `Wrappers`: the Option and Result types.
- `ColorFormat`: `ensure_correct_color_format`.
- `Geometry`:
  - Python slice bounds;
  - the padded ROI;
  - the region layout of `calculate_similarity`, and proofs that every region lies inside its image.
- `Scoring`:
  - the keypoint ratio and the equal-weight fusion;
  - numpy's mean and `round(x, 4)` (round half to even);
  - the stable descending sort, the leaderboard and the threshold.
- `Similarity`: `calculate_similarity`. The region comparisons are loops proved against `IntersectAll`.
- `Matcher`: `predict_pokemon`. The contour scan and the candidate loop are proved against `Predict`.
- `QuestRecords`: the documents of the `Servers` collection as values, and every update as a function on them.
- `Quests`:
  - the class `QuestData`, whose field `servers` maps guild ids to member lists and which every database operation reassigns;
  - the class `QuestChecker`, which shares that store.

Inputs of the model:
- OpenCV results: contour areas and bounding boxes, keypoint and match counts,
  and per-region histogram intersections, given as a function of the two regions.
  `None` marks a call that raises.
- Whether the Discord and file I/O after scoring succeeds, as a boolean.
- Scores are exact reals.

## Model

| member | source | states |
|---|---|---|
| ColorFormat.EnsureCorrectColorFormat | Cogs/ai.py:590-598 | Fails exactly when the image has no channel axis (IndexError), or has 3 or 4 channels but no pixels (`cv2.cvtColor` rejects an empty input). A 3-channel image gets channels 0 and 2 swapped, pixel by pixel. A 4-channel image keeps its first three channels. Any other channel count is returned unchanged. |
| ColorFormat.SwapTwiceIsIdentity | Cogs/ai.py:590-594 | A 3-channel image converts exactly when it is non-empty, and BGR-to-RGB applied twice then gives back the original image. |
| ColorFormat.ConvertedIsGrayConvertible | Cogs/ai.py:328-330 | The converted image can go through COLOR_RGB2GRAY exactly when the input has 3 or 4 channels and at least one pixel. |
| Geometry.PySlice | Cogs/ai.py:309 | A Python slice stays within `[0, n]`. It is the requested range when that range is in bounds, and empty when start is at least n or stop is at most start. |
| Geometry.RoiCrop | Cogs/ai.py:303-309 | The ROI is clamped to the image and contains the bounding box. On each side its margin is the smaller of the adaptive padding and the room left to the border. |
| Geometry.RoiAtMostDoubleBox | Cogs/ai.py:303-309 | The ROI is at most twice the box height tall and at most twice the box width wide. |
| Geometry.Layout | Cogs/ai.py:481-570 | Exactly n·n + 3n + 5 region pairs are compared: grid, horizontal, vertical, diagonal, central and four corners. |
| Geometry.LayoutInside | Cogs/ai.py:481-570 | Every compared region lies inside its own crop, the query's and the candidate's. |
| Geometry.CornersCollapseWhenCandidateSmaller | Cogs/ai.py:554-570 | When the candidate crop is smaller than the query crop, the integer scale factor is 0, so every candidate corner is an empty region at the origin. |
| Scoring.StructuralScore | Cogs/ai.py:343 | The match count divided by the keypoint count, or 0 when there are no keypoints. It lies in [0, 1] when the matches do not outnumber the keypoints. |
| Scoring.CombinedScore | Cogs/ai.py:349 | Lies midway between the structural and the regional score. |
| Scoring.GoodMatch | Cogs/ai.py:407-412 | True exactly when a score exists and is strictly above the threshold. A score equal to the threshold is not good. |
| Scoring.MeanBounds | Cogs/ai.py:575 | The mean lies between any lower and upper bound of the values it averages. |
| Scoring.RoundHalfEven | Cogs/ai.py:578 | The result is within 1/2 of x, and a tie goes to the even neighbour. |
| Scoring.Round4 | Cogs/ai.py:578 | `round(x, 4)` is within 1/20000 of x. |
| Scoring.Round4InUnit | Cogs/ai.py:578 | Rounding keeps a value of [0, 1] in [0, 1]. |
| Scoring.Round4Within | Cogs/ai.py:578 | Rounding keeps a value of [0, m/10000] in that range. |
| Scoring.Round4OnGrid | Cogs/ai.py:578 | A value already on the 1/10000 grid is unchanged by rounding. |
| Scoring.SortDescSortedPermutation | Cogs/ai.py:394 | The sorted list is in descending order and is a permutation of the input. |
| Scoring.SortDescStable | Cogs/ai.py:394 | The sort is stable: for each score, the entries with that score keep their input order. |
| Scoring.SortHeadIsFirstMax | Cogs/ai.py:394 | The head of the sorted list is the first entry with the maximal score. |
| Scoring.Leaderboard | Cogs/ai.py:398-403 | The leaderboard has min(6, number of entries) entries. |
| Scoring.LeaderboardIsTopSix | Cogs/ai.py:394-403 | The leaderboard is sorted and is a sub-multiset of the entries. No entry left off scores above an entry shown. |
| Scoring.BestHeadsLeaderboard | Cogs/ai.py:352-354 | The best match tracked by the loop is the first leaderboard row, with its score. |
| Similarity.FirstLargest | Cogs/ai.py:441 | `max(contours, key=contourArea)` picks the first contour of maximal area. |
| Similarity.IntersectAll | Cogs/ai.py:481-570 | With no failure, it gives one value per region pair, each the intersection for that pair. It fails exactly when some comparison raises. |
| Similarity.IntersectAllConcat | Cogs/ai.py:573 | Comparing two lists of region pairs in turn gives the values of both, or fails when either one fails. |
| Similarity.GridSimilarities | Cogs/ai.py:481-500 | The nested grid loop computes `IntersectAll` over the n·n cells, in row-major order. |
| Similarity.HorizontalSimilarities | Cogs/ai.py:506-515 | The loop over horizontal bands computes `IntersectAll` over those bands. |
| Similarity.VerticalSimilarities | Cogs/ai.py:518-527 | The loop over vertical bands computes `IntersectAll` over those bands. |
| Similarity.DiagonalSimilarities | Cogs/ai.py:530-545 | The loop over diagonal cells computes `IntersectAll` over those cells. |
| Similarity.CornerSimilarities | Cogs/ai.py:554-570 | The loop over the corners computes `IntersectAll` over the four scaled corners. |
| Similarity.RegionSimilarities | Cogs/ai.py:481-573 | The six groups, extended in source order, are `IntersectAll` over the whole layout. |
| Similarity.LayoutParts | Cogs/ai.py:573 | Comparing the whole layout is comparing its six groups in source order. |
| Similarity.CalculateSimilarity | Cogs/ai.py:425-585 | The method returns the regional score. That score is 0 when a crop is empty, n is 0 or a comparison raises. Otherwise it is the rounded mean of all region values. |
| Similarity.RegionalScoreIsRoundedMean | Cogs/ai.py:573-581 | The score is `round(mean, 4)` of exactly n·n + 3n + 5 values. It lies within 1/20000 of any bounds on those values. |
| Similarity.RegionalScoreWithin | Cogs/ai.py:474-581 | When every histogram intersection lies in [0, m/10000], so does the score. With NORM_MINMAX bins an intersection lies in [0, 512], so every score lies in [0, 512]. |
| Similarity.RegionalScoreInUnit | Cogs/ai.py:425-585 | When every histogram intersection lies in [0, 1], so does the score. Normalised histograms meet this hypothesis only in special cases. |
| Similarity.RegionalScoreOfUniformValues | Cogs/ai.py:575-578 | When every region has the same value on the 1/10000 grid, the score is that value. |
| Matcher.LargestContourIndex | Cogs/ai.py:285-294 | The scan gives -1 when no contour has positive area. Otherwise it gives the first index of the largest area. |
| Matcher.ScanPicksFirstLargest | Cogs/ai.py:285-294 | When the scan finds a contour, it picks the same one as `max(..., key=contourArea)`. |
| Matcher.LargestPositiveUnique | Cogs/ai.py:285-294 | The scan's result is unique, and the contour it picks has positive area. |
| Matcher.SplitExtRoundTrip | Cogs/ai.py:319 | Root plus extension is the file name. The extension is empty or a single dot-led suffix without further dots. A non-empty name keeps a non-empty root. |
| Matcher.RaisesExactly | Cogs/ai.py:326-341 | A candidate is skipped by the `except` exactly when: it is unreadable, it has no channel axis, it has a channel count other than 3 or 4, it has no pixels, or matching it fails. |
| Matcher.MatchesListConcat | Cogs/ai.py:318-361 | Running the loop over two lists in turn gives the concatenation of their match lists. |
| Matcher.SkippedCandidateIgnored | Cogs/ai.py:323-325 | A skipped candidate adds nothing to `matches_list`. |
| Matcher.EntriesInUnit | Cogs/ai.py:343-356 | Every listed score lies in [0, 1] when matches never outnumber keypoints and every intersection lies in [0, 1]. The second hypothesis holds only in special cases (see `Similarity.RegionalScoreWithin`). |
| Matcher.FirstBest | Cogs/ai.py:352-354 | A best name exists exactly when the best score is finite. |
| Matcher.FirstBestIsFirstMax | Cogs/ai.py:352-354 | The strict-improvement update keeps the first entry with the maximal score. On an empty list it keeps (None, -inf). |
| Matcher.PredictPokemon | Cogs/ai.py:246-421 | The method's outcome equals `Predict`: the colour check, the contour scan, the candidate loop, then the visualisation, leaderboard and verdict. |
| Matcher.NoForegroundExactly | Cogs/ai.py:285-297 | The run ends without a return exactly when the image converts to grey (3 or 4 channels, at least one pixel) and no contour has positive area. |
| Matcher.PredictedFacts | Cogs/ai.py:297-414 | A reported prediction has an ROI inside the image. It names the first best candidate, heads the leaderboard with it, and calls it good exactly when the score is strictly above the threshold. |
| Matcher.SkippedCandidateKeepsPrediction | Cogs/ai.py:323-360 | Skipped candidates do not change the outcome. |
| Matcher.NoScoredCandidateFails | Cogs/ai.py:364-390 | As written: for every query that converts to grey and has a contour of positive area, no scored candidate means the run ends in the error path, whatever the threshold and the I/O. |
| Matcher.IntendedReportsNoMatch | Cogs/ai.py:364-412 | Corrected: the same case reports no match with an empty leaderboard. Whenever a non-empty best name exists, the corrected run agrees with the run as written. |
| QuestRecords.ValidateInput | Cogs/quest.py:28-31 | Passes exactly when no argument is None or "". Otherwise it names the first rejected key. |
| QuestRecords.QuestValidation | Cogs/quest.py:109-112 | A quest passes validation exactly when its action, method and content are not empty. |
| QuestRecords.CreateValidation | Cogs/quest.py:148-160 | The arguments of `create_new_quest_for_all` pass exactly when the guild, action, method and content are not empty. |
| QuestRecords.UserIdsAreMembers | Cogs/quest.py:46-47 | A user id is listed exactly when the guild has that member, and with distinct dict keys no id is listed twice. |
| QuestRecords.IndexOfUser | Cogs/quest.py:282-287 | The first member with the id, or -1 exactly when no member has it. |
| QuestRecords.ReplaceQuestsFacts | Cogs/quest.py:192-209 | After `$set` on one member's quests, that member holds exactly the new list and every other member is unchanged. The ids are the old ones, with the member appended if it was new, and they stay distinct. |
| QuestRecords.ReplaceTwice | Cogs/quest.py:307-321 | Setting a member's quests twice equals setting them once, to the second list. |
| QuestRecords.ReplaceSame | Cogs/quest.py:307-321 | Setting a member's quests to its current list changes nothing. |
| QuestRecords.LatestQuestId | Cogs/quest.py:128-146 | The largest id, with a missing id counting as 0, and 0 for no quests. No quest has that id plus one. |
| QuestRecords.RemoveAllWithIdFacts | Cogs/quest.py:239-249 | The comprehension written back with `$set` removes every quest with the id and keeps every other one. It is the identity when no quest has the id, and applying it twice equals applying it once. |
| QuestRecords.RemoveAllWithIdConcat | Cogs/quest.py:243 | The comprehension works element by element: filtering a concatenation concatenates the filtered parts, so kept quests stay in their order. |
| QuestRecords.RemoveAllWithIdSingle | Cogs/quest.py:243 | A single quest is dropped exactly when it carries the id. |
| QuestRecords.RemoveAllWithIdCounts | Cogs/quest.py:243 | Each other quest is kept as many times as it occurred, and no copy of a quest with the id is kept. |
| QuestRecords.RemoveAllKeepsKeyed | Cogs/quest.py:239-249 | Removing a quest keeps the ids present and distinct. |
| QuestRecords.FirstWithId | Cogs/quest.py:290-294 | The first quest with the id, or -1 exactly when there is none. |
| QuestRecords.RemoveFirstIsRemoveAllWhenKeyed | Cogs/quest.py:263-305 | With distinct ids, removing the first match (`delete_quest_for_user`) equals removing all matches (`delete_quest`). |
| QuestRecords.RemoveFirstKeepsKeyed | Cogs/quest.py:290-300 | Removing a member's first match keeps every member's ids present and distinct. |
| QuestRecords.SetProgressKeepsKeyed | Cogs/quest.py:313-316 | Setting the progress keeps the ids present and distinct. |
| QuestRecords.AnyHasId | Cogs/quest.py:77 | When every quest has an id, says whether one carries the given id. A failure comes from a quest without an id (KeyError). |
| QuestRecords.Holders | Cogs/quest.py:75-78 | Exactly the members holding a quest with the id. |
| QuestRecords.UsersWithQuestAreHolders | Cogs/quest.py:58-87 | When every quest has an id, the scan returns exactly the holders, in member order. |
| QuestRecords.InsertIntoGuildFacts | Cogs/quest.py:117-121 | The guarded `$push` appends the quest unless the member already has its id. Other members are unchanged. Ids stay distinct. |
| QuestRecords.InsertIntoGuildIdempotent | Cogs/quest.py:117-121 | Inserting the same quest twice is inserting it once. |
| QuestRecords.InsertIntoGuildKeepsKeyed | Cogs/quest.py:117-121 | Insertion keeps every member's ids present and distinct. |
| QuestRecords.WithQuestForAllFacts | Cogs/quest.py:166-180 | Every member keeps its id and its old quests, followed by the new quest with an id above all of its old ones. Distinct ids stay distinct. |
| QuestRecords.RemoveEverywhereFacts | Cogs/quest.py:231-255 | Afterwards no member holds the id, every other quest is kept, and the member ids are unchanged. |
| QuestRecords.RemoveEverywhereKeepsOrder | Cogs/quest.py:231-255 | For every member and every split of its quest list, the new list is the filtered front followed by the filtered back. Every other quest keeps its count. |
| QuestRecords.ProgressedFromOld | Cogs/quest.py:341-350 | Every quest left after an event is an old quest, possibly with progress one higher. The list does not grow. |
| QuestRecords.ProgressRule | Cogs/quest.py:341-350 | A quest the event does not count for stays. One it counts for either stays with progress plus one, or, once that reaches `times`, is gone. |
| QuestRecords.ListenStep | Cogs/quest.py:341-350 | One round of the listener's loop on the stored list advances the list one quest further. |
| Quests.QuestData.constructor | Cogs/quest.py:15-23 | The store starts empty, valid and keyed. |
| Quests.QuestData.FindUsersInServer | Cogs/quest.py:33-56 | The member ids of the guild in member order, or none for an unknown guild. A user is listed exactly when it is a member of the guild, and in a valid store no user is listed twice. |
| Quests.QuestData.FindUsersWithQuest | Cogs/quest.py:58-87 | Empty for an unknown guild. Otherwise, when every quest has an id, exactly the holders of the quest. |
| Quests.QuestData.FindQuestsByUserAndServer | Cogs/quest.py:89-107 | Fails exactly when the user or guild id is empty. Otherwise returns the user's quests, empty when the user or guild is unknown. |
| Quests.QuestData.GetLatestQuestId | Cogs/quest.py:128-146 | The largest id among the user's quests, or 0 when there are none. One more is an unused id. |
| Quests.QuestData.InsertQuest | Cogs/quest.py:109-126 | Stores the quest with progress 0. Validation failures are swallowed, and a missing id raises. Otherwise the guarded insert is applied. The store stays valid and keyed. |
| Quests.QuestData.CreateNewQuestForAll | Cogs/quest.py:148-189 | Gives every member, in order, a new quest numbered one above that member's latest. Returns the last number, or None when validation fails or the guild is unknown. |
| Quests.QuestData.StampNext | Cogs/quest.py:166-180 | One round of the creation loop inserts the next member's quest with the next id. |
| Quests.QuestData.InsertNextQuest | Cogs/quest.py:167-180 | Returns the user's latest id plus one, and stores the quest under that id. |
| Quests.QuestData.AddUserToServer | Cogs/quest.py:192-209 | The user's quest list becomes empty. A new user is appended, and everyone else is unchanged. |
| Quests.QuestData.DeleteQuest | Cogs/quest.py:212-261 | Every member of a known guild loses its quests with the id, and other guilds are unchanged. |
| Quests.QuestData.DeleteQuestForUser | Cogs/quest.py:263-305 | Only that user's first quest with the id is removed. Nothing changes for an unknown guild or user. |
| Quests.QuestData.RemoveFirstMatch | Cogs/quest.py:290-294 | The search loop removes exactly the first quest with the id, or nothing. |
| Quests.QuestData.UpdateQuestProgress | Cogs/quest.py:307-321 | Sets the progress of the user's first quest with the id. Nothing changes when no such quest exists. |
| Quests.QuestChecker.OnMessage | Cogs/quest.py:329-354 | A human message advances the author's `send`/`message` quests in that channel whose content occurs in the text. Completed quests are deleted. |
| Quests.QuestChecker.OnReactionAdd | Cogs/quest.py:357-382 | A human reaction does the same for `react`/`reaction` quests, matching the emoji. |
| Quests.QuestChecker.Listen | Cogs/quest.py:329-382 | Bots, empty ids, and users without quests change nothing. Otherwise the user's list becomes `Progressed` of the snapshot. The store stays valid and keyed. |
| Quests.QuestChecker.ProcessAll | Cogs/quest.py:341-350 | The loop over the snapshot leaves exactly `Progressed(snapshot)` in the store. |
| Quests.QuestChecker.ProcessQuest | Cogs/quest.py:342-350 | One quest either completes it, updates its progress, or changes nothing. |
| Quests.QuestChecker.CompleteQuest | Cogs/quest.py:384-399 | Deletes the user's first quest with the completed quest's id. |

## Left out

- Pixel work is not modelled, because OpenCV and PIL are foreign code. This covers:
  - Canny edge detection, dilation and `findContours`;
  - ORB keypoints and brute-force matching;
  - resizing;
  - histograms and their intersection.

  Their results are parameters, and a call that raises is `None`.
- Floating point is not modelled: scores are exact reals, `np.mean` is an exact mean, and `round` rounds half to even on the exact value.
- Discord and file I/O is not modelled. This covers:
  - message sending and embeds;
  - loading `<best>.png`;
  - writing the detection images;
  - `os.listdir` and `os.path.isfile`.

  The candidates arrive in listing order, each with its `isFile` flag. The success of everything after the loop is one boolean.
- Logging and the error embeds of `handle_error` are not modelled. They change no state.
- MongoDB is a map from guild id to an ordered member list. Connection errors (`PyMongoError`) are not modelled.
- Quests.QuestData.InsertQuest: a repeated quest id is modelled as no visible change. The upsert in the source would then create a second guild document. `find_one` does not normally return that document, since it picks the first match in natural order, which MongoDB does not guarantee. A later guarded `$push` of an id that the first document has but the stray one lacks can also land in the stray document. The model has one document per guild.
- Quests.QuestChecker.CompleteQuest: the completion notice is not modelled. A failing send in the source would skip the deletion.
- Quests.QuestChecker: the source's checker owns its own `Quest_Data` instance. Both talk to the same database, so the model gives the checker the shared store.
- Quests.QuestChecker.Listen: each listener call is modelled as one atomic step, from the snapshot read to the last write. The same holds for Quests.QuestChecker.OnMessage, Quests.QuestChecker.OnReactionAdd and Quests.QuestChecker.CompleteQuest.
- Quests.QuestData: every method is modelled as one atomic step, including Quests.QuestData.DeleteQuestForUser and Quests.QuestData.DeleteQuest, which read the guild document and then write it back. The source runs on the asynchronous Motor driver and awaits between a read and its write (Cogs/quest.py:272, 297-300, 336-350, 364-378). discord.py runs each listener as its own task, so concurrent events can interleave. In the source this can lose work:
  - two events for one user can both write the snapshot's progress plus one, losing an increment;
  - `delete_quest_for_user` can write back a stale quest list over a quest that `insert_quest` pushed in between.

  The model captures neither interleaving.
- Quests.QuestChecker.Listen: requires that every stored quest has a distinct id, which `insert_quest` maintains. Without it, `quest['quest_id']` in the source can raise and abort the loop part way.
- Matcher.PredictPokemon: requires a well-formed image: every pixel has as many channels as the image declares. This is numpy's shape guarantee.
- The first definition of `ensure_correct_color_format` (Cogs/ai.py:90-98) is not modelled separately. The later one (Cogs/ai.py:590-598) shadows it, and both have the same body.
- The other commands of the cogs, the `Events/` package and `main.py` are not part of this model.

## Findings

| source | as written | input that shows it | evidently intended | confidence | as-written member | corrected member |
|---|---|---|---|---|---|---|
| Cogs/ai.py:364-390 | `detected_objects_path` is assigned only inside `if best_match:` but is used after it, so a run with no scored candidate raises `NameError`. The outer `except` then returns `(None, 0)`. | A non-empty 3-channel query with a contour of positive area, and an artwork folder that is empty or whose files all fail to read. | Report "No good match found" with an empty leaderboard and `(None, -inf)`. | not executed | Matcher.NoScoredCandidateFails | Matcher.IntendedReportsNoMatch |
