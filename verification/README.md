# A model of eaten.at's hard parts

This project models, in Dafny, the algorithms and protocols of the eaten.at
repository that are hardest to get right, and proves what they promise. Each
module follows one component of the source.

- The single-flight cache: `CacheKeys`, `CacheProtocol` (tasks, reference-counted
  key locks and cancellation as a system of steps), `CacheRuns` and `CacheClock`
  (whole runs, and the clock over them), `CacheTables` (the map of locks and the
  rows, updated in place), `CacheLike` (the prefix pattern of `evict_prefix`).
- Images: `ImageWork` (two permits and the cache's key locks together),
  `ImageFallback` (what one request tries, in which order), `JpegWalk` and
  `GifWalk` (the byte walks, against printers of the formats).
- The live editor: `LineText` (lines as one flat text), `Markup`,
  `MarkupMatches`, `MarkupReads` and `DrawnPlaces` (reading a line, drawing it
  and finding places in the drawing), `Editor` (the page's variables and
  handlers), `EditorText`, `EditorHistory` and `EditorReturns`.
- Two dynamic programs: `LineDiff` and `EditDistance`.
- Names and claims: `Slugs`, `PlaceSlugs`, `Claims`, `ClaimNames`,
  `CreatePublication`.
- `RateLimit`; `PhotoQueue`, `PhotoEdits`, `PhotoMessages`, `PhotoRuns` and
  `PhotoLosses`; `Threads`, `CleanText` and `WhiteSpace`; `Tids`.

Code that updates state in place is a class or a loop here too, and is tied to
a function on values; protocols are steps (`Enabled`, `Do`) and runs of steps.
The clock, randomness, the network, the document and the answers of the
database are parameters of the steps.

Where the code does less than its comments or a plain reading suggest, the
model keeps the code, and a lemma says exactly when the promise holds:

- A value stored by `put_bytes` can be replaced by a store that a dropped
  fetch left in the database's queue, because database work runs on after its
  caller is dropped (`CacheRuns.PutSurvivesIff`,
  `CacheRuns.DroppedFetchReplacesPut`).
- `evict_prefix` folds ASCII case, so it also evicts keys that start with the
  prefix in another case (`CacheLike.EvictsExactlyThePrefixIff`).
- Cutting and pasting back changes lines exactly when a carriage return was
  selected (`EditorText.CutThenPaste`), which only typing can bring
  (`EditorReturns.PastedBackUnlessTyped`).
- A picked file is lost without a message exactly when a draft is restored
  while it is queued or in flight, or the answer to it brings neither photo nor
  message (`PhotoLosses.PickIsLostIff`).
- An edit can be undone exactly when it begins a burst of typing or the textarea
  was not set since its burst began (`EditorHistory.EditIsUndoneIff`,
  `EditorHistory.TypingAfterSettingIsNotUndone`).
- The rate limiter's sweep costs nothing exactly when the dropped key was full
  again (`RateLimit.SweepIsFreeIff`); otherwise a key can be allowed more than
  its capacity and the refill (`RateLimit.SweepGivesATokenBack`).
- A claim and the record it is for can be left at odds, by a failed release, a
  write whose answer was lost, a refused move, an unusable receipt or a request
  dropped between two steps (`CreatePublication.ClaimAndRecordAgreeIff`,
  `CreatePublication.LostAnswerLeavesARecord`).
- Slugs tell places apart within one site (`PlaceSlugs.RunKeepsSlugs`), and
  across an author's sites exactly when the site of each first visit knows every
  slugged place (`PlaceSlugs.AcrossSitesIff`).
- Depths alone rebuild a thread exactly when it has at most 256 levels
  (`Threads.FaithfulIff`).
- Identifiers sort in the order they were minted exactly as their times do
  modulo 53 bits (`Tids.KeysIncreaseIff`), so always while times fit them
  (`Tids.KeysIncrease`) and not past them (`Tids.OverflowSortsFirst`).

## Model

| member | source | states |
|---|---|---|
| `CacheProtocol.SingleFlight` | crates/eaten-at/src/cache.rs:230-257 | in every reachable state of any number of `get_or_fetch_bytes` and `put_bytes` tasks, dropped at any await: a task between `lock_for` and `release_lock` holds the lock object now in the map for its key, and no two tasks are inside the section of one key |
| `CacheProtocol.LastHolder` | crates/eaten-at/src/cache.rs:436-446 | a reference count of at most two means nobody else between the two calls is under that name, so removing the entry by name is safe |
| `CacheProtocol.ReleaseKeepsLocks` | crates/eaten-at/src/cache.rs:436-446 | `release_lock` keeps the counts exact and every other holder's lock in the map |
| `CacheProtocol.OneInside` | crates/eaten-at/src/cache.rs:244-254 | two tasks holding a guard on one key are the same task |
| `CacheKeys.LockNameInjective` | crates/eaten-at/src/cache.rs:427-428 | two keys share a lock name only when namespace and key are both the same |
| `CacheRuns.AnswersAreFresh` | crates/eaten-at/src/cache.rs:355-371 | every cached answer, in every run, is the value last stored under that very namespace and key, not forgotten since, and younger than its positive or negative lifetime when its lookup read the clock |
| `CacheClock.EventsAreTimed` | crates/eaten-at/src/cache.rs:230-294 | over every run: a cached answer's lookup read the clock between its task's call and the answer, and a row a task stored is dated between the task's call and the end of the store |
| `CacheClock.AnswersAreYoung` | crates/eaten-at/src/cache.rs:355-371 | over every run: a cached answer is the row last stored under its namespace and key and not forgotten since, and that store ended less than the answer's lifetime, spelt out in seconds for each namespace, before its task was called |
| `CacheClock.LiveRowIsAnswered` | crates/eaten-at/src/cache.rs:238-248 | a reader that looks while a live row is there, before it takes the lock or with it, is answered by that row and does not fetch |
| `CacheClock.FetchedIsStored` | crates/eaten-at/src/cache.rs:249-254 | what a fetch returned is what its task stores, dated when it was fetched, whatever others do in between |
| `CacheClock.PutIsStored` | crates/eaten-at/src/cache.rs:281-294 | what `put_bytes` was given is what its task stores, whatever others do in between |
| `CacheClock.ForgetsExactly` | crates/eaten-at/src/cache.rs:297-333 | a deletion forgets exactly the rows it is meant for: the key's, those with the prefix up to ASCII case, or the expired ones |
| `CacheClock.FailuresChangeNoRow` | crates/eaten-at/src/cache.rs:355-409 | a database step that fails changes no row: a failed read is a miss, a failed store is told as the fetch's or the put's, and one left behind is gone |
| `CacheRuns.FetchesAreSeparated` | crates/eaten-at/src/cache.rs:240-257 | between two successful fetches of one key its row expired, was deleted or failed to be stored, its caller was dropped before the store, or a read failed |
| `CacheRuns.PutSurvivesIff` | crates/eaten-at/src/cache.rs:281-294 | after `put_bytes` succeeds its value stays, in every run that does not forget the key, find it expired, fail to read it or write it explicitly, if and only if no differing store of that key is queued by a dropped fetch |
| `CacheRuns.DroppedFetchReplacesPut` | crates/eaten-at/src/cache.rs:230-294 | such a run exists: a fetch is dropped while its store waits for the database, a preview is put, and then the old store runs |
| `CacheTables.InflightLocks.LockFor` | crates/eaten-at/src/cache.rs:427-434 | updates the in-flight map in place exactly as the protocol's step does, and returns the lock under the key's name |
| `CacheTables.InflightLocks.ReleaseLock` | crates/eaten-at/src/cache.rs:436-446 | removes the entry exactly when the count of the caller's lock is at most two |
| `CacheTables.CacheRows.Lookup` | crates/eaten-at/src/cache.rs:355-371 | a hit is a row of that namespace and key that has not expired; a negative row is a hit with no value; a failed read is a miss |
| `CacheTables.CacheRows.TryStore` | crates/eaten-at/src/cache.rs:379-409 | an accepted store is a hit for exactly its kind's lifetime and changes no other answer; a failed one is reported and changes none |
| `CacheTables.CacheRows.Evict` | crates/eaten-at/src/cache.rs:297-308 | from then on that key is a miss and no other answer changes; a failed delete changes none |
| `CacheTables.CacheRows.EvictPrefix` | crates/eaten-at/src/cache.rs:311-322 | exactly the keys of the namespace that start with the prefix up to ASCII case become misses and no other answer changes; a failed delete changes none |
| `CacheTables.CacheRows.PurgeExpired` | crates/eaten-at/src/cache.rs:325-333 | no answer at that time or later changes; nothing expired is left; the count is what was removed, and none when the delete fails |
| `CacheLike.EscapeLike` | crates/eaten-at/src/cache.rs:450-459 | the loop's result is the escaped pattern the next two lemmas are about |
| `CacheLike.PatternIsPrefixTest` | crates/eaten-at/src/cache.rs:311-322 | the pattern, escaped and followed by `%`, matches exactly the texts that start with the prefix up to ASCII case, whatever characters it holds |
| `CacheLike.EvictsExactlyThePrefixIff` | crates/eaten-at/src/cache.rs:310-322 | the documented test (the key starts with the prefix) is met for every key if and only if the prefix has no ASCII letter |
| `ImageWork.BudgetHolds` | crates/eaten-at/src/img.rs:601-614 | free and held permits are always the two there are, never more than two decoded images are alive, and every locked key has one live owner, whatever fails or is dropped |
| `ImageWork.NoHoldingAndWaiting` | crates/eaten-at/src/img.rs:246-294 | nothing waits for a permit with a permit in hand, or for a key lock with a permit or a key lock in hand |
| `ImageWork.NoDeadlock` | crates/eaten-at/src/img.rs:246-440 | while any request or orphaned job is unfinished some step forward is enabled |
| `ImageWork.EveryoneFinishes` | crates/eaten-at/src/img.rs:149-179 | without new requests no run is longer than the steps still due, and one that can go no further has finished everything, with both permits free and no key locked |
| `ImageWork.StepKeepsPermits` | crates/eaten-at/src/img.rs:149-179 | each step takes a permit from the free ones or gives it back to them, cancellation and failed decodes included |
| `ImageWork.StepKeepsKeys` | crates/eaten-at/src/cache.rs:244-257 | each step takes a key nobody has, keeps it, or gives it back as its owner |
| `ImageWork.NextMovesOn` | crates/eaten-at/src/img.rs:246-440 | every step of a request, whichever way it goes, leaves it strictly fewer steps to take |
| `ImageFallback.RequestIsInTurn` | crates/eaten-at/src/img.rs:181-296 | whatever comes of its steps, a request for a cover, an icon or a photo builds after a miss with its key locked, or without it after a remembered failure that is no photo's; tries its sources in order, each after the one before failed; draws the placeholder when all failed, a cover's once more after a failed encode; stores what was encoded, or that nothing could be; and is done only when answered from the cache, built or dropped |
| `ImageFallback.UploadIsInTurn` | crates/eaten-at/src/img.rs:346-374 | an upload's previews are put in order, each after the one before, and it is done when all are or it failed or was dropped |
| `EditorText.ReplacingSplices` | crates/eaten-at-web/static/digest.js:223-236 | replacing a selection (typing over it, cutting, pasting) is one splice of the flat text with line ends normalised; no line holds a newline; the caret is just after what was put in |
| `EditorText.ReturnSplices` | crates/eaten-at-web/static/digest.js:418-440 | Return is one splice with the caret after it: nothing is taken out, or the whole prefix of an empty item |
| `EditorText.ReturnInserts` | crates/eaten-at-web/static/digest.js:418-436 | what Return puts in: one newline, two after prose, or a newline and the next item's prefix |
| `EditorText.ReturnContinuesTheList` | crates/eaten-at-web/static/digest.js:428-434 | the new line under an item or a quote is of the same kind with the same prefix, or in a numbered list the next number |
| `EditorText.BackspaceSplices` | crates/eaten-at-web/static/digest.js:441-449 | Backspace at a line's start takes out the newline before it |
| `EditorText.DeleteSplices` | crates/eaten-at-web/static/digest.js:450-458 | Delete at a line's end takes out the newline after it |
| `EditorText.NewlineBetween` | crates/eaten-at-web/static/digest.js:441-458 | between one line's end and the next one's start lies exactly one newline of the flat text |
| `EditorText.EditSplices` | crates/eaten-at-web/static/digest.js:348-364 | typing replaces one line's part of the flat text; each newline typed is a space and all else is kept |
| `EditorText.SelectedIsTheText` | crates/eaten-at-web/static/digest.js:217-222 | what is copied is the selected part of the flat text |
| `EditorText.CutThenPaste` | crates/eaten-at-web/static/digest.js:217-247 | cutting and pasting back restores the lines if and only if no carriage return was selected |
| `EditorReturns.PastedBackUnlessTyped` | crates/eaten-at-web/static/digest.js:217-247 | from any text and over any run in which no carriage return is typed, no line holds one, and cutting any selection and pasting it back restores the lines |
| `EditorReturns.TypedReturnIsNotPastedBack` | crates/eaten-at-web/static/digest.js:348-364 | a run that types a carriage return, after which it does not |
| `EditorText.RedrawnLineReadsBack` | crates/eaten-at-web/static/digest.js:348-364 | reading the active line back from its own drawing changes no line |
| `LineText.SplitSpells` | crates/eaten-at-web/static/digest.js:29 | splitting any text gives lines without newlines that join to the normalised text |
| `LineText.SplitReadsAnyEnds` | crates/eaten-at-web/static/digest.js:29 | of lines with a newline, a carriage return or both after each, in any mixture, splitting gives exactly the lines |
| `LineText.NormalIff` | crates/eaten-at-web/static/digest.js:29 | normalising changes a text if and only if it holds a carriage return |
| `LineText.LinesOfFlat` | crates/eaten-at-web/static/digest.js:29 | joining lines and splitting again gives the same lines |
| `LineText.AtIsInjective` | crates/eaten-at-web/static/digest.js:217-236 | a place in the lines is determined by its offset in the flat text |
| `LineText.ReplacedIsASplice` | crates/eaten-at-web/static/digest.js:223-236 | replacing what lies between two places is one splice of the flat text |
| `Editor.Page.Remember` | crates/eaten-at-web/static/digest.js:259-267 | pushes a snapshot, dropping the oldest past 200, and clears redo; a burst on one line within 600 ms only moves its time |
| `Editor.Page.Undo` | crates/eaten-at-web/static/digest.js:268-279 | the state after an undo, in full |
| `Editor.Page.Redo` | crates/eaten-at-web/static/digest.js:268-279 | the state after a redo, in full |
| `Editor.Page.ReplaceSelection` | crates/eaten-at-web/static/digest.js:223-236 | the state after replacing a selection, in full |
| `Editor.Page.Return` | crates/eaten-at-web/static/digest.js:418-440 | the state after Return, in full |
| `Editor.Page.Backspace` | crates/eaten-at-web/static/digest.js:441-449 | the state after joining a line to the one before, in full |
| `Editor.Page.DeleteForward` | crates/eaten-at-web/static/digest.js:450-458 | the state after joining the next line, in full |
| `Editor.Page.Edit` | crates/eaten-at-web/static/digest.js:348-364 | the state after typing, in full |
| `Editor.Page.Change` | crates/eaten-at-web/static/digest.js:485-491 | the state after the textarea was set, in full |
| `Editor.Page.Activate` | crates/eaten-at-web/static/digest.js:281-285 | the active line and the caret are clamped into range |
| `EditorHistory.UndoRedoRestores` | crates/eaten-at-web/static/digest.js:268-279 | k undos and then k redos restore the lines, the active line, the caret and both stacks exactly, if and only if the undos did not run out with something left to redo |
| `EditorHistory.UndoIsEarlierStates` | crates/eaten-at-web/static/digest.js:259-279 | over any run what undo holds is a subsequence, in order, of the states since the textarea was last set |
| `EditorHistory.RedoOnlyAfterRestore` | crates/eaten-at-web/static/digest.js:259-279 | redo is non-empty only while no line was edited since the last restore, despite the coalescing |
| `EditorHistory.EditClearsRedo` | crates/eaten-at-web/static/digest.js:259-267 | every edit empties redo, even one that joins the burst before it |
| `EditorHistory.EditIsUndoneIff` | crates/eaten-at-web/static/digest.js:259-279 | after any run an edit can be undone if and only if it begins a burst of typing or the textarea was not set since its burst began, and undoing it goes back to the lines, the active line and the caret from before the burst |
| `EditorHistory.OldestIsForgotten` | crates/eaten-at-web/static/digest.js:259-267 | what begins a burst is remembered, and only from the 200th snapshot on the oldest is forgotten for it |
| `EditorHistory.TypingAfterSettingIsNotUndone` | crates/eaten-at-web/static/digest.js:485-491 | a run in which the textarea is set and the next typing, on the same line number within 600 ms, cannot be undone |
| `EditorHistory.EveryRunIsValid` | crates/eaten-at-web/static/digest.js:259-285 | from any text and over any run: lines hold no newline, the active line and the caret are in range here and in every snapshot, and at most 200 snapshots are kept in all |
| `MarkupReads.SegmentsSpellTheLine` | crates/eaten-at-web/static/digest.js:40-55 | the segments' sources, one after the other, are the line |
| `MarkupReads.MatchIsThere` | crates/eaten-at-web/static/digest.js:40-55 | what the tokenizer matches is what stands there, marks and address included |
| `MarkupMatches.MatchIff` | crates/eaten-at-web/static/digest.js:40-55 | what is matched at a place is what stands there, each kind defined by its marks and what may be between them, and comes first in the order strong, `*`, `_`, code, link |
| `MarkupMatches.SegmentsIff` | crates/eaten-at-web/static/digest.js:40-55 | the segments of a line are the one way to read it from the left: plain text in which no markup starts, and what stands first where it stands |
| `MarkupMatches.BlockIff` | crates/eaten-at-web/static/digest.js:32-39 | a line is the heading, item, numbered item or quote whose prefix it starts with, and prose when it starts with none |
| `MarkupReads.DrawingReadsBack` | crates/eaten-at-web/static/digest.js:56-75 | the text of the caret's line as drawn is exactly the line, and a folded line's text is its bullet and its segments' text |
| `MarkupReads.SegmentIs` | crates/eaten-at-web/static/digest.js:66-73 | each kind's text is drawn in its own element, spelt out, with its marks around it on the caret's line |
| `MarkupReads.PrefixIs` | crates/eaten-at-web/static/digest.js:58-65 | a folded item starts with a bullet, a numbered one with its number, and nothing else with anything; the caret's line with its whole prefix |
| `MarkupReads.EscapedHasNoTag` | crates/eaten-at-web/static/digest.js:56 | nothing a line says can open or close an element |
| `MarkupReads.NothingIsABreak` | crates/eaten-at-web/static/digest.js:73 | no line is drawn as nothing, and an empty one as a break |
| `DrawnPlaces.ShownLandsRight` | crates/eaten-at-web/static/digest.js:168-184 | a drawn place past the bullet maps into range, just after the character the reader sees before it |
| `DrawnPlaces.ShownGrows` | crates/eaten-at-web/static/digest.js:168-184 | further in the drawing is strictly further in the source |
| `DrawnPlaces.ShownNeverGoesBack` | crates/eaten-at-web/static/digest.js:168-184 | over every offset, in the bullet and past the end too, the map never goes back, so a selection's ends stay in order |
| `DrawnPlaces.MapShown` | crates/eaten-at-web/static/digest.js:169-184 | the loop over the segments computes that map |
| `Markup.SegmentsOf` | crates/eaten-at-web/static/digest.js:40-55 | the loop over leftmost matches computes the segments |
| `Markup.DrawLine` | crates/eaten-at-web/static/digest.js:56-75 | the string built piece by piece is the line's drawing |
| `LineDiff.Diff` | crates/eaten-at-atproto/src/lexicon/publish.rs:146-182 | prints exactly the marked lines of the walk |
| `LineDiff.FillTable` | crates/eaten-at-atproto/src/lexicon/publish.rs:150-159 | the table filled backwards in nested loops holds the recurrence's value everywhere |
| `LineDiff.DiffIsOptimal` | crates/eaten-at-atproto/src/lexicon/publish.rs:146-182 | unchanged and removed lines spell the old text, unchanged and added lines the new one; the unchanged ones are a common subsequence no other is longer than; no diff marks fewer lines |
| `LineDiff.LcsIsGreatest` | crates/eaten-at-atproto/src/lexicon/publish.rs:150-159 | no common subsequence is longer than the table's entry |
| `LineDiff.KeptIsCommon` | crates/eaten-at-atproto/src/lexicon/publish.rs:160-181 | in any diff the unchanged lines are a common subsequence and the marked ones are the rest |
| `LineDiff.RenderReadsBack` | crates/eaten-at-atproto/src/lexicon/publish.rs:160-181 | a reader of the printed diff gets every marked line back |
| `LineDiff.AddedGoesFirst` | crates/eaten-at-atproto/src/lexicon/publish.rs:160-181 | where the lines differ the new one goes first exactly when some longest common subsequence does without it |
| `EditDistance.Distance` | crates/eaten-at-web/static/choose-place.js:49-60 | the two-row loops compute the recurrence's value |
| `EditDistance.DistanceIsLeast` | crates/eaten-at-web/static/choose-place.js:49-60 | it is the least number of single-character insertions, deletions and substitutions that turn one string into the other |
| `EditDistance.DistanceIsMetric` | crates/eaten-at-web/static/choose-place.js:49-60 | symmetric, zero only on equal strings, and within the triangle inequality |
| `EditDistance.Corrects` | crates/eaten-at-web/static/choose-place.js:62-68 | for folded names: true exactly when the typed one is not empty and not "home", and the two are equal, or the typed one has three characters or more and one of the two starts the other (an empty picked name included), or they are within one edit, two where both have six characters |
| `JpegWalk.EndIsRead` | crates/eaten-at/src/img.rs:676-720 | a printed single-scan JPEG, with fill bytes and any payloads, reads as whole with its end marker, and without it as having no end marker or as cut short, according to whether its frame is progressive |
| `JpegWalk.NoScanIsWhole` | crates/eaten-at/src/img.rs:676-720 | a file that ends before any scan, or where no marker stands after a segment, is left to its decoder |
| `JpegWalk.CutHeadIsCutShort` | crates/eaten-at/src/img.rs:676-720 | every cut before the scan header's length is complete reads as cut short |
| `JpegWalk.NoEndInCutTail` | crates/eaten-at/src/img.rs:705-713 | cutting the scan's data anywhere leaves no end marker in it |
| `JpegWalk.StepsOverSegment` | crates/eaten-at/src/img.rs:682-716 | the walk steps over a whole segment, whatever its payload holds |
| `JpegWalk.JpegEndOf` | crates/eaten-at/src/img.rs:676-720 | the loop computes the walk and ends on every byte string |
| `JpegWalk.FindEnd` | crates/eaten-at/src/img.rs:705-708 | the window search finds an end marker exactly when there is one |
| `GifWalk.AnimatedIffTwoImages` | crates/eaten-at/src/img.rs:551-599 | a GIF printed from its syntax, with tables of 2 to 256 colours or none, reads as animated exactly when it has at least two image blocks |
| `GifWalk.WebPIsAnimatedIff` | crates/eaten-at/src/img.rs:551-554 | an extended WebP reads as animated exactly when its animation flag is set, whatever the other flags |
| `GifWalk.Animated` | crates/eaten-at/src/img.rs:551-599 | the loop computes the walk and ends on every byte string |
| `GifWalk.PastBlocks` | crates/eaten-at/src/img.rs:567-574 | the sub-block loop computes where the run ends, or that the file stops in it |
| `PlaceSlugs.RunKeepsSlugs` | crates/eaten-at/src/publish.rs:535-565 | two slugged visits of one site share a slug if and only if they are the same place, after any run of publishes, edits and deletions, each with the full list of the site's visits |
| `PlaceSlugs.PublishKeepsSlugs` | crates/eaten-at/src/publish.rs:535-565 | one publish or edit keeps that |
| `PlaceSlugs.SitesShareASlug` | crates/eaten-at/src/publish.rs:843-875 | the listing is of one site: the slug of a place slugged only elsewhere is given to any place new to the site whose name makes it |
| `PlaceSlugs.AcrossSitesIff` | crates/eaten-at/src/publish.rs:891-936 | while slugs tell all the author's places apart, over all sites, every first visit at a site keeps it so if and only if that site has a slugged visit of every place slugged anywhere |
| `PlaceSlugs.SamePlaceIsEquivalence` | crates/eaten-at/src/publish.rs:879-889 | `same_place` is reflexive, symmetric and transitive |
| `PlaceSlugs.SamePlaceIff` | crates/eaten-at/src/publish.rs:879-889 | two places are one exactly when both have the same GERS id, or neither has one and the names are the same |
| `PlaceSlugs.NewSlugIsFree` | crates/eaten-at/src/publish.rs:891-936 | a new slug is held by no other place |
| `PlaceSlugs.NewSlugIs` | crates/eaten-at/src/publish.rs:891-936 | a new slug is the name's; where another place holds that, the name's with the town's; where one holds that too, or there is no town, the name's with the least number from 2 that is free |
| `PlaceSlugs.FirstFreeFound` | crates/eaten-at/src/publish.rs:920-936 | by pigeonhole a numbered name is free, so the fallback of the search is never reached |
| `PlaceSlugs.KeptPlaceNeedsNoListing` | crates/eaten-at/src/publish.rs:535-565 | an edit that keeps a slugged place gets the same slug with and without the listing |
| `PlaceSlugs.EditIs` | crates/eaten-at/src/publish.rs:535-565 | an edit changes its own visit alone, and leaves its slug as it was if the place is the same |
| `PlaceSlugs.DocumentPath` | crates/eaten-at/src/publish.rs:137-151 | the loop ends with a path not taken: the base, or the first free number |
| `Slugs.Slug` | crates/eaten-at/src/publish.rs:101-128 | the title's words joined by single hyphens, cut to at most 80 bytes at the last hyphen that fits, or where none does after the last character that fits; `untitled` for a title without letters or digits |
| `Slugs.Words` | crates/eaten-at/src/publish.rs:101-114 | the loop computes the title's words, defined by cutting at everything that is no letter, digit or mark |
| `Slugs.WordsSpellTheLetters` | crates/eaten-at/src/publish.rs:101-114 | but for the hyphens the words are the title's letters and digits in lower case, all of them and in order |
| `Slugs.Cut` | crates/eaten-at/src/publish.rs:115-122 | what comes before the last hyphen within 80 bytes, or with none there as many characters as fit |
| `Slugs.OneCut` | crates/eaten-at/src/publish.rs:115-122 | a text has exactly one such cut |
| `Slugs.ByteLenIsSum` | crates/eaten-at/src/publish.rs:115-122 | a text's bytes, which the cut goes by, are those of its characters |
| `Claims.ClaimsTable.Claim` | crates/eaten-at/src/hosting.rs:141-181 | the table and the outcome after a claim, with every way the database can fail |
| `Claims.ClaimsTable.Release` | crates/eaten-at/src/hosting.rs:184-195 | the table after a release |
| `Claims.ClaimKeepsTable` | crates/eaten-at/src/hosting.rs:141-181 | a claim, whatever comes of it, keeps names and publications one-to-one and what other publications hold |
| `ClaimNames.ClaimIff` | crates/eaten-at/src/hosting.rs:141-181 | a claim goes through exactly when the text is read as a name, the database works, and the name is free or the publication's own; and is refused as taken exactly when another publication holds it |
| `Claims.InsertReplacesNothing` | crates/eaten-at/src/hosting.rs:158-171 | the `INSERT OR REPLACE` never displaces another publication's row |
| `Claims.ReleaseKeepsTable` | crates/eaten-at/src/hosting.rs:184-195 | a release drops the publication's claims and nothing else |
| `Claims.SuggestionIsWellFormed` | crates/eaten-at/src/hosting.rs:82-104 | a suggested label is well formed for every handle and DID |
| `ClaimNames.SuggestedFromHandle` | crates/eaten-at/src/hosting.rs:82-104 | a handle's first label is suggested: lower case, hyphens for what is no letter or digit, cut to 63 characters, without hyphens at its ends; `author` when nothing is left |
| `ClaimNames.SuggestedFromDid` | crates/eaten-at/src/hosting.rs:82-104 | without a handle it is the DID's method and what follows it, treated the same |
| `Claims.CandidateIsWellFormed` | crates/eaten-at/src/hosting.rs:281-303 | so is every numbered candidate |
| `ClaimNames.NumberedIs` | crates/eaten-at/src/hosting.rs:287-297 | the names tried from the second on are as much of the first as leaves room, a hyphen and the number |
| `ClaimNames.NumberedDiffer` | crates/eaten-at/src/hosting.rs:287-297 | no two of them are the same |
| `Claims.WellFormedIsValid` | crates/eaten-at/src/hosting.rs:107-124 | a well-formed name is read as itself and refused only when reserved |
| `ClaimNames.NameIsReadIff` | crates/eaten-at/src/hosting.rs:106-124 | a text is read as a name exactly when it is that name but for case and the white space around it and the name is a DNS label, spelt out, and is invalid exactly when it is no label's |
| `CreatePublication.ClaimFollowsRecord` | crates/eaten-at/src/publish.rs:390-457 | over any interleaving with other claims, with the request dropped at any await: when creating a publication succeeds the claim names the record actually written; after a refused write, unless releasing failed, no claim is left, nor a record but one whose answer was lost; a suggested name is never called invalid |
| `CreatePublication.ClaimAndRecordAgreeIff` | crates/eaten-at/src/publish.rs:385-457 | in every reachable state claim and record agree exactly where `AgreesAt` says: not between a claim and its record, before the claim has followed the record or after a refused move; after a write that failed, its answer lost included, when the release worked and no record was kept, when the release failed or is still due and the record was kept under the key asked for, or when nothing is hosted; after an unusable receipt only if the server used the key it was asked for or nothing is hosted |
| `CreatePublication.AnotherTakesTheName` | crates/eaten-at/src/publish.rs:446-457 | a run in which another publication claims the name between the release and the second claim, so that the record's address names that publication's host |
| `CreatePublication.LostAnswerLeavesARecord` | crates/eaten-at/src/publish.rs:427-438 | a run in which the record is kept, the answer is lost and the release works, so that the record's address names a host nobody holds |
| `CreatePublication.JobKeepsOthers` | crates/eaten-at/src/publish.rs:390-457 | no step touches what other publications hold |
| `CreatePublication.NamesAreTriedInOrder` | crates/eaten-at/src/hosting.rs:281-303 | over every run the suggested name and its numbered candidates are tried in order, each after the one before was taken or reserved, and none is found only after 99 were |
| `CreatePublication.DroppedTakesOneStep` | crates/eaten-at/src/publish.rs:390-457 | a request dropped at an await takes at most the step it was waiting for |
| `CreatePublication.EndsAreDesignated` | crates/eaten-at/src/publish.rs:459-471 | a publication is created only when the preferences that designate it were accepted, and fails for them only when they were not |
| `RateLimit.RateLimiter.AllowAt` | crates/eaten-at/src/ratelimit.rs:40-64 | the buckets and the answer after one request, sweep included |
| `RateLimit.AllowedInWindow` | crates/eaten-at/src/ratelimit.rs:40-64 | for times that do not go back, a key is allowed at most its capacity plus capacity/60 times the window's seconds plus one per sweep that dropped it before it was full again; tokens stay between none and all |
| `RateLimit.SweepIsFreeIff` | crates/eaten-at/src/ratelimit.rs:47-50 | a sweep that drops a key leaves it what it had to spend if and only if the key was full again by then |
| `RateLimit.SweptIff` | crates/eaten-at/src/ratelimit.rs:47-50 | only a newcomer to 10,000 keys or more has any dropped, and just those that have spent no more than one token |
| `RateLimit.OthersOnlyDrop` | crates/eaten-at/src/ratelimit.rs:43-51 | requests for other keys leave a key's bucket alone or drop it |
| `RateLimit.IdleKeyIsAllowed` | crates/eaten-at/src/ratelimit.rs:52-64 | a key left alone for 60/capacity seconds is allowed next |
| `RateLimit.WaitingKeyIff` | crates/eaten-at/src/ratelimit.rs:52-64 | a key not dropped meanwhile is allowed exactly when what it had left and a sixtieth of its capacity for each second since make a whole token |
| `RateLimit.SpentKeyIff` | crates/eaten-at/src/ratelimit.rs:52-64 | a key with no token left is allowed exactly after 60/capacity seconds |
| `RateLimit.EarlierEarnsNothing` | crates/eaten-at/src/ratelimit.rs:55-64 | a clock that went back earns nothing and costs nothing |
| `RateLimit.SweepGivesATokenBack` | crates/eaten-at/src/ratelimit.rs:47-50 | for every capacity a run from an empty table, in no time at all, in which some key is allowed more than its capacity and the refill, so the term for early drops is needed |
| `PhotoQueue.PhotoList.Upload` | crates/eaten-at-web/static/photos.js:117-134 | the state after picking files, in full |
| `PhotoQueue.PhotoList.SendNext` | crates/eaten-at-web/static/photos.js:136-169 | the state after looking at the queue again, in full |
| `PhotoQueue.PhotoList.Hear` | crates/eaten-at-web/static/photos.js:148-166 | the state after an answer arrives, in full |
| `PhotoQueue.PhotoList.Restore` | crates/eaten-at-web/static/photos.js:438-459 | the state after a draft is restored, in full |
| `PhotoQueue.PhotoList.Move` | crates/eaten-at-web/static/photos.js:242-249 | the state after moving a photo one place, in full |
| `PhotoQueue.PhotoList.Remove` | crates/eaten-at-web/static/photos.js:251-256 | the state after removing a photo, in full |
| `PhotoEdits.RemovedIs` | crates/eaten-at-web/static/photos.js:251-256 | removing a photo leaves the others in their order and changes nothing else |
| `PhotoEdits.MovedIs` | crates/eaten-at-web/static/photos.js:242-249 | a moved photo lands so many places on and the others keep their order; past an end nothing happens |
| `PhotoEdits.DraggedIs` | crates/eaten-at-web/static/photos.js:330-338 | a drag's end puts the photos in the tiles' order, and where a photo has no tile changes nothing |
| `PhotoEdits.CaptionedIs` | crates/eaten-at-web/static/photos.js:396-402 | a caption changes that of its photo and nothing else |
| `PhotoEdits.RestoredIs` | crates/eaten-at-web/static/photos.js:438-459 | a restored draft's photos are the list, in order, with keys no photo had |
| `PhotoRuns.EveryRunIsValid` | crates/eaten-at-web/static/photos.js:117-196 | over every interleaving: at most one request of the current round is in flight and `busy` says whether one is; every pick is in exactly one place (settled, queued, in flight); Publish is disabled exactly while something is pending |
| `PhotoRuns.LateAnswerChangesNothing` | crates/eaten-at-web/static/photos.js:148-149 | an answer of an earlier round changes nothing on the page |
| `PhotoRuns.NeverGrowsPastTheMaximum` | crates/eaten-at-web/static/photos.js:154-159 | only a restored draft makes the list longer than the maximum |
| `PhotoRuns.RunStaysWithinTheMaximum` | crates/eaten-at-web/static/photos.js:117-169 | a list within the maximum stays so over any run whose restored drafts are |
| `PhotoRuns.RunKeepsPickedOrder` | crates/eaten-at-web/static/photos.js:136-169 | while the author moves none, photos stand in the order their files were picked |
| `PhotoRuns.EveryFileIsSettled` | crates/eaten-at-web/static/photos.js:117-134 | every picked file is refused with its own message (empty, no image, too large), refused for want of room with a message, or queued or in flight |
| `PhotoMessages.UploadTells` | crates/eaten-at-web/static/photos.js:117-134 | after a pick the messages are those of the batch still going on, none of one that is over, one for each file that cannot be used, and one for want of room if some could |
| `PhotoRuns.GivenUpIsReported` | crates/eaten-at-web/static/photos.js:138-144 | when the list has filled up, the message put on show counts exactly the queued files given up |
| `PhotoRuns.EveryAnsweredPhotoIsSettled` | crates/eaten-at-web/static/photos.js:151-162 | an answer's photos go at the end while there is room and each that does not is reported; signed out, the file and the queue are named |
| `PhotoMessages.AnswerTells` | crates/eaten-at-web/static/photos.js:138-166 | after an answer of its round they are those before, the server's, the files named when signed out, one for each photo there was no room for, and the number of files given up if that left the list full |
| `PhotoRuns.RestoreDiscardsTheQueue` | crates/eaten-at-web/static/photos.js:438-459 | restoring a draft discards exactly the queued files, adds no message and clears those on show |
| `PhotoLosses.PickIsLostIff` | crates/eaten-at-web/static/photos.js:117-169 | over every interleaving a picked file is lost (discarded, its answer dropped or still to be dropped, or answered with neither photo nor message) if and only if some draft was restored while it was queued or in flight, or an answer to it, in its round, was empty |
| `PhotoLosses.SomePickIsLostIff` | crates/eaten-at-web/static/photos.js:438-459 | some file is lost if and only if some draft was restored while an upload was pending or some answer was empty in its round |
| `PhotoLosses.LostPicksHaveNoPhoto` | crates/eaten-at-web/static/photos.js:148-166 | no photo on the list ever comes of a lost file |
| `Threads.FlattenThread` | crates/eaten-at/src/bsky.rs:204-214 | the loop over sorted siblings, recursively, collects the preorder with names trimmed and texts cleaned, cut at 100 |
| `Threads.Collect` | crates/eaten-at/src/bsky.rs:220-249 | appends exactly the preorder of the visible sorted forest |
| `Threads.SortIsStable` | crates/eaten-at/src/bsky.rs:229 | the sort is by time, keeps every post, and keeps the order of posts of one time |
| `Threads.ExactlyTheReachedAreShown` | crates/eaten-at/src/bsky.rs:220-256 | exactly the replies reached through posts that are there and bear neither `!hide` nor `!takedown`, on themselves or their authors, are collected, each as often as it is there |
| `Threads.NameIsTrimmed` | crates/eaten-at/src/bsky.rs:237-241 | a display name is shown without the white space around it, and one that is nothing else not at all |
| `Threads.FaithfulIff` | crates/eaten-at/src/bsky.rs:220-249 | the depths alone rebuild the visible sorted forest if and only if it has at most 256 levels |
| `Threads.TruncatedThreadIsCut` | crates/eaten-at/src/bsky.rs:204-214 | at most 100 replies are listed, and the thread is called truncated exactly when more were reached; for threads of any depth, reading the list back gives the forest with last branches cut off, every reply under its own parent; a thread not truncated is read back whole |
| `CleanText.CleanUp` | crates/eaten-at/src/bsky.rs:261-276 | the loop computes the text that is shown |
| `CleanText.CleanShows` | crates/eaten-at/src/bsky.rs:258-276 | of any lines with something visible, set apart by any newlines, written as one character or two, and with any white space around: the visible characters, one newline where there was one and a blank line where there were more |
| `CleanText.CleanIsCut` | crates/eaten-at/src/bsky.rs:258-276 | past 2000 characters, a return and a newline counted as one, nothing is shown |
| `WhiteSpace.SpaceIff` | crates/eaten-at/src/bsky.rs:275 | what is trimmed is Unicode's white space, listed one by one |
| `CleanText.CleanKeepsIff` | crates/eaten-at/src/bsky.rs:258-276 | a text is shown as it is if and only if it is short, trimmed, without control characters and without a third newline in a row |
| `CleanText.CleanTwice` | crates/eaten-at/src/bsky.rs:258-276 | cleaning what is shown changes nothing |
| `Tids.FromParts` | crates/eaten-at-atproto/src/tid.rs:48-60 | the loop over five-bit groups computes the identifier |
| `Tids.ValidIffMinted` | crates/eaten-at-atproto/src/tid.rs:48-66 | a string is valid if and only if it is the key of some 53-bit time and 10-bit clock identifier |
| `Tids.OrderEmbedding` | crates/eaten-at-atproto/src/tid.rs:48-60 | string order and equality are those of (time, clock) after truncation to 53 and 10 bits |
| `Tids.LastMicros.Now` | crates/eaten-at-atproto/src/tid.rs:35-46 | one atomic step: the last time moves on past itself, to the clock or just one on, and the key is valid |
| `Tids.TimeIsReadingOrNext` | crates/eaten-at-atproto/src/tid.rs:35-46 | a key's time is its clock's reading, or one past the time before where that had been minted |
| `Tids.KeysIncreaseIff` | crates/eaten-at-atproto/src/tid.rs:35-60 | of any two minted keys the earlier sorts first if and only if its time modulo 53 bits is the smaller, or is the same and its clock identifier is |
| `Tids.KeysIncrease` | crates/eaten-at-atproto/src/tid.rs:35-46 | whatever the clock returns, keys are minted in strictly increasing order while times fit 53 bits |
| `Tids.OverflowSortsFirst` | crates/eaten-at-atproto/src/tid.rs:35-60 | the first time past 53 bits sorts before the last one within, so the bound is needed |

## Left out

- SQLite, tokio and HTTP themselves: a database closure is one atomic step on finite maps, a fetch or a request has an arbitrary result, and `LIKE` is modelled for texts without NUL.
- Claims that evictions stick or that the in-flight map drains: `evict`, `evict_prefix` and `put` take no key lock, and dropped callers never release.
- The JSON layer of the cache (`get_or_fetch`, `peek`, `put` encode and decode around the modelled functions).
- Key locks in `ImageWork` have an owner instead of reference counts; that this is sound is `CacheProtocol.SingleFlight`. Fair queueing for locks and permits is not modelled, so no bound on a single request's wait is claimed.
- Image decoding, resizing and colour management: only the byte walks and the permits' life cycle are modelled. JPEGs with more than one scan are not printed, since later tables may hold the end marker's bytes by chance.
- `CacheTables.CacheRows.EvictPrefix`: keys holding NUL, at which SQLite's `LIKE` stops, are not modelled.
- Unicode tables: decomposition, marks, letters and case are parameters of `Slugs`; the folding in `choose-place.js` happens before `EditDistance` starts.
- `EditorText.ReturnContinuesTheList`: list numbers are exact integers, while the editor's are doubles, which round past 2^53.
- Strings are sequences of characters; the editor's UTF-16 code units are taken as characters.
- The document: selections, focus, drag events and line classes are not modelled; `MarkupReads.TextOf` reads tags and the three entities the editor writes, and not the HTML parser's treatment of NUL and carriage returns.
- The editor's other arrow-key and mouse handling, which only moves the caret through `Activate`.
- Of a photo's fields `PhotoQueue` keeps only what is stored and its caption.
- The slugs of a place's name (apostrophes closed up, `place` for `untitled`) and of its town are parameters of `PlaceSlugs`; which town is nearest is not part of this model.
- `PlaceSlugs.RunKeepsSlugs`: each publish is given the full list of the site's visits, though the source reads a bounded number of pages; publishes that overlap with a stale listing are not modelled.
- `PlaceSlugs.PublishKeepsSlugs`: the same for the one publish.
- `CreatePublication.ClaimFollowsRecord`: other jobs claim and release for other publications at any point; two jobs for one publication are not interleaved, and OAuth and the repository's own rules are the write's receipt. A write that happens only after its answer was given up is no step of its own: before it the states are a refused write's, and after it a lost answer's.
- `RateLimit.RateLimiter.AllowAt`: tokens and seconds are reals, without the rounding of doubles.
- `RateLimit.AllowedInWindow`: the same, and the clock does not go back.
- Following `next_cursor` in listings, views, routes, feeds, sessions, colours and distances on the map.
