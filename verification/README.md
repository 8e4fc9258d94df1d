# PronounceAll: a verified model

PronounceAll is a pronunciation dictionary with saved words, spaced practice and an ingestion pipeline for IPA
transcriptions. This project models the parts of it whose correctness spans several functions, states what they
promise and proves it. `dafny verify dfyconfig.toml` checks the whole project.

## What is modelled

**Learner progress** (`Progress`, `ProgressLaws`, `ProgressLimits`, `ProgressMerges`, `ProgressStore`). Saves, tags
and practice answers are appended to a log; the state rows and SM-2 schedules derived from it are kept up to date by
each write, and rebuilt when a signed-out identity is bound to an account. The tables form a step system, and three
independently written projections (the live transition, the forward-only upsert, the replay) are proved to agree in
every reachable state. The clock is assumed not to run back and a bound identity not to answer again; `ProgressLimits`
says exactly what each assumption buys. Schedules carry the review time, so the due date is part of what must fit its
column; a value that does not fit is refused, as MySQL does in strict mode.

**Practice** (`Sm2`, `PracticeQueue`, `PracticeSession`, `PracticeLaws`, `PracticeService`). A session is a queue in
Redis and a record of attempts in MySQL, written one after the other, under concurrent requests, failed saves, lost
queues, crashes, re-entry and the idle sweep. Random draws are arbitrary numbers in [0, 1), ease is held in
thousandths.

**The IPA pipeline** (`Inventory`, `Alignment`, `SourceProfile`, `Tokenisation`, `FixedPoint`, `Recomposition`,
`MarkForms`, `Syllabification`, `Separators`, `SeparatorLaws`, `ProposedDivision`, `Breakdown`). From source notation
to canonical forms, longest-match units, syllables, separators, reviewed divisions, the written breakdown and the
segments of a page. The inventory and the phonotactic tables are parameters.

**Seed writers** (`Takeovers`, `Reconciliation`, `ReconciliationLaws`, `Entries`, `Loading`, `SeedRanks`). Rewrites of
many statements that must satisfy unique keys after each one. An `INSERT ... ON DUPLICATE KEY UPDATE` is modelled as
MySQL behaves: any row the new one duplicates, on any unique key, may claim the update.

**Two algorithmic cores** (`Osa` with `Suggestions`, `RateLimit` with `RateLimitLaws` and `UnequalWindows`). Optimal
String Alignment over three rotating rows, with the suggestion ranking built on it, and the rolling-window rate
limiter in its two stores.

`Wrappers` and `Sorting` hold what several of these share.

Code that changes things step by step is a class or a method with loops, proved against a specification function of
the same module; the laws are lemmas about those functions.

## What the proofs found

Some promises hold only under a condition, and each finding names the lemma that states it exactly.

- Reconciling a word renames a row into one that still exists exactly when a canonical row has two rows of its form
  ahead of it (`Reconciliation.Pronunciations.Reconcile`). No transaction wraps the statements, so the sibling deleted
  just before stays deleted. The comment in the source expects the search for a sibling to prevent this.
- The same loop drops the primary flag exactly when the flag is taken over twice, because inheritance is decided from
  the rows as first read (`ReconciliationLaws.FlagIsLeftExactlyWhen`). Three spellings of one vowel, `ɜr`, `ɜɹː` and
  `ɝ`, give both failures (`ReconciliationLaws.ThreeRowsCanFail`).
- The length prefilter of the suggestions drops a headword that scores exactly 2.5, the last score still acceptable,
  when it is four insertions away and sounds the same: `aeiou` for `a` (`Suggestions.PrefilterDropsOnlyTheBoundary`).
- A form made of marks alone tokenises with no unit and is then not composed for display
  (`Recomposition.TokenisedFormsRecompose`). It passes the loading gate exactly when it holds one stress mark, or
  several with a primary one among them (`MarkForms.UnitlessFormsLoadExactlyWhen`): `ˈ` loads and is never shown.
- Nothing caps a schedule. A merge is refused as a whole exactly when, for some word, the joined answers make a
  schedule that does not fit its columns (`ProgressLimits.MergeIsRefusedExactlyWhen`). For a word answered right every
  time that is from 14 answers on, when the due date passes the year 9999 (`Sm2.RightsOutgrowTheirColumns`), so two
  histories of seven are stored apart and refused together (`ProgressMerges.SevenAndSeven`). The next merge is refused
  exactly when the histories as extended since still make an unstorable schedule
  (`ProgressLimits.NextMergeIsRefusedExactlyWhen`); one wrong answer lets it through
  (`ProgressMerges.AWrongAnswerReopens`).
- Parking a word's rows for a load meets a row of another id exactly when `Loading.SafeParking` fails: after completed
  loads, when two ids agree modulo 30000 (`Loading.CompletedLoadsParkSafelyExactlyWhen`), as 1 and 30001 do.
- Re-seeding meets a rank another row holds exactly when `SeedRanks.SeedingIsSafe` fails, that is when a negative rank
  blocks the sign change (`SeedRanks.PhonemeTable.ParkFrequencyRanks`) or some unit's parking place is taken
  (`SeedRanks.OwnRowAloneExactlyWhen`). Over a table seeded with more units than the inventory now has it does fail,
  unless the first unit held the rank just beyond the new end (`SeedRanks.ShrinkingIsNotSafe`).
- An admission makes the in-memory rate limiter forget another key's live admissions exactly when the map is over its
  bound and all of them are older than the admitted key's window, so only a key with a longer window can lose them
  (`RateLimitLaws.PruningForgetsExactlyWhen`). The two stores agree over every run exactly when all keys have one
  window (`UnequalWindows.StoresAgreeExactlyWhen`). The program's limits do use windows of different lengths in one
  store, but only this store, meant for development, prunes.

## Model

| member | source | states |
|---|---|---|
| `ProgressStore.DeriveExpectedStates` | src/services/state-reconciliation.service.js:54-75 | the replay loop computes, for each target, the row its last state event in listing order asks for |
| `ProgressStore.DiffStates` | src/services/state-reconciliation.service.js:82-100 | the entries pushed are exactly the differences between expected and live rows, one entry to a target |
| `ProgressStore.Store.RepairEntries` | src/services/state-reconciliation.service.js:119-124 | writes the wanted row of every entry but the unexplained ones, leaves every other row, and counts what it wrote |
| `ProgressStore.Store.RecomputeOwnerStates` | src/services/state-reconciliation.service.js:114-126 | afterwards the rows are the repaired rows of that owner, and the entries returned are exactly the drift there was |
| `ProgressStore.Store.ReconcileSaveState` | src/services/state-reconciliation.service.js:134-155 | the report is the drift of every owner there is, in both modes; a repairing run leaves each owner only what no event explains, and its count is the entries it wrote; a dry run writes nothing |
| `ProgressStore.Store.ListReconciliationOwners` | src/repositories/progress.repository.js:395-400 | each resolved owner of a state event and each owner of a row, once |
| `ProgressStore.UnlistedOwnersHaveNoDrift` | src/repositories/progress.repository.js:339-346 | an owner the query leaves out has no drift, so the report misses none |
| `ProgressStore.Store.ApplySaveAction` | src/services/save-state.service.js:97-146 | the outcomes of the transition table in one transaction: a refusal or no change leaves every table, a write adds one event of the owner and with it the row, what is reported is what is then stored, and consistency survives |
| `ProgressStore.Store.RecomputeAccountSm2States` | src/services/practice.service.js:77-91 | writes the replay of the account's merged answers word by word, or nothing when some state does not fit its columns |
| `ProgressStore.Store.MergeAnonymousIdentity` | src/services/account.service.js:199-222 | binds a carried identity at most once and rebuilds both derivations, or leaves every table as it was |
| `ProgressStore.Store.RecordAnswer` | src/services/practice.service.js:198-213 | attempt, event and schedule of one turn together: a turn is accepted once, a refused answer writes nothing, an accepted one can be stored, and every projection stays in agreement with the log |
| `ProgressStore.OthersDriftIsUnchanged` | src/repositories/progress.repository.js:352-364 | repairing one owner leaves every other owner's drift as it was |
| `Progress.BelongsIsResolution` | src/repositories/progress.repository.js:352-364 | the listing conditions of the two queries pick exactly the events whose owner resolves, through bindings, to the owner listed |
| `ProgressLaws.DerivedIsLatest` | src/services/state-reconciliation.service.js:54-75 | replaying the sorted listing gives, for every target, the latest qualifying event of the log, however targets interleave |
| `ProgressLaws.ReplayIsSchedule` | src/repositories/practice.repository.js:247-256 | replaying the sorted practice listing gives, for every word, SM-2 folded over that owner's answers in log order |
| `ProgressLaws.NothingToRepair` | src/services/state-reconciliation.service.js:114-126 | in a consistent state reconciling any owner, resolved or retired, changes nothing |
| `ProgressLaws.RepairConverges` | src/services/state-reconciliation.service.js:114-126 | from any rows at all one repair leaves no missing and no mismatched entry, and exactly the unexplained ones there were |
| `ProgressLaws.RepairIsIdempotent` | src/services/state-reconciliation.service.js:114-126 | a second repair writes nothing new |
| `ProgressLaws.LinkedAccountIsCurrent` | src/services/account.service.js:209-217 | right after a merge the account's state rows and schedules agree with the merged log |
| `ProgressLaws.LinkLeavesOthersCurrent` | src/services/account.service.js:209-217 | a merge disturbs no other resolved owner |
| `ProgressLaws.LinkKeepsConsistency` | src/services/account.service.js:199-222 | a merge, refused or done, keeps every resolved owner in agreement with the log |
| `ProgressLaws.StepKeepsConsistency` | src/services/save-state.service.js:97-146 | every step of the system, saves, passive events, answers, merges and reconciliations, keeps all projections in agreement |
| `ProgressLaws.EveryRunIsConsistent` | src/services/state-reconciliation.service.js:54-126 | every state reachable from empty tables is consistent |
| `ProgressLaws.NoDriftInAnyRun` | src/services/state-reconciliation.service.js:82-126 | in every reachable state a resolved owner has no drift at all, and a bound identity exactly one unexplained entry for each row it left behind |
| `ProgressLaws.SchedulesAreReplays` | src/services/practice.service.js:77-91 | in every reachable state the stored schedule of a resolved owner is SM-2 replayed from the start over its answers, so a merge would rebuild what live answering kept |
| `ProgressLimits.SavingTwiceIsSavingOnce` | src/services/save-state.service.js:49-61 | a request repeated after it went through writes nothing and reports the same state |
| `ProgressLimits.WriteAgreesExactlyWhenClockDid` | src/repositories/progress.repository.js:57-62 | a write agrees with the replay if and only if no event of that owner and target carries a later time |
| `ProgressLimits.AnswerAgreesExactlyWhenUnbound` | src/services/practice.service.js:198-213 | an accepted answer keeps every schedule a replay if and only if the answering identity is not bound, but for a wrong answer to a word at the bottom of the scale at the very time of its last review |
| `ProgressLimits.MergeIsRefusedExactlyWhen` | src/services/account.service.js:209-217 | from any consistent state a merge is refused, binding and all, if and only if for some word the two identities' answers together make a schedule that its columns cannot hold |
| `ProgressLimits.RightsMergeExactlyWhen` | src/services/account.service.js:209-217 | when the answers to every other word fit and those to this one are all right, the last by the year 4417, the merge of an unbound identity is refused, every table left, if and only if they make 14 or more |
| `ProgressLimits.NextMergeIsRefusedExactlyWhen` | src/services/account.service.js:209-217 | after one more accepted answer of either identity, the next merge is refused if and only if the joined answers with that one still make a schedule that does not fit |
| `ProgressMerges.StoredApartNotTogether` | src/services/account.service.js:209-217 | a run from empty tables that answers a word only when the due query lists it, each time in a new session: for any two histories of 1 to 13 right answers so spaced both are stored, and their merge is refused if and only if they make 14 between them |
| `ProgressMerges.SevenAndSeven` | src/repositories/practice.repository.js:31-38 | two histories of seven on given days, each answer on the day the word is due: the merge is refused |
| `ProgressMerges.AWrongAnswerReopens` | src/services/practice.service.js:77-91 | after such a refusal one wrong answer of the account, whenever the word is next due, makes the next merge go through |
| `Sm2.EveryHistoryIsReachable` | src/services/sm2.service.js:52-70 | over every history ease stays at least 1300 thousandths, and repetitions 1 and 2 fix the interval at 1 and 6 |
| `Sm2.IntervalGrows` | src/services/sm2.service.js:52-70 | from then on a right answer strictly lengthens the interval, with ten times the new at least thirteen times the old less five |
| `Sm2.InitialRights` | src/services/sm2.service.js:52-70 | after n right answers and nothing else ease is 2500 + 100 n thousandths |
| `Sm2.EaseIsTheBalance` | src/services/sm2.service.js:52-70 | over every history of right and wrong answers ease is 2500 + 100 per right - 320 per wrong, in thousandths, if and only if that balance never fell below the floor, and more otherwise |
| `Sm2.StreakGrowsGeometrically` | src/services/sm2.service.js:52-70 | over a streak of any length the interval grows by at least 1.3 a step, up to a rounding offset |
| `Sm2.RightsOutgrowTheirColumns` | migrations/V11__practice.sql:22-32 | of a word answered right every time the due date is the first column to give out, at the 14th answer for reviews up to the year 4417, then the interval at the 19th and ease at the 75th; the row fits if and only if fewer than 14 |
| `Sm2.ReviewsStayReachable` | src/services/sm2.service.js:42-70 | a quality outside 0 to 5 is refused, and any other review of a state a history can leave gives one a history can leave |
| `Sm2.ScheduledIsReplay` | src/services/practice.service.js:77-91 | folding timed answers one by one leaves the replay of their qualities, last reviewed at the last of them |
| `PracticeQueue.ServingReorders` | src/services/practice-queue.service.js:60-74 | choosing what to serve keeps position, turn, length, the entries as a multiset and the answered prefix |
| `PracticeQueue.DeferralServesNext` | src/services/practice-queue.service.js:60-74 | a deferral serves a word not yet learned, puts the deferred one in the next slot, and leaves the others in order |
| `PracticeQueue.WrongWordReturns` | src/services/practice-queue.service.js:85-92 | a wrongly answered word returns three to seven turns later, or at the tail when fewer than three slots remain |
| `PracticeQueue.AdvanceCounts` | src/services/practice-queue.service.js:102-110 | remaining slots drop by one on a right answer and stay on a wrong one; the answered prefix stays |
| `PracticeService.LiveSession.Open` | src/services/practice.service.js:155-164 | a saved queue holds the due words, as a multiset, and serves turn 0 of an empty record; a failed save ends the session with nothing stored |
| `PracticeService.LiveSession.CheckAnswer` | src/services/practice.service.js:177-180 | a request goes on if and only if the session is active, and the session invariant holds with it in flight |
| `PracticeService.LiveSession.LoadTurn` | src/services/practice.service.js:182-193 | what goes on holds the stored queue, at a turn not beyond the record; stale leaves session and record alone, a lost or finished queue abandons the session with the counts of its attempts |
| `PracticeService.LiveSession.CommitTurn` | src/repositories/practice.repository.js:209-220 | accepted if and only if the transaction goes through and the turn has no attempt yet; then it is the next turn of the record and one attempt more, otherwise the record is as it was; no attempt is ever overwritten |
| `PracticeService.LiveSession.PublishTurn` | src/services/practice.service.js:215-226 | the queue saved serves the turn after the record, its words the due ones and the wrong ones again; a summary comes with every due word answered right and exact counts; a save or a completion that fails abandons the session |
| `PracticeService.LiveSession.AnswerTurn` | src/services/practice.service.js:177-227 | the reply tells what happened over a whole request: stale or failed changed nothing, a next turn recorded one attempt and serves the turn after it, a summary is exact, a fresh start ended the session |
| `PracticeService.LiveSession.EnterAgain` | src/services/practice.service.js:136-149 | resumes the stored queue and changes nothing, if and only if the session has not been idle too long and there is a live queue; an idle one is timed out and one without a queue abandoned, with the counts of its attempts |
| `PracticeService.LiveSession.FinaliseSession` | src/repositories/practice.repository.js:178-188 | finalises if and only if the session was active, with the counts of its attempts; a final session keeps status and counts, and the invariant survives |
| `PracticeLaws.AdvancedFaithful` | src/services/practice-queue.service.js:102-110 | advancing past a recorded answer keeps the queue faithful to the record: answered prefix, and due words plus one copy a wrong answer |
| `PracticeLaws.FinishedIsExact` | src/services/practice-queue.service.js:48-50 | a finished faithful queue is a record in which each due word was answered right exactly as often as it was due |
| `PracticeLaws.CommittedHolds` | src/repositories/practice.repository.js:209-220 | a commit is always the next turn of the record, and no second queue can follow it |
| `PracticeLaws.StepKeeps` | src/services/practice.service.js:132-261 | every step, failures and lost queues included, keeps the session invariant |
| `PracticeLaws.RunKeeps` | src/services/practice.service.js:132-261 | so does every run |
| `PracticeLaws.CompletedSessionsAreExact` | src/repositories/practice.repository.js:178-188 | in every run a completed session answered each due word right exactly once; correct_count is the due count, total_attempts that plus the wrong answers |
| `PracticeLaws.QueuesFollowTheRecord` | src/services/practice.service.js:177-227 | in every run the answered turns are unbroken from 0 and every queue in circulation agrees with them |
| `PracticeLaws.RecordIsAppendOnly` | src/repositories/practice.repository.js:178-220 | a recorded attempt is never overwritten, and a final session keeps its status and counts |
| `SourceProfile.ExpandOnce` | src/services/ipa-tokenization.service.js:154-166 | one round splits every form on its leftmost optional segment |
| `SourceProfile.ExpandOptionalSegments` | src/services/ipa-tokenization.service.js:149-169 | at most four rounds, then first occurrences in order |
| `SourceProfile.NormaliseSource` | src/services/ipa-tokenization.service.js:177-223 | the passes in their order give the canonical forms |
| `SourceProfile.TokenizeTranscription` | src/services/ipa-tokenization.service.js:274-292 | one form that does not tokenise rejects the whole transcription |
| `Tokenisation.MatchAt` | src/services/ipa-tokenization.service.js:241-248 | the inner scan finds the widest inventory symbol at a position |
| `Tokenisation.TokenizeForm` | src/services/ipa-tokenization.service.js:232-260 | accepts exactly the texts the reference scan accepts, and otherwise reports the first character neither a symbol nor a mark explains |
| `Tokenisation.TokeniseCharacterised` | src/services/ipa-tokenization.service.js:232-260 | accepts with units U if and only if the text is U with permitted marks between and no longer symbol fits at any unit |
| `Tokenisation.MunchSurvivesMarks` | src/services/ipa-tokenization.service.js:232-260 | marks written between the units never make a longer symbol fit |
| `Alignment.AlignSound` | src/services/syllabification.service.js:199-216 | what the common walk accepts, printed again, is the text walked |
| `Alignment.AlignRender` | src/services/syllabification.service.js:262-289 | walking what was printed gives back the marks it was printed from |
| `FixedPoint.RewriteSettles` | src/services/ipa-tokenization.service.js:114-136 | a rhotic pass, prevocalic guard included, leaves nothing for itself or for a pass already settled to rewrite |
| `FixedPoint.MergesSettle` | src/services/ipa-tokenization.service.js:211-220 | merging rhotics twice is merging them once |
| `FixedPoint.NotationResolved` | src/services/ipa-tokenization.service.js:177-204 | no notation pass touches a canonical text |
| `FixedPoint.CanonicalFormsAreFixedPoints` | src/services/ipa-tokenization.service.js:274-292 | tokenising any form an accepted transcription gave accepts with exactly that one form and the same units |
| `FixedPoint.NeverEmpty` | src/services/ipa-tokenization.service.js:177-223 | normalising always yields at least one form |
| `Recomposition.ComposeTranscriptionSegments` | src/services/word-page.service.js:253-283 | the cursor walk composes exactly the alignment of text and units, and nothing when there is no unit |
| `Recomposition.CompositionIsFaithful` | src/services/word-page.service.js:253-283 | the segments spell the text, use up every unit in order and add nothing but permitted marks |
| `Recomposition.TokenisedFormsRecompose` | src/services/word-page.service.js:253-283 | a tokenised form composes on its own units if and only if it has a unit |
| `MarkForms.BreakdownOfMarks` | src/services/word-ingestion.service.js:223-242 | the breakdown of a form made of marks has a syllable for every stress mark, and shows primary stress if and only if the form does |
| `MarkForms.UnitlessFormsLoadExactlyWhen` | src/services/word-ingestion.service.js:517-564 | a form without units is never composed, and loads on its own if and only if it holds one stress mark, or several with a primary one among them |
| `MarkForms.AStressMarkAloneLoads` | src/services/word-ingestion.service.js:517-564 | a lone stress mark tokenises, passes the gate and is not displayed |
| `Syllabification.FindNuclei` | src/services/syllabification.service.js:118-121 | the nuclei in order |
| `Syllabification.FindFixed` | src/services/syllabification.service.js:132-139 | the last stress onset in a gap decides it |
| `Syllabification.FindOnset` | src/services/syllabification.service.js:173-179 | the longest legal suffix within the cap, looking at three consonants at most |
| `Syllabification.CapOnset` | src/services/syllabification.service.js:163-171 | how much of a cluster the next syllable may claim |
| `Syllabification.DivideGap` | src/services/syllabification.service.js:130-182 | one gap is divided where the rules say, or left whole |
| `Syllabification.Syllabify` | src/services/syllabification.service.js:115-185 | the loops compute the division gap by gap |
| `Syllabification.DivisionLaw` | src/services/syllabification.service.js:115-185 | starts begin at 0, ascend strictly, and past 0 are exactly the divisions of the gaps between neighbouring nuclei |
| `Syllabification.OneStartPerGap` | src/services/syllabification.service.js:130-182 | one start falls in every gap but hiatus before an unstressed central rhotic, which is left whole |
| `Syllabification.SharedSyllable` | src/services/syllabification.service.js:115-185 | two nuclei share a syllable if and only if everything after the first, up to the second, is an unstressed central rhotic |
| `Syllabification.OnsetIsMaximal` | src/services/syllabification.service.js:89-95 | an unstressed gap gives the next syllable the longest legal onset its caps allow, of any length, so capping the search at three loses nothing |
| `Syllabification.CodaIsKept` | src/services/syllabification.service.js:163-171 | after a checked vowel, or a vowel and the rhotic, the first consonant stays behind |
| `Syllabification.OneConsonant` | src/services/syllabification.service.js:155-182 | a single consonant between two nuclei opens the second syllable, unless the nucleus is checked or it is the rhotic or the velar nasal |
| `Syllabification.EnglishExamples` | src/services/syllabification.service.js:155-171 | with the en-US tables: wɔ.tɚ, lɛt.ɚ and ɔɹ.əndʒ |
| `Separators.SourceStressOnsets` | src/services/syllabification.service.js:199-216 | the walk finds the unit indices stress marks precede, or fails |
| `Separators.CheckSpans` | src/services/syllabification.service.js:263-267 | every stretch between boundaries holds a nucleus |
| `Separators.PrintSeparated` | src/services/syllabification.service.js:272-288 | the second walk copies marks and writes separators before units |
| `Separators.WriteSeparatorsAt` | src/services/syllabification.service.js:262-289 | the second walk writes a separator before each boundary no mark states, or nothing |
| `Separators.InsertMarks` | src/services/syllabification.service.js:233-244 | both walks together, with every refusal |
| `SeparatorLaws.InsertionOnlyAddsSeparators` | src/services/syllabification.service.js:233-289 | without its separators the result is the transcription again |
| `SeparatorLaws.InsertionKeepsUnits` | src/services/ipa-tokenization.service.js:232-260 | the result tokenises to the same longest-match units |
| `SeparatorLaws.FittingStressSpans` | src/services/syllabification.service.js:262-289 | fitting stress leaves every span a nucleus of its own |
| `SeparatorLaws.InsertionSucceedsExactlyWhen` | src/services/syllabification.service.js:233-289 | separators are written if and only if the marks align, each stress onset lies after the first nucleus and not after the last, no gap holds two, and some unstressed gap yields a boundary |
| `ProposedDivision.ReadDivision` | src/services/syllabification.service.js:309-322 | the cursor walk reads exactly the starts a proposal states, or fails |
| `ProposedDivision.ApplyProposedDivision` | src/services/syllabification.service.js:305-326 | a proposal is written if and only if it spells the units and keeps every stress boundary |
| `ProposedDivision.ParseReadsMarked` | scripts/validate-syllabification.js:240-243 | reading a printed division gives back exactly its starts |
| `ProposedDivision.MarkedPrintsParsed` | scripts/validate-syllabification.js:240-243 | printing what was read gives back the proposal, character for character |
| `ProposedDivision.NotationIsExact` | scripts/validate-syllabification.js:240-243 | a proposal reads as given starts if and only if it is their printed form |
| `ProposedDivision.KeepAlgorithmIsTheAlgorithm` | scripts/review-syllable-overrides.js:123-124 | applying the algorithm's own printed division writes what the algorithm writes |
| `Breakdown.CutChunk` | src/services/word-ingestion.service.js:226-239 | one chunk is cut before every stress mark that does not begin a piece |
| `Breakdown.DeriveSyllableBreakdown` | src/services/word-ingestion.service.js:223-242 | the nested loops compute the pieces, blanks dropped, joined |
| `Breakdown.BreakdownFollowsDivision` | src/services/word-ingestion.service.js:223-242 | the pieces without stress marks are the unit spans between the printer's boundaries if and only if no two stress marks are adjacent |
| `Breakdown.BreakdownKeepsEveryPiece` | src/services/word-ingestion.service.js:241 | without adjacent stress no piece is dropped as blank |
| `Breakdown.PlanSyllableBreakdown` | src/services/syllabification.service.js:362-399 | which layer decides, and what it stores |
| `Breakdown.PlanIsIdempotent` | src/services/syllabification.service.js:362-399 | planning over what was planned gives the same plan again, deciding layer and breakdown |
| `Breakdown.KeptAlgorithmPlansTheSame` | src/services/syllabification.service.js:362-399 | a reviewed row that keeps the algorithm stores what the algorithm alone would |
| `Osa.FillRow` | src/services/word-suggestion.service.js:88-103 | one row of the table from the two rows above it |
| `Osa.OptimalStringAlignment` | src/services/word-suggestion.service.js:66-111 | the three rotating rows return the restricted Damerau-Levenshtein distance, for all strings |
| `Osa.DistanceIsCheapestScript` | src/services/word-suggestion.service.js:88-103 | the distance is the cost of some restricted edit script between the strings, and of no other is less |
| `Osa.DistanceIsSymmetric` | src/services/word-suggestion.service.js:66-111 | the distance is symmetric |
| `Osa.ZeroExactlyWhenEqual` | src/services/word-suggestion.service.js:67-69 | zero if and only if the prefixes are equal |
| `Osa.LengthBounds` | src/services/word-suggestion.service.js:70-75 | between the difference of the lengths and the longer length |
| `Osa.NeverMoreThanLevenshtein` | src/services/word-suggestion.service.js:97-101 | at most plain Levenshtein |
| `Osa.AtLeastHalfOfLevenshtein` | src/services/word-suggestion.service.js:97-101 | and at least half of it |
| `Osa.AdjacentSwapIsOneEdit` | src/services/word-suggestion.service.js:97-101 | swapping two different adjacent letters anywhere in a word is one edit |
| `Osa.NotAMetric` | src/services/word-suggestion.service.js:57-60 | the triangle inequality fails, on a concrete triple |
| `Suggestions.AcceptableMembers` | src/services/word-suggestion.service.js:204-219 | exactly the kept headwords that score 2.5 or better are listed |
| `Suggestions.ShowsTheClosest` | src/services/word-suggestion.service.js:197-226 | the result is the head, as long as the limit allows, of one listing of all acceptable candidates sorted by score, rank and slug |
| `Suggestions.OrderOfHeadwordsIsIrrelevant` | src/services/word-suggestion.service.js:219-226 | with distinct headwords the result does not depend on the order they are cached in |
| `Suggestions.PrefilterDropsOnlyTheBoundary` | src/services/word-suggestion.service.js:144-158 | the length prefilter never drops a score below 2.5, and drops one of exactly 2.5 if and only if it is four insertions away and sounds the same |
| `Suggestions.PrefilterIsHarmlessExactlyWhen` | src/services/word-suggestion.service.js:144-158 | the listing is the one without the length prefilter if and only if no headword lies on that boundary |
| `Suggestions.AWordOnTheBoundary` | src/services/word-suggestion.service.js:44-51 | a headword on that boundary |
| `RateLimit.InMemoryStore.Consume` | src/lib/rate-limit-store.js:118-149 | the decision and the map it leaves, for any limit; with a limit of 0 and nothing in the window the call is refused for a time that is not a number |
| `RateLimit.InMemoryStore.Prune` | src/lib/rate-limit-store.js:140-146 | deletes exactly the keys whose every timestamp is at or before the cutoff |
| `RateLimit.RedisStore.TrimUpTo` | src/lib/rate-limit-store.js:51 | trims one set and deletes it when nothing is left |
| `RateLimit.RedisStore.RollingWindow` | src/lib/rate-limit-store.js:44-64 | the script's three numbers and the set and expiry it leaves, for any limit; it fails when the limit is 0 and nothing is kept |
| `RateLimit.RedisStore.Consume` | src/lib/rate-limit-store.js:74-95 | the decision built from the script's reply, waiting time rounded up; a store that cannot be reached or a script that fails admits the call and counts nothing |
| `RateLimitLaws.MemoryFollowsLedger` | src/lib/rate-limit-store.js:118-149 | after every run the in-memory store holds what the full ledger holds as far back as the window reaches |
| `RateLimitLaws.RedisFollowsLedger` | src/lib/rate-limit-store.js:44-64 | so does the server, whichever expired keys it has dropped and when |
| `RateLimitLaws.StoresAgree` | src/lib/rate-limit-store.js:74-151 | with one window for all keys, after every run both stores give the next call the decision the ledger gives |
| `RateLimitLaws.PruningForgetsExactlyWhen` | src/lib/rate-limit-store.js:140-146 | an admission makes the in-memory store forget another key's live admissions if and only if the map is over its bound and all of them are older than the admitted key's window; the other key is then admitted |
| `UnequalWindows.ShorterWindowForgets` | src/lib/rate-limit-store.js:138-146 | for any two keys with different windows, a run past 10000 keys after which memory admits the slower key again and the server refuses it |
| `UnequalWindows.StoresAgreeExactlyWhen` | src/lib/rate-limit-store.js:74-151 | the two stores give every call of every run the same decision if and only if all keys are limited over windows of one length |
| `RateLimitLaws.AdmissionsAreSpread` | src/lib/rate-limit-store.js:123-136 | any two admissions of a key `limit` places apart are at least a window apart |
| `RateLimitLaws.LimitHoldsInEveryWindow` | src/lib/rate-limit-store.js:123-136 | no stretch as long as the window holds more than `limit` admissions of a key |
| `RateLimitLaws.RemainingIsExact` | src/lib/rate-limit-store.js:148 | of any number m of further calls at the same moment, the next is admitted if and only if m is less than `remaining` |
| `RateLimitLaws.WaitingSuffices` | src/lib/rate-limit-store.js:125-133 | a refused caller who waits as told is admitted if its key was admitted nothing in between, and one who comes a second early is refused |
| `Reconciliation.DecideAll` | src/services/phoneme-ingestion.service.js:87-90 | every row is decided before anything is written |
| `Reconciliation.DecisionsAreSound` | src/services/phoneme-ingestion.service.js:87-90 | what a row canonicalises to is its own canonical form, by the fixed-point theorem |
| `Reconciliation.Pronunciations.UpdateTranscription` | src/repositories/words.repository.js:297-306 | refused if and only if another row of the word holds the transcription |
| `Reconciliation.Pronunciations.SetPrimary` | src/repositories/words.repository.js:364-373 | refused if and only if another row of the word is primary |
| `Reconciliation.Pronunciations.Merge` | src/services/phoneme-ingestion.service.js:144-154 | the sibling goes and the row takes its form and flag, refused only before a canonical row with two ahead |
| `Reconciliation.Pronunciations.TakeTurn` | src/services/phoneme-ingestion.service.js:102-192 | one pass of the loop brings the table from its state after i rows to its state after i + 1 |
| `Reconciliation.Pronunciations.Reconcile` | src/services/phoneme-ingestion.service.js:75-196 | blocked if and only if no row tokenises, refused by a unique key if and only if a canonical row has two rows of its form ahead, never emptying the word |
| `Takeovers.Holder` | src/services/phoneme-ingestion.service.js:131-136 | of the rows of a form seen so far exactly one stands |
| `Takeovers.SiblingGivesWay` | src/services/phoneme-ingestion.service.js:131-136 | the sibling the search finds is the one row standing before, or the second of its form |
| `Takeovers.TakeoverTurn` | src/services/phoneme-ingestion.service.js:138-155 | what a takeover leaves of every row |
| `Takeovers.RenameCollides` | src/services/phoneme-ingestion.service.js:147 | a rename collides exactly with a canonical row that has two rows of its form ahead, the renamed one first |
| `Takeovers.PrimaryIsKeptExactlyWhen` | src/services/phoneme-ingestion.service.js:145-150 | the row standing of a primary row's form is primary if and only if the flag was not taken over twice |
| `Takeovers.PairsAreSafe` | src/services/phoneme-ingestion.service.js:131-155 | with at most two rows to a form there is no collision and no flag is dropped |
| `ReconciliationLaws.FormsAreLeftOnce` | src/services/phoneme-ingestion.service.js:75-196 | what is left obeys the unique keys, and its transcriptions are the canonical forms there were, each on one row |
| `ReconciliationLaws.WordKeepsARow` | src/services/phoneme-ingestion.service.js:92-100 | a word with a row that tokenises keeps a row |
| `ReconciliationLaws.FlagIsLeftExactlyWhen` | src/services/phoneme-ingestion.service.js:145-150 | a primary row is left if and only if there was one that tokenises and was not taken over twice |
| `ReconciliationLaws.PairsKeepTheFlag` | src/services/phoneme-ingestion.service.js:121-155 | with at most two rows to a form the flag ends on the row of its form whenever its row tokenises |
| `ReconciliationLaws.RowsLeftAreCanonical` | src/services/phoneme-ingestion.service.js:75-196 | every transcription left is its own canonical form |
| `ReconciliationLaws.CanonicalWordIsUntouched` | src/services/phoneme-ingestion.service.js:166-168 | a word already canonical is left as it is, so a second run changes nothing |
| `ReconciliationLaws.LoadedEntriesNeedNoReconciling` | src/services/word-ingestion.service.js:318-326 | an entry as normalised is a word reconciling leaves as it is, whatever was selected |
| `ReconciliationLaws.ThreeRowsCanFail` | src/services/phoneme-ingestion.service.js:130-155 | rows that spell one vowel three ways, under any inventory that has it: in one order the rename collides, in another no primary row is left |
| `Entries.Deduplicate` | src/services/word-ingestion.service.js:310-365 | each admitted canonical form once, under the first source that gave it |
| `Entries.NormaliseEntry` | src/services/word-ingestion.service.js:310-470 | admission, dedupe, order, breakdown, primary and places of the selected transcriptions, as NormalisedEntry states them |
| `Entries.ValidateEntry` | src/services/word-ingestion.service.js:517-564 | no problem is reported if and only if nothing was rejected before, headword and attribution are there and the rows are loadable; every earlier rejection is carried over |
| `Entries.EveryFormOnce` | src/services/word-ingestion.service.js:310-365 | the forms kept are exactly the admitted ones, without repeats |
| `Entries.AdmittedFormsAreCanonical` | src/services/word-ingestion.service.js:327-341 | admitting a stored form again gives the same form |
| `Entries.DottedComeFirst` | src/services/word-ingestion.service.js:417-422 | ordering is stable: dotted forms in their order, then the others in theirs |
| `Entries.NormalisedIsAnEntry` | src/services/word-ingestion.service.js:426-470 | normalised rows always count from nought with one primary in front and no form twice |
| `Entries.NormalisedLoadsExactlyWhen` | src/services/word-ingestion.service.js:501-567 | a normalised entry passes the gate if and only if it has one to four rows, none blank, and every supplied breakdown shows its stress |
| `Loading.OwnRowAloneExactlyWhen` | src/services/word-ingestion.service.js:602-616 | over any rows, a parking statement hits its own row alone if and only if no row parked before stands at its place and no row still to be parked does |
| `Loading.CompletedLoadsParkSafelyExactlyWhen` | src/services/word-ingestion.service.js:602-616 | over rows a completed load left, in any order, parking is safe if and only if no two ids agree modulo 30000; every parked place fits its column |
| `Loading.IdsApartByThePlaces` | src/services/word-ingestion.service.js:602-616 | rows under the ids 1 and 30001 obey every key and cannot be parked |
| `Loading.WriteStep` | src/services/word-ingestion.service.js:618-620 | writing an entry row duplicates the row with its transcription or none, never another |
| `Loading.PronunciationTable.Upsert` | src/repositories/words.repository.js:209-235 | insert, or update of some duplicated row, or refusal; the unique keys hold after it in every case |
| `Loading.PronunciationTable.DeleteById` | src/repositories/words.repository.js:342-351 | removes one row and counts it |
| `Loading.PronunciationTable.Park` | src/services/word-ingestion.service.js:602-616 | over any rows, every existing row ends parked in its own place if and only if parking is safe in the order taken; ids and transcriptions stay in every case |
| `Loading.PronunciationTable.Write` | src/services/word-ingestion.service.js:618-620 | over parked rows no statement is refused and the entry is written, ids kept; over others the unique keys hold and no row is lost |
| `Loading.PronunciationTable.LoadEntry` | src/services/word-ingestion.service.js:581-635 | where parking is safe it leaves exactly the entry's rows, retained transcriptions under their old ids, and counts the rows dropped; a load that is refused changes nothing |
| `Loading.OnePrimaryAtTheFront` | src/services/word-ingestion.service.js:581-635 | afterwards there are as many rows as the entry has, and the one primary is the one at place 0 |
| `Loading.ReloadIsNoOp` | src/services/word-ingestion.service.js:581-635 | loading the same entry again changes nothing, ids included |
| `SeedRanks.RanksAreABijection` | src/services/phoneme-ingestion.service.js:234-247 | ranks run from 1 to the number of units, each held by one unit |
| `SeedRanks.RankFollowsFrequency` | src/services/phoneme-ingestion.service.js:234-247 | a unit ranks above another if and only if it is more frequent, or as frequent and earlier in canonical order |
| `SeedRanks.PhonemeTable.ParkFrequencyRanks` | src/repositories/phonemes.repository.js:66-71 | goes through if and only if no row holds the negative of a positive rank, in whatever order rows are visited; then all positive ranks have changed sign, otherwise nothing has |
| `SeedRanks.PhonemeTable.UpsertPhoneme` | src/repositories/phonemes.repository.js:40-55 | insert, or update of some duplicated row, or refusal; ranks stay distinct in every case |
| `SeedRanks.PhonemeTable.SetFrequencyRank` | src/repositories/phonemes.repository.js:78-83 | refused if and only if the symbol has a row and another row holds the rank |
| `SeedRanks.OwnRowAloneExactlyWhen` | src/services/phoneme-ingestion.service.js:281-292 | a unit's upsert duplicates its own row alone, or none, if and only if nobody who has not moved yet stands where the unit is to be parked |
| `SeedRanks.PhonemeTable.MoveUnits` | src/services/phoneme-ingestion.service.js:281-307 | over safe ranks every unit is parked beyond the old ranks; whatever claims the statements, no rank above nought is left |
| `SeedRanks.PhonemeTable.RankUnits` | src/services/phoneme-ingestion.service.js:310-320 | no rank statement is refused, and every unit ends at its rank |
| `SeedRanks.DroppedRowsAreSafeExactlyWhen` | src/services/phoneme-ingestion.service.js:286-288 | where only rows the inventory has dropped rank beyond its N units, they are harmless if and only if none ranks between N + 1 and 2N |
| `SeedRanks.ShrinkingIsNotSafe` | src/services/phoneme-ingestion.service.js:286-288 | with canonical order 1 first, a row ranked N + 1 makes a seeding unsafe unless it is the first unit's own |
| `SeedRanks.PhonemeTable.SeedPhonemes` | src/services/phoneme-ingestion.service.js:276-321 | from any distinct ranks: a seeding that goes through leaves every unit at its rank and no row lost, one that does not changes nothing, and over safe ranks it always goes through |
| `SeedRanks.SeededRanksCanBeSeededAgain` | src/services/phoneme-ingestion.service.js:262-324 | what a seeding leaves is safe to seed over, and with the same counts is left as it is |

## Left out

- Routes, middleware, views, cookies, sessions, logging, mail, sign-in, deletion and audio generation: plumbing, calls to other services, or single compare-and-set writes.
- MySQL and Redis themselves: tables are maps and sequences under their unique keys, a transaction is one step or one method, and a Redis save or load may fail. The deadlock retry is not modelled.
- Idempotency reservations of a save: a repeated request reaches the transaction, where `ProgressLimits.SavingTwiceIsSavingOnce` says what it does.
- Row locks inside a transaction: statements of two transactions are not interleaved, only whole transactions are.
- `updated_at`, `ended_at`, `last_interaction_at` and the idle clock: the sweep may end any active session at any time, whether a session is idle on entry is given, and so are the words due when one opens. `ProgressMerges` states the due condition for one word; the order of the due words is not modelled.
- The daily unique key of word encounters: a passive event may be logged at any time.
- Liveness after a crash between a commit and the queue save: the turn is refused until the session ends, so only safety is claimed.
- Unicode normalisation and UTF-16 lengths: strings are sequences of code points, and NFC is the identity.
- Floating-point rounding: ease is in thousandths rounded half up, suggestion scores are in quarters.
- The curation notes and change labels the source normaliser collects, and the warnings and rejections of ingestion: they steer no write.
- Double Metaphone and the collation of headwords: parameters of the ranking.
- Attribution of CMUdict rows: every row here carries the default attribution.
- The dry run of reconciling pronunciations and the expansion candidates it reports: they write nothing.
- Which of several duplicated rows MySQL lets claim an upsert: any of them may, so over unsafe rows a load or a seeding may go through or be refused, and only what holds either way is claimed.
- Entries.NormaliseEntry: starts from the selected transcriptions; choosing them by accent tag, curated `ipa` pins and CMUdict pins, and the rejections and warnings these give, are outside the model.
- Collation of stored text: two transcriptions clash only when they are the same characters.
- Counting unit occurrences, example words, audio assets and phoneme ids while seeding: the counts are given, and a phoneme is known by its symbol.
- A limit of 0 and an unreachable store in the laws relating the two rate-limit stores: the `Consume` methods cover both, the laws assume a limit of at least 1 and a store that can be reached.
