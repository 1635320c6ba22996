# Verified model of the AI-Forge backend

AI-Forge is an evidence-analysis service. Between its database calls sit several deterministic
engines and state machines. This project models them in Dafny and proves what they promise, for
every input, every run and every reachable state. Databases are replaced by sequences, maps and
classes that hold tables; clocks, fresh identifiers and rows read elsewhere are parameters.

- **Image similarity** (`ImageSimilarity`, `ImageMoments`): global SSIM over exact reals, also in
  plain sums over the pixels, and the difference mask.
- **Correlation** (`CorrelationModel`, `CorrelationTimes`, `CorrelationSweep`, `CorrelationGroups`,
  `CorrelationMatchers`, `CorrelationEngine`, `CorrelationTheorems`, `CorrelationMeaning`): the
  inverted index, the pairwise sweeps, deduplication and the final sort, against a pairwise
  reference definition, and the output in terms of fields, characters and times.
- **Authentication** (`AuthModel`, `AuthRuns`, `AuthTokens`, `AuthAccounts`, `AuthLockout`,
  `AuthService`, `AuthThrottle`): accounts, sessions, refresh-token rotation, the lockout and the
  sign-in throttle. The calls are functions from tables to tables; the class updates the tables in
  place and is proved to do the same.
- **Case synthesis** (`CaseModel`, `CaseConflicts`, `CasePolicy`, `CaseMeaning`, `CaseCollection`,
  `CaseRelationships`): conflicts, risk, confidence, verdict, coverage, how evidence is collected,
  and the chains of equal hashes and creators.
- **Case review** (`ReviewModel`, `ReviewInput`, `ReviewChecklist`, `ReviewOrder`, `ReviewRuns`,
  `ReviewStages`): the checklist, what blocks, the order items are read in, and the stage over a run
  of edits and approvals.
- **Collaboration** (`CaseMembers`, `MemberRoles`, `CaseWorkflow`): roles, case ownership and the
  workflow stages.
- **Release tooling** (`Changelog`, `ChangelogHistory`, `ChangelogTheorems`, `ChangelogContent`,
  `ChangelogHeadings`, `SemVer`): printing, prepending and extracting changelog sections, and the
  version parser.
- Shared: `Options`, `Numbers`, `Rounding`, `Text`, `Sorting`, `Bags`, `Dedup`.

Scores, ratios and confidences are exact; `round` is the half-even function of `Rounding`, and a
rounded value is an integer number of hundredths or ten-thousandths.

Where the code and a natural reading of it differ, the model follows the code and says exactly when
the reading holds:

- Adding a release puts its section before everything under the title, so an introduction between
  title and first section becomes part of the new section
  (`ChangelogContent.IntroductionIsAbsorbed`). The repository's own `CHANGELOG.md` has such an
  introduction.
- A section is found by the beginning of its heading, so version 1.0.10 hides 1.0.1
  (`ChangelogTheorems.TenthPatchHidesFirst`, `ChangelogTheorems.RoundTripExactly`).
- The version parser accepts more than Semantic Versioning 2.0.0 does: tags with empty identifiers,
  zero-padded numbers in a pre-release, and digits beyond 0 to 9 in the core
  (`SemVer.BeyondStandard`); nothing else, and every standard version (`SemVer.StandardExactly`,
  `SemVer.StandardAccepted`).
- A release keeps all other sections of a file, unless its title line ends in a carriage return
  alone or another break that is no line feed (`ChangelogContent.OlderSectionsKept`,
  `ChangelogContent.CarriageReturnLoses`).
- More confidence means at least as much weight in the risk, except for a confidence of exactly zero
  against one below one half (`CasePolicy.MoreConfidenceWeighsMore`).
- The final validation item alone can block a case only when a conflict is open that neither list of
  conflicts contains, which the collecting code never produces (`ReviewChecklist.LoneBlocker`).
- A run can be approved while it still reports blockers (`ReviewRuns.ApprovedBeforeCleared`): the
  stage follows the case as it was last seen, the report follows the case as it was generated and
  the statuses set since. `ReviewRuns.ApprovedAndClear` says when a run is approved and reports
  none.
- The lists of a run are in policy order as generated, and in the order of the codes' texts once a
  request has been served (`ReviewRuns.AlwaysConsistent`).
- The creators of a case are connected exactly as expected unless a row is added between the two
  reads of the evidence (`CaseRelationships.CreatorChains`, `CaseRelationships.NewRowBreaksChain`).
- The ratio of evidence with a hash reads as complete exactly when at most one item in 20000 has
  none (`ReviewStages.CoverageReads`, `ReviewStages.CoverageHides`).
- The lockout timer of an account has no effect of its own (`AuthRuns.LockedForever`).

## Model

| member | source | states |
|---|---|---|
| ImageSimilarity.RatioBounds | backend/app/comparison/utils.py:71-82 | for non-negative samples the SSIM denominator is positive, the unclamped ratio never exceeds 1, and it is 1 exactly for identical sample lists |
| ImageSimilarity.SsimCharacterized | backend/app/comparison/utils.py:61-82 | the score is symmetric, lies in [0, 1], and is 1 exactly when the parts both images share are identical; for equal shapes, exactly when the images are |
| ImageMoments.SsimInSums | backend/app/comparison/utils.py:61-82 | the score of any two images is a clamped ratio of two explicit polynomials in the number of shared pixels and their plain sums, sums of squares and sum of products, with the constants 6.5025 and 58.5225 |
| ImageMoments.StackingKeepsScore | backend/app/comparison/utils.py:71-82 | repeating both images below themselves leaves the score as it is |
| ImageSimilarity.CroppedImagesCanScoreOne | backend/app/comparison/utils.py:66-70 | images of different size can score 1, because the rest is cropped away |
| ImageSimilarity.DifferenceMask | backend/app/comparison/utils.py:85-100 | the mask has the common size, holds 0 and 255 only, and 255 exactly where the difference reaches the threshold |
| ImageSimilarity.ColourMask | backend/app/comparison/utils.py:97-100 | the same for colour images: 255 exactly where some channel differs by the threshold |
| ImageSimilarity.PerfectScoreIsEmptyMask | backend/app/comparison/utils.py:61-100 | the score is 1 exactly when the mask at threshold 1 is all zero |
| CorrelationMatchers.KeyInjective | backend/app/correlation/provenance.py:19-35 | two correlation keys are equal exactly for the same kind and the same unordered pair |
| CorrelationGroups.GroupByValue | backend/app/correlation/matchers.py:114-124 | the index maps exactly the non-empty values in use, each to its holders in their original order |
| CorrelationGroups.MatchGroups | backend/app/correlation/engine.py:472-497 | expanding the index reports every shared value of every pair and nothing else, and the first result of a pair has the smallest shared value |
| CorrelationMatchers.MatchExactGroups | backend/app/correlation/engine.py:453-497 | the first result of each key is the one the pairwise definition asks for |
| CorrelationMatchers.MatchSharedMetadata | backend/app/correlation/engine.py:499-537 | one correlation for each pair that agrees on a metadata field without a kind of its own, with the smallest such field |
| CorrelationMatchers.MatchLinks | backend/app/correlation/engine.py:539-619 | of the stored signature or speaker matches of an unordered pair the first is reported, self-pairs included |
| CorrelationMatchers.SimilarFilenamePairs | backend/app/correlation/matchers.py:127-139 | exactly the unordered pairs with differing names and a similarity of at least one half, each once, with its score |
| CorrelationMatchers.MatchFilenames | backend/app/correlation/engine.py:621-656 | one correlation for each pair of similar names |
| CorrelationMatchers.FindTemporalOverlap | backend/app/correlation/engine.py:710-727 | no result exactly when no two events with known times lie within the uncertainty of either or one minute of each other; otherwise the first pair with the least distance in whole milliseconds, and that distance |
| CorrelationMatchers.MatchTemporal | backend/app/correlation/engine.py:658-708 | one correlation for each pair of items with overlapping events, naming the best overlap |
| CorrelationEngine.Deduplicate | backend/app/correlation/engine.py:764-773 | of every key exactly the item survives that has the highest score and comes first among those |
| CorrelationEngine.MatchAll | backend/app/correlation/engine.py:350-451 | all fifteen kinds are matched, and the first result of each key is what the pairwise definition asks for |
| CorrelationEngine.Build | backend/app/correlation/engine.py:80-105 | the output is empty below two items, and otherwise exactly the wanted correlations in strictly ascending final order |
| CorrelationEngine.RankLeIsTotalPreorder | backend/app/correlation/engine.py:83-92 | the sort key is a total order |
| CorrelationTheorems.Ordered | backend/app/correlation/engine.py:729-762 | every correlation names its pair in order, and no kind but signature and speaker pairs an item with itself |
| CorrelationTheorems.OnePerPair | backend/app/correlation/engine.py:764-773 | the output holds at most one correlation for a kind and an unordered pair |
| CorrelationTheorems.ReportsPair | backend/app/correlation/engine.py:350-451 | a computed kind reports two items exactly as the pairwise definition does, whichever is named first |
| CorrelationTheorems.ExactKindCharacterized | backend/app/correlation/engine.py:453-497 | two items are reported for an exact kind exactly when they share a non-empty value, with the smallest shared value |
| CorrelationTheorems.LinkCharacterized | backend/app/correlation/engine.py:539-619 | two items are reported as linked by signature or speaker exactly when the case has two items or more and some stored match names them, in either order |
| CorrelationTheorems.RowOrderIrrelevant | backend/app/correlation/engine.py:80-92 | permuting the evidence rows changes neither kinds, pairs and order nor any correlation that is not read off a stored match |
| CorrelationTheorems.OverlapSwaps | backend/app/correlation/engine.py:710-727 | swapping the event lists keeps existence and gap of the overlap |
| CorrelationTheorems.TemporalCharacterized | backend/app/correlation/engine.py:658-727 | two items are reported as overlapping in time exactly when some event of one lies within the window of some event of the other |
| CorrelationTimes.OverlapIsNearest | backend/app/correlation/engine.py:710-727 | an overlap is the first among the nearest close events, with times, uncertainties and the minute written out |
| CorrelationMeaning.ReportedWhenClose | backend/app/correlation/engine.py:658-727 | the output names a temporal overlap exactly when some event of one item lies within the uncertainty of either, or one minute, of some event of the other |
| CorrelationMeaning.NamesNearest | backend/app/correlation/engine.py:658-727 | and it names the nearest two |
| CorrelationMeaning.ReportedWhenAlike | backend/app/correlation/engine.py:621-656 | the output names two similar file names exactly when they differ, have tokens, and share at least half of all tokens |
| CorrelationMeaning.ReportedWhenAgreeing | backend/app/correlation/engine.py:499-537 | the output names shared metadata exactly when the items agree on a field other than the three with kinds of their own, and gives the smallest such field with its value |
| CorrelationMeaning.NamedByField | backend/app/correlation/engine.py:350-451 | for each of the ten exact kinds, the field whose shared non-empty values decide |
| CorrelationMeaning.FindingsNamed | backend/app/correlation/engine.py:472-497 | the findings are those of the smaller identifier first, three of each, or all for logos |
| CorrelationMeaning.KindsInOrder | backend/app/correlation/engine.py:83-92 | in the output the fifteen kinds come in one fixed order of strength |
| CorrelationMeaning.ScoresNamed | backend/app/correlation/scoring.py:9-54 | each reported correlation has the score and the confidence of its kind |
| CorrelationMeaning.LinkNamesRun | backend/app/correlation/engine.py:539-619 | a signature or speaker correlation names the run of a match stored for its pair |
| CorrelationTheorems.SimilarityDecides | backend/app/correlation/scoring.py:57-66 | similarity is symmetric and in [0, 1], and reaches one half exactly when the ratio of intersection to union is at least 0.49995; up to 10000 tokens that is one half itself, and 1 means equal non-empty token sets |
| CorrelationTheorems.StoredNamesDecide | backend/app/correlation/scoring.py:57-71 | for names of at most 255 characters, which is all the evidence table holds, rounding never decides: two names are similar exactly when twice the shared tokens reach all tokens, and score 1 exactly for equal non-empty token sets |
| CorrelationTheorems.TokensCharacterized | backend/app/correlation/scoring.py:69-71 | tokens are the maximal stretches between separators that have more than one character |
| CorrelationMeaning.TokensAre | backend/app/correlation/scoring.py:69-71 | tokens are the maximal stretches of at least two characters without white space, underscore, hyphen or dot, in lower case |
| AuthRuns.ReachableStates | backend/app/auth/service.py:205-344 | in every reachable state a session has at most one unrevoked refresh row, and every row and token agrees with its session on user and deadline |
| AuthRuns.StepKeeps | backend/app/auth/service.py:238-639 | no call loses a session, row or name, changes an owner or a deadline, or lifts a revocation or a lock |
| AuthRuns.SignInCharacterized | backend/app/auth/service.py:238-304 | signing in succeeds exactly with the right password of an active, unlocked account, and then opens one new session with one live row and changes nothing else |
| AuthRuns.ExchangeCharacterized | backend/app/auth/service.py:306-344 | an exchange succeeds exactly for a live refresh token before its expiry and its session's deadline, with session and account in order |
| AuthRuns.ResolveCharacterized | backend/app/auth/service.py:346-377 | an access token is honoured exactly under the corresponding conditions, on behalf of the owner of its session |
| AuthTokens.LoginTokensServe | backend/app/auth/service.py:205-304 | after signing in the access token works for the minutes set and the refresh token for the days chosen, cut to whole seconds, and neither as the other |
| AuthTokens.ExchangeTokensServe | backend/app/auth/service.py:306-344 | after an exchange the new tokens work as long, but never beyond the deadline of the session |
| AuthTokens.LoginTokensServeOn | backend/app/auth/service.py:205-377 | the same over every run that neither spends the refresh token, nor ends the session, nor makes the account unusable |
| AuthTokens.ExchangeTokensServeOn | backend/app/auth/service.py:205-377 | the same over every such run after an exchange |
| AuthTokens.WhyNotResolved | backend/app/auth/service.py:346-377 | which refusal an access token gets |
| AuthTokens.WhyNotExchanged | backend/app/auth/service.py:306-327 | which refusal a refresh token gets |
| AuthRuns.ExchangedOnce | backend/app/auth/service.py:306-344 | an exchanged refresh token is rejected in every later state |
| AuthRuns.AcceptedBeforeDeadline | backend/app/auth/service.py:281-287 | no token is accepted at or after creation of its session plus the days fixed then |
| AuthRuns.LoginDeadline | backend/app/auth/service.py:281-344 | no chain of exchanges extends a session beyond the days chosen when signing in |
| AuthRuns.ExchangeStaysInSession | backend/app/auth/service.py:328-344 | an exchange issues fresh tokens of the same session and user, and its refresh row is live |
| AuthRuns.EndedForever | backend/app/auth/service.py:599-613 | no token of a revoked session is accepted in any later state |
| AuthRuns.PasswordChangeEndsOthers | backend/app/auth/service.py:401-420 | after a password change no other session the user had is ever honoured again |
| AuthAccounts.PasswordChanges | backend/app/auth/service.py:401-420 | a password is changed exactly with the current one, to a different one of 12 to 128 characters with a small letter, a capital, a digit and something else |
| AuthAccounts.ChangedSignsIn | backend/app/auth/service.py:401-420 | afterwards the account signs in with the chosen password and no other, and nothing changes for others |
| AuthAccounts.OwnSessionSurvives | backend/app/auth/service.py:417-419 | the tokens of the session it was changed in, and those of others, work as before |
| AuthRuns.DeactivationEndsAll | backend/app/auth/service.py:504-542 | after deactivation or deletion none is, even if the account is reactivated |
| AuthAccounts.UpdatedSignsIn | backend/app/auth/service.py:504-534 | after an update an account signs in exactly if it was switched on and is not locked; without a flag, and for others, nothing changes |
| AuthAccounts.StaysOut | backend/app/auth/service.py:504-542 | once deactivated or deleted, a user cannot sign in over any run that does not switch the account on |
| AuthAccounts.RequestsAsAdmin | backend/app/auth/service.py:346-377 | a request is made as administrator exactly as the last update of the role said |
| AuthAccounts.CreatedSignsIn | backend/app/auth/service.py:464-487 | in every reachable state a new account signs in with its password exactly if created active, and nothing changes for others |
| AuthAccounts.WhyRefused | backend/app/auth/service.py:255-280 | which of the three refusals a sign-in gets |
| AuthRuns.LogoutEnds | backend/app/auth/service.py:379-399 | signing out ends the session for good |
| AuthRuns.RevocationEnds | backend/app/auth/service.py:599-613 | revoking one session ends it for good although its refresh row stays |
| AuthAccounts.RevokedByOwnerOrAdmin | backend/app/auth/service.py:599-613 | a session is ended exactly by its owner or an administrator, for good, and all other tokens work as before |
| AuthAccounts.AllSessionsEnd | backend/app/auth/service.py:615-639 | ending all sessions of a user ends each for good and touches no one else |
| AuthAccounts.LogoutSpends | backend/app/auth/service.py:379-399 | signing out with a refresh token of another session of the user makes that token worthless too, and no other |
| AuthRuns.LockedForever | backend/app/auth/service.py:256-262 | a locked account can neither sign in nor use a token in any later state: the timer lifts nothing |
| AuthRuns.FifthFailureLocks | backend/app/auth/service.py:263-280 | one wrong password adds one failure, and locks exactly when it is the fifth |
| AuthLockout.LockedAtFive | backend/app/auth/service.py:255-302 | over every run, whatever calls lie between, an account is locked exactly when five wrong passwords came since the last successful sign-in, and a sixth is never counted |
| AuthLockout.OnlyWrongPasswords | backend/app/auth/service.py:263-280 | of wrong passwords only, at whatever times, the first four leave an active account unlocked and the fifth locks it |
| AuthService.Service.Login | backend/app/auth/service.py:238-304 | the stored tables and the answer are those of the value-level call unless the throttle refuses; the list of the address moves by exactly one attempt with that outcome, no other list moves, and lists of at most ten entries stay so |
| AuthService.Service.Refresh | backend/app/auth/service.py:306-344 | the stored tables and the answer are those of the value-level exchange |
| AuthService.Service.ResolveAccessToken | backend/app/auth/service.py:346-377 | the stored tables and the answer are those of the value-level resolution |
| AuthService.Service.RevokeRefreshTokens | backend/app/auth/repository.py:114-130 | narrowing filter by filter leaves no selected row unrevoked; a row is changed exactly when it was selected, and then only by its time of revocation; none is added or lost |
| AuthService.Service.RevokeUserSessions | backend/app/auth/service.py:619-639 | whatever order they are listed in, exactly the live sessions of the user but the excepted one are revoked |
| AuthService.Service.Logout | backend/app/auth/service.py:379-399 | the stored tables are those of the value-level call |
| AuthService.Service.ChangePassword | backend/app/auth/service.py:401-420 | the stored tables and the answer are those of the value-level call, errors first |
| AuthService.Service.UpdateUser | backend/app/auth/service.py:504-534 | the stored tables and the answer are those of the value-level call |
| AuthService.Service.DeleteUser | backend/app/auth/service.py:536-542 | the stored tables and the answer are those of the value-level call |
| AuthService.Service.RevokeSession | backend/app/auth/service.py:599-613 | the stored tables and the answer are those of the value-level call |
| AuthThrottle.IpThrottle.RegisterIpFailure | backend/app/auth/security.py:87-96 | a failure is added to the pruned list of its address, and nothing happens without an address |
| AuthThrottle.IpThrottle.AssertIpAllowed | backend/app/auth/security.py:99-109 | the list of the address is pruned, and the attempt is allowed below ten entries |
| AuthThrottle.IpThrottle.ClearIpFailures | backend/app/auth/security.py:112-116 | the list of the address is forgotten, the others stay |
| AuthThrottle.StoredRefinesLog | backend/app/auth/security.py:87-116 | with a clock that never runs backwards the pruned list and the full log since the last success agree in every later window |
| AuthThrottle.RefusedByFullLog | backend/app/auth/security.py:99-109 | an attempt is refused exactly when the full log has at least ten entries in the last fifteen minutes |
| AuthThrottle.AtMostTenStored | backend/app/auth/service.py:249-302 | attempts made one after the other never leave more than ten entries |
| AuthThrottle.StoredIsAttempts | backend/app/auth/service.py:249-302 | the list after a run of attempts is the one after the events they cause |
| AuthThrottle.RefusedInRun | backend/app/auth/service.py:249-302 | over every run of sign-ins with a clock that never runs backwards, pruning decides as a throttle would that forgets nothing: refused exactly at ten failures in the last fifteen minutes since the last success |
| CaseConflicts.MetadataTimestampConflicts | backend/app/case_intelligence/consistency.py:34-66 | one conflict between the first and the last completion when they are more than a day apart |
| CaseConflicts.TemporalMeaning | backend/app/case_intelligence/consistency.py:38-52 | it is raised exactly when some two completions are more than a day apart |
| CaseConflicts.CustodyProvenanceConflicts | backend/app/case_intelligence/consistency.py:69-107 | one conflict for each item whose hash is missing from the digests its custody events record |
| CaseConflicts.HashesByEvidence | backend/app/case_intelligence/consistency.py:84-88 | the dictionary holds for every item exactly the digests of its events |
| CaseConflicts.DetectCaseConflicts | backend/app/case_intelligence/conflicts.py:18-107 | of all conflicts raised, the first of each identifier is kept, in strictly ascending order of identifiers |
| Dedup.Deduplicate | backend/app/case_intelligence/conflicts.py:98-107 | sorting before deduplication does not change which row of an identifier is kept, and identifiers end up strictly ascending |
| CaseConflicts.ConfidenceMeaning | backend/app/case_intelligence/conflicts.py:55-79 | the confidence conflict is raised exactly when some two confidences are at least 0.4 apart |
| CaseConflicts.VerdictMeaning | backend/app/case_intelligence/conflicts.py:25-54 | the verdict conflict is raised exactly when a suspicious item stands next to a genuine one |
| CaseConflicts.CountParts | backend/app/case_intelligence/conflicts.py:18-107 | the number of conflicts left: at most one each for times, verdicts and confidences, and one per item with a broken custody record or contradicted findings |
| CaseMeaning.EveryConflictSays | backend/app/case_intelligence/conflicts.py:18-107 | each conflict of an assessment names the items it concerns, their findings and its severity, and what it says holds of the evidence |
| CaseConflicts.ConflictsGrow | backend/app/case_intelligence/conflicts.py:18-107 | more evidence never means fewer conflicts |
| CasePolicy.ComputeCoverage | backend/app/case_intelligence/coverage.py:18-76 | the counters are the counts of the six statuses and sum to the total; the modalities are those of the items, strictly ascending |
| CasePolicy.RiskShape | backend/app/case_intelligence/policy.py:133-147 | no score exactly when no suspicious item carries one; otherwise in [0, 100]; conflicts matter only through min(count, 2) |
| CaseMeaning.RiskInPoints | backend/app/case_intelligence/policy.py:133-147 | the risk is the mean of risk times confidence, raised by a fifth for two items and two fifths for more, less 15 points for one conflict and 30 for more, kept in [0, 100], and rounded |
| CaseMeaning.SecondSuspect | backend/app/case_intelligence/policy.py:144-147 | without conflicts a second suspect of equal weight raises the risk by one fifth |
| CasePolicy.InnocentNeverRaisesRisk | backend/app/case_intelligence/policy.py:46-147 | adding anywhere an item that is neither suspicious nor potential fraud never raises the risk, with the conflicts detected anew |
| CasePolicy.HeavySuspectNeverLowersRisk | backend/app/case_intelligence/policy.py:137-147 | under any non-negative weighing, and so under that of the policy, a further scored item at least as heavy as the average never lowers the risk while conflicts stay the same |
| CasePolicy.RiskOrderIrrelevant | backend/app/case_intelligence/policy.py:133-147 | neither risk nor number of conflicts depends on the order of the evidence |
| CasePolicy.MoreConfidenceWeighsMore | backend/app/case_intelligence/policy.py:137-139 | of two confidences the greater weighs at least as much exactly when the risk is zero, the smaller is not zero, both are zero, or the greater reaches one half |
| CasePolicy.ConfidenceWithin | backend/app/case_intelligence/policy.py:150-161 | the case confidence lies between any bounds of the confidences it averages, and is missing exactly when there are none |
| CaseMeaning.ConfidenceIsMean | backend/app/case_intelligence/policy.py:150-161 | the case confidence is the mean of the known confidences of analysed items, rounded |
| CasePolicy.FraudCharacterized | backend/app/case_intelligence/policy.py:164-188 | taken alone, the decision is potential fraud exactly when some item is and not all items are unavailable; one analysed fraud item is enough |
| CasePolicy.SuspiciousCharacterized | backend/app/case_intelligence/policy.py:189-194 | without fraud the verdict is suspicious exactly when two items are, or one is and none is genuine |
| CasePolicy.GenuineCharacterized | backend/app/case_intelligence/policy.py:164-200 | the verdict is genuine exactly when some item is, none is suspicious, not all are unavailable, all confidences are less than 0.4 and all completions at most a day apart, and custody agrees |
| CaseMeaning.InsufficientCharacterized | backend/app/case_intelligence/policy.py:169-173 | the evidence is insufficient exactly when no item has a verdict |
| CaseMeaning.UnavailableCharacterized | backend/app/case_intelligence/policy.py:174-178 | the case is unavailable exactly when some item has a verdict and all are unavailable |
| CaseMeaning.InconclusiveCharacterized | backend/app/case_intelligence/policy.py:179-200 | the case is inconclusive exactly when some item has a verdict, not all are unavailable, none is fraud, and either one is suspicious next to a genuine one, or none is and a genuine one meets a conflict or there is none |
| CasePolicy.VerdictOrderIrrelevant | backend/app/case_intelligence/policy.py:150-200 | neither verdict nor confidence depends on the order of the evidence |
| CasePolicy.SynthesizeCase | backend/app/case_intelligence/policy.py:34-130 | the assessment carries the deduplicated conflicts, and coverage, risk and verdict use their number |
| CaseCollection.CollectCaseEvidence | backend/app/case_intelligence/aggregation.py:28-136 | one participation for each evidence row, in order, with the status its latest fusion run calls for |
| CaseCollection.FraudForces | backend/app/case_intelligence/policy.py:164-188 | for collected evidence the verdict is potential fraud exactly when some item is |
| CaseCollection.SuspicionForces | backend/app/case_intelligence/policy.py:164-194 | for collected evidence it is suspicious exactly when none is fraud, and two items are suspicious or one is and none is genuine |
| CaseCollection.GenuineCertifies | backend/app/case_intelligence/policy.py:164-200 | for collected evidence it is genuine exactly when some item is, none is suspicious or fraud, and confidences, completions and custody agree |
| CaseMeaning.CollectedUnavailable | backend/app/case_intelligence/policy.py:174-178 | a collected case is unavailable exactly when it has rows and each analysis ended as unavailable |
| CaseMeaning.CollectedAnalyzed | backend/app/case_intelligence/aggregation.py:28-49 | a row counts as analysed exactly when its run did not fail and decided something |
| CaseMeaning.CollectedCarries | backend/app/case_intelligence/aggregation.py:62-136 | what a collected item carries of its row and its run |
| CaseRelationships.LinkGroups | backend/app/case_intelligence/relationships.py:41-68 | grouping in dictionaries and walking the sorted keys yields the links of neighbours, group by group |
| CaseRelationships.SpanningForest | backend/app/case_intelligence/relationships.py:41-68 | when every row is reported there are as many links as rows less groups, and rows are connected exactly when they have the same key |
| CaseRelationships.ChainsConnect | backend/app/case_intelligence/relationships.py:146-175 | two rows are connected exactly when every row of the group from one to the other takes part |
| CaseRelationships.LinksAreNextRows | backend/app/case_intelligence/relationships.py:41-68 | the links lead from each reported row to the next one with the same key, if that one is reported too, in the order of the rows |
| CaseRelationships.HashChains | backend/app/case_intelligence/relationships.py:41-68 | the number of duplicate links is items less distinct hashes, and items are connected exactly when their hashes are equal |
| CaseRelationships.ClosureIsSameHash | backend/app/correlation/engine.py:356-364 | two items with a hash are connected by duplicate links exactly when the correlation engine reports them as having the same hash |
| CaseRelationships.CreatorChains | backend/app/case_intelligence/relationships.py:138-175 | for rows that are the collected ones in any order, there are as many links as rows with a creator less creators, and such rows are connected exactly when their creators are equal |
| CaseRelationships.CreatorRead | backend/app/case_intelligence/relationships.py:148-153 | the creator counts before the author, white space and case do not matter, and what is no text names nobody |
| CaseRelationships.NewRowBreaksChain | backend/app/case_intelligence/relationships.py:157-162 | a row added between the two reads, between two rows with the same creator, leaves those two unconnected |
| CaseRelationships.ChainIdUnique | backend/app/case_intelligence/relationships.py:41-202 | a chain link shares its identifier with no other relationship |
| CaseRelationships.DetectRelationships | backend/app/case_intelligence/relationships.py:22-38 | the deduplicated list holds exactly the links of both chains, and no identifier twice |
| ReviewChecklist.GenerateChecklist | backend/app/case_review/checklist.py:23-380 | the checklist is the thirteen policy codes in order, each with the status, blocking and outstanding flags its signals call for |
| ReviewChecklist.Reorder | backend/app/case_review/checklist.py:361-380 | for any list of items: one item for each policy code, in order, the last that was added or one that awaits review |
| ReviewChecklist.FinalBlocksWhen | backend/app/case_review/checklist.py:320-358 | for any snapshot the final validation blocks exactly when another item blocks or a conflict is open |
| ReviewChecklist.LoneBlocker | backend/app/case_review/checklist.py:320-358 | a lone blocker is the final validation, and exists exactly when a conflict is open while no other item blocks |
| ReviewChecklist.CollectedNeverLone | backend/app/case_review/engine.py:387-393 | in a collected snapshot the final validation blocks exactly when another item does, so there is never one blocker |
| ReviewChecklist.SignalBounds | backend/app/case_review/validation.py:8-20 | the evidence counters never exceed the total |
| ReviewChecklist.ApprovalComplete | backend/app/case_review/approvals.py:16-20 | the approval ratio lies in [0, 1] and is complete exactly when all four roles approved |
| ReviewChecklist.CoverageRatio | backend/app/case_review/scoring.py:29-31 | the evidence coverage lies in [0, 1], also without evidence |
| ReviewOrder.RankIsTextOrder | backend/app/case_review/repository.py:114-116 | the texts of the thirteen codes are ordered as the alphabet of codes lists them, and no two are equal |
| ReviewOrder.ListedIsAlphabetical | backend/app/case_review/repository.py:103-116 | read back, the items of every run come in that order, one of each code |
| ReviewOrder.ListedNames | backend/app/case_review/service.py:143-145 | the titles read off the listed items name exactly the flagged items, each once, in that order |
| ReviewRuns.PlanReview | backend/app/case_review/engine.py:67-113 | stage and metrics are those of the snapshot's checklist and the approvals |
| ReviewRuns.StageFollows | backend/app/case_review/engine.py:43-64 | over every run the stage is the one the last snapshot and all approvals lead to, and is never pending or finalized |
| ReviewRuns.ApprovedCharacterized | backend/app/case_review/engine.py:43-64 | a run is approved exactly when nobody rejected or asked for changes, all four roles approved, and the last snapshot has no blocker |
| ReviewStages.StageCharacterized | backend/app/case_review/engine.py:43-64 | the stage of every run from its decisions and the case as last seen: rejected, changes requested, approved by all on a clear case, validated on a complete case, or under review |
| ReviewStages.ClearWhen | backend/app/case_review/checklist.py:23-358 | a checklist has no blocker exactly when the case has evidence, all of it with hash and custody, and no conflict |
| ReviewStages.CompleteWhen | backend/app/case_review/checklist.py:23-358 | and nothing outstanding exactly when it also has metadata, a timeline, findings, fusion, graph, hypotheses, recommendations, reports, and correlations from two items on |
| ReviewStages.WhatBlocks | backend/app/case_review/checklist.py:23-358 | which items block, and why, in terms of the case |
| ReviewStages.WhatIsMissing | backend/app/case_review/checklist.py:59-318 | which items are outstanding without blocking, and why |
| ReviewStages.SuggestionAgrees | backend/app/case_review/checklist.py:23-358 | the suggested status agrees with the flags of each item |
| ReviewStages.OutstandingFollows | backend/app/case_review/service.py:308-342 | over every run an item is outstanding, and listed so, exactly when its last status says so or its generation did |
| ReviewStages.RatiosRead | backend/app/case_review/service.py:148-152 | once a request is served, validation is complete exactly when every item passed or does not apply, and the review exactly when none is pending |
| ReviewStages.GeneratedRatios | backend/app/case_review/scoring.py:8-43 | as generated, validation is complete exactly when every item is suggested to pass or not to apply, and the review exactly when something is suggested for each |
| ReviewStages.CoverageReads | backend/app/case_review/scoring.py:29-31 | the rounded evidence coverage is complete exactly when at most one item in 20000 has no hash |
| ReviewStages.CoverageHides | backend/app/case_review/scoring.py:29-31 | one item without a hash among 20000 blocks the case, which reads as covered |
| ReviewInput.StatusRead | backend/app/case_review/service.py:316-320 | a status is read exactly from its name, in any case and with white space around it |
| ReviewInput.DecisionRead | backend/app/case_review/approvals.py:8-13 | so is a decision |
| ReviewInput.RoleRead | backend/app/case_review/reviewers.py:13-18 | and a role |
| ReviewRuns.ApprovalsKept | backend/app/case_review/service.py:366-384 | approvals are only ever appended |
| ReviewRuns.RejectedForever | backend/app/case_review/service.py:126-145 | one rejection rejects the run for good |
| ReviewRuns.ChangesRuleOutApproval | backend/app/case_review/service.py:126-145 | one request for changes rules out approval for good |
| ReviewRuns.AlwaysConsistent | backend/app/case_review/service.py:126-157 | in every reachable run there is one item of each code, each blocking item is outstanding, the lists name exactly the flagged items, counts agree and ratios lie in [0, 1]; the run is as generated until a request is served, and from then on its lists are in the order of the codes' texts |
| ReviewRuns.BlockingFollows | backend/app/case_review/service.py:308-342 | over every run an item blocks, and is listed as blocking, exactly when its last status was FAIL or BLOCKED, or it never had one set and blocked as generated |
| ReviewRuns.NothingReported | backend/app/case_review/service.py:143-156 | a run reports no blocker exactly when that holds of no item |
| ReviewRuns.ApprovedAndClear | backend/app/case_review/service.py:126-156 | a run is approved and reports no blocker exactly when nobody objected, all four roles approved, the case as last seen has no blocker, and no item still blocks |
| ReviewRuns.ApprovedDespiteBlockers | backend/app/case_review/service.py:134-156 | four approvals alone approve every run whose case has been put right, although it still reports the blockers it was generated with |
| ReviewRuns.ApprovedBeforeCleared | backend/app/case_review/service.py:134-156 | this happens: a run generated for a case without evidence, approved after one hashed item with a custody record was added |
| ReviewRuns.ReviewRun.Generate | backend/app/case_review/service.py:189-254 | the stored run is the generated one |
| ReviewRuns.ReviewRun.UpdateItem | backend/app/case_review/service.py:308-342 | an unknown item or status changes nothing; otherwise status and flags of that item are set, the stage is recomputed from the live snapshot, and lists and counts from the items as they are read back |
| ReviewRuns.ReviewRun.RecordApproval | backend/app/case_review/service.py:344-386 | an unreadable decision or role changes nothing; otherwise the approval is appended, the stage is recomputed from the live snapshot, and lists and counts from the items as they are read back |
| CaseMembers.AlwaysAnOwner | backend/app/collaboration/service.py:120-248 | once a case has an owner it always has one |
| CaseMembers.OneMembershipEach | backend/app/collaboration/service.py:134-146 | in no history does a user hold two memberships |
| CaseMembers.RefusedWhenOwnerless | backend/app/collaboration/service.py:204-245 | a manager's demotion or removal is refused exactly when it would leave the case without an owner |
| CaseMembers.OthersChangeNothing | backend/app/collaboration/service.py:94-112 | who is neither administrator of users nor owner nor lead investigator changes nothing |
| CaseMembers.TransferCounts | backend/app/collaboration/service.py:186-203 | an owner's transfer never adds to the number of owners and touches no third member |
| MemberRoles.AddOutcome | backend/app/collaboration/service.py:120-146 | a user is added exactly by one who manages members, if user and role exist and it is no member yet; then it holds that role and all others keep theirs |
| MemberRoles.ChangeOutcome | backend/app/collaboration/service.py:204-216 | a role is changed exactly by one who manages members, unless it demotes the last owner; then that member holds it and all others keep theirs |
| MemberRoles.NoChange | backend/app/collaboration/service.py:204-216 | without a role to change and without a transfer nothing happens |
| MemberRoles.TransferOutcome | backend/app/collaboration/service.py:186-203 | ownership is handed over exactly by an owner or an administrator; the named member is owner, the asking other member lead investigator, and all others keep their roles |
| MemberRoles.RemoveOutcome | backend/app/collaboration/service.py:232-248 | a member is removed exactly by one who manages members, unless it is the last owner; then it holds no role and all others keep theirs |
| MemberRoles.RoleRead | backend/app/collaboration/service.py:130-133 | a role is read from exactly its own name |
| CaseMembers.Membership.AddMember | backend/app/collaboration/service.py:120-169 | the stored table and the answer are those of the value-level call, errors in the order of the code |
| CaseMembers.Membership.UpdateMember | backend/app/collaboration/service.py:171-230 | the stored table and the answer are those of the value-level call, for transfers and role changes |
| CaseMembers.Membership.RemoveMember | backend/app/collaboration/service.py:232-258 | the stored table and the answer are those of the value-level call |
| CaseWorkflow.MovesOneStep | backend/app/collaboration/policy.py:103-131 | the transition table allows exactly the steps to a neighbour in the workflow order, and none from the archive |
| CaseWorkflow.LogReplays | backend/app/collaboration/service.py:801-831 | over every run the log replays to the stage, the version counts its entries, and the stage's position is at most version - 1 with the same parity |
| CaseWorkflow.AllVisited | backend/app/collaboration/policy.py:103-131 | a log that reaches a stage has visited every stage before it, in at least as many moves |
| CaseWorkflow.ArchiveIsFinal | backend/app/collaboration/workflow.py:19-34 | a case that reached the archive visited every stage in at least six moves and moves no more |
| CaseWorkflow.Reachable | backend/app/collaboration/workflow.py:12-34 | every stage is reached with every number of moves that bound and parity allow |
| CaseWorkflow.StageRead | backend/app/collaboration/workflow.py:12-34 | a stage is read from exactly its own name |
| CaseWorkflow.Workflow.GetWorkflow | backend/app/collaboration/service.py:781-799 | reading creates the row at the first stage in version 1 and logs nothing |
| CaseWorkflow.Workflow.TransitionWorkflow | backend/app/collaboration/service.py:801-839 | an unknown or unreachable stage changes nothing; otherwise stage, version and log advance together |
| Changelog.GenerateChangelogSection | backend/app/cicd/release_notes.py:9-42 | the text is the printed section of the release |
| Changelog.SortCommits | backend/app/cicd/release_notes.py:23-33 | trimmed, non-blank subjects go to features, fixes or the rest, in order |
| ChangelogContent.EveryCommitOnce | backend/app/cicd/release_notes.py:20-42 | read back from its text, a section has exactly one bullet per non-blank commit, and one of its own when there is none |
| ChangelogHeadings.EachUnderItsHeading | backend/app/cicd/release_notes.py:23-39 | read back from the text, features, fixes and other commits stand under their headings, in order, whatever case they are written in |
| ChangelogHeadings.FirstLineOf | backend/app/cicd/release_notes.py:17-19 | the first line of a section is its version and date |
| ChangelogHistory.ExtractChangelogSection | backend/app/cicd/gates.py:203-221 | the two scans return the lines from the first matching heading to the next heading, trimmed |
| ChangelogHistory.StackShape | backend/app/cicd/release_notes.py:45-53 | a file built by prepending is the title, an empty line and all sections, newest first |
| ChangelogTheorems.FindsNewest | backend/app/cicd/gates.py:203-221 | asking for any text finds the section of the newest release whose heading begins with it |
| ChangelogTheorems.FindsNothing | backend/app/cicd/gates.py:213-214 | and nothing when there is no such release |
| ChangelogTheorems.RoundTrip | backend/app/cicd/release_notes.py:9-53 | every release of a history is found again as it was printed, if no later version begins with its own |
| ChangelogTheorems.RoundTripExactly | backend/app/cicd/gates.py:206-212 | for different versions that condition is also necessary |
| ChangelogTheorems.TenthPatchHidesFirst | backend/app/cicd/gates.py:206-212 | after 1.0.10 a request for 1.0.1 is answered with the wrong section |
| ChangelogContent.IntroductionIsAbsorbed | backend/app/cicd/release_notes.py:45-53 | on top of any file, a release is found again as printed exactly when the file has only blank lines before its first section |
| ChangelogContent.IntroductionLost | backend/app/cicd/release_notes.py:45-53 | below a title and any line of text, a release is not found again as printed |
| ChangelogContent.IntroductionExample | backend/app/cicd/release_notes.py:45-53 | for example below a one-word introduction |
| ChangelogContent.OlderSectionsKept | backend/app/cicd/release_notes.py:45-53 | in any file, adding a release keeps the answer for every version its heading does not begin with, if the replaced part holds no heading of that version; only if, when the rest holds none; a title ending in a line feed never does |
| ChangelogContent.CarriageReturnLoses | backend/app/cicd/release_notes.py:50-52 | below a title that ends in a carriage return alone, a section is lost |
| ChangelogContent.AnswersWhenMarked | backend/app/cicd/gates.py:206-221 | the answer is empty exactly when no line begins with the marker |
| SemVer.ParseCharacterized | backend/app/cicd/gates.py:15-27 | a version is accepted exactly when, trimmed, it is the text of well-formed groups, and those are returned |
| SemVer.ParsePrinted | backend/app/cicd/gates.py:15-27 | printing well-formed groups and parsing the text gives them back |
| SemVer.PrintInjective | backend/app/cicd/gates.py:15-18 | the split into core, pre-release and build is unique |
| SemVer.IdentifiersAreStretches | backend/app/cicd/gates.py:17 | splitting a tag at its dots gives exactly the stretches between them |
| SemVer.NoEmptyIdentifier | backend/app/cicd/gates.py:17 | a tag has an empty identifier exactly when it begins or ends with a dot or holds two in a row |
| SemVer.StandardAccepted | backend/app/cicd/gates.py:21-27 | every version of Semantic Versioning 2.0.0, sections 2, 9 and 10, is accepted and returned |
| SemVer.StandardExactly | backend/app/cicd/gates.py:15-27 | an accepted version is one of the standard exactly when no tag has a stray dot, no number of the pre-release is zero-padded, and the digits of the core are 0 to 9 |
| SemVer.BeyondStandard | backend/app/cicd/gates.py:15-18 | each of the three does occur: 1.0.0-., 1.0.0-01, and a core with any further digit are accepted |

## Left out

- Floating point: all arithmetic is exact; rounding errors of binary fractions, such as those of
  thresholds like 0.4 or of `int(total_seconds() * 1000)`, are not modelled.
- Unicode case mapping: lower and upper case are those of the letters A to Z. The prefixes `feat` and
  `fix` contain no letter another character folds to; file names, creators and review keywords may.
- Image loading, PNG encoding, EXIF and resizing; images enter as grids of pixel values.
- Collection of correlation signals from EXIF, OCR and AI tables, phone and e-mail normalisation, and
  the explanation and provenance fields of correlations.
- JWT signing, password hashing and token digests: only issued tokens exist, they are distinct, and a
  password verifies exactly when it is the stored one.
- One clock reading per authentication call, except in the throttle, whose three readings differ.
- E-mail addresses, display names, role tables, user-agent parsing, seeding of the first
  administrator, and the permission checks of the routes.
- Database sessions: a failing call leaves the tables as they were, and calls do not interleave.
- AuthService.Service.UpdateUser: only the active flag and the administrator role are modelled.
- AuthModel.CreateUser: the policies for user names and passwords of new accounts, which differ by
  caller, are not modelled but for the empty password; the model creates more accounts, never fewer.
- AuthModel.AcceptablePassword: character classes are those of ASCII.
- Comparison, signature and shared-label relationships: rows of the database that enter as
  parameters; their confidence, status and source fields are constants or copies.
- Explanations, limitations and the timeline of a case assessment, and which fusion run is the latest.
- Titles, notes, keys and provenance of checklist items; a title is represented by its code. The
  second part of the sort key of items is never looked at, because a run has one item of each code.
- Choosing the latest review run of a case, and a review approval that names a run of another case.
- Notifications and the activity feed of the collaboration service; tasks, comments and reviews.
- Existence checks of cases, and of users other than when one is added.
- Concurrent requests on the same row.
- Reading the project version, migration heads, OpenAPI and advisory gates of the release tooling.
- Fusion, entity resolution, knowledge graph, decision support, dashboards and deployment.
