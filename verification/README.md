# Verification model of MathOS

MathOS is a research workbench around the Lean prover. This project models the parts of it whose
correctness is not visible from one function body, and proves what they promise.

| area | modules |
|---|---|
| Rank-capped re-ranking and its displacement report | `RankCap`, `Displacement`, `StabilityExact` |
| SPDX licence expressions, the choice of standard texts, the release gate | `Spdx`, `SpdxLanguage`, `LicenseText`, `LicenseReadings`, `LicenseRows`, `TextChoice` |
| Canonical JSON, workflow-command and XML escaping | `CanonicalJson`, `JsonReader`, `JsStrings`, `JunitEscaping`, `JunitLines` |
| Two-level budgets and the identifier allocator | `Budgets`, `IdAllocator` |
| Job table, desktop host | `JobEvents`, `JobTable`, `JobOutcomes`, `LineSplitter`, `DesktopHost`, `HostInput`, `HostProgress` |
| The editor's bridge session | `BridgeSession`, `BridgeOutcomes` |
| Registry passes and the tar reader | `WorkerPool`, `PoolSchedules`, `RegistryPasses`, `NoticePass`, `RegistryRows`, `Enrichment`, `OfferLimit`, `TarNotices`, `TarDetails` |
| Capsule archives, claim checks, replay | `Base64`, `CapsulePaths`, `CapsuleArchive`, `ArchiveVerdict`, `CapsuleClaim`, `CapsuleReplay`, `CapsuleDetails`, `CapsuleExample` |
| Bootstrap interval | `Bootstrap`, `BootstrapDraws` |

`Sequences`, `Sorting` and `Quotients` hold shared facts: first-seen order of a Set or Map, filters, the stable
sort, division of reals.

Code that changes state step by step is modelled by classes and loops proved against functions on values.
Concurrent behaviour is a step system: one transaction, or what runs between two awaits, is one step, and a
run is any sequence of steps. `dafny verify dfyconfig.toml` checks everything.

## Findings

Where the code does less than its comments or its neighbours suggest, the model keeps the code, gives a
concrete input, and states exactly when the property holds.

- An operator glued to an identifier, as in `MIT ANDApache-2.0`, is an AND for the recognizer and part of a
  word for `standardTextChoice`, so only one text is reproduced where two are required
  (`LicenseText.HiddenAndFails`). `LicenseReadings.ChoiceExactly` gives the condition on the input under which
  the choice is right; `LicenseText.ChosenTextsSatisfy` covers all inputs whose operators are visible.
- A licence identifier outside the preference list is preferred to every listed one, because `indexOf` gives −1:
  `MIT OR LGPL-2.1-only` reproduces the LGPL (`LicenseText.LgplBeforeMit`, `LicenseText.ListedExactly`).
- `startJob` documents a key as single-flight; the empty string is not null and is not
  (`JobTable.EmptyKeyRunsTwice`, `JobTable.SingleFlight`).
- `listJobs` reports another `next` than `pollJob` exactly once an event has been dropped, that is, from the
  5001st on (`JobEvents.ListedNextAgrees`).
- The displacement function shows large promotions without any semantic boost for every baseline of more than 220
  names, and for none below (`Displacement.LongBaselinePromotes`, `Displacement.CapEmptiesLargeBuckets`). The
  script asks for at most 200 names, so its own input does not reach this.
- With no iterations, and only then, the bootstrap has no bounds (`Bootstrap.IntervalWithin`).
- The registry report counts a package twice when its licence resolves and its archive address is malformed
  (`Enrichment.ResolvedAndFailed`, `RegistryPasses.CountedTwice`).
- When more archives are offered than the limit allows, which rows get their notices depends on the schedule
  (`Enrichment.LimitDependsOnSchedule`), unless the limit is 0 or there is one worker; in all other cases some
  schedules disagree (`OfferLimit.IndependentExactly`).
- Two spellings of one path, with a backslash and with a slash, pass the export, and its own archive is then
  refused (`CapsuleArchive.TwoSpellings`, `CapsuleArchive.FreshExportVerifies`).
- A verification record or manifest file `{}` makes the claim check throw instead of reporting an
  error (`CapsuleExample.CheckEmptyRecord`, `CapsuleExample.CheckEmptyManifest`, `CapsuleClaim.VerifyClaim`).
- A replay plan is never READY, since there is always an action (`CapsuleReplay.PlanReplay`). A toolchain named
  like a property every object inherits is never reported missing (`CapsuleReplay.ConstructorNeverMissing`,
  `CapsuleReplay.MissingIgnoredExactly`). Without Lean, a capsule that names no other toolchain is written out
  before the call fails (`CapsuleExample.ReplayWithoutLean`, `CapsuleReplay.ReplayClaim`).
- A bridge request whose message JSON cannot print is rejected, and its entry stays pending until the session
  closes (`BridgeSession.ThrownStaysPending`, `BridgeSession.SettledAtMostOnce`).

## Model

| member | source | states |
|---|---|---|
| `RankCap.BoundedRank` | packages/retrieval/src/semantic-operator-profile-v2-stability.ts:60-64 | The bounded rank lies between rank − cap and rank and differs from the rank exactly when an eligible candidate improves under a positive cap; then it is the semantic rank or rank − cap, whichever is larger |
| `RankCap.BoundedIsLeast` | scripts/semantic-profile-v2.ts:99 | No rank within both bounds, the enriched rank and rank − cap, is better than the bounded rank |
| `RankCap.RankIsLast` | scripts/semantic-profile-v2.ts:89-91 | The rank and the candidate a Map keeps for a name are those of its last occurrence |
| `RankCap.CappedFloor` | scripts/semantic-profile-v2.ts:97-101 | In any list sorted by (bounded, baseline, name) whose keys respect the cap, a baseline candidate of rank r stands at place r − cap or lower |
| `RankCap.CappedCeiling` | scripts/semantic-profile-v2.ts:97-101 | In such a list a baseline candidate with r + cap at most the absent rank stands at place r + cap − 1 or higher |
| `RankCap.CappedNewcomer` | scripts/semantic-profile-v2.ts:97-101 | In such a list a candidate outside the baseline stands below every baseline candidate the cap protects from it |
| `RankCap.ProtectedRowsCapped` | scripts/semantic-profile-v2.ts:89-100 | The rows built from the merged candidates respect the cap: distinct names, every baseline name present, rank 201 for names outside it |
| `RankCap.BaselineEndsNoHigher` | scripts/semantic-profile-v2.ts:85-102 | In the final ranking a baseline candidate of rank r never ends above place r − cap, for any goal and eligibility |
| `RankCap.BaselineSurvives` | scripts/semantic-profile-v2.ts:85-102 | With cap ≥ 1 and r + cap ≤ 201 a baseline candidate of rank r survives the cut at 200 and ends at place r + cap − 1 or higher |
| `RankCap.NewcomerEndsBelow` | scripts/semantic-profile-v2.ts:85-102 | A candidate absent from a baseline of n never lands above place min(n, 200 − cap) + 1 |
| `RankCap.RankingExactly` | scripts/semantic-profile-v2.ts:85-102 | The whole ranking: without operator tokens the baseline; otherwise each name once with its last candidate, ordered by the better of enriched rank and rank − cap (eligible and improving) or rank, then by baseline rank (201 outside it), then by name; 200 places, and whatever is left out may follow all of them |
| `RankCap.LoneRiser` | scripts/semantic-profile-v2.ts:98-101 | The only eligible candidate, of baseline rank r and enriched rank a below it, ends at place max(a, r − cap) + 1 |
| `Displacement.StabilityCapped` | scripts/semantic-profile-v2-stability.ts:154-174 | The stability script's rows, after dropping names that are neither in the baseline nor boosted, respect the cap with absent rank n + 1 |
| `Displacement.StabilityPlaces` | scripts/semantic-profile-v2-stability.ts:154-174 | Where the first 200 names of that ranking may stand, in terms of the baseline order and the cap alone |
| `StabilityExact.StabilityExactly` | scripts/semantic-profile-v2-stability.ts:154-174 | The whole stability ranking: baseline names and eligible improving others, each once, in the order of target rank, baseline rank (n + 1 outside it) and name, down to place 200 |
| `Displacement.CountOneFixture` | scripts/semantic-profile-v2-stability.ts:223-231 | The counter loop over one fixture adds to each bucket exactly the number of its names that fall into it, and appends the distance of every name in order |
| `Displacement.DisplacementMetrics` | scripts/semantic-profile-v2-stability.ts:217-234 | Each reported counter is the number of (fixture, name) pairs of its bucket; mean, 95th percentile and maximum are those of the distances of all names in order; without a baseline everything is zero |
| `Displacement.DistancesOrdered` | scripts/semantic-profile-v2-stability.ts:233 | Mean and 95th percentile never exceed the largest distance, and the percentile is one of the distances |
| `StabilityExact.MeanExactly` | scripts/semantic-profile-v2-stability.ts:233 | The mean distance times the number of distances is their sum |
| `StabilityExact.DistancesExactly` | scripts/semantic-profile-v2-stability.ts:233 | The percentile is the distance with 95 of 100 others before it in order, the maximum is the largest distance, and without distances all are zero |
| `StabilityExact.GoldExactly` | scripts/semantic-profile-v2-stability.ts:222-227 | A name is gold if and only if it equals an expected name in lower case, and then it enters no promotion bucket |
| `Displacement.MovesStaySmall` | scripts/semantic-profile-v2-stability.ts:227 | No name, present or absent on either side, is reported to move up by 20 or more when the cap is below 20 and the baseline has at most 220 names |
| `Displacement.CapEmptiesLargeBuckets` | scripts/semantic-profile-v2-stability.ts:217-234 | For all goals, any eligibility and any cap below 20, promoted20To49, promoted50To99 and promoted100Plus of the capped ranking are zero (baseline at most 220 names; the script asks for 200) |
| `Displacement.LongBaselinePromotes` | scripts/semantic-profile-v2-stability.ts:227-230 | The bound 220 is exact: for every longer baseline, with no candidate eligible, the cut at 200 alone makes one of the three buckets positive |
| `Spdx.TokensCoverInput` | scripts/distribution/dependency-inventory.ts:77-79 | Over the allowed characters the tokens put together are the input without its spaces |
| `Spdx.LossCheckRedundant` | scripts/distribution/dependency-inventory.ts:77-79 | The loss check cannot fail once the character check has passed |
| `Spdx.Recognizer.Expression` | scripts/distribution/dependency-inventory.ts:81-85 | The loop over the shared index returns what the grammar's expression rule returns, moves the index there on success and keeps it inside the tokens |
| `Spdx.Recognizer.Term` | scripts/distribution/dependency-inventory.ts:86-92 | The same for a term: parenthesised expression, identifier, or identifier WITH exception |
| `Spdx.SpdxLicense` | scripts/distribution/dependency-inventory.ts:76-94 | Returns the input itself exactly when it is accepted, and NOASSERTION otherwise |
| `Spdx.ExprSound` | scripts/distribution/dependency-inventory.ts:81-85 | Whatever the expression rule consumes is the printing of a well-formed tree |
| `Spdx.TermSound` | scripts/distribution/dependency-inventory.ts:86-92 | Whatever the term rule consumes is the printing of a well-formed term |
| `Spdx.ExprComplete` | scripts/distribution/dependency-inventory.ts:81-85 | Every printing of a well-formed tree, followed by no operator, is consumed whole |
| `Spdx.TermComplete` | scripts/distribution/dependency-inventory.ts:86-92 | Every printing of a well-formed term, not followed by WITH after a bare identifier, is consumed whole |
| `Spdx.RecognizerExact` | scripts/distribution/dependency-inventory.ts:80-93 | A token list is accepted if and only if it is the printing of some well-formed tree |
| `Spdx.SpdxLicenseExact` | scripts/distribution/dependency-inventory.ts:76-94 | An input is accepted if and only if it passes the character check and its tokens print a well-formed tree |
| `SpdxLanguage.TokenLaws` | scripts/distribution/dependency-inventory.ts:78 | Spaces separate, and a parenthesis, AND, OR or WITH in front of any text is a token of its own |
| `SpdxLanguage.IdentifierLaw` | scripts/distribution/dependency-inventory.ts:78 | Any other run of identifier characters that ends is one token |
| `SpdxLanguage.CharactersExactly` | scripts/distribution/dependency-inventory.ts:77-78 | The characters of identifiers and of texts, by their list |
| `SpdxLanguage.PassesExactly` | scripts/distribution/dependency-inventory.ts:77 | A text passes the character check if and only if it is not empty, has only the listed characters, and does not refer to a licence file by that phrase |
| `SpdxLanguage.PhraseExactly` | scripts/distribution/dependency-inventory.ts:77 | The phrase SEE LICENSE IN is found in any case exactly where no word character touches it |
| `SpdxLanguage.OneToken` | scripts/distribution/dependency-inventory.ts:86-88 | A single token is accepted if and only if it is a licence identifier |
| `SpdxLanguage.ThreeTokens` | scripts/distribution/dependency-inventory.ts:81-92 | Three tokens are accepted if and only if they are a licence WITH an exception, two licences joined by AND or OR, or a licence in parentheses |
| `SpdxLanguage.Closed` | scripts/distribution/dependency-inventory.ts:81-92 | Accepted token lists joined by AND or OR, or put in parentheses, are accepted |
| `LicenseText.ChoiceIsMostPreferred` | scripts/distribution/dependency-inventory.ts:278-285 | Of several alternatives the choice has the smallest preference index; an identifier outside the preference list has index −1 and so wins over every listed one |
| `LicenseText.ListedExactly` | scripts/distribution/dependency-inventory.ts:278-285 | The choice among alternatives is a listed identifier if and only if every available alternative is listed |
| `LicenseText.LgplBeforeMit` | scripts/distribution/dependency-inventory.ts:278-285 | For `MIT OR LGPL-2.1-only` with both texts at hand the LGPL text is chosen |
| `TextChoice.WordAlone` | scripts/distribution/dependency-inventory.ts:280 | A text without white space and parentheses is one word |
| `TextChoice.WordsPart` | scripts/distribution/dependency-inventory.ts:280 | White space or a parenthesis parts the words before it from those behind it |
| `TextChoice.ChoiceMadeExactly` | scripts/distribution/dependency-inventory.ts:279-285 | A choice is made if and only if there is no word WITH and, with an AND, every word but the operators has a text or, without one, some such word has |
| `TextChoice.AllTextsChosen` | scripts/distribution/dependency-inventory.ts:283 | With an AND the chosen texts are exactly the words but the operators, each once, in the order in which the licence first names them |
| `TextChoice.OneTextChosen` | scripts/distribution/dependency-inventory.ts:284-285 | Without one, one available word is chosen: of the smallest preference index, and of those the one named first |
| `LicenseText.SeparateWordsVisible` | scripts/distribution/dependency-inventory.ts:280-283 | If no operator touches an identifier, the second tokenizer sees every AND and WITH that the recognizer sees |
| `LicenseText.PlainWordsAreTokens` | scripts/distribution/dependency-inventory.ts:280 | A word that does not start with an operator is a token of the recognizer |
| `LicenseText.TokensAreWords` | scripts/distribution/dependency-inventory.ts:280 | With operators apart, every token but a parenthesis is a word |
| `LicenseText.ReadingTokens` | scripts/distribution/dependency-inventory.ts:80-93 | Under any bracketing of a chain, the formula mentions exactly the tokens of the text other than parentheses |
| `LicenseText.ChosenTextsSatisfy` | scripts/distribution/dependency-inventory.ts:279-286 | For an accepted licence whose operators the second tokenizer sees, the chosen texts make it true as an AND/OR formula under every precedence |
| `LicenseText.HiddenAndFails` | scripts/distribution/dependency-inventory.ts:279-286 | For any two different identifiers, `a ANDb` is accepted, means a AND b, and yet only the text of a is chosen |
| `LicenseReadings.EveryReadingExactly` | scripts/distribution/dependency-inventory.ts:279-286 | A set of texts satisfies an expression under every precedence exactly when each run of OR-joined terms, at every depth, has a term that holds |
| `LicenseReadings.ChoiceExactly` | scripts/distribution/dependency-inventory.ts:279-286 | For every accepted licence: the texts chosen satisfy it under every precedence, whichever texts are available, if and only if the input passes SafeToChoose (an AND or a WITH is a word of its own, or every word that is not an operator is an alternative of each OR run) |
| `LicenseRows.InventoryRow.Fill` | scripts/distribution/dependency-inventory.ts:299-303 | One row becomes its filled form and the texts it names are exactly those chosen for it |
| `LicenseRows.FillRows` | scripts/distribution/dependency-inventory.ts:298-306 | The loop fills every row as if alone, also when rows are shared, and collects exactly the texts asked for |
| `LicenseRows.ApplyStandardLicenseTexts` | scripts/distribution/dependency-inventory.ts:293-310 | All rows are filled, the used texts are those of all rows, and the gate is recomputed from the filled rows |
| `LicenseRows.FillTwice` | scripts/distribution/dependency-inventory.ts:293-310 | Filling again changes nothing and asks for no new text |
| `LicenseRows.FillsOnlyGaps` | scripts/distribution/dependency-inventory.ts:299-303 | Only searched, distributed, licensed rows without a notice change, and only in their notice fields |
| `TextChoice.FilledExactly` | scripts/distribution/dependency-inventory.ts:298-303 | A row is filled if and only if it is distributed, searched, licensed, not of the workspace, without a notice, and its licence has its texts at hand; then it lists exactly the chosen texts |
| `TextChoice.TextsUsedExactly` | scripts/distribution/dependency-inventory.ts:304 | A text is used if and only if some row names it |
| `TextChoice.GateExactly` | scripts/distribution/dependency-inventory.ts:58-64 | The gate's counts are the numbers of distributed rows without a licence, of those without a needed notice, and of undistributed rows; the release is blocked if and only if one of the first two kinds exists |
| `LicenseRows.GateAfterFill` | scripts/distribution/dependency-inventory.ts:58-64 | Unresolved and undistributed counts stay, the missing notices fall by exactly the rows newly covered, so a complete gate stays complete |
| `LicenseRows.FilledRowSatisfied` | scripts/distribution/dependency-inventory.ts:299-303 | The texts named by a filled row satisfy its licence under every precedence, and all of them are listed in the row |
| `CanonicalJson.ReadBack` | packages/computation/src/index.ts:55 | A printed string can be read back together with whatever follows it |
| `CanonicalJson.QuoteUnambiguous` | packages/computation/src/index.ts:55 | Two printed strings followed by anything are equal only if the strings and what follows are equal |
| `CanonicalJson.Unambiguous` | packages/computation/src/index.ts:54-59 | A printed value followed by a separator determines the value, up to the order of keys, and the rest |
| `CanonicalJson.ArrayUnambiguous` | packages/computation/src/index.ts:56 | The same for arrays: the elements and the rest are determined |
| `CanonicalJson.ObjectUnambiguous` | packages/computation/src/index.ts:57-58 | The same for objects: the map of keys to values and the rest are determined |
| `CanonicalJson.EqualPrintsEqually` | packages/computation/src/index.ts:57-58 | Values that are equal with keys taken as a set print equally |
| `CanonicalJson.CanonicalExact` | packages/computation/src/index.ts:54-59 | Two values print equally if and only if they are equal with object keys taken as a set |
| `JsonReader.ValueReadsBack` | packages/computation/src/index.ts:54-59 | A reader of JSON text (RFC 8259) reads every printed value, followed by a separator or nothing, back as the value it denotes |
| `JsonReader.KeysAscend` | packages/computation/src/index.ts:57 | The keys of an object are printed in the strict order of their code units |
| `JsonReader.EscapedExactly` | packages/computation/src/index.ts:55 | In a printed string exactly control characters, quotation marks, backslashes and lone surrogates are escaped, seven of them by a letter or themselves and the rest by four hexadecimal digits |
| `JsStrings.SortedAlike` | packages/core/src/capsule-workflow.ts:164-167 | Two lists of strings sort to the same list if and only if they are equal as multisets |
| `JunitEscaping.MessageIsOnePass` | scripts/ci/junit-annotations.ts:8 | The three replacements in sequence equal one per-character escaping pass, for every text |
| `JunitEscaping.PropertyIsOnePass` | scripts/ci/junit-annotations.ts:7 | The five replacements in sequence equal one per-character escaping pass, for every text |
| `JunitEscaping.EscapesRoundTrip` | scripts/ci/junit-annotations.ts:7-8 | Percent-decoding (section 2.1 of RFC 3986) undoes both |
| `JunitEscaping.NoSeparatorLeft` | scripts/ci/junit-annotations.ts:7-8 | No CR, LF, colon or comma is left in a property, no CR or LF in a message |
| `JunitLines.AnnotationUnambiguous` | scripts/ci/junit-annotations.ts:18 | Two failures print the same annotation if and only if file, line (1 when empty), title and detail are equal, whatever these texts are |
| `JunitLines.AnnotationParts` | scripts/ci/junit-annotations.ts:18 | An empty line prints like line 1 and an empty type like Failure; otherwise every part appears, the line as it is |
| `JunitLines.SameParts` | scripts/ci/junit-annotations.ts:18 | Printed parts are determined by the text as soon as both titles hold a character that a property escapes and a message does not |
| `JunitLines.LongerNeedsPlainTitle` | scripts/ci/junit-annotations.ts:18 | Equal texts with lines of different lengths need a title without colon and comma behind the longer line: this is why the colon in every title matters |
| `JunitLines.TitlesAgreeExactly` | scripts/ci/junit-annotations.ts:18 | Titles agree if and only if type and name do, or the longer type is the other type, the separator and the beginning of its name |
| `JunitEscaping.NextReplacement` | scripts/ci/junit-annotations.ts:5 | Each further replacement extends the simultaneous decoding by one entity |
| `JunitEscaping.UnescapeIsOnePass` | scripts/ci/junit-annotations.ts:5 | The six replacements in sequence equal one left-to-right decode, for every text, because `&amp;` comes last |
| `JunitEscaping.XmlRoundTrip` | scripts/ci/junit-annotations.ts:5 | They undo XML escaping (section 4.6 of XML 1.0) of every text |
| `Budgets.Accounting.ReserveTeam` | packages/core/src/mathos.ts:964-974 | The transaction either changes nothing or counts one call for the session and adds one consumed reservation for it |
| `Budgets.Accounting.ChargeLean` | packages/core/src/mathos.ts:957-986 | A Lean charge has exactly the result, database and usage of the charge function, in every branch |
| `Budgets.Accounting.ChargeModel` | packages/core/src/mathos.ts:988-1013 | The same for a model charge |
| `Budgets.Accounting.ChargeProofAttempt` | packages/core/src/mathos.ts:1015-1039 | The same for a proof attempt, including the crash after the reservation |
| `Budgets.EveryRunKeepsInvariant` | packages/core/src/mathos.ts:957-1039 | Every interleaving of any number of workers, with crashes anywhere, keeps the accounting invariant |
| `Budgets.BudgetsHold` | packages/core/src/mathos.ts:957-1039 | In every run: no run or team counter passes its limit; each team counter equals its consumed reservations; local counters sum to at most the team counter, with equality when nothing was lost between reservation and increment; totals equal the sums of their categories |
| `Budgets.NoCrashNoLoss` | packages/core/src/mathos.ts:1034-1037 | Without a crash nothing is lost between reservation and local increment |
| `Budgets.CallIsThreeSteps` | packages/core/src/mathos.ts:957-1039 | A charge method is its local check, its transaction and its increment run without interference |
| `Budgets.RefusalChangesNothing` | packages/core/src/mathos.ts:961-975 | A charge is refused locally exactly when the run has no room; a refused charge, local or by the team, changes nothing; an accepted one adds one to its own resource only |
| `Budgets.OutcomeExactly` | packages/core/src/mathos.ts:957-1039 | Each outcome of a charge has its condition on counters and limits: the team refuses if and only if the run has room, the worker has a seat, and its session is absent or has used up the resource |
| `Budgets.DatabaseExactly` | packages/core/src/mathos.ts:964-974 | A granted call adds one to its resource in its session, changes no other counter, limit or session, and appends one reservation of the next round; any other call leaves the database alone |
| `Budgets.CountersCountCharges` | packages/core/src/mathos.ts:978-984 | In every run a worker's counter of each kind of charge is the number of charges of that kind it has completed |
| `Budgets.GrantsUpToLimit` | packages/core/src/mathos.ts:964-969 | In every run a session has granted the smaller of its limit and the number of transactions asked of it |
| `Budgets.FirstTransactionsGranted` | packages/core/src/mathos.ts:964-969 | A transaction is granted if and only if fewer than the limit were asked before it, by whichever workers and whatever else happened |
| `IdAllocator.PadSeq` | packages/shared/src/ids.ts:10-12 | The padded number has only digits and at least three of them |
| `IdAllocator.PaddedToThree` | packages/shared/src/ids.ts:10-12 | It has more than three digits only without a leading zero |
| `IdAllocator.IdTextInjective` | packages/core/src/mathos.ts:949-953 | Identifier texts of different (prefix, number) pairs differ |
| `IdAllocator.LargestNumber` | packages/core/src/mathos.ts:941-946 | The loop's result bounds every matching stored number and is one of them, or zero |
| `IdAllocator.Allocator.AllocateId` | packages/core/src/mathos.ts:932-955 | Returns the identifier of the next number of the prefix and leaves the counter one past it |
| `IdAllocator.EveryHistory` | packages/core/src/mathos.ts:932-955 | Invariant over any sequence of allocations and changes to the tables |
| `IdAllocator.IdsNeverRepeat` | packages/core/src/mathos.ts:932-955 | Across all prefixes no identifier is issued twice, and the numbers of one prefix strictly increase |
| `IdAllocator.NumbersConsecutive` | packages/core/src/mathos.ts:932-955 | In every history the numbers of a prefix run without a gap from its counter, or from one past the largest number stored at its first allocation |
| `IdAllocator.IdsAreNew` | packages/core/src/mathos.ts:937-949 | An issued identifier differs from every one stored when its counter was created |
| `JobEvents.EmitHolds` | apps/tui/src/jobs.ts:30-33 | After an event the log holds the latest min(emitted, 5000) events, consecutively numbered |
| `JobEvents.PollReturns` | apps/tui/src/jobs.ts:45-51 | A poll returns exactly the stored events from `since` on; `next` is the number to continue from and never below `since` |
| `JobEvents.PollerSeesInOrder` | apps/tui/src/jobs.ts:29-51 | A poller that continues from `next` receives events in strictly increasing order, none twice; it misses none when at most 5000 are emitted between two polls; `next` never goes back |
| `JobEvents.LogSize` | apps/tui/src/jobs.ts:16 | The log holds all events up to the 5000th and then 5000 |
| `JobEvents.ShortRunComplete` | apps/tui/src/jobs.ts:29-51 | In a run with at most 5000 events a poller misses nothing, however rarely it polls |
| `JobEvents.ListedNextAgrees` | apps/tui/src/jobs.ts:60-61 | `next` of listJobs agrees with that of pollJob if and only if at most 5000 events were emitted |
| `JobTable.Jobs.PruneJobs` | apps/tui/src/jobs.ts:19-21 | Removes exactly the jobs that finished more than half an hour ago |
| `JobTable.Jobs.StartJob` | apps/tui/src/jobs.ts:24-43 | Returns the running job of the key, or adds one new running job with a fresh id |
| `JobTable.Jobs.EmitEvent` | apps/tui/src/jobs.ts:30-33 | Appends one event to that job's log only |
| `JobTable.Jobs.PollJob` | apps/tui/src/jobs.ts:45-51 | Fails exactly for an unknown id and changes nothing |
| `JobTable.Jobs.CancelJob` | apps/tui/src/jobs.ts:53-58 | True exactly for a running job, which is then marked aborted |
| `JobTable.Jobs.WorkResolved` | apps/tui/src/jobs.ts:35 | Settles the job as done, or cancelled when it was aborted |
| `JobTable.Jobs.WorkRejected` | apps/tui/src/jobs.ts:36-40 | Settles the job as failed, or cancelled when it was aborted or the code ends with _CANCELLED |
| `JobTable.EveryRun` | apps/tui/src/jobs.ts:19-58 | Every run keeps the table consistent, and the counter never goes back |
| `JobTable.SingleFlight` | apps/tui/src/jobs.ts:26 | At most one job runs per key, for every key but null and the empty string |
| `JobTable.EmptyKeyRunsTwice` | apps/tui/src/jobs.ts:26 | Under the empty key, which is not null, a job started twice runs twice |
| `JobTable.SecondStartJoins` | apps/tui/src/jobs.ts:24-26 | Starting under the key of a running job returns that job and starts nothing |
| `JobTable.StepKeepsJob` | apps/tui/src/jobs.ts:19-58 | No step drops a running job or alters a terminal state, its result or its error |
| `JobTable.JobOverTime` | apps/tui/src/jobs.ts:19-58 | Over any stretch of a run a job that is still there is the same job with its terminal state and its abort kept |
| `JobTable.CancelWins` | apps/tui/src/jobs.ts:35-57 | If cancelJob returned true and the work settles, the job ends cancelled |
| `JobOutcomes.StepExactly` | apps/tui/src/jobs.ts:19-58 | What a step does to any one job: only pruning drops it, when it finished more than 1800000 ms ago, and only its own steps change it |
| `JobOutcomes.EndsByVerdict` | apps/tui/src/jobs.ts:34-57 | Over any run a job's state is decided by the first step with which its work settles and by whether it was cancelled before |
| `JobOutcomes.StartExactly` | apps/tui/src/jobs.ts:24-42 | A start joins a job if and only if one runs under its key, which is neither null nor empty; otherwise it adds a running job under the next number |
| `JobOutcomes.CancelExactly` | apps/tui/src/jobs.ts:53-58 | Cancelling succeeds if and only if the job runs, and marks that job only |
| `JobOutcomes.CodeFound` | apps/tui/src/jobs.ts:37 | A message that begins with a code (a capital, then capitals, digits or underscores, four at least) and a colon gives that code |
| `JobOutcomes.CodeMissing` | apps/tui/src/jobs.ts:37 | Any other message gives JOB_FAILED |
| `JobTable.RunsUntilSettled` | apps/tui/src/jobs.ts:34-41 | A running job runs on, whatever else happens, if and only if its work has not settled |
| `JobTable.UnsettledKeepsKey` | apps/tui/src/jobs.ts:25-42 | If the work of a new job never settles, every later start under its key joins that job |
| `JobTable.IdsNeverReused` | apps/tui/src/jobs.ts:27 | A new job's id never belonged to an earlier job, pruned or not |
| `LineSplitter.Splitter.Push` | apps/desktop/host/protocol.ts:51-61 | A chunk delivers exactly the complete non-blank lines of buffer plus chunk and keeps the rest |
| `LineSplitter.SplitAnywhere` | apps/desktop/host/protocol.ts:50-62 | Cutting a text anywhere loses, repeats and alters no line |
| `LineSplitter.ChunksDoNotMatter` | apps/desktop/host/protocol.ts:50-62 | However the input is cut into chunks, the lines delivered and the rest are those of the whole text |
| `LineSplitter.DeliveredAreLines` | apps/desktop/host/protocol.ts:56-58 | A delivered line has text and no newline |
| `LineSplitter.HasTextExactly` | apps/desktop/host/protocol.ts:58-60 | A line is delivered only if it has a character outside the white space of ECMAScript, listed by code point |
| `LineSplitter.WrittenLinesReturn` | apps/desktop/host/protocol.ts:50-62 | Lines written with LF or CRLF come back exactly, whatever the chunks |
| `DesktopHost.Process.OnLine` | apps/desktop/host/host.ts:103 | An arriving line is answered at once on the fast path or joins the queue |
| `DesktopHost.Process.RunJobCommand` | apps/desktop/host/host.ts:69 | A job's command joins the same queue |
| `DesktopHost.Process.BeginCapture` | apps/desktop/host/host.ts:54-59 | Capture and working directory are set for the link that is running |
| `DesktopHost.Process.EndCapture` | apps/desktop/host/host.ts:62-65 | The finally block clears the capture and returns to the home directory, unless that fails, which is swallowed |
| `DesktopHost.Process.FinishTask` | apps/desktop/host/host.ts:42-49 | The link is done and its request, if it has one, is answered under its id |
| `DesktopHost.RunSteps` | apps/desktop/host/host.ts:28-103 | A fresh host that performs any sequence of events goes through exactly the states of the run, so what is proved of runs holds of the handlers |
| `DesktopHost.EveryRun` | apps/desktop/host/host.ts:35-103 | Every interleaving of arrivals, job commands and queue steps keeps the invariant, and the lines known to the host are exactly those that arrived, in order |
| `DesktopHost.EachLineAnsweredOnce` | apps/desktop/host/host.ts:35-103 | Every line is answered at most once and under its own id; exactly once on the fast path or when the queue is worked off |
| `DesktopHost.FastInOrder` | apps/desktop/host/host.ts:75-103 | A fast answer comes after every answer sent before its line arrived |
| `DesktopHost.OnlyFastPathOvertakes` | apps/desktop/host/host.ts:75-103 | An answer overtakes an earlier line only on the fast path; queued requests answer in arrival order |
| `DesktopHost.OneCommandAtATime` | apps/desktop/host/host.ts:53-69 | At most one link is active, job commands included; the capture belongs to it exactly while its command runs |
| `DesktopHost.NothingCapturedBetween` | apps/desktop/host/host.ts:62-65 | Whenever no command runs, also when the host is idle, the capture is null and the directory is the host's own unless the last change failed |
| `DesktopHost.StraysOnlyOnFailure` | apps/desktop/host/host.ts:57-64 | As long as every change of directory succeeds, the directory is never astray |
| `DesktopHost.LinksStartInOrder` | apps/desktop/host/host.ts:69-103 | A link starts only after every earlier link is done |
| `HostProgress.FastPathExactly` | apps/desktop/host/host.ts:75-85 | A line is fast if and only if its arguments begin with lean status, job list, or job poll or job cancel and a job id |
| `HostProgress.BlockedExactly` | apps/desktop/host/protocol.ts:35-48 | The refused argument lists, by how they begin and which flags they hold |
| `HostProgress.PhaseExactly` | apps/desktop/host/host.ts:35-69 | How any step moves any link of the queue |
| `HostProgress.ChainExactly` | apps/desktop/host/host.ts:69-103 | A line off the fast path and a job's command, and nothing else, join the queue at its end |
| `HostProgress.DirectoryExactly` | apps/desktop/host/host.ts:54-65 | In every run the directory is where the last successful change went: a command's own directory, or home behind it |
| `HostProgress.WorkedOff` | apps/desktop/host/host.ts:35-103 | From every state a run can reach the queue can be worked off without a new line, and then every line that has arrived is answered exactly once |
| `HostInput.ArrivalsOfInput` | apps/desktop/host/host.ts:103 | With chunks of input between all other steps, the lines that arrive are those of everything read |
| `HostInput.InputIsChunks` | apps/desktop/host/host.ts:112 | The input is the chunks read, one behind the other |
| `HostInput.CutsDoNotMatter` | apps/desktop/host/host.ts:35-103 | Two ways of cutting the same input, with any other steps in between, give the same arrivals, and the same answers once the queue is worked off |
| `BridgeSession.Bridge.SendRequest` | apps/vscode-extension/src/extension.ts:28-39 | Rejects with the closing or transport error, or issues a fresh id that is then pending; a message that cannot be printed rejects the request and leaves its entry |
| `BridgeSession.Bridge.ReceiveResponse` | apps/vscode-extension/src/extension.ts:40 | Settles a pending id with its response and ignores any other |
| `BridgeSession.Bridge.FailAll` | apps/vscode-extension/src/extension.ts:41 | The loop settles every pending id that is still open with the error and leaves none |
| `BridgeSession.Bridge.CloseSession` | apps/vscode-extension/src/extension.ts:43 | Closes once: timer disarmed, closing error set, everything pending settled |
| `BridgeSession.Bridge.DeferTransportFailure` | apps/vscode-extension/src/extension.ts:42 | Records the first transport failure and arms the timer |
| `BridgeSession.Bridge.OnChildClosed` | apps/vscode-extension/src/extension.ts:21-25 | Closes with the error the three-way choice gives |
| `BridgeSession.EveryRun` | apps/vscode-extension/src/extension.ts:8-45 | Every run keeps ids accounted for and the timer consistent with the recorded failure |
| `BridgeSession.RunEvents` | apps/vscode-extension/src/extension.ts:8-45 | A fresh session that performs any sequence of events goes through exactly the states of the run |
| `BridgeSession.SettledAtMostOnce` | apps/vscode-extension/src/extension.ts:28-44 | Issued ids are the union of pending and settled ones, none settled twice, and the two overlap exactly in requests whose message could not be printed; after close nothing is pending |
| `BridgeSession.PendingOrSettled` | apps/vscode-extension/src/extension.ts:28-44 | If every message could be printed, pending and settled are disjoint |
| `BridgeSession.ThrownStaysPending` | apps/vscode-extension/src/extension.ts:32-34 | A first request whose message cannot be printed is rejected and yet pending |
| `BridgeSession.OutcomesArePermanent` | apps/vscode-extension/src/extension.ts:40-43 | An outcome once given never changes, and the closing error and the transport error are each set once |
| `BridgeOutcomes.ResponseSettles` | apps/vscode-extension/src/extension.ts:40 | In every run a response ends the pending entry it names and settles it, if it was unsettled, with the result when ok and with the error otherwise; nothing else changes |
| `BridgeOutcomes.OutcomeExactly` | apps/vscode-extension/src/extension.ts:20-44 | In every run a request has an outcome if and only if some event decided it when it was unsettled: a response, an unprintable message, the timer, or the child's close with the error of its three-way choice |
| `BridgeOutcomes.ResolvedByResponse` | apps/vscode-extension/src/extension.ts:40 | A request resolves only with the payload of an ok response that came while it was pending and unsettled |
| `BridgeOutcomes.PendingExactly` | apps/vscode-extension/src/extension.ts:28-43 | Which requests are pending after any event |
| `BridgeOutcomes.IssuedExactly` | apps/vscode-extension/src/extension.ts:28-33 | A number is issued if and only if a request entered under it while the session was open |
| `BridgeOutcomes.NumbersUsed` | apps/vscode-extension/src/extension.ts:31-44 | Every request and every shutdown message of an open session takes one number |
| `BridgeOutcomes.ClosesExactly` | apps/vscode-extension/src/extension.ts:20-43 | The session closes when the child does, or when the timer fires after a transport failure, and only once |
| `BridgeOutcomes.SpawnErrorExactly` | apps/vscode-extension/src/extension.ts:20 | The remembered start error is the last one |
| `BridgeOutcomes.KilledExactly` | apps/vscode-extension/src/extension.ts:42-44 | The child is killed by disposing and by the timer of an open session, and by nothing else |
| `BridgeSession.TimerSettlesEverything` | apps/vscode-extension/src/extension.ts:42-43 | A recorded transport failure has an armed timer or a closed session; the timer step leaves nothing pending and rejects what was open with the recorded error |
| `BridgeSession.FirstFailureRecorded` | apps/vscode-extension/src/extension.ts:12-42 | While nothing has failed, a step records an error exactly when it reports a stream, start or write failure, and the recorded error is that first one, whatever fails afterwards |
| `BridgeSession.ChildCloseSettlesEverything` | apps/vscode-extension/src/extension.ts:21-25 | The close event of the child settles everything |
| `BridgeSession.NothingIssuedAfterFailure` | apps/vscode-extension/src/extension.ts:29-30 | After a failure or close no request is issued |
| `Bootstrap.XorshiftBijective` | scripts/retrieval-holdout-v2.ts:45 | The 13/17/5 step and its explicit inverse undo each other on all 32-bit words |
| `Bootstrap.NeverZero` | scripts/retrieval-holdout-v2.ts:44-45 | From a non-zero seed no state is ever zero |
| `Bootstrap.StatesStayApart` | scripts/retrieval-holdout-v2.ts:45 | Two generator states that differ never meet |
| `Bootstrap.DrawnIndex` | scripts/retrieval-holdout-v2.ts:45-49 | The drawn index is the whole part of state / 2^32 times the number of pairs |
| `BootstrapDraws.DrawIsMonotone` | scripts/retrieval-holdout-v2.ts:49 | A larger state draws no smaller index |
| `BootstrapDraws.EveryIndexDrawn` | scripts/retrieval-holdout-v2.ts:49 | Every index is drawn by some state, for up to 2^32 pairs |
| `BootstrapDraws.ShiftsAreArithmetic` | scripts/retrieval-holdout-v2.ts:45 | Shifting a word by k places is multiplication by 2^k modulo 2^32, and division by 2^k |
| `BootstrapDraws.XorshiftIsShifts` | scripts/retrieval-holdout-v2.ts:45 | A generator step is the exclusive or with the word shifted left by 13, then right by 17, then left by 5 |
| `BootstrapDraws.StatesAdvance` | scripts/retrieval-holdout-v2.ts:44-45 | The first state is the seed, and each further one is one step on |
| `BootstrapDraws.SampleExactly` | scripts/retrieval-holdout-v2.ts:47-50 | Each sample is the mean of as many drawn differences as there are pairs, drawn with the states that follow those of the samples before |
| `BootstrapDraws.IntervalExactly` | scripts/retrieval-holdout-v2.ts:43-55 | The estimate is the mean feature minus the mean baseline, the bounds are the samples of rank 2.5% and 97.5%, and zero is contained if and only if it lies between them; without pairs all are zero |
| `Bootstrap.Resample` | scripts/retrieval-holdout-v2.ts:48-50 | The inner loop computes the mean of the differences drawn with the next states, and leaves the generator that many states on |
| `Bootstrap.BootstrapPaired` | scripts/retrieval-holdout-v2.ts:42-56 | The whole method computes the estimate and the two percentiles of the resampled means, or the fixed answer for no pairs |
| `Bootstrap.IntervalWithin` | scripts/retrieval-holdout-v2.ts:52-55 | Any bounds on the paired differences bound the estimate and both ends, low ≤ high; both ends are undefined exactly when there is no iteration |
| `Bootstrap.IntervalBetweenExtremes` | scripts/retrieval-holdout-v2.ts:52-55 | Both ends lie between the smallest and the largest difference |
| `Bootstrap.EqualDifferencesCollapse` | scripts/retrieval-holdout-v2.ts:52-55 | Equal differences collapse the interval to the estimate |
| `Bootstrap.ZeroSeedDegenerates` | scripts/retrieval-holdout-v2.ts:44-49 | With seed zero every draw of every resample is the first pair, and every resample has its difference as mean |
| `TarNotices.ReadNotices` | scripts/distribution/license-registry.ts:48-61 | The offset loop returns exactly what the archive's records say, reading only inside the buffer and ending on any input |
| `TarNotices.ReadCompressed` | scripts/distribution/license-registry.ts:45-62 | A failed decompression is reported as unreadable, never as free of notices |
| `TarNotices.HeaderFields` | scripts/distribution/license-registry.ts:50-53 | Name and octal size of a written ustar header are recovered |
| `TarNotices.ReadsBackArchive` | scripts/distribution/license-registry.ts:45-62 | For any regular files with short names in the ustar Interchange Format, exactly the first eight matching, decodable notices of at most 512,000 bytes come back with their text |
| `TarNotices.OverrunUnreadable` | scripts/distribution/license-registry.ts:54 | A header whose size is no number, negative or overruns the archive makes it unreadable, behind any files |
| `TarNotices.TruncatedUnreadable` | scripts/distribution/license-registry.ts:54 | An archive cut inside a file's content is unreadable |
| `TarNotices.AtMostEight` | scripts/distribution/license-registry.ts:56 | On arbitrary bytes there are never more than eight notices |
| `TarDetails.NoticeExactly` | scripts/distribution/license-registry.ts:55-56 | A base name is a notice if and only if it is LICENSE, LICENCE, COPYING or NOTICE in any case, alone or with a dot, hyphen or underscore behind it and no line end after that |
| `TarDetails.BaseNameExactly` | scripts/distribution/license-registry.ts:55 | The base name is what stands behind the last slash |
| `TarDetails.CollectExactly` | scripts/distribution/license-registry.ts:56-57 | A notice is kept if and only if it has at most 512000 bytes that decode and fewer than eight were found before |
| `TarDetails.ParseUnsigned` | scripts/distribution/license-registry.ts:53 | A size is its leading octal digits, and no number without one |
| `TarDetails.ParseSigned` | scripts/distribution/license-registry.ts:53 | A sign in front of the digits counts |
| `TarDetails.TrimmedExactly` | scripts/distribution/license-registry.ts:53 | White space around a size does not count |
| `WorkerPool.EveryRun` | scripts/distribution/license-registry.ts:79-82 | For every schedule, at every moment: each job below the cursor is held by exactly one worker or finished exactly once, and attempted equals the cursor |
| `WorkerPool.CompleteRun` | scripts/distribution/license-registry.ts:80-112 | When all workers have left, every job was attempted and finished exactly once |
| `WorkerPool.SharedIsFold` | scripts/distribution/license-registry.ts:80-112 | What the workers wrote is the effect of the finished jobs, one after the other |
| `WorkerPool.NeverStuck` | scripts/distribution/license-registry.ts:81 | As long as a worker has not left its loop, its turn changes the state |
| `RegistryPasses.CandidatesDistinct` | scripts/distribution/license-registry.ts:73-76 | No row is a candidate twice, only wanted rows are, within the request limit |
| `RegistryPasses.LeftOut` | scripts/distribution/license-registry.ts:74-76 | A wanted row is left out only when the limit is used up, an unlicensed one only when no candidate has a licence |
| `RegistryRows.CandidatesExactly` | scripts/distribution/license-registry.ts:73-76 | The candidates are the distributed packages of the three registries that lack a licence or a notice: those without a licence first, otherwise in inventory order, cut at the limit |
| `RegistryRows.LicensedExactly` | scripts/distribution/license-registry.ts:93-101 | What any answer does to a row: a licence fills a gap, in the SBOM too, text that is no licence is kept, and nothing else changes |
| `RegistryRows.ArchiveExactly` | scripts/distribution/license-registry.ts:103-110 | Only a row without notice files has its archive looked at: one of the registries' own is offered, a malformed address counts as a failure |
| `RegistryPasses.MetadataPass.Step` | scripts/distribution/license-registry.ts:81-111 | A worker's turn takes the next candidate or enters its answer in the books |
| `RegistryPasses.MetadataPass.Settle` | scripts/distribution/license-registry.ts:86-110 | The branches of one answer: raw text, licence with its source and SBOM entry, counters and the archive offer |
| `RegistryPasses.MetadataPass.Turns` | scripts/distribution/license-registry.ts:80-112 | Any sequence of turns of the workers goes through exactly the states of the pool |
| `RegistryPasses.BooksOfLog` | scripts/distribution/license-registry.ts:79-112 | Rows, counts and offers are determined by which jobs have finished; each row is written by its own job only |
| `RegistryPasses.OffersFacts` | scripts/distribution/license-registry.ts:103-108 | Archives are offered at most once per row and only for rows without a notice |
| `RegistryPasses.ScheduleIndependent` | scripts/distribution/license-registry.ts:79-112 | A completed pass attempted every candidate once, and its rows, counts and set of offers are the same for every number of workers and every schedule |
| `RegistryPasses.CountedTwice` | scripts/distribution/license-registry.ts:85-110 | Resolved, failed and quiet jobs add up to the attempts if and only if no answer both resolves a licence and gives a malformed archive address; otherwise they exceed them |
| `Enrichment.ResolvedAndFailed` | scripts/distribution/license-registry.ts:96-110 | One package with licence MIT and a malformed archive address is attempted once and counts as resolved and as failed |
| `Enrichment.SbomFollows` | scripts/distribution/license-registry.ts:96-102 | If the SBOM declared every row's licence before the pass, it does so afterwards |
| `NoticePass.QueueFetchable` | scripts/distribution/license-registry.ts:113-115 | The queue cut from the offers names different existing rows that lack a notice |
| `RegistryRows.NoticedExactly` | scripts/distribution/license-registry.ts:129-135 | What reading an archive does to its row: notices are listed, none marks the row as searched, an unread archive changes nothing |
| `RegistryRows.QueueExactly` | scripts/distribution/license-registry.ts:115 | The archives fetched are the first offered ones, as many as the limit allows |
| `NoticePass.ArchivePass.Step` | scripts/distribution/license-registry.ts:117-136 | A worker's turn takes the next archive or enters what it read |
| `NoticePass.ArchivePass.Shelve` | scripts/distribution/license-registry.ts:129-134 | The three outcomes of one archive on its row and the counters |
| `NoticePass.ArchivePass.Turns` | scripts/distribution/license-registry.ts:116-137 | Any sequence of turns of the workers goes through exactly the states of the pool |
| `NoticePass.NoticeNeverOverwritten` | scripts/distribution/license-registry.ts:116-137 | Whatever the schedule, a row that has notice files keeps exactly those |
| `NoticePass.CompletePass` | scripts/distribution/license-registry.ts:116-137 | A completed pass read every queued archive once; rows, counts and the lists of failed and covered rows are the same for every schedule up to order |
| `Enrichment.AllOffers` | scripts/distribution/license-registry.ts:103-108 | A completed first pass offers as many archives as the answers give, whatever the schedule |
| `Enrichment.EnrichIndependent` | scripts/distribution/license-registry.ts:79-137 | If the archive limit has room for every offer, final rows, counts and lists of both passes are the same for every number of workers and every schedule of both |
| `Enrichment.LimitDependsOnSchedule` | scripts/distribution/license-registry.ts:115 | Two packages, each offering an archive, and room for one: two schedules give the notice to different rows |
| `Enrichment.QueuesDecide` | scripts/distribution/license-registry.ts:113-137 | Two runs of both passes whose fetch queues hold the same offers leave the same rows, counts and lists |
| `PoolSchedules.AloneInOrder` | scripts/distribution/license-registry.ts:79-82 | A single worker finishes the jobs in their order, whatever turns are given |
| `PoolSchedules.HeldBackEnds` | scripts/distribution/license-registry.ts:79-82 | With two or more workers some schedule finishes a given job after all others |
| `OfferLimit.OfferFirstOrLast` | scripts/distribution/license-registry.ts:103-108 | Held back, the first offering job makes the last offer instead of the first, and the others keep their order |
| `OfferLimit.IndependentExactly` | scripts/distribution/license-registry.ts:79-137 | For a given concurrency, all complete schedules of both passes lead to the same report, whatever the archives hold, if and only if the limit has room for every offer, or is 0, or there is one worker |
| `CapsulePaths.Accepted` | packages/domain/src/capsule.ts:3 | A path is accepted if and only if it is relative and has no empty, "." or ".." segment, up to a trailing separator and the current folder; it comes back with forward separators |
| `CapsuleDetails.PathExactly` | packages/domain/src/capsule.ts:3 | A path is accepted if and only if it is neither absolute nor begins with a drive, and its segments, backslashes read as slashes, hold no "..", no "." unless it is the whole path, and no empty one before the last |
| `CapsulePaths.ValidateIdempotent` | packages/domain/src/capsule.ts:3 | Validating a stored path again changes nothing |
| `CapsulePaths.StoredAlike` | packages/domain/src/capsule.ts:3 | Two accepted spellings are stored alike exactly when they differ only in the kind of separator |
| `Base64.RoundTrip` | packages/core/src/capsule-archive.ts:1 | Decoding an encoded byte sequence gives it back (section 4 of RFC 4648) |
| `Base64.SameBits` | packages/core/src/capsule-archive.ts:1 | Three bytes and their four digits are the same 24 bits (section 4 of RFC 4648) |
| `Base64.LastBits` | packages/core/src/capsule-archive.ts:1 | A last group of one or two bytes is filled with zero bits |
| `Base64.EncodedLength` | packages/core/src/capsule-archive.ts:1 | The text is padded to a multiple of four characters |
| `CapsuleArchive.VerifyArchive` | packages/core/src/capsule-archive.ts:1 | The checks in their order compute the verdict function: header, artifact paths, duplicate files, missing and mismatched files, extra files |
| `CapsuleArchive.IndexFiles` | packages/core/src/capsule-archive.ts:1 | The loop over the files fails on the first unsafe or duplicate path and otherwise maps each stored path to its row |
| `CapsuleArchive.CleanExactly` | packages/core/src/capsule-archive.ts:1 | A clean verdict under FAIL holds if and only if both sides have the same paths, no two files share one and every file matches its hash; under WARN extra files are allowed and the warnings say whether there are any |
| `ArchiveVerdict.HeaderExactly` | packages/core/src/capsule-archive.ts:1 | A newer format version is refused, and otherwise a header with neither the format nor the schema of a capsule |
| `ArchiveVerdict.FirstRefusal` | packages/core/src/capsule-archive.ts:1 | The first file that is refused decides between an unsafe and a duplicate path |
| `ArchiveVerdict.RefusedExactly` | packages/core/src/capsule-archive.ts:1 | Verification fails if and only if the header, a listed path or a file is refused, in this order |
| `ArchiveVerdict.ReportExactly` | packages/core/src/capsule-archive.ts:1 | A path is reported missing if and only if it is listed without a file, and extra if and only if it has a file and is not listed: an error under FAIL, a warning under WARN |
| `ArchiveVerdict.MismatchExactly` | packages/core/src/capsule-archive.ts:1 | A mismatch is reported if and only if the hash of the decoded bytes differs from the one listed last for the path |
| `ArchiveVerdict.ExportRefused` | packages/core/src/capsule-archive.ts:1 | An export fails if and only if a path is unsafe, or else has no regular file |
| `ArchiveVerdict.ExportedRows` | packages/core/src/capsule-archive.ts:1 | Otherwise there is one row for each different input path, with the hash, size and encoded bytes of its file, and the manifest lists the same |
| `ArchiveVerdict.ExportOrder` | packages/core/src/capsule-archive.ts:1 | The rows are sorted by stored path, in the order of code units |
| `CapsuleArchive.FreshExportVerifies` | packages/core/src/capsule-archive.ts:1 | A fresh export verifies with no error and no warning if and only if no two input paths differ in the kind of separator only; otherwise it is refused for a duplicate path |
| `CapsuleArchive.TwoSpellings` | packages/core/src/capsule-archive.ts:1 | Exporting `a\b` and `a/b` succeeds and its own archive is refused |
| `CapsuleArchive.ExportByElements` | packages/core/src/capsule-archive.ts:1 | The archive does not depend on the order of the input paths nor on repetitions |
| `CapsuleArchive.CleanMeansExported` | packages/core/src/capsule-archive.ts:1 | With an injective hash, an archive that has an exported manifest and verifies cleanly under FAIL holds exactly the exported files with the bytes of the store |
| `CapsuleClaim.VerifyClaim` | packages/core/src/capsule-workflow.ts:102-128 | The call fails exactly when the archive is refused or a part of record or manifest that is read is absent; otherwise no error is reported if and only if the archive is clean and record, manifest, proof, hashes, verdict, claim row and texts are all sound, and each error is reported exactly under its own condition |
| `CapsuleClaim.CheckProof` | packages/core/src/capsule-workflow.ts:116-122 | Each error about the proof is reported exactly under its own condition; the manifest's artifacts are read only when the proof's hash is the recorded one |
| `CapsuleClaim.CheckClaim` | packages/core/src/capsule-workflow.ts:115-126 | Fails exactly when a part that is read is absent, and reports a wrong verdict, an unlisted claim and a secret exactly under their own conditions |
| `CapsuleDetails.RecordPathForm` | packages/core/src/capsule-workflow.ts:106 | A path capsules/<name>/verification.json is the record's, for any name without a slash |
| `CapsuleDetails.RecordPathOnly` | packages/core/src/capsule-workflow.ts:106 | No other path is |
| `CapsuleDetails.RecordPathExactly` | packages/core/src/capsule-workflow.ts:106 | The first file with such a path is the record |
| `CapsuleDetails.ParsesExactly` | packages/core/src/capsule-workflow.ts:108-112 | What parsing the record and the manifest leaves, for files that are absent, null, or make the parser throw |
| `CapsuleDetails.FirstHashExactly` | packages/core/src/capsule-workflow.ts:119 | The hash looked up in the manifest is that of its first row with the path |
| `CapsuleDetails.ChecksExactly` | packages/core/src/capsule-workflow.ts:124-125 | Which texts are searched for secrets, and when the claim is listed |
| `CapsuleExample.CheckEmptyRecord` | packages/core/src/capsule-workflow.ts:115-127 | A record file `{}` makes the check itself fail, whatever bytes the manifest's file holds |
| `CapsuleExample.CheckEmptyManifest` | packages/core/src/capsule-workflow.ts:118-124 | So does a manifest file `{}`, beside a sound record |
| `CapsuleClaim.AcceptedProofIsExported` | packages/core/src/capsule-workflow.ts:115-121 | The proof of an accepted capsule is the store's file at the recorded path, with the recorded hash |
| `CapsuleReplay.PlanReplay` | packages/core/src/capsule-replay.ts:1-12 | Missing parts and actions are exactly those the manifest and environment give; the plan is blocked exactly for a newer schema or an absent toolchain and is never READY; no imported status is KERNEL_VERIFIED |
| `CapsuleReplay.MissingIgnoredExactly` | packages/core/src/capsule-replay.ts:3-9 | A plan is not blocked although a toolchain is not installed if and only if the epoch fits, some named toolchain is an unlisted property every object inherits, and every other one is installed |
| `CapsuleReplay.ConstructorNeverMissing` | packages/core/src/capsule-replay.ts:4 | An empty environment has a toolchain named `constructor`, and none named `lean` |
| `CapsuleReplay.ApplyReplay` | packages/core/src/capsule-replay.ts:13-19 | Lets a write happen exactly for an empty target, a user action and an unblocked plan; the first failing check decides among the three errors |
| `CapsuleReplay.AxiomsMatchExactly` | packages/core/src/capsule-workflow.ts:164-167 | The printed comparison of sorted axioms holds if and only if they are equal as multisets |
| `CapsuleReplay.ReplayClaim` | packages/core/src/capsule-workflow.ts:135-190 | Which of refusal, plan, report or unchecked writing results, for every input; a replay counts as reproduced exactly when the kernel accepts, the axioms agree as multisets and nothing forbidden occurs; the claim status is never KERNEL_VERIFIED |
| `CapsuleExample.ReplayWithoutLean` | packages/core/src/capsule-workflow.ts:149-162 | Without Lean, an acceptable capsule that names no toolchain has its files written, and then the call fails |
| `CapsuleReplay.CheckAgain` | packages/core/src/capsule-workflow.ts:162-181 | The report's checks and its claim status from the kernel's answer and the plan |
| `CapsuleReplay.NeverCurrent` | packages/core/src/capsule-replay.ts:10 | No import carries the status KERNEL_VERIFIED over |
| `CapsuleDetails.ImportedExactly` | packages/core/src/capsule-replay.ts:10 | A claim is imported with the status of its last row, a kernel-verified one as historical |
| `CapsuleDetails.ReplayBlockedExactly` | packages/core/src/capsule-workflow.ts:140-145 | A replay is blocked if and only if the epoch is newer, or a toolchain is named other than an installed Lean and the inherited names |
| `CapsuleDetails.ReproducedExactly` | packages/core/src/capsule-workflow.ts:162-172 | A claim is reproduced if and only if the kernel accepts the stored proof, reports the recorded axioms in any order, and the proof has no forbidden construct |

## Left out

- Eligibility of a candidate for a boost (regular expressions over names and signatures, type compatibility) is an arbitrary predicate; the results hold for all of them.
- localeCompare is any comparator that is a total preorder on names.
- Numbers in canonical JSON are identified with their printed text; values JSON cannot hold (undefined, functions, cycles) are not modelled, and integer-like keys need no special case because keys are sorted.
- Floating point: the bootstrap is over reals, percentile indices are exact fractions of the sample count.
- The SPDX identifier tables are parameters; `cargoSpdxLicense` (one textual replacement before the recognizer) is not modelled.
- UTF-8 decoding, decompression, JSON parsing of capsule records, secret and forbidden-construct scanners and the hash are parameters; where tampering matters the hash is assumed injective.
- Base64.Decode: texts no encoder writes are read leniently (stop at padding, skip other characters); details of the runtime's own lenient decoder are not modelled.
- The printed archive is identified with its contents, as JSON printing and parsing give back the same value; the hash table of the manifest repeats its artifact rows and is not modelled, nor are product version and revision.
- The regular expression that cuts a JUnit report into test cases and the trimming of its details are not modelled; annotations are modelled from their parts.
- IdAllocator.Allocator.AllocateId: the LIKE filter of the query is not modelled; the scan sees all stored identifiers, of which only full matches count in both.
- Budgets: usage normalisation is the identity on well-formed usage; the research engine's own writes to usage are not modelled.
- JobTable keeps jobs as values in insertion order; sharing of one job object between callers and its abort signal are visible only through the steps. Times are step parameters. A work function that throws before it gives a promise makes `startJob` throw, which is not modelled; the job it leaves is one that never settles. `resetJobs` and stripping the code from an error message are not modelled.
- The outcome of a desktop command is not modelled, only that it answers; parsing and secret storage are steps without effect on the queue.
- Redaction of the child's standard error and the texts of errors are opaque strings; killing the child is a flag.
- Retries of a request (`fetchWithRetry`, `limitedBody`) are folded into the answer a worker gets; the text of the appended notices is not modelled.
- LicenseRows.ApplyStandardLicenseTexts: the notice sections it appends to the inventory's text are not modelled, only which texts are used and what the rows and the gate become.
- CapsuleClaim.VerifyClaim: a part of record or manifest that is there but of another type, such as a number for a list, and a field absent inside a part that is there, such as a proof `{}`, are not modelled; absent and null parts are.
- LicenseText.ChosenTextsSatisfy: one direction, for visible operators; the exact condition on the input is that of LicenseReadings.ChoiceExactly.
- Normalisation of a path with ".." segments is not modelled, because such a path is refused before; the platform's own absolute-path test is implied by the Windows one and not repeated.
- Building a claim's capsule (`exportClaimCapsule`), import plans, publications and the verification gate are not part of this model.
- The user interface, process spawning, the database itself, HTTP, secret stores, build and release scripts are not part of this model.
