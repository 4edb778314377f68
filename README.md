# Classical Git-Tar Society: a Dafny model of the contest ledger and its clients

The Classical Git-Tar Society is a Solana application for guitar performances.

- Contestants post a submission: a title and a YouTube id.
- Listeners vote for submissions. Every vote credits the performer 3 reward
  units in their profile and mints the reward token through a program-owned
  mint authority.
- A five-question quiz credits 1 unit to a participant who scores 80% or more,
  once per quiz version.

This project models the core of that system in Dafny and proves properties of
the model:

- **The on-chain program** (the Anchor program `guitar_contest`).
  - `contest_idl.dfy`: the account addresses and record layouts of the
    interface description. Each program-derived address is an injective
    datatype constructor over its seeds.
  - `contest_spec.dfy`: every instruction as a function from the chain before
    it to a status and the chain after it. A failed instruction leaves the
    chain unchanged. The eight instructions are `create_submission`, `vote`,
    `update_submission`, `transfer_mint_authority`, `backfill_tokens`,
    `initializeQuizConfig`, `resetQuizVersion` and `completeQuiz`.
  - `contest_program.dfy`: the same instructions as methods of a `Ledger`
    class. The methods update the account map and the mint authority in
    place, and each is proved equal to its specification function.
  - `contest_outcomes.dfy`: per-instruction lemmas, giving when an
    instruction succeeds, with which error it fails, and what it writes.
  - `contest_properties.dfy`: the invariants every instruction keeps, and
    properties of whole instruction sequences:
    - a submission's vote count equals its number of vote receipts;
    - each voter votes at most once per submission;
    - each user completes the quiz at most once per version;
    - mint authority only ever moves to the program.
    - a profile's balance never falls, except when a vote's wrapping `+= 3`
      credits a balance above 2^64 - 4.
  - `contest_scenarios.dfy`: example walk-throughs replayed on the model. Each
    one's row below cites the instruction lines it exercises.
- **The web pages.**
  - `contest_client.dfy`: the contest page. It sorts the fetched submissions
    by votes in place and builds the contest leaderboard. It also models the
    requests the vote, edit and create handlers send, and the owner gating of
    the vote and edit buttons.
  - `quiz_client.dfy`: the quiz page. It covers score counting, the rounded
    80% pass rule, and the answer sheet with its navigation (a class). It also
    covers the completion request, the lookup on load, and the quiz
    leaderboard.
  - `leaderboard.dfy`: the shared leaderboard rows. It covers address
    shortening, rank medals, score cells and the current-user flag.
- **The scripts.**
  - `backfill_script.dfy`: the administrator's backfill loop and its skip
    guard.
  - `question_bank.dfy`: the question-bank generator. It covers reply
    parsing, question validation, id assignment, deduplication against the
    existing bank, the merge and the renumbering.
- **Helpers.**
  - `ranking.dfy`: the shared filter/sort/slice/rank pipeline, with a stable
    descending insertion sort.
  - `text.dfy`: UTF-8 and UTF-16 lengths, decimal rendering, JavaScript
    `trim` and ASCII lower-casing.
  - `wrappers.dfy`: `Option`.

Modelling choices:

- **Accounts.** All accounts live in one map from `Address` to `Account`.
  - `init` fails with "already in use" when the address is taken.
  - `init_if_needed` yields the stored profile or a zeroed one.
  - Accounts are loaded in the order the accounts struct declares them, then
    the `constraint`s are checked, then the handler runs. That order decides
    which error a failing instruction reports.
- **Integers.** Unsigned 64-bit integers are `nat`s below 2^64, and each kind
  of overflow is written out:
  - the vote count's `checked_add(1).unwrap()` panics;
  - the balance's `+= 3` wraps;
  - backfill's `votes * 3` wraps, and its `checked_add` fails with `Overflow`.

  The two wrapping operations assume a build with `overflow-checks` off; see
  "## Left out".
- **The quiz instructions.** Their bodies are not part of the program source.
  They are modelled at the level the interface description declares them:
  - the `quiz_config` singleton, with the signer as admin;
  - the admin-only version bump, whose error is `unauthorized`;
  - the record at `["quiz_state", user, version]`, created once;
  - the profile shared with voting;
  - the reward of one unit at 80% or more, taken as `100 * correct >= 80 * total`.

  The first version is 1 and a reset adds one, as the administrator script
  `backend/scripts/quiz-admin.ts` (lines 112 and 142) prints them.

Where the code and its documentation differ, the model follows the code:

- **Account size.** The submission account is sized as
  `8 + 32 + (4 + 50) + (4 + 20) + 8 = 126` bytes. The comment describes this
  as a 50-byte title and a 20-byte id. The real limit is a combined 70 bytes
  of UTF-8, so a 60-byte title with an empty id fits (`LongTitleFits`).
- **Balance field name.** The profile balance is `peg_balance` in the program
  and `tarBalance` in the interface description. The model calls it
  `pegBalance`.
- **Overflow.** `vote` never returns `Overflow`. It panics on the vote count
  and wraps the balance.
- **Backfill.** `backfill_tokens` is not idempotent: a second call pays again
  (`BackfillIsNotIdempotent`).
- **Self-votes.** Once a contestant has a profile, nothing on chain stops them
  from voting for their own submission (`SelfVoteAccepted`); only the page's
  button does. A contestant with no profile yet cannot: the voter's and the
  performer's profiles are then one new address loaded twice by
  `init_if_needed`, and the second load fails on the still-zeroed
  discriminator (`FirstSelfVoteFails`).
- **Quiz board.** The page converts scores with `BN.toNumber()`, which throws
  at 2^53 or more. One completed record with such a score empties the whole
  board (`HugeScoreEmptiesBoard`), because the error is caught and the board
  set to empty.
- **Question validation.** The generator accepts a fractional `correctIndex`
  such as 1.5 (`FractionalIndexAccepted`).

## Model

Paths are relative to the repository root.

| member | source | states |
|---|---|---|
| ContestIdl.SubmissionKey | guitar_contest/programs/guitar_contest/src/lib.rs:187-198 | a submission lives at its own keypair address, which is a submission-kind address |
| ContestIdl.ProfileKey | frontend/src/types/guitar_contest.ts:43-64 | the profile address is derived from `["profile", user]` and is a profile-kind address |
| ContestIdl.ReceiptKey | frontend/src/types/guitar_contest.ts:712-726 | the vote receipt address is derived from `[user, submission]` with no literal tag |
| ContestIdl.QuizConfigKey | frontend/src/types/guitar_contest.ts:225-246 | the quiz configuration is a singleton at the fixed seed `"quiz_config"` |
| ContestIdl.QuizStateKey | frontend/src/types/guitar_contest.ts:248-278 | a quiz record lives at `["quiz_state", user, version]` |
| ContestIdl.MintAuthorityKey | frontend/src/types/guitar_contest.ts:161-184 | the mint authority is the single program address `["mint_authority"]`, never a wallet |
| ContestIdl.ReceiptKeyRoundTrip | guitar_contest/programs/guitar_contest/src/lib.rs:237-244 | a receipt address determines its voter and submission, and every receipt-kind address is the receipt of its own voter and submission |
| ContestIdl.KeysAreDistinct | frontend/src/types/guitar_contest.ts:43-64 | profile, receipt and quiz-state addresses are equal exactly when their seeds are; no two kinds of address coincide, so vote, backfill and quiz credit the one profile per user |
| ContestIdl.Code | frontend/src/types/guitar_contest.ts:989-1004 | the program errors are numbered from 6000 to 6002 |
| ContestIdl.CodesAreDistinct | frontend/src/types/guitar_contest.ts:989-1004 | `notContestant`, `overflow` and `unauthorized` have different codes (6000, 6001, 6002) |
| ContestIdl.SubmissionSpaceBound | guitar_contest/programs/guitar_contest/src/lib.rs:189-198 | the 126-byte account holds a submission exactly when the UTF-8 lengths of title and id sum to at most 70; a title of at most 50 bytes with an id of at most 20 always fits |
| ContestIdl.LongTitleFits | guitar_contest/programs/guitar_contest/src/lib.rs:189-198 | a 60-byte ASCII title is longer than the commented 50 bytes, yet it fits with an empty id |
| ContestSpec.ClaimAuthority | guitar_contest/programs/guitar_contest/src/lib.rs:50-52 | a profile's authority is set only while it is the default key, and the balance is untouched |
| ContestSpec.WrappingAdd | guitar_contest/programs/guitar_contest/src/lib.rs:68 | the unchecked `+=` is exact below 2^64 and wraps by 2^64 above it |
| ContestSpec.WrappingTriple | guitar_contest/programs/guitar_contest/src/lib.rs:151-156 | the unchecked `votes * 3` is exact while the product stays below 2^64 |
| ContestSpec.QuizPasses | frontend/src/types/guitar_contest.ts:207-212 | the documented pass mark "80%+ correct", read as `100 * correct >= 80 * total`; `ContestOutcomes.QuizPassMark` shows 4 of 5 passes and 3 of 5 does not |
| ContestSpec.FirstSelfVote | guitar_contest/programs/guitar_contest/src/lib.rs:246-269 | the voter names themself as performer and has no profile yet, so both `init_if_needed` profiles are one new address |
| ContestSpec.CreateSubmissionStep | guitar_contest/programs/guitar_contest/src/lib.rs:19-37 | `init` at the submission's own address, then the 126-byte size check, then contestant = signer, title, id and zero votes; `ContestOutcomes.CreateSubmissionOutcome` states when it succeeds and what it stores |
| ContestSpec.VoteStep | guitar_contest/programs/guitar_contest/src/lib.rs:42-97 | the vote's checks in Anchor's order (submission loaded, receipt `init`, the two profiles with a first self-vote failing, the performer constraint, the count's `unwrap`, the mint), then the count +1, the receipt, the claimed profiles and the performer's +3; `ContestOutcomes.VoteOutcome` and `VoteEffect` state it |
| ContestSpec.UpdateSubmissionStep | guitar_contest/programs/guitar_contest/src/lib.rs:100-114 | the contestant constraint with `NotContestant`, then the new title and id under the size check; `ContestOutcomes.UpdateSubmissionOutcome` states it |
| ContestSpec.TransferMintAuthorityStep | guitar_contest/programs/guitar_contest/src/lib.rs:119-137 | the signer must hold the mint's authority, which then moves to the program's address; `ContestOutcomes.TransferMintAuthorityOutcome` states it |
| ContestSpec.BackfillTokensStep | guitar_contest/programs/guitar_contest/src/lib.rs:141-181 | the performer constraint, the profile claimed, `votes * 3` added with `checked_add` failing with `Overflow`, then the mint; the submission is only read; `ContestOutcomes.BackfillTokensOutcome` states it |
| ContestSpec.InitializeQuizConfigStep | frontend/src/types/guitar_contest.ts:494-545 | a one-time `init` of the configuration with the signer as admin and version 1; `ContestOutcomes.InitializeQuizConfigOutcome` states it |
| ContestSpec.ResetQuizVersionStep | frontend/src/types/guitar_contest.ts:546-596 | admin only (`unauthorized`), then version + 1; `ContestOutcomes.ResetQuizVersionOutcome` states it |
| ContestSpec.CompleteQuizStep | frontend/src/types/guitar_contest.ts:206-451 | the configuration must exist, the record at this version is `init`ed once, and a pass credits 1; `ContestOutcomes.CompleteQuizOutcome` states it |
| ContestSpec.Execute | guitar_contest/programs/guitar_contest/src/lib.rs:7-182 | dispatches an instruction to its step; `ContestProperties.ExecutePreserves` shows every instruction keeps the chain consistent |
| ContestSpec.Run | guitar_contest/programs/guitar_contest/src/lib.rs:7-182 | instructions one after another; `ContestProperties.RunPreserves`, `VoteAtMostOnce` and `QuizAtMostOncePerVersion` state what every run keeps |
| ContestOutcomes.FailureHasNoEffect | guitar_contest/programs/guitar_contest/src/lib.rs:42-97 | a failed instruction leaves every account and the mint authority as they were |
| ContestOutcomes.CreateSubmissionOutcome | guitar_contest/programs/guitar_contest/src/lib.rs:19-37 | creation succeeds exactly when the address is free and the strings fit; it fails "already in use" on a taken address; it stores contestant = signer, the title, the id and zero votes, and writes nothing else |
| ContestOutcomes.NewSubmissionHasNoVotes | guitar_contest/programs/guitar_contest/src/lib.rs:25-31 | on a consistent chain a new submission has no receipts, which matches its zero vote count |
| ContestOutcomes.VoteOutcome | guitar_contest/programs/guitar_contest/src/lib.rs:222-304 | a vote succeeds exactly when the submission exists, the voter has no receipt for it, it is not a contestant's first self-vote (no profile yet), the performer is its contestant, the count is below 2^64 - 1 and the program holds the mint; each failure reports the error of the first check that fails, a first self-vote failing with a discriminator mismatch |
| ContestOutcomes.VoteEffect | guitar_contest/programs/guitar_contest/src/lib.rs:42-97 | a successful vote raises the count by exactly 1 and leaves contestant, title and id alone; it records the receipt and adds 3 to the performer's balance modulo 2^64; the voter's own balance is unchanged; only the submission, the receipt and the two profiles are written |
| ContestOutcomes.SecondVoteFails | guitar_contest/programs/guitar_contest/src/lib.rs:237-244 | right after a successful vote, the same voter's vote for the same submission fails "already in use" and changes nothing, whatever performer it names |
| ContestOutcomes.WrappingVoteLowersBalance | guitar_contest/programs/guitar_contest/src/lib.rs:68 | the admitted exception: a successful vote at balance 2^64 - 1 leaves the performer with 2 |
| ContestOutcomes.UpdateSubmissionOutcome | guitar_contest/programs/guitar_contest/src/lib.rs:100-115 | an update succeeds exactly when the submission exists, the signer is its contestant and the strings fit; another signer gets `NotContestant`; a success replaces title and id only |
| ContestOutcomes.TransferMintAuthorityOutcome | guitar_contest/programs/guitar_contest/src/lib.rs:119-137 | the transfer succeeds exactly when the signer is the current authority; it moves authority to the program address and touches no account |
| ContestOutcomes.BackfillTokensOutcome | guitar_contest/programs/guitar_contest/src/lib.rs:141-181 | backfill succeeds exactly when the submission exists, the performer is its contestant, balance plus the (wrapping) `votes * 3` stays within u64 and the program holds the mint; overflow reports `Overflow`; only the performer's profile changes |
| ContestOutcomes.BackfillIsNotIdempotent | guitar_contest/programs/guitar_contest/src/lib.rs:151-157 | a second backfill of the same submission succeeds again and credits `6 * votes` in total, so the chain differs whenever there are votes |
| ContestOutcomes.InitializeQuizConfigOutcome | frontend/src/types/guitar_contest.ts:495-545 | configuration succeeds exactly once, on a chain without one, and stores the signer as admin with version 1 |
| ContestOutcomes.ResetQuizVersionOutcome | frontend/src/types/guitar_contest.ts:547-596 | only the configured admin can reset, others get `unauthorized`; a reset raises the version by one and writes nothing else |
| ContestOutcomes.ResetReopensQuiz | frontend/src/types/guitar_contest.ts:547-596 | after a reset, every user's record address for the new version is free, and every earlier quiz record is kept |
| ContestOutcomes.LaterQuizKeyFree | frontend/src/types/guitar_contest.ts:248-278 | on a consistent chain no record exists at a version above the configured one |
| ContestOutcomes.CompleteQuizOutcome | frontend/src/types/guitar_contest.ts:207-451 | completion needs the configuration and a free record address for (user, current version), which fails "already in use" when taken; it stores a completed record whose `tokensAwarded` is the 80% rule and credits the profile 1 exactly on a pass |
| ContestOutcomes.SecondAttemptFails | frontend/src/types/guitar_contest.ts:207-212 | after a completion, any further attempt by the same user under the same version fails and changes nothing |
| ContestOutcomes.QuizPassMark | frontend/src/types/guitar_contest.ts:207-212 | with five questions the 80% mark means 4 or 5 correct |
| ContestProperties.Genesis | guitar_contest/programs/guitar_contest/src/lib.rs:368-390 | the chain before any instruction is consistent, and its mint is held by a wallet |
| ContestProperties.ReceiptsAfterWrite | guitar_contest/programs/guitar_contest/src/lib.rs:446-447 | writing any non-receipt account changes no submission's receipts |
| ContestProperties.ReceiptsAfterNewReceipt | guitar_contest/programs/guitar_contest/src/lib.rs:237-244 | a new receipt adds exactly one receipt to its own submission and none to any other |
| ContestProperties.VotesCountedAfterWrite | guitar_contest/programs/guitar_contest/src/lib.rs:328-333 | writing a profile, configuration or quiz record keeps "vote count = number of receipts" |
| ContestProperties.VoteBookkeeping | guitar_contest/programs/guitar_contest/src/lib.rs:54-58 | raising the count by one together with the new receipt keeps "vote count = number of receipts" for every submission |
| ContestProperties.CreateSubmissionPreserves | guitar_contest/programs/guitar_contest/src/lib.rs:19-37 | creation keeps the chain consistent |
| ContestProperties.ProfileWritePreserves | guitar_contest/programs/guitar_contest/src/lib.rs:328-333 | storing a profile keeps the chain consistent |
| ContestProperties.VotePreserves | guitar_contest/programs/guitar_contest/src/lib.rs:42-97 | voting keeps the chain consistent: every account at its kind's address, vote counts equal to receipt counts, quiz records well formed |
| ContestProperties.UpdateSubmissionPreserves | guitar_contest/programs/guitar_contest/src/lib.rs:100-115 | an update keeps the chain consistent |
| ContestProperties.BackfillTokensPreserves | guitar_contest/programs/guitar_contest/src/lib.rs:141-181 | a backfill keeps the chain consistent |
| ContestProperties.InitializeQuizConfigPreserves | frontend/src/types/guitar_contest.ts:495-545 | configuration keeps the chain consistent |
| ContestProperties.ResetQuizVersionPreserves | frontend/src/types/guitar_contest.ts:547-596 | a reset keeps the chain consistent and every record at or below the configured version |
| ContestProperties.CompleteQuizPreserves | frontend/src/types/guitar_contest.ts:207-451 | completion keeps the chain consistent, every record completed and rewarded exactly by the 80% rule |
| ContestProperties.ExecutePreserves | frontend/src/types/guitar_contest.ts:17-921 | every one of the eight instructions keeps the chain consistent |
| ContestProperties.RunPreserves | guitar_contest/programs/guitar_contest/src/lib.rs:54-58 | any sequence of instructions keeps the chain consistent, so every submission's vote count equals its number of receipts |
| ContestProperties.ExecuteEvolves | guitar_contest/programs/guitar_contest/src/lib.rs:100-115 | no instruction deletes an account or changes a submission's contestant, a profile's non-default authority or a quiz record; authority only moves to the program |
| ContestProperties.ExecutePersists | guitar_contest/programs/guitar_contest/src/lib.rs:63-65 | a well-placed account survives any instruction with its fixed fields |
| ContestProperties.RunEvolves | guitar_contest/programs/guitar_contest/src/lib.rs:63-65 | over any sequence of instructions, accounts persist and a profile's authority is never overwritten once set |
| ContestProperties.ExecuteKeepsAddresses | guitar_contest/programs/guitar_contest/src/lib.rs:237-244 | no instruction removes an address, so a receipt is never released |
| ContestProperties.ExecuteBalanceNeverFalls | guitar_contest/programs/guitar_contest/src/lib.rs:42-181 | every instruction keeps an existing profile and leaves its balance no lower, unless it is a vote crediting that profile whose `+= 3` wraps |
| ContestProperties.RunBalanceNeverFalls | guitar_contest/programs/guitar_contest/src/lib.rs:42-181 | over any run without a wrapping vote credit, an existing profile survives and its balance never falls |
| ContestProperties.VoteAtMostOnce | guitar_contest/programs/guitar_contest/src/lib.rs:237-244 | in any sequence of instructions a voter's vote for a submission succeeds at most once, and never after an earlier receipt |
| ContestProperties.QuizAtMostOncePerVersion | frontend/src/types/guitar_contest.ts:207-212 | in any sequence of instructions a user completes the quiz at most once per version, and a record once stored stays |
| ContestProperties.OnlyTransferMovesAuthority | guitar_contest/programs/guitar_contest/src/lib.rs:119-137 | no instruction but the transfer changes the mint authority, and the transfer only moves it to the program |
| ContestProperties.MintAuthorityOneWay | guitar_contest/programs/guitar_contest/src/lib.rs:368-390 | over any sequence of instructions the authority stays or becomes the program's, and once the program holds it, it keeps it |
| ContestProgram.Ledger.constructor | guitar_contest/programs/guitar_contest/src/lib.rs:368-390 | a new ledger is the initial chain: no accounts, mint held by the given wallet |
| ContestProgram.Ledger.CreateSubmission | guitar_contest/programs/guitar_contest/src/lib.rs:19-37 | updates the stored accounts in place to the specified step's status and chain, keeping the ledger consistent |
| ContestProgram.Ledger.Vote | guitar_contest/programs/guitar_contest/src/lib.rs:42-97 | checks the submission and the receipt address, then updates in place to the specified vote step (which rejects a contestant's first self-vote), keeping the ledger consistent |
| ContestProgram.Ledger.VoteHandler | guitar_contest/programs/guitar_contest/src/lib.rs:246-269 | with the submission present and the receipt address free, the in-place vote equals the specified step: a first self-vote fails at the second profile load, otherwise the constraint, the count, the credit and the mint are checked and written |
| ContestProgram.Ledger.UpdateSubmission | guitar_contest/programs/guitar_contest/src/lib.rs:100-115 | the in-place update equals the specified step and keeps the ledger consistent |
| ContestProgram.Ledger.TransferMintAuthority | guitar_contest/programs/guitar_contest/src/lib.rs:119-137 | the in-place transfer equals the specified step and keeps the ledger consistent |
| ContestProgram.Ledger.BackfillTokens | guitar_contest/programs/guitar_contest/src/lib.rs:141-181 | the in-place backfill equals the specified step and keeps the ledger consistent |
| ContestProgram.Ledger.BackfillTokensHandler | guitar_contest/programs/guitar_contest/src/lib.rs:146-157 | with the submission present, the in-place credit equals the specified step |
| ContestProgram.Ledger.InitializeQuizConfig | frontend/src/types/guitar_contest.ts:495-545 | the in-place configuration equals the specified step and keeps the ledger consistent |
| ContestProgram.Ledger.ResetQuizVersion | frontend/src/types/guitar_contest.ts:547-596 | the in-place reset equals the specified step and keeps the ledger consistent |
| ContestProgram.Ledger.CompleteQuiz | frontend/src/types/guitar_contest.ts:207-451 | checks the configuration and the record address, then updates in place to the specified completion, keeping the ledger consistent |
| ContestProgram.Ledger.CompleteQuizHandler | frontend/src/types/guitar_contest.ts:248-302 | with a configuration and a free record address, the in-place completion equals the specified step |
| ContestScenarios.AsturiasScenario | guitar_contest/programs/guitar_contest/src/lib.rs:19-97 | A posts "Asturias"; B's vote counts once and credits A 3; B's second vote fails "already in use" and changes nothing |
| ContestScenarios.AsturiasFits | guitar_contest/programs/guitar_contest/src/lib.rs:189-198 | the scenario's title and id fit the submission account |
| ContestScenarios.NoVoteBeforeSubmission | guitar_contest/programs/guitar_contest/src/lib.rs:222-244 | on a consistent chain nobody holds a receipt for a submission that does not exist |
| ContestScenarios.QuizScenario | frontend/src/types/guitar_contest.ts:207-212 | after configuration, C scores 4 of 5: recorded at version 1 as rewarded, credited 1, and a retry fails "already in use" |
| ContestScenarios.QuizFailScenario | frontend/src/types/guitar_contest.ts:207-212 | after C, D scores 3 of 5: recorded at version 1 as not rewarded, with D's balance unchanged |
| ContestScenarios.FailingAttempt | frontend/src/types/guitar_contest.ts:207-212 | fewer than 4 of 5 correct is recorded as completed and not rewarded, with no credit |
| ContestScenarios.NoQuizWithoutConfig | frontend/src/types/guitar_contest.ts:225-278 | on a consistent chain without the configuration no quiz record exists |
| ContestScenarios.ResetScenario | frontend/src/types/guitar_contest.ts:547-553 | D is blocked at version 1; after the admin's reset to version 2, D completes again and the version-1 record is kept |
| BackfillScript.RunBackfill | classical-git-tar-society/backend/scripts/backfill-tokens.ts:44-111 | the loop over the fetched submissions reports one outcome per submission and leaves the ledger exactly where the scripted walk does |
| BackfillScript.Backfill | classical-git-tar-society/backend/scripts/backfill-tokens.ts:44-111 | the walk reports exactly one outcome per fetched submission |
| BackfillScript.VisitIsScripted | classical-git-tar-society/backend/scripts/backfill-tokens.ts:54-110 | each visit skips zero votes, skips a balance of at least `votes * 3`, and otherwise sends a backfill for the listed contestant with the ledger's answer, even with a missing profile |
| BackfillScript.BackfillOutcomeAt | classical-git-tar-society/backend/scripts/backfill-tokens.ts:44-111 | the i-th outcome is the visit of the i-th submission against the chain the first i visits left |
| BackfillScript.BackfillVisitsEach | classical-git-tar-society/backend/scripts/backfill-tokens.ts:44-111 | every fetched submission is visited once, in order, as scripted, against the chain as earlier visits left it; a failure does not stop the rest |
| BackfillScript.FailedVisitChangesNothing | classical-git-tar-society/backend/scripts/backfill-tokens.ts:92-110 | a skipped or failed visit leaves the chain as it was |
| BackfillScript.BackfillOfCreditedIsNoOp | classical-git-tar-society/backend/scripts/backfill-tokens.ts:79-86 | when every performer is already credited, the run sends nothing and changes nothing |
| BackfillScript.RerunSkipsBackfilled | classical-git-tar-society/backend/scripts/backfill-tokens.ts:79-86 | after a successful backfill, rerunning the script skips that submission and leaves the chain alone |
| BackfillScript.TwoSubmissionsUnderCredit | classical-git-tar-society/backend/scripts/backfill-tokens.ts:79-86 | a performer with two five-vote submissions and no prior balance is credited 15, not 30: the guard compares one submission's reward with the whole balance |
| BackfillScript.Visit | classical-git-tar-society/backend/scripts/backfill-tokens.ts:44-110 | one submission: skipped with no votes or a credited profile, else the backfill is sent, and a failure is caught and reported; `VisitIsScripted` and `FailedVisitChangesNothing` state it |
| BackfillScript.AlreadyCredited | classical-git-tar-society/backend/scripts/backfill-tokens.ts:79-86 | the skip guard: the performer's fetched balance is at least this submission's `votes * 3`; a missing profile is not credited |
| Ranking.Filter | classical-git-tar-society/frontend/src/components/Contest.tsx:236 | the filter keeps exactly the elements that pass, each with all its copies: an element that passes occurs as often as in the input, and one that fails not at all |
| Ranking.FilterAppend | classical-git-tar-society/frontend/src/components/Contest.tsx:236 | filtering splits over concatenation, so the kept elements stay in their input order |
| Ranking.FilterMembers | classical-git-tar-society/frontend/src/components/QuizBowl.tsx:167 | an element is kept exactly when it is in the input and passes |
| Ranking.SortDesc | classical-git-tar-society/frontend/src/components/Contest.tsx:237 | the sort is a permutation of its input |
| Ranking.SortDescSorted | classical-git-tar-society/frontend/src/components/Contest.tsx:237 | the sorted sequence never increases in key |
| Ranking.SortDescStable | classical-git-tar-society/frontend/src/components/QuizBowl.tsx:168-178 | elements with equal keys keep their relative order, as the stable `Array.prototype.sort` does |
| Ranking.Ranked | classical-git-tar-society/frontend/src/components/Contest.tsx:239-245 | row i is built from element i with rank i + 1 |
| Ranking.TopShape | classical-git-tar-society/frontend/src/components/Contest.tsx:235-238 | the board holds min(10, number kept) kept input elements, best first |
| Ranking.TopComplete | classical-git-tar-society/frontend/src/components/Contest.tsx:235-238 | a kept element missing from the board sits below the last row of a full board |
| ContestClient.ByVotesIsSorted | classical-git-tar-society/frontend/src/components/Contest.tsx:73-76 | the sorted submissions are a permutation of the fetched ones with vote counts non-increasing |
| ContestClient.SortByVotes | classical-git-tar-society/frontend/src/components/Contest.tsx:100-103 | sorting the fetched array in place leaves it sorted by votes, highest first |
| ContestClient.SortInPlace | classical-git-tar-society/frontend/src/components/Contest.tsx:74-76 | the in-place insertion sort leaves the array equal to the stable descending sort of its old contents |
| ContestClient.InsertLast | classical-git-tar-society/frontend/src/components/Contest.tsx:74-76 | one insertion step places element i into the sorted prefix and leaves the rest of the array alone |
| ContestClient.ContestRows | classical-git-tar-society/frontend/src/components/Contest.tsx:234-246 | row i of the contest board is the i-th best voted submission at rank i + 1 |
| ContestClient.ContestLeaderboardRanks | classical-git-tar-society/frontend/src/components/Contest.tsx:234-246 | the board has min(10, voted) rows, with rank i + 1 and a positive vote count as score, each from a listed submission |
| ContestClient.ContestLeaderboardOrder | classical-git-tar-society/frontend/src/components/Contest.tsx:237 | scores never increase down the board |
| ContestClient.ContestLeaderboardComplete | classical-git-tar-society/frontend/src/components/Contest.tsx:236-238 | every voted submission is on the board, unless the board is full and it has no more votes than the last row |
| ContestClient.ContestLeaderboard | classical-git-tar-society/frontend/src/components/Contest.tsx:234-246 | submissions with votes, most votes first, the first ten, ranked from 1; see `ContestRows`, `ContestLeaderboardOrder`, `ContestLeaderboardComplete` |
| ContestClient.FindListed | classical-git-tar-society/frontend/src/components/Contest.tsx:154-158 | the lookup finds the first listed submission at the address, or none exactly when none is listed there |
| ContestClient.VoteRequest | classical-git-tar-society/frontend/src/components/Contest.tsx:145-175 | a vote is sent exactly when a wallet is connected and the submission is listed, with the wallet as voter and the listed contestant as performer |
| ContestClient.VoteRequestOutcome | classical-git-tar-society/frontend/src/components/Contest.tsx:178-186 | a vote from a current listing never trips the performer constraint; it fails only "already in use", on a first self-vote, on a full count or without the mint; the page says "already voted" exactly when the wallet had voted before |
| ContestClient.SelfVoteAccepted | classical-git-tar-society/frontend/src/components/Contest.tsx:367 | once the contestant has a profile, the program accepts their vote for their own submission; only the disabled button prevents it |
| ContestClient.FirstSelfVoteFails | guitar_contest/programs/guitar_contest/src/lib.rs:246-269 | a contestant with no profile who votes for their own submission fails with a discriminator mismatch and changes nothing |
| ContestClient.SaysAlreadyVoted | classical-git-tar-society/frontend/src/components/Contest.tsx:180-184 | the page reads "already in use" or the code 0x1771 as "already voted"; `VoteRequestOutcome` shows this happens exactly when the wallet had voted |
| ContestClient.VoteEnabled | classical-git-tar-society/frontend/src/components/Contest.tsx:367 | the vote button is enabled when not loading and the wallet is not the contestant; see `CardGating` |
| ContestClient.EditEnabled | classical-git-tar-society/frontend/src/components/Contest.tsx:380 | the edit button is enabled only for the contestant, when not loading; see `CardGating` |
| ContestClient.CreateEnabled | classical-git-tar-society/frontend/src/components/Contest.tsx:306 | the create button needs a title and an id and no pending request |
| ContestClient.UpdateRequest | classical-git-tar-society/frontend/src/components/Contest.tsx:193-220 | an update is sent exactly when a wallet is connected and both prompt answers are non-empty |
| ContestClient.UpdateRequestOutcome | classical-git-tar-society/frontend/src/components/Contest.tsx:204-227 | a sent update succeeds exactly when the wallet is the contestant and the new strings fit |
| ContestClient.CreateRequest | classical-git-tar-society/frontend/src/components/Contest.tsx:112-130 | a create is sent exactly when a wallet is connected, at the new keypair's address |
| ContestClient.CreateRequestOutcome | classical-git-tar-society/frontend/src/components/Contest.tsx:304-307 | a create from the enabled form at a fresh address succeeds exactly when the strings fit, storing the wallet as contestant with zero votes |
| ContestClient.CardGating | classical-git-tar-society/frontend/src/components/Contest.tsx:344-380 | a card never enables both buttons, and enables exactly one when not loading; an enabled edit passes the contestant check, and an enabled vote never comes from the contestant |
| Leaderboard.ShortenAddress | guitar_app/src/components/Leaderboard.tsx:22-25 | an address of at most 12 characters is unchanged; a longer one becomes its first 4 characters, "...", then its last 4, at most 12 long |
| Leaderboard.ShortenIdempotent | guitar_app/src/components/Leaderboard.tsx:22-25 | shortening twice is shortening once |
| Leaderboard.RankCellDistinct | guitar_app/src/components/Leaderboard.tsx:59-64 | ranks 1 to 3 show a medal and only they do; different ranks show different cells |
| Leaderboard.RankCell | guitar_app/src/components/Leaderboard.tsx:59-64 | gold, silver and bronze for ranks 1 to 3, the rank number otherwise; `RankCellDistinct` shows distinct ranks give distinct cells |
| Leaderboard.ScoreCell | guitar_app/src/components/Leaderboard.tsx:70-74 | the score cell is never empty |
| Leaderboard.ScoreCellSlash | guitar_app/src/components/Leaderboard.tsx:71-73 | the cell shows "score/maxScore" exactly when a maximum is defined |
| Leaderboard.ScoreCellFaithful | guitar_app/src/components/Leaderboard.tsx:71-73 | equal score cells come from equal scores and maxima, so the cell loses nothing |
| Leaderboard.ShowsPassed | guitar_app/src/components/Leaderboard.tsx:75-79 | "Passed" shows exactly for an entry marked passed |
| Leaderboard.IsCurrentUser | guitar_app/src/components/Leaderboard.tsx:52 | a row is flagged exactly when a non-empty current address equals its full address |
| QuizClient.CountCorrect | classical-git-tar-society/frontend/src/components/QuizBowl.tsx:229-237 | the number correct is at most the number of questions |
| QuizClient.CountCorrectExtremes | classical-git-tar-society/frontend/src/components/QuizBowl.tsx:229-237 | all correct exactly when every saved answer matches, none exactly when no saved answer does |
| QuizClient.CalculateScore | classical-git-tar-society/frontend/src/components/QuizBowl.tsx:229-237 | the counting loop returns the number of questions answered correctly, and the total is the number of questions |
| QuizClient.ClientPassRule | classical-git-tar-society/frontend/src/components/QuizBowl.tsx:246-248 | `Math.round(correct / total * 100) >= 80` holds exactly when 200 * correct >= 159 * total |
| QuizClient.Percentage | classical-git-tar-society/frontend/src/components/QuizBowl.tsx:246 | `Math.round(correct / total * 100)`: halves round up; NaN for 0/0 and Infinity for n/0 |
| QuizClient.ClientPasses | classical-git-tar-society/frontend/src/components/QuizBowl.tsx:247 | `percentage >= 80`, false for NaN and true for Infinity; `ClientPassRule` gives its arithmetic form |
| QuizClient.FixedQuizPassMark | classical-git-tar-society/frontend/src/components/QuizBowl.tsx:392-393 | with the five fixed questions the page passes exactly at 4 or more correct, and agrees with the program's 80% rule |
| QuizClient.RoundingAdmitsBelowEighty | classical-git-tar-society/frontend/src/components/QuizBowl.tsx:246-248 | for larger quizzes the rounding rule passes 159 of 200 (79.5%), which the 80% rule fails |
| QuizClient.AllAnsweredMeansEveryQuestion | classical-git-tar-society/frontend/src/components/QuizBowl.tsx:91-92 | with answers keyed by question ids, "as many answers as questions" means every question is answered |
| QuizClient.QuizSession.constructor | classical-git-tar-society/frontend/src/components/QuizBowl.tsx:80-85 | the sheet starts at question 0 with nothing selected and nothing saved |
| QuizClient.QuizSession.Select | classical-git-tar-society/frontend/src/components/QuizBowl.tsx:411 | choosing an option changes only the selection |
| QuizClient.QuizSession.SaveAnswer | classical-git-tar-society/frontend/src/components/QuizBowl.tsx:212-218 | with nothing selected nothing changes; otherwise only the current question's answer is set to the selection |
| QuizClient.QuizSession.Next | classical-git-tar-society/frontend/src/components/QuizBowl.tsx:313-319 | moves one question on, except at the last, and loads that question's saved answer; the index stays in range and answers are untouched |
| QuizClient.QuizSession.Prev | classical-git-tar-society/frontend/src/components/QuizBowl.tsx:322-328 | moves one question back, except at the first, and loads that question's saved answer; the index stays in range and answers are untouched |
| QuizClient.SavedAnswer | classical-git-tar-society/frontend/src/components/QuizBowl.tsx:316 | the saved answer is present exactly when the question was answered, and is that answer |
| QuizClient.SavingEveryQuestionCompletes | classical-git-tar-society/frontend/src/components/QuizBowl.tsx:91-92 | once every question is answered the sheet counts as complete |
| QuizClient.CompleteRequest | classical-git-tar-society/frontend/src/components/QuizBowl.tsx:240-279 | nothing happens without a wallet or with a question unanswered; otherwise a client whose interface has `completeQuiz` sends the question count and `CountCorrect` of the answers as the score, and one without it scores the same count locally, sends nothing, and shows a pass exactly at 4 of 5, the program's rule |
| QuizClient.CompletionVerdictAgrees | classical-git-tar-society/frontend/src/components/QuizBowl.tsx:283-295 | after a successful completion, the page announces a pass exactly when the stored record is rewarded |
| QuizClient.CompletionFeedbackAccurate | classical-git-tar-society/frontend/src/components/QuizBowl.tsx:297-306 | under a configuration, a failed completion reads "already completed" exactly when this version's record exists |
| QuizClient.LookupMissesRecords | classical-git-tar-society/frontend/src/components/QuizBowl.tsx:103-118 | the page's unversioned state address is never a quiz record's, and on any chain the program built it finds no completion receipt |
| QuizClient.QuizCompareIsKeyOrder | classical-git-tar-society/frontend/src/components/QuizBowl.tsx:168-178 | the comparator puts a record first exactly when it has more correct answers, or as many and is rewarded where the other is not |
| QuizClient.QuizRows | classical-git-tar-society/frontend/src/components/QuizBowl.tsx:166-200 | when every conversion succeeds, row i of the quiz board is the i-th best completed record at rank i + 1; otherwise the board is empty |
| QuizClient.QuizLeaderboardRanks | classical-git-tar-society/frontend/src/components/QuizBowl.tsx:166-200 | the board has min(10, completed) rows when every conversion succeeds and none otherwise; rows are ranked from 1, each showing a completed record's score out of its total and its pass flag |
| QuizClient.QuizLeaderboardOrder | classical-git-tar-society/frontend/src/components/QuizBowl.tsx:168-178 | rows go by correct answers, highest first, and on a tie a passed row comes before a failed one |
| QuizClient.QuizLeaderboardComplete | classical-git-tar-society/frontend/src/components/QuizBowl.tsx:166-200 | when every conversion succeeds, every completed record is on the board unless the board is full and the record has no more correct answers than the last row; when one throws, the board is empty |
| QuizClient.HugeScoreEmptiesBoard | classical-git-tar-society/frontend/src/components/QuizBowl.tsx:170-183 | one completed record with 2^53 or more correct answers makes `toNumber()` throw, in the comparator or in its row, and the caught error leaves the board empty |
| QuizClient.QuizLeaderboard | classical-git-tar-society/frontend/src/components/QuizBowl.tsx:166-200 | completed records, sorted best first, the first ten, ranked from 1; empty when a conversion throws; see `QuizRows`, `QuizLeaderboardOrder` |
| QuizClient.BoardReadsSafely | classical-git-tar-society/frontend/src/components/QuizBowl.tsx:168-183 | the conversions the board makes: every completed record's score once two are compared, and each shown row's score and total |
| QuizClient.QuizCompare | classical-git-tar-society/frontend/src/components/QuizBowl.tsx:168-178 | the comparator: more correct answers first, then a rewarded record first; `QuizCompareIsKeyOrder` shows it is key order |
| QuizClient.SaysAlreadyCompleted | classical-git-tar-society/frontend/src/components/QuizBowl.tsx:299-303 | the page reads "already in use" as "already completed"; `CompletionFeedbackAccurate` shows it is exactly a record at this version |
| QuizClient.LookupStateKey | classical-git-tar-society/frontend/src/components/QuizBowl.tsx:103-106 | the quiz-state address the page derives, `["quiz_state", wallet]`, with no version; `LookupMissesRecords` shows no record is ever there |
| QuizClient.CompletionReceiptKey | classical-git-tar-society/frontend/src/components/QuizBowl.tsx:109-112 | the completion-receipt address `["quiz_completion", wallet]`, which the program never writes |
| QuestionBank.Property | frontend/scripts/generate_bank.mjs:160-168 | a property is read exactly when the value is an object with that field |
| QuestionBank.FirstIndex | frontend/scripts/generate_bank.mjs:146 | the first occurrence of a character, or none when it does not occur |
| QuestionBank.LastIndex | frontend/scripts/generate_bank.mjs:146 | the last occurrence of a character, or none when it does not occur |
| QuestionBank.ArraySpanNeedsPair | frontend/scripts/generate_bank.mjs:145-149 | the text is cut only when it holds a "[" before a "]" |
| QuestionBank.ArraySpanCut | frontend/scripts/generate_bank.mjs:145-149 | with a "[" before a "]", the result runs from the first "[" to the last "]", with none before or after |
| QuestionBank.ArraySpan | frontend/scripts/generate_bank.mjs:145-149 | the text from the first `[` to the last `]` when one comes before the other, else the text unchanged; `ArraySpanCut` and `ArraySpanIdempotent` state it |
| QuestionBank.ArraySpanIdempotent | frontend/scripts/generate_bank.mjs:145-149 | cutting the array span twice is cutting it once |
| QuestionBank.RemoveAllWithoutTick | frontend/scripts/generate_bank.mjs:140-142 | fence removal leaves text without backticks unchanged |
| QuestionBank.RemoveAll | frontend/scripts/generate_bank.mjs:141-142 | `replace(/tag\s*/gi, "")`: every occurrence of the tag and the whitespace after it removed; `RemoveAllWithoutTick`, `RemoveOpeningFence` and `RemoveClosingFence` state it |
| QuestionBank.UnfencedReply | frontend/scripts/generate_bank.mjs:138-152 | a reply without backticks is parsed from its trimmed array span |
| QuestionBank.RemoveOpeningFence | frontend/scripts/generate_bank.mjs:141 | removing "```json" and the whitespace after it leaves the body, trimmed at its start, and the closing fence |
| QuestionBank.RemoveClosingFence | frontend/scripts/generate_bank.mjs:142 | removing "```" drops the closing fence after a backtick-free body |
| QuestionBank.FencedReply | frontend/scripts/generate_bank.mjs:138-152 | a reply fenced as a JSON code block is parsed from its body's trimmed array span |
| QuestionBank.MessagesDiffer | frontend/scripts/generate_bank.mjs:160-170 | the three error messages for one question are distinct |
| QuestionBank.ValidateQuestion | frontend/scripts/generate_bank.mjs:157-173 | no errors exactly when the text is a string of at least 10 characters, there are exactly 4 options and `correctIndex` is a number in [0, 3]; each message appears exactly when its check fails, and the messages come in the order of the checks: text, options, index |
| QuestionBank.FractionalIndexAccepted | frontend/scripts/generate_bank.mjs:168 | a `correctIndex` of 1.5 passes the index check |
| QuestionBank.NewRecordId | frontend/scripts/generate_bank.mjs:197-198 | an accepted question's id is `category_position` |
| QuestionBank.NewRecordFields | frontend/scripts/generate_bank.mjs:197-204 | an accepted record carries its category, its name, and the question, options and index it was given |
| QuestionBank.Positions | frontend/scripts/generate_bank.mjs:194-196 | the 1-based positions of accepted items, increasing, each accepted and every accepted one listed |
| QuestionBank.SelectKeeps | frontend/scripts/generate_bank.mjs:194-205 | every accepted item's record, at its raw position, is in the batch |
| QuestionBank.CategoryQuestions | frontend/scripts/generate_bank.mjs:178-217 | the loop pushing accepted records builds exactly the category's batch |
| QuestionBank.CategoryBatch | frontend/scripts/generate_bank.mjs:190-214 | a category's records: the valid items with their raw position in the id, or nothing when the reply is not an array or validation throws on `null`; `CategoryBatchKeeps` and `CategoryBatchDistinctIds` state it |
| QuestionBank.CategoryQuestionIdInjective | frontend/scripts/generate_bank.mjs:198 | equal ids come from the same category id and position |
| QuestionBank.BatchIdsDiffer | frontend/scripts/generate_bank.mjs:194-205 | two records of one batch have different ids |
| QuestionBank.CategoryBatchDistinctIds | frontend/scripts/generate_bank.mjs:178-217 | all ids in a category's batch are distinct |
| QuestionBank.CategoryBatchKeeps | frontend/scripts/generate_bank.mjs:194-205 | every acceptable item is in the batch under its raw position |
| QuestionBank.CategoryBatchGaps | frontend/scripts/generate_bank.mjs:194-205 | a record at a raw position comes from an acceptable item, so rejected items leave gaps in the numbering |
| QuestionBank.RejectedItemLeavesGap | frontend/scripts/generate_bank.mjs:194-205 | after a rejected first item, the accepted second one is numbered 2 |
| QuestionBank.NewUniqueKeeps | frontend/scripts/generate_bank.mjs:271-273 | a new question is kept exactly when its lower-cased, trimmed text is not among the existing ones |
| QuestionBank.NewUnique | frontend/scripts/generate_bank.mjs:271-273 | the new questions whose lower-cased, trimmed text is not in the existing bank, every copy kept in batch order; `NewUniqueKeeps`, `NewUniqueCopiesInOrder` and `NewUniqueKeepsPlace` state it |
| QuestionBank.NewUniqueCopiesInOrder | frontend/scripts/generate_bank.mjs:271-273 | every question whose text the bank lacks stays with all its copies, and one whose text it holds goes; the result splits wherever the batch does, so the batch order is kept |
| QuestionBank.NewUniqueKeepsPlace | frontend/scripts/generate_bank.mjs:271-273 | a new question sits between the survivors before it and those after it, so its `q_n` place follows its batch place |
| QuestionBank.NewUniqueKeepsAll | frontend/scripts/generate_bank.mjs:271-273 | duplicates within the batch are not removed: with no overlap against the bank, the batch is kept whole |
| QuestionBank.BankIdDiffers | frontend/scripts/generate_bank.mjs:281-285 | different positions give different `q_n` ids |
| QuestionBank.WithIdFields | frontend/scripts/generate_bank.mjs:282-285 | renumbering one record sets its id and keeps every other field |
| QuestionBank.RenumberKeepsFields | frontend/scripts/generate_bank.mjs:281-285 | record i gets the id `q_(i+1)` and keeps all other fields; all ids differ |
| QuestionBank.Renumber | frontend/scripts/generate_bank.mjs:281-285 | record i gets the id `q_(i+1)`; `RenumberKeepsFields` and `BankIdDiffers` state it |
| QuestionBank.FinalBankLayout | frontend/scripts/generate_bank.mjs:279-285 | the final bank is the existing entries, then the new unique ones, in order, numbered `q_1` to `q_n` |
| QuestionBank.RenumberKeepsTexts | frontend/scripts/generate_bank.mjs:281-285 | renumbering keeps every question text |
| QuestionBank.BatchTextInMerge | frontend/scripts/generate_bank.mjs:271-279 | every batch question's text is in the merged bank |
| QuestionBank.RegeneratingAddsNothing | frontend/scripts/generate_bank.mjs:259-285 | feeding the same batch again against the written bank adds no question |
| Text.Utf8Length | guitar_contest/programs/guitar_contest/src/lib.rs:198 | a string's UTF-8 byte length lies between its character count and four times it, and is zero only for the empty string |
| Text.Utf8LengthAppend | guitar_contest/programs/guitar_contest/src/lib.rs:198 | UTF-8 length adds over concatenation |
| Text.DecimalString | guitar_app/src/components/Leaderboard.tsx:72 | a number renders as a non-empty string of digits, one digit exactly below 10 |
| Text.DecimalStringInjective | guitar_app/src/components/Leaderboard.tsx:72 | different numbers render differently |
| Text.TrimStart | frontend/scripts/generate_bank.mjs:143 | the result is the suffix after the leading whitespace |
| Text.TrimEnd | frontend/scripts/generate_bank.mjs:143 | the result is the prefix before the trailing whitespace |
| Text.TrimIsInfix | frontend/scripts/generate_bank.mjs:272 | trimming removes whitespace at both ends and keeps the middle as it was |
| Text.LowerCase | frontend/scripts/generate_bank.mjs:272 | lower-casing maps every character and keeps the length |

## Left out

- Token minting: the SPL Token calls `mint_to` and `set_authority` are foreign. Mints are reduced to "the program must hold the mint authority", and the minted amount with its decimals is not modelled.
- Program-derived address hashing and bumps: each address is an injective constructor over its seeds.
- Rent, payer and system-program mechanics, account discriminators, and `msg!` logging.
- The quiz instructions' bodies: `guitar_contest/programs/guitar_contest/src/lib.rs` does not contain them. Their accounts, errors and docs come from the interface description; the checks named in the next three lines are assumptions.
- `ContestSpec.ResetQuizVersionStep`: the failure with `overflow` when the version is already 2^64 - 1 assumes a checked `+1` on `quiz_version`.
- `ContestSpec.CompleteQuizStep`: assumes the pass rule `100 * correct >= 80 * total`, a checked `+1` on the balance failing with `overflow`, and a mint check, the last two only on a pass. It also assumes the profile is loaded with `init_if_needed` and written back (its authority claimed) on a failing score too, and that the sent total and score are stored as given, without a range check.
- `ContestSpec.InitializeQuizConfigStep`: assumes the configuration is created with `init`, so a second call fails "already in use", and that the first version is 1.
- Concurrency: transactions are atomic and run one after another in the sequencer's order; their interleaving is not modelled.
- The RPC calls (`fetch`, `.all()`, `.rpc()`), wallet adapter, React state scheduling, `alert`/`prompt` and rendering: each is I/O. Fetched data, the wallet and prompt answers are parameters.
- Base58 encoding of public keys: a parameter `base58`.
- The display percentage `Math.round(correct / total * 100)`: computed over exact rationals. A division by zero gives NaN or Infinity, as in JavaScript, but floating-point rounding itself is not modelled.
- Case folding beyond ASCII in `toLowerCase()`, and the UTF-16 code units that `slice` and `length` count: strings are sequences of code points.
- `Leaderboard.ShortenAddress`: counts characters, not UTF-16 code units; base58 addresses are ASCII, where the two agree.
- The Gemini call, file reads and writes, environment variables, rate-limit sleeps and `main`'s loop over categories in the question-bank script. `JSON.parse` is replaced by a parsed `Json` value.
- `QuestionBank.NewUnique`: an existing bank whose entries lack a string `question` would make the script throw. The model requires every existing entry to have one.
- `ContestSpec.WrappingAdd`: assumes the program is built with `overflow-checks` off, so the performer's `+= 3` wraps. The build settings are not part of this model. With overflow checks on, as Anchor's workspace template sets for release builds, the add panics at 2^64 and that vote fails; `ContestOutcomes.VoteEffect`'s modulo clause holds only under this assumption.
- `ContestSpec.BackfillTokensStep`: under the same assumption `votes * 3` wraps (`WrappingTriple`). With overflow checks on, a product of 2^64 or more panics before the `checked_add`, so that backfill fails with a panic and not with `Overflow`. The minted amount `(votes * 3) * 10^decimals`, which could overflow on its own, is not modelled.
- `ContestSpec.TransferMintAuthorityStep`: the chain holds a single reward mint. The program puts no address constraint on `peg_mint` (`lib.rs` lines 272-273, 371-372 and 413-414), so the transfer works on any mint its signer controls, and `vote` and `backfill_tokens` mint from whichever mint is passed whose authority is the program's address. The model assumes the client always passes the program's own mint.
- `TransferMintAuthorityOutcome`: its "succeeds exactly when the signer is the authority" speaks of that one mint only.
- `ContestClient.ContestLeaderboard`: `toNumber()` on vote counts (`Contest.tsx` lines 236 and 244) would throw at 2^53, which a vote count, raised by one per transaction, does not realistically reach; the throw is not modelled there.
- `BackfillScript.Visit`: the same for `toNumber()` on vote counts and balances (`backfill-tokens.ts` lines 45 and 81).
- `ContestProperties.ExecuteBalanceNeverFalls`: excludes the vote whose `+= 3` wraps (`RewardWraps`), because there the balance does fall (`WrappingVoteLowersBalance`); `RunBalanceNeverFalls` excludes it at every step of the run.
- `ContestSpec.WrappingTriple`: states the product only when it does not wrap; above 2^64 it is the product modulo 2^64, as defined, without a separate clause.
- `WalletBalance.tsx`, the administrator and mint-transfer scripts, the model-listing script, the page routing and the older interface description: no logic beyond RPC calls and display.
