/**
 * Example walk-throughs, replayed on the model. Each starts from any
 * consistent chain on which the program already holds the mint, and each says
 * which instruction lines it exercises.
 */
module ContestScenarios {
  import opened ContestIdl
  import opened ContestSpec
  import opened ContestProperties
  import opened ContestOutcomes

  const ASTURIAS := "Asturias"
  const ASTURIAS_VIDEO := "abc123"

  /**
   * A posts "Asturias"; B votes for it once, which counts and credits A 3;
   * B's second vote fails at the receipt and changes nothing. Exercises
   * `create_submission` and `vote` (lib.rs lines 19-97) and the receipt's
   * `init` (lines 237-244).
   */
  lemma AsturiasScenario(c: Chain, a: Pubkey, b: Pubkey, k: Pubkey)
    requires Consistent(c) && c.mintAuthority == MintAuthorityKey()
    requires SubmissionKey(k) !in c.accounts && a != b
    requires ProfileAt(c.accounts, ProfileKey(a)).pegBalance + 3 <= U64_MAX
    ensures var created := CreateSubmissionStep(c, a, k, ASTURIAS, ASTURIAS_VIDEO);
            var voted := VoteStep(created.chain, b, k, a);
            var again := VoteStep(voted.chain, b, k, a);
      && created.status == Success
      && voted.status == Success
      && HasSubmission(voted.chain.accounts, k)
      && SubmissionAt(voted.chain.accounts, k) == SubmissionAccount(a, ASTURIAS, ASTURIAS_VIDEO, 1)
      && ProfileAt(voted.chain.accounts, ProfileKey(a)).pegBalance == ProfileAt(c.accounts, ProfileKey(a)).pegBalance + 3
      && HasVoted(voted.chain, b, k)
      && again == Step(Failed(AccountInUse), voted.chain)
  {
    AsturiasFits();
    var created := CreateSubmissionStep(c, a, k, ASTURIAS, ASTURIAS_VIDEO);
    CreateSubmissionOutcome(c, a, k, ASTURIAS, ASTURIAS_VIDEO);
    NoVoteBeforeSubmission(c, b, k);
    assert !HasVoted(created.chain, b, k);
    VoteOutcome(created.chain, b, k, a);
    VoteEffect(created.chain, b, k, a);
    SecondVoteFails(created.chain, b, k, a, a);
  }

  lemma AsturiasFits()
    ensures FitsSubmissionSpace(ASTURIAS, ASTURIAS_VIDEO)
  {
    Text.Utf8LengthOfAscii(ASTURIAS);
    Text.Utf8LengthOfAscii(ASTURIAS_VIDEO);
  }

  /** A receipt names an existing submission, so nobody has voted for one that does not exist yet. */
  lemma NoVoteBeforeSubmission(c: Chain, voter: Pubkey, k: Pubkey)
    requires Consistent(c) && SubmissionKey(k) !in c.accounts
    ensures !HasVoted(c, voter, k)
  {
    if HasVoted(c, voter, k) {
      ReceiptKeyRoundTrip(ReceiptKey(voter, k), voter, k);
    }
  }

  /**
   * Under a fresh configuration, C scores 4 of 5, is recorded at version 1
   * and credited one unit, and a second attempt fails. Exercises
   * `initializeQuizConfig` and `completeQuiz` as the interface description
   * declares them.
   */
  lemma QuizScenario(c: Chain, admin: Pubkey, userC: Pubkey)
    requires Consistent(c) && c.mintAuthority == MintAuthorityKey()
    requires QuizConfigKey() !in c.accounts
    requires ProfileAt(c.accounts, ProfileKey(userC)).pegBalance < U64_MAX
    ensures var configured := InitializeQuizConfigStep(c, admin);
            var passC := CompleteQuizStep(configured.chain, userC, 5, 4);
            var retryC := CompleteQuizStep(passC.chain, userC, 5, 5);
      && configured.status == Success && passC.status == Success
      && QuizStateKey(userC, 1) in passC.chain.accounts
      && passC.chain.accounts[QuizStateKey(userC, 1)] == Quiz(QuizState(userC, 1, 5, 4, true, true))
      && ProfileAt(passC.chain.accounts, ProfileKey(userC)).pegBalance == ProfileAt(c.accounts, ProfileKey(userC)).pegBalance + 1
      && retryC == Step(Failed(AccountInUse), passC.chain)
  {
    var configured := InitializeQuizConfigStep(c, admin);
    InitializeQuizConfigOutcome(c, admin, admin);
    NoQuizWithoutConfig(c.accounts, userC, 1);
    CompleteQuizOutcome(configured.chain, userC, 5, 4);
    SecondAttemptFails(configured.chain, userC, 5, 4, 5, 5);
  }

  /** After C's pass, D scores 3 of 5: recorded at version 1 as not rewarded, with the same balance (`completeQuiz`). */
  lemma QuizFailScenario(c: Chain, admin: Pubkey, userC: Pubkey, userD: Pubkey)
    requires Consistent(c) && c.mintAuthority == MintAuthorityKey()
    requires QuizConfigKey() !in c.accounts && userC != userD
    requires ProfileAt(c.accounts, ProfileKey(userC)).pegBalance < U64_MAX
    ensures var configured := InitializeQuizConfigStep(c, admin);
            var passC := CompleteQuizStep(configured.chain, userC, 5, 4);
            var failD := CompleteQuizStep(passC.chain, userD, 5, 3);
      && failD.status == Success
      && QuizStateKey(userD, 1) in failD.chain.accounts
      && failD.chain.accounts[QuizStateKey(userD, 1)] == Quiz(QuizState(userD, 1, 5, 3, true, false))
      && ProfileAt(failD.chain.accounts, ProfileKey(userD)).pegBalance == ProfileAt(c.accounts, ProfileKey(userD)).pegBalance
  {
    var configured := InitializeQuizConfigStep(c, admin);
    InitializeQuizConfigOutcome(c, admin, admin);
    NoQuizWithoutConfig(c.accounts, userC, 1);
    NoQuizWithoutConfig(c.accounts, userD, 1);
    var passC := CompleteQuizStep(configured.chain, userC, 5, 4);
    CompleteQuizOutcome(configured.chain, userC, 5, 4);
    KeysAreDistinct(userC, userD, 0, 0, 1, 1);
    KeysAreDistinct(userD, userC, 0, 0, 1, 1);
    FailingAttempt(passC.chain, userD, 3);
  }

  /** A failing score under a configuration with a free result address is recorded and credits nothing. */
  lemma FailingAttempt(d: Chain, u: Pubkey, correct: U64)
    requires HasConfig(d.accounts) && QuizStateKey(u, ConfigVersion(d.accounts)) !in d.accounts
    requires correct < 4
    ensures var step := CompleteQuizStep(d, u, 5, correct); var v := ConfigVersion(d.accounts);
      && step.status == Success
      && step.chain.accounts[QuizStateKey(u, v)] == Quiz(QuizState(u, v, 5, correct, true, false))
      && ProfileAt(step.chain.accounts, ProfileKey(u)).pegBalance == ProfileAt(d.accounts, ProfileKey(u)).pegBalance
  {
    CompleteQuizOutcome(d, u, 5, correct);
  }

  /** Before the configuration exists no result is stored. */
  lemma NoQuizWithoutConfig(m: map<Address, Account>, user: Pubkey, v: U64)
    requires WellPlaced(m) && QuizzesRecorded(m) && !HasConfig(m)
    ensures QuizStateKey(user, v) !in m
  {
    forall a | a in m
      ensures a != QuizStateKey(user, v)
    {
      assert KindOf(a) == KindOfAccount(m[a]);
    }
  }

  /**
   * D failed at version 1 and is blocked there; after the admin's reset to
   * version 2, D completes the quiz again, and the version-1 record is kept.
   * Exercises `resetQuizVersion` and `completeQuiz`.
   */
  lemma ResetScenario(c: Chain, admin: Pubkey, userD: Pubkey)
    requires Consistent(c)
    requires HasConfig(c.accounts) && c.accounts[QuizConfigKey()].config == QuizConfig(admin, 1)
    requires QuizStateKey(userD, 1) in c.accounts
    ensures CompleteQuizStep(c, userD, 5, 3).status == Failed(AccountInUse)
    ensures var reset := ResetQuizVersionStep(c, admin);
            var retry := CompleteQuizStep(reset.chain, userD, 5, 3);
      && reset.status == Success
      && ConfigVersion(reset.chain.accounts) == 2
      && retry.status == Success
      && retry.chain.accounts[QuizStateKey(userD, 2)] == Quiz(QuizState(userD, 2, 5, 3, true, false))
      && retry.chain.accounts[QuizStateKey(userD, 1)] == c.accounts[QuizStateKey(userD, 1)]
  {
    CompleteQuizOutcome(c, userD, 5, 3);
    var reset := ResetQuizVersionStep(c, admin);
    ResetQuizVersionOutcome(c, admin);
    ResetReopensQuiz(c, admin, userD);
    CompleteQuizOutcome(reset.chain, userD, 5, 3);
    KeysAreDistinct(userD, userD, 0, 0, 1, 2);
  }
}
