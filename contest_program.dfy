/**
 * The program as it runs: one object holding the accounts it owns and the
 * mint's current authority. Each instruction loads its accounts, checks its
 * constraints and runs its handler on working copies, and writes the copies
 * back only when everything succeeded, so a failure leaves the fields as
 * they were. Each method is proved to agree with the instruction's function
 * in `ContestSpec` and to keep the invariant of `ContestProperties`.
 */
module ContestProgram {
  import opened ContestIdl
  import opened ContestSpec
  import opened ContestProperties

  class Ledger {
    var accounts: map<Address, Account>
    var mintAuthority: Address

    function State(): Chain
      reads this
    {
      Chain(accounts, mintAuthority)
    }

    ghost predicate Valid()
      reads this
    {
      Consistent(State())
    }

    /** A ledger with no accounts yet, whose mint is held by the wallet `mintHolder`. */
    constructor (mintHolder: Pubkey)
      ensures Valid()
      ensures State() == Genesis(mintHolder)
    {
      accounts := map[];
      mintAuthority := Wallet(mintHolder);
    }

    method CreateSubmission(user: Pubkey, submission: Pubkey, title: string, youtubeId: string) returns (status: Status)
      requires Valid()
      modifies this
      ensures Valid()
      ensures Step(status, State()) == CreateSubmissionStep(old(State()), user, submission, title, youtubeId)
    {
      CreateSubmissionPreserves(State(), user, submission, title, youtubeId);
      var key := SubmissionKey(submission);
      if key in accounts {
        return Failed(AccountInUse);
      }
      if !FitsSubmissionSpace(title, youtubeId) {
        return Failed(AccountDidNotSerialize);
      }
      accounts := accounts[key := Submission(SubmissionAccount(user, title, youtubeId, 0))];
      status := Success;
    }

    method Vote(user: Pubkey, submission: Pubkey, performer: Pubkey) returns (status: Status)
      requires Valid()
      modifies this
      ensures Valid()
      ensures Step(status, State()) == VoteStep(old(State()), user, submission, performer)
    {
      VotePreserves(State(), user, submission, performer);
      var subKey := SubmissionKey(submission);
      if subKey !in accounts || !accounts[subKey].Submission? {
        return Failed(AccountNotInitialized);
      }
      var receiptKey := ReceiptKey(user, submission);
      if receiptKey in accounts {
        return Failed(AccountInUse);
      }
      status := VoteHandler(user, submission, performer);
    }

    /** The handler once the submission is loaded and the receipt address is free. */
    method VoteHandler(user: Pubkey, submission: Pubkey, performer: Pubkey) returns (status: Status)
      requires HasSubmission(accounts, submission) && ReceiptKey(user, submission) !in accounts
      modifies this
      ensures Step(status, State()) == VoteStep(old(State()), user, submission, performer)
    {
      var subKey := SubmissionKey(submission);
      var receiptKey := ReceiptKey(user, submission);
      var sub := accounts[subKey].submission;
      var userProfile := ProfileAt(accounts, ProfileKey(user));
      if user == performer && ProfileKey(user) !in accounts {
        return Failed(AccountDiscriminatorMismatch);
      }
      var performerProfile := ProfileAt(accounts, ProfileKey(performer));
      if performer != sub.contestant {
        return Failed(ConstraintRaw);
      }
      if userProfile.authority == DEFAULT_PUBKEY {
        userProfile := userProfile.(authority := user);
      }
      if sub.voteCount == U64_MAX {
        return Failed(Panicked);
      }
      sub := sub.(voteCount := sub.voteCount + 1);
      if performerProfile.authority == DEFAULT_PUBKEY {
        performerProfile := performerProfile.(authority := sub.contestant);
      }
      performerProfile := performerProfile.(pegBalance := WrappingAdd(performerProfile.pegBalance, VOTE_REWARD));
      if mintAuthority != MintAuthorityKey() {
        return Failed(MintAuthorityMismatch);
      }
      accounts := accounts[subKey := Submission(sub)]
                          [receiptKey := VoteReceipt]
                          [ProfileKey(user) := Profile(userProfile)]
                          [ProfileKey(performer) := Profile(performerProfile)];
      status := Success;
    }

    method UpdateSubmission(user: Pubkey, submission: Pubkey, newTitle: string, newYoutubeId: string) returns (status: Status)
      requires Valid()
      modifies this
      ensures Valid()
      ensures Step(status, State()) == UpdateSubmissionStep(old(State()), user, submission, newTitle, newYoutubeId)
    {
      UpdateSubmissionPreserves(State(), user, submission, newTitle, newYoutubeId);
      var key := SubmissionKey(submission);
      if key !in accounts || !accounts[key].Submission? {
        return Failed(AccountNotInitialized);
      }
      var sub := accounts[key].submission;
      if sub.contestant != user {
        return Failed(Program(NotContestant));
      }
      sub := sub.(title := newTitle, youtubeId := newYoutubeId);
      if !FitsSubmissionSpace(sub.title, sub.youtubeId) {
        return Failed(AccountDidNotSerialize);
      }
      accounts := accounts[key := Submission(sub)];
      status := Success;
    }

    method TransferMintAuthority(currentAuthority: Pubkey) returns (status: Status)
      requires Valid()
      modifies this
      ensures Valid()
      ensures Step(status, State()) == TransferMintAuthorityStep(old(State()), currentAuthority)
    {
      if mintAuthority != Wallet(currentAuthority) {
        return Failed(MintAuthorityMismatch);
      }
      mintAuthority := MintAuthorityKey();
      status := Success;
    }

    method BackfillTokens(submission: Pubkey, performer: Pubkey) returns (status: Status)
      requires Valid()
      modifies this
      ensures Valid()
      ensures Step(status, State()) == BackfillTokensStep(old(State()), submission, performer)
    {
      BackfillTokensPreserves(State(), submission, performer);
      var key := SubmissionKey(submission);
      if key !in accounts || !accounts[key].Submission? {
        return Failed(AccountNotInitialized);
      }
      status := BackfillTokensHandler(submission, performer);
    }

    /** The handler once the submission is loaded. */
    method BackfillTokensHandler(submission: Pubkey, performer: Pubkey) returns (status: Status)
      requires HasSubmission(accounts, submission)
      modifies this
      ensures Step(status, State()) == BackfillTokensStep(old(State()), submission, performer)
    {
      var sub := accounts[SubmissionKey(submission)].submission;
      var profile := ProfileAt(accounts, ProfileKey(performer));
      if performer != sub.contestant {
        return Failed(ConstraintRaw);
      }
      if profile.authority == DEFAULT_PUBKEY {
        profile := profile.(authority := sub.contestant);
      }
      var amount := WrappingTriple(sub.voteCount);
      if profile.pegBalance + amount > U64_MAX {
        return Failed(Program(Overflow));
      }
      profile := profile.(pegBalance := profile.pegBalance + amount);
      if mintAuthority != MintAuthorityKey() {
        return Failed(MintAuthorityMismatch);
      }
      accounts := accounts[ProfileKey(performer) := Profile(profile)];
      status := Success;
    }

    method InitializeQuizConfig(admin: Pubkey) returns (status: Status)
      requires Valid()
      modifies this
      ensures Valid()
      ensures Step(status, State()) == InitializeQuizConfigStep(old(State()), admin)
    {
      InitializeQuizConfigPreserves(State(), admin);
      if QuizConfigKey() in accounts {
        return Failed(AccountInUse);
      }
      accounts := accounts[QuizConfigKey() := Config(QuizConfig(admin, FIRST_QUIZ_VERSION))];
      status := Success;
    }

    method ResetQuizVersion(admin: Pubkey) returns (status: Status)
      requires Valid()
      modifies this
      ensures Valid()
      ensures Step(status, State()) == ResetQuizVersionStep(old(State()), admin)
    {
      ResetQuizVersionPreserves(State(), admin);
      if QuizConfigKey() !in accounts || !accounts[QuizConfigKey()].Config? {
        return Failed(AccountNotInitialized);
      }
      var config := accounts[QuizConfigKey()].config;
      if config.admin != admin {
        return Failed(Program(Unauthorized));
      }
      if config.quizVersion == U64_MAX {
        return Failed(Program(Overflow));
      }
      config := config.(quizVersion := config.quizVersion + 1);
      accounts := accounts[QuizConfigKey() := Config(config)];
      status := Success;
    }

    method CompleteQuiz(user: Pubkey, totalQuestions: U64, correctAnswers: U64) returns (status: Status)
      requires Valid()
      modifies this
      ensures Valid()
      ensures Step(status, State()) == CompleteQuizStep(old(State()), user, totalQuestions, correctAnswers)
    {
      CompleteQuizPreserves(State(), user, totalQuestions, correctAnswers);
      if QuizConfigKey() !in accounts || !accounts[QuizConfigKey()].Config? {
        return Failed(AccountNotInitialized);
      }
      var version := accounts[QuizConfigKey()].config.quizVersion;
      if QuizStateKey(user, version) in accounts {
        return Failed(AccountInUse);
      }
      status := CompleteQuizHandler(user, totalQuestions, correctAnswers);
    }

    /** The handler once the configuration is loaded and this version's result address is free. */
    method CompleteQuizHandler(user: Pubkey, totalQuestions: U64, correctAnswers: U64) returns (status: Status)
      requires HasConfig(accounts) && QuizStateKey(user, ConfigVersion(accounts)) !in accounts
      modifies this
      ensures Step(status, State()) == CompleteQuizStep(old(State()), user, totalQuestions, correctAnswers)
    {
      var version := accounts[QuizConfigKey()].config.quizVersion;
      var stateKey := QuizStateKey(user, version);
      var profile := ProfileAt(accounts, ProfileKey(user));
      if profile.authority == DEFAULT_PUBKEY {
        profile := profile.(authority := user);
      }
      var passed := QuizPasses(totalQuestions, correctAnswers);
      if passed {
        if profile.pegBalance == U64_MAX {
          return Failed(Program(Overflow));
        }
        profile := profile.(pegBalance := profile.pegBalance + QUIZ_REWARD);
        if mintAuthority != MintAuthorityKey() {
          return Failed(MintAuthorityMismatch);
        }
      }
      var record := QuizState(user, version, totalQuestions, correctAnswers, true, passed);
      accounts := accounts[stateKey := Quiz(record)][ProfileKey(user) := Profile(profile)];
      status := Success;
    }
  }
}
