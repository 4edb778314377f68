/**
 * Instruction by instruction: exactly when each one succeeds, which failure it
 * reports otherwise, and what a success changes.
 */
module ContestOutcomes {
  import opened ContestIdl
  import opened ContestSpec
  import opened ContestProperties

  /** Every address but those in `written` holds what it held before. */
  ghost predicate UnchangedExcept(c: Chain, d: Chain, written: set<Address>) {
    forall a | a !in written :: (a in d.accounts <==> a in c.accounts) && (a in c.accounts ==> d.accounts[a] == c.accounts[a])
  }

  lemma FailureHasNoEffect(c: Chain, ix: Instruction)
    ensures Execute(c, ix).status.Failed? ==> Execute(c, ix).chain == c
  {
  }

  lemma CreateSubmissionOutcome(c: Chain, user: Pubkey, k: Pubkey, title: string, youtubeId: string)
    ensures var step := CreateSubmissionStep(c, user, k, title, youtubeId);
      && (step.status == Success <==> SubmissionKey(k) !in c.accounts && FitsSubmissionSpace(title, youtubeId))
      && (SubmissionKey(k) in c.accounts ==> step.status == Failed(AccountInUse))
    ensures var d := CreateSubmissionStep(c, user, k, title, youtubeId).chain;
      CreateSubmissionStep(c, user, k, title, youtubeId).status == Success ==>
        && HasSubmission(d.accounts, k)
        && SubmissionAt(d.accounts, k) == SubmissionAccount(user, title, youtubeId, 0)
        && UnchangedExcept(c, d, {SubmissionKey(k)})
        && d.mintAuthority == c.mintAuthority
  {
  }

  /** A new submission starts with no receipts, matching its zero count. */
  lemma NewSubmissionHasNoVotes(c: Chain, user: Pubkey, k: Pubkey, title: string, youtubeId: string)
    requires Consistent(c)
    requires CreateSubmissionStep(c, user, k, title, youtubeId).status == Success
    ensures ReceiptsFor(CreateSubmissionStep(c, user, k, title, youtubeId).chain.accounts, k) == {}
  {
    var d := CreateSubmissionStep(c, user, k, title, youtubeId).chain;
    CreateSubmissionPreserves(c, user, k, title, youtubeId);
    assert HasSubmission(d.accounts, k);
  }

  /**
   * A vote succeeds exactly when the submission exists, this voter has no
   * receipt for it, it is not a first self-vote, the performer passed is its
   * contestant, the count is below the u64 maximum and the program's address
   * holds the mint. Nothing checks that the voter differs from the contestant
   * once the contestant has a profile.
   */
  lemma VoteOutcome(c: Chain, u: Pubkey, s: Pubkey, p: Pubkey)
    ensures VoteStep(c, u, s, p).status == Success <==>
      && HasSubmission(c.accounts, s)
      && !HasVoted(c, u, s)
      && !FirstSelfVote(c, u, p)
      && p == SubmissionAt(c.accounts, s).contestant
      && SubmissionAt(c.accounts, s).voteCount < U64_MAX
      && c.mintAuthority == MintAuthorityKey()
    ensures !HasSubmission(c.accounts, s) ==> VoteStep(c, u, s, p).status == Failed(AccountNotInitialized)
    ensures HasSubmission(c.accounts, s) && HasVoted(c, u, s) ==> VoteStep(c, u, s, p).status == Failed(AccountInUse)
    ensures HasSubmission(c.accounts, s) && !HasVoted(c, u, s) && FirstSelfVote(c, u, p)
      ==> VoteStep(c, u, s, p).status == Failed(AccountDiscriminatorMismatch)
    ensures HasSubmission(c.accounts, s) && !HasVoted(c, u, s) && !FirstSelfVote(c, u, p) && p != SubmissionAt(c.accounts, s).contestant
      ==> VoteStep(c, u, s, p).status == Failed(ConstraintRaw)
  {
  }

  /**
   * A successful vote adds one to the count and leaves the rest of the
   * submission alone, records the receipt, credits the performer 3 modulo
   * 2^64, leaves another voter's balance alone, claims unclaimed profiles,
   * and writes nothing else.
   */
  lemma VoteEffect(c: Chain, u: Pubkey, s: Pubkey, p: Pubkey)
    requires VoteStep(c, u, s, p).status == Success
    ensures var d := VoteStep(c, u, s, p).chain; var before := SubmissionAt(c.accounts, s);
      && HasSubmission(d.accounts, s)
      && SubmissionAt(d.accounts, s).voteCount == before.voteCount + 1
      && SubmissionAt(d.accounts, s).contestant == before.contestant
      && SubmissionAt(d.accounts, s).title == before.title
      && SubmissionAt(d.accounts, s).youtubeId == before.youtubeId
      && HasVoted(d, u, s)
    ensures var d := VoteStep(c, u, s, p).chain;
      && ProfileAt(d.accounts, ProfileKey(p)).pegBalance == (ProfileAt(c.accounts, ProfileKey(p)).pegBalance + 3) % U64_MODULUS
      && (u != p ==> ProfileAt(d.accounts, ProfileKey(u)).pegBalance == ProfileAt(c.accounts, ProfileKey(u)).pegBalance)
    ensures var d := VoteStep(c, u, s, p).chain;
      forall who | who == u || who == p ::
        ProfileAt(d.accounts, ProfileKey(who)).authority ==
          (if ProfileAt(c.accounts, ProfileKey(who)).authority == DEFAULT_PUBKEY then who
           else ProfileAt(c.accounts, ProfileKey(who)).authority)
    ensures var d := VoteStep(c, u, s, p).chain;
      && UnchangedExcept(c, d, {SubmissionKey(s), ReceiptKey(u, s), ProfileKey(u), ProfileKey(p)})
      && d.mintAuthority == c.mintAuthority
  {
    KeysAreDistinct(u, p, s, s, 0, 0);
  }

  /** The exception to a never-falling balance (`RewardWraps`): a vote at the top balance wraps the performer's balance down to 2. */
  lemma WrappingVoteLowersBalance(c: Chain, u: Pubkey, s: Pubkey, p: Pubkey)
    requires VoteStep(c, u, s, p).status == Success
    requires ProfileAt(c.accounts, ProfileKey(p)).pegBalance == U64_MAX
    ensures ProfileAt(VoteStep(c, u, s, p).chain.accounts, ProfileKey(p)).pegBalance == 2
  {
    VoteEffect(c, u, s, p);
  }

  /** A repeated vote fails at the receipt and changes nothing. */
  lemma SecondVoteFails(c: Chain, u: Pubkey, s: Pubkey, p: Pubkey, p': Pubkey)
    requires VoteStep(c, u, s, p).status == Success
    ensures var d := VoteStep(c, u, s, p).chain;
      VoteStep(d, u, s, p') == Step(Failed(AccountInUse), d)
  {
    VoteEffect(c, u, s, p);
  }

  /** Only the contestant may edit, and an edit replaces the title and the YouTube id and nothing else. */
  lemma UpdateSubmissionOutcome(c: Chain, u: Pubkey, s: Pubkey, title: string, youtubeId: string)
    ensures var step := UpdateSubmissionStep(c, u, s, title, youtubeId);
      && (step.status == Success <==>
            HasSubmission(c.accounts, s) && SubmissionAt(c.accounts, s).contestant == u && FitsSubmissionSpace(title, youtubeId))
      && (HasSubmission(c.accounts, s) && SubmissionAt(c.accounts, s).contestant != u ==> step.status == Failed(Program(NotContestant)))
    ensures var step := UpdateSubmissionStep(c, u, s, title, youtubeId); var d := step.chain;
      step.status == Success ==>
        && HasSubmission(d.accounts, s)
        && SubmissionAt(d.accounts, s).title == title
        && SubmissionAt(d.accounts, s).youtubeId == youtubeId
        && SubmissionAt(d.accounts, s).contestant == SubmissionAt(c.accounts, s).contestant
        && SubmissionAt(d.accounts, s).voteCount == SubmissionAt(c.accounts, s).voteCount
        && UnchangedExcept(c, d, {SubmissionKey(s)})
        && d.mintAuthority == c.mintAuthority
  {
  }

  /** The current holder, and only it, hands the mint to the program's address; from there it never moves. */
  lemma TransferMintAuthorityOutcome(c: Chain, signer: Pubkey)
    ensures TransferMintAuthorityStep(c, signer).status == Success <==> c.mintAuthority == Wallet(signer)
    ensures TransferMintAuthorityStep(c, signer).status == Success ==>
      TransferMintAuthorityStep(c, signer).chain == c.(mintAuthority := MintAuthorityKey())
    ensures c.mintAuthority == MintAuthorityKey() ==>
      TransferMintAuthorityStep(c, signer) == Step(Failed(MintAuthorityMismatch), c)
  {
  }

  /**
   * A backfill succeeds exactly when the performer is the contestant, the
   * credit does not overflow and the program holds the mint; it adds the
   * (wrapping) product `vote_count * 3` to the performer and reads the
   * submission only.
   */
  lemma BackfillTokensOutcome(c: Chain, s: Pubkey, p: Pubkey)
    ensures BackfillTokensStep(c, s, p).status == Success <==>
      && HasSubmission(c.accounts, s)
      && p == SubmissionAt(c.accounts, s).contestant
      && ProfileAt(c.accounts, ProfileKey(p)).pegBalance + WrappingTriple(SubmissionAt(c.accounts, s).voteCount) <= U64_MAX
      && c.mintAuthority == MintAuthorityKey()
    ensures HasSubmission(c.accounts, s) && p == SubmissionAt(c.accounts, s).contestant
      && ProfileAt(c.accounts, ProfileKey(p)).pegBalance + WrappingTriple(SubmissionAt(c.accounts, s).voteCount) > U64_MAX
      ==> BackfillTokensStep(c, s, p).status == Failed(Program(Overflow))
    ensures var d := BackfillTokensStep(c, s, p).chain;
      BackfillTokensStep(c, s, p).status == Success ==>
        && ProfileAt(d.accounts, ProfileKey(p)).pegBalance
             == ProfileAt(c.accounts, ProfileKey(p)).pegBalance + WrappingTriple(SubmissionAt(c.accounts, s).voteCount)
        && UnchangedExcept(c, d, {ProfileKey(p)})
        && d.mintAuthority == c.mintAuthority
  {
  }

  /**
   * Backfilling twice credits twice: nothing on chain records that a
   * submission was backfilled, so a second call adds the whole amount again.
   */
  lemma BackfillIsNotIdempotent(c: Chain, s: Pubkey, p: Pubkey)
    requires BackfillTokensStep(c, s, p).status == Success
    requires var votes := SubmissionAt(c.accounts, s).voteCount;
      votes * 3 < U64_MODULUS && ProfileAt(c.accounts, ProfileKey(p)).pegBalance + 6 * votes <= U64_MAX
    ensures var once := BackfillTokensStep(c, s, p).chain;
            var twice := BackfillTokensStep(once, s, p);
            var votes := SubmissionAt(c.accounts, s).voteCount;
      && twice.status == Success
      && ProfileAt(twice.chain.accounts, ProfileKey(p)).pegBalance == ProfileAt(c.accounts, ProfileKey(p)).pegBalance + 6 * votes
      && (votes > 0 ==> twice.chain != once)
  {
    BackfillTokensOutcome(c, s, p);
    var once := BackfillTokensStep(c, s, p).chain;
    assert SubmissionAt(once.accounts, s) == SubmissionAt(c.accounts, s);
    BackfillTokensOutcome(once, s, p);
  }

  lemma InitializeQuizConfigOutcome(c: Chain, admin: Pubkey, other: Pubkey)
    ensures InitializeQuizConfigStep(c, admin).status == Success <==> QuizConfigKey() !in c.accounts
    ensures var step := InitializeQuizConfigStep(c, admin);
      step.status == Success ==>
        && HasConfig(step.chain.accounts)
        && step.chain.accounts[QuizConfigKey()].config == QuizConfig(admin, FIRST_QUIZ_VERSION)
        && UnchangedExcept(c, step.chain, {QuizConfigKey()})
        && InitializeQuizConfigStep(step.chain, other).status == Failed(AccountInUse)
  {
  }

  lemma ResetQuizVersionOutcome(c: Chain, signer: Pubkey)
    ensures ResetQuizVersionStep(c, signer).status == Success <==>
      HasConfig(c.accounts) && c.accounts[QuizConfigKey()].config.admin == signer && ConfigVersion(c.accounts) < U64_MAX
    ensures HasConfig(c.accounts) && c.accounts[QuizConfigKey()].config.admin != signer
      ==> ResetQuizVersionStep(c, signer).status == Failed(Program(Unauthorized))
    ensures var step := ResetQuizVersionStep(c, signer);
      step.status == Success ==>
        && HasConfig(step.chain.accounts)
        && ConfigVersion(step.chain.accounts) == ConfigVersion(c.accounts) + 1
        && step.chain.accounts[QuizConfigKey()].config.admin == signer
        && UnchangedExcept(c, step.chain, {QuizConfigKey()})
  {
  }

  /**
   * After a reset every participant's key for the new version is free, while
   * each earlier result stays where it was.
   */
  lemma ResetReopensQuiz(c: Chain, admin: Pubkey, user: Pubkey)
    requires Consistent(c)
    requires ResetQuizVersionStep(c, admin).status == Success
    ensures var d := ResetQuizVersionStep(c, admin).chain;
      && QuizStateKey(user, ConfigVersion(d.accounts)) !in d.accounts
      && (forall a | a in c.accounts && c.accounts[a].Quiz? :: a in d.accounts && d.accounts[a] == c.accounts[a])
  {
    ResetQuizVersionOutcome(c, admin);
    var d := ResetQuizVersionStep(c, admin).chain;
    LaterQuizKeyFree(c.accounts, user, ConfigVersion(d.accounts));
  }

  /** No result is stored under a version the configuration has not reached yet. */
  lemma LaterQuizKeyFree(m: map<Address, Account>, user: Pubkey, v: U64)
    requires WellPlaced(m) && QuizzesRecorded(m)
    requires HasConfig(m) && v > ConfigVersion(m)
    ensures QuizStateKey(user, v) !in m
  {
    forall a | a in m
      ensures a != QuizStateKey(user, v)
    {
      if m[a].Quiz? {
        KeysAreDistinct(m[a].quiz.user, user, user, user, m[a].quiz.quizVersion, v);
      }
    }
  }

  /**
   * An attempt succeeds exactly when the configuration exists, this user has
   * no result for the current version, and (for a pass) the credit fits and
   * the program holds the mint. It records the result and credits one unit
   * exactly on a pass.
   */
  lemma CompleteQuizOutcome(c: Chain, u: Pubkey, total: U64, correct: U64)
    ensures CompleteQuizStep(c, u, total, correct).status == Success <==>
      && HasConfig(c.accounts)
      && QuizStateKey(u, ConfigVersion(c.accounts)) !in c.accounts
      && (QuizPasses(total, correct) ==>
            ProfileAt(c.accounts, ProfileKey(u)).pegBalance < U64_MAX && c.mintAuthority == MintAuthorityKey())
    ensures HasConfig(c.accounts) && QuizStateKey(u, ConfigVersion(c.accounts)) in c.accounts
      ==> CompleteQuizStep(c, u, total, correct).status == Failed(AccountInUse)
    ensures var step := CompleteQuizStep(c, u, total, correct); var d := step.chain;
      step.status == Success ==>
        var version := ConfigVersion(c.accounts);
        && QuizStateKey(u, version) in d.accounts
        && d.accounts[QuizStateKey(u, version)] == Quiz(QuizState(u, version, total, correct, true, QuizPasses(total, correct)))
        && ProfileAt(d.accounts, ProfileKey(u)).pegBalance
             == ProfileAt(c.accounts, ProfileKey(u)).pegBalance + (if QuizPasses(total, correct) then 1 else 0)
        && UnchangedExcept(c, d, {QuizStateKey(u, version), ProfileKey(u)})
        && d.mintAuthority == c.mintAuthority
  {
  }

  /** A second attempt under the same version fails and changes nothing. */
  lemma SecondAttemptFails(c: Chain, u: Pubkey, total: U64, correct: U64, total': U64, correct': U64)
    requires CompleteQuizStep(c, u, total, correct).status == Success
    ensures var d := CompleteQuizStep(c, u, total, correct).chain;
      CompleteQuizStep(d, u, total', correct') == Step(Failed(AccountInUse), d)
  {
    CompleteQuizOutcome(c, u, total, correct);
    var d := CompleteQuizStep(c, u, total, correct).chain;
    assert ConfigVersion(d.accounts) == ConfigVersion(c.accounts);
  }

  /** The documented pass mark: with five questions, four or more correct. */
  lemma QuizPassMark(correct: U64)
    ensures correct <= 5 ==> (QuizPasses(5, correct) <==> correct >= 4)
  {
  }
}
