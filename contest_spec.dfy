/**
 * The contest program as a state machine over the chain's accounts.
 *
 * Every instruction is a function from the chain before it to a `Step`: the
 * status it ends with and the chain after it. A failed instruction leaves the
 * chain exactly as it was (the runtime discards every write of a failed
 * transaction). The order in which failures are reported is Anchor's: the
 * accounts are loaded (and `init` accounts created) in the order the accounts
 * struct declares them, then the `constraint`s are checked, then the handler
 * runs. Each handler reads the accounts as they were loaded and every account
 * is written back when the handler returns, in declaration order.
 */
module ContestSpec {
  import opened ContestIdl

  datatype Status = Success | Failed(failure: Failure)

  /** The accounts the program owns, and the current authority of the reward mint. */
  datatype Chain = Chain(accounts: map<Address, Account>, mintAuthority: Address)

  datatype Step = Step(status: Status, chain: Chain)

  function Reject(c: Chain, f: Failure): Step {
    Step(Failed(f), c)
  }

  /** The profile an `init_if_needed` account yields: the stored one, or a zeroed new one. */
  function ProfileAt(m: map<Address, Account>, k: Address): UserProfile {
    if k in m && m[k].Profile? then m[k].profile else FRESH_PROFILE
  }

  /** `if profile.authority == Pubkey::default() { profile.authority = who; }` */
  function ClaimAuthority(p: UserProfile, who: Pubkey): (q: UserProfile)
    ensures q.pegBalance == p.pegBalance
    ensures p.authority != DEFAULT_PUBKEY ==> q.authority == p.authority
    ensures p.authority == DEFAULT_PUBKEY ==> q.authority == who
  {
    if p.authority == DEFAULT_PUBKEY then p.(authority := who) else p
  }

  /** A plain `+=` on a u64 in a release build: it wraps around. */
  function WrappingAdd(a: U64, b: nat): (r: U64)
    ensures a + b < U64_MODULUS ==> r == a + b
    ensures a + b >= U64_MODULUS && b < U64_MODULUS ==> r == a + b - U64_MODULUS
  {
    (a + b) % U64_MODULUS
  }

  /** `votes * 3` on a u64 without a check: it wraps around too. */
  function WrappingTriple(votes: U64): (r: U64)
    ensures votes * 3 < U64_MODULUS ==> r == votes * 3
  {
    (votes * 3) % U64_MODULUS
  }

  const VOTE_REWARD: nat := 3
  const QUIZ_REWARD: nat := 1
  const FIRST_QUIZ_VERSION: U64 := 1

  /** The documented pass mark of the quiz: at least 80% of the answers correct. */
  predicate QuizPasses(total: U64, correct: U64) {
    correct * 100 >= total * 80
  }

  function SubmissionAt(m: map<Address, Account>, k: Pubkey): SubmissionAccount
    requires SubmissionKey(k) in m && m[SubmissionKey(k)].Submission?
  {
    m[SubmissionKey(k)].submission
  }

  predicate HasSubmission(m: map<Address, Account>, k: Pubkey) {
    SubmissionKey(k) in m && m[SubmissionKey(k)].Submission?
  }

  predicate HasConfig(m: map<Address, Account>) {
    QuizConfigKey() in m && m[QuizConfigKey()].Config?
  }

  /** True once `voter` has voted for `submission`: the receipt's address is occupied. */
  predicate HasVoted(c: Chain, voter: Pubkey, submission: Pubkey) {
    ReceiptKey(voter, submission) in c.accounts
  }

  /** The voter passes themself as performer, and no profile exists at that shared address yet. */
  predicate FirstSelfVote(c: Chain, user: Pubkey, performer: Pubkey) {
    user == performer && ProfileKey(user) !in c.accounts
  }

  // ------------------------------------------------------------ instructions

  /** `create_submission`: `init` the submission at the client's fresh keypair address. */
  function CreateSubmissionStep(c: Chain, user: Pubkey, submission: Pubkey, title: string, youtubeId: string): Step {
    var k := SubmissionKey(submission);
    if k in c.accounts then Reject(c, AccountInUse)
    else if !FitsSubmissionSpace(title, youtubeId) then Reject(c, AccountDidNotSerialize)
    else
      var record := SubmissionAccount(user, title, youtubeId, 0);
      Step(Success, c.(accounts := c.accounts[k := Submission(record)]))
  }

  /**
   * `vote`: load the submission, `init` the receipt at `[user, submission]`,
   * load both profiles with `init_if_needed`, check that `performer` is the
   * contestant, then count the vote (`checked_add(1).unwrap()`), credit the
   * performer 3 (plain `+=`) and mint through the program's authority.
   *
   * When the voter is the performer, both profiles are the same address. If
   * no profile exists there yet, the first `init_if_needed` creates it with
   * zeroed data (its discriminator is only written when the instruction
   * returns), and the second one then finds a program-owned account whose
   * discriminator does not match, so the vote fails.
   */
  function VoteStep(c: Chain, user: Pubkey, submission: Pubkey, performer: Pubkey): Step {
    var subKey := SubmissionKey(submission);
    var receiptKey := ReceiptKey(user, submission);
    if !HasSubmission(c.accounts, submission) then Reject(c, AccountNotInitialized)
    else if receiptKey in c.accounts then Reject(c, AccountInUse)
    else if FirstSelfVote(c, user, performer) then Reject(c, AccountDiscriminatorMismatch)
    else
      var sub := SubmissionAt(c.accounts, submission);
      if performer != sub.contestant then Reject(c, ConstraintRaw)
      else if sub.voteCount == U64_MAX then Reject(c, Panicked)
      else if c.mintAuthority != MintAuthorityKey() then Reject(c, MintAuthorityMismatch)
      else
        var voter := ClaimAuthority(ProfileAt(c.accounts, ProfileKey(user)), user);
        var credited := ClaimAuthority(ProfileAt(c.accounts, ProfileKey(performer)), sub.contestant);
        var perf := credited.(pegBalance := WrappingAdd(credited.pegBalance, VOTE_REWARD));
        var m := c.accounts[subKey := Submission(sub.(voteCount := sub.voteCount + 1))]
                           [receiptKey := VoteReceipt]
                           [ProfileKey(user) := Profile(voter)]
                           [ProfileKey(performer) := Profile(perf)];
        Step(Success, c.(accounts := m))
  }

  /** `update_submission`: only the contestant may replace the title and the YouTube id. */
  function UpdateSubmissionStep(c: Chain, user: Pubkey, submission: Pubkey, newTitle: string, newYoutubeId: string): Step {
    if !HasSubmission(c.accounts, submission) then Reject(c, AccountNotInitialized)
    else
      var sub := SubmissionAt(c.accounts, submission);
      if sub.contestant != user then Reject(c, Program(NotContestant))
      else if !FitsSubmissionSpace(newTitle, newYoutubeId) then Reject(c, AccountDidNotSerialize)
      else
        var updated := sub.(title := newTitle, youtubeId := newYoutubeId);
        Step(Success, c.(accounts := c.accounts[SubmissionKey(submission) := Submission(updated)]))
  }

  /** `transfer_mint_authority`: the current authority hands minting to the program's address. */
  function TransferMintAuthorityStep(c: Chain, currentAuthority: Pubkey): Step {
    if c.mintAuthority != Wallet(currentAuthority) then Reject(c, MintAuthorityMismatch)
    else Step(Success, c.(mintAuthority := MintAuthorityKey()))
  }

  /**
   * `backfill_tokens`: credit the performer `vote_count * 3` (an unchecked
   * multiply) with `checked_add`, failing with `Overflow`. The submission is
   * only read. Nothing records that a backfill happened.
   */
  function BackfillTokensStep(c: Chain, submission: Pubkey, performer: Pubkey): Step {
    if !HasSubmission(c.accounts, submission) then Reject(c, AccountNotInitialized)
    else
      var sub := SubmissionAt(c.accounts, submission);
      if performer != sub.contestant then Reject(c, ConstraintRaw)
      else
        var profile := ClaimAuthority(ProfileAt(c.accounts, ProfileKey(performer)), sub.contestant);
        var amount := WrappingTriple(sub.voteCount);
        if profile.pegBalance + amount > U64_MAX then Reject(c, Program(Overflow))
        else if c.mintAuthority != MintAuthorityKey() then Reject(c, MintAuthorityMismatch)
        else
          var credited := profile.(pegBalance := profile.pegBalance + amount);
          Step(Success, c.(accounts := c.accounts[ProfileKey(performer) := Profile(credited)]))
  }

  /** `initializeQuizConfig`: one-time `init` of the singleton, with the signer as admin. */
  function InitializeQuizConfigStep(c: Chain, admin: Pubkey): Step {
    if QuizConfigKey() in c.accounts then Reject(c, AccountInUse)
    else Step(Success, c.(accounts := c.accounts[QuizConfigKey() := Config(QuizConfig(admin, FIRST_QUIZ_VERSION))]))
  }

  /**
   * `resetQuizVersion`: the admin moves every participant to a fresh quiz
   * version. The signer is tied to the configuration's `admin` by a relation
   * checked before the handler runs; its declared error is `Unauthorized`.
   */
  function ResetQuizVersionStep(c: Chain, admin: Pubkey): Step {
    if !HasConfig(c.accounts) then Reject(c, AccountNotInitialized)
    else
      var config := c.accounts[QuizConfigKey()].config;
      if config.admin != admin then Reject(c, Program(Unauthorized))
      else if config.quizVersion == U64_MAX then Reject(c, Program(Overflow))
      else
        var bumped := config.(quizVersion := config.quizVersion + 1);
        Step(Success, c.(accounts := c.accounts[QuizConfigKey() := Config(bumped)]))
  }

  /**
   * `completeQuiz`: `init` the quiz state at `["quiz_state", user, version]`,
   * record the result, and credit one unit when the pass mark is met.
   */
  function CompleteQuizStep(c: Chain, user: Pubkey, totalQuestions: U64, correctAnswers: U64): Step {
    if !HasConfig(c.accounts) then Reject(c, AccountNotInitialized)
    else
      var version := c.accounts[QuizConfigKey()].config.quizVersion;
      var stateKey := QuizStateKey(user, version);
      if stateKey in c.accounts then Reject(c, AccountInUse)
      else
        var passed := QuizPasses(totalQuestions, correctAnswers);
        var profile := ClaimAuthority(ProfileAt(c.accounts, ProfileKey(user)), user);
        if passed && profile.pegBalance == U64_MAX then Reject(c, Program(Overflow))
        else if passed && c.mintAuthority != MintAuthorityKey() then Reject(c, MintAuthorityMismatch)
        else
          var record := QuizState(user, version, totalQuestions, correctAnswers, true, passed);
          var credited := if passed then profile.(pegBalance := profile.pegBalance + QUIZ_REWARD) else profile;
          var m := c.accounts[stateKey := Quiz(record)][ProfileKey(user) := Profile(credited)];
          Step(Success, c.(accounts := m))
  }

  // ------------------------------------------------------------ the sequencer

  datatype Instruction =
    | CreateSubmissionIx(creator: Pubkey, newSubmission: Pubkey, title: string, youtubeId: string)
    | VoteIx(voter: Pubkey, votedFor: Pubkey, performer: Pubkey)
    | UpdateSubmissionIx(editor: Pubkey, edited: Pubkey, newTitle: string, newYoutubeId: string)
    | TransferMintAuthorityIx(currentAuthority: Pubkey)
    | BackfillTokensIx(backfilled: Pubkey, recipient: Pubkey)
    | InitializeQuizConfigIx(newAdmin: Pubkey)
    | ResetQuizVersionIx(admin: Pubkey)
    | CompleteQuizIx(participant: Pubkey, totalQuestions: U64, correctAnswers: U64)

  function Execute(c: Chain, ix: Instruction): Step {
    match ix
    case CreateSubmissionIx(u, k, t, y) => CreateSubmissionStep(c, u, k, t, y)
    case VoteIx(u, s, p) => VoteStep(c, u, s, p)
    case UpdateSubmissionIx(u, s, t, y) => UpdateSubmissionStep(c, u, s, t, y)
    case TransferMintAuthorityIx(a) => TransferMintAuthorityStep(c, a)
    case BackfillTokensIx(s, p) => BackfillTokensStep(c, s, p)
    case InitializeQuizConfigIx(a) => InitializeQuizConfigStep(c, a)
    case ResetQuizVersionIx(a) => ResetQuizVersionStep(c, a)
    case CompleteQuizIx(u, t, k) => CompleteQuizStep(c, u, t, k)
  }

  /** One instruction after another, in the order the sequencer admits them. */
  function Run(c: Chain, ixs: seq<Instruction>): Chain
    decreases |ixs|
  {
    if ixs == [] then c else Run(Execute(c, ixs[0]).chain, ixs[1..])
  }
}
