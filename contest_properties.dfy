/**
 * What the contest program guarantees about its accounts, over single
 * instructions and over any sequence of them.
 */
module ContestProperties {
  import opened ContestIdl
  import opened ContestSpec

  // ------------------------------------------------------------ the invariant

  /** The receipts recorded for submission `s`. */
  function ReceiptsFor(m: map<Address, Account>, s: Pubkey): set<Address> {
    set a | a in m && KindOf(a) == ReceiptKind && ReceiptTarget(a) == s
  }

  function ConfigVersion(m: map<Address, Account>): U64
    requires HasConfig(m)
  {
    m[QuizConfigKey()].config.quizVersion
  }

  /** Every record sits at an address of its own kind; a quiz result at the key of its user and version. */
  ghost predicate WellPlaced(m: map<Address, Account>) {
    forall a | a in m ::
      && KindOf(a) == KindOfAccount(m[a])
      && (m[a].Quiz? ==> a == QuizStateKey(m[a].quiz.user, m[a].quiz.quizVersion))
  }

  /** A submission's vote count is the number of receipts for it, and no receipt is orphaned. */
  ghost predicate VotesCounted(m: map<Address, Account>) {
    && (forall k | HasSubmission(m, k) :: SubmissionAt(m, k).voteCount == |ReceiptsFor(m, k)|)
    && (forall a | a in m && KindOf(a) == ReceiptKind :: HasSubmission(m, ReceiptTarget(a)))
  }

  /** Quiz results exist only under a configuration, for a version it has reached, completed, rewarded iff passed. */
  ghost predicate QuizzesRecorded(m: map<Address, Account>) {
    && (HasConfig(m) ==> ConfigVersion(m) >= FIRST_QUIZ_VERSION)
    && (forall a | a in m && m[a].Quiz? ::
          && HasConfig(m)
          && m[a].quiz.quizVersion <= ConfigVersion(m)
          && m[a].quiz.quizCompleted
          && (m[a].quiz.tokensAwarded <==> QuizPasses(m[a].quiz.totalQuestions, m[a].quiz.correctAnswers)))
  }

  ghost predicate Consistent(c: Chain) {
    WellPlaced(c.accounts) && VotesCounted(c.accounts) && QuizzesRecorded(c.accounts)
  }

  /** A chain before the program's first instruction: no accounts, and a wallet holding the mint. */
  function Genesis(mintHolder: Pubkey): (c: Chain)
    ensures Consistent(c)
    ensures c.mintAuthority != MintAuthorityKey()
  {
    Chain(map[], Wallet(mintHolder))
  }

  // ------------------------------------------------------------ receipt counting

  lemma ReceiptsAfterWrite(m: map<Address, Account>, k: Address, v: Account, s: Pubkey)
    requires KindOf(k) != ReceiptKind
    ensures ReceiptsFor(m[k := v], s) == ReceiptsFor(m, s)
  {
  }

  lemma ReceiptsAfterNewReceipt(m: map<Address, Account>, voter: Pubkey, target: Pubkey, s: Pubkey)
    requires ReceiptKey(voter, target) !in m
    ensures s == target ==> ReceiptsFor(m[ReceiptKey(voter, target) := VoteReceipt], s) == ReceiptsFor(m, s) + {ReceiptKey(voter, target)}
    ensures s == target ==> |ReceiptsFor(m[ReceiptKey(voter, target) := VoteReceipt], s)| == |ReceiptsFor(m, s)| + 1
    ensures s != target ==> ReceiptsFor(m[ReceiptKey(voter, target) := VoteReceipt], s) == ReceiptsFor(m, s)
  {
    ReceiptKeyRoundTrip(ReceiptKey(voter, target), voter, target);
    assert ReceiptKey(voter, target) !in ReceiptsFor(m, s);
  }

  /** Writing records that are not receipts or submissions keeps the vote bookkeeping. */
  lemma VotesCountedAfterWrite(m: map<Address, Account>, k: Address, v: Account)
    requires VotesCounted(m)
    requires KindOf(k) != ReceiptKind && KindOf(k) != SubmissionKind
    requires KindOf(k) == KindOfAccount(v)
    ensures VotesCounted(m[k := v])
  {
    var m' := m[k := v];
    forall s | HasSubmission(m', s)
      ensures SubmissionAt(m', s).voteCount == |ReceiptsFor(m', s)|
    {
      ReceiptsAfterWrite(m, k, v, s);
    }
  }

  // ------------------------------------------------------------ preservation

  lemma CreateSubmissionPreserves(c: Chain, u: Pubkey, k: Pubkey, t: string, y: string)
    requires Consistent(c)
    ensures Consistent(CreateSubmissionStep(c, u, k, t, y).chain)
  {
    var d := CreateSubmissionStep(c, u, k, t, y).chain;
    if d != c {
      var m := c.accounts;
      forall s | HasSubmission(d.accounts, s)
        ensures SubmissionAt(d.accounts, s).voteCount == |ReceiptsFor(d.accounts, s)|
      {
        ReceiptsAfterWrite(m, SubmissionKey(k), d.accounts[SubmissionKey(k)], s);
        if s == k {
          assert ReceiptsFor(m, k) == {};
        }
      }
    }
  }

  /** Writing a profile keeps the invariant. */
  lemma ProfileWritePreserves(c: Chain, user: Pubkey, p: UserProfile)
    requires Consistent(c)
    ensures Consistent(c.(accounts := c.accounts[ProfileKey(user) := Profile(p)]))
  {
    VotesCountedAfterWrite(c.accounts, ProfileKey(user), Profile(p));
  }

  /** The map a counted vote writes: the submission one vote up, then its new receipt. */
  function Voted(m: map<Address, Account>, u: Pubkey, s: Pubkey): map<Address, Account>
    requires HasSubmission(m, s) && SubmissionAt(m, s).voteCount < U64_MAX
  {
    var sub := SubmissionAt(m, s);
    m[SubmissionKey(s) := Submission(sub.(voteCount := sub.voteCount + 1))][ReceiptKey(u, s) := VoteReceipt]
  }

  /** A counted vote with its new receipt keeps the vote bookkeeping. */
  lemma VoteBookkeeping(m: map<Address, Account>, u: Pubkey, s: Pubkey)
    requires VotesCounted(m) && HasSubmission(m, s) && ReceiptKey(u, s) !in m
    requires SubmissionAt(m, s).voteCount < U64_MAX
    ensures VotesCounted(Voted(m, u, s))
  {
    var m2 := Voted(m, u, s);
    forall t | HasSubmission(m2, t)
      ensures SubmissionAt(m2, t).voteCount == |ReceiptsFor(m2, t)|
    {
      VoteCountAt(m, u, s, t);
    }
    forall a | a in m2 && KindOf(a) == ReceiptKind
      ensures HasSubmission(m2, ReceiptTarget(a))
    {
      KeysAreDistinct(u, u, s, ReceiptTarget(a), 0, 0);
    }
  }

  lemma VoteCountAt(m: map<Address, Account>, u: Pubkey, s: Pubkey, t: Pubkey)
    requires VotesCounted(m) && HasSubmission(m, s) && ReceiptKey(u, s) !in m
    requires SubmissionAt(m, s).voteCount < U64_MAX
    requires HasSubmission(m, t)
    ensures var m2 := Voted(m, u, s);
      HasSubmission(m2, t) && SubmissionAt(m2, t).voteCount == |ReceiptsFor(m2, t)|
  {
    var sub := SubmissionAt(m, s);
    var m1 := m[SubmissionKey(s) := Submission(sub.(voteCount := sub.voteCount + 1))];
    ReceiptsAfterWrite(m, SubmissionKey(s), m1[SubmissionKey(s)], t);
    ReceiptsAfterNewReceipt(m1, u, s, t);
  }

  lemma VotePreserves(c: Chain, u: Pubkey, s: Pubkey, p: Pubkey)
    requires Consistent(c)
    ensures Consistent(VoteStep(c, u, s, p).chain)
  {
    var step := VoteStep(c, u, s, p);
    if step.status.Success? {
      var m := c.accounts;
      VotedPreserves(c, u, s);
      var c2 := c.(accounts := Voted(m, u, s));
      var voter := ClaimAuthority(ProfileAt(m, ProfileKey(u)), u);
      ProfileWritePreserves(c2, u, voter);
      var c3 := c2.(accounts := c2.accounts[ProfileKey(u) := Profile(voter)]);
      ProfileWritePreserves(c3, p, step.chain.accounts[ProfileKey(p)].profile);
      assert step.chain == c3.(accounts := c3.accounts[ProfileKey(p) := step.chain.accounts[ProfileKey(p)]]);
    }
  }

  /** Counting the vote and writing its receipt keeps the invariant. */
  lemma VotedPreserves(c: Chain, u: Pubkey, s: Pubkey)
    requires Consistent(c) && HasSubmission(c.accounts, s) && ReceiptKey(u, s) !in c.accounts
    requires SubmissionAt(c.accounts, s).voteCount < U64_MAX
    ensures Consistent(c.(accounts := Voted(c.accounts, u, s)))
  {
    VoteBookkeeping(c.accounts, u, s);
  }

  lemma UpdateSubmissionPreserves(c: Chain, u: Pubkey, s: Pubkey, t: string, y: string)
    requires Consistent(c)
    ensures Consistent(UpdateSubmissionStep(c, u, s, t, y).chain)
  {
    var step := UpdateSubmissionStep(c, u, s, t, y);
    if step.status.Success? {
      var m := c.accounts;
      forall x | HasSubmission(step.chain.accounts, x)
        ensures SubmissionAt(step.chain.accounts, x).voteCount == |ReceiptsFor(step.chain.accounts, x)|
      {
        ReceiptsAfterWrite(m, SubmissionKey(s), step.chain.accounts[SubmissionKey(s)], x);
      }
    }
  }

  lemma BackfillTokensPreserves(c: Chain, s: Pubkey, p: Pubkey)
    requires Consistent(c)
    ensures Consistent(BackfillTokensStep(c, s, p).chain)
  {
    var step := BackfillTokensStep(c, s, p);
    if step.status.Success? {
      VotesCountedAfterWrite(c.accounts, ProfileKey(p), step.chain.accounts[ProfileKey(p)]);
    }
  }

  lemma InitializeQuizConfigPreserves(c: Chain, admin: Pubkey)
    requires Consistent(c)
    ensures Consistent(InitializeQuizConfigStep(c, admin).chain)
  {
    var step := InitializeQuizConfigStep(c, admin);
    if step.status.Success? {
      VotesCountedAfterWrite(c.accounts, QuizConfigKey(), step.chain.accounts[QuizConfigKey()]);
      assert forall a | a in c.accounts :: !c.accounts[a].Quiz?;
    }
  }

  lemma ResetQuizVersionPreserves(c: Chain, admin: Pubkey)
    requires Consistent(c)
    ensures Consistent(ResetQuizVersionStep(c, admin).chain)
  {
    var step := ResetQuizVersionStep(c, admin);
    if step.status.Success? {
      VotesCountedAfterWrite(c.accounts, QuizConfigKey(), step.chain.accounts[QuizConfigKey()]);
    }
  }

  lemma CompleteQuizPreserves(c: Chain, u: Pubkey, total: U64, correct: U64)
    requires Consistent(c)
    ensures Consistent(CompleteQuizStep(c, u, total, correct).chain)
  {
    var step := CompleteQuizStep(c, u, total, correct);
    if step.status.Success? {
      var m := c.accounts;
      var k := QuizStateKey(u, ConfigVersion(m));
      var m1 := m[k := step.chain.accounts[k]];
      assert step.chain.accounts == m1[ProfileKey(u) := step.chain.accounts[ProfileKey(u)]];
      VotesCountedAfterWrite(m, k, m1[k]);
      VotesCountedAfterWrite(m1, ProfileKey(u), step.chain.accounts[ProfileKey(u)]);
    }
  }

  /** Every instruction, succeeding or failing, keeps the invariant. */
  lemma ExecutePreserves(c: Chain, ix: Instruction)
    requires Consistent(c)
    ensures Consistent(Execute(c, ix).chain)
  {
    match ix
    case CreateSubmissionIx(u, k, t, y) => CreateSubmissionPreserves(c, u, k, t, y);
    case VoteIx(u, s, p) => VotePreserves(c, u, s, p);
    case UpdateSubmissionIx(u, s, t, y) => UpdateSubmissionPreserves(c, u, s, t, y);
    case TransferMintAuthorityIx(a) =>
    case BackfillTokensIx(s, p) => BackfillTokensPreserves(c, s, p);
    case InitializeQuizConfigIx(a) => InitializeQuizConfigPreserves(c, a);
    case ResetQuizVersionIx(a) => ResetQuizVersionPreserves(c, a);
    case CompleteQuizIx(u, t, k) => CompleteQuizPreserves(c, u, t, k);
  }

  /**
   * At all times, whatever instructions the sequencer admits: each submission's
   * vote count equals the number of receipts for it.
   */
  lemma {:induction false} RunPreserves(c: Chain, ixs: seq<Instruction>)
    requires Consistent(c)
    ensures Consistent(Run(c, ixs))
    ensures forall s | HasSubmission(Run(c, ixs).accounts, s) ::
      SubmissionAt(Run(c, ixs).accounts, s).voteCount == |ReceiptsFor(Run(c, ixs).accounts, s)|
    decreases |ixs|
  {
    if ixs != [] {
      ExecutePreserves(c, ixs[0]);
      RunPreserves(Execute(c, ixs[0]).chain, ixs[1..]);
    }
  }

  // ------------------------------------------------------------ permanence

  /** How a record may differ between a chain state and any later one. */
  predicate Persists(x: Account, y: Account) {
    match x
    case Submission(s) =>
      y.Submission? && y.submission.contestant == s.contestant && y.submission.voteCount >= s.voteCount
    case VoteReceipt => y == VoteReceipt
    case Profile(p) => y.Profile? && (p.authority != DEFAULT_PUBKEY ==> y.profile.authority == p.authority)
    case Config(q) => y.Config? && y.config.admin == q.admin && y.config.quizVersion >= q.quizVersion
    case Quiz(_) => y == x
  }

  /**
   * `d` can follow `c`: no account disappears; receipts and quiz results never
   * change; a submission keeps its contestant and its vote count never goes
   * down; a claimed profile keeps its authority; the quiz admin is fixed and
   * the version never goes down; the mint authority either stays or is the
   * program's address.
   */
  ghost predicate Evolves(c: Chain, d: Chain) {
    && (forall a | a in c.accounts :: a in d.accounts && Persists(c.accounts[a], d.accounts[a]))
    && (d.mintAuthority == c.mintAuthority || d.mintAuthority == MintAuthorityKey())
  }

  lemma EvolvesTransitive(c: Chain, d: Chain, e: Chain)
    requires Evolves(c, d) && Evolves(d, e)
    ensures Evolves(c, e)
  {
    forall a | a in c.accounts
      ensures a in e.accounts && Persists(c.accounts[a], e.accounts[a])
    {
      assert Persists(c.accounts[a], d.accounts[a]);
      assert Persists(d.accounts[a], e.accounts[a]);
    }
  }

  lemma ExecuteEvolves(c: Chain, ix: Instruction)
    requires WellPlaced(c.accounts)
    ensures Evolves(c, Execute(c, ix).chain)
  {
    var d := Execute(c, ix).chain;
    forall a | a in c.accounts
      ensures a in d.accounts && Persists(c.accounts[a], d.accounts[a])
    {
      ExecutePersists(c, ix, a);
    }
  }

  lemma ExecutePersists(c: Chain, ix: Instruction, a: Address)
    requires a in c.accounts && KindOf(a) == KindOfAccount(c.accounts[a])
    ensures var d := Execute(c, ix).chain; a in d.accounts && Persists(c.accounts[a], d.accounts[a])
  {
  }

  /** Over any run from a consistent state, every record evolves as `Evolves` allows. */
  lemma {:induction false} RunEvolves(c: Chain, ixs: seq<Instruction>)
    requires Consistent(c)
    ensures Evolves(c, Run(c, ixs))
    decreases |ixs|
  {
    if ixs != [] {
      var d := Execute(c, ixs[0]).chain;
      ExecuteEvolves(c, ixs[0]);
      ExecutePreserves(c, ixs[0]);
      RunEvolves(d, ixs[1..]);
      EvolvesTransitive(c, d, Run(c, ixs));
    }
  }

  // ------------------------------------------------------------ balances

  /**
   * The one way a balance can fall: a vote crediting `u` whose `+= 3` wraps,
   * because the balance is already above 2^64 - 4 (`WrappingAdd`).
   */
  predicate RewardWraps(c: Chain, ix: Instruction, u: Pubkey) {
    ix.VoteIx? && ix.performer == u && ProfileAt(c.accounts, ProfileKey(u)).pegBalance > U64_MAX - 3
  }

  /**
   * A profile's balance only grows: crediting is the only write to it (votes
   * +3, backfills +3 per vote, a passed quiz +1), and a failed instruction
   * writes nothing. The exception is the wrapping vote credit, which
   * `RewardWraps` excludes: at a balance of 2^64 - 1 a vote credits the
   * performer down to 2.
   */
  lemma ExecuteBalanceNeverFalls(c: Chain, ix: Instruction, u: Pubkey)
    requires Consistent(c) && ProfileKey(u) in c.accounts
    requires !RewardWraps(c, ix, u)
    ensures var d := Execute(c, ix).chain;
      && ProfileKey(u) in d.accounts
      && ProfileAt(d.accounts, ProfileKey(u)).pegBalance >= ProfileAt(c.accounts, ProfileKey(u)).pegBalance
  {
    ExecuteKeepsAddresses(c, ix);
  }

  /** No instruction of the run is a wrapping vote credit to `u`. */
  predicate NoRewardWraps(c: Chain, ixs: seq<Instruction>, u: Pubkey)
    decreases |ixs|
  {
    ixs == [] || (!RewardWraps(c, ixs[0], u) && NoRewardWraps(Execute(c, ixs[0]).chain, ixs[1..], u))
  }

  /** Over any run without a wrapping vote credit, an existing profile's balance never falls. */
  lemma {:induction false} RunBalanceNeverFalls(c: Chain, ixs: seq<Instruction>, u: Pubkey)
    requires Consistent(c) && ProfileKey(u) in c.accounts
    requires NoRewardWraps(c, ixs, u)
    ensures var d := Run(c, ixs);
      && ProfileKey(u) in d.accounts
      && ProfileAt(d.accounts, ProfileKey(u)).pegBalance >= ProfileAt(c.accounts, ProfileKey(u)).pegBalance
    decreases |ixs|
  {
    if ixs != [] {
      var d := Execute(c, ixs[0]).chain;
      ExecuteBalanceNeverFalls(c, ixs[0], u);
      ExecutePreserves(c, ixs[0]);
      RunBalanceNeverFalls(d, ixs[1..], u);
    }
  }

  // ------------------------------------------------------------ once only

  /** No instruction removes an account. */
  lemma ExecuteKeepsAddresses(c: Chain, ix: Instruction)
    ensures c.accounts.Keys <= Execute(c, ix).chain.accounts.Keys
  {
  }

  /** The votes by `voter` for `submission` that succeed along a run. */
  function SuccessfulVotes(c: Chain, ixs: seq<Instruction>, voter: Pubkey, submission: Pubkey): nat
    decreases |ixs|
  {
    if ixs == [] then 0
    else
      var step := Execute(c, ixs[0]);
      var counted := ixs[0].VoteIx? && ixs[0].voter == voter && ixs[0].votedFor == submission && step.status.Success?;
      (if counted then 1 else 0) + SuccessfulVotes(step.chain, ixs[1..], voter, submission)
  }

  /**
   * However many vote attempts the sequencer admits, at most one vote by a
   * voter for a submission succeeds, and none once its receipt exists.
   */
  lemma {:induction false} VoteAtMostOnce(c: Chain, ixs: seq<Instruction>, voter: Pubkey, submission: Pubkey)
    ensures SuccessfulVotes(c, ixs, voter, submission) <= (if HasVoted(c, voter, submission) then 0 else 1)
    ensures HasVoted(c, voter, submission) ==> HasVoted(Run(c, ixs), voter, submission)
    decreases |ixs|
  {
    if ixs != [] {
      var step := Execute(c, ixs[0]);
      ExecuteKeepsAddresses(c, ixs[0]);
      VoteAtMostOnce(step.chain, ixs[1..], voter, submission);
    }
  }

  /** The quiz attempts by `user` that succeed along a run while the version is `version`. */
  function SuccessfulAttempts(c: Chain, ixs: seq<Instruction>, user: Pubkey, version: U64): nat
    decreases |ixs|
  {
    if ixs == [] then 0
    else
      var step := Execute(c, ixs[0]);
      var counted := ixs[0].CompleteQuizIx? && ixs[0].participant == user && step.status.Success?
        && HasConfig(c.accounts) && ConfigVersion(c.accounts) == version;
      (if counted then 1 else 0) + SuccessfulAttempts(step.chain, ixs[1..], user, version)
  }

  /** At most one quiz attempt per user and version succeeds, and none once its result exists. */
  lemma {:induction false} QuizAtMostOncePerVersion(c: Chain, ixs: seq<Instruction>, user: Pubkey, version: U64)
    ensures SuccessfulAttempts(c, ixs, user, version) <= (if QuizStateKey(user, version) in c.accounts then 0 else 1)
    ensures QuizStateKey(user, version) in c.accounts ==> QuizStateKey(user, version) in Run(c, ixs).accounts
    decreases |ixs|
  {
    if ixs != [] {
      var step := Execute(c, ixs[0]);
      ExecuteKeepsAddresses(c, ixs[0]);
      QuizAtMostOncePerVersion(step.chain, ixs[1..], user, version);
    }
  }

  // ------------------------------------------------------------ the mint authority

  /** Only `transfer_mint_authority` touches the mint authority. */
  lemma OnlyTransferMovesAuthority(c: Chain, ix: Instruction)
    ensures !ix.TransferMintAuthorityIx? ==> Execute(c, ix).chain.mintAuthority == c.mintAuthority
    ensures Execute(c, ix).chain.mintAuthority == c.mintAuthority || Execute(c, ix).chain.mintAuthority == MintAuthorityKey()
  {
  }

  /** Once the program's address holds the mint, no run gives it back. */
  lemma {:induction false} MintAuthorityOneWay(c: Chain, ixs: seq<Instruction>)
    ensures Run(c, ixs).mintAuthority == c.mintAuthority || Run(c, ixs).mintAuthority == MintAuthorityKey()
    ensures c.mintAuthority == MintAuthorityKey() ==> Run(c, ixs).mintAuthority == MintAuthorityKey()
    decreases |ixs|
  {
    if ixs != [] {
      OnlyTransferMovesAuthority(c, ixs[0]);
      MintAuthorityOneWay(Execute(c, ixs[0]).chain, ixs[1..]);
    }
  }
}
