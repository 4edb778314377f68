/**
 * The program's interface: account records, the seed layouts of its derived
 * addresses, its declared error codes and the size of a submission account.
 *
 * A program-derived address is modelled by the list of seeds it is derived
 * from, so derivation is an injective constructor: equal addresses have equal
 * seeds. Keypair accounts (wallets, submission accounts) are `Wallet` keys.
 */
module ContestIdl {
  import Text

  /** A 32-byte public key; `Pubkey::default()` (all zero bytes) is 0. */
  type Pubkey = nat
  const DEFAULT_PUBKEY: Pubkey := 0

  const U64_MODULUS: nat := 0x1_0000_0000_0000_0000
  const U64_MAX: nat := U64_MODULUS - 1
  type U64 = x: nat | x < U64_MODULUS

  /** One seed: a literal byte tag, an account key, or a u64 in little-endian bytes. */
  datatype Seed = Literal(tag: string) | Key(key: Pubkey) | Le64(value: U64)

  datatype Address = Wallet(key: Pubkey) | Pda(seeds: seq<Seed>)

  const PROFILE_TAG := "profile"
  const QUIZ_CONFIG_TAG := "quiz_config"
  const QUIZ_STATE_TAG := "quiz_state"
  const MINT_AUTHORITY_TAG := "mint_authority"

  /** The kinds of record the program keeps, told apart by the shape of their address. */
  datatype Kind =
    | SubmissionKind
    | ReceiptKind
    | ProfileKind
    | QuizConfigKind
    | QuizStateKind
    | MintAuthorityKind
    | Unrelated

  function KindOf(a: Address): Kind {
    match a
    case Wallet(_) => SubmissionKind
    case Pda(seeds) =>
      if |seeds| == 2 && seeds[0] == Literal(PROFILE_TAG) && seeds[1].Key? then ProfileKind
      else if |seeds| == 2 && seeds[0].Key? && seeds[1].Key? then ReceiptKind
      else if seeds == [Literal(QUIZ_CONFIG_TAG)] then QuizConfigKind
      else if |seeds| == 3 && seeds[0] == Literal(QUIZ_STATE_TAG) && seeds[1].Key? && seeds[2].Le64? then QuizStateKind
      else if seeds == [Literal(MINT_AUTHORITY_TAG)] then MintAuthorityKind
      else Unrelated
  }

  /** A submission lives at the address of the keypair the client generated for it. */
  function SubmissionKey(k: Pubkey): (a: Address)
    ensures KindOf(a) == SubmissionKind
  {
    Wallet(k)
  }

  /** Seeds `["profile", user]`: the one profile of an identity, shared by every crediting path. */
  function ProfileKey(user: Pubkey): (a: Address)
    ensures KindOf(a) == ProfileKind
  {
    Pda([Literal(PROFILE_TAG), Key(user)])
  }

  /** Seeds `[user, submission]`, with no literal tag. */
  function ReceiptKey(voter: Pubkey, submission: Pubkey): (a: Address)
    ensures KindOf(a) == ReceiptKind
  {
    Pda([Key(voter), Key(submission)])
  }

  /** Seeds `["quiz_config"]`: a singleton. */
  function QuizConfigKey(): (a: Address)
    ensures KindOf(a) == QuizConfigKind
  {
    Pda([Literal(QUIZ_CONFIG_TAG)])
  }

  /** Seeds `["quiz_state", user, quiz_config.quiz_version]`. */
  function QuizStateKey(user: Pubkey, version: U64): (a: Address)
    ensures KindOf(a) == QuizStateKind
  {
    Pda([Literal(QUIZ_STATE_TAG), Key(user), Le64(version)])
  }

  /** Seeds `["mint_authority"]`: the address the program signs mints with. */
  function MintAuthorityKey(): (a: Address)
    ensures KindOf(a) == MintAuthorityKind
    ensures !a.Wallet?
  {
    Pda([Literal(MINT_AUTHORITY_TAG)])
  }

  /** The submission a receipt address was derived from. */
  function ReceiptTarget(a: Address): Pubkey
    requires KindOf(a) == ReceiptKind
  {
    a.seeds[1].key
  }

  /** The voter a receipt address was derived from. */
  function ReceiptVoter(a: Address): Pubkey
    requires KindOf(a) == ReceiptKind
  {
    a.seeds[0].key
  }

  /** Receipt addresses decode back to the pair they came from, in both directions. */
  lemma ReceiptKeyRoundTrip(a: Address, voter: Pubkey, submission: Pubkey)
    ensures ReceiptVoter(ReceiptKey(voter, submission)) == voter
    ensures ReceiptTarget(ReceiptKey(voter, submission)) == submission
    ensures KindOf(a) == ReceiptKind ==> ReceiptKey(ReceiptVoter(a), ReceiptTarget(a)) == a
  {
    if KindOf(a) == ReceiptKind {
      assert a.seeds == [a.seeds[0], a.seeds[1]];
    }
  }

  /**
   * Derivation is injective within a kind, and no two kinds share an address:
   * creating one record can never occupy the address of another.
   */
  lemma KeysAreDistinct(u: Pubkey, v: Pubkey, s: Pubkey, t: Pubkey, x: U64, y: U64)
    ensures ProfileKey(u) == ProfileKey(v) <==> u == v
    ensures ReceiptKey(u, s) == ReceiptKey(v, t) <==> u == v && s == t
    ensures QuizStateKey(u, x) == QuizStateKey(v, y) <==> u == v && x == y
    ensures ProfileKey(u) != ReceiptKey(v, s)
    ensures ReceiptKey(u, s) != SubmissionKey(t) && ProfileKey(u) != SubmissionKey(t)
    ensures QuizStateKey(u, x) != ProfileKey(v) && QuizStateKey(u, x) != ReceiptKey(v, s)
    ensures QuizConfigKey() != MintAuthorityKey() && QuizConfigKey() != ProfileKey(u)
    ensures MintAuthorityKey() != ProfileKey(u) && MintAuthorityKey() != ReceiptKey(u, s)
  {
    assert KindOf(ProfileKey(u)) != KindOf(ReceiptKey(v, s));
  }

  // ---------------------------------------------------------------- records

  datatype SubmissionAccount = SubmissionAccount(
    contestant: Pubkey,
    title: string,
    youtubeId: string,
    voteCount: U64)

  /** The IDL calls the balance `tarBalance`; the program source calls it `peg_balance`. */
  datatype UserProfile = UserProfile(authority: Pubkey, pegBalance: U64)

  datatype QuizConfig = QuizConfig(admin: Pubkey, quizVersion: U64)

  datatype QuizState = QuizState(
    user: Pubkey,
    quizVersion: U64,
    totalQuestions: U64,
    correctAnswers: U64,
    quizCompleted: bool,
    tokensAwarded: bool)

  /** What a program-owned account holds. A `VoteReceipt` carries no fields. */
  datatype Account =
    | Submission(submission: SubmissionAccount)
    | VoteReceipt
    | Profile(profile: UserProfile)
    | Config(config: QuizConfig)
    | Quiz(quiz: QuizState)

  /** The kind of address each record is stored at. */
  function KindOfAccount(acct: Account): Kind {
    match acct
    case Submission(_) => SubmissionKind
    case VoteReceipt => ReceiptKind
    case Profile(_) => ProfileKind
    case Config(_) => QuizConfigKind
    case Quiz(_) => QuizStateKind
  }

  /** A submission as the clients list it (`.all()`, `.fetch()`): its address and its decoded record. */
  datatype ListedSubmission = ListedSubmission(publicKey: Pubkey, account: SubmissionAccount)

  /** What `init_if_needed` hands the handler for an address with no account yet. */
  const FRESH_PROFILE := UserProfile(DEFAULT_PUBKEY, 0)

  // ---------------------------------------------------------------- errors

  /** The program's own errors, numbered by Anchor from 6000 in declaration order. */
  datatype ErrorCode = NotContestant | Overflow | Unauthorized

  function Code(e: ErrorCode): (n: nat)
    ensures 6000 <= n <= 6002
  {
    match e
    case NotContestant => 6000
    case Overflow => 6001
    case Unauthorized => 6002
  }

  lemma CodesAreDistinct(e: ErrorCode, f: ErrorCode)
    ensures Code(e) == Code(f) <==> e == f
  {
  }

  /**
   * Why an instruction failed: one of the program's own errors, or a failure
   * raised by the framework, the runtime or the token program on its behalf.
   */
  datatype Failure =
    | Program(code: ErrorCode)
    | AccountInUse            // `init` at an occupied address
    | AccountNotInitialized   // a required account does not exist
    | ConstraintRaw           // a `constraint = ...` without a custom error failed
    | AccountDidNotSerialize  // the new data does not fit the account's space
    | AccountDiscriminatorMismatch  // an account loaded again before its first write-back
    | Panicked                // `unwrap()` on a failed `checked_add`
    | MintAuthorityMismatch   // the token program refused: wrong mint authority

  // ---------------------------------------------------------------- space

  /** Discriminator, contestant key, title and YouTube id (each with a 4-byte length), vote count. */
  const SUBMISSION_SPACE: nat := 8 + 32 + (4 + 50) + (4 + 20) + 8

  /** Borsh size of a submission account's data, with its 8-byte discriminator. */
  function SubmissionSize(title: string, youtubeId: string): nat {
    8 + 32 + (4 + Text.Utf8Length(title)) + (4 + Text.Utf8Length(youtubeId)) + 8
  }

  predicate FitsSubmissionSpace(title: string, youtubeId: string) {
    SubmissionSize(title, youtubeId) <= SUBMISSION_SPACE
  }

  /**
   * The space is 126 bytes, and it bounds the two strings together: they fit
   * exactly when their UTF-8 lengths add up to at most 70 bytes. So the
   * per-field limits of 50 and 20 are sufficient but not necessary.
   */
  lemma SubmissionSpaceBound(title: string, youtubeId: string)
    ensures SUBMISSION_SPACE == 126
    ensures FitsSubmissionSpace(title, youtubeId)
      <==> Text.Utf8Length(title) + Text.Utf8Length(youtubeId) <= 70
    ensures Text.Utf8Length(title) <= 50 && Text.Utf8Length(youtubeId) <= 20
      ==> FitsSubmissionSpace(title, youtubeId)
  {
  }

  /** A 60-byte ASCII title with an empty YouTube id still fits. */
  lemma LongTitleFits(title: string)
    requires |title| == 60
    requires forall i :: 0 <= i < |title| ==> title[i] as int < 0x80
    ensures Text.Utf8Length(title) > 50
    ensures FitsSubmissionSpace(title, "")
  {
    Text.Utf8LengthOfAscii(title);
  }
}
