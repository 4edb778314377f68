/**
 * The contest page: the listing it fetches and sorts in place, the leaderboard
 * it derives from the listing, the requests its buttons send, the gating of
 * the vote and edit buttons on each card, and how it reads a failed vote.
 *
 * The base58 rendering of a public key is foreign code and is a parameter.
 */
module ContestClient {
  import opened Wrappers
  import opened ContestIdl
  import opened ContestSpec
  import opened ContestOutcomes
  import opened Ranking
  import opened Leaderboard

  function Votes(e: ListedSubmission): nat {
    e.account.voteCount
  }

  predicate HasVotes(e: ListedSubmission) {
    e.account.voteCount > 0
  }

  /** The order the page shows the listing in: most votes first, ties in fetch order. */
  function ByVotes(listed: seq<ListedSubmission>): seq<ListedSubmission> {
    SortDesc(listed, Votes)
  }

  /** The listing shown is the fetched one, reordered and nothing else, with vote counts non-increasing. */
  lemma ByVotesIsSorted(listed: seq<ListedSubmission>)
    ensures multiset(ByVotes(listed)) == multiset(listed)
    ensures forall i, j :: 0 <= i < j < |listed| ==> ByVotes(listed)[i].account.voteCount >= ByVotes(listed)[j].account.voteCount
  {
    SortDescSorted(listed, Votes);
  }

  /** `allSubmissions.sort(...)` on the fetched array, with the comparator `b.voteCount.cmp(a.voteCount)`. */
  method SortByVotes(a: array<ListedSubmission>)
    modifies a
    ensures a[..] == ByVotes(old(a[..]))
  {
    SortInPlace(a, Votes);
  }

  /** A stable in-place sort by `key`, highest first: insertion sort, shifting lower keys right. */
  method SortInPlace<T>(a: array<T>, key: T -> nat)
    modifies a
    ensures a[..] == SortDesc(old(a[..]), key)
  {
    ghost var s := a[..];
    var i := 0;
    while i < a.Length
      invariant 0 <= i <= a.Length
      invariant a[..i] == SortDesc(s[..i], key)
      invariant a[i..] == s[i..]
    {
      assert a[i] == a[i..][0];
      assert a[i + 1..] == a[i..][1..];
      InsertLast(a, i, key);
      SortDescSnoc(s, key, i);
      i := i + 1;
    }
    assert s[..a.Length] == s;
  }

  /** Moves `a[i]` back into the sorted prefix `a[..i]`, behind every key at least its own. */
  method InsertLast<T>(a: array<T>, i: nat, key: T -> nat)
    requires i < a.Length
    modifies a
    ensures a[..i + 1] == Insert(old(a[..i]), old(a[i]), key)
    ensures a[i + 1..] == old(a[i + 1..])
  {
    ghost var sorted := a[..i];
    var x := a[i];
    var j := i;
    while j > 0 && key(a[j - 1]) < key(x)
      invariant 0 <= j <= i
      invariant forall t :: 0 <= t < j ==> a[t] == sorted[t]
      invariant forall t :: j < t <= i ==> a[t] == sorted[t - 1]
      invariant forall t :: i < t < a.Length ==> a[t] == old(a[t])
      invariant forall t :: j <= t < i ==> key(sorted[t]) < key(x)
    {
      a[j] := a[j - 1];
      j := j - 1;
    }
    a[j] := x;
    InsertPlaced(sorted, x, key, j, a[..i + 1]);
  }

  // ------------------------------------------------------------ leaderboard

  function ContestRow(e: ListedSubmission, rank: nat, base58: Pubkey -> string): Entry {
    var owner := base58(e.account.contestant);
    Entry(rank, ShortenAddress(owner), owner, e.account.title, e.account.voteCount, None, None)
  }

  /** The row is some listed submission's row at that rank. */
  predicate RowOf(listed: seq<ListedSubmission>, row: Entry, rank: nat, base58: Pubkey -> string) {
    exists e :: e in listed && row == ContestRow(e, rank, base58)
  }

  /** `leaderboardEntries`: voted submissions, most votes first, the first ten, ranked from 1. */
  function ContestLeaderboard(listed: seq<ListedSubmission>, base58: Pubkey -> string): seq<Entry> {
    Ranked(Top(listed, HasVotes, Votes), (e: ListedSubmission, rank: nat) => ContestRow(e, rank, base58))
  }

  /** Row i of the board is the i-th submission of the top, ranked i + 1. */
  lemma ContestRows(listed: seq<ListedSubmission>, base58: Pubkey -> string)
    ensures var top := Top(listed, HasVotes, Votes); var r := ContestLeaderboard(listed, base58);
      |r| == |top| && forall i :: 0 <= i < |r| ==> r[i] == ContestRow(top[i], i + 1, base58)
  {
  }

  /**
   * The board has a row for each of the (at most ten) best voted submissions:
   * row i has rank i + 1 and a listed submission's vote count as its score,
   * and no row has zero votes.
   */
  lemma ContestLeaderboardRanks(listed: seq<ListedSubmission>, base58: Pubkey -> string)
    ensures var r := ContestLeaderboard(listed, base58);
      && |r| == Min(BOARD_SIZE, |Filter(listed, HasVotes)|)
      && (forall i :: 0 <= i < |r| ==> r[i].rank == i + 1 && r[i].score > 0 && r[i].maxScore == None)
      && (forall i :: 0 <= i < |r| ==> RowOf(listed, r[i], i + 1, base58))
  {
    var top := Top(listed, HasVotes, Votes);
    var r := ContestLeaderboard(listed, base58);
    TopShape(listed, HasVotes, Votes);
    ContestRows(listed, base58);
    forall i | 0 <= i < |r|
      ensures RowOf(listed, r[i], i + 1, base58)
    {
      assert top[i] in listed && r[i] == ContestRow(top[i], i + 1, base58);
    }
  }

  /** Scores never increase down the board. */
  lemma ContestLeaderboardOrder(listed: seq<ListedSubmission>, base58: Pubkey -> string)
    ensures var r := ContestLeaderboard(listed, base58);
      forall i, j :: 0 <= i < j < |r| ==> r[i].score >= r[j].score
  {
    var top := Top(listed, HasVotes, Votes);
    TopShape(listed, HasVotes, Votes);
    ContestRows(listed, base58);
    assert forall i :: 0 <= i < |top| ==> Votes(top[i]) == top[i].account.voteCount;
  }

  /** A voted submission without a row sits below the last row of a full board. */
  lemma ContestLeaderboardComplete(listed: seq<ListedSubmission>, base58: Pubkey -> string, e: ListedSubmission)
    requires e in listed && HasVotes(e)
    ensures var r := ContestLeaderboard(listed, base58);
      || (exists i :: 0 <= i < |r| && r[i] == ContestRow(e, i + 1, base58))
      || (|r| == BOARD_SIZE && e.account.voteCount <= r[|r| - 1].score)
  {
    var top := Top(listed, HasVotes, Votes);
    var r := ContestLeaderboard(listed, base58);
    TopComplete(listed, HasVotes, Votes, e);
    ContestRows(listed, base58);
    if e in top {
      var i :| 0 <= i < |top| && top[i] == e;
      assert r[i] == ContestRow(e, i + 1, base58);
    }
  }

  // ------------------------------------------------------------ requests

  /** The listing agrees with the chain: every listed submission is stored there with the listed data. */
  predicate Current(c: Chain, listed: seq<ListedSubmission>) {
    forall e | e in listed :: HasSubmission(c.accounts, e.publicKey) && SubmissionAt(c.accounts, e.publicKey) == e.account
  }

  /** `submissions.find(...)`: the first listed submission at address `k`. */
  function FindListed(listed: seq<ListedSubmission>, k: Pubkey): (r: Option<ListedSubmission>)
    ensures r.None? <==> forall e | e in listed :: e.publicKey != k
    ensures r.Some? ==> r.value in listed && r.value.publicKey == k
    ensures r.Some? ==> exists i :: 0 <= i < |listed| && listed[i] == r.value && forall j :: 0 <= j < i ==> listed[j].publicKey != k
  {
    if listed == [] then None
    else if listed[0].publicKey == k then Some(listed[0])
    else
      var r := FindListed(listed[1..], k);
      assert forall e | e in listed :: e == listed[0] || e in listed[1..];
      if r.Some? then
        assert exists i :: 0 <= i < |listed| && listed[i] == r.value && forall j :: 0 <= j < i ==> listed[j].publicKey != k by {
          var i :| 0 <= i < |listed[1..]| && listed[1..][i] == r.value && forall j :: 0 <= j < i ==> listed[1..][j].publicKey != k;
          assert listed[i + 1] == r.value;
          assert forall j :: 1 <= j < i + 1 ==> listed[j] == listed[1..][j - 1];
        }
        r
      else r
  }

  /** `handleVote`: nothing without a wallet or for an unlisted submission; otherwise the listed contestant is the performer. */
  function VoteRequest(wallet: Option<Pubkey>, listed: seq<ListedSubmission>, k: Pubkey): (r: Option<Instruction>)
    ensures r.Some? <==> wallet.Some? && exists e :: e in listed && e.publicKey == k
    ensures r.Some? ==> r.value.VoteIx? && r.value.voter == wallet.value && r.value.votedFor == k
    ensures r.Some? ==> exists e :: e in listed && e.publicKey == k && r.value.performer == e.account.contestant
  {
    if wallet.None? then None
    else
      match FindListed(listed, k)
      case None => None
      case Some(e) => Some(VoteIx(wallet.value, k, e.account.contestant))
  }

  /** The vote handler's reading of an error: "already in use", or the hex code 0x1771, means "already voted". */
  predicate SaysAlreadyVoted(f: Failure) {
    f == AccountInUse || (f.Program? && Code(f.code) == 0x1771)
  }

  /**
   * A vote sent from a current listing never trips the performer constraint
   * or a missing submission; when it fails, the page says "already voted"
   * exactly when the wallet had voted for that submission before.
   */
  lemma VoteRequestOutcome(c: Chain, wallet: Option<Pubkey>, listed: seq<ListedSubmission>, k: Pubkey)
    requires Current(c, listed)
    requires VoteRequest(wallet, listed, k).Some?
    ensures var status := Execute(c, VoteRequest(wallet, listed, k).value).status;
      && (status.Failed? ==> status.failure in {AccountInUse, AccountDiscriminatorMismatch, Panicked, MintAuthorityMismatch})
      && (status.Failed? ==> (SaysAlreadyVoted(status.failure) <==> HasVoted(c, wallet.value, k)))
      && (status == Success <==>
            !HasVoted(c, wallet.value, k) && !FirstSelfVote(c, wallet.value, SubmissionAt(c.accounts, k).contestant)
            && SubmissionAt(c.accounts, k).voteCount < U64_MAX
            && c.mintAuthority == MintAuthorityKey())
  {
    var ix := VoteRequest(wallet, listed, k).value;
    var e :| e in listed && e.publicKey == k && ix.performer == e.account.contestant;
    assert HasSubmission(c.accounts, k) && SubmissionAt(c.accounts, k) == e.account;
    VoteOutcome(c, wallet.value, k, ix.performer);
  }

  /**
   * Once a contestant has a profile, the program itself accepts their vote for
   * their own submission; only the page's button stops it.
   */
  lemma SelfVoteAccepted(c: Chain, k: Pubkey)
    requires HasSubmission(c.accounts, k) && SubmissionAt(c.accounts, k).voteCount < U64_MAX
    requires c.mintAuthority == MintAuthorityKey()
    requires var owner := SubmissionAt(c.accounts, k).contestant; !HasVoted(c, owner, k) && ProfileKey(owner) in c.accounts
    ensures var owner := SubmissionAt(c.accounts, k).contestant; VoteStep(c, owner, k, owner).status == Success
  {
    var owner := SubmissionAt(c.accounts, k).contestant;
    VoteOutcome(c, owner, k, owner);
  }

  /**
   * A contestant without a profile cannot vote for their own submission: the
   * profile is loaded twice at one address and the second load fails, leaving
   * the chain unchanged.
   */
  lemma FirstSelfVoteFails(c: Chain, k: Pubkey)
    requires HasSubmission(c.accounts, k)
    requires var owner := SubmissionAt(c.accounts, k).contestant; !HasVoted(c, owner, k) && ProfileKey(owner) !in c.accounts
    ensures var owner := SubmissionAt(c.accounts, k).contestant;
      VoteStep(c, owner, k, owner) == Step(Failed(AccountDiscriminatorMismatch), c)
  {
  }

  /** `handleUpdateSubmission`: a cancelled or empty prompt answer cancels the update. */
  function UpdateRequest(wallet: Option<Pubkey>, k: Pubkey, newTitle: Option<string>, newYoutubeId: Option<string>): (r: Option<Instruction>)
    ensures r.Some? <==> wallet.Some? && newTitle.GetOr("") != [] && newYoutubeId.GetOr("") != []
    ensures r.Some? ==> r.value == UpdateSubmissionIx(wallet.value, k, newTitle.value, newYoutubeId.value)
  {
    if wallet.None? || newTitle.GetOr("") == [] || newYoutubeId.GetOr("") == [] then None
    else Some(UpdateSubmissionIx(wallet.value, k, newTitle.value, newYoutubeId.value))
  }

  /**
   * The page checks neither ownership nor length before sending an update:
   * the program decides, accepting exactly the owner's edit that fits the account.
   */
  lemma UpdateRequestOutcome(c: Chain, wallet: Option<Pubkey>, k: Pubkey, newTitle: Option<string>, newYoutubeId: Option<string>)
    requires UpdateRequest(wallet, k, newTitle, newYoutubeId).Some?
    ensures Execute(c, UpdateRequest(wallet, k, newTitle, newYoutubeId).value).status == Success <==>
      && HasSubmission(c.accounts, k)
      && SubmissionAt(c.accounts, k).contestant == wallet.value
      && FitsSubmissionSpace(newTitle.value, newYoutubeId.value)
  {
    UpdateSubmissionOutcome(c, wallet.value, k, newTitle.value, newYoutubeId.value);
  }

  /** The submit button is enabled only when not loading and both fields are filled in. */
  predicate CreateEnabled(loading: bool, title: string, youtubeId: string) {
    !loading && title != [] && youtubeId != []
  }

  /** `handleCreateSubmission`: with a wallet, a create at a freshly generated keypair address. */
  function CreateRequest(wallet: Option<Pubkey>, newKey: Pubkey, title: string, youtubeId: string): (r: Option<Instruction>)
    ensures r.Some? <==> wallet.Some?
    ensures r.Some? ==> r.value == CreateSubmissionIx(wallet.value, newKey, title, youtubeId)
  {
    if wallet.None? then None else Some(CreateSubmissionIx(wallet.value, newKey, title, youtubeId))
  }

  /**
   * A create from the enabled form at an unused address succeeds exactly when
   * the title and id fit the account: the form checks that they are not empty,
   * not their length.
   */
  lemma CreateRequestOutcome(c: Chain, loading: bool, wallet: Option<Pubkey>, newKey: Pubkey, title: string, youtubeId: string)
    requires CreateEnabled(loading, title, youtubeId) && wallet.Some?
    requires SubmissionKey(newKey) !in c.accounts
    ensures var step := Execute(c, CreateRequest(wallet, newKey, title, youtubeId).value);
      && (step.status == Success <==> FitsSubmissionSpace(title, youtubeId))
      && (step.status == Success ==> SubmissionAt(step.chain.accounts, newKey) == SubmissionAccount(wallet.value, title, youtubeId, 0))
  {
    CreateSubmissionOutcome(c, wallet.value, newKey, title, youtubeId);
  }

  // ------------------------------------------------------------ card gating

  /** `isOwner`: a wallet is connected and it is the submission's contestant. */
  predicate IsOwner(connected: Option<Pubkey>, e: ListedSubmission) {
    connected == Some(e.account.contestant)
  }

  predicate VoteEnabled(loading: bool, connected: Option<Pubkey>, e: ListedSubmission) {
    !loading && !IsOwner(connected, e)
  }

  predicate EditEnabled(loading: bool, connected: Option<Pubkey>, e: ListedSubmission) {
    !loading && IsOwner(connected, e)
  }

  /**
   * A card never offers both buttons, and when not loading it offers exactly
   * one; an enabled edit, sent from a current listing, passes the program's
   * contestant check, and an enabled vote never comes from the contestant.
   */
  lemma CardGating(c: Chain, loading: bool, connected: Option<Pubkey>, listed: seq<ListedSubmission>, e: ListedSubmission, title: string, youtubeId: string)
    requires Current(c, listed) && e in listed
    ensures !(VoteEnabled(loading, connected, e) && EditEnabled(loading, connected, e))
    ensures !loading ==> (VoteEnabled(loading, connected, e) <==> !EditEnabled(loading, connected, e))
    ensures VoteEnabled(loading, connected, e) && connected.Some? ==> connected.value != SubmissionAt(c.accounts, e.publicKey).contestant
    ensures EditEnabled(loading, connected, e) ==>
      UpdateSubmissionStep(c, connected.value, e.publicKey, title, youtubeId).status != Failed(Program(NotContestant))
  {
    UpdateSubmissionOutcome(c, connected.GetOr(0), e.publicKey, title, youtubeId);
  }
}
