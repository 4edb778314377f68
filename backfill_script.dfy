/**
 * The administrator's backfill script: it fetches every submission once, then
 * walks the list, skipping submissions without votes and performers whose
 * profile balance already reaches `voteCount * 3`, and sends
 * `backfill_tokens` for the rest. A failed transaction is reported and the
 * walk goes on. The profile is fetched afresh for every submission, so it
 * sees what earlier iterations credited.
 */
module BackfillScript {
  import opened Wrappers
  import opened ContestIdl
  import opened ContestSpec
  import opened ContestProperties
  import opened ContestProgram

  /** What the script did with one entry. */
  datatype Outcome =
    | SkippedNoVotes
    | SkippedCredited(balance: U64)
    | Attempted(performer: Pubkey, status: Status)

  datatype Report = Report(outcomes: seq<Outcome>, chain: Chain)

  /** The balance the script reads for a performer; `None` when the profile fetch fails. */
  function FetchedBalance(c: Chain, performer: Pubkey): Option<U64> {
    var k := ProfileKey(performer);
    if k in c.accounts && c.accounts[k].Profile? then Some(c.accounts[k].profile.pegBalance) else None
  }

  /** The script's guard: a performer whose balance reaches `votes * 3` counts as already credited. */
  predicate AlreadyCredited(c: Chain, performer: Pubkey, votes: U64) {
    var balance := FetchedBalance(c, performer);
    balance.Some? && balance.value >= votes as int * 3
  }

  /** One iteration, against the chain as it is at that moment. */
  function Visit(c: Chain, entry: ListedSubmission): Report {
    var votes := entry.account.voteCount;
    var performer := entry.account.contestant;
    if votes == 0 then Report([SkippedNoVotes], c)
    else if AlreadyCredited(c, performer, votes) then Report([SkippedCredited(FetchedBalance(c, performer).value)], c)
    else
      var step := BackfillTokensStep(c, entry.publicKey, performer);
      Report([Attempted(performer, step.status)], step.chain)
  }

  /** The whole walk over `fetched`, in order. */
  function Backfill(c: Chain, fetched: seq<ListedSubmission>): (r: Report)
    ensures |r.outcomes| == |fetched|
    decreases |fetched|
  {
    if fetched == [] then Report([], c)
    else
      var before := Backfill(c, fetched[..|fetched| - 1]);
      var last := Visit(before.chain, fetched[|fetched| - 1]);
      assert |last.outcomes| == 1;
      Report(before.outcomes + last.outcomes, last.chain)
  }

  /** The script's loop, sending each backfill through the ledger. */
  method RunBackfill(ledger: Ledger, fetched: seq<ListedSubmission>) returns (outcomes: seq<Outcome>)
    requires ledger.Valid()
    modifies ledger
    ensures ledger.Valid()
    ensures Report(outcomes, ledger.State()) == Backfill(old(ledger.State()), fetched)
  {
    outcomes := [];
    var i := 0;
    while i < |fetched|
      invariant 0 <= i <= |fetched|
      invariant ledger.Valid()
      invariant Report(outcomes, ledger.State()) == Backfill(old(ledger.State()), fetched[..i])
    {
      var entry := fetched[i];
      var votes := entry.account.voteCount;
      var performer := entry.account.contestant;
      var profileKey := ProfileKey(performer);
      if votes == 0 {
        outcomes := outcomes + [SkippedNoVotes];
      } else if profileKey in ledger.accounts && ledger.accounts[profileKey].Profile?
             && ledger.accounts[profileKey].profile.pegBalance >= votes as int * 3 {
        outcomes := outcomes + [SkippedCredited(ledger.accounts[profileKey].profile.pegBalance)];
      } else {
        var status := ledger.BackfillTokens(entry.publicKey, performer);
        outcomes := outcomes + [Attempted(performer, status)];
      }
      assert fetched[..i + 1][..i] == fetched[..i];
      i := i + 1;
    }
    assert fetched[..|fetched|] == fetched;
  }

  // ------------------------------------------------------------ properties

  /**
   * What the script reports for one entry, given the chain it meets: no votes
   * means skipped, a credited performer means skipped, and otherwise the
   * backfill is sent with the entry's contestant as the performer.
   */
  ghost predicate VisitedAsScripted(o: Outcome, entry: ListedSubmission, now: Chain) {
    var votes := entry.account.voteCount;
    var performer := entry.account.contestant;
    && (o == SkippedNoVotes <==> votes == 0)
    && (o.SkippedCredited? <==> votes > 0 && AlreadyCredited(now, performer, votes))
    && (o.Attempted? <==> votes > 0 && !AlreadyCredited(now, performer, votes))
    && (o.Attempted? ==> o.performer == performer && o.status == BackfillTokensStep(now, entry.publicKey, performer).status)
  }

  lemma VisitIsScripted(now: Chain, entry: ListedSubmission)
    ensures VisitedAsScripted(Visit(now, entry).outcomes[0], entry, now)
  {
  }

  /** Outcome i is what visiting entry i yields against the chain the first i entries left. */
  lemma {:induction false} BackfillOutcomeAt(c: Chain, fetched: seq<ListedSubmission>)
    ensures forall i | 0 <= i < |fetched| ::
      Backfill(c, fetched).outcomes[i] == Visit(Backfill(c, fetched[..i]).chain, fetched[i]).outcomes[0]
    decreases |fetched|
  {
    if fetched != [] {
      var n := |fetched| - 1;
      var init := fetched[..n];
      BackfillOutcomeAt(c, init);
      forall i | 0 <= i < |fetched|
        ensures Backfill(c, fetched).outcomes[i] == Visit(Backfill(c, fetched[..i]).chain, fetched[i]).outcomes[0]
      {
        if i < n {
          EarlierOutcome(c, fetched, i);
        } else {
          assert fetched[..i] == init;
        }
      }
    }
  }

  /** Appending entries leaves the earlier outcomes and the chain they met as they were. */
  lemma EarlierOutcome(c: Chain, fetched: seq<ListedSubmission>, i: nat)
    requires i < |fetched| - 1
    ensures var init := fetched[..|fetched| - 1];
      && Backfill(c, fetched).outcomes[i] == Backfill(c, init).outcomes[i]
      && fetched[..i] == init[..i] && fetched[i] == init[i]
  {
  }

  /**
   * Every fetched entry gets exactly one outcome, in order, whatever failed
   * before it, and each outcome follows the script's rules against the
   * chain as the earlier entries left it.
   */
  lemma BackfillVisitsEach(c: Chain, fetched: seq<ListedSubmission>)
    ensures |Backfill(c, fetched).outcomes| == |fetched|
    ensures forall i | 0 <= i < |fetched| ::
      VisitedAsScripted(Backfill(c, fetched).outcomes[i], fetched[i], Backfill(c, fetched[..i]).chain)
  {
    BackfillOutcomeAt(c, fetched);
    forall i | 0 <= i < |fetched|
      ensures VisitedAsScripted(Backfill(c, fetched).outcomes[i], fetched[i], Backfill(c, fetched[..i]).chain)
    {
      VisitIsScripted(Backfill(c, fetched[..i]).chain, fetched[i]);
    }
  }

  /** A failed backfill leaves the chain as it was, so the rest of the walk sees no partial effect. */
  lemma FailedVisitChangesNothing(c: Chain, entry: ListedSubmission)
    requires var o := Visit(c, entry).outcomes[0]; !(o.Attempted? && o.status == Success)
    ensures Visit(c, entry).chain == c
  {
  }

  /** When every performer is already credited, the walk sends nothing and changes nothing. */
  lemma {:induction false} BackfillOfCreditedIsNoOp(c: Chain, fetched: seq<ListedSubmission>)
    requires forall i | 0 <= i < |fetched| :: AlreadyCredited(c, fetched[i].account.contestant, fetched[i].account.voteCount)
    ensures Backfill(c, fetched).chain == c
    ensures forall i | 0 <= i < |fetched| :: !Backfill(c, fetched).outcomes[i].Attempted?
    decreases |fetched|
  {
    if fetched != [] {
      var n := |fetched| - 1;
      BackfillOfCreditedIsNoOp(c, fetched[..n]);
      assert forall i | 0 <= i < n :: fetched[..n][i] == fetched[i];
    }
  }

  /**
   * For a single submission the guard makes a second run skip: after a
   * successful backfill the balance reaches `votes * 3` (when that product
   * does not wrap), so the second run leaves the chain alone.
   */
  lemma RerunSkipsBackfilled(c: Chain, entry: ListedSubmission)
    requires entry.account.voteCount * 3 < U64_MODULUS
    requires Backfill(c, [entry]).outcomes == [Attempted(entry.account.contestant, Success)]
    requires HasSubmission(c.accounts, entry.publicKey) && SubmissionAt(c.accounts, entry.publicKey) == entry.account
    ensures var once := Backfill(c, [entry]).chain;
      && Backfill(once, [entry]).chain == once
      && Backfill(once, [entry]).outcomes[0].SkippedCredited?
  {
    assert [entry][..0] == [];
  }

  /**
   * The guard compares one submission's `votes * 3` with the performer's
   * whole balance, so a performer with two voted submissions and no earlier
   * credit receives the reward for the first only: 15 instead of 30 for two
   * submissions of five votes each.
   */
  lemma TwoSubmissionsUnderCredit(c: Chain, s1: Pubkey, s2: Pubkey, performer: Pubkey)
    requires c.mintAuthority == MintAuthorityKey()
    requires s1 != s2
    requires HasSubmission(c.accounts, s1) && HasSubmission(c.accounts, s2)
    requires SubmissionAt(c.accounts, s1).contestant == performer && SubmissionAt(c.accounts, s1).voteCount == 5
    requires SubmissionAt(c.accounts, s2).contestant == performer && SubmissionAt(c.accounts, s2).voteCount == 5
    requires ProfileAt(c.accounts, ProfileKey(performer)).pegBalance == 0
    ensures var fetched := [ListedSubmission(s1, SubmissionAt(c.accounts, s1)), ListedSubmission(s2, SubmissionAt(c.accounts, s2))];
            var report := Backfill(c, fetched);
      && report.outcomes == [Attempted(performer, Success), SkippedCredited(15)]
      && ProfileAt(report.chain.accounts, ProfileKey(performer)).pegBalance == 15
  {
    var e1 := ListedSubmission(s1, SubmissionAt(c.accounts, s1));
    var e2 := ListedSubmission(s2, SubmissionAt(c.accounts, s2));
    var fetched := [e1, e2];
    assert fetched[..1] == [e1];
    assert [e1][..0] == [];
    var first := Visit(c, e1);
    assert !AlreadyCredited(c, performer, 5);
    assert first.outcomes == [Attempted(performer, Success)];
    assert Backfill(c, [e1]) == first;
    assert FetchedBalance(first.chain, performer) == Some(15);
    var second := Visit(first.chain, e2);
    assert second == Report([SkippedCredited(15)], first.chain);
  }
}
