/**
 * The shared leaderboard widget: the entry record both boards fill in, the
 * address shortening, and what one row displays (the rank cell, the score
 * cell, the pass/fail cell and the "(You)" flag).
 */
module Leaderboard {
  import opened Wrappers
  import opened Text

  /** One row as the boards build it; `maxScore` and `passed` are the optional quiz fields. */
  datatype Entry = Entry(
    rank: int,
    address: string,
    fullAddress: string,
    entryLabel: string,  // `label`: the title, or the percentage on the quiz board
    score: nat,
    maxScore: Option<nat>,
    passed: Option<bool>)

  const SHORT_LENGTH: nat := 12
  const ELLIPSIS := "..."

  /** An address longer than 12 characters keeps its first four and last four around "...". */
  function ShortenAddress(address: string): (r: string)
    ensures |address| <= SHORT_LENGTH ==> r == address
    ensures |address| > SHORT_LENGTH ==>
      && |r| == 11
      && r[..4] == address[..4]
      && r[4..7] == ELLIPSIS
      && r[7..] == address[|address| - 4..]
    ensures |r| <= SHORT_LENGTH
  {
    if |address| <= SHORT_LENGTH then address
    else address[..4] + ELLIPSIS + address[|address| - 4..]
  }

  /** Shortening a shortened address changes nothing. */
  lemma ShortenIdempotent(address: string)
    ensures ShortenAddress(ShortenAddress(address)) == ShortenAddress(address)
  {
  }

  // ------------------------------------------------------------ one row

  const GOLD := "\U{1F947}"
  const SILVER := "\U{1F948}"
  const BRONZE := "\U{1F949}"

  /** The rank cell: a medal for ranks 1 to 3, the number above 3, nothing otherwise. */
  function RankCell(rank: int): string {
    if rank == 1 then GOLD
    else if rank == 2 then SILVER
    else if rank == 3 then BRONZE
    else if rank > 3 then DecimalString(rank)
    else ""
  }

  /** Every positive rank shows something, medals for the podium, and no two ranks look alike. */
  lemma RankCellDistinct(a: int, b: int)
    requires a >= 1 && b >= 1
    ensures RankCell(a) != []
    ensures (RankCell(a) == GOLD || RankCell(a) == SILVER || RankCell(a) == BRONZE) <==> a <= 3
    ensures RankCell(a) == RankCell(b) ==> a == b
  {
    if a > 3 {
      assert !IsDigit(GOLD[0]) && !IsDigit(SILVER[0]) && !IsDigit(BRONZE[0]);
      assert IsDigit(RankCell(a)[0]);
    }
    if b > 3 {
      assert IsDigit(RankCell(b)[0]);
    }
    if a > 3 && b > 3 && RankCell(a) == RankCell(b) {
      DecimalStringInjective(a, b);
    }
  }

  /** The score cell: "score/maxScore" when the board gives a maximum, the bare score otherwise. */
  function ScoreCell(e: Entry): (r: string)
    ensures r != []
  {
    match e.maxScore
    case Some(maximum) => DecimalString(e.score) + "/" + DecimalString(maximum)
    case None => DecimalString(e.score)
  }

  lemma {:induction false} SplitAtSlash(x: string, y: string, x': string, y': string)
    requires forall i :: 0 <= i < |x| ==> IsDigit(x[i])
    requires forall i :: 0 <= i < |x'| ==> IsDigit(x'[i])
    requires x + "/" + y == x' + "/" + y'
    ensures x == x' && y == y'
  {
    var s := x + "/" + y;
    assert forall i :: 0 <= i < |x| ==> s[i] == x[i];
    assert forall i :: 0 <= i < |x'| ==> s[i] == x'[i];
    assert s[|x|] == '/' && s[|x'|] == '/';
    assert |x| == |x'|;
    assert x == s[..|x|] == x';
    assert y == s[|x| + 1..] == y';
  }

  /** The cell has a '/' exactly when a maximum is given. */
  lemma ScoreCellSlash(e: Entry)
    ensures '/' in ScoreCell(e) <==> e.maxScore.Some?
  {
    var a := DecimalString(e.score);
    if e.maxScore.Some? {
      assert ScoreCell(e)[|a|] == '/';
    } else {
      assert forall i :: 0 <= i < |a| ==> a[i] != '/';
    }
  }

  /** The cell tells the score and the maximum back: two entries that show the same cell agree on both. */
  lemma ScoreCellFaithful(e: Entry, f: Entry)
    requires ScoreCell(e) == ScoreCell(f)
    ensures e.score == f.score && e.maxScore == f.maxScore
  {
    ScoreCellSlash(e);
    ScoreCellSlash(f);
    if e.maxScore.Some? && f.maxScore.Some? {
      SplitAtSlash(DecimalString(e.score), DecimalString(e.maxScore.value),
                   DecimalString(f.score), DecimalString(f.maxScore.value));
      DecimalStringInjective(e.score, f.score);
      DecimalStringInjective(e.maxScore.value, f.maxScore.value);
    } else if e.maxScore.None? && f.maxScore.None? {
      DecimalStringInjective(e.score, f.score);
    }
  }

  /** The status cell reads "Passed" only for an entry whose `passed` is true; a missing value reads "Failed". */
  function ShowsPassed(e: Entry): (r: bool)
    ensures r <==> e.passed == Some(true)
  {
    e.passed.GetOr(false)
  }

  /** A row is the viewer's when a non-empty current address is given and equals the row's full address. */
  function IsCurrentUser(currentUserAddress: Option<string>, e: Entry): (r: bool)
    ensures currentUserAddress == None || currentUserAddress == Some("") ==> !r
    ensures r ==> e.fullAddress == currentUserAddress.value
    ensures currentUserAddress.Some? && currentUserAddress.value != [] && e.fullAddress == currentUserAddress.value ==> r
  {
    currentUserAddress.Some? && currentUserAddress.value != [] && e.fullAddress == currentUserAddress.value
  }
}
