/**
 * The quiz page: the fixed five questions, the answers kept in the page,
 * the score and the pass rule it computes, the navigation between questions,
 * the completion request it sends, how it reads a failure, the addresses it
 * looks the quiz up at, and the quiz leaderboard.
 */
module QuizClient {
  import opened Wrappers
  import opened Text
  import opened ContestIdl
  import opened ContestSpec
  import opened ContestProperties
  import opened ContestOutcomes
  import opened Ranking
  import opened Leaderboard

  /** A question as scoring sees it: its id, how many options it offers and which one is right. */
  datatype Question = Question(id: nat, optionCount: nat, correctIndex: nat)

  const QUESTIONS: seq<Question> := [
    Question(1, 4, 1),
    Question(2, 4, 1),
    Question(3, 4, 2),
    Question(4, 4, 1),
    Question(5, 4, 1)
  ]

  /** The questions' ids. */
  function QuestionIds(): set<nat> {
    set q | q in QUESTIONS :: q.id
  }

  /** `localAnswers`: question id to the index of the saved option. */
  type Answers = map<nat, nat>

  predicate AnsweredCorrectly(q: Question, answers: Answers) {
    q.id in answers && answers[q.id] == q.correctIndex
  }

  /** The number of questions among `qs` whose saved answer is the right one. */
  function CountCorrect(qs: seq<Question>, answers: Answers): (n: nat)
    ensures n <= |qs|
    decreases |qs|
  {
    if qs == [] then 0
    else CountCorrect(qs[..|qs| - 1], answers) + (if AnsweredCorrectly(qs[|qs| - 1], answers) then 1 else 0)
  }

  /** Full marks exactly when every question is answered correctly; zero exactly when none is. */
  lemma {:induction false} CountCorrectExtremes(qs: seq<Question>, answers: Answers)
    ensures CountCorrect(qs, answers) == |qs| <==> forall i :: 0 <= i < |qs| ==> AnsweredCorrectly(qs[i], answers)
    ensures CountCorrect(qs, answers) == 0 <==> forall i :: 0 <= i < |qs| ==> !AnsweredCorrectly(qs[i], answers)
    decreases |qs|
  {
    if qs != [] {
      var n := |qs| - 1;
      CountCorrectExtremes(qs[..n], answers);
      assert forall i :: 0 <= i < n ==> qs[..n][i] == qs[i];
    }
  }

  /** `calculateScore`: one pass over the questions, counting right answers. */
  method CalculateScore(answers: Answers) returns (correct: nat, total: nat)
    ensures correct == CountCorrect(QUESTIONS, answers)
    ensures total == |QUESTIONS| && correct <= total
  {
    correct := 0;
    var i := 0;
    while i < |QUESTIONS|
      invariant 0 <= i <= |QUESTIONS|
      invariant correct == CountCorrect(QUESTIONS[..i], answers)
    {
      var q := QUESTIONS[i];
      if q.id in answers && answers[q.id] == q.correctIndex {
        correct := correct + 1;
      }
      assert QUESTIONS[..i + 1][..i] == QUESTIONS[..i];
      i := i + 1;
    }
    assert QUESTIONS[..i] == QUESTIONS;
    total := |QUESTIONS|;
  }

  // ------------------------------------------------------------ the pass rule

  /** What `Math.round((correct / total) * 100)` yields: a whole number, NaN for 0/0, Infinity for n/0. */
  datatype Percent = Finite(value: nat) | NotANumber | Infinite

  /** `Math.round` rounds halves up: the percentage plus one half, rounded down. */
  function Percentage(correct: nat, total: nat): Percent {
    if total > 0 then Finite((200 * correct + total) / (2 * total))
    else if correct == 0 then NotANumber
    else Infinite
  }

  /** `percentage >= 80`, which is false for NaN and true for Infinity. */
  predicate ClientPasses(correct: nat, total: nat) {
    match Percentage(correct, total)
    case Finite(p) => p >= 80
    case NotANumber => false
    case Infinite => true
  }

  /** With questions to score, the rounded rule is 200·correct ≥ 159·total: 79.5% rounds up to a pass. */
  lemma ClientPassRule(correct: nat, total: nat)
    requires total > 0
    ensures ClientPasses(correct, total) <==> 200 * correct >= 159 * total
  {
    DivAtLeast(200 * correct + total, 2 * total, 80);
  }

  /** A quotient reaches k exactly when the dividend reaches k times the divisor. */
  lemma DivAtLeast(n: nat, d: nat, k: nat)
    requires d > 0
    ensures n / d >= k <==> n >= k * d
  {
    var q := n / d;
    assert n == q * d + n % d;
    if q >= k {
      MulMonotone(k, q, d);
    } else {
      MulMonotone(q + 1, k, d);
    }
  }

  lemma MulMonotone(a: nat, b: nat, d: nat)
    requires a <= b
    ensures a * d <= b * d
  {
    assert b * d == a * d + (b - a) * d;
  }

  /**
   * With the five fixed questions the page, its "4/5" hint and the documented
   * 80% rule agree: a score passes exactly when it is at least four.
   */
  lemma FixedQuizPassMark(correct: nat)
    requires correct <= |QUESTIONS|
    ensures ClientPasses(correct, |QUESTIONS|) <==> correct >= 4
    ensures ClientPasses(correct, |QUESTIONS|) <==> QuizPasses(|QUESTIONS|, correct)
  {
    ClientPassRule(correct, |QUESTIONS|);
  }

  /** The rounding is looser than 80% in general: 159 of 200 shows as a pass while it is 79.5%. */
  lemma RoundingAdmitsBelowEighty()
    ensures ClientPasses(159, 200) && !QuizPasses(200, 159)
  {
    ClientPassRule(159, 200);
  }

  // ------------------------------------------------------------ the page's state

  /** `answeredCount === totalQuestions`, where `answeredCount` counts the keys of `localAnswers`. */
  predicate AllAnswered(answers: Answers) {
    |answers.Keys| == |QUESTIONS|
  }

  lemma {:induction false} SubsetOfSameSize(a: set<nat>, b: set<nat>)
    requires a <= b && |a| == |b|
    ensures a == b
  {
    if a != b {
      var x :| x in b && x !in a;
      assert a <= b - {x};
      SubsetCard(a, b - {x});
    }
  }

  lemma {:induction false} SubsetCard(a: set<nat>, b: set<nat>)
    requires a <= b
    ensures |a| <= |b|
    decreases |b|
  {
    if a != {} {
      var x :| x in a;
      SubsetCard(a - {x}, b - {x});
    }
  }

  /**
   * When every saved answer belongs to one of the questions, counting keys is
   * the same as every question having an answer.
   */
  lemma AllAnsweredMeansEveryQuestion(answers: Answers)
    requires answers.Keys <= QuestionIds()
    ensures AllAnswered(answers) <==> forall q | q in QUESTIONS :: q.id in answers
  {
    var ids := QuestionIds();
    assert QUESTIONS[0].id == 1 && QUESTIONS[1].id == 2 && QUESTIONS[2].id == 3 && QUESTIONS[3].id == 4 && QUESTIONS[4].id == 5;
    assert ids == {1, 2, 3, 4, 5};
    if AllAnswered(answers) {
      SubsetOfSameSize(answers.Keys, ids);
    }
    if forall q | q in QUESTIONS :: q.id in answers {
      assert ids <= answers.Keys;
      assert answers.Keys == ids;
    }
  }

  /** The answers the page holds for one participant, and where the participant is. */
  class QuizSession {
    var currentIndex: nat
    var selected: Option<nat>
    var answers: Answers

    ghost predicate Valid()
      reads this
    {
      currentIndex < |QUESTIONS| && answers.Keys <= QuestionIds()
    }

    constructor ()
      ensures Valid()
      ensures currentIndex == 0 && selected == None && answers == map[]
    {
      currentIndex := 0;
      selected := None;
      answers := map[];
    }

    /** Clicking an option selects it; nothing is saved yet. */
    method Select(option: nat)
      modifies this
      ensures selected == Some(option)
      ensures currentIndex == old(currentIndex) && answers == old(answers)
    {
      selected := Some(option);
    }

    /** `handleSaveAnswer`: without a selection nothing happens; otherwise the current question's answer becomes the selection. */
    method SaveAnswer()
      requires Valid()
      modifies this
      ensures Valid()
      ensures old(selected).None? ==> answers == old(answers)
      ensures old(selected).Some? ==> answers == old(answers)[QUESTIONS[currentIndex].id := old(selected).value]
      ensures currentIndex == old(currentIndex) && selected == old(selected)
    {
      if selected.None? {
        return;
      }
      answers := answers[QUESTIONS[currentIndex].id := selected.value];
    }

    /** `handleNextQuestion`: one question on, unless at the last; the selection shows that question's saved answer. */
    method Next()
      requires Valid()
      modifies this
      ensures Valid()
      ensures old(currentIndex) < |QUESTIONS| - 1 ==>
        && currentIndex == old(currentIndex) + 1
        && selected == SavedAnswer(answers, QUESTIONS[currentIndex].id)
      ensures old(currentIndex) == |QUESTIONS| - 1 ==> currentIndex == old(currentIndex) && selected == old(selected)
      ensures answers == old(answers)
    {
      if currentIndex < |QUESTIONS| - 1 {
        currentIndex := currentIndex + 1;
        selected := SavedAnswer(answers, QUESTIONS[currentIndex].id);
      }
    }

    /** `handlePrevQuestion`: one question back, unless at the first. */
    method Prev()
      requires Valid()
      modifies this
      ensures Valid()
      ensures old(currentIndex) > 0 ==>
        && currentIndex == old(currentIndex) - 1
        && selected == SavedAnswer(answers, QUESTIONS[currentIndex].id)
      ensures old(currentIndex) == 0 ==> currentIndex == 0 && selected == old(selected)
      ensures answers == old(answers)
    {
      if currentIndex > 0 {
        currentIndex := currentIndex - 1;
        selected := SavedAnswer(answers, QUESTIONS[currentIndex].id);
      }
    }
  }

  /** `localAnswers[id] ?? null`. */
  function SavedAnswer(answers: Answers, id: nat): (r: Option<nat>)
    ensures r.Some? <==> id in answers
    ensures r.Some? ==> r.value == answers[id]
  {
    if id in answers then Some(answers[id]) else None
  }

  /** Saving answers for every question, one by one, makes the page offer completion. */
  lemma SavingEveryQuestionCompletes(answers: Answers)
    requires answers.Keys <= QuestionIds()
    requires forall q | q in QUESTIONS :: q.id in answers
    ensures AllAnswered(answers)
  {
    AllAnsweredMeansEveryQuestion(answers);
  }

  // ------------------------------------------------------------ completion

  /** What pressing "complete" does. */
  datatype Completion =
    | NotOffered                                        // no wallet, or a question unanswered
    | Simulated(total: nat, correct: nat, passed: bool)  // scored in the page only; nothing is sent
    | Sent(ix: Instruction)

  /**
   * `handleCompleteQuiz`: with a wallet and every question answered, it sends
   * the score as (total, correct). A client whose interface has no
   * `completeQuiz` scores the attempt locally instead and sends nothing.
   */
  function CompleteRequest(wallet: Option<Pubkey>, answers: Answers, hasCompleteQuiz: bool): (r: Completion)
    ensures r.NotOffered? <==> wallet.None? || !AllAnswered(answers)
    ensures r.Sent? <==> wallet.Some? && AllAnswered(answers) && hasCompleteQuiz
    ensures r.Sent? ==>
      && r.ix.CompleteQuizIx? && r.ix.participant == wallet.value
      && r.ix.totalQuestions == |QUESTIONS| && r.ix.correctAnswers == CountCorrect(QUESTIONS, answers)
      && r.ix.correctAnswers <= r.ix.totalQuestions
    ensures r.Simulated? ==>
      && r.total == |QUESTIONS| && r.correct == CountCorrect(QUESTIONS, answers)
      && r.correct <= r.total
      && (r.passed <==> r.correct >= 4)
      && (r.passed <==> QuizPasses(r.total, r.correct))
  {
    if wallet.None? || !AllAnswered(answers) then NotOffered
    else
      var correct := CountCorrect(QUESTIONS, answers);
      if hasCompleteQuiz then Sent(CompleteQuizIx(wallet.value, |QUESTIONS|, correct))
      else
        FixedQuizPassMark(correct);
        Simulated(|QUESTIONS|, correct, ClientPasses(correct, |QUESTIONS|))
  }

  /** The page announces a pass exactly when the program's rule rewards one: the displayed result matches `tokensAwarded`. */
  lemma CompletionVerdictAgrees(c: Chain, wallet: Option<Pubkey>, answers: Answers)
    requires CompleteRequest(wallet, answers, true).Sent?
    requires CompleteQuizStep(c, wallet.value, |QUESTIONS|, CountCorrect(QUESTIONS, answers)).status == Success
    ensures var correct := CountCorrect(QUESTIONS, answers);
            var d := Execute(c, CompleteRequest(wallet, answers, true).ix).chain;
      && HasConfig(c.accounts)
      && d.accounts[QuizStateKey(wallet.value, ConfigVersion(c.accounts))].Quiz?
      && d.accounts[QuizStateKey(wallet.value, ConfigVersion(c.accounts))].quiz.tokensAwarded == ClientPasses(correct, |QUESTIONS|)
  {
    var correct := CountCorrect(QUESTIONS, answers);
    CompleteQuizOutcome(c, wallet.value, |QUESTIONS|, correct);
    FixedQuizPassMark(correct);
  }

  /** The page's reading of a failed completion: "already in use" or the system error 0x0 means "already completed". */
  predicate SaysAlreadyCompleted(f: Failure) {
    f == AccountInUse
  }

  /** Under a configuration, a failed completion reads "already completed" exactly when this version's record exists. */
  lemma CompletionFeedbackAccurate(c: Chain, user: Pubkey, total: U64, correct: U64)
    requires HasConfig(c.accounts)
    requires CompleteQuizStep(c, user, total, correct).status.Failed?
    ensures SaysAlreadyCompleted(CompleteQuizStep(c, user, total, correct).status.failure)
      <==> QuizStateKey(user, ConfigVersion(c.accounts)) in c.accounts
  {
    CompleteQuizOutcome(c, user, total, correct);
  }

  // ------------------------------------------------------------ the lookup on load

  const COMPLETION_TAG := "quiz_completion"

  /** The page's quiz-state address: seeds `["quiz_state", wallet]`, with no version. */
  function LookupStateKey(wallet: Pubkey): Address {
    Pda([Literal(QUIZ_STATE_TAG), Key(wallet)])
  }

  /** The page's "completion receipt" address: seeds `["quiz_completion", wallet]`. */
  function CompletionReceiptKey(wallet: Pubkey): Address {
    Pda([Literal(COMPLETION_TAG), Key(wallet)])
  }

  /** `quizAlreadyTaken` after loading: whether an account exists at the completion-receipt address. */
  predicate TakenOnLoad(c: Chain, wallet: Pubkey) {
    CompletionReceiptKey(wallet) in c.accounts
  }

  /**
   * Neither address the page looks at is one the program writes: the lookup
   * never names a quiz record, and on any chain the program built the page
   * shows the quiz as not taken, whatever was completed.
   */
  lemma LookupMissesRecords(c: Chain, wallet: Pubkey, user: Pubkey, version: U64)
    requires WellPlaced(c.accounts)
    ensures LookupStateKey(wallet) != QuizStateKey(user, version)
    ensures LookupStateKey(wallet) !in c.accounts
    ensures !TakenOnLoad(c, wallet)
  {
    assert KindOf(LookupStateKey(wallet)) == Unrelated;
    assert KindOf(CompletionReceiptKey(wallet)) == Unrelated;
  }

  // ------------------------------------------------------------ the quiz leaderboard

  /** A quiz record as listed by `quizState.all()`. */
  datatype ListedQuiz = ListedQuiz(publicKey: Pubkey, account: QuizState)

  predicate Completed(q: ListedQuiz) {
    q.account.quizCompleted
  }

  /** The ranking key: correct answers first, then rewarded before not rewarded. */
  function QuizRankKey(q: ListedQuiz): nat {
    2 * q.account.correctAnswers + (if q.account.tokensAwarded then 1 else 0)
  }

  /** The page's comparator, as written: negative puts `a` first. */
  function QuizCompare(a: ListedQuiz, b: ListedQuiz): int {
    var aCorrect := a.account.correctAnswers;
    var bCorrect := b.account.correctAnswers;
    if bCorrect != aCorrect then bCorrect - aCorrect
    else if a.account.tokensAwarded != b.account.tokensAwarded then (if a.account.tokensAwarded then -1 else 1)
    else 0
  }

  /** The comparator orders exactly as the key does, highest first, so sorting with it is `SortDesc` by the key. */
  lemma QuizCompareIsKeyOrder(a: ListedQuiz, b: ListedQuiz)
    ensures QuizCompare(a, b) < 0 <==> QuizRankKey(a) > QuizRankKey(b)
    ensures QuizCompare(a, b) == 0 <==> QuizRankKey(a) == QuizRankKey(b)
    ensures QuizCompare(a, b) > 0 <==> QuizRankKey(a) < QuizRankKey(b)
  {
  }

  /** The label column: the rounded percentage with a "%" sign. */
  function PercentLabel(correct: nat, total: nat): string {
    match Percentage(correct, total)
    case Finite(p) => DecimalString(p) + "%"
    case NotANumber => "NaN%"
    case Infinite => "Infinity%"
  }

  function QuizRow(q: ListedQuiz, rank: nat, base58: Pubkey -> string): Entry {
    var user := base58(q.account.user);
    var a := q.account;
    Entry(rank, ShortenAddress(user), user, PercentLabel(a.correctAnswers, a.totalQuestions),
          a.correctAnswers, Some(a.totalQuestions), Some(a.tokensAwarded))
  }

  /** The row is some completed record's row at that rank. */
  predicate RowOf(listed: seq<ListedQuiz>, row: Entry, rank: nat, base58: Pubkey -> string) {
    exists q :: q in listed && Completed(q) && row == QuizRow(q, rank, base58)
  }

  /** `BN.toNumber()` throws for a value that needs more than 53 bits: 2^53 or more. */
  const SAFE_LIMIT: nat := 0x20_0000_0000_0000

  predicate FitsNumber(n: nat) {
    n < SAFE_LIMIT
  }

  /**
   * Building the board converts numbers without a throw: once there are two
   * completed records to compare, the comparator converts the correct answers
   * of every one of them, and each shown row converts its total and its score.
   */
  predicate BoardReadsSafely(listed: seq<ListedQuiz>) {
    var done := Filter(listed, Completed);
    && (|done| < 2 || forall q | q in done :: FitsNumber(q.account.correctAnswers))
    && (forall q | q in Top(listed, Completed, QuizRankKey) ::
          FitsNumber(q.account.totalQuestions) && FitsNumber(q.account.correctAnswers))
  }

  /**
   * The quiz board: completed records, best first, the first ten, ranked from
   * 1. A conversion that throws is caught and the board is emptied.
   */
  function QuizLeaderboard(listed: seq<ListedQuiz>, base58: Pubkey -> string): seq<Entry> {
    if BoardReadsSafely(listed) then
      Ranked(Top(listed, Completed, QuizRankKey), (q: ListedQuiz, rank: nat) => QuizRow(q, rank, base58))
    else []
  }

  lemma QuizRows(listed: seq<ListedQuiz>, base58: Pubkey -> string)
    ensures var top := Top(listed, Completed, QuizRankKey); var r := QuizLeaderboard(listed, base58);
      && (BoardReadsSafely(listed) ==> |r| == |top| && forall i :: 0 <= i < |r| ==> r[i] == QuizRow(top[i], i + 1, base58))
      && (!BoardReadsSafely(listed) ==> r == [])
  {
  }

  /**
   * One completed record whose score needs 53 bits or more empties the whole
   * board: alone it is converted for its row, and beside another one it is
   * converted by the comparator.
   */
  lemma HugeScoreEmptiesBoard(listed: seq<ListedQuiz>, base58: Pubkey -> string, q: ListedQuiz)
    requires q in listed && Completed(q) && !FitsNumber(q.account.correctAnswers)
    ensures QuizLeaderboard(listed, base58) == []
  {
    FilterMembers(listed, Completed);
    var done := Filter(listed, Completed);
    if |done| < 2 {
      TopShape(listed, Completed, QuizRankKey);
      TopComplete(listed, Completed, QuizRankKey, q);
    }
  }

  /** Row i has rank i + 1 and shows a completed record's score out of its total. */
  lemma QuizLeaderboardRanks(listed: seq<ListedQuiz>, base58: Pubkey -> string)
    ensures var r := QuizLeaderboard(listed, base58);
      && (BoardReadsSafely(listed) ==> |r| == Min(BOARD_SIZE, |Filter(listed, Completed)|))
      && (!BoardReadsSafely(listed) ==> r == [])
      && (forall i :: 0 <= i < |r| ==> r[i].rank == i + 1 && r[i].maxScore.Some? && r[i].passed.Some?)
      && (forall i :: 0 <= i < |r| ==> RowOf(listed, r[i], i + 1, base58))
  {
    var top := Top(listed, Completed, QuizRankKey);
    var r := QuizLeaderboard(listed, base58);
    TopShape(listed, Completed, QuizRankKey);
    QuizRows(listed, base58);
    forall i | 0 <= i < |r|
      ensures RowOf(listed, r[i], i + 1, base58)
    {
      assert top[i] in listed && Completed(top[i]) && r[i] == QuizRow(top[i], i + 1, base58);
    }
  }

  /** Rows go by correct answers, highest first; on equal scores a rewarded row comes before an unrewarded one. */
  lemma QuizLeaderboardOrder(listed: seq<ListedQuiz>, base58: Pubkey -> string)
    ensures var r := QuizLeaderboard(listed, base58);
      forall i, j :: 0 <= i < j < |r| ==>
        r[i].score > r[j].score || (r[i].score == r[j].score && (r[i].passed == Some(true) || r[j].passed == Some(false)))
  {
    var top := Top(listed, Completed, QuizRankKey);
    var r := QuizLeaderboard(listed, base58);
    TopShape(listed, Completed, QuizRankKey);
    QuizRows(listed, base58);
    forall i, j | 0 <= i < j < |r|
      ensures r[i].score > r[j].score || (r[i].score == r[j].score && (r[i].passed == Some(true) || r[j].passed == Some(false)))
    {
      assert QuizRankKey(top[i]) >= QuizRankKey(top[j]);
    }
  }

  /**
   * When every conversion succeeds, a completed record without a row sits on a
   * full board, ranked no higher than its last row; otherwise the board is empty.
   */
  lemma QuizLeaderboardComplete(listed: seq<ListedQuiz>, base58: Pubkey -> string, q: ListedQuiz)
    requires q in listed && Completed(q)
    ensures var r := QuizLeaderboard(listed, base58);
      BoardReadsSafely(listed) ==>
        || (exists i :: 0 <= i < |r| && r[i] == QuizRow(q, i + 1, base58))
        || (|r| == BOARD_SIZE && q.account.correctAnswers <= r[|r| - 1].score)
    ensures !BoardReadsSafely(listed) ==> QuizLeaderboard(listed, base58) == []
  {
    var top := Top(listed, Completed, QuizRankKey);
    var r := QuizLeaderboard(listed, base58);
    TopComplete(listed, Completed, QuizRankKey, q);
    QuizRows(listed, base58);
    if BoardReadsSafely(listed) && q in top {
      var i :| 0 <= i < |top| && top[i] == q;
      assert r[i] == QuizRow(q, i + 1, base58);
    }
  }
}
