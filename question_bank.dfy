/**
 * The question-bank generator: what it makes of a model reply (fence
 * stripping and the array span handed to the JSON parser), the validation of
 * each parsed question, the ids given to the accepted ones, the drop of
 * questions the bank already holds, the merge and the final renumbering.
 */
module QuestionBank {
  import opened Wrappers
  import opened Text
  import opened Ranking

  /** A parsed JSON value. Numbers are exact rationals. */
  datatype Json =
    | JNull
    | JBool(b: bool)
    | JNumber(n: real)
    | JString(s: string)
    | JArray(items: seq<Json>)
    | JObject(fields: map<string, Json>)

  /** A bank entry: a JSON object, field name to value. */
  type Record = map<string, Json>

  datatype Category = Category(id: string, name: string)

  const CATEGORIES: seq<Category> := [
    Category("composers_works", "Composers & Masterpieces"),
    Category("technique_terminology", "Technique & Terminology"),
    Category("history_luthiers", "Guitar History & Luthiers"),
    Category("anatomy_tuning", "Anatomy & Tuning"),
    Category("famous_interpreters", "Famous Interpreters")
  ]

  /** `v.name`: the field of an object, `undefined` (None) for anything else. */
  function Property(v: Json, name: string): (r: Option<Json>)
    ensures r.Some? <==> v.JObject? && name in v.fields
  {
    if v.JObject? && name in v.fields then Some(v.fields[name]) else None
  }

  // ------------------------------------------------------------ the reply

  const FENCE := "```"
  const JSON_FENCE := "```json"

  /** `s` starts with `tag`, letters compared without case (the regex's `i` flag). */
  predicate TagAt(s: string, tag: string) {
    |tag| <= |s| && forall i :: 0 <= i < |tag| ==> AsciiLower(s[i]) == tag[i]
  }

  /**
   * `s.replace(/<tag>\s*&#47;gi, "")`: scanning from the left, every
   * occurrence of `tag` is removed together with the white space after it.
   */
  function RemoveAll(s: string, tag: string): (r: string)
    requires tag != []
    ensures |r| <= |s|
    decreases |s|
  {
    if s == [] then []
    else if TagAt(s, tag) then RemoveAll(TrimStart(s[|tag|..]), tag)
    else [s[0]] + RemoveAll(s[1..], tag)
  }

  /** The cleaned reply: both kinds of fence removed, then trimmed. */
  function StripFences(text: string): string {
    Trim(RemoveAll(RemoveAll(text, JSON_FENCE), FENCE))
  }

  function FirstIndex(s: string, c: char): (r: Option<nat>)
    ensures r.Some? ==> r.value < |s| && s[r.value] == c && forall i :: 0 <= i < r.value ==> s[i] != c
    ensures r.None? ==> c !in s
  {
    if s == [] then None
    else if s[0] == c then Some(0)
    else match FirstIndex(s[1..], c)
      case None => None
      case Some(i) => Some(i + 1)
  }

  function LastIndex(s: string, c: char): (r: Option<nat>)
    ensures r.Some? ==> r.value < |s| && s[r.value] == c && forall i :: r.value < i < |s| ==> s[i] != c
    ensures r.None? ==> c !in s
    decreases |s|
  {
    if s == [] then None
    else if s[|s| - 1] == c then Some(|s| - 1)
    else
      assert forall i :: 0 <= i < |s| - 1 ==> s[..|s| - 1][i] == s[i];
      LastIndex(s[..|s| - 1], c)
  }

  /** `s.match(/\[[\s\S]*\]/)`: from the first "[" to the last "]", when a "]" follows the first "["; otherwise `s`. */
  function ArraySpan(s: string): string {
    var open := FirstIndex(s, '[');
    var close := LastIndex(s, ']');
    if open.Some? && close.Some? && open.value < close.value then s[open.value..close.value + 1] else s
  }

  /** `parseGeminiResponse` up to the parse: the text handed to `JSON.parse`. */
  function ParseInput(text: string): string {
    ArraySpan(StripFences(text))
  }

  /** A span is cut only when some "[" has a "]" after it. */
  lemma ArraySpanNeedsPair(s: string)
    ensures ArraySpan(s) != s ==> exists i, j :: 0 <= i < j < |s| && s[i] == '[' && s[j] == ']'
  {
  }

  /**
   * When some "[" has a "]" after it, the span runs from a "[" with none
   * before it to a "]" with none after it.
   */
  lemma ArraySpanCut(s: string, i: nat, j: nat)
    requires i < j < |s| && s[i] == '[' && s[j] == ']'
    ensures exists a, b :: CutAt(s, a, b, i, j)
  {
    var open := FirstIndex(s, '[');
    var close := LastIndex(s, ']');
    assert s[i] in s && s[j] in s;
    var a, b := open.value, close.value;
    NoneBefore(s, a, '[');
    NoneAfter(s, b, ']');
    assert CutAt(s, a, b, i, j);
  }

  /** The span is `s[a..b + 1]`, around `i..j`, from the first "[" to the last "]". */
  predicate CutAt(s: string, a: nat, b: nat, i: nat, j: nat) {
    && a <= i < j <= b < |s| && ArraySpan(s) == s[a..b + 1]
    && s[a] == '[' && s[b] == ']' && '[' !in s[..a] && ']' !in s[b + 1..]
  }

  lemma NoneBefore(s: string, a: nat, c: char)
    requires a <= |s| && forall t :: 0 <= t < a ==> s[t] != c
    ensures c !in s[..a]
  {
    var before := s[..a];
    forall t | 0 <= t < |before|
      ensures before[t] != c
    {
      assert before[t] == s[t];
    }
  }

  lemma NoneAfter(s: string, b: nat, c: char)
    requires b < |s| && forall t :: b < t < |s| ==> s[t] != c
    ensures c !in s[b + 1..]
  {
    var after := s[b + 1..];
    forall t | 0 <= t < |after|
      ensures after[t] != c
    {
      assert after[t] == s[b + 1 + t];
    }
  }

  /** Cutting the span twice cuts nothing more. */
  lemma ArraySpanIdempotent(s: string)
    ensures ArraySpan(ArraySpan(s)) == ArraySpan(s)
  {
    var open := FirstIndex(s, '[');
    var close := LastIndex(s, ']');
    if open.Some? && close.Some? && open.value < close.value {
      var r := s[open.value..close.value + 1];
      assert r[0] == '[' && r[|r| - 1] == ']';
      assert FirstIndex(r, '[') == Some(0);
      assert LastIndex(r, ']') == Some(|r| - 1);
    }
  }

  // The proofs about fenced replies.

  lemma NoTagWithoutTick(s: string, tag: string)
    requires tag != [] && tag[0] == '`' && s != [] && s[0] != '`'
    ensures !TagAt(s, tag)
  {
    assert AsciiLower(s[0]) != tag[0];
  }

  lemma {:induction false} RemoveAllWithoutTick(s: string, tag: string)
    requires tag != [] && tag[0] == '`' && '`' !in s
    ensures RemoveAll(s, tag) == s
    decreases |s|
  {
    if s != [] {
      assert s[0] in s;
      NoTagWithoutTick(s, tag);
      assert forall c | c in s[1..] :: c in s;
      RemoveAllWithoutTick(s[1..], tag);
      assert s == [s[0]] + s[1..];
    }
  }

  lemma RemoveAllStep(s: string, tag: string)
    requires tag != [] && s != [] && !TagAt(s, tag)
    ensures RemoveAll(s, tag) == [s[0]] + RemoveAll(s[1..], tag)
  {
  }

  lemma TailWithoutTick(x: string)
    requires x != [] && '`' !in x
    ensures x[0] != '`' && '`' !in x[1..]
  {
    assert x[0] in x;
    assert forall c | c in x[1..] :: c in x;
  }

  lemma {:induction false} RemoveAllPrefix(x: string, y: string, tag: string)
    requires tag != [] && tag[0] == '`' && '`' !in x
    ensures RemoveAll(x + y, tag) == x + RemoveAll(y, tag)
    decreases |x|
  {
    if x == [] {
      assert x + y == y;
    } else {
      var s := x + y;
      TailWithoutTick(x);
      assert s[0] == x[0] && s[1..] == x[1..] + y;
      NoTagWithoutTick(s, tag);
      RemoveAllStep(s, tag);
      RemoveAllPrefix(x[1..], y, tag);
      assert x == [x[0]] + x[1..];
    }
  }

  lemma {:induction false} RemoveAllShort(s: string, tag: string)
    requires tag != [] && |s| < |tag|
    ensures RemoveAll(s, tag) == s
    decreases |s|
  {
    if s != [] {
      RemoveAllShort(s[1..], tag);
      assert s == [s[0]] + s[1..];
    }
  }

  lemma {:induction false} TrimStartAfterSpace(w: string, z: string)
    requires forall i :: 0 <= i < |w| ==> IsJsWhitespace(w[i])
    ensures TrimStart(w + z) == TrimStart(z)
    decreases |w|
  {
    if w == [] {
      assert w + z == z;
    } else {
      assert (w + z)[1..] == w[1..] + z;
      TrimStartAfterSpace(w[1..], z);
    }
  }

  lemma {:induction false} TrimStartBeforeWord(b: string, f: string)
    requires f != [] && !IsJsWhitespace(f[0])
    ensures TrimStart(b + f) == TrimStart(b) + f
    decreases |b|
  {
    if b == [] {
      assert b + f == f;
    } else if IsJsWhitespace(b[0]) {
      assert (b + f)[1..] == b[1..] + f;
      TrimStartBeforeWord(b[1..], f);
    }
  }

  lemma TrimAfterTrimStart(b: string)
    ensures Trim(TrimStart(b)) == Trim(b)
  {
    var t := TrimStart(b);
    assert TrimStart(t) == t;
  }

  /** A reply with no backtick loses only its outer white space before the span is cut. */
  lemma UnfencedReply(text: string)
    requires '`' !in text
    ensures ParseInput(text) == ArraySpan(Trim(text))
  {
    RemoveAllWithoutTick(text, JSON_FENCE);
    RemoveAllWithoutTick(text, FENCE);
  }

  /** The opening fence goes with the white space after it; a body without backticks is copied. */
  lemma RemoveOpeningFence(open: string, space: string, body: string)
    requires |open| == |JSON_FENCE| && TagAt(open, JSON_FENCE)
    requires forall i :: 0 <= i < |space| ==> IsJsWhitespace(space[i])
    requires '`' !in body
    ensures RemoveAll(open + (space + (body + FENCE)), JSON_FENCE) == TrimStart(body) + FENCE
  {
    var rest := space + (body + FENCE);
    var text := open + rest;
    assert TagAt(text, JSON_FENCE) by {
      assert forall i :: 0 <= i < |open| ==> text[i] == open[i];
    }
    assert text[|JSON_FENCE|..] == rest;
    TrimStartAfterSpace(space, body + FENCE);
    TrimStartBeforeWord(body, FENCE);
    TrimStartKeepsNoTick(body);
    RemoveAllPrefix(TrimStart(body), FENCE, JSON_FENCE);
    RemoveAllShort(FENCE, JSON_FENCE);
  }

  lemma TrimStartKeepsNoTick(body: string)
    requires '`' !in body
    ensures '`' !in TrimStart(body)
  {
    var kept := TrimStart(body);
    assert kept == body[|body| - |kept|..];
    assert forall c | c in kept :: c in body;
  }

  /** The closing fence goes; a text without backticks before it is kept. */
  lemma RemoveClosingFence(kept: string)
    requires '`' !in kept
    ensures RemoveAll(kept + FENCE, FENCE) == kept
  {
    RemoveAllPrefix(kept, FENCE, FENCE);
    assert TagAt(FENCE, FENCE);
    assert FENCE[|FENCE|..] == [];
    assert RemoveAll(FENCE, FENCE) == [];
    assert kept + [] == kept;
  }

  /**
   * A reply wrapped in a "```json" fence (in any letter case) and a closing
   * "```" is unwrapped: the parser gets the span of the trimmed body.
   */
  lemma FencedReply(open: string, space: string, body: string)
    requires |open| == |JSON_FENCE| && TagAt(open, JSON_FENCE)
    requires forall i :: 0 <= i < |space| ==> IsJsWhitespace(space[i])
    requires '`' !in body
    ensures ParseInput(open + space + body + FENCE) == ArraySpan(Trim(body))
  {
    assert open + space + body + FENCE == open + (space + (body + FENCE));
    RemoveOpeningFence(open, space, body);
    TrimStartKeepsNoTick(body);
    RemoveClosingFence(TrimStart(body));
    TrimAfterTrimStart(body);
  }

  // ------------------------------------------------------------ validation

  predicate TextValid(q: Json) {
    match Property(q, "question")
    case Some(JString(s)) => Utf16Length(s) >= 10
    case _ => false
  }

  predicate OptionsValid(q: Json) {
    match Property(q, "options")
    case Some(JArray(options)) => |options| == 4
    case _ => false
  }

  /** A number neither below 0 nor above 3: fractions such as 1.5 pass. */
  predicate IndexValid(q: Json) {
    match Property(q, "correctIndex")
    case Some(JNumber(n)) => !(n < 0.0) && !(n > 3.0)
    case _ => false
  }

  predicate Acceptable(q: Json) {
    TextValid(q) && OptionsValid(q) && IndexValid(q)
  }

  const INVALID_TEXT := "Invalid question text"
  const WRONG_OPTION_COUNT := "Must have exactly 4 options"
  const BAD_CORRECT_INDEX := "correctIndex must be 0-3"

  function Message(index: nat, problem: string): string {
    "Question " + DecimalString(index) + ": " + problem
  }

  lemma MessagesDiffer(index: nat, a: string, b: string)
    requires a != [] && b != [] && a[0] != b[0]
    ensures Message(index, a) != Message(index, b)
  {
    var k := |"Question " + DecimalString(index) + ": "|;
    assert Message(index, a)[k] == a[0] && Message(index, b)[k] == b[0];
  }

  /**
   * `validateQuestion`: one message per failed check, in the order of the
   * checks. Reading a field of `null` throws, so a caller never passes it.
   */
  method ValidateQuestion(q: Json, index: nat) returns (errors: seq<string>)
    requires !q.JNull?
    ensures errors == [] <==> Acceptable(q)
    ensures Message(index, INVALID_TEXT) in errors <==> !TextValid(q)
    ensures Message(index, WRONG_OPTION_COUNT) in errors <==> !OptionsValid(q)
    ensures Message(index, BAD_CORRECT_INDEX) in errors <==> !IndexValid(q)
    ensures |errors| <= 3
    ensures errors == (if TextValid(q) then [] else [Message(index, INVALID_TEXT)])
                    + (if OptionsValid(q) then [] else [Message(index, WRONG_OPTION_COUNT)])
                    + (if IndexValid(q) then [] else [Message(index, BAD_CORRECT_INDEX)])
  {
    MessagesDiffer(index, INVALID_TEXT, WRONG_OPTION_COUNT);
    MessagesDiffer(index, INVALID_TEXT, BAD_CORRECT_INDEX);
    MessagesDiffer(index, WRONG_OPTION_COUNT, BAD_CORRECT_INDEX);
    errors := [];
    var text := Property(q, "question");
    if !(text.Some? && text.value.JString? && Utf16Length(text.value.s) >= 10) {
      errors := errors + [Message(index, INVALID_TEXT)];
    }
    var options := Property(q, "options");
    if !(options.Some? && options.value.JArray? && |options.value.items| == 4) {
      errors := errors + [Message(index, WRONG_OPTION_COUNT)];
    }
    var correct := Property(q, "correctIndex");
    if !(correct.Some? && correct.value.JNumber? && !(correct.value.n < 0.0) && !(correct.value.n > 3.0)) {
      errors := errors + [Message(index, BAD_CORRECT_INDEX)];
    }
  }

  /** A fractional index is accepted, though no option sits at it. */
  lemma FractionalIndexAccepted()
    ensures IndexValid(JObject(map["correctIndex" := JNumber(1.5)]))
  {
  }

  // ------------------------------------------------------------ ids

  /** `${category.id}_${position}` */
  function CategoryQuestionId(category: Category, position: nat): string {
    category.id + "_" + DecimalString(position)
  }

  /** The record kept for a question at 1-based `position`; only accepted questions, which have all three fields, get one. */
  function NewRecord(category: Category, q: Json, position: nat): Record {
    map[
      "category" := JString(category.id),
      "categoryName" := JString(category.name),
      "question" := Property(q, "question").GetOr(JNull),
      "options" := Property(q, "options").GetOr(JNull),
      "correctIndex" := Property(q, "correctIndex").GetOr(JNull),
      "id" := JString(CategoryQuestionId(category, position))]
  }

  lemma NewRecordId(category: Category, q: Json, position: nat)
    ensures "id" in NewRecord(category, q, position)
    ensures NewRecord(category, q, position)["id"] == JString(CategoryQuestionId(category, position))
  {
  }

  function Maker(category: Category): (Json, nat) -> Record {
    (q: Json, position: nat) => NewRecord(category, q, position)
  }

  /** The record has the six fields, carries the question's text, options and index as given, and its id names category and position. */
  lemma NewRecordFields(category: Category, q: Json, position: nat)
    requires Acceptable(q)
    ensures var r := NewRecord(category, q, position);
      && r.Keys == {"id", "category", "categoryName", "question", "options", "correctIndex"}
      && r["id"] == JString(CategoryQuestionId(category, position))
      && r["category"] == JString(category.id) && r["categoryName"] == JString(category.name)
      && r["question"] == Property(q, "question").value && HasText(r)
      && r["options"] == Property(q, "options").value && r["correctIndex"] == Property(q, "correctIndex").value
  {
  }

  /** The 1-based positions of the items `ok` accepts, in order. */
  function Positions<T>(items: seq<T>, ok: T -> bool): (ps: seq<nat>)
    ensures forall i :: 0 <= i < |ps| ==> 1 <= ps[i] <= |items| && ok(items[ps[i] - 1])
    ensures forall i, j :: 0 <= i < j < |ps| ==> ps[i] < ps[j]
    ensures forall i :: 0 <= i < |items| && ok(items[i]) ==> i + 1 in ps
    decreases |items|
  {
    if items == [] then []
    else
      var n := |items| - 1;
      assert forall i :: 0 <= i < n ==> items[..n][i] == items[i];
      Positions(items[..n], ok) + (if ok(items[n]) then [n + 1] else [])
  }

  /** The items `ok` accepts, in order, each made into a record with its 1-based position. */
  function Select<T, U>(items: seq<T>, ok: T -> bool, make: (T, nat) -> U): (r: seq<U>)
    ensures var ps := Positions(items, ok);
      |r| == |ps| && forall i :: 0 <= i < |r| ==> r[i] == make(items[ps[i] - 1], ps[i])
  {
    var ps := Positions(items, ok);
    seq(|ps|, i requires 0 <= i < |ps| => make(items[ps[i] - 1], ps[i]))
  }

  lemma SelectSnoc<T, U>(items: seq<T>, ok: T -> bool, make: (T, nat) -> U, n: nat)
    requires n < |items|
    ensures Select(items[..n + 1], ok, make) == Select(items[..n], ok, make) + (if ok(items[n]) then [make(items[n], n + 1)] else [])
  {
    assert items[..n + 1][..n] == items[..n];
  }

  lemma SelectKeeps<T, U>(items: seq<T>, ok: T -> bool, make: (T, nat) -> U, i: nat)
    requires i < |items| && ok(items[i])
    ensures make(items[i], i + 1) in Select(items, ok, make)
  {
    var ps := Positions(items, ok);
    assert i + 1 in ps;
    var k :| 0 <= k < |ps| && ps[k] == i + 1;
    assert Select(items, ok, make)[k] == make(items[i], i + 1);
  }

  /** The accepted records of a reply's items: each acceptable item, in order, under the id of its raw position. */
  function Accepted(category: Category, items: seq<Json>): seq<Record> {
    Select(items, Acceptable, Maker(category))
  }

  /**
   * What one category contributes: the accepted records when the reply parsed
   * to an array without `null`; nothing when it is not an array (no
   * `forEach`) or when a `null` item makes validation throw.
   */
  function CategoryBatch(category: Category, parsed: Json): seq<Record> {
    if parsed.JArray? && JNull !in parsed.items then Accepted(category, parsed.items) else []
  }

  /** The `forEach` over a category's parsed reply, pushing each valid question with its id. */
  method CategoryQuestions(category: Category, parsed: Json) returns (valid: seq<Record>)
    ensures valid == CategoryBatch(category, parsed)
  {
    if !parsed.JArray? {
      return [];
    }
    var items := parsed.items;
    valid := [];
    var index := 0;
    while index < |items|
      invariant 0 <= index <= |items|
      invariant JNull !in items[..index]
      invariant valid == Accepted(category, items[..index])
    {
      var q := items[index];
      if q.JNull? {
        assert q in items;
        return [];
      }
      var errors := ValidateQuestion(q, index + 1);
      SelectSnoc(items, Acceptable, Maker(category), index);
      if errors == [] {
        valid := valid + [NewRecord(category, q, index + 1)];
      }
      assert items[..index + 1] == items[..index] + [q];
      index := index + 1;
    }
    assert items[..index] == items;
  }

  lemma {:induction false} SplitAtUnderscore(x: string, d: string, x': string, d': string)
    requires forall i :: 0 <= i < |d| ==> IsDigit(d[i])
    requires forall i :: 0 <= i < |d'| ==> IsDigit(d'[i])
    requires x + "_" + d == x' + "_" + d'
    ensures x == x' && d == d'
  {
    var s := x + "_" + d;
    assert forall i :: 0 <= i < |d| ==> s[|x| + 1 + i] == d[i];
    assert forall i :: 0 <= i < |d'| ==> s[|x'| + 1 + i] == d'[i];
    assert s[|x|] == '_' && s[|x'|] == '_';
    assert |x| == |x'|;
    assert x == s[..|x|] == x';
    assert d == s[|x| + 1..] == d';
  }

  /** Ids name their category and position: two equal ids come from the same category id and position. */
  lemma CategoryQuestionIdInjective(c: Category, p: nat, c': Category, p': nat)
    requires CategoryQuestionId(c, p) == CategoryQuestionId(c', p')
    ensures c.id == c'.id && p == p'
  {
    SplitAtUnderscore(c.id, DecimalString(p), c'.id, DecimalString(p'));
    DecimalStringInjective(p, p');
  }

  lemma CategoryQuestionIdDiffers(c: Category, p: nat, p': nat)
    requires p != p'
    ensures CategoryQuestionId(c, p) != CategoryQuestionId(c, p')
  {
    if CategoryQuestionId(c, p) == CategoryQuestionId(c, p') {
      CategoryQuestionIdInjective(c, p, c, p');
    }
  }

  /** Record k of the accepted ones carries the id of its position. */
  lemma BatchIdAt(category: Category, items: seq<Json>, k: nat)
    requires k < |Accepted(category, items)|
    ensures var ps := Positions(items, Acceptable); var r := Accepted(category, items);
      "id" in r[k] && r[k]["id"] == JString(CategoryQuestionId(category, ps[k]))
  {
    var ps := Positions(items, Acceptable);
    NewRecordId(category, items[ps[k] - 1], ps[k]);
  }

  /** Two accepted records at different places carry different ids. */
  lemma BatchIdsDiffer(category: Category, items: seq<Json>, i: nat, j: nat)
    requires i < j < |Accepted(category, items)|
    ensures var r := Accepted(category, items); "id" in r[i] && "id" in r[j] && r[i]["id"] != r[j]["id"]
  {
    var ps := Positions(items, Acceptable);
    BatchIdAt(category, items, i);
    BatchIdAt(category, items, j);
    CategoryQuestionIdDiffers(category, ps[i], ps[j]);
  }

  /** A category's records carry distinct ids. */
  lemma CategoryBatchDistinctIds(category: Category, parsed: Json)
    ensures var r := CategoryBatch(category, parsed);
      forall i, j :: 0 <= i < j < |r| ==> r[i]["id"] != r[j]["id"]
  {
    if parsed.JArray? && JNull !in parsed.items {
      var r := Accepted(category, parsed.items);
      forall i, j | 0 <= i < j < |r|
        ensures r[i]["id"] != r[j]["id"]
      {
        BatchIdsDiffer(category, parsed.items, i, j);
      }
    }
  }

  /** An item that passes validation has its record, under the id of its raw position i + 1. */
  lemma CategoryBatchKeeps(category: Category, items: seq<Json>, i: nat)
    requires JNull !in items && i < |items| && Acceptable(items[i])
    ensures NewRecord(category, items[i], i + 1) in CategoryBatch(category, JArray(items))
  {
    SelectKeeps(items, Acceptable, Maker(category), i);
  }

  /** An id naming position i + 1 appears only when item i passed, so a rejected item leaves a gap in the numbering. */
  lemma CategoryBatchGaps(category: Category, items: seq<Json>, i: nat, k: nat)
    requires JNull !in items && i < |items|
    requires var r := CategoryBatch(category, JArray(items));
      k < |r| && r[k]["id"] == JString(CategoryQuestionId(category, i + 1))
    ensures Acceptable(items[i])
  {
    var ps := Positions(items, Acceptable);
    CategoryQuestionIdInjective(category, ps[k], category, i + 1);
  }

  /** A rejected first item and an accepted second one give one record, numbered 2. */
  lemma RejectedItemLeavesGap(category: Category, good: Json)
    requires Acceptable(good)
    ensures CategoryBatch(category, JArray([JObject(map[]), good])) == [NewRecord(category, good, 2)]
  {
    var bad := JObject(map[]);
    var items := [bad, good];
    assert !Acceptable(bad);
    assert items[..1] == [bad];
    assert [bad][..0] == [];
    assert Positions([], Acceptable) == [];
    assert Positions([bad], Acceptable) == [];
    assert Positions(items, Acceptable) == [2];
  }

  // ------------------------------------------------------------ dedup, merge, renumber

  predicate HasText(r: Record) {
    "question" in r && r["question"].JString?
  }

  /** `q.question.toLowerCase().trim()` */
  function TextKey(r: Record): string
    requires HasText(r)
  {
    Trim(LowerCase(r["question"].s))
  }

  predicate AllHaveText(bank: seq<Record>) {
    forall r | r in bank :: HasText(r)
  }

  function ExistingTexts(existing: seq<Record>): set<string>
    requires AllHaveText(existing)
  {
    set r | r in existing :: TextKey(r)
  }

  /** `q => !existingTexts.has(...)`: the entry's text is not among `texts`. */
  function Unseen(texts: set<string>): Record -> bool {
    (q: Record) => !HasText(q) || TextKey(q) !in texts
  }

  /** The new questions whose text the existing bank does not hold, in order; repeats within the batch stay. */
  function NewUnique(existing: seq<Record>, batch: seq<Record>): seq<Record>
    requires AllHaveText(existing)
  {
    Filter(batch, Unseen(ExistingTexts(existing)))
  }

  /** A new question stays exactly when no existing entry has its text. */
  lemma NewUniqueKeeps(existing: seq<Record>, batch: seq<Record>)
    requires AllHaveText(existing) && AllHaveText(batch)
    ensures forall q :: q in NewUnique(existing, batch) <==> q in batch && TextKey(q) !in ExistingTexts(existing)
  {
    FilterMembers(batch, Unseen(ExistingTexts(existing)));
  }

  /** A batch that repeats none of the bank passes whole, in order, duplicates within it included. */
  lemma NewUniqueKeepsAll(existing: seq<Record>, batch: seq<Record>)
    requires AllHaveText(existing) && AllHaveText(batch)
    requires forall q | q in batch :: TextKey(q) !in ExistingTexts(existing)
    ensures NewUnique(existing, batch) == batch
  {
    FilterKeepsAll(batch, Unseen(ExistingTexts(existing)));
  }

  /**
   * Every question whose text the bank lacks stays with all its copies, and
   * the batch's order is kept: the result splits wherever the batch does.
   */
  lemma NewUniqueCopiesInOrder(existing: seq<Record>, before: seq<Record>, after: seq<Record>)
    requires AllHaveText(existing) && AllHaveText(before + after)
    ensures forall q | q in before + after ::
      multiset(NewUnique(existing, before + after))[q]
        == if TextKey(q) !in ExistingTexts(existing) then multiset(before + after)[q] else 0
    ensures NewUnique(existing, before + after) == NewUnique(existing, before) + NewUnique(existing, after)
  {
    FilterAppend(before, after, Unseen(ExistingTexts(existing)));
  }

  /** A new question sits between the survivors before it and those after it. */
  lemma NewUniqueKeepsPlace(existing: seq<Record>, before: seq<Record>, q: Record, after: seq<Record>)
    requires AllHaveText(existing) && HasText(q)
    requires TextKey(q) !in ExistingTexts(existing)
    ensures NewUnique(existing, before + [q] + after)
         == NewUnique(existing, before) + [q] + NewUnique(existing, after)
  {
    var keep := Unseen(ExistingTexts(existing));
    FilterAppend(before + [q], after, keep);
    FilterAppend(before, [q], keep);
    assert Filter([q], keep) == [q] by {
      assert [q][1..] == [];
    }
  }

  /** `[...existing, ...newUnique]` */
  function Merge(existing: seq<Record>, batch: seq<Record>): seq<Record>
    requires AllHaveText(existing)
  {
    existing + NewUnique(existing, batch)
  }

  /** `q_<n>` */
  function BankId(n: nat): string {
    "q_" + DecimalString(n)
  }

  /** `{...q, id: "q_<n>"}` */
  function WithId(q: Record, n: nat): Record {
    q["id" := JString(BankId(n))]
  }

  /** Every entry with the id of its 1-based place. */
  function Renumber(bank: seq<Record>): seq<Record> {
    Ranked(bank, WithId)
  }

  /** Different places get different ids. */
  lemma BankIdDiffers(a: nat, b: nat)
    requires a != b
    ensures BankId(a) != BankId(b)
  {
    if BankId(a) == BankId(b) {
      assert DecimalString(a) == BankId(a)[2..] == BankId(b)[2..] == DecimalString(b);
      DecimalStringInjective(a, b);
    }
  }

  /** `{...q, id}` sets the id and keeps every other field. */
  lemma WithIdFields(q: Record, n: nat)
    ensures var r := WithId(q, n);
      && r["id"] == JString(BankId(n)) && r.Keys == q.Keys + {"id"}
      && forall k :: k in q && k != "id" ==> r[k] == q[k]
  {
  }

  /**
   * Renumbering keeps the entries and their order, gives entry i the id
   * `q_<i+1>`, so no two share an id, and leaves every other field as it was.
   */
  lemma RenumberKeepsFields(bank: seq<Record>)
    ensures var r := Renumber(bank);
      && |r| == |bank|
      && (forall i :: 0 <= i < |r| ==> r[i]["id"] == JString(BankId(i + 1)) && r[i].Keys == bank[i].Keys + {"id"})
      && (forall i, k :: 0 <= i < |r| && k in bank[i] && k != "id" ==> r[i][k] == bank[i][k])
      && (forall i, j :: 0 <= i < j < |r| ==> r[i]["id"] != r[j]["id"])
  {
    var r := Renumber(bank);
    forall i | 0 <= i < |r|
      ensures r[i]["id"] == JString(BankId(i + 1)) && r[i].Keys == bank[i].Keys + {"id"}
      ensures forall k :: k in bank[i] && k != "id" ==> r[i][k] == bank[i][k]
    {
      WithIdFields(bank[i], i + 1);
    }
    forall i, j | 0 <= i < j < |r|
      ensures r[i]["id"] != r[j]["id"]
    {
      BankIdDiffers(i + 1, j + 1);
    }
  }

  /** The bank the generator writes. */
  function FinalBank(existing: seq<Record>, batch: seq<Record>): seq<Record>
    requires AllHaveText(existing)
  {
    Renumber(Merge(existing, batch))
  }

  /** The written bank is the existing entries, then the new unique ones, all renumbered from `q_1`. */
  lemma FinalBankLayout(existing: seq<Record>, batch: seq<Record>)
    requires AllHaveText(existing)
    ensures var u := NewUnique(existing, batch); var r := FinalBank(existing, batch);
      && |r| == |existing| + |u|
      && (forall i :: 0 <= i < |existing| ==> r[i] == existing[i]["id" := JString(BankId(i + 1))])
      && (forall i :: 0 <= i < |u| ==> r[|existing| + i] == u[i]["id" := JString(BankId(|existing| + i + 1))])
  {
    var u := NewUnique(existing, batch);
    var m := existing + u;
    var r := Renumber(m);
    forall i | 0 <= i < |existing|
      ensures r[i] == existing[i]["id" := JString(BankId(i + 1))]
    {
      assert m[i] == existing[i];
      assert r[i] == WithId(m[i], i + 1);
    }
    forall i | 0 <= i < |u|
      ensures r[|existing| + i] == u[i]["id" := JString(BankId(|existing| + i + 1))]
    {
      assert m[|existing| + i] == u[i];
      assert r[|existing| + i] == WithId(m[|existing| + i], |existing| + i + 1);
    }
  }

  /** Renumbering keeps every entry's text, so the written bank holds the same texts as the merge. */
  lemma RenumberKeepsTexts(bank: seq<Record>)
    requires AllHaveText(bank)
    ensures AllHaveText(Renumber(bank))
    ensures forall i :: 0 <= i < |bank| ==> TextKey(Renumber(bank)[i]) == TextKey(bank[i])
  {
    var r := Renumber(bank);
    forall i | 0 <= i < |bank|
      ensures HasText(r[i]) && r[i]["question"] == bank[i]["question"]
    {
      assert bank[i] in bank;
    }
    forall x | x in r
      ensures HasText(x)
    {
      var i :| 0 <= i < |r| && r[i] == x;
    }
  }

  /** Every text of the batch ends up in the merge: either the bank had it, or the question was added. */
  lemma BatchTextInMerge(existing: seq<Record>, batch: seq<Record>, q: Record)
    requires AllHaveText(existing) && AllHaveText(batch) && q in batch
    ensures exists e :: e in Merge(existing, batch) && HasText(e) && TextKey(e) == TextKey(q)
  {
    var m := Merge(existing, batch);
    if TextKey(q) in ExistingTexts(existing) {
      var e :| e in existing && TextKey(e) == TextKey(q);
      assert e in m;
    } else {
      NewUniqueKeeps(existing, batch);
      assert q in NewUnique(existing, batch);
      assert q in m;
    }
  }

  /** Feeding the same batch against the written bank adds nothing: every text of the batch is now in the bank. */
  lemma RegeneratingAddsNothing(existing: seq<Record>, batch: seq<Record>)
    requires AllHaveText(existing) && AllHaveText(batch)
    ensures AllHaveText(FinalBank(existing, batch))
    ensures NewUnique(FinalBank(existing, batch), batch) == []
  {
    var merged := Merge(existing, batch);
    assert AllHaveText(merged) by {
      NewUniqueKeeps(existing, batch);
    }
    RenumberKeepsTexts(merged);
    var bank := Renumber(merged);
    var texts := ExistingTexts(bank);
    forall q | q in batch
      ensures TextKey(q) in texts
    {
      BatchTextInMerge(existing, batch, q);
      var e :| e in merged && HasText(e) && TextKey(e) == TextKey(q);
      var i :| 0 <= i < |merged| && merged[i] == e;
      assert bank[i] in bank;
    }
    FilterKeepsNone(batch, Unseen(texts));
  }
}
