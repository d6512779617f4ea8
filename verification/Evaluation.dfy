/**
 * The deterministic helpers of the evaluation harness (evaluation/run_evaluation.py):
 * cleaning a simulated student's answer, its hint rating, the answer check the
 * simulation uses as a stand-in for the backend, the student's growing
 * knowledge base, and the cumulative engagement / accuracy / grade metrics.
 * The LLM calls, randomness and HTTP traffic around them are left out.
 */
module Evaluation {
  import opened Options
  import opened PyStrings
  import SM = StateManager
  import Personalization

  // ------------------------------------------------------------ parse_llm_answer

  /** The marker an "Expert" persona's answer is cut at, compared case-insensitively. */
  const Marker := "verification:"

  /**
   * `parse_llm_answer`: for a persona whose name contains "Expert", the text
   * before the first "Verification:" (any case), trimmed; otherwise, and when
   * there is no marker, the whole answer trimmed.
   */
  function ParseLlmAnswer(personaName: string, rawAnswer: string): (r: string)
    ensures !Contains(personaName, "Expert") ==> r == Strip(rawAnswer)
    ensures !Contains(Lower(rawAnswer), Marker) ==> r == Strip(rawAnswer)
    ensures Contains(personaName, "Expert") && Contains(Lower(rawAnswer), Marker) ==>
              |r| < |rawAnswer| && !Contains(Lower(r), Marker)
  {
    if Contains(personaName, "Expert") then
      match IndexFrom(Lower(rawAnswer), Marker, 0)
      case Some(k) =>
        CutHasNoMarker(rawAnswer, Marker, k);
        Strip(rawAnswer[..k])
      case None => Strip(rawAnswer)
    else Strip(rawAnswer)
  }

  /** Lower-casing commutes with slicing. */
  lemma LowerSlice(s: string, lo: nat, hi: nat)
    requires lo <= hi <= |s|
    ensures Lower(s[lo..hi]) == Lower(s)[lo..hi]
  {
  }

  /** An occurrence in the lower-cased slice `s[lo..hi]` is one in the lower-cased `s`. */
  lemma LowerOccursInSlice(s: string, lo: nat, hi: nat, t: string, p: nat)
    requires lo <= hi <= |s| && Occurs(Lower(s[lo..hi]), t, p)
    ensures Occurs(Lower(s), t, lo + p)
  {
    LowerSlice(s, lo, hi);
    OccursInSlice(Lower(s), lo, hi, t, p);
  }

  /** No slice ending before the first (case-insensitive) occurrence of `marker` contains one. */
  lemma SliceBeforeMarker(s: string, marker: string, k: nat, lo: nat, hi: nat, t: string)
    requires |marker| > 0 && k <= |s| && forall j :: 0 <= j < k ==> !Occurs(Lower(s), marker, j)
    requires lo <= hi <= k && t == s[lo..hi]
    ensures !Contains(Lower(t), marker)
  {
    if Contains(Lower(t), marker) {
      var p := IndexFrom(Lower(t), marker, 0).value;
      LowerOccursInSlice(s, lo, hi, marker, p);
      assert false;
    }
  }

  /** The trimmed text before the first (case-insensitive) occurrence of `marker` contains none itself. */
  lemma CutHasNoMarker(rawAnswer: string, marker: string, k: nat)
    requires |marker| > 0 && k <= |rawAnswer| && forall j :: 0 <= j < k ==> !Occurs(Lower(rawAnswer), marker, j)
    ensures !Contains(Lower(Strip(rawAnswer[..k])), marker)
  {
    var m := StripOfPrefixIsSlice(rawAnswer, k);
    SliceBeforeMarker(rawAnswer, marker, k, m, m + |Strip(rawAnswer[..k])|, Strip(rawAnswer[..k]));
  }

  // ------------------------------------------------------------------ rate_hint

  /** `SimulatedStudent.rate_hint`: 3 for a skip, else 5 when correct and 1 when not. */
  function RateHint(isCorrect: bool, isSkipped: bool): (r: int)
    ensures 1 <= r <= 5
    ensures r == 3 <==> isSkipped
    ensures r == 5 <==> !isSkipped && isCorrect
    ensures r == 1 <==> !isSkipped && !isCorrect
  {
    if isSkipped then 3
    else if isCorrect then 5
    else 1
  }

  /** Sum of the ratings of a sequence of `(isCorrect, isSkipped)` outcomes. */
  function RatingTotal(outcomes: seq<(bool, bool)>): int
  {
    if |outcomes| == 0 then 0
    else RatingTotal(outcomes[..|outcomes| - 1]) + RateHint(outcomes[|outcomes| - 1].0, outcomes[|outcomes| - 1].1)
  }

  /** The feedback average a style accumulates from simulated ratings lies between 1 and 5. */
  lemma {:induction false} RatingTotalBounds(outcomes: seq<(bool, bool)>)
    ensures |outcomes| <= RatingTotal(outcomes) <= 5 * |outcomes|
  {
    if |outcomes| > 0 {
      RatingTotalBounds(outcomes[..|outcomes| - 1]);
    }
  }

  /** The ratings of a sequence of outcomes, in order. */
  function Ratings(outcomes: seq<(bool, bool)>): (r: seq<int>)
    ensures |r| == |outcomes|
    ensures forall i :: 0 <= i < |r| ==> r[i] == RateHint(outcomes[i].0, outcomes[i].1)
  {
    seq(|outcomes|, i requires 0 <= i < |outcomes| => RateHint(outcomes[i].0, outcomes[i].1))
  }

  lemma {:induction false} RatingsSumToTotal(outcomes: seq<(bool, bool)>)
    ensures Personalization.Sum(Ratings(outcomes)) == RatingTotal(outcomes)
  {
    if |outcomes| > 0 {
      var n := |outcomes| - 1;
      RatingsSumToTotal(outcomes[..n]);
      assert Ratings(outcomes)[..n] == Ratings(outcomes[..n]);
    }
  }

  /**
   * Were the simulated ratings of a style recorded through `record_feedback`,
   * they would leave exactly their total and their number, so the style's
   * average rating would lie between 1 and 5. The runner itself never makes
   * this call: its rating only travels in the answer payload.
   */
  lemma RecordedRatingsStayInScale(s: SM.Store, user: string, style: string, outcomes: seq<(bool, bool)>)
    requires Personalization.ScoresFor(SM.StateOf(s, user).feedbackScores, style) == SM.FeedbackScore(0, 0)
    ensures var score := Personalization.ScoresFor(
              SM.StateOf(Personalization.RecordAll(s, user, style, Ratings(outcomes)), user).feedbackScores, style);
            && score == SM.FeedbackScore(RatingTotal(outcomes), |outcomes|)
            && score.count <= score.totalRating <= 5 * score.count
  {
    Personalization.RecordedTotalsAreSumAndCount(s, user, style, Ratings(outcomes));
    RatingsSumToTotal(outcomes);
    RatingTotalBounds(outcomes);
  }

  // ------------------------------------------- _proxy_backend_validation_for_simulation

  /** The stop words dropped from a fill-in-the-blank answer before token matching. */
  const StopWords: set<string> := {"a", "an", "the", "of", "and", "in", "on", "at", "to", "is", "are", "was", "were"}

  /** The words of `words` that are not stop words, in order. */
  function ContentWords(words: seq<string>): (r: seq<string>)
    ensures forall i :: 0 <= i < |r| ==> r[i] !in StopWords && r[i] in words
    ensures forall w :: w in words && w !in StopWords ==> w in r
  {
    if |words| == 0 then []
    else
      var rest := ContentWords(words[..|words| - 1]);
      var w := words[|words| - 1];
      assert forall x :: x in words ==> x in words[..|words| - 1] || x == w;
      if w in StopWords then rest else rest + [w]
  }

  /**
   * The tokens of a cleaned correct answer the user's answer must contain:
   * its content words, or every word when all of them are stop words.
   */
  function RequiredTokens(correctClean: string): (r: seq<string>)
    ensures forall i :: 0 <= i < |r| ==> r[i] in Words(correctClean)
    ensures (exists w :: w in Words(correctClean) && w !in StopWords) ==> r == ContentWords(Words(correctClean))
    ensures (forall w :: w in Words(correctClean) ==> w in StopWords) ==> r == Words(correctClean)
    ensures |r| == 0 <==> |Words(correctClean)| == 0
  {
    var content := ContentWords(Words(correctClean));
    if |content| > 0 then
      assert content[0] in Words(correctClean) && content[0] !in StopWords;
      content
    else Words(correctClean)
  }

  /** Every required token is a substring of `answer`. */
  predicate AllTokensIn(tokens: seq<string>, answer: string)
  {
    forall i :: 0 <= i < |tokens| ==> Contains(answer, tokens[i])
  }

  /** The meaning of the proxy check. */
  predicate ProxyAccepts(correctAnswer: string, questionType: string, userAnswer: string)
  {
    var c := Lower(Strip(correctAnswer));
    var u := Lower(Strip(userAnswer));
    if questionType == "multiple_choice" then u == c
    else if |RequiredTokens(c)| == 0 then u == c
    else AllTokensIn(RequiredTokens(c), u)
  }

  /** `_proxy_backend_validation_for_simulation`, with its early-returning token loop. */
  method ProxyValidation(correctAnswer: string, questionType: string, userAnswer: string) returns (ok: bool)
    ensures ok <==> ProxyAccepts(correctAnswer, questionType, userAnswer)
  {
    var correctClean := Lower(Strip(correctAnswer));
    var userClean := Lower(Strip(userAnswer));
    if questionType == "multiple_choice" {
      return userClean == correctClean;
    }
    var tokens := ContentWords(Words(correctClean));
    if |tokens| == 0 {
      tokens := Words(correctClean);
    }
    assert tokens == RequiredTokens(correctClean);
    if |tokens| == 0 {
      return userClean == correctClean;
    }
    ok := AllContained(tokens, userClean);
  }

  /** The token loop: stops at the first token missing from `answer`. */
  method AllContained(tokens: seq<string>, answer: string) returns (ok: bool)
    ensures ok <==> AllTokensIn(tokens, answer)
  {
    var i := 0;
    while i < |tokens|
      invariant 0 <= i <= |tokens|
      invariant forall j :: 0 <= j < i ==> Contains(answer, tokens[j])
    {
      if !Contains(answer, tokens[i]) {
        return false;
      }
      i := i + 1;
    }
    return true;
  }

  /** A student who submits the stored correct answer is always accepted, whatever the question type. */
  lemma CorrectAnswerIsAccepted(correctAnswer: string, questionType: string)
    ensures ProxyAccepts(correctAnswer, questionType, correctAnswer)
  {
    var c := Lower(Strip(correctAnswer));
    RequiredTokensOccur(c, RequiredTokens(c));
  }

  /** Every required token of a cleaned answer occurs in it. */
  lemma RequiredTokensOccur(c: string, tokens: seq<string>)
    requires tokens == RequiredTokens(c)
    ensures AllTokensIn(tokens, c)
  {
    forall i | 0 <= i < |tokens| ensures Contains(c, tokens[i]) {
      WordOccurs(c, tokens[i]);
    }
  }

  lemma WordOccurs(c: string, w: string)
    requires w in Words(c)
    ensures Contains(c, w)
  {
    var n :| 0 <= n < |Words(c)| && Words(c)[n] == w;
    WordsOccur(c, n);
  }

  /** Surrounding whitespace in the student's answer never changes the verdict. */
  lemma ProxyIgnoresPadding(correctAnswer: string, questionType: string, ws1: string, userAnswer: string, ws2: string)
    requires AllSpace(ws1) && AllSpace(ws2)
    ensures ProxyAccepts(correctAnswer, questionType, ws1 + userAnswer + ws2)
            == ProxyAccepts(correctAnswer, questionType, userAnswer)
  {
    StripIgnoresPadding(ws1, userAnswer, ws2);
  }

  /** For fill-in-the-blank, a required token missing from the answer rejects it. */
  lemma MissingTokenRejects(correctAnswer: string, questionType: string, userAnswer: string, i: nat)
    requires questionType != "multiple_choice"
    requires i < |RequiredTokens(Lower(Strip(correctAnswer)))|
    requires !Contains(Lower(Strip(userAnswer)), RequiredTokens(Lower(Strip(correctAnswer)))[i])
    ensures !ProxyAccepts(correctAnswer, questionType, userAnswer)
  {
  }

  // ----------------------------------------------------------- _update_knowledge_base

  /** The section header put before the first memory. */
  const Header := "\n\n--- Things Learned So Far ---"

  /** The interaction `_update_knowledge_base` is told about. */
  datatype Interaction = Interaction(
    questionText: string,
    questionType: string,
    options: string,
    isCorrect: bool,
    correctAnswerIndex: Option<string>,
    hintText: Option<string>)

  /** Python truthiness of an optional string: present and non-empty. */
  predicate Truthy(s: Option<string>)
  {
    s.Some? && |s.value| > 0
  }

  /** `" | ".join(parts)`. */
  function JoinBar(parts: seq<string>): string
  {
    if |parts| == 0 then ""
    else if |parts| == 1 then parts[0]
    else JoinBar(parts[..|parts| - 1]) + " | " + parts[|parts| - 1]
  }

  /**
   * The text recorded as the correct answer: for a multiple-choice question
   * with a digit-string index, the option it numbers from 1 (nothing when it
   * is out of range); otherwise the index text itself.
   */
  function CorrectAnswerText(it: Interaction): (r: Option<string>)
    ensures it.questionType != "multiple_choice" || !Truthy(it.correctAnswerIndex) ==> r == it.correctAnswerIndex
  {
    if it.questionType == "multiple_choice" && Truthy(it.correctAnswerIndex) && IsDigits(it.correctAnswerIndex.value) then
      var options := Split(it.options, '|');
      var index := DigitsValue(it.correctAnswerIndex.value) - 1;
      if 0 <= index < |options| then Some(options[index]) else Some("")
    else it.correctAnswerIndex
  }

  /** The parts of one memory, joined by " | " into the knowledge-base entry. */
  function MemoryParts(it: Interaction): (r: seq<string>)
    ensures 1 <= |r| <= 3
    ensures r[0] == "- Question: \"" + it.questionText + "\""
  {
    ["- Question: \"" + it.questionText + "\""]
    + (if Truthy(it.hintText) then ["Hint Received: \"" + it.hintText.value + "\""] else [])
    + (if it.isCorrect && Truthy(CorrectAnswerText(it)) then ["Correct Answer: \"" + CorrectAnswerText(it).value + "\""] else [])
  }

  /** A memory, and not the header: it starts with "- Question". */
  function Memory(it: Interaction): (r: string)
    ensures |r| > 0 && r[0] == '-'
  {
    var parts := MemoryParts(it);
    JoinBarStartsWithFirst(parts);
    JoinBar(parts)
  }

  lemma {:induction false} JoinBarStartsWithFirst(parts: seq<string>)
    requires |parts| > 0 && |parts[0]| > 0
    ensures |JoinBar(parts)| > 0 && JoinBar(parts)[0] == parts[0][0]
  {
    if |parts| > 1 {
      JoinBarStartsWithFirst(parts[..|parts| - 1]);
    }
  }

  /** Whether an interaction teaches the student anything: a hint was shown or the answer was right. */
  predicate Learns(it: Interaction)
  {
    Truthy(it.hintText) || it.isCorrect
  }

  /**
   * `_update_knowledge_base`: nothing is learnt from a wrong answer without a
   * hint; otherwise the header is added when the base holds at most the
   * source text, and then the memory.
   */
  function UpdateKnowledgeBase(kb: seq<string>, it: Interaction): (r: seq<string>)
    ensures !Learns(it) ==> r == kb
    ensures Learns(it) ==> |r| == |kb| + (if |kb| <= 1 then 2 else 1)
    ensures r[..|kb|] == kb
    ensures Learns(it) && |kb| <= 1 ==> r[|kb|] == Header
    ensures Learns(it) ==> r[|r| - 1] == Memory(it)
  {
    if !Truthy(it.hintText) && !it.isCorrect then kb
    else
      var withHeader := if |kb| < 2 && |kb| > 0 then kb + [Header] else if |kb| == 0 then kb + [Header] else kb;
      withHeader + [Memory(it)]
  }

  /** The knowledge base after each interaction of `its`, in order. */
  function LearnAll(kb: seq<string>, its: seq<Interaction>): seq<string>
  {
    if |its| == 0 then kb else UpdateKnowledgeBase(LearnAll(kb, its[..|its| - 1]), its[|its| - 1])
  }

  /** The shape `HeaderWrittenOnce` promises: the start kept, then nothing or the header, and no header after it. */
  predicate HeaderShape(kb0: seq<string>, kb: seq<string>)
  {
    && |kb0| <= |kb| && kb[..|kb0|] == kb0
    && (|kb| == |kb0| || (|kb| >= |kb0| + 2 && kb[|kb0|] == Header))
    && (forall i :: |kb0| < i < |kb| ==> kb[i] != Header)
  }

  /** One update keeps the shape, and grows the base exactly when something is learnt. */
  lemma HeaderShapeStep(kb0: seq<string>, kb: seq<string>, it: Interaction)
    requires |kb0| <= 1 && HeaderShape(kb0, kb)
    ensures HeaderShape(kb0, UpdateKnowledgeBase(kb, it))
    ensures |UpdateKnowledgeBase(kb, it)| == |kb0| <==> |kb| == |kb0| && !Learns(it)
  {
    var r := UpdateKnowledgeBase(kb, it);
    if Learns(it) {
      assert r[..|kb0|] == kb0 by {
        assert r[..|kb0|] == r[..|kb|][..|kb0|];
      }
      assert Header[0] == '\n';
      forall i | |kb0| < i < |r| ensures r[i] != Header {
        if i < |kb| {
          assert r[i] == r[..|kb|][i];
        } else if i == |r| - 1 {
          assert r[i][0] == '-';
        } else {
          assert false;
        }
      }
    }
  }

  /**
   * Starting from an empty base or from the source text alone, the header is
   * written at most once, right after the starting entries, and only once
   * something has been learnt; every later entry is a memory.
   */
  lemma HeaderWrittenOnce(kb0: seq<string>, its: seq<Interaction>)
    requires |kb0| <= 1
    ensures |LearnAll(kb0, its)| == |kb0| || |LearnAll(kb0, its)| >= |kb0| + 2
    ensures LearnAll(kb0, its)[..|kb0|] == kb0
    ensures |LearnAll(kb0, its)| == |kb0| <==> forall i :: 0 <= i < |its| ==> !Learns(its[i])
    ensures |LearnAll(kb0, its)| > |kb0| ==> LearnAll(kb0, its)[|kb0|] == Header
    ensures forall i :: |kb0| < i < |LearnAll(kb0, its)| ==> LearnAll(kb0, its)[i] != Header
  {
    HeaderShapeHolds(kb0, its);
  }

  lemma {:induction false} HeaderShapeHolds(kb0: seq<string>, its: seq<Interaction>)
    requires |kb0| <= 1
    ensures HeaderShape(kb0, LearnAll(kb0, its))
    ensures |LearnAll(kb0, its)| == |kb0| <==> forall i :: 0 <= i < |its| ==> !Learns(its[i])
  {
    if |its| == 0 {
      assert kb0[..|kb0|] == kb0;
    } else {
      var before := its[..|its| - 1];
      HeaderShapeHolds(kb0, before);
      HeaderShapeStep(kb0, LearnAll(kb0, before), its[|its| - 1]);
      assert (forall i :: 0 <= i < |its| ==> !Learns(its[i])) <==>
             (forall i :: 0 <= i < |before| ==> !Learns(before[i])) && !Learns(its[|its| - 1]) by {
        forall i | 0 <= i < |before| ensures before[i] == its[i] { }
      }
    }
  }

  // ------------------------------------------------------------------ metrics

  /** The kind of a logged event; only answers and skips are opportunities. */
  datatype EventType = Answer | Skip | OtherEvent

  /** One row of the results log, in the order the rows were appended. */
  datatype ResultRow = ResultRow(eventType: EventType, questionNumber: int, isCorrect: bool)

  datatype Metrics = Metrics(engagement: real, accuracy: real, grade: real)

  /** `a / b`, or 0 when the denominator is 0. */
  function Ratio(a: nat, b: nat): (r: real)
    ensures b == 0 ==> r == 0.0
    ensures 0 < b && a <= b ==> 0.0 <= r <= 1.0
    ensures 0 < b && a == b ==> r == 1.0
  {
    if b > 0 then (a as real) / (b as real) else 0.0
  }

  /** Answered rows among the first `n`. */
  function Attempts(rows: seq<ResultRow>, n: nat): nat
    requires n <= |rows|
  {
    if n == 0 then 0 else Attempts(rows, n - 1) + (if rows[n - 1].eventType == Answer then 1 else 0)
  }

  /** Answered or skipped rows among the first `n`. */
  function Opportunities(rows: seq<ResultRow>, n: nat): nat
    requires n <= |rows|
  {
    if n == 0 then 0 else Opportunities(rows, n - 1) + (if rows[n - 1].eventType != OtherEvent then 1 else 0)
  }

  /** Correctly answered rows among the first `n`. */
  function CorrectAnswers(rows: seq<ResultRow>, n: nat): nat
    requires n <= |rows|
  {
    if n == 0 then 0
    else CorrectAnswers(rows, n - 1) + (if rows[n - 1].eventType == Answer && rows[n - 1].isCorrect then 1 else 0)
  }

  /** Questions that appear among the first `n` rows. */
  function SeenQuestions(rows: seq<ResultRow>, n: nat): set<int>
    requires n <= |rows|
  {
    set i | 0 <= i < n :: rows[i].questionNumber
  }

  /** Questions answered correctly at least once among the first `n` rows. */
  function CorrectQuestions(rows: seq<ResultRow>, n: nat): set<int>
    requires n <= |rows|
  {
    set i | 0 <= i < n && rows[i].eventType == Answer && rows[i].isCorrect :: rows[i].questionNumber
  }

  /** The loop's running state: three counters and two sets of question numbers. */
  datatype Counters = Counters(attempts: nat, opportunities: nat, correct: nat,
                               uniqueCorrect: set<int>, uniqueSeen: set<int>)

  /** The running state after the first `n` rows, by definition. */
  function CountersOf(rows: seq<ResultRow>, n: nat): Counters
    requires n <= |rows|
  {
    Counters(Attempts(rows, n), Opportunities(rows, n), CorrectAnswers(rows, n),
             CorrectQuestions(rows, n), SeenQuestions(rows, n))
  }

  /** The three ratios reported for a running state. */
  function Report(c: Counters): Metrics
  {
    Metrics(Ratio(c.attempts, c.opportunities), Ratio(c.correct, c.attempts),
            Ratio(|c.uniqueCorrect|, |c.uniqueSeen|))
  }

  /** The metrics reported on row `n - 1`, from counts over the first `n` rows. */
  function MetricsOf(rows: seq<ResultRow>, n: nat): Metrics
    requires n <= |rows|
  {
    Report(CountersOf(rows, n))
  }

  /** The metrics of each of the first `n` rows. */
  function Series(rows: seq<ResultRow>, n: nat): (r: seq<Metrics>)
    requires n <= |rows|
    ensures |r| == n
  {
    if n == 0 then [] else Series(rows, n - 1) + [MetricsOf(rows, n)]
  }

  /** The loop body for one row: every row is seen; answers and skips are opportunities. */
  function StepCounters(c: Counters, row: ResultRow): Counters
  {
    var c := c.(uniqueSeen := c.uniqueSeen + {row.questionNumber});
    match row.eventType
    case Answer =>
      var c := c.(opportunities := c.opportunities + 1, attempts := c.attempts + 1);
      if row.isCorrect then c.(correct := c.correct + 1, uniqueCorrect := c.uniqueCorrect + {row.questionNumber})
      else c
    case Skip => c.(opportunities := c.opportunities + 1)
    case OtherEvent => c
  }

  /** One step of the loop moves the running state from `n` rows to `n + 1`. */
  lemma StepMatchesCounts(rows: seq<ResultRow>, n: nat)
    requires n < |rows|
    ensures StepCounters(CountersOf(rows, n), rows[n]) == CountersOf(rows, n + 1)
  {
    assert SeenQuestions(rows, n + 1) == SeenQuestions(rows, n) + {rows[n].questionNumber};
    assert CorrectQuestions(rows, n + 1) == CorrectQuestions(rows, n)
             + (if rows[n].eventType == Answer && rows[n].isCorrect then {rows[n].questionNumber} else {});
  }

  /** The metrics loop of `run_single_simulation`, keeping running counters and sets. */
  method ComputeMetrics(rows: seq<ResultRow>) returns (series: seq<Metrics>)
    ensures series == Series(rows, |rows|)
  {
    var c := Counters(0, 0, 0, {}, {});
    series := [];
    var i := 0;
    while i < |rows|
      invariant 0 <= i <= |rows|
      invariant c == CountersOf(rows, i)
      invariant series == Series(rows, i)
    {
      StepMatchesCounts(rows, i);
      c := StepCounters(c, rows[i]);
      series := series + [Report(c)];
      i := i + 1;
    }
  }

  /** Correct answers never outnumber answers, which never outnumber opportunities. */
  lemma {:induction false} CountsOrdered(rows: seq<ResultRow>, n: nat)
    requires n <= |rows|
    ensures CorrectAnswers(rows, n) <= Attempts(rows, n) <= Opportunities(rows, n)
  {
    if n > 0 {
      CountsOrdered(rows, n - 1);
    }
  }

  lemma SubsetCardinality(a: set<int>, b: set<int>)
    requires a <= b
    ensures |a| <= |b|
  {
    assert b == a + (b - a);
    assert a * (b - a) == {};
  }

  /** Row `i` reports the metrics of the rows up to and including it. */
  lemma {:induction false} SeriesIsPrefixMetrics(rows: seq<ResultRow>, n: nat, i: nat)
    requires i < n <= |rows|
    ensures Series(rows, n)[i] == MetricsOf(rows, i + 1)
  {
    if i < n - 1 {
      SeriesIsPrefixMetrics(rows, n - 1, i);
    }
  }

  /** At every row all three metrics are fractions in [0, 1]. */
  lemma MetricsAreFractions(rows: seq<ResultRow>, i: nat)
    requires i < |rows|
    ensures var m := Series(rows, |rows|)[i];
            0.0 <= m.engagement <= 1.0 && 0.0 <= m.accuracy <= 1.0 && 0.0 <= m.grade <= 1.0
  {
    SeriesIsPrefixMetrics(rows, |rows|, i);
    CountsOrdered(rows, i + 1);
    SubsetCardinality(CorrectQuestions(rows, i + 1), SeenQuestions(rows, i + 1));
  }

  /** The denominators vanish only before the first opportunity, answer or row respectively. */
  lemma ZeroDenominators(rows: seq<ResultRow>, n: nat)
    requires n <= |rows|
    ensures Opportunities(rows, n) == 0 ==> MetricsOf(rows, n).engagement == 0.0
    ensures Attempts(rows, n) == 0 ==> MetricsOf(rows, n).accuracy == 0.0
    ensures n == 0 ==> MetricsOf(rows, n).grade == 0.0
  {
  }
}
