/**
 * The question bank of app/services/question_service.py: questions parsed from
 * CSV rows, indexed by id, with the set of skills they exercise, and the
 * answer check that compares whitespace-trimmed strings.
 *
 * A CSV row is the column-to-text map `csv.DictReader` yields; the file itself
 * is `None` when it cannot be opened.
 */
module QuestionService {
  import opened Options
  import opened PyStrings

  type Row = map<string, string>

  /**
   * A loaded question: the fields of the `Question` model that the loader fills.
   * The loader also reads the four answer columns, but the model has no field
   * for them, so they are dropped.
   */
  datatype Question = Question(number: int, text: string, correctAnswer: string, skill: string)

  datatype QuestionBank = QuestionBank(questions: seq<Question>, byId: map<int, Question>, skills: set<string>)

  /** The columns the loader reads; a missing one raises `KeyError` and the row is skipped. */
  const Columns: set<string> :=
    {"id", "question", "answer_1", "answer_2", "answer_3", "answer_4", "correct_answer", "skill"}

  /** One row, or `None` when a column is missing or the id is not an integer (`ValueError`). */
  function ParseRow(row: Row): (r: Option<Question>)
    ensures r.Some? <==> Columns <= row.Keys && ParseInt(row["id"]).Some?
    ensures r.Some? ==> r.value.number == ParseInt(row["id"]).value
    ensures r.Some? ==> r.value.correctAnswer == Strip(row["correct_answer"]) && r.value.skill == Strip(row["skill"])
    ensures r.Some? ==> r.value.text == row["question"]
  {
    if Columns <= row.Keys then
      match ParseInt(row["id"])
      case None => None
      case Some(id) =>
        Some(Question(id, row["question"], Strip(row["correct_answer"]), Strip(row["skill"])))
    else None
  }

  /** The fields the `Question` model of app/models/question.py requires. */
  const ModelRequiredFields: set<string> := {"question_number", "question", "question_type", "correct_answer", "skill"}

  /** The keyword arguments the loader passes to `Question(...)`. */
  const LoaderArguments: set<string> :=
    {"question_number", "question", "answer1", "answer2", "answer3", "answer4", "correct_answer", "skill"}

  /**
   * The row parse as written: the model's validation error for a missing
   * required field is a `ValueError`, which the loader catches and skips.
   */
  function ParseRowAsWritten(row: Row): (r: Option<Question>)
    ensures r.Some? ==> ModelRequiredFields <= LoaderArguments
  {
    if ModelRequiredFields <= LoaderArguments then ParseRow(row) else None
  }

  /**
   * `question_type` is never passed, so every row the loader means to accept
   * (all columns present, integer id) is skipped.
   */
  lemma WellFormedRowIsSkipped(row: Row)
    requires Columns <= row.Keys && ParseInt(row["id"]).Some?
    ensures ParseRow(row).Some?
    ensures ParseRowAsWritten(row).None?
  {
    QuestionTypeIsNotPassed();
  }

  /** `question_type` is required by the model and missing from the loader's arguments. */
  lemma QuestionTypeIsNotPassed()
    ensures "question_type" in ModelRequiredFields && "question_type" !in LoaderArguments
    ensures !(ModelRequiredFields <= LoaderArguments)
  {
    var q := "question_type";
    assert |q| == 13;
    forall a | a in LoaderArguments ensures |a| != 13 {
    }
  }

  /** The rows that parse, in file order: the reference for what `questions` holds. */
  function Parsed(rows: seq<Row>): seq<Question>
  {
    if |rows| == 0 then []
    else
      var q := ParseRow(rows[|rows| - 1]);
      Parsed(rows[..|rows| - 1]) + (if q.Some? then [q.value] else [])
  }

  /** The ids of `qs`. */
  function Numbers(qs: seq<Question>): set<int>
  {
    set j | 0 <= j < |qs| :: qs[j].number
  }

  /** The skills of `qs`. */
  function SkillsOf(qs: seq<Question>): set<string>
  {
    set j | 0 <= j < |qs| :: qs[j].skill
  }

  /** `qs[j]` is the last question with its id. */
  predicate LastWithId(qs: seq<Question>, j: nat)
    requires j < |qs|
  {
    forall j' :: j < j' < |qs| ==> qs[j'].number != qs[j].number
  }

  /** The bank's invariant: the index and the skill set are those of the question list, later ids winning. */
  predicate Consistent(b: QuestionBank)
  {
    && b.byId.Keys == Numbers(b.questions)
    && (forall n :: n in b.byId ==> b.byId[n].number == n)
    && (forall j :: 0 <= j < |b.questions| && LastWithId(b.questions, j) ==> b.byId[b.questions[j].number] == b.questions[j])
    && b.skills == SkillsOf(b.questions)
  }

  /** The bank `load_questions` starts from: every collection reset. */
  const EmptyBank := QuestionBank([], map[], {})

  lemma NumbersAppend(qs: seq<Question>, q: Question)
    ensures Numbers(qs + [q]) == Numbers(qs) + {q.number}
  {
    forall n | n in Numbers(qs + [q]) ensures n in Numbers(qs) + {q.number} {
      var j :| 0 <= j < |qs + [q]| && (qs + [q])[j].number == n;
      if j < |qs| {
        assert qs[j].number == n;
      }
    }
    forall n | n in Numbers(qs) ensures n in Numbers(qs + [q]) {
      var j :| 0 <= j < |qs| && qs[j].number == n;
      assert (qs + [q])[j].number == n;
    }
    assert (qs + [q])[|qs|].number == q.number;
  }

  lemma SkillsAppend(qs: seq<Question>, q: Question)
    ensures SkillsOf(qs + [q]) == SkillsOf(qs) + {q.skill}
  {
    forall k | k in SkillsOf(qs + [q]) ensures k in SkillsOf(qs) + {q.skill} {
      var j :| 0 <= j < |qs + [q]| && (qs + [q])[j].skill == k;
      if j < |qs| {
        assert qs[j].skill == k;
      }
    }
    forall k | k in SkillsOf(qs) ensures k in SkillsOf(qs + [q]) {
      var j :| 0 <= j < |qs| && qs[j].skill == k;
      assert (qs + [q])[j].skill == k;
    }
    assert (qs + [q])[|qs|].skill == q.skill;
  }

  /** Appending `q` keeps `byId` pointing at the last question with each id. */
  lemma AppendKeepsLastWins(b: QuestionBank, q: Question)
    requires Consistent(b)
    ensures forall j :: 0 <= j < |b.questions + [q]| && LastWithId(b.questions + [q], j) ==>
              b.byId[q.number := q][(b.questions + [q])[j].number] == (b.questions + [q])[j]
  {
    var qs := b.questions + [q];
    forall j | 0 <= j < |qs| && LastWithId(qs, j)
      ensures b.byId[q.number := q][qs[j].number] == qs[j]
    {
      if j < |b.questions| {
        assert qs[|b.questions|] == q;
        assert qs[j] == b.questions[j];
        assert LastWithId(b.questions, j) by {
          forall j' | j < j' < |b.questions| ensures b.questions[j'].number != b.questions[j].number {
            assert qs[j'] == b.questions[j'];
          }
        }
      }
    }
  }

  /** The three updates made for one parsed row. */
  function AddQuestion(b: QuestionBank, q: Question): (r: QuestionBank)
    requires Consistent(b)
    ensures Consistent(r)
    ensures r.questions == b.questions + [q]
  {
    NumbersAppend(b.questions, q);
    SkillsAppend(b.questions, q);
    AppendKeepsLastWins(b, q);
    QuestionBank(b.questions + [q], b.byId[q.number := q], b.skills + {q.skill})
  }

  /** The loop of `load_questions` over the rows read so far. */
  function LoadRows(rows: seq<Row>): (r: QuestionBank)
    ensures Consistent(r)
    ensures r.questions == Parsed(rows)
  {
    if |rows| == 0 then EmptyBank
    else
      var b := LoadRows(rows[..|rows| - 1]);
      match ParseRow(rows[|rows| - 1])
      case None => b
      case Some(q) => AddQuestion(b, q)
  }

  /** One more row: the bank grows by that row's question, if it parses. */
  lemma LoadRowsGrow(rows: seq<Row>, i: nat)
    requires i < |rows|
    ensures LoadRows(rows[..i + 1])
            == if ParseRow(rows[i]).Some? then AddQuestion(LoadRows(rows[..i]), ParseRow(rows[i]).value)
               else LoadRows(rows[..i])
  {
    assert rows[..i + 1][..i] == rows[..i];
    assert rows[..i + 1][i] == rows[i];
  }

  /** `load_questions`: reset, then read the rows in order; an unreadable file leaves the bank empty. */
  method LoadQuestions(file: Option<seq<Row>>) returns (b: QuestionBank)
    ensures Consistent(b)
    ensures file.None? ==> b == EmptyBank
    ensures file.Some? ==> b.questions == Parsed(file.value) && b == LoadRows(file.value)
  {
    b := EmptyBank;
    if file.None? {
      return;
    }
    var rows := file.value;
    var i := 0;
    while i < |rows|
      invariant 0 <= i <= |rows|
      invariant b == LoadRows(rows[..i])
    {
      LoadRowsGrow(rows, i);
      var q := ParseRow(rows[i]);
      if q.Some? {
        b := AddQuestion(b, q.value);
      }
      i := i + 1;
    }
    assert rows[..i] == rows;
  }

  /** `get_question_by_id`. */
  function GetQuestionById(b: QuestionBank, id: int): (r: Option<Question>)
    requires Consistent(b)
    ensures r.Some? <==> exists j :: 0 <= j < |b.questions| && b.questions[j].number == id
    ensures r.Some? ==> r.value.number == id
  {
    Lookup(b.byId, id)
  }

  /** Each loaded question that no later row overrides is found by its id. */
  lemma LoadedQuestionIsFound(rows: seq<Row>, j: nat)
    requires j < |Parsed(rows)| && LastWithId(Parsed(rows), j)
    ensures GetQuestionById(LoadRows(rows), Parsed(rows)[j].number) == Some(Parsed(rows)[j])
  {
  }

  /** `get_all_skills`: the distinct skills of the loaded questions (the list order is unspecified). */
  function GetAllSkills(b: QuestionBank): (r: set<string>)
    requires Consistent(b)
    ensures forall k :: k in r <==> exists j :: 0 <= j < |b.questions| && b.questions[j].skill == k
  {
    b.skills
  }

  /** `check_answer`: `None` for an unknown id, otherwise equality after trimming both sides. */
  function CheckAnswer(b: QuestionBank, id: int, userAnswer: string): (r: Option<bool>)
    requires Consistent(b)
    ensures r.None? <==> GetQuestionById(b, id).None?
    ensures r.Some? ==> (r.value <==> Strip(userAnswer) == Strip(GetQuestionById(b, id).value.correctAnswer))
  {
    match GetQuestionById(b, id)
    case None => None
    case Some(q) => Some(Strip(userAnswer) == Strip(q.correctAnswer))
  }

  /** Submitting a question's own correct answer is accepted. */
  lemma OwnAnswerIsAccepted(rows: seq<Row>, j: nat)
    requires j < |Parsed(rows)| && LastWithId(Parsed(rows), j)
    ensures CheckAnswer(LoadRows(rows), Parsed(rows)[j].number, Parsed(rows)[j].correctAnswer) == Some(true)
  {
  }

  /** Surrounding whitespace in the submitted answer never changes the verdict. */
  lemma PaddingIsIgnored(b: QuestionBank, id: int, ws1: string, answer: string, ws2: string)
    requires Consistent(b) && AllSpace(ws1) && AllSpace(ws2)
    ensures CheckAnswer(b, id, ws1 + answer + ws2) == CheckAnswer(b, id, answer)
  {
    StripIgnoresPadding(ws1, answer, ws2);
  }

  /** The comparison is case-sensitive: the lower-case form of a one-letter upper-case answer is rejected. */
  lemma CheckIsCaseSensitive(b: QuestionBank, id: int, c: char)
    requires Consistent(b) && id in b.byId && b.byId[id].correctAnswer == [c] && 'A' <= c <= 'Z'
    ensures CheckAnswer(b, id, [LowerChar(c)]) == Some(false)
  {
    assert !IsSpace(c) && !IsSpace(LowerChar(c));
    StripOfTrimmed([c]);
    StripOfTrimmed([LowerChar(c)]);
  }

  /** With the model as written nothing is ever loaded. */
  lemma AsWrittenLoadsNothing(row: Row)
    ensures ParseRowAsWritten(row).None?
  {
    QuestionTypeIsNotPassed();
  }
}
