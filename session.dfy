/** The answer state of the quiz page: the `answers`, `shortAnswers`,
    `checked` and `score` state variables of the `App` component and the
    event handlers that update them, one event at a time. */
module Session {
  import opened Wrappers
  import opened Grading
  import opened Scoring

  class QuizSession {
    /** The quiz of the result currently shown; `None` when there is no
        result or it carries no quiz. */
    var result: Option<Quiz>
    /** Selected option index per `mcq-<i>` key. */
    var answers: map<Key, nat>
    /** Typed text per `short-<i>` key. */
    var shortAnswers: map<Key, string>
    /** Verdict per key, absent until the question is graded. */
    var checked: map<Key, bool>
    var score: nat

    /** The shown score always agrees with the verdicts. */
    ghost predicate Valid()
      reads this
    {
      score == ScoreOf(result, checked)
    }

    /** The initial state: no result, nothing answered, score zero. */
    constructor ()
      ensures Valid()
      ensures result == None && answers == map[] && shortAnswers == map[]
      ensures checked == map[] && score == 0
    {
      result := None;
      answers, shortAnswers, checked := map[], map[], map[];
      score := 0;
      ScoreOfEmpty(None);
    }

    /** A new result arrives: the effect keyed on `result` clears every
        answer and verdict and sets the score to zero, whatever was there. */
    method ReceiveResult(r: Option<Quiz>)
      modifies this
      ensures Valid()
      ensures result == r && answers == map[] && shortAnswers == map[]
      ensures checked == map[] && score == 0
    {
      result := r;
      answers := map[];
      shortAnswers := map[];
      checked := map[];
      score := 0;
      ScoreOfEmpty(r);
    }

    /** `handleSelect(i, idx)`: records the selection and its verdict under
        `mcq-<i>`, overwriting any earlier ones, and recomputes the score.
        The score changes by the difference of the old and new verdict. */
    method HandleSelect(i: nat, idx: nat)
      requires Valid()
      requires result.Some? && result.value.mcq.Some? && i < |result.value.mcq.value|
      modifies this
      ensures Valid()
      ensures result == old(result) && shortAnswers == old(shortAnswers)
      ensures answers == old(answers)[Mcq(i) := idx]
      ensures checked == old(checked)[Mcq(i) := McqVerdict(result.value.mcq.value[i], idx)]
      ensures score == old(score) - (if IsTrue(old(checked), Mcq(i)) then 1 else 0)
                                  + (if checked[Mcq(i)] then 1 else 0)
    {
      var key := Mcq(i);
      var isCorrect := McqVerdict(result.value.mcq.value[i], idx);
      answers := answers[key := idx];
      ScoreAfterRegrade(result, checked, key, isCorrect);
      checked := checked[key := isCorrect];
      score := RecalcScore(result, checked);
    }

    /** `handleShortAnswer(i, value)`: stores the typed text under
        `short-<i>`; verdicts and score are untouched. */
    method HandleShortAnswer(i: nat, value: string)
      requires Valid()
      modifies this
      ensures Valid()
      ensures shortAnswers == old(shortAnswers)[Short(i) := value]
      ensures result == old(result) && answers == old(answers)
      ensures checked == old(checked) && score == old(score)
    {
      shortAnswers := shortAnswers[Short(i) := value];
    }

    /** `submitShortAnswer(i)`: grades the text typed for `short-<i>` (the
        empty string if none), records the verdict over any earlier one and
        recomputes the score. */
    method SubmitShortAnswer(i: nat)
      requires Valid()
      requires result.Some? && result.value.shortAnswer.Some? && i < |result.value.shortAnswer.value|
      modifies this
      ensures Valid()
      ensures result == old(result) && answers == old(answers) && shortAnswers == old(shortAnswers)
      ensures checked == old(checked)[Short(i) := ShortVerdict(
                Get(shortAnswers, Short(i)), result.value.shortAnswer.value[i])]
      ensures score == old(score) - (if IsTrue(old(checked), Short(i)) then 1 else 0)
                                  + (if checked[Short(i)] then 1 else 0)
    {
      var key := Short(i);
      var typed := Get(shortAnswers, key);
      var isCorrect := ShortVerdict(typed, result.value.shortAnswer.value[i]);
      ScoreAfterRegrade(result, checked, key, isCorrect);
      checked := checked[key := isCorrect];
      score := RecalcScore(result, checked);
    }
  }

  /** `m[key]`, `undefined` when the key is absent. */
  function Get<V>(m: map<Key, V>, key: Key): (r: Option<V>)
    ensures r.Some? <==> key in m
    ensures r.Some? ==> r.value == m[key]
  {
    if key in m then Some(m[key]) else None
  }

  /** An example quiz that exercises `handleSelect`: one question over
      "Array", "Linked List", "Tree", "Graph" whose correct answer is "B";
      choosing "Linked List" is correct and scores 1 of 1. */
  method LinkedListExample() returns (s: QuizSession)
    ensures s.Valid() && s.score == 1 && TotalOf(s.result) == 1
  {
    var item := McqItem(Some("Which structure links nodes?"),
                        [Some("Array"), Some("Linked List"), Some("Tree"), Some("Graph")],
                        Some("B"));
    s := new QuizSession();
    s.ReceiveResult(Some(Quiz(Some([item]), None)));
    assert ('A' as int + 1) as char == 'B';
    assert "" + ['B'] + "" == "B";
    LetterAnswerMarksPosition(item, 1, "", "");
    s.HandleSelect(0, 1);
  }
}
