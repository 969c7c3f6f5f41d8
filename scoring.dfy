/** Score keeping of the quiz page: the `checked` verdict map, how
    `recalcScore` totals it, and the denominator the page shows. */
module Scoring {
  import opened Wrappers
  import opened Grading

  /** A key of the `answers`, `shortAnswers` and `checked` maps, standing
      for the strings `mcq-<i>` and `short-<i>`; distinct kinds or indices
      give distinct strings, as distinct constructors do here. */
  datatype Key = Mcq(index: nat) | Short(index: nat)

  /** Which of the two question arrays a key belongs to. */
  datatype Kind = McqKind | ShortKind

  function KeyOf(k: Kind, i: nat): (key: Key)
    ensures key.index == i
    ensures key.Mcq? <==> k == McqKind
  {
    if k == McqKind then Mcq(i) else Short(i)
  }

  /** `if (checkedState[key])`: a missing key and a `false` verdict both
      add nothing. */
  predicate IsTrue(checked: map<Key, bool>, key: Key) {
    key in checked && checked[key]
  }

  /** How many of the indices below `n`, of kind `k`, hold a true verdict. */
  function Count(checked: map<Key, bool>, k: Kind, n: nat): (r: nat)
    ensures r <= n
  {
    if n == 0 then 0
    else Count(checked, k, n - 1) + (if IsTrue(checked, KeyOf(k, n - 1)) then 1 else 0)
  }

  /** `a?.length || 0`: an absent array has no questions. */
  function Length<T>(a: Option<seq<T>>): nat {
    if a.None? then 0 else |a.value|
  }

  function McqLength(quiz: Option<Quiz>): nat {
    if quiz.None? then 0 else Length(quiz.value.mcq)
  }

  function ShortLength(quiz: Option<Quiz>): nat {
    if quiz.None? then 0 else Length(quiz.value.shortAnswer)
  }

  /** The denominator shown beside the score: the number of gradable
      questions. */
  function TotalOf(quiz: Option<Quiz>): nat {
    McqLength(quiz) + ShortLength(quiz)
  }

  /** The score `recalcScore` computes: true verdicts over the indices of
      the current `mcq` array plus those over the `short_answer` array. It
      never exceeds the number of questions. */
  function ScoreOf(quiz: Option<Quiz>, checked: map<Key, bool>): (r: nat)
    ensures r <= TotalOf(quiz)
  {
    Count(checked, McqKind, McqLength(quiz)) + Count(checked, ShortKind, ShortLength(quiz))
  }

  /** `recalcScore`: walks both arrays in order, adding one for every index
      whose verdict is true. */
  method RecalcScore(quiz: Option<Quiz>, checked: map<Key, bool>) returns (s: nat)
    ensures s == ScoreOf(quiz, checked)
  {
    s := 0;
    var m := McqLength(quiz);
    var i := 0;
    while i < m
      invariant 0 <= i <= m
      invariant s == Count(checked, McqKind, i)
    {
      if Mcq(i) in checked && checked[Mcq(i)] {
        s := s + 1;
      }
      i := i + 1;
    }
    var n := ShortLength(quiz);
    var j := 0;
    while j < n
      invariant 0 <= j <= n
      invariant s == Count(checked, McqKind, m) + Count(checked, ShortKind, j)
    {
      if Short(j) in checked && checked[Short(j)] {
        s := s + 1;
      }
      j := j + 1;
    }
  }

  /** The indices below `n`, of kind `k`, whose verdict is true. */
  function TrueIndices(checked: map<Key, bool>, k: Kind, n: nat): set<nat> {
    set i: nat | i < n && IsTrue(checked, KeyOf(k, i))
  }

  /** `Count` is the size of the set of correctly answered indices. */
  lemma {:induction false} CountIsCardinality(checked: map<Key, bool>, k: Kind, n: nat)
    ensures Count(checked, k, n) == |TrueIndices(checked, k, n)|
  {
    if n > 0 {
      CountIsCardinality(checked, k, n - 1);
      var prev := TrueIndices(checked, k, n - 1);
      if IsTrue(checked, KeyOf(k, n - 1)) {
        assert TrueIndices(checked, k, n) == prev + {n - 1};
      } else {
        assert TrueIndices(checked, k, n) == prev;
      }
    } else {
      assert TrueIndices(checked, k, n) == {};
    }
  }

  /** With no verdicts the count is zero. */
  lemma {:induction false} CountEmpty(k: Kind, n: nat)
    ensures Count(map[], k, n) == 0
  {
    if n > 0 {
      CountEmpty(k, n - 1);
    }
  }

  /** Changing the verdict of a key outside the counted range leaves the
      count as it was. */
  lemma {:induction false} CountOtherKey(checked: map<Key, bool>, k: Kind, n: nat, key: Key, b: bool)
    requires key.Mcq? != (k == McqKind) || n <= key.index
    ensures Count(checked[key := b], k, n) == Count(checked, k, n)
  {
    if n > 0 {
      CountOtherKey(checked, k, n - 1, key, b);
    }
  }

  /** Replacing the verdict of index `i` (below `n`) replaces its
      contribution to the count, and only that. */
  lemma {:induction false} CountUpdate(checked: map<Key, bool>, k: Kind, n: nat, i: nat, b: bool)
    requires i < n
    ensures Count(checked[KeyOf(k, i) := b], k, n)
            == Count(checked, k, n) - (if IsTrue(checked, KeyOf(k, i)) then 1 else 0) + (if b then 1 else 0)
  {
    if i == n - 1 {
      CountOtherKey(checked, k, n - 1, KeyOf(k, i), b);
    } else {
      CountUpdate(checked, k, n - 1, i, b);
    }
  }

  /** After a reset the score is zero. */
  lemma ScoreOfEmpty(quiz: Option<Quiz>)
    ensures ScoreOf(quiz, map[]) == 0
  {
    CountEmpty(McqKind, McqLength(quiz));
    CountEmpty(ShortKind, ShortLength(quiz));
  }

  /** The score is the number of MCQ indices judged correct plus the
      number of short-answer indices judged correct. */
  lemma ScoreIsCorrectCount(quiz: Option<Quiz>, checked: map<Key, bool>)
    ensures ScoreOf(quiz, checked)
            == |TrueIndices(checked, McqKind, McqLength(quiz))|
             + |TrueIndices(checked, ShortKind, ShortLength(quiz))|
  {
    CountIsCardinality(checked, McqKind, McqLength(quiz));
    CountIsCardinality(checked, ShortKind, ShortLength(quiz));
  }

  /** Re-grading one question replaces its verdict: the score loses that
      question's old contribution and gains the new one. */
  lemma {:induction false} ScoreAfterRegrade(quiz: Option<Quiz>, checked: map<Key, bool>, key: Key, b: bool)
    requires key.Mcq? ==> key.index < McqLength(quiz)
    requires key.Short? ==> key.index < ShortLength(quiz)
    ensures ScoreOf(quiz, checked[key := b])
            == ScoreOf(quiz, checked) - (if IsTrue(checked, key) then 1 else 0) + (if b then 1 else 0)
  {
    if key.Mcq? {
      CountUpdate(checked, McqKind, McqLength(quiz), key.index, b);
      CountOtherKey(checked, ShortKind, ShortLength(quiz), key, b);
    } else {
      CountOtherKey(checked, McqKind, McqLength(quiz), key, b);
      CountUpdate(checked, ShortKind, ShortLength(quiz), key.index, b);
    }
  }

  /** Going from correct to incorrect on one question lowers the score by
      exactly one. */
  lemma CorrectToWrongLowersScore(quiz: Option<Quiz>, checked: map<Key, bool>, key: Key)
    requires key.Mcq? ==> key.index < McqLength(quiz)
    requires key.Short? ==> key.index < ShortLength(quiz)
    requires IsTrue(checked, key)
    ensures ScoreOf(quiz, checked[key := false]) == ScoreOf(quiz, checked) - 1
  {
    ScoreAfterRegrade(quiz, checked, key, false);
  }
}
