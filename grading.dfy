/** The answer evaluator of the quiz page: how a selected option or a typed
    answer is judged against a question's `correct_answer`. */
module Grading {
  import opened Wrappers
  import opened Text

  /** One multiple-choice question as the generation API returns it. Any
      field may be missing from the JSON, so each is optional. */
  datatype McqItem = McqItem(question: Option<string>, options: seq<Option<string>>,
                             correctAnswer: Option<string>)

  /** One short-answer question. */
  datatype ShortItem = ShortItem(question: Option<string>, correctAnswer: Option<string>)

  /** The `quiz` object of a result; either array may be absent. */
  datatype Quiz = Quiz(mcq: Option<seq<McqItem>>, shortAnswer: Option<seq<ShortItem>>)

  /** `normalizeAnswer`: an absent value stays absent; a present one is
      trimmed (ECMAScript whitespace) and then lower-cased. */
  function Normalize(s: Option<string>): (r: Option<string>)
    ensures r.None? <==> s.None?
    ensures r.Some? ==> Trimmed(EcmaScript, r.value)
    ensures r.Some? ==> forall k :: 0 <= k < |r.value| ==> !('A' <= r.value[k] <= 'Z')
  {
    match s
    case None => None
    case Some(t) =>
      var r := Lower(Trim(EcmaScript, t));
      LowerKeepsTrimmed(EcmaScript, Trim(EcmaScript, t));
      LowerHasNoCapital(Trim(EcmaScript, t));
      Some(r)
  }

  /** Normalising an already normalised value changes nothing. */
  lemma NormalizeIdempotent(s: Option<string>)
    ensures Normalize(Normalize(s)) == Normalize(s)
  {
    if s.Some? {
      var t := Trim(EcmaScript, s.value);
      var n := Lower(t);
      assert Normalize(s) == Some(n);
      TrimOfTrimmed(EcmaScript, n);
      LowerIdempotent(t);
    }
  }

  /** Normalising equals lower-casing the text between the leading and the
      trailing whitespace. */
  lemma NormalizeIsTrimmedLower(s: string)
    ensures exists i, j :: 0 <= i <= j <= |s| && Normalize(Some(s)) == Some(Lower(s[i..j]))
                           && (forall k :: 0 <= k < i ==> IsSpace(EcmaScript, s[k]))
                           && (forall k :: j <= k < |s| ==> IsSpace(EcmaScript, s[k]))
  {
    TrimIsSlice(EcmaScript, s);
    var i := |s| - |TrimStart(EcmaScript, s)|;
    var j := i + |Trim(EcmaScript, s)|;
    assert Normalize(Some(s)) == Some(Lower(s[i..j]));
  }

  /** `String.fromCharCode(65 + idx).toLowerCase()`, the letter shown
      beside option `idx`. `fromCharCode` keeps the code modulo 2^16; a
      code in the surrogate block is no character of this model's strings,
      so it yields `None` and never matches. */
  function PositionLetter(idx: nat): (r: Option<char>)
    ensures idx < 26 ==> r == Some(('a' as int + idx) as char)
  {
    var code := (65 + idx) % 0x1_0000;
    if 0xD800 <= code < 0xE000 then None else Some(LowerChar(code as char))
  }

  /** The letter code wraps around: option `idx` and option
      `idx + 65536` carry the same letter. */
  lemma PositionLetterWraps(idx: nat)
    ensures PositionLetter(idx + 0x1_0000) == PositionLetter(idx)
  {
    assert (65 + idx + 0x1_0000) % 0x1_0000 == (65 + idx) % 0x1_0000;
  }

  /** The label of option `idx`, absent when `idx` is past the end of the
      list (JavaScript yields `undefined` there). */
  function OptionLabel(item: McqItem, idx: nat): Option<string> {
    if idx < |item.options| then item.options[idx] else None
  }

  /** The verdict of `handleSelect`: the option's text or its positional
      letter, normalised, equals the normalised correct answer. */
  function McqVerdict(item: McqItem, idx: nat): (v: bool)
    ensures v <==>
      (OptionLabel(item, idx).None? && item.correctAnswer.None?)
      || (OptionLabel(item, idx).Some? && item.correctAnswer.Some?
          && Lower(Trim(EcmaScript, OptionLabel(item, idx).value))
             == Lower(Trim(EcmaScript, item.correctAnswer.value)))
      || (item.correctAnswer.Some? && PositionLetter(idx).Some?
          && Lower(Trim(EcmaScript, item.correctAnswer.value)) == [PositionLetter(idx).value])
  {
    var correct := Normalize(item.correctAnswer);
    Normalize(OptionLabel(item, idx)) == correct
    || (PositionLetter(idx).Some? && correct == Some([PositionLetter(idx).value]))
  }

  /** The verdict of `submitShortAnswer`: the typed text (the empty string
      when nothing was typed) equals the correct answer after both are
      normalised. */
  function ShortVerdict(typed: Option<string>, item: ShortItem): (v: bool)
    ensures v <==>
      (item.correctAnswer.Some?
       && Lower(Trim(EcmaScript, if typed.Some? then typed.value else ""))
          == Lower(Trim(EcmaScript, item.correctAnswer.value)))
  {
    var userVal := if typed.None? || typed.value == "" then "" else typed.value;
    Normalize(Some(userVal)) == Normalize(item.correctAnswer)
  }

  /** An MCQ verdict is true exactly when the option text matches the
      correct answer up to surrounding whitespace and ASCII case, or the
      correct answer is the option's letter (either case, surrounding
      whitespace ignored). */
  lemma McqVerdictIff(item: McqItem, idx: nat)
    requires idx < |item.options| && idx < 26 && item.correctAnswer.Some?
    requires item.options[idx].Some?
    ensures McqVerdict(item, idx) <==>
      Lower(Trim(EcmaScript, item.options[idx].value)) == Lower(Trim(EcmaScript, item.correctAnswer.value))
      || Lower(Trim(EcmaScript, item.correctAnswer.value)) == [('a' as int + idx) as char]
  {
    assert Normalize(item.correctAnswer) == Some(Lower(Trim(EcmaScript, item.correctAnswer.value)));
    assert Normalize(OptionLabel(item, idx)) == Some(Lower(Trim(EcmaScript, item.options[idx].value)));
    assert PositionLetter(idx) == Some(('a' as int + idx) as char);
  }

  /** A letter answer selects by position: correct answer "B" (or " B",
      "B\n", ...) makes option 1 correct whatever its text. */
  lemma LetterAnswerMarksPosition(item: McqItem, idx: nat, pre: string, post: string)
    requires idx < 26
    requires forall k :: 0 <= k < |pre| ==> IsSpace(EcmaScript, pre[k])
    requires forall k :: 0 <= k < |post| ==> IsSpace(EcmaScript, post[k])
    requires item.correctAnswer == Some(pre + [('A' as int + idx) as char] + post)
    ensures McqVerdict(item, idx)
  {
    var c := pre + [('A' as int + idx) as char] + post;
    var letter := ('A' as int + idx) as char;
    assert TrimStart(EcmaScript, c) == [letter] + post by {
      TrimStartSpaces(pre, [letter] + post);
      assert c == pre + ([letter] + post);
    }
    assert TrimEnd(EcmaScript, [letter] + post) == [letter] by {
      TrimEndSpaces([letter], post);
    }
    assert Trim(EcmaScript, c) == [letter];
    assert Lower([letter]) == [LowerChar(letter)];
    assert LowerChar(letter) == ('a' as int + idx) as char;
    assert Normalize(item.correctAnswer) == Some([LowerChar(letter)]);
    assert PositionLetter(idx) == Some(LowerChar(letter));
  }

  /** Leading whitespace is dropped up to the first non-space character. */
  lemma {:induction false} TrimStartSpaces(pad: string, s: string)
    requires forall k :: 0 <= k < |pad| ==> IsSpace(EcmaScript, pad[k])
    requires s != [] && !IsSpace(EcmaScript, s[0])
    ensures TrimStart(EcmaScript, pad + s) == s
  {
    if pad != [] {
      assert (pad + s)[1..] == pad[1..] + s;
      TrimStartSpaces(pad[1..], s);
    }
  }

  /** Trailing whitespace is dropped back to the last non-space character. */
  lemma {:induction false} TrimEndSpaces(s: string, pad: string)
    requires forall k :: 0 <= k < |pad| ==> IsSpace(EcmaScript, pad[k])
    requires s != [] && !IsSpace(EcmaScript, s[|s| - 1])
    ensures TrimEnd(EcmaScript, s + pad) == s
  {
    if pad != [] {
      assert (s + pad)[..|s + pad| - 1] == s + pad[..|pad| - 1];
      TrimEndSpaces(s, pad[..|pad| - 1]);
    }
  }

  /** Selecting an option whose text is the correct answer up to
      surrounding whitespace and ASCII case is judged correct. */
  lemma TextAnswerMarksOption(item: McqItem, idx: nat)
    requires idx < |item.options| && item.options[idx].Some? && item.correctAnswer.Some?
    requires Lower(Trim(EcmaScript, item.options[idx].value))
             == Lower(Trim(EcmaScript, item.correctAnswer.value))
    ensures McqVerdict(item, idx)
  {
  }

  /** When both the option and the correct answer are missing, the two
      `undefined`s compare equal and the option is judged correct. */
  lemma BothMissingIsCorrect(item: McqItem, idx: nat)
    requires item.correctAnswer.None? && OptionLabel(item, idx).None?
    ensures McqVerdict(item, idx)
  {
  }

  /** An answer never typed (graded as the empty string) is correct
      exactly when the correct answer is present and all whitespace. */
  lemma ShortUntypedIsEmpty(item: ShortItem)
    ensures ShortVerdict(None, item) <==>
      item.correctAnswer.Some? && Trim(EcmaScript, item.correctAnswer.value) == ""
  {
    if item.correctAnswer.Some? {
      var t := Trim(EcmaScript, item.correctAnswer.value);
      assert |Lower(t)| == |t|;
      assert Trim(EcmaScript, "") == "";
    }
  }
}
