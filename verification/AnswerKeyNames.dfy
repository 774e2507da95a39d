/** Which keys are answer keys: the flag of a correct option, "correct" itself, and six names in every form that
    clients write them. */
module AnswerKeyNames {
  import opened Text
  import opened AnswerKeys

  /** Words joined by a separator. */
  function Joined(words: seq<string>, separator: string): string {
    if words == [] then ""
    else if |words| == 1 then words[0]
    else words[0] + separator + Joined(words[1..], separator)
  }

  /** With underscores between the words or without, in the singular or plural. */
  function Forms(words: seq<string>): set<string> {
    {Joined(words, "_"), Joined(words, "_") + "s", Joined(words, ""), Joined(words, "") + "s"}
  }

  lemma JoinedTwo(first: string, second: string, separator: string)
    ensures Joined([first, second], separator) == first + separator + second
  {
    assert [first, second][1..] == [second];
  }

  lemma JoinedThree(first: string, second: string, third: string, separator: string)
    ensures Joined([first, second, third], separator) == first + separator + second + separator + third
  {
    assert [first, second, third][1..] == [second, third];
    JoinedTwo(second, third, separator);
  }

  lemma FormsOfTwo(first: string, second: string, apart: string, together: string)
    requires apart == first + "_" + second && together == first + second
    ensures Forms([first, second]) == {apart, apart + "s", together, together + "s"}
  {
    JoinedTwo(first, second, "_");
    JoinedTwo(first, second, "");
    assert first + "" + second == together;
  }

  lemma AcceptedAnswer()
    ensures Forms(["accepted", "answer"])
         == {"accepted_answer", "accepted_answers", "acceptedanswer", "acceptedanswers"}
  {
    assert "accepted_answer" == "accepted" + "_" + "answer" && "acceptedanswer" == "accepted" + "answer";
    FormsOfTwo("accepted", "answer", "accepted_answer", "acceptedanswer");
    assert "accepted_answer" + "s" == "accepted_answers" && "acceptedanswer" + "s" == "acceptedanswers";
  }

  lemma CorrectAnswer()
    ensures Forms(["correct", "answer"]) == {"correct_answer", "correct_answers", "correctanswer", "correctanswers"}
  {
    assert "correct_answer" == "correct" + "_" + "answer" && "correctanswer" == "correct" + "answer";
    FormsOfTwo("correct", "answer", "correct_answer", "correctanswer");
    assert "correct_answer" + "s" == "correct_answers" && "correctanswer" + "s" == "correctanswers";
  }

  lemma ExpectedAnswer()
    ensures Forms(["expected", "answer"])
         == {"expected_answer", "expected_answers", "expectedanswer", "expectedanswers"}
  {
    assert "expected_answer" == "expected" + "_" + "answer" && "expectedanswer" == "expected" + "answer";
    FormsOfTwo("expected", "answer", "expected_answer", "expectedanswer");
    assert "expected_answer" + "s" == "expected_answers" && "expectedanswer" + "s" == "expectedanswers";
  }

  lemma AnswerKey()
    ensures Forms(["answer", "key"]) == {"answer_key", "answer_keys", "answerkey", "answerkeys"}
  {
    assert "answer_key" == "answer" + "_" + "key" && "answerkey" == "answer" + "key";
    FormsOfTwo("answer", "key", "answer_key", "answerkey");
    assert "answer_key" + "s" == "answer_keys" && "answerkey" + "s" == "answerkeys";
  }

  lemma CorrectId()
    ensures Forms(["correct", "id"]) == {"correct_id", "correct_ids", "correctid", "correctids"}
  {
    assert "correct_id" == "correct" + "_" + "id" && "correctid" == "correct" + "id";
    FormsOfTwo("correct", "id", "correct_id", "correctid");
    assert "correct_id" + "s" == "correct_ids" && "correctid" + "s" == "correctids";
  }

  lemma CorrectOptionId()
    ensures Forms(["correct", "option", "id"])
         == {"correct_option_id", "correct_option_ids", "correctoptionid", "correctoptionids"}
  {
    JoinedThree("correct", "option", "id", "_");
    JoinedThree("correct", "option", "id", "");
    assert "correct" + "_" + "option" + "_" + "id" == "correct_option_id";
    assert "correct" + "" + "option" + "" + "id" == "correctoptionid";
    assert "correct_option_id" + "s" == "correct_option_ids" && "correctoptionid" + "s" == "correctoptionids";
  }

  /** All the names. */
  function Names(): set<string> {
    {"correct", "is_correct", "iscorrect"} + Forms(["accepted", "answer"]) + Forms(["correct", "answer"])
    + Forms(["expected", "answer"]) + Forms(["answer", "key"]) + Forms(["correct", "id"])
    + Forms(["correct", "option", "id"])
  }

  lemma NamesOf(name: string, accepted: set<string>, correct: set<string>, expected: set<string>, keys: set<string>,
                ids: set<string>, optionIds: set<string>)
    requires accepted == {"accepted_answer", "accepted_answers", "acceptedanswer", "acceptedanswers"}
    requires correct == {"correct_answer", "correct_answers", "correctanswer", "correctanswers"}
    requires expected == {"expected_answer", "expected_answers", "expectedanswer", "expectedanswers"}
    requires keys == {"answer_key", "answer_keys", "answerkey", "answerkeys"}
    requires ids == {"correct_id", "correct_ids", "correctid", "correctids"}
    requires optionIds == {"correct_option_id", "correct_option_ids", "correctoptionid", "correctoptionids"}
    ensures name in ANSWER_KEYS <==>
              name in {"correct", "is_correct", "iscorrect"} + accepted + correct + expected + keys + ids + optionIds
  {
  }

  /** A key is removed exactly when, with white space trimmed and in lower case, it is one of the names. */
  lemma AnswerKeysExactly(key: string)
    ensures IsAnswerKey(key) <==> Lower(Trim(key)) in Names()
  {
    AcceptedAnswer();
    CorrectAnswer();
    ExpectedAnswer();
    AnswerKey();
    CorrectId();
    CorrectOptionId();
    NamesOf(Lower(Trim(key)), Forms(["accepted", "answer"]), Forms(["correct", "answer"]),
            Forms(["expected", "answer"]), Forms(["answer", "key"]), Forms(["correct", "id"]),
            Forms(["correct", "option", "id"]));
  }

  // ---------- Keys that are kept ----------

  predicate StandsAt(s: string, word: string, i: nat) {
    i + |word| <= |s| && s[i..i + |word|] == word
  }

  /** The word stands somewhere in the text. */
  ghost predicate Contains(s: string, word: string) {
    exists i :: StandsAt(s, word, i)
  }

  lemma ContainsAt(s: string, before: string, word: string, after: string)
    requires s == before + word + after
    ensures Contains(s, word)
  {
    assert s[|before|..|before| + |word|] == word;
    assert StandsAt(s, word, |before|);
  }

  lemma FormsContain(first: string, second: string, key: string)
    requires key in Forms([first, second])
    ensures Contains(key, first) && Contains(key, second)
  {
    JoinedTwo(first, second, "_");
    JoinedTwo(first, second, "");
    var separator := if key == first + "_" + second || key == first + "_" + second + "s" then "_" else "";
    var ending := if key == first + separator + second then "" else "s";
    assert key == first + separator + second + ending;
    ContainsAt(key, "", first, separator + second + ending);
    ContainsAt(key, first + separator, second, ending);
  }

  lemma FormsOfThreeContain(first: string, second: string, third: string, key: string)
    requires key in Forms([first, second, third])
    ensures Contains(key, first)
  {
    JoinedThree(first, second, third, "_");
    JoinedThree(first, second, third, "");
    assert first <= key;
    ContainsAt(key, "", first, key[|first|..]);
  }

  lemma FlagsContain(key: string)
    requires key in {"correct", "is_correct", "iscorrect"}
    ensures Contains(key, "correct")
  {
    var before := if key == "is_correct" then "is_" else if key == "iscorrect" then "is" else "";
    assert key == before + "correct";
    ContainsAt(key, before, "correct", "");
  }

  /** Each name has the word "correct" or the word "answer" in it, so every key without these words is kept, and with
      it all that clients need to show a question. */
  lemma OtherKeysAreKept(key: string)
    requires !Contains(Lower(Trim(key)), "correct") && !Contains(Lower(Trim(key)), "answer")
    ensures !IsAnswerKey(key)
  {
    AnswerKeysExactly(key);
    var name := Lower(Trim(key));
    if name in Names() {
      if name in {"correct", "is_correct", "iscorrect"} {
        FlagsContain(name);
      } else if name in Forms(["accepted", "answer"]) {
        FormsContain("accepted", "answer", name);
      } else if name in Forms(["correct", "answer"]) {
        FormsContain("correct", "answer", name);
      } else if name in Forms(["expected", "answer"]) {
        FormsContain("expected", "answer", name);
      } else if name in Forms(["answer", "key"]) {
        FormsContain("answer", "key", name);
      } else if name in Forms(["correct", "id"]) {
        FormsContain("correct", "id", name);
      } else {
        FormsOfThreeContain("correct", "option", "id", name);
      }
    }
  }
}
