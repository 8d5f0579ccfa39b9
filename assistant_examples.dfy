/** Worked questions for the study assistant's responder, from its suggestion list and its rule order. */
module AssistantExamples {
  import opened Text
  import opened Assistant

  /** The characters of "exam stress". */
  const ExamStressChars: set<char> := {'e', 'x', 'a', 'm', ' ', 's', 't', 'r'}

  /** "exam stress" includes a keyword of the exam rule and one of the stress rule. */
  lemma ExamStressFiresTwice(q: string)
    requires q == "exam stress"
    ensures Fires(q, Rules[2]) && Fires(q, Rules[8])
  {
    ContainsMiddle("", "exam", " stress");
    assert "" + "exam" + " stress" == q;
    ContainsMiddle("exam ", "stress", "");
    assert "exam " + "stress" + "" == q;
    assert Rules[2].keywords[0] == "exam";
    assert Rules[8].keywords[0] == "stress";
  }

  /** Neither rule tried before the exam rule fires on "exam stress". */
  lemma ExamStressMissesEarlierRules(q: string)
    requires q == "exam stress"
    ensures !Fires(q, Rules[0]) && !Fires(q, Rules[1])
  {
    assert forall i :: 0 <= i < |q| ==> q[i] in ExamStressChars;
    RuleMissedByChars(q, ExamStressChars, Rules[0], [0, 2]);
    RuleMissedByChars(q, ExamStressChars, Rules[1], [1, 0]);
  }

  /** "exam stress" fires both the exam and the stress rule; the exam rule is tried first and wins. */
  lemma ExamStressGetsExamAnswer(q: string)
    requires q == "exam stress"
    ensures Fires(q, Rules[8])
    ensures Respond(q) == Canned(Exam)
  {
    LowerWithoutCapitals(q);
    ExamStressFiresTwice(q);
    ExamStressMissesEarlierRules(q);
    assert FirstFiring(q, Rules, 2);
    FirstRuleAnswers(q, 2);
  }

  lemma LowerStudyQuestion(q: string, lower: string)
    requires q == "How to study effectively?" && lower == "how to study effectively?"
    ensures ToLower(q) == lower
  {
    assert forall i | 0 < i < |q| :: q[i] == lower[i] && !IsUpper(q[i]);
  }

  /** "How to study effectively?" gets the study-tips answer. */
  lemma StudyQuestionGetsStudyTips(q: string)
    requires q == "How to study effectively?"
    ensures Respond(q) == Canned(StudyTips)
  {
    var lower := "how to study effectively?";
    LowerStudyQuestion(q, lower);
    assert OccursAt(lower, Rules[0].keywords[0], 0);
    assert FirstFiring(lower, Rules, 0);
    FirstRuleAnswers(q, 0);
  }

  /** The characters of "xyz123". */
  const UnknownChars: set<char> := {'x', 'y', 'z', '1', '2', '3'}

  /** The first three rules miss "xyz123": no keyword starts with one of its characters. */
  lemma UnknownMissesFirstRules(q: string)
    requires forall i :: 0 <= i < |q| ==> q[i] in UnknownChars
    ensures forall i :: 0 <= i < 3 ==> !Fires(q, Rules[i])
  {
    RuleMissedByChars(q, UnknownChars, Rules[0], [0, 0]);
    RuleMissedByChars(q, UnknownChars, Rules[1], [0, 0]);
    RuleMissedByChars(q, UnknownChars, Rules[2], [0, 0]);
  }

  /** The fourth and fifth rules miss "xyz123". */
  lemma UnknownMissesMiddleRules(q: string)
    requires forall i :: 0 <= i < |q| ==> q[i] in UnknownChars
    ensures forall i :: 3 <= i < 5 ==> !Fires(q, Rules[i])
  {
    RuleMissedByChars(q, UnknownChars, Rules[3], [0, 0, 0]);
    RuleMissedByChars(q, UnknownChars, Rules[4], [0, 0, 0]);
  }

  /** The last four rules miss "xyz123" too. */
  lemma UnknownMissesLastRules(q: string)
    requires forall i :: 0 <= i < |q| ==> q[i] in UnknownChars
    ensures forall i :: 5 <= i < |Rules| ==> !Fires(q, Rules[i])
  {
    RuleMissedByChars(q, UnknownChars, Rules[5], [0, 0, 0]);
    RuleMissedByChars(q, UnknownChars, Rules[6], [0, 0, 0, 0]);
    RuleMissedByChars(q, UnknownChars, Rules[7], [0, 0]);
    RuleMissedByChars(q, UnknownChars, Rules[8], [0, 0, 0]);
  }

  /** "xyz123" matches no rule, so the help text quoting "xyz123" comes back. */
  lemma UnknownQuestionGetsDefault(q: string)
    requires q == "xyz123"
    ensures Respond(q) == Help("xyz123")
  {
    LowerWithoutCapitals(q);
    assert forall i :: 0 <= i < |q| ==> q[i] in UnknownChars;
    UnknownMissesFirstRules(q);
    UnknownMissesMiddleRules(q);
    UnknownMissesLastRules(q);
    NoRuleGetsHelp(q);
  }

  /** The characters of "how to stay motivated?". */
  const MotivatedChars: set<char> := {'h', 'o', 'w', ' ', 't', 's', 'a', 'y', 'm', 'i', 'v', 'e', 'd', '?'}

  /** Rules whose every keyword has a character that "how to stay motivated?" lacks. */
  lemma MotivatedMissesEarlyRules(lower: string)
    requires forall i :: 0 <= i < |lower| ==> lower[i] in MotivatedChars
    ensures !Fires(lower, Rules[0]) && !Fires(lower, Rules[1])
    ensures !Fires(lower, Rules[3]) && !Fires(lower, Rules[4])
  {
    RuleMissedByChars(lower, MotivatedChars, Rules[0], [9, 2]);
    RuleMissedByChars(lower, MotivatedChars, Rules[1], [7, 1]);
    RuleMissedByChars(lower, MotivatedChars, Rules[3], [4, 0, 4]);
    RuleMissedByChars(lower, MotivatedChars, Rules[4], [9, 0, 0]);
  }

  /** Later rules whose every keyword has a character that "how to stay motivated?" lacks. */
  lemma MotivatedMissesLateRules(lower: string)
    requires forall i :: 0 <= i < |lower| ==> lower[i] in MotivatedChars
    ensures !Fires(lower, Rules[5]) && !Fires(lower, Rules[7]) && !Fires(lower, Rules[8])
  {
    RuleMissedByChars(lower, MotivatedChars, Rules[5], [0, 0, 0]);
    RuleMissedByChars(lower, MotivatedChars, Rules[7], [0, 0]);
    RuleMissedByChars(lower, MotivatedChars, Rules[8], [2, 1, 3]);
  }

  /** "es" and "ma" never stand side by side in "how to stay motivated?". */
  lemma MotivatedLacksPairs(lower: string)
    requires lower == "how to stay motivated?"
    ensures !Contains(lower, "test") && !Contains(lower, "math")
  {
    MissingPairNotIncluded(lower, "test", 1);
    MissingPairNotIncluded(lower, "math", 0);
  }

  /** Keywords of the exam and the science rules with a letter "how to stay motivated?" lacks. */
  lemma MotivatedLacksLetters(lower: string)
    requires forall i :: 0 <= i < |lower| ==> lower[i] in MotivatedChars
    ensures !Contains(lower, "exam") && !Contains(lower, "science")
    ensures !Contains(lower, "physics") && !Contains(lower, "chemistry")
  {
    assert 'x' !in MotivatedChars && 'c' !in MotivatedChars && 'p' !in MotivatedChars;
    OutsideCharNotIncluded(lower, MotivatedChars, "exam", 1);
    OutsideCharNotIncluded(lower, MotivatedChars, "science", 1);
    OutsideCharNotIncluded(lower, MotivatedChars, "physics", 0);
    OutsideCharNotIncluded(lower, MotivatedChars, "chemistry", 0);
  }

  /** The exam rule misses a text with neither "exam" nor "test". */
  lemma ExamRuleMissed(lower: string)
    requires !Contains(lower, "exam") && !Contains(lower, "test")
    ensures !Fires(lower, Rules[2])
  {
    assert Rules[2].keywords == ["exam", "test"];
    KeywordsMissed(lower, Rules[2].keywords);
  }

  /** The math and science rule misses a text with none of its four keywords. */
  lemma MathRuleMissed(lower: string)
    requires !Contains(lower, "math") && !Contains(lower, "science")
    requires !Contains(lower, "physics") && !Contains(lower, "chemistry")
    ensures !Fires(lower, Rules[6])
  {
    assert Rules[6].keywords == ["math", "science", "physics", "chemistry"];
    KeywordsMissed(lower, Rules[6].keywords);
  }

  /** No rule fires on "how to stay motivated?". */
  lemma MotivatedMissesAllRules(lower: string)
    requires lower == "how to stay motivated?"
    ensures forall i :: 0 <= i < |Rules| ==> !Fires(lower, Rules[i])
  {
    assert forall i :: 0 <= i < |lower| ==> lower[i] in MotivatedChars;
    MotivatedLacksPairs(lower);
    MotivatedMissesEarlyRules(lower);
    MotivatedMissesLateRules(lower);
    MotivatedLacksLetters(lower);
    ExamRuleMissed(lower);
    MathRuleMissed(lower);
  }

  lemma LowerMotivatedQuestion(q: string, lower: string)
    requires q == "How to stay motivated?" && lower == "how to stay motivated?"
    ensures ToLower(q) == lower
  {
    assert forall i | 0 < i < |q| :: q[i] == lower[i] && !IsUpper(q[i]);
  }

  /** "motivated" does not include "motivation": "How to stay motivated?" fires no rule and gets the help text. */
  lemma MotivatedGetsDefault(q: string)
    requires q == "How to stay motivated?"
    ensures Respond(q) == Help(q)
  {
    var lower := "how to stay motivated?";
    LowerMotivatedQuestion(q, lower);
    MotivatedMissesAllRules(lower);
    NoRuleGetsHelp(q);
  }
}
