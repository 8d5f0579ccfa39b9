/**
  The study assistant's local responder (`getAIResponse`): the question is
  lower-cased, an ordered list of keyword rules is tried in turn and the
  first rule with a keyword included in the question selects a fixed answer;
  when no rule fires, a help text that quotes the original question is returned.
 */
module Assistant {
  import opened Wrappers
  import opened Text

  datatype Topic =
    | StudyTips | TimeManagement | Exam | Memory | Motivation
    | NoteTaking | MathScience | Reading | Stress

  /** A rule fires when the lower-cased question includes any one of its keywords. */
  datatype Rule = Rule(keywords: seq<string>, topic: Topic)

  /** The rules in the order the responder tries them. */
  const Rules: seq<Rule> := [
    Rule(["how to study", "study tips"], StudyTips),
    Rule(["time management", "organize time"], TimeManagement),
    Rule(["exam", "test"], Exam),
    Rule(["memory", "remember", "memorize"], Memory),
    Rule(["motivation", "focus", "concentrate"], Motivation),
    Rule(["notes", "note-taking", "note taking"], NoteTaking),
    Rule(["math", "science", "physics", "chemistry"], MathScience),
    Rule(["reading", "comprehension"], Reading),
    Rule(["stress", "anxiety", "overwhelmed"], Stress)
  ]

  /** `k1 || k2 || ...`: some keyword is included in the text. */
  predicate AnyIncluded(lower: string, keywords: seq<string>)
  {
    |keywords| > 0 && (Contains(lower, keywords[0]) || AnyIncluded(lower, keywords[1..]))
  }

  predicate Fires(lower: string, rule: Rule)
  {
    AnyIncluded(lower, rule.keywords)
  }

  /** Rule `i` fires and no rule before it does. */
  predicate FirstFiring(lower: string, rules: seq<Rule>, i: int)
  {
    && 0 <= i < |rules|
    && Fires(lower, rules[i])
    && forall j :: 0 <= j < i ==> !Fires(lower, rules[j])
  }

  /** The chain of `if (...) return ...` tests: the topic of the first rule that fires. */
  function FirstMatch(lower: string, rules: seq<Rule>): (r: Option<Topic>)
    ensures r.None? <==> forall i :: 0 <= i < |rules| ==> !Fires(lower, rules[i])
    ensures r.Some? ==> exists i :: FirstFiring(lower, rules, i) && rules[i].topic == r.value
  {
    if rules == [] then None
    else if Fires(lower, rules[0]) then
      assert FirstFiring(lower, rules, 0);
      Some(rules[0].topic)
    else
      var r := FirstMatch(lower, rules[1..]);
      if r.Some? then
        var i :| FirstFiring(lower, rules[1..], i) && rules[1..][i].topic == r.value;
        assert FirstFiring(lower, rules, i + 1);
        r
      else
        r
  }

  /** Only one rule can be the first to fire. */
  lemma FirstFiringUnique(lower: string, rules: seq<Rule>, i: int, j: int)
    requires FirstFiring(lower, rules, i) && FirstFiring(lower, rules, j)
    ensures i == j
  {
  }

  /** The rules are tried in the order of the source's `if` chain. */
  lemma RulesInSourceOrder()
    ensures |Rules| == 9
    ensures Rules[0].topic == StudyTips && Rules[1].topic == TimeManagement && Rules[2].topic == Exam
    ensures Rules[3].topic == Memory && Rules[4].topic == Motivation && Rules[5].topic == NoteTaking
    ensures Rules[6].topic == MathScience && Rules[7].topic == Reading && Rules[8].topic == Stress
  {
  }

  /** The topic a question is classified under: none when no rule fires on the lower-cased question, else the first rule's. */
  function Classify(question: string): (r: Option<Topic>)
    ensures r.None? <==> forall i :: 0 <= i < |Rules| ==> !Fires(ToLower(question), Rules[i])
    ensures r.Some? ==> exists i :: FirstFiring(ToLower(question), Rules, i) && Rules[i].topic == r.value
  {
    FirstMatch(ToLower(question), Rules)
  }

  /** The first line of each fixed answer. */
  function Heading(t: Topic): string
  {
    match t
    case StudyTips => "Here are effective study tips:\n"
    case TimeManagement => "Time Management Strategies:\n"
    case Exam => "Exam Preparation Guide:\n"
    case Memory => "Memory Enhancement Techniques:\n"
    case Motivation => "Boost Your Motivation & Focus:\n"
    case NoteTaking => "Effective Note-Taking Methods:\n"
    case MathScience => "Math & Science Study Tips:\n"
    case Reading => "Reading & Comprehension Tips:\n"
    case Stress => "Managing Study Stress:\n"
  }

  /** The rest of each fixed answer. */
  function Details(t: Topic): string
  {
    match t
    case StudyTips =>
      "\n"
      + "1. **Pomodoro Technique**: Study "
      + "for 25 minutes, then take a 5-minute "
      + "break\n"
      + "2. **Active Recall**: Test yourself "
      + "instead of just re-reading\n"
      + "3. **Spaced Repetition**: Review "
      + "material at increasing intervals\n"
      + "4. **Teach Others**: Explaining "
      + "concepts helps reinforce learning\n"
      + "5. **Mind Maps**: Create visual "
      + "connections between concepts\n"
      + "6. **Study Environment**: Find a "
      + "quiet, well-lit space\n"
      + "7. **Sleep Well**: 7-8 hours of "
      + "sleep improves memory retention"
    case TimeManagement =>
      "\n"
      + "\U{00E2}\U{20AC}\U{00A2} Use the AI Timetable feature "
      + "to create a balanced schedule\n"
      + "\U{00E2}\U{20AC}\U{00A2} Prioritize subjects based on "
      + "difficulty and deadlines\n"
      + "\U{00E2}\U{20AC}\U{00A2} Block time for specific subjects "
      + "(time blocking)\n"
      + "\U{00E2}\U{20AC}\U{00A2} Use the Pomodoro timer to maintain "
      + "focus\n"
      + "\U{00E2}\U{20AC}\U{00A2} Schedule breaks to avoid burnout\n"
      + "\U{00E2}\U{20AC}\U{00A2} Track your streak to build consisten"
      + "cy\n"
      + "\U{00E2}\U{20AC}\U{00A2} Set daily goals and review progress "
      + "weekly"
    case Exam =>
      "\n"
      + "\U{00E2}\U{0153}\U{2026} Start early (at least 2 weeks "
      + "before)\n"
      + "\U{00E2}\U{0153}\U{2026} Create a study schedule using "
      + "the Timetable tab\n"
      + "\U{00E2}\U{0153}\U{2026} Make summary notes for each "
      + "topic\n"
      + "\U{00E2}\U{0153}\U{2026} Practice past papers and questions\n"
      + "\U{00E2}\U{0153}\U{2026} Focus on weak areas first\n"
      + "\U{00E2}\U{0153}\U{2026} Study in short, focused sessions\n"
      + "\U{00E2}\U{0153}\U{2026} Get enough sleep before the "
      + "exam\n"
      + "\U{00E2}\U{0153}\U{2026} Review notes on exam morning\n"
      + "\U{00E2}\U{0153}\U{2026} Stay calm and manage stress"
    case Memory =>
      "\n"
      + "1. **Mnemonics**: Create acronyms "
      + "or phrases\n"
      + "2. **Chunking**: Break information "
      + "into smaller pieces\n"
      + "3. **Visualization**: Create mental "
      + "images\n"
      + "4. **Association**: Link new info "
      + "to what you know\n"
      + "5. **Repetition**: Review multiple "
      + "times\n"
      + "6. **Teaching**: Explain to someone "
      + "else\n"
      + "7. **Sleep**: Consolidates memories\n"
      + "8. **Exercise**: Improves brain "
      + "function"
    case Motivation =>
      "\n"
      + "\U{011F}\U{0178}\U{00AF} Set clear, specific goals\n"
      + "\U{011F}\U{0178}\U{00AF} Break tasks into smaller steps\n"
      + "\U{011F}\U{0178}\U{00AF} Use the Pomodoro technique\n"
      + "\U{011F}\U{0178}\U{00AF} Remove distractions (phone, "
      + "social media)\n"
      + "\U{011F}\U{0178}\U{00AF} Study in a dedicated space\n"
      + "\U{011F}\U{0178}\U{00AF} Reward yourself after completing "
      + "tasks\n"
      + "\U{011F}\U{0178}\U{00AF} Track your progress and streaks\n"
      + "\U{011F}\U{0178}\U{00AF} Join study groups for accountability"
      + "\n"
      + "\U{011F}\U{0178}\U{00AF} Remember your 'why' - your goals"
    case NoteTaking =>
      "\n"
      + "\U{011F}\U{0178}\U{201C} **Cornell Method**: Divide page "
      + "into sections\n"
      + "\U{011F}\U{0178}\U{201C} **Mind Mapping**: Visual, branching "
      + "diagrams\n"
      + "\U{011F}\U{0178}\U{201C} **Outline Method**: Hierarchical "
      + "bullet points\n"
      + "\U{011F}\U{0178}\U{201C} **Flow Notes**: Combine text "
      + "and diagrams\n"
      + "\U{011F}\U{0178}\U{201C} **SQ3R**: Survey, Question, "
      + "Read, Recite, Review\n"
      + "\n"
      + "Tips:\n"
      + "\U{00E2}\U{20AC}\U{00A2} Use colors and highlighters\n"
      + "\U{00E2}\U{20AC}\U{00A2} Review notes within 24 hours\n"
      + "\U{00E2}\U{20AC}\U{00A2} Add examples and connections\n"
      + "\U{00E2}\U{20AC}\U{00A2} Use the Notes tab in this app!"
    case MathScience =>
      "\n"
      + "\U{011F}\U{0178}\U{201C}\U{0160} Practice problems daily\n"
      + "\U{011F}\U{0178}\U{201C}\U{0160} Understand concepts, don't "
      + "just memorize\n"
      + "\U{011F}\U{0178}\U{201C}\U{0160} Work through examples step-by-step\n"
      + "\U{011F}\U{0178}\U{201C}\U{0160} Create formula sheets\n"
      + "\U{011F}\U{0178}\U{201C}\U{0160} Draw diagrams and graphs\n"
      + "\U{011F}\U{0178}\U{201C}\U{0160} Study with practice tests\n"
      + "\U{011F}\U{0178}\U{201C}\U{0160} Form study groups\n"
      + "\U{011F}\U{0178}\U{201C}\U{0160} Watch educational videos\n"
      + "\U{011F}\U{0178}\U{201C}\U{0160} Ask questions when stuck"
    case Reading =>
      "\n"
      + "\U{011F}\U{0178}\U{201C}\U{2013} Preview: Scan headings and "
      + "summaries\n"
      + "\U{011F}\U{0178}\U{201C}\U{2013} Active Reading: Highlight and "
      + "annotate\n"
      + "\U{011F}\U{0178}\U{201C}\U{2013} Ask Questions: What, why, how?\n"
      + "\U{011F}\U{0178}\U{201C}\U{2013} Summarize: Write in your own "
      + "words\n"
      + "\U{011F}\U{0178}\U{201C}\U{2013} Visualize: Create mental images\n"
      + "\U{011F}\U{0178}\U{201C}\U{2013} Connect: Link to prior knowledge\n"
      + "\U{011F}\U{0178}\U{201C}\U{2013} Review: Reread difficult sections\n"
      + "\U{011F}\U{0178}\U{201C}\U{2013} Discuss: Talk about what you "
      + "read"
    case Stress =>
      "\n"
      + "\U{011F}\U{0178}\U{00A7}\U{02DC} Take regular breaks\n"
      + "\U{011F}\U{0178}\U{00A7}\U{02DC} Exercise daily (even 15 minutes "
      + "helps)\n"
      + "\U{011F}\U{0178}\U{00A7}\U{02DC} Practice deep breathing\n"
      + "\U{011F}\U{0178}\U{00A7}\U{02DC} Get 7-8 hours of sleep\n"
      + "\U{011F}\U{0178}\U{00A7}\U{02DC} Eat healthy meals\n"
      + "\U{011F}\U{0178}\U{00A7}\U{02DC} Stay hydrated\n"
      + "\U{011F}\U{0178}\U{00A7}\U{02DC} Talk to friends/family\n"
      + "\U{011F}\U{0178}\U{00A7}\U{02DC} Use the Pomodoro timer to avoid "
      + "burnout\n"
      + "\U{011F}\U{0178}\U{00A7}\U{02DC} Remember: It's okay to ask "
      + "for help!"
  }

  /** The fixed answer for each topic: its heading line, then the details. */
  function Answer(t: Topic): (r: string)
    ensures IsPrefix(Heading(t), r)
  {
    Heading(t) + Details(t)
  }

  /** The question set between an opening and a closing text. */
  function Quoted(opening: string, question: string, closing: string): (r: string)
    ensures Contains(r, question)
  {
    ContainsMiddle(opening, question, closing);
    opening + question + closing
  }

  /** The help text returned when no rule fires; it quotes the question as typed. */
  function DefaultAnswer(question: string): (r: string)
    ensures Contains(r, question)
  {
    Quoted(
      "I can help you with:\n"
      + "\n"
      + "\U{00E2}\U{20AC}\U{00A2} Study tips and techniques\n"
      + "\U{00E2}\U{20AC}\U{00A2} Time management strategies\n"
      + "\U{00E2}\U{20AC}\U{00A2} Exam preparation advice\n"
      + "\U{00E2}\U{20AC}\U{00A2} Memory improvement methods\n"
      + "\U{00E2}\U{20AC}\U{00A2} Motivation and focus tips\n"
      + "\U{00E2}\U{20AC}\U{00A2} Note-taking strategies\n"
      + "\U{00E2}\U{20AC}\U{00A2} Subject-specific guidance\n"
      + "\U{00E2}\U{20AC}\U{00A2} Stress management\n"
      + "\n"
      + "Your question: \"",
      question,
      "\"\n"
      + "\n"
      + "Try asking about specific topics "
      + "like:\n"
      + "- \"How to study effectively?\"\n"
      + "- \"Tips for time management\"\n"
      + "- \"How to prepare for exams?\"\n"
      + "- \"How to improve memory?\"\n"
      + "- \"How to stay motivated?\"")
  }

  /** What the responder replies: a topic's fixed answer, or the help text quoting the question. */
  datatype Reply = Canned(topic: Topic) | Help(question: string)

  function Respond(question: string): (r: Reply)
    ensures r.Help? ==> r.question == question
  {
    match Classify(question)
    case Some(t) => Canned(t)
    case None => Help(question)
  }

  function ReplyText(r: Reply): string
  {
    match r
    case Canned(t) => Answer(t)
    case Help(q) => DefaultAnswer(q)
  }

  /** `getAIResponse(question)`: the first firing rule's answer, or else a help text quoting the question. */
  function GetAIResponse(question: string): (r: string)
    ensures forall t :: Classify(question) == Some(t) ==> r == Answer(t)
    ensures Classify(question).None? ==> Contains(r, question)
  {
    ReplyText(Respond(question))
  }

  /** First match wins: when rule `i` is the first to fire, the question gets rule `i`'s answer. */
  lemma FirstRuleAnswers(question: string, i: int)
    requires FirstFiring(ToLower(question), Rules, i)
    ensures Classify(question) == Some(Rules[i].topic)
    ensures Respond(question) == Canned(Rules[i].topic)
  {
    var lower := ToLower(question);
    var j :| FirstFiring(lower, Rules, j) && Rules[j].topic == Classify(question).value;
    FirstFiringUnique(lower, Rules, i, j);
  }

  /** When no rule fires the reply is the help text. */
  lemma NoRuleGetsHelp(question: string)
    requires forall i :: 0 <= i < |Rules| ==> !Fires(ToLower(question), Rules[i])
    ensures Classify(question).None?
    ensures Respond(question) == Help(question)
  {
  }

  /** Matching ignores case: a question is classified as its lower-cased form is. */
  lemma ClassifyIgnoresCase(question: string)
    ensures Classify(question) == Classify(ToLower(question))
    ensures Classify(question).Some? ==> Respond(question) == Respond(ToLower(question))
  {
    ToLowerIdempotent(question);
  }

  /** A keyword with a character that the text lacks is not included in it. */
  lemma MissingCharNotIncluded(s: string, sub: string, k: int)
    requires 0 <= k < |sub| && sub[k] !in s
    ensures !Contains(s, sub)
  {
    forall i | 0 <= i && i + |sub| <= |s| ensures !OccursAt(s, sub, i) {
      assert s[i..i + |sub|][k] == s[i + k];
    }
  }

  /** A keyword with a character outside the alphabet a text is drawn from is not included in it. */
  lemma OutsideCharNotIncluded(s: string, alphabet: set<char>, sub: string, k: int)
    requires forall i :: 0 <= i < |s| ==> s[i] in alphabet
    requires 0 <= k < |sub| && sub[k] !in alphabet
    ensures !Contains(s, sub)
  {
    MissingCharNotIncluded(s, sub, k);
  }

  /** A text that includes none of the keywords fires nothing. */
  lemma {:induction false} KeywordsMissed(lower: string, keywords: seq<string>)
    requires forall j :: 0 <= j < |keywords| ==> !Contains(lower, keywords[j])
    ensures !AnyIncluded(lower, keywords)
  {
    if |keywords| > 0 {
      KeywordsMissed(lower, keywords[1..]);
    }
  }

  /**
    A rule none of whose keywords can occur in a text drawn from `alphabet`:
    keyword `j` has, at position `at[j]`, a character outside it.
   */
  lemma RuleMissedByChars(q: string, alphabet: set<char>, rule: Rule, at: seq<int>)
    requires forall i :: 0 <= i < |q| ==> q[i] in alphabet
    requires |at| == |rule.keywords|
    requires forall j :: 0 <= j < |at| ==> 0 <= at[j] < |rule.keywords[j]| && rule.keywords[j][at[j]] !in alphabet
    ensures !Fires(q, rule)
  {
    forall j | 0 <= j < |at| ensures !Contains(q, rule.keywords[j]) {
      OutsideCharNotIncluded(q, alphabet, rule.keywords[j], at[j]);
    }
    KeywordsMissed(q, rule.keywords);
  }

  /** A keyword with two adjacent characters that never stand side by side in the text is not included. */
  lemma MissingPairNotIncluded(s: string, sub: string, k: int)
    requires 0 <= k < |sub| - 1
    requires forall i :: 0 <= i < |s| - 1 ==> s[i] != sub[k] || s[i + 1] != sub[k + 1]
    ensures !Contains(s, sub)
  {
    forall i | 0 <= i && i + |sub| <= |s| ensures !OccursAt(s, sub, i) {
      assert s[i..i + |sub|][k] == s[i + k] && s[i..i + |sub|][k + 1] == s[i + k + 1];
    }
  }
}
