/** The `/quiz` route of `app.py`: an optional subject filter for the
    similarity search, the bare texts of the retrieved chunks as context,
    and the requested number of questions in the question slot of the
    `quiz` template. */
module Quiz {
  import opened Wrappers
  import opened Text
  import opened Numerals
  import opened Store
  import opened Prompt
  import opened Llm

  /** The `top_k` of the quiz's search. */
  const QuizTopK: nat := 10

  /** `{"subject": subject} if subject else None`. */
  function QuizFilter(subject: Option<string>): (filter: Option<Metadata>)
    ensures filter.Some? <==> Truthy(subject)
    ensures filter.Some? ==> filter.value.Keys == {"subject"} && filter.value["subject"] == subject.value
  {
    if Truthy(subject) then Some(map["subject" := subject.value]) else None
  }

  /** The chunk texts of the given metadata, unlabelled and in order. */
  function QuizContext(ds: seq<Metadata>): (texts: seq<string>)
    ensures |texts| == |ds|
    ensures forall k :: 0 <= k < |ds| ==> texts[k] == TextOf(ds[k])
  {
    if |ds| == 0 then [] else QuizContext(ds[..|ds| - 1]) + [TextOf(ds[|ds| - 1])]
  }

  datatype QuizReply = QuizReply(topic: string, numQuestions: int, quiz: string)

  /** `generate_quiz(topic, num_questions, subject)`. The store's reply to a
      search with a given `top_k` and filter and the model's outcome for each
      prompt are inputs. */
  method GenerateQuiz(topic: string, numQuestions: int, subject: Option<string>,
                      search: (nat, Option<Metadata>) -> Call<Option<seq<Match>>>, reply: string -> Outcome)
    returns (r: QuizReply)
    ensures r.topic == topic && r.numQuestions == numQuestions
    ensures var ds := Described(QueryVectors(search(QuizTopK, QuizFilter(subject))));
      r.quiz == QueryLlm(reply(QuizPrompt(QuizContext(ds), IntToString(numQuestions))))
  {
    var matches := QueryVectors(search(QuizTopK, QuizFilter(subject)));
    var context := QuizContext(Described(matches));
    var question := IntToString(numQuestions);
    TemplateSelection(context, question, "quiz");
    var prompt := BuildStudyPrompt(context, question, "quiz");
    r := QuizReply(topic, numQuestions, QueryLlm(reply(prompt)));
  }

  /** The quiz prompt asks for exactly the requested number of questions:
      the numeral in front of " multiple-choice questions" reads back as
      `num_questions`, whatever its sign. */
  lemma QuizAsksForRequestedNumber(context: seq<string>, numQuestions: int)
    ensures OccursAt(IntToString(numQuestions) + QuizCountWord, QuizPrompt(context, IntToString(numQuestions)), |QuizHead|)
    ensures ParseInt(IntToString(numQuestions)) == Some(numQuestions)
  {
    QuizAsksForCount(context, IntToString(numQuestions));
    IntToStringRoundTrip(numQuestions);
  }
}
