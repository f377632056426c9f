/** `llm_client.build_study_prompt`: string templating dispatched on a mode
    name. The `answer` template separates chunks with a rule and has a
    placeholder for an empty context; `summarize`, `quiz` and `flashcard`
    join chunks with a blank line, and the last two read the question slot
    as a count; any other mode gets a plain generic template. */
module Prompt {
  import opened Text

  datatype Mode = Answer | Summarize | Quiz | Flashcard | Generic

  /** The mode names the dispatch recognises; every other name is `Generic`. */
  function ModeOf(mode: string): (m: Mode)
    ensures m == Answer <==> mode == "answer"
    ensures m == Summarize <==> mode == "summarize"
    ensures m == Quiz <==> mode == "quiz"
    ensures m == Flashcard <==> mode == "flashcard"
  {
    if mode == "answer" then Answer
    else if mode == "summarize" then Summarize
    else if mode == "quiz" then Quiz
    else if mode == "flashcard" then Flashcard
    else Generic
  }

  /** The name a caller passes to select a mode (the generic template is
      selected by the empty name, among others). */
  function ModeName(m: Mode): string {
    match m
    case Answer => "answer"
    case Summarize => "summarize"
    case Quiz => "quiz"
    case Flashcard => "flashcard"
    case Generic => ""
  }

  /** Every mode is selected by its own name. */
  lemma ModeNameRoundTrip(m: Mode)
    ensures ModeOf(ModeName(m)) == m
  {
  }

  const AnswerSeparator: string := "\n\n---\n\n"
  const NotesSeparator: string := "\n\n"
  const NoNotesFound: string := "No relevant notes found."

  const AnswerHead: string :=
    "You are Study Jarvis, an expert study assistant. Answer the question using ONLY the information from the notes below.\n\n===== STUDENT'S NOTES =====\n"
  const AnswerMid: string := "\n\n===== QUESTION =====\n"
  const AnswerTaskIntro: string :=
    "\n\n===== YOUR TASK =====\n1. Read the notes carefully and find relevant information\n2. Answer the question clearly and directly\n3. Use simple, clear language\n4. Include specific details from the notes\n5. If you mention a fact, cite the source file in parentheses like "
  const CiteInstruction: string := "(source: filename.pdf)"
  const SourcesIntro: string := "\n6. After your answer, add a \""
  const SourcesLabel: string := "SOURCES:"
  const AnswerTaskOutro: string :=
    "\" section listing which files you used\n\nRemember: Only use information from the notes above. Do not add external knowledge.\n\n===== ANSWER ====="

  /** Everything after the question in the `answer` template. */
  function AnswerTail(): string {
    AnswerTaskIntro + CiteInstruction + SourcesIntro + SourcesLabel + AnswerTaskOutro
  }

  const SummaryHead: string :=
    "You are Study Jarvis. Your task is to create a clear, well-organized summary.\n\n===== NOTES TO SUMMARIZE =====\n"
  const SummaryTail: string :=
    "\n\n===== YOUR TASK =====\nCreate a summary that includes:\n\U{2022} Main topics covered\n\U{2022} Key concepts and definitions\n\U{2022} Important facts and details\n\U{2022} Key takeaways for studying\n\nWrite in bullet points for clarity.\n\n===== SUMMARY ====="

  const QuizHead: string := "You are Study Jarvis. Based on these notes, create "
  const QuizCountWord: string := " multiple-choice questions"
  const QuizMidRest: string := " to test understanding.\n\nNotes:\n"
  const QuizMid: string := QuizCountWord + QuizMidRest
  const QuizTail: string :=
    "\n\nFormat each question as:\nQ[number]. [Question]\nA) [Option A]\nB) [Option B]\nC) [Option C]\nD) [Option D]\nCorrect Answer: [Letter]\n\nQuestions:"

  const FlashcardHead: string := "You are Study Jarvis. Create "
  const FlashcardCountWord: string := " flashcards from these notes."
  const FlashcardMidRest: string := "\n\nNotes:\n"
  const FlashcardMid: string := FlashcardCountWord + FlashcardMidRest
  const FlashcardTail: string :=
    "\n\nFormat each flashcard as:\nCard [number]:\nFront: [Question]\nBack: [Answer]\n\nFlashcards:"

  const GenericHead: string := "Context: "
  const GenericMid: string := "\n\nQuestion: "
  const GenericTail: string := "\n\nAnswer:"

  /** The notes section of the `answer` template: the chunks separated by a
      rule, or a placeholder when there are none. */
  function AnswerBlock(chunks: seq<string>): string {
    if |chunks| == 0 then NoNotesFound else Join(chunks, AnswerSeparator)
  }

  /** The `answer` template: notes block, then the question, then the task. */
  function AnswerPrompt(chunks: seq<string>, question: string): string {
    AnswerHead + AnswerBlock(chunks) + (AnswerMid + question + AnswerTail())
  }

  /** The `summarize` template has no question slot. */
  function SummaryPrompt(chunks: seq<string>): string {
    SummaryHead + Join(chunks, NotesSeparator) + SummaryTail
  }

  /** The `quiz` template reads the question slot as the number of questions. */
  function QuizPrompt(chunks: seq<string>, count: string): string {
    QuizHead + count + QuizMid + Join(chunks, NotesSeparator) + QuizTail
  }

  /** The `flashcard` template reads the question slot as the number of cards. */
  function FlashcardPrompt(chunks: seq<string>, count: string): string {
    FlashcardHead + count + FlashcardMid + Join(chunks, NotesSeparator) + FlashcardTail
  }

  /** The fallback template joins the chunks with single spaces. */
  function GenericPrompt(chunks: seq<string>, question: string): string {
    GenericHead + Join(chunks, " ") + GenericMid + question + GenericTail
  }

  /** `build_study_prompt(context_chunks, user_question, mode)`. */
  function BuildStudyPrompt(chunks: seq<string>, question: string, mode: string): string {
    match ModeOf(mode)
    case Answer => AnswerPrompt(chunks, question)
    case Summarize => SummaryPrompt(chunks)
    case Quiz => QuizPrompt(chunks, question)
    case Flashcard => FlashcardPrompt(chunks, question)
    case Generic => GenericPrompt(chunks, question)
  }

  /** With no chunks, the notes section of an `answer` prompt is exactly the
      placeholder, directly followed by the question heading. */
  lemma AnswerWithoutNotes(question: string)
    ensures OccursAt(NoNotesFound, AnswerPrompt([], question), |AnswerHead|)
    ensures OccursAt(AnswerMid, AnswerPrompt([], question), |AnswerHead| + |NoNotesFound|)
  {
    Framed(AnswerHead, NoNotesFound, AnswerMid, question, AnswerTail());
  }

  /** With chunks, the notes section of an `answer` prompt is their
      rule-separated join: each chunk appears verbatim at its offset. */
  lemma AnswerChunkAt(chunks: seq<string>, question: string, i: nat)
    requires i < |chunks|
    ensures OccursAt(chunks[i], AnswerPrompt(chunks, question), |AnswerHead| + JoinOffset(chunks, AnswerSeparator, i))
  {
    JoinPartsEmbedded(AnswerPrompt(chunks, question), AnswerHead, chunks, AnswerSeparator,
      AnswerMid + question + AnswerTail());
  }

  /** A rule follows every chunk of an `answer` prompt but the last, and the
      next chunk starts right after that rule. */
  lemma AnswerRuleAfter(chunks: seq<string>, question: string, i: nat)
    requires i + 1 < |chunks|
    ensures OccursAt(AnswerSeparator, AnswerPrompt(chunks, question),
      |AnswerHead| + JoinOffset(chunks, AnswerSeparator, i) + |chunks[i]|)
    ensures JoinOffset(chunks, AnswerSeparator, i + 1)
      == JoinOffset(chunks, AnswerSeparator, i) + |chunks[i]| + |AnswerSeparator|
  {
    JoinSeparatorsEmbedded(AnswerPrompt(chunks, question), AnswerHead, chunks, AnswerSeparator,
      AnswerMid + question + AnswerTail());
  }

  /** The question heading, then the question verbatim, follow the notes
      section of an `answer` prompt. */
  lemma AnswerQuestionAfterNotes(chunks: seq<string>, question: string)
    ensures OccursAt(AnswerMid, AnswerPrompt(chunks, question), |AnswerHead| + |AnswerBlock(chunks)|)
    ensures OccursAt(question, AnswerPrompt(chunks, question), |AnswerHead| + |AnswerBlock(chunks)| + |AnswerMid|)
  {
    Framed(AnswerHead, AnswerBlock(chunks), AnswerMid, question, AnswerTail());
  }

  /** An `answer` prompt, whatever the notes and question, asks to cite
      sources as `(source: filename.pdf)` and to add a `SOURCES:` section. */
  lemma AnswerAsksForCitations(chunks: seq<string>, question: string)
    ensures Contains(AnswerPrompt(chunks, question), CiteInstruction)
    ensures Contains(AnswerPrompt(chunks, question), SourcesLabel)
  {
    InTail(AnswerHead + AnswerBlock(chunks), AnswerMid + question,
      AnswerTaskIntro, CiteInstruction, SourcesIntro, SourcesLabel, AnswerTaskOutro);
  }

  /** The layout of a three-slot frame `head + block + (mid + slot + tail)`. */
  lemma Framed(head: string, block: string, mid: string, slot: string, tail: string)
    ensures OccursAt(block, head + block + (mid + slot + tail), |head|)
    ensures OccursAt(mid, head + block + (mid + slot + tail), |head| + |block|)
    ensures OccursAt(slot, head + block + (mid + slot + tail), |head| + |block| + |mid|)
  {
    var p := head + block + (mid + slot + tail);
    assert p == head + block + mid + slot + tail;
    OccursInside(head, block, mid + slot + tail);
    assert p == head + block + mid + (slot + tail);
    OccursInside(head + block, mid, slot + tail);
    OccursInside(head + block + mid, slot, tail);
  }

  /** The second and fourth pieces of a five-piece tail occur in any text it ends. */
  lemma InTail(x: string, y: string, a: string, b: string, c: string, d: string, e: string)
    ensures Contains(x + (y + (a + b + c + d + e)), b)
    ensures Contains(x + (y + (a + b + c + d + e)), d)
  {
    var p := x + (y + (a + b + c + d + e));
    assert p == x + y + a + b + (c + d + e);
    OccursInside(x + y + a, b, c + d + e);
    assert p == x + y + a + b + c + d + e;
    OccursInside(x + y + a + b + c, d, e);
  }

  /** A `summarize` prompt ignores the question: it depends only on the
      blank-line join of the chunks. */
  lemma SummaryIgnoresQuestion(chunks1: seq<string>, chunks2: seq<string>, question1: string, question2: string)
    requires Join(chunks1, NotesSeparator) == Join(chunks2, NotesSeparator)
    ensures BuildStudyPrompt(chunks1, question1, "summarize") == BuildStudyPrompt(chunks2, question2, "summarize")
  {
  }

  /** Every chunk appears verbatim in the `summarize`, `quiz` and `flashcard`
      prompts, each inside the blank-line join of the chunks. */
  lemma NotesPromptsContainChunks(chunks: seq<string>, question: string, mode: string)
    requires ModeOf(mode) in {Summarize, Quiz, Flashcard}
    ensures forall i :: 0 <= i < |chunks| ==> Contains(BuildStudyPrompt(chunks, question, mode), chunks[i])
  {
    var a, b :=
      if ModeOf(mode) == Summarize then SummaryHead
      else if ModeOf(mode) == Quiz then QuizHead + question + QuizMid
      else FlashcardHead + question + FlashcardMid,
      if ModeOf(mode) == Summarize then SummaryTail
      else if ModeOf(mode) == Quiz then QuizTail
      else FlashcardTail;
    JoinPartsEmbedded(BuildStudyPrompt(chunks, question, mode), a, chunks, NotesSeparator, b);
  }

  /** A `quiz` prompt asks for `count` multiple-choice questions: the
      question slot is directly followed by " multiple-choice questions". */
  lemma QuizAsksForCount(chunks: seq<string>, count: string)
    ensures OccursAt(count + QuizCountWord, QuizPrompt(chunks, count), |QuizHead|)
  {
    SlotFollowedBy(QuizHead, count, QuizCountWord, QuizMidRest, Join(chunks, NotesSeparator), QuizTail);
  }

  /** A `flashcard` prompt asks for `count` flashcards: the question slot is
      directly followed by " flashcards from these notes.". */
  lemma FlashcardsAskForCount(chunks: seq<string>, count: string)
    ensures OccursAt(count + FlashcardCountWord, FlashcardPrompt(chunks, count), |FlashcardHead|)
  {
    SlotFollowedBy(FlashcardHead, count, FlashcardCountWord, FlashcardMidRest, Join(chunks, NotesSeparator), FlashcardTail);
  }

  /** A slot directly followed by the first part of the next template piece. */
  lemma SlotFollowedBy(head: string, slot: string, word: string, more: string, notes: string, tail: string)
    ensures OccursAt(slot + word, head + slot + (word + more) + notes + tail, |head|)
  {
    assert head + slot + (word + more) + notes + tail == head + (slot + word) + (more + notes + tail);
    OccursInside(head, slot + word, more + notes + tail);
  }

  /** Each recognised mode name selects its own template, and any other
      name selects the generic one, which holds the space-joined chunks and
      the question. */
  lemma TemplateSelection(chunks: seq<string>, question: string, mode: string)
    ensures mode == "answer" ==> BuildStudyPrompt(chunks, question, mode) == AnswerPrompt(chunks, question)
    ensures mode == "summarize" ==> BuildStudyPrompt(chunks, question, mode) == SummaryPrompt(chunks)
    ensures mode == "quiz" ==> BuildStudyPrompt(chunks, question, mode) == QuizPrompt(chunks, question)
    ensures mode == "flashcard" ==> BuildStudyPrompt(chunks, question, mode) == FlashcardPrompt(chunks, question)
    ensures mode !in {"answer", "summarize", "quiz", "flashcard"} ==>
      BuildStudyPrompt(chunks, question, mode)
      == "Context: " + Join(chunks, " ") + "\n\nQuestion: " + question + "\n\nAnswer:"
  {
  }
}
