/** The `/chat` route of `app.py`: retrieved matches become chunks labelled
    with their source, the distinct sources are collected in first-seen
    order, the prompt goes to the model and the exchange is stored in the
    session's history. */
module Chat {
  import opened Wrappers
  import opened Text
  import opened Seqs
  import opened Store
  import opened Prompt
  import opened Llm
  import opened Sessions

  const LabelOpen: string := "[source="
  const LabelClose: string := "]\n"

  /** The number of labelled chunks a chat reply shows. */
  const ContextShown: nat := 3

  /** `f"[source={source}]\n{text}"`: the source between the brackets, then
      the chunk text verbatim. */
  function Label(source: string, text: string): (l: string)
    ensures |l| == |LabelOpen| + |source| + |LabelClose| + |text|
    ensures StartsWith(l, LabelOpen)
    ensures OccursAt(source + LabelClose, l, |LabelOpen|)
    ensures OccursAt(text, l, |l| - |text|)
  {
    var l := LabelOpen + source + LabelClose + text;
    assert l[..|LabelOpen|] == LabelOpen;
    assert l[|LabelOpen|..|LabelOpen| + |source| + |LabelClose|] == source + LabelClose;
    assert l[|l| - |text|..|l|] == text;
    l
  }

  /** Reads a label back: the source up to the first `]`, which must be
      followed by a line break, and the text after it. */
  function Unlabel(l: string): (r: Option<(string, string)>) {
    if |l| < |LabelOpen| || l[..|LabelOpen|] != LabelOpen then None
    else
      var rest := l[|LabelOpen|..];
      if ']' !in rest then None
      else
        var j := FirstIndex(rest, ']');
        if j + 1 < |rest| && rest[j + 1] == '\n' then Some((rest[..j], rest[j + 2..])) else None
  }

  /** A source name without `]` can be read back from its label with the
      chunk text, and every label that reads back is such a label. */
  lemma LabelRoundTrip(source: string, text: string)
    requires ']' !in source
    ensures Unlabel(Label(source, text)) == Some((source, text))
  {
    var l := Label(source, text);
    var rest := l[|LabelOpen|..];
    assert rest == source + LabelClose + text;
    assert rest[|source|] == ']';
    assert forall k :: 0 <= k < |source| ==> rest[k] == source[k];
    var j := FirstIndex(rest, ']');
    assert rest[..j] == source;
    assert rest[j + 2..] == text;
  }

  lemma UnlabelSound(l: string)
    requires Unlabel(l).Some?
    ensures ']' !in Unlabel(l).value.0
    ensures l == Label(Unlabel(l).value.0, Unlabel(l).value.1)
  {
    var rest := l[|LabelOpen|..];
    var j := FirstIndex(rest, ']');
    var source := rest[..j];
    assert forall k :: 0 <= k < |source| ==> source[k] == rest[k];
    assert rest == source + LabelClose + rest[j + 2..];
    assert l == l[..|LabelOpen|] + rest;
  }

  /** One labelled chunk per piece of metadata, in order. */
  function Labelled(ds: seq<Metadata>): (chunks: seq<string>)
    ensures |chunks| == |ds|
    ensures forall k :: 0 <= k < |ds| ==> chunks[k] == Label(SourceOf(ds[k]), TextOf(ds[k]))
  {
    if |ds| == 0 then [] else Labelled(ds[..|ds| - 1]) + [Label(SourceOf(ds[|ds| - 1]), TextOf(ds[|ds| - 1]))]
  }

  lemma LabelledAppend(ds: seq<Metadata>, md: Metadata)
    ensures Labelled(ds + [md]) == Labelled(ds) + [Label(SourceOf(md), TextOf(md))]
  {
    assert (ds + [md])[..|ds|] == ds;
  }

  /** One more match extends the metadata read so far exactly when it has some. */
  lemma DescribedStep(matches: seq<Match>, i: nat)
    requires i < |matches|
    ensures HasMetadata(matches[i]) ==> Described(matches[..i + 1]) == Described(matches[..i]) + [matches[i].metadata.value]
    ensures !HasMetadata(matches[i]) ==> Described(matches[..i + 1]) == Described(matches[..i])
  {
    PrefixExtend(matches, i);
    DescribedAppend(matches[..i], matches[i]);
  }

  /** One turn of the loop in `chat` keeps the labelled chunks equal to
      their definition over the matches read so far. */
  lemma LabelsStep(matches: seq<Match>, i: nat, chunks: seq<string>)
    requires i < |matches|
    requires chunks == Labelled(Described(matches[..i]))
    ensures !HasMetadata(matches[i]) ==> chunks == Labelled(Described(matches[..i + 1]))
    ensures HasMetadata(matches[i]) ==>
      var md := matches[i].metadata.value;
      chunks + [Label(SourceOf(md), TextOf(md))] == Labelled(Described(matches[..i + 1]))
  {
    DescribedStep(matches, i);
    if HasMetadata(matches[i]) {
      LabelledAppend(Described(matches[..i]), matches[i].metadata.value);
    }
  }

  /** One turn of the loop in `chat` keeps the source list equal to the
      first-seen deduplication of the sources read so far. */
  lemma SourcesStep(matches: seq<Match>, i: nat, sources: seq<string>)
    requires i < |matches|
    requires sources == Dedup(Sources(Described(matches[..i])))
    ensures !HasMetadata(matches[i]) ==> sources == Dedup(Sources(Described(matches[..i + 1])))
    ensures HasMetadata(matches[i]) ==>
      var source := SourceOf(matches[i].metadata.value);
      (if source in sources then sources else sources + [source]) == Dedup(Sources(Described(matches[..i + 1])))
  {
    DescribedStep(matches, i);
    if HasMetadata(matches[i]) {
      var md := matches[i].metadata.value;
      SourcesAppend(Described(matches[..i]), md);
      DedupAppend(Sources(Described(matches[..i])), SourceOf(md));
    }
  }

  /** One turn of the loop over the matches in `chat`: a match with
      metadata adds its labelled chunk, and its source when that is new. */
  method ReadMatch(m: Match, chunks: seq<string>, sources: seq<string>)
    returns (chunks': seq<string>, sources': seq<string>)
    ensures !HasMetadata(m) ==> chunks' == chunks && sources' == sources
    ensures HasMetadata(m) ==>
      var md := m.metadata.value;
      && chunks' == chunks + [Label(SourceOf(md), TextOf(md))]
      && sources' == if SourceOf(md) in sources then sources else sources + [SourceOf(md)]
  {
    chunks', sources' := chunks, sources;
    if HasMetadata(m) {
      var md := m.metadata.value;
      var text := Get(md, "text", "");
      var source := Get(md, "source", "Unknown");
      chunks' := chunks' + [Label(source, text)];
      if source !in sources' {
        sources' := sources' + [source];
      }
    }
  }

  /** The loop over the matches in `chat`. Its result is the labelled
      metadata and the first-seen deduplication of the sources. */
  method AssembleContext(matches: seq<Match>) returns (chunks: seq<string>, sources: seq<string>)
    ensures chunks == Labelled(Described(matches))
    ensures sources == Dedup(Sources(Described(matches)))
  {
    chunks, sources := [], [];
    var i := 0;
    while i < |matches|
      invariant 0 <= i <= |matches|
      invariant chunks == Labelled(Described(matches[..i]))
      invariant sources == Dedup(Sources(Described(matches[..i])))
    {
      LabelsStep(matches, i, chunks);
      SourcesStep(matches, i, sources);
      chunks, sources := ReadMatch(matches[i], chunks, sources);
      i := i + 1;
    }
    assert matches[..i] == matches;
  }

  /** What the chat's source list promises: no name twice, exactly the
      sources of the matches with metadata, in order of first appearance. */
  lemma ChatSources(matches: seq<Match>)
    ensures NoDuplicates(Dedup(Sources(Described(matches))))
    ensures forall s :: s in Dedup(Sources(Described(matches))) <==> s in Sources(Described(matches))
    ensures forall i, j :: 0 <= i < j < |Dedup(Sources(Described(matches)))| ==>
      FirstIndex(Sources(Described(matches)), Dedup(Sources(Described(matches)))[i])
        < FirstIndex(Sources(Described(matches)), Dedup(Sources(Described(matches)))[j])
  {
    DedupSameElements(Sources(Described(matches)));
    DedupFirstSeenOrder(Sources(Described(matches)));
  }

  /** `context_chunks[:3]`: the first three labelled chunks, or all of them
      when there are fewer. */
  function ContextUsed(chunks: seq<string>): (used: seq<string>)
    ensures |used| == if |chunks| < ContextShown then |chunks| else ContextShown
    ensures forall k :: 0 <= k < |used| ==> used[k] == chunks[k]
  {
    if |chunks| < ContextShown then chunks else chunks[..ContextShown]
  }

  datatype ChatRequest = ChatRequest(message: string, sessionId: string, mode: string)
  datatype ChatResponse = ChatResponse(answer: string, contextUsed: seq<string>, sources: seq<string>, timestamp: string)

  /** `chat(request)`. The store's reply to the similarity search, the
      model's outcome for each prompt and the two `datetime.now()` stamps
      (the stored turn's and the response's) are inputs. */
  method HandleChat(conversations: Conversations, request: ChatRequest, search: Call<Option<seq<Match>>>,
                    reply: string -> Outcome, turnTime: string, replyTime: string)
    returns (after: Conversations, response: ChatResponse)
    ensures var ds := Described(QueryVectors(search));
      && response.sources == Dedup(Sources(ds))
      && response.contextUsed == ContextUsed(Labelled(ds))
      && response.answer == QueryLlm(reply(BuildStudyPrompt(Labelled(ds), request.message, request.mode)))
    ensures response.timestamp == replyTime
    ensures after == AppendTurn(conversations, request.sessionId,
      Turn(turnTime, request.message, response.answer, request.mode, response.sources))
  {
    var matches := QueryVectors(search);
    var chunks, sources := AssembleContext(matches);
    var prompt := BuildStudyPrompt(chunks, request.message, request.mode);
    var answer := QueryLlm(reply(prompt));
    after := AppendTurn(conversations, request.sessionId, Turn(turnTime, request.message, answer, request.mode, sources));
    response := ChatResponse(answer, ContextUsed(chunks), sources, replyTime);
  }
}
