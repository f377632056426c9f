/** `llm_client.query_llm` without the HTTP request: how a call outcome
    becomes the string the rest of the backend sees. Every failure becomes a
    diagnostic string that starts with the cross-mark error marker; a
    streamed reply is folded line by line until the first `done` record. */
module Llm {
  import opened Wrappers
  import opened Text

  /** One line of a streamed reply, as `json.loads` sees it. */
  datatype StreamLine =
    | Blank                                          // an empty line: skipped
    | Record(response: Option<string>, done: bool)   // an object; `done` is the truthiness of its `done` field
    | Malformed(error: string)                       // `json.loads` raised; `error` is `str(e)`

  /** What the request to the model server came to. */
  datatype Outcome =
    | ConnectionRefused                     // `requests.exceptions.ConnectionError`
    | TimedOut                              // `requests.exceptions.Timeout`
    | Failed(error: string)                 // any other exception, with its `str(e)`
    | Replied(response: Option<string>)     // non-streamed: the `response` field of the body, if any
    | Streamed(lines: seq<StreamLine>)      // streamed: the lines of the body

  const ErrorMark: string := "\U{274C} Error"
  const ConnectionDetail: string := ": Cannot connect to Ollama. Make sure Ollama is running (ollama serve)."
  const TimeoutDetail: string := ": Request timed out. The model might be too large or slow."
  const QueryErrorDetail: string := " querying LLM: "
  const QueryErrorPrefix: string := ErrorMark + QueryErrorDetail

  /** The streaming loop: concatenate `response` fields, skip blank lines,
      stop after the first record whose `done` is truthy; a line that is not
      JSON aborts the loop with its error. */
  function FoldStream(lines: seq<StreamLine>): Result<string, string> {
    if |lines| == 0 then Ok("")
    else
      match lines[0]
      case Blank => FoldStream(lines[1..])
      case Malformed(e) => Err(e)
      case Record(response, done) =>
        var piece := response.GetOr("");
        if done then Ok(piece)
        else
          match FoldStream(lines[1..])
          case Ok(rest) => Ok(piece + rest)
          case Err(e) => Err(e)
  }

  predicate IsDone(line: StreamLine) {
    line.Record? && line.done
  }

  /** The lines the loop reads: everything up to and including the first
      `done` record, or all lines when none is done. */
  function Consumed(lines: seq<StreamLine>): (c: seq<StreamLine>)
    ensures |c| <= |lines| && c == lines[..|c|]
    ensures forall k :: 0 <= k < |c| - 1 ==> !IsDone(c[k])
    ensures |c| < |lines| ==> |c| > 0 && IsDone(c[|c| - 1])
  {
    if |lines| == 0 then []
    else if IsDone(lines[0]) then [lines[0]]
    else [lines[0]] + Consumed(lines[1..])
  }

  predicate NoMalformed(lines: seq<StreamLine>) {
    forall k :: 0 <= k < |lines| ==> !lines[k].Malformed?
  }

  /** The concatenation of the `response` fields of `lines`, in order. */
  function Responses(lines: seq<StreamLine>): string {
    if |lines| == 0 then ""
    else
      (if lines[0].Record? then lines[0].response.GetOr("") else "") + Responses(lines[1..])
  }

  /** The streaming loop succeeds exactly when no consumed line is malformed,
      and then returns the concatenated `response` fields of the consumed
      lines: lines after the first `done` record are never read. */
  lemma {:induction false} FoldStreamReference(lines: seq<StreamLine>)
    ensures FoldStream(lines).Ok? <==> NoMalformed(Consumed(lines))
    ensures FoldStream(lines).Ok? ==> FoldStream(lines).value == Responses(Consumed(lines))
  {
    if |lines| > 0 {
      var c := Consumed(lines);
      assert c[0] == lines[0];
      if !IsDone(lines[0]) {
        FoldStreamReference(lines[1..]);
        assert c[1..] == Consumed(lines[1..]);
        assert NoMalformed(c) <==> !lines[0].Malformed? && NoMalformed(c[1..]);
      }
    }
  }

  /** A blank line never changes the outcome of the streaming loop. */
  lemma {:induction false} BlankLinesSkipped(before: seq<StreamLine>, after: seq<StreamLine>)
    ensures FoldStream(before + [Blank] + after) == FoldStream(before + after)
  {
    if |before| > 0 {
      assert (before + [Blank] + after)[1..] == before[1..] + [Blank] + after;
      assert (before + after)[1..] == before[1..] + after;
      BlankLinesSkipped(before[1..], after);
    } else {
      assert before + [Blank] + after == [Blank] + after;
      assert before + after == after;
    }
  }

  /** Nothing after the first `done` record is read. */
  lemma {:induction false} StopsAtDone(lines: seq<StreamLine>, more: seq<StreamLine>)
    requires |lines| > 0 && IsDone(lines[|lines| - 1])
    ensures FoldStream(lines + more) == FoldStream(lines)
  {
    if !IsDone(lines[0]) {
      assert (lines + more)[1..] == lines[1..] + more;
      StopsAtDone(lines[1..], more);
    } else {
      assert (lines + more)[0] == lines[0];
    }
  }

  predicate IsFailure(o: Outcome) {
    o.ConnectionRefused? || o.TimedOut? || o.Failed? || (o.Streamed? && FoldStream(o.lines).Err?)
  }

  /** `query_llm(prompt)` for the outcome of its request. It never fails:
      failures become diagnostics starting with the error marker, and a
      successful reply is the model's text, or "" when the body has none. */
  function QueryLlm(o: Outcome): (answer: string)
    ensures IsFailure(o) ==> StartsWith(answer, ErrorMark)
    ensures o.Replied? ==> answer == o.response.GetOr("")
    ensures o.Streamed? && !IsFailure(o) ==> answer == Responses(Consumed(o.lines))
  {
    match o
    case ConnectionRefused => PrefixStarts(ErrorMark, ConnectionDetail); ErrorMark + ConnectionDetail
    case TimedOut => PrefixStarts(ErrorMark, TimeoutDetail); ErrorMark + TimeoutDetail
    case Failed(e) => ErrorReport(e)
    case Replied(response) => response.GetOr("")
    case Streamed(lines) =>
      FoldStreamReference(lines);
      match FoldStream(lines)
      case Ok(text) => text
      case Err(e) => ErrorReport(e)
  }

  /** The diagnostic for an unexpected exception carries its message last. */
  function ErrorReport(e: string): (r: string)
    ensures StartsWith(r, ErrorMark)
    ensures OccursAt(e, r, |QueryErrorPrefix|) && |r| == |QueryErrorPrefix| + |e|
  {
    PrefixStarts(ErrorMark, QueryErrorDetail + e);
    assert QueryErrorPrefix + e == ErrorMark + (QueryErrorDetail + e);
    assert (QueryErrorPrefix + e)[|QueryErrorPrefix|..] == e;
    QueryErrorPrefix + e
  }

  lemma PrefixStarts(a: string, b: string)
    ensures StartsWith(a + b, a)
  {
    assert (a + b)[..|a|] == a;
  }
}
