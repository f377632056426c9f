/** The `/upload` route of `app.py`: the file name's extension is checked
    against the allow-list, the extracted text is chunked, one record per
    chunk is built with the file name, the optional subject and chapter and
    a time stamp, and the batch is handed to the store. */
module Upload {
  import opened Wrappers
  import opened Text
  import opened Numerals
  import opened Chunker
  import opened Store
  import opened Ingest

  /** Index of the last `c` in `s`, or -1 when there is none (`str.rfind`). */
  function LastIndex(s: string, c: char): (i: int)
    ensures -1 <= i < |s|
    ensures i >= 0 ==> s[i] == c
    ensures forall k :: i < k < |s| ==> s[k] != c
  {
    if |s| == 0 then -1
    else if s[|s| - 1] == c then |s| - 1
    else LastIndex(s[..|s| - 1], c)
  }

  /** The last path segment holds a dot with some character other than a
      dot before it in that segment: `k` is that character and `d` the dot,
      and no slash follows `k`. */
  predicate HasExtension(path: string) {
    exists k, d :: 0 <= k < d < |path| && path[k] != '.' && path[d] == '.' && '/' !in path[k..]
  }

  /** `os.path.splitext(path)[1]` on a POSIX path: from the last dot of the
      last path segment to the end, provided something other than dots
      precedes that dot in the segment; otherwise empty, so a dot file such
      as ".pdf" has no extension. */
  function Extension(path: string): (ext: string)
    ensures |ext| <= |path| && ext == path[|path| - |ext|..]
    ensures ext != [] ==> ext[0] == '.' && |ext| < |path| && path[|path| - |ext| - 1] != '/'
    ensures forall k :: 0 < k < |ext| ==> ext[k] != '.' && ext[k] != '/'
    ensures ext != [] <==> HasExtension(path)
  {
    var slash := LastIndex(path, '/');
    var dot := LastIndex(path, '.');
    ExtensionCondition(path);
    if dot > slash && exists k :: slash < k < dot && path[k] != '.' then path[dot..] else []
  }

  /** The test `splitext` makes on the last dot and the last slash is
      `HasExtension`. */
  lemma ExtensionCondition(path: string)
    ensures (var slash, dot := LastIndex(path, '/'), LastIndex(path, '.');
             dot > slash && exists k :: slash < k < dot && path[k] != '.')
            <==> HasExtension(path)
  {
    var slash, dot := LastIndex(path, '/'), LastIndex(path, '.');
    if dot > slash && exists k :: slash < k < dot && path[k] != '.' {
      var k :| slash < k < dot && path[k] != '.';
      assert forall m :: 0 <= m < |path[k..]| ==> path[k..][m] == path[k + m] && k + m > slash;
      assert 0 <= k < dot < |path| && path[k] != '.' && path[dot] == '.' && '/' !in path[k..];
    }
    if HasExtension(path) {
      var k, d :| 0 <= k < d < |path| && path[k] != '.' && path[d] == '.' && '/' !in path[k..];
      forall m | k <= m < |path|
        ensures path[m] != '/'
      {
        assert path[m] == path[k..][m - k];
      }
      assert slash < k < dot;
    }
  }

  /** A name whose last segment ends in a non-dot character followed by
      `.e`, where `e` has no dot or slash, has the extension `.e`. */
  lemma ExtensionOfName(stem: string, e: string)
    requires |stem| > 0 && stem[|stem| - 1] != '/' && stem[|stem| - 1] != '.'
    requires '.' !in e && '/' !in e
    ensures Extension(stem + "." + e) == "." + e
  {
    var path := stem + "." + e;
    assert path[|stem|] == '.';
    assert forall k :: |stem| < k < |path| ==> path[k] == e[k - |stem| - 1];
    var dot := LastIndex(path, '.');
    var slash := LastIndex(path, '/');
    assert dot == |stem|;
    assert path[|stem| - 1] == stem[|stem| - 1];
    assert slash < |stem| - 1;
    assert path[dot..] == "." + e;
  }

  const AllowedExtensions: seq<string> := [".pdf", ".docx", ".txt"]

  /** The extension, lower-cased, is one of the allowed ones. */
  predicate Allowed(filename: string) {
    AsciiLower(Extension(filename)) in AllowedExtensions
  }

  /** A dot file has no extension: the only dot opens the name. */
  lemma DotFileHasNoExtension(name: string)
    requires '.' !in name && '/' !in name
    ensures Extension("." + name) == []
  {
    var path := "." + name;
    forall k | 0 < k < |path|
      ensures path[k] != '.'
    {
      assert path[k] == name[k - 1];
    }
    assert path[0] == '.';
  }

  /** A name without a dot has no extension. */
  lemma UndottedHasNoExtension(name: string)
    requires '.' !in name
    ensures Extension(name) == []
  {
  }

  /** The allow-list ignores case. */
  lemma UpperCaseAllowed()
    ensures Allowed("notes.PDF")
  {
    ExtensionOfLiteral("notes", "PDF", "notes.PDF");
    assert AsciiLower(".PDF") == ".pdf" == AllowedExtensions[0];
  }

  /** Only the last extension counts. */
  lemma LastExtensionCounts()
    ensures !Allowed("notes.pdf.zip")
  {
    ExtensionOfLiteral("notes.pdf", "zip", "notes.pdf.zip");
    ZipRefused();
  }

  /** `ExtensionOfName` for a name spelt out in full. */
  lemma ExtensionOfLiteral(stem: string, e: string, name: string)
    requires |stem| > 0 && stem[|stem| - 1] != '/' && stem[|stem| - 1] != '.'
    requires '.' !in e && '/' !in e
    requires name == stem + "." + e
    ensures Extension(name) == "." + e
  {
    ExtensionOfName(stem, e);
  }

  lemma ZipRefused()
    ensures AsciiLower(".zip") !in AllowedExtensions
  {
    var ext := AsciiLower(".zip");
    assert ext == ".zip";
    assert ext[1] != AllowedExtensions[0][1] && |ext| != |AllowedExtensions[1]| && ext[1] != AllowedExtensions[2][1];
  }

  /** When there is an extension, it runs from the last dot of the name. */
  lemma ExtensionFromLastDot(path: string, d: nat)
    requires HasExtension(path)
    requires d < |path| && path[d] == '.' && forall m :: d < m < |path| ==> path[m] != '.'
    ensures Extension(path) == path[d..]
  {
    var ext := Extension(path);
    var a := |path| - |ext|;
    assert path[a] == ext[0] == '.';
    forall m | a < m < |path|
      ensures path[m] != '.'
    {
      assert path[m] == ext[m - a];
    }
  }

  /** Several dots before the extension still leave it an extension:
      `a..pdf` has the extension `.pdf`. */
  lemma DoubleDotExtension()
    ensures Extension("a..pdf") == ".pdf"
  {
    var path := "a..pdf";
    assert path[0] != '.' && path[2] == '.' && '/' !in path[0..];
    ExtensionFromLastDot(path, 2);
  }

  /** A file called ".pdf" is refused: it has no extension. */
  lemma DotFileRefused()
    ensures !Allowed(".pdf")
  {
    DotFileHasNoExtension("pdf");
    assert AsciiLower("") == "";
  }

  datatype HttpError = HttpError(status: nat, detail: string)
  datatype UploadResponse = UploadResponse(status: string, filename: string, chunksCreated: nat, message: string)

  const UnsupportedPrefix: string := "Unsupported file type: "
  const UnsupportedSuffix: string := ". Please upload PDF, DOCX, or TXT files."
  const NoTextDetail: string := "No text could be extracted from the file"
  const StoreFailedDetail: string := "Failed to upload to vector database"
  const ProcessedPrefix: string := "Successfully processed "
  const ProcessedInto: string := " into "
  const ProcessedSuffix: string := " chunks"

  /** The refusal names the offending (lower-cased) extension. */
  function UnsupportedDetail(ext: string): (detail: string)
    ensures StartsWith(detail, UnsupportedPrefix)
    ensures OccursAt(ext + UnsupportedSuffix, detail, |UnsupportedPrefix|)
    ensures |detail| == |UnsupportedPrefix| + |ext| + |UnsupportedSuffix|
  {
    var detail := UnsupportedPrefix + (ext + UnsupportedSuffix);
    assert detail[..|UnsupportedPrefix|] == UnsupportedPrefix;
    assert detail[|UnsupportedPrefix|..|detail|] == ext + UnsupportedSuffix;
    detail
  }

  /** `f"Successfully processed {filename} into {n} chunks"`. */
  function ProcessedMessage(filename: string, n: nat): (message: string)
    ensures StartsWith(message, ProcessedPrefix + filename + ProcessedInto)
    ensures |message| == |ProcessedPrefix + filename + ProcessedInto| + |IntToString(n)| + |ProcessedSuffix|
    ensures message[|ProcessedPrefix + filename + ProcessedInto|..|message| - |ProcessedSuffix|] == IntToString(n)
  {
    var head := ProcessedPrefix + filename + ProcessedInto;
    var message := head + (IntToString(n) + ProcessedSuffix);
    assert message[..|head|] == head;
    assert message[|head|..|message| - |ProcessedSuffix|] == IntToString(n);
    message
  }

  /** The count in the success message reads back as the number of chunks. */
  lemma ProcessedCountReadsBack(filename: string, n: nat)
    ensures var message := ProcessedMessage(filename, n);
      ParseInt(message[|ProcessedPrefix + filename + ProcessedInto|..|message| - |ProcessedSuffix|]) == Some(n)
  {
    IntToStringRoundTrip(n);
  }

  /** `upload_notes(file, subject, chapter)`. The extracted text, the fresh
      record ids, the embedding model, the time stamp taken for each record
      and the outcome of the upsert are inputs. Returns the reply or the
      HTTP error, and the records handed to the store. */
  method UploadNotes<E(==)>(filename: string, subject: Option<string>, chapter: Option<string>, text: string,
                            ids: nat -> string, encode: string -> E, clock: nat -> string, upsert: Call<()>)
    returns (r: Result<UploadResponse, HttpError>, sent: seq<Vector<E>>)
    ensures !Allowed(filename) ==>
      && sent == [] && r.Err? && r.error.status == 400
      && OccursAt(AsciiLower(Extension(filename)) + UnsupportedSuffix, r.error.detail, |UnsupportedPrefix|)
    ensures Allowed(filename) && Strip(text) == [] ==> sent == [] && r == Err(HttpError(400, NoTextDetail))
    ensures Allowed(filename) && Strip(text) != [] ==>
      && |sent| == |ChunkText(text, IngestChunkSize, IngestOverlap)|
      && forall i :: 0 <= i < |sent| ==>
           RecordFor(sent[i], ChunkText(text, IngestChunkSize, IngestOverlap), i,
             Tags(filename, subject, chapter), ids, encode, Some(clock))
    ensures r.Ok? <==> Allowed(filename) && Strip(text) != [] && upsert.Returned?
    ensures Allowed(filename) && Strip(text) != [] && upsert.Raised? ==> r == Err(HttpError(500, StoreFailedDetail))
    ensures r.Ok? ==>
      && r.value.status == "success" && r.value.filename == filename
      && r.value.chunksCreated == |sent|
      && r.value.message == ProcessedMessage(filename, |sent|)
  {
    var ext := AsciiLower(Extension(filename));
    if ext !in AllowedExtensions {
      return Err(HttpError(400, UnsupportedDetail(ext))), [];
    }
    if Strip(text) == [] {
      return Err(HttpError(400, NoTextDetail)), [];
    }
    var chunks := ChunkText(text, IngestChunkSize, IngestOverlap);
    sent := BuildVectors(chunks, Tags(filename, subject, chapter), ids, encode, Some(clock));
    if UpsertVectors(upsert) {
      r := Ok(UploadResponse("success", filename, |chunks|, ProcessedMessage(filename, |chunks|)));
    } else {
      r := Err(HttpError(500, StoreFailedDetail));
    }
  }
}
