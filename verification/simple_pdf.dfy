/**
 * The upload pipeline of project/simple_rag/utils/pdf_processor.py: one
 * file is loaded, its pages are tagged with the file name, split and added
 * to the vector store; a batch does this file after file, summing the
 * chunks and collecting the error messages.
 *
 * The PDF loader, the splitter and the store's `add_documents` are not part
 * of this model and are passed in as functions; a failure is the message of
 * the exception they raise.
 */
module SimplePdf {
  import opened Common
  import opened Text

  /** An uploaded file: the name shown to the user and the path it is stored at. */
  datatype UploadedFile = UploadedFile(name: string, path: string)

  /** A loaded page or chunk: its text and metadata. */
  datatype LoadedDoc = LoadedDoc(content: string, metadata: map<string, string>)

  type Loader = string -> Result<seq<LoadedDoc>, string>
  type Splitter = seq<LoadedDoc> -> seq<LoadedDoc>
  type Adder = seq<LoadedDoc> -> Option<string>

  const EMPTY_PDF: string := "PDF is empty or contains no extractable text"
  const SOURCE_FILE: string := "source_file"

  // ------------------------------------------------------------- one file

  /** The pages once every one carries the file name under `source_file`. */
  function Tagged(docs: seq<LoadedDoc>, name: string): (r: seq<LoadedDoc>)
    ensures |r| == |docs|
  {
    seq(|docs|, k requires 0 <= k < |docs| => docs[k].(metadata := docs[k].metadata[SOURCE_FILE := name]))
  }

  /** Tagging keeps every page's text and other metadata and records the file name. */
  lemma TaggedProperties(docs: seq<LoadedDoc>, name: string)
    ensures forall k :: 0 <= k < |docs| ==>
              var t := Tagged(docs, name)[k];
              t.content == docs[k].content && SOURCE_FILE in t.metadata && t.metadata[SOURCE_FILE] == name
              && forall key :: key in docs[k].metadata && key != SOURCE_FILE ==>
                   key in t.metadata && t.metadata[key] == docs[k].metadata[key]
  {
  }

  /** The loop `for doc in documents: doc.metadata["source_file"] = name`, in place. */
  method TagSourceFile(docs: array<LoadedDoc>, name: string)
    modifies docs
    ensures docs[..] == Tagged(old(docs[..]), name)
  {
    for i := 0 to docs.Length
      invariant forall k :: 0 <= k < i ==> docs[k] == old(docs[k]).(metadata := old(docs[k]).metadata[SOURCE_FILE := name])
      invariant forall k :: i <= k < docs.Length ==> docs[k] == old(docs[k])
    {
      docs[i] := docs[i].(metadata := docs[i].metadata[SOURCE_FILE := name]);
    }
  }

  /** The pair `_process_single_pdf` returns: chunks added, and the error message if any. */
  function SingleOutcome(file: UploadedFile, load: Loader, split: Splitter, add: Adder): (r: (nat, Option<string>))
    ensures r.1.Some? ==> r.0 == 0
    ensures r.1.Some? ==> |r.1.value| > |file.name| && r.1.value[..|file.name| + 1] == file.name + ":"
    ensures r.1.None? <==> load(file.path).Success? && load(file.path).value != []
                           && add(split(Tagged(load(file.path).value, file.name))).None?
  {
    match load(file.path)
    case Failure(e) => (0, Some(file.name + ": " + e))
    case Success(docs) =>
      if docs == [] then (0, Some(file.name + ": " + EMPTY_PDF))
      else
        var chunks := split(Tagged(docs, file.name));
        match add(chunks)
        case Some(e) => (0, Some(file.name + ": " + e))
        case None => (|chunks|, None)
  }

  /** `_process_single_pdf`. */
  method ProcessSinglePdf(file: UploadedFile, load: Loader, split: Splitter, add: Adder)
    returns (added: nat, error: Option<string>)
    ensures (added, error) == SingleOutcome(file, load, split, add)
  {
    var loaded := load(file.path);
    if loaded.Failure? {
      return 0, Some(file.name + ": " + loaded.error);
    }
    var documents := loaded.value;
    if documents == [] {
      return 0, Some(file.name + ": " + EMPTY_PDF);
    }
    var pages := new LoadedDoc[|documents|](k requires 0 <= k < |documents| => documents[k]);
    assert pages[..] == documents;
    TagSourceFile(pages, file.name);
    var chunks := split(pages[..]);
    var failed := add(chunks);
    if failed.Some? {
      return 0, Some(file.name + ": " + failed.value);
    }
    return |chunks|, None;
  }

  // ---------------------------------------------------------------- batch

  const PROGRESS: string := "\U{F0}\U{178}\U{201C}\U{201E} Processing file "

  /** The progress message for the `idx`-th of `n` files. */
  function ProgressMessage(idx: nat, n: nat, name: string): string
  {
    PROGRESS + NatToString(idx) + "/" + NatToString(n) + ": " + name + "..."
  }

  function Outcomes(files: seq<UploadedFile>, load: Loader, split: Splitter, add: Adder): (r: seq<(nat, Option<string>)>)
    ensures |r| == |files|
  {
    seq(|files|, k requires 0 <= k < |files| => SingleOutcome(files[k], load, split, add))
  }

  function TotalOf(outs: seq<(nat, Option<string>)>): nat
    decreases |outs|
  {
    if outs == [] then 0 else TotalOf(outs[..|outs| - 1]) + outs[|outs| - 1].0
  }

  /** `if error: errors.append(error)`: only a non-empty message is collected. */
  function ErrorsOf(outs: seq<(nat, Option<string>)>): seq<string>
    decreases |outs|
  {
    if outs == [] then []
    else
      var o := outs[|outs| - 1];
      ErrorsOf(outs[..|outs| - 1]) + (if o.1.Some? && o.1.value != "" then [o.1.value] else [])
  }

  /** The progress messages of the first `n` files. */
  function ProgressMessages(files: seq<UploadedFile>, n: nat): (r: seq<string>)
    requires n <= |files|
    ensures |r| == n
  {
    seq(n, k requires 0 <= k < n => ProgressMessage(k + 1, |files|, files[k].name))
  }

  lemma ProgressSnoc(files: seq<UploadedFile>, i: nat)
    requires i < |files|
    ensures ProgressMessages(files, i + 1) == ProgressMessages(files, i) + [ProgressMessage(i + 1, |files|, files[i].name)]
  {
  }

  lemma OutcomesSnoc(outs: seq<(nat, Option<string>)>, i: nat)
    requires i < |outs|
    ensures TotalOf(outs[..i + 1]) == TotalOf(outs[..i]) + outs[i].0
    ensures ErrorsOf(outs[..i + 1]) == ErrorsOf(outs[..i])
              + (if outs[i].1.Some? && outs[i].1.value != "" then [outs[i].1.value] else [])
  {
    assert outs[..i + 1][..i] == outs[..i];
  }

  /** `process_pdf_files`: the sequential loop, with the progress messages it reports when a callback is given. */
  method ProcessPdfFiles(files: seq<UploadedFile>, withCallback: bool, load: Loader, split: Splitter, add: Adder)
    returns (total: nat, errors: seq<string>, progress: seq<string>)
    ensures total == TotalOf(Outcomes(files, load, split, add))
    ensures errors == ErrorsOf(Outcomes(files, load, split, add))
    ensures progress == if withCallback then ProgressMessages(files, |files|) else []
  {
    ghost var outs := Outcomes(files, load, split, add);
    total, errors, progress := 0, [], [];
    for i := 0 to |files|
      invariant total == TotalOf(outs[..i]) && errors == ErrorsOf(outs[..i])
      invariant progress == if withCallback then ProgressMessages(files, i) else []
    {
      var idx := i + 1;
      if withCallback {
        ProgressSnoc(files, i);
        progress := progress + [ProgressMessage(idx, |files|, files[i].name)];
      }
      var chunksAdded, error := ProcessSinglePdf(files[i], load, split, add);
      OutcomesSnoc(outs, i);
      total := total + chunksAdded;
      if error.Some? && error.value != "" {
        errors := errors + [error.value];
      }
    }
    assert outs[..|files|] == outs;
  }

  lemma {:induction false} TotalAppend(a: seq<(nat, Option<string>)>, b: seq<(nat, Option<string>)>)
    ensures TotalOf(a + b) == TotalOf(a) + TotalOf(b)
    ensures ErrorsOf(a + b) == ErrorsOf(a) + ErrorsOf(b)
    decreases |b|
  {
    if b == [] {
      assert a + b == a;
    } else {
      var n := |b| - 1;
      TotalAppend(a, b[..n]);
      assert (a + b)[..|a + b| - 1] == a + b[..n];
    }
  }

  /**
   * Files are independent: the batch over two lists adds their totals and
   * concatenates their errors, so a failing file never stops the files after it.
   */
  lemma BatchSplits(a: seq<UploadedFile>, b: seq<UploadedFile>, load: Loader, split: Splitter, add: Adder)
    ensures TotalOf(Outcomes(a + b, load, split, add)) == TotalOf(Outcomes(a, load, split, add)) + TotalOf(Outcomes(b, load, split, add))
    ensures ErrorsOf(Outcomes(a + b, load, split, add)) == ErrorsOf(Outcomes(a, load, split, add)) + ErrorsOf(Outcomes(b, load, split, add))
  {
    assert Outcomes(a + b, load, split, add) == Outcomes(a, load, split, add) + Outcomes(b, load, split, add);
    TotalAppend(Outcomes(a, load, split, add), Outcomes(b, load, split, add));
  }

  /**
   * The errors are exactly the messages of the files that failed, in file
   * order, one per failing file: every message is non-empty, since it starts
   * with the file name and a colon.
   */
  lemma {:induction false} ErrorsAreFailures(files: seq<UploadedFile>, load: Loader, split: Splitter, add: Adder)
    ensures |ErrorsOf(Outcomes(files, load, split, add))| == |FailingFiles(files, load, split, add)|
    ensures forall k :: 0 <= k < |ErrorsOf(Outcomes(files, load, split, add))| ==>
              var f := FailingFiles(files, load, split, add)[k];
              ErrorsOf(Outcomes(files, load, split, add))[k] == SingleOutcome(f, load, split, add).1.value
    decreases |files|
  {
    if files != [] {
      var n := |files| - 1;
      var p := files[..n];
      ErrorsAreFailures(p, load, split, add);
      assert files == p + [files[n]];
      assert Outcomes(files, load, split, add)[..n] == Outcomes(p, load, split, add);
      var o := SingleOutcome(files[n], load, split, add);
      assert o.1.Some? ==> |o.1.value| > 0;
    }
  }

  /** The files whose processing reported an error, in order. */
  function FailingFiles(files: seq<UploadedFile>, load: Loader, split: Splitter, add: Adder): (r: seq<UploadedFile>)
    ensures forall k :: 0 <= k < |r| ==> SingleOutcome(r[k], load, split, add).1.Some?
    decreases |files|
  {
    if files == [] then []
    else
      var f := files[|files| - 1];
      FailingFiles(files[..|files| - 1], load, split, add)
        + (if SingleOutcome(f, load, split, add).1.Some? then [f] else [])
  }
}
