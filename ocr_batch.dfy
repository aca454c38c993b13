/**
 The OCR worker pool and the ordered fan-out/fan-in over the page images of a
 PDF (ocr.go).  The OCR engine (tesseract and its fallbacks) is a function
 passed in; the goroutines that process the batches are modelled by their
 sequential outcome, and the order in which their results reach the collecting
 loop is an arbitrary permutation passed in.
 */
module OcrBatch {
  import opened Wrappers
  import opened Strings

  /** OCRResponse (ocr.go:21-32); omitted fields take Go's zero values.  The
      timestamp is the time value ocr.go formats with RFC 3339. */
  datatype OCRResponse = OCRResponse(
    success: bool,
    fileType: string := "",
    numPages: int := 0,
    text: string := "",
    language: string := "",
    error: string := "",
    timestamp: Option<int> := None,
    jobID: string := "",
    status: string := "")

  /** performOCRDirect: runs the OCR engine on one image in one language. */
  type OcrEngine = (string, string) -> Result<string>

  /** The types the OCR extraction accepts: a PDF or one of the image formats. */
  predicate IsOcrFileType(fileType: string) {
    fileType == "pdf" || fileType == "png" || fileType == "jpg" || fileType == "jpeg" ||
    fileType == "tiff" || fileType == "bmp"
  }

  // ---------------------------------------------------------------------------
  // Pool sizing (initOCRPool, initJobQueue)
  // ---------------------------------------------------------------------------

  const DefaultOcrWorkers: nat := 2
  const MaxOcrWorkers: nat := 4
  const DefaultQueueWorkers: nat := 2

  /** The OCR pool's worker count from the OCR_WORKERS variable ("" when unset). */
  function OcrPoolWorkers(env: string): (w: nat)
    ensures 1 <= w <= MaxOcrWorkers
    ensures Atoi(env).Some? && Atoi(env).value > 0 ==>
              w == if Atoi(env).value > MaxOcrWorkers then MaxOcrWorkers else Atoi(env).value
    ensures !(Atoi(env).Some? && Atoi(env).value > 0) ==> w == DefaultOcrWorkers
  {
    var workers: int :=
      if env != "" && Atoi(env).Some? && Atoi(env).value > 0 then Atoi(env).value else DefaultOcrWorkers;
    if workers > MaxOcrWorkers then MaxOcrWorkers else workers
  }

  /** The OCR pool's job channel holds twice as many jobs as there are workers. */
  function OcrPoolCapacity(workers: nat): nat {
    workers * 2
  }

  /** The job queue's worker count from the QUEUE_WORKERS variable: not capped. */
  function QueueWorkers(env: string): (w: nat)
    ensures w >= 1
    ensures Atoi(env).Some? && Atoi(env).value > 0 ==> w == Atoi(env).value
    ensures !(Atoi(env).Some? && Atoi(env).value > 0) ==> w == DefaultQueueWorkers
  {
    if env != "" && Atoi(env).Some? && Atoi(env).value > 0 then Atoi(env).value else DefaultQueueWorkers
  }

  /** OCRWorkerPool.processOCR: a job either goes to a pool worker (when the
      channel has room) or runs on the caller; both run the same engine call,
      so the caller sees the same outcome either way. */
  function ProcessOCR(engine: OcrEngine, imagePath: string, language: string, poolHasRoom: bool): (r: Result<string>)
    ensures r == engine(imagePath, language)
  {
    if poolHasRoom then
      var fromWorker := engine(imagePath, language);
      fromWorker
    else
      engine(imagePath, language)
  }

  // ---------------------------------------------------------------------------
  // Batching
  // ---------------------------------------------------------------------------

  const MaxPagesPerBatch: nat := 4

  /** Pages per goroutine: the page count divided by the worker count, kept in 1..4. */
  function BatchSize(n: nat, workers: nat): (b: nat)
    requires workers >= 1
    ensures 1 <= b <= MaxPagesPerBatch
    ensures 1 <= n / workers <= MaxPagesPerBatch ==> b == n / workers
    ensures n / workers < 1 ==> b == 1
    ensures n / workers > MaxPagesPerBatch ==> b == MaxPagesPerBatch
  {
    var b := n / workers;
    if b < 1 then 1 else if b > MaxPagesPerBatch then MaxPagesPerBatch else b
  }

  /** The half-open index range [start, stop) given to one goroutine. */
  datatype Range = Range(start: nat, stop: nat)

  /** `ranges` cuts [0, n) into consecutive non-empty ranges of at most `size` indices. */
  predicate Partition(ranges: seq<Range>, n: nat, size: nat) {
    && (n == 0 <==> ranges == [])
    && (ranges != [] ==> ranges[0].start == 0 && ranges[|ranges| - 1].stop == n)
    && (forall k :: 0 <= k < |ranges| ==> ranges[k].start < ranges[k].stop <= ranges[k].start + size)
    && (forall k :: 0 <= k < |ranges| - 1 ==> ranges[k].stop == ranges[k + 1].start)
  }

  predicate InRange(r: Range, i: int) {
    r.start <= i < r.stop
  }

  /** In a partition every range starts after the ranges before it end. */
  lemma {:induction false} PartitionOrdered(ranges: seq<Range>, n: nat, size: nat, j: nat, k: nat)
    requires Partition(ranges, n, size)
    requires j < k < |ranges|
    ensures ranges[j].stop <= ranges[k].start
    decreases k - j
  {
    if j + 1 < k {
      PartitionOrdered(ranges, n, size, j + 1, k);
    }
  }

  /** Every index of [0, n) lies in exactly one range of a partition. */
  lemma {:induction false} PartitionCoversOnce(ranges: seq<Range>, n: nat, size: nat, i: nat) returns (k: nat)
    requires Partition(ranges, n, size)
    requires i < n
    ensures k < |ranges| && InRange(ranges[k], i)
    ensures forall k' :: 0 <= k' < |ranges| && k' != k ==> !InRange(ranges[k'], i)
  {
    k := 0;
    while ranges[k].stop <= i
      invariant k < |ranges| && ranges[k].start <= i
      decreases |ranges| - k
    {
      k := k + 1;
    }
    forall k' | 0 <= k' < |ranges| && k' != k ensures !InRange(ranges[k'], i) {
      if k' < k {
        PartitionOrdered(ranges, n, size, k', k);
      } else {
        PartitionOrdered(ranges, n, size, k, k');
      }
    }
  }

  /** The text stored for one page: its OCR text, or an error marker. */
  function PageText(r: Result<string>): string {
    match r
    case Success(text) => text
    case Failure(e) => "[OCR Error: " + e + "]"
  }

  /** A page result sent on the result channel. */
  datatype PageResult = PageResult(index: nat, text: string)

  /** `order` lists every index of [0, n) exactly once: the order in which the
      page results reach the collecting loop. */
  predicate IsArrivalOrder(order: seq<nat>, n: nat) {
    && |order| == n
    && (forall m :: 0 <= m < |order| ==> order[m] < n)
    && (forall i :: 0 <= i < n ==> i in order)
  }

  /** extractOCRFromPDF after the conversion step.  `converted` is the list of
      page images pdftoppm produced, or the error of an earlier step; a
      `filepath.Glob` error is passed in as `Success([])`, which gives "no
      pages were converted from PDF" as ocr.go does.  Every
      page is read by exactly one goroutine, a failing page becomes an error
      marker at its own position, and the result does not depend on the order
      in which the goroutines finish. */
  method ExtractOCRFromPDF(converted: Result<seq<string>>, language: string, workers: nat,
                           engine: OcrEngine, poolHasRoom: nat -> bool, arrival: seq<nat>)
    returns (r: Result<seq<string>>, ghost ranges: seq<Range>)
    requires workers >= 1
    requires converted.Success? ==> IsArrivalOrder(arrival, |converted.value|)
    ensures converted.Failure? ==> r == converted.PropagateFailure()
    ensures converted == Success([]) ==> r == Failure("no pages were converted from PDF")
    ensures converted.Success? && converted.value != [] ==>
              && r.Success?
              && |r.value| == |converted.value|
              && (forall i :: 0 <= i < |r.value| ==> r.value[i] == PageText(engine(converted.value[i], language)))
              && Partition(ranges, |converted.value|, BatchSize(|converted.value|, workers))
  {
    ranges := [];
    if converted.Failure? {
      return converted.PropagateFailure(), ranges;
    }
    var imageFiles := converted.value;
    var n := |imageFiles|;
    if n == 0 {
      return Failure("no pages were converted from PDF"), ranges;
    }
    var batchSize := BatchSize(n, workers);

    // Fan-out: one goroutine per range; `sent` is what they put on the result channel.
    var sent: seq<PageResult> := [];
    var i := 0;
    while i < n
      invariant 0 <= i <= n
      invariant |sent| == i
      invariant forall k :: 0 <= k < i ==> sent[k] == PageResult(k, PageText(engine(imageFiles[k], language)))
      invariant i == 0 <==> ranges == []
      invariant ranges != [] ==> ranges[0].start == 0 && ranges[|ranges| - 1].stop == i
      invariant forall k :: 0 <= k < |ranges| ==> ranges[k].start < ranges[k].stop <= ranges[k].start + batchSize
      invariant forall k :: 0 <= k < |ranges| - 1 ==> ranges[k].stop == ranges[k + 1].start
    {
      var end := i + batchSize;
      if end > n {
        end := n;
      }
      var idx := i;
      while idx < end
        invariant i <= idx <= end
        invariant |sent| == idx
        invariant forall k :: 0 <= k < idx ==> sent[k] == PageResult(k, PageText(engine(imageFiles[k], language)))
      {
        var outcome := ProcessOCR(engine, imageFiles[idx], language, poolHasRoom(idx));
        sent := sent + [PageResult(idx, PageText(outcome))];
        idx := idx + 1;
      }
      ranges := ranges + [Range(i, end)];
      i := end;
    }

    // Fan-in: results arrive in `arrival` order and are stored by index.
    var pages := new string[n];
    var m := 0;
    while m < n
      invariant 0 <= m <= n
      invariant forall k :: 0 <= k < n && k in arrival[..m] ==> pages[k] == sent[k].text
    {
      var result := sent[arrival[m]];
      pages[result.index] := result.text;
      m := m + 1;
    }
    assert arrival[..n] == arrival;
    return Success(pages[..]), ranges;
  }

  /** extractOCRFromImage: one image, and an OCR failure is an error (no marker). */
  function ExtractOCRFromImage(written: Result<string>, language: string, engine: OcrEngine, poolHasRoom: bool)
    : (r: Result<seq<string>>)
    ensures written.Failure? ==> r == Failure("failed to write image file: " + written.error)
    ensures written.Success? ==>
              match engine(written.value, language)
              case Success(text) => r == Success([text])
              case Failure(e) => r == Failure(e)
  {
    match written
    case Failure(e) => Failure("failed to write image file: " + e)
    case Success(imagePath) =>
      var outcome := ProcessOCR(engine, imagePath, language, poolHasRoom);
      if outcome.Failure? then Failure(outcome.error) else Success([outcome.value])
  }

  const PageBreak: string := "\n\n--- Page Break ---\n\n"

  /** The text of a finished OCR request: the pages joined with the page-break
      marker, then every "\r\n", "\n" and "\r" removed. */
  function CombinePages(pages: seq<string>): (text: string)
    ensures '\n' !in text && '\r' !in text
  {
    var joined := Join(pages, PageBreak);
    var noCrlf := ReplaceAll(joined, "\r\n", "");
    var noLf := ReplaceAll(noCrlf, "\n", "");
    ReplaceAllRemovesChar(noCrlf, '\n', "");
    ReplaceAllKeepsOut(noLf, "\r", "", '\n');
    ReplaceAllRemovesChar(noLf, '\r', "");
    ReplaceAll(noLf, "\r", "")
  }
}
