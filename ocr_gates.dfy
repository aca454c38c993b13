/**
 The failure-isolation and admission gates of the OCR service (ocr.go): the
 process-wide circuit breaker, the cached load check, and the order in which
 the synchronous OCR handler consults them.  Time values are Go `time.Time`
 readings expressed as nanoseconds counted from Go's zero time (January 1 of
 year 1), passed in by the caller, so a time field that is 0 is the zero
 `time.Time` the globals start with and every real reading lies far more than
 the two windows past it; allocated memory is the reading
 `runtime.ReadMemStats` would give.
 */
module OcrGates {
  import opened Wrappers
  import opened Strings
  import opened OcrBatch

  const Second: int := 1_000_000_000
  const FailureThreshold: int := 3
  const RecoveryWindow: int := 10 * Second
  const LoadCacheWindow: int := 2 * Second
  const MaxConcurrentJobs: int := 10
  const MemoryCeiling: int := 6 * 1024 * 1024 * 1024

  datatype CircuitState = Closed | Open | HalfOpen

  // ---------------------------------------------------------------------------
  // Circuit breaker on values
  // ---------------------------------------------------------------------------

  /** The breaker's three globals: circuitState, failures, lastFailureTime. */
  datatype Breaker = Breaker(state: CircuitState, failures: int, lastFailure: int)

  predicate CounterInRange(b: Breaker) {
    0 <= b.failures < FailureThreshold
  }

  /** recordFailure: count the failure, stamp it, and open at the threshold. */
  function AfterFailure(b: Breaker, now: int): (r: Breaker)
    ensures r.lastFailure == now
    ensures r.state == if b.failures + 1 >= FailureThreshold then Open else b.state
    ensures CounterInRange(b) ==> CounterInRange(r) && r.failures == (b.failures + 1) % FailureThreshold
  {
    var failures := b.failures + 1;
    if failures >= FailureThreshold then Breaker(Open, 0, now) else Breaker(b.state, failures, now)
  }

  /** recordSuccess: back to Closed with a zero counter, from any state. */
  function AfterSuccess(b: Breaker): (r: Breaker)
    ensures r.state == Closed && r.failures == 0 && CounterInRange(r)
    ensures r.lastFailure == b.lastFailure
  {
    b.(state := Closed, failures := 0)
  }

  /** The answer of isCircuitOpen and the breaker after it. */
  datatype Probe = Probe(open: bool, after: Breaker)

  /** isCircuitOpen: only an Open breaker inside its recovery window blocks; an
      Open breaker past the window moves to HalfOpen and lets the request by. */
  function IsOpen(b: Breaker, now: int): (r: Probe)
    ensures r.open <==> b.state == Open && now - b.lastFailure <= RecoveryWindow
    ensures r.after.failures == b.failures && r.after.lastFailure == b.lastFailure
    ensures r.after.state == if b.state == Open && !r.open then HalfOpen else b.state
  {
    match b.state
    case Open =>
      if now - b.lastFailure > RecoveryWindow then Probe(false, b.(state := HalfOpen)) else Probe(true, b)
    case HalfOpen => Probe(false, b)
    case Closed => Probe(false, b)
  }

  /** One call into the breaker. */
  datatype Event = Failed(at: int) | Succeeded | Asked(at: int)

  function Step(b: Breaker, e: Event): Breaker {
    match e
    case Failed(t) => AfterFailure(b, t)
    case Succeeded => AfterSuccess(b)
    case Asked(t) => IsOpen(b, t).after
  }

  /** The breaker after a sequence of calls, in order. */
  function Replay(b: Breaker, events: seq<Event>): Breaker
    decreases |events|
  {
    if events == [] then b else Replay(Step(b, events[0]), events[1..])
  }

  /** Whatever the calls, the failure counter stays in 0..2. */
  lemma {:induction false} CounterStaysInRange(b: Breaker, events: seq<Event>)
    requires CounterInRange(b)
    ensures CounterInRange(Replay(b, events))
    decreases |events|
  {
    if events != [] {
      CounterStaysInRange(Step(b, events[0]), events[1..]);
    }
  }

  function Failures(times: seq<int>): (events: seq<Event>)
    ensures |events| == |times|
    ensures forall k :: 0 <= k < |times| ==> events[k] == Failed(times[k])
  {
    seq(|times|, k requires 0 <= k < |times| => Failed(times[k]))
  }

  /** A run of failures with no success in between counts modulo 3, opens the
      breaker once the count reaches 3, and stamps the last failure's time. */
  lemma {:induction false} ConsecutiveFailures(b: Breaker, times: seq<int>)
    requires CounterInRange(b)
    ensures Replay(b, Failures(times)).failures == (b.failures + |times|) % FailureThreshold
    ensures b.failures + |times| >= FailureThreshold ==> Replay(b, Failures(times)).state == Open
    ensures b.failures + |times| < FailureThreshold ==> Replay(b, Failures(times)).state == b.state
    ensures times != [] ==> Replay(b, Failures(times)).lastFailure == times[|times| - 1]
    decreases |times|
  {
    if times != [] {
      var b' := AfterFailure(b, times[0]);
      assert Failures(times)[1..] == Failures(times[1..]);
      ConsecutiveFailures(b', times[1..]);
      if b.failures + 1 >= FailureThreshold {
        if |times| > 1 {
          ConsecutiveFailuresKeepOpen(b', times[1..]);
        }
      }
    }
  }

  /** Failures never close an Open breaker. */
  lemma {:induction false} ConsecutiveFailuresKeepOpen(b: Breaker, times: seq<int>)
    requires b.state == Open
    ensures Replay(b, Failures(times)).state == Open
    decreases |times|
  {
    if times != [] {
      assert Failures(times)[1..] == Failures(times[1..]);
      ConsecutiveFailuresKeepOpen(AfterFailure(b, times[0]), times[1..]);
    }
  }

  /** After exactly three recorded failures from a reset counter, the breaker
      blocks every request until the recovery window after the third elapses. */
  lemma ThirdFailureBlocks(b: Breaker, t1: int, t2: int, t3: int, now: int)
    requires b.failures == 0
    requires now - t3 <= RecoveryWindow
    ensures IsOpen(Replay(b, Failures([t1, t2, t3])), now).open
  {
    ConsecutiveFailures(b, [t1, t2, t3]);
  }

  /** Asking again after the breaker has moved to HalfOpen keeps letting
      requests by: the trial is not limited to one request. */
  lemma HalfOpenKeepsAdmitting(b: Breaker, now: int, later: int)
    requires b.state == Open && now - b.lastFailure > RecoveryWindow
    ensures !IsOpen(b, now).open
    ensures !IsOpen(IsOpen(b, now).after, later).open
  {
  }

  /** As written, a failure in HalfOpen reopens the breaker only when it is the
      third on the counter; otherwise requests keep being admitted. */
  lemma HalfOpenFailureMayNotReopen(b: Breaker, t: int, now: int)
    requires b.state == HalfOpen && CounterInRange(b)
    ensures !IsOpen(AfterFailure(b, t), now).open <==> b.failures + 1 < FailureThreshold || now - t > RecoveryWindow
  {
  }

  // ---------------------------------------------------------------------------
  // Cached load check on values
  // ---------------------------------------------------------------------------

  /** The globals of the load check: cpuLoadHigh, lastCPUCheck. */
  datatype Monitor = Monitor(loadHigh: bool, lastCheck: int)

  datatype LoadVerdict = LoadVerdict(admit: bool, after: Monitor)

  /** checkSystemLoad: a verdict younger than 2s is reused; otherwise the load is
      sampled again and the new verdict cached. */
  function CheckLoad(m: Monitor, now: int, currentJobs: int, alloc: int): (r: LoadVerdict)
    ensures r.admit == !r.after.loadHigh
    ensures now - m.lastCheck < LoadCacheWindow ==> r.after == m
    ensures now - m.lastCheck >= LoadCacheWindow ==>
              r.after.lastCheck == now && (r.admit <==> currentJobs < MaxConcurrentJobs && alloc <= MemoryCeiling)
  {
    if now - m.lastCheck < LoadCacheWindow then LoadVerdict(!m.loadHigh, m)
    else if currentJobs >= MaxConcurrentJobs then LoadVerdict(false, Monitor(true, now))
    else if alloc > MemoryCeiling then LoadVerdict(false, Monitor(true, now))
    else LoadVerdict(true, Monitor(false, now))
  }

  /** Within 2s of a sampling, later checks repeat its verdict whatever the load. */
  lemma CachedVerdictRepeats(m: Monitor, t1: int, jobs1: int, alloc1: int, t2: int, jobs2: int, alloc2: int)
    requires t1 - m.lastCheck >= LoadCacheWindow
    requires t1 <= t2 < t1 + LoadCacheWindow
    ensures var first := CheckLoad(m, t1, jobs1, alloc1);
            CheckLoad(first.after, t2, jobs2, alloc2) == first
  {
  }

  /** The monitor starts at the zero time, so the first check, at any clock
      reading at least 2s past it, samples the load. */
  lemma FirstCheckSamples(now: int, currentJobs: int, alloc: int)
    requires now >= LoadCacheWindow
    ensures var r := CheckLoad(Monitor(false, 0), now, currentJobs, alloc);
            r.after.lastCheck == now && (r.admit <==> currentJobs < MaxConcurrentJobs && alloc <= MemoryCeiling)
  {
  }

  // ---------------------------------------------------------------------------
  // The synchronous OCR request after the gates
  // ---------------------------------------------------------------------------

  /** What handleExtractOCR learns from its environment: the tesseract check's
      error, the parsed upload's file type or error, the `lang` form value
      ("eng" when absent), the temp-directory error, and what the extraction
      for that upload returns. */
  datatype Request = Request(
    tesseractError: Option<string>,
    upload: Result<string>,
    langParam: string,
    tmpDirError: Option<string>,
    extraction: Result<seq<string>>)

  /** The language sent to tesseract: the lower-cased parameter, "eng" when empty. */
  function OcrLanguage(langParam: string): (lang: string)
    ensures lang != []
    ensures langParam == [] ==> lang == "eng"
    ensures langParam != [] ==> lang == ToLower(langParam) && |lang| == |langParam|
  {
    var lowered := ToLower(langParam);
    if lowered == "" then "eng" else lowered
  }

  /** The request passes every local check and reaches the extraction. */
  predicate ReachesExtraction(req: Request) {
    req.tesseractError.None? && req.upload.Success? && req.tmpDirError.None? && IsOcrFileType(req.upload.value)
  }

  datatype Reply = Reply(status: int, body: OCRResponse)

  /** The reply to an admitted request. */
  function AdmittedReply(req: Request, now: int): (r: Reply)
    ensures r.body.success <==> r.status == 200
    ensures r.status == 200 <==> ReachesExtraction(req) && req.extraction.Success?
    ensures r.status == 200 ==>
              && r.body.numPages == |req.extraction.value|
              && '\n' !in r.body.text && '\r' !in r.body.text
              && r.body.fileType == req.upload.value
    ensures req.tesseractError.Some? ==> r.status == 503
    ensures req.tesseractError.None? && req.upload.Failure? ==> r.status == 400
    ensures ReachesExtraction(req) && req.extraction.Failure? ==>
              r.status == 500 && r.body.error == req.extraction.error
    ensures r.body.timestamp == Some(now)
  {
    var stamp := Some(now);
    if req.tesseractError.Some? then
      Reply(503, OCRResponse(false, error := "Tesseract not available: " + req.tesseractError.value, timestamp := stamp))
    else if req.upload.Failure? then
      Reply(400, OCRResponse(false, error := "Invalid request: " + req.upload.error, timestamp := stamp))
    else if req.tmpDirError.Some? then
      Reply(500, OCRResponse(false, error := "Failed to create temporary directory: " + req.tmpDirError.value,
                             timestamp := stamp))
    else
      var fileType := req.upload.value;
      var language := OcrLanguage(req.langParam);
      if !IsOcrFileType(fileType) then
        Reply(400, OCRResponse(false, error := "Unsupported file type for OCR: " + fileType +
                                               " (supported: PDF, PNG, JPG, JPEG, TIFF, BMP)", timestamp := stamp))
      else if req.extraction.Failure? then
        Reply(500, OCRResponse(false, fileType := fileType, language := language, error := req.extraction.error,
                               timestamp := stamp))
      else
        var pages := req.extraction.value;
        Reply(200, OCRResponse(true, fileType := fileType, numPages := |pages|, text := CombinePages(pages),
                               language := language, timestamp := stamp))
  }

  // ---------------------------------------------------------------------------
  // The process-wide state, updated in place
  // ---------------------------------------------------------------------------

  /** The globals of ocr.go that the gates read and write. */
  class Gates {
    var circuitState: CircuitState
    var failures: int
    var lastFailureTime: int
    var cpuLoadHigh: bool
    var lastCPUCheck: int
    var currentJobs: int

    constructor ()
      ensures circuitState == Closed && failures == 0 && lastFailureTime == 0
      ensures !cpuLoadHigh && lastCPUCheck == 0 && currentJobs == 0
    {
      circuitState := Closed;
      failures := 0;
      lastFailureTime := 0;
      cpuLoadHigh := false;
      lastCPUCheck := 0;
      currentJobs := 0;
    }

    function BreakerOf(): Breaker
      reads this
    {
      Breaker(circuitState, failures, lastFailureTime)
    }

    function MonitorOf(): Monitor
      reads this
    {
      Monitor(cpuLoadHigh, lastCPUCheck)
    }

    method IsCircuitOpen(now: int) returns (open: bool)
      modifies this
      ensures Probe(open, BreakerOf()) == IsOpen(old(BreakerOf()), now)
      ensures MonitorOf() == old(MonitorOf()) && currentJobs == old(currentJobs)
    {
      match circuitState
      case Open =>
        if now - lastFailureTime > RecoveryWindow {
          circuitState := HalfOpen;
          return false;
        }
        return true;
      case HalfOpen =>
        return false;
      case Closed =>
        return false;
    }

    method RecordFailure(now: int)
      modifies this
      ensures BreakerOf() == AfterFailure(old(BreakerOf()), now)
      ensures MonitorOf() == old(MonitorOf()) && currentJobs == old(currentJobs)
    {
      failures := failures + 1;
      lastFailureTime := now;
      if failures >= FailureThreshold {
        circuitState := Open;
        failures := 0;
      }
    }

    method RecordSuccess()
      modifies this
      ensures BreakerOf() == AfterSuccess(old(BreakerOf()))
      ensures MonitorOf() == old(MonitorOf()) && currentJobs == old(currentJobs)
    {
      circuitState := Closed;
      failures := 0;
    }

    method CheckSystemLoad(now: int, alloc: int) returns (admit: bool)
      modifies this
      ensures LoadVerdict(admit, MonitorOf()) == CheckLoad(old(MonitorOf()), now, old(currentJobs), alloc)
      ensures BreakerOf() == old(BreakerOf()) && currentJobs == old(currentJobs)
    {
      if now - lastCPUCheck < LoadCacheWindow {
        return !cpuLoadHigh;
      }
      lastCPUCheck := now;
      if currentJobs >= MaxConcurrentJobs {
        cpuLoadHigh := true;
        return false;
      }
      if alloc > MemoryCeiling {
        cpuLoadHigh := true;
        return false;
      }
      cpuLoadHigh := false;
      return true;
    }

    /** handleExtractOCR: the breaker, then the load check, then the request.
        Rejections by either gate, and requests that fail before extraction,
        leave the failure counter alone; only the extraction's outcome is fed
        back into the breaker.  `finishedAt` is the time recordFailure reads. */
    method HandleExtractOCR(req: Request, now: int, alloc: int, finishedAt: int) returns (reply: Reply)
      modifies this
      ensures var probe := IsOpen(old(BreakerOf()), now);
              probe.open ==>
                && reply == Reply(503, OCRResponse(false, error := "Service temporarily unavailable - system recovering",
                                                   timestamp := Some(now)))
                && BreakerOf() == probe.after && MonitorOf() == old(MonitorOf())
      ensures var probe := IsOpen(old(BreakerOf()), now);
              var load := CheckLoad(old(MonitorOf()), now, old(currentJobs), alloc);
              !probe.open ==>
                && MonitorOf() == load.after
                && (!load.admit ==>
                      reply == Reply(429, OCRResponse(false, error := "System under high load - please retry in a few seconds",
                                                      timestamp := Some(now)))
                      && BreakerOf() == probe.after)
                && (load.admit ==>
                      && reply == AdmittedReply(req, now)
                      && BreakerOf() == if !ReachesExtraction(req) then probe.after
                                        else if req.extraction.Failure? then AfterFailure(probe.after, finishedAt)
                                        else AfterSuccess(probe.after))
      ensures currentJobs == old(currentJobs)
    {
      var stamp := Some(now);
      var open := IsCircuitOpen(now);
      if open {
        return Reply(503, OCRResponse(false, error := "Service temporarily unavailable - system recovering",
                                      timestamp := stamp));
      }
      var admit := CheckSystemLoad(now, alloc);
      if !admit {
        return Reply(429, OCRResponse(false, error := "System under high load - please retry in a few seconds",
                                      timestamp := stamp));
      }
      currentJobs := currentJobs + 1;
      reply := AdmittedReply(req, now);
      if ReachesExtraction(req) {
        if req.extraction.Failure? {
          RecordFailure(finishedAt);
        } else {
          RecordSuccess();
        }
      }
      currentJobs := currentJobs - 1;
    }
  }
}
