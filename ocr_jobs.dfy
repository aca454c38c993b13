/**
 The asynchronous OCR job queue (ocr.go): a map from job id to job record and
 a bounded FIFO of pending ids that the queue's workers drain.  The random job
 id, the clock readings and what the extraction returns for a job's bytes are
 passed in.
 */
module OcrJobs {
  import opened Wrappers
  import opened Strings
  import opened OcrBatch

  const PendingCapacity: nat := 50

  const Pending: string := "pending"
  const Processing: string := "processing"
  const Completed: string := "completed"
  const JobFailed: string := "failed"
  const NotFound: string := "not_found"

  /** OCRJobRequest (ocr.go:35-47); `started`/`finished` are the nil-able pointers. */
  datatype Job = Job(
    id: string,
    fileData: seq<byte>,
    fileType: string,
    language: string,
    tmpDir: string,
    status: string,
    result: Option<OCRResponse>,
    created: int,
    started: Option<int>,
    finished: Option<int>)

  /** The record submitJob stores for a new job. */
  function NewJob(id: string, fileData: seq<byte>, fileType: string, language: string, tmpDir: string, now: int): (job: Job)
    ensures job.id == id && job.status == Pending && job.result.None?
    ensures job.started.None? && job.finished.None? && job.created == now
  {
    Job(id, fileData, fileType, language, tmpDir, Pending, None, now, None, None)
  }

  /** getJobStatus on a job map. */
  function StatusOf(jobs: map<string, Job>, id: string): (r: OCRResponse)
    ensures id !in jobs ==> r == OCRResponse(false, error := "Job not found", jobID := id, status := NotFound)
    ensures id in jobs && jobs[id].result.Some? ==> r == jobs[id].result.value
    ensures id in jobs && jobs[id].result.None? ==> r == OCRResponse(true, jobID := id, status := jobs[id].status)
  {
    if id !in jobs then
      OCRResponse(false, error := "Job not found", jobID := id, status := NotFound)
    else if jobs[id].result.Some? then
      jobs[id].result.value
    else
      OCRResponse(true, jobID := id, status := jobs[id].status)
  }

  /** performOCRJob: the response for one job, given what extracting its bytes
      returned.  It fails exactly when the type is not an OCR type or the
      extraction failed, and its status says which of the two outcomes it is. */
  function PerformOCRJob(job: Job, extraction: Result<seq<string>>, startTime: int): (r: OCRResponse)
    ensures r.jobID == job.id && r.timestamp == Some(startTime)
    ensures r.success <==> IsOcrFileType(job.fileType) && extraction.Success?
    ensures r.status == if r.success then Completed else JobFailed
    ensures !IsOcrFileType(job.fileType) ==> r.error == "Unsupported file type: " + job.fileType
    ensures IsOcrFileType(job.fileType) && extraction.Failure? ==> r.error == extraction.error
    ensures r.success ==>
              && r.numPages == |extraction.value|
              && '\n' !in r.text && '\r' !in r.text
              && r.fileType == job.fileType && r.language == job.language
  {
    var stamp := Some(startTime);
    if !IsOcrFileType(job.fileType) then
      OCRResponse(false, error := "Unsupported file type: " + job.fileType, timestamp := stamp,
                  jobID := job.id, status := JobFailed)
    else if extraction.Failure? then
      OCRResponse(false, fileType := job.fileType, language := job.language, error := extraction.error,
                  timestamp := stamp, jobID := job.id, status := JobFailed)
    else
      var pages := extraction.value;
      OCRResponse(true, fileType := job.fileType, numPages := |pages|, text := CombinePages(pages),
                  language := job.language, timestamp := stamp, jobID := job.id, status := Completed)
  }

  /** A job just submitted reads back as pending and successful. */
  lemma SubmittedIsPending(jobs: map<string, Job>, id: string, fileData: seq<byte>, fileType: string,
                           language: string, tmpDir: string, now: int)
    ensures StatusOf(jobs[id := NewJob(id, fileData, fileType, language, tmpDir, now)], id)
            == OCRResponse(true, jobID := id, status := Pending)
  {
  }

  /** A rejected submission leaves nothing to poll. */
  lemma RejectedIsNotFound(jobs: map<string, Job>, id: string)
    ensures StatusOf(jobs - {id}, id).status == NotFound
    ensures !StatusOf(jobs - {id}, id).success
  {
  }

  /** Once a job has its result, polling it returns that result, and the
      status reported agrees with the status stored on the job. */
  lemma FinishedJobReportsResult(jobs: map<string, Job>, job: Job, extraction: Result<seq<string>>,
                                 startedAt: int, ocrStart: int, finishedAt: int)
    ensures var result := PerformOCRJob(job, extraction, ocrStart);
            var done := Finished(Started(job, startedAt), result, finishedAt);
            && StatusOf(jobs[job.id := done], job.id) == result
            && StatusOf(jobs[job.id := done], job.id).status == done.status
  {
  }

  /** The job record once a worker picks it up. */
  function Started(job: Job, now: int): Job {
    job.(status := Processing, started := Some(now))
  }

  /** The job record once its result is stored. */
  function Finished(job: Job, result: OCRResponse, now: int): (j: Job)
    ensures j.result == Some(result) && j.finished == Some(now)
    ensures j.status == if result.success then Completed else JobFailed
    ensures j.(status := job.status, result := job.result, finished := job.finished) == job
  {
    job.(result := Some(result), status := if result.success then Completed else JobFailed, finished := Some(now))
  }

  /** The pending channel's ids are all jobs the map still holds. */
  predicate PendingKnown(jobs: map<string, Job>, pending: seq<string>) {
    forall k :: 0 <= k < |pending| ==> pending[k] in jobs
  }

  /** OCRJobQueue. */
  class OCRJobQueue {
    var jobs: map<string, Job>
    var pending: seq<string>
    const workers: nat

    /** initJobQueue with a worker count (see QueueWorkers). */
    constructor (workers: nat)
      ensures jobs == map[] && pending == [] && this.workers == workers
    {
      jobs := map[];
      pending := [];
      this.workers := workers;
    }

    ghost predicate Valid()
      reads this
    {
      |pending| <= PendingCapacity
    }

    /** submitJob: stores a pending record and queues its id, or, when the
        channel is full, removes the record again and returns "".  `jobID` is
        what generateJobID produced: sixteen hexadecimal digits, never "". */
    method SubmitJob(jobID: string, fileData: seq<byte>, fileType: string, language: string, tmpDir: string, now: int)
      returns (id: string)
      requires jobID != ""
      requires Valid()
      modifies this
      ensures Valid()
      ensures old(|pending|) < PendingCapacity ==>
                && id == jobID
                && jobs == old(jobs)[jobID := NewJob(jobID, fileData, fileType, language, tmpDir, now)]
                && pending == old(pending) + [jobID]
      ensures old(|pending|) >= PendingCapacity ==>
                id == "" && jobs == old(jobs) - {jobID} && pending == old(pending)
      ensures PendingKnown(old(jobs), old(pending)) && jobID !in old(jobs) ==> PendingKnown(jobs, pending)
    {
      jobs := jobs[jobID := NewJob(jobID, fileData, fileType, language, tmpDir, now)];
      if |pending| < PendingCapacity {
        pending := pending + [jobID];
        return jobID;
      }
      jobs := jobs - {jobID};
      return "";
    }

    /** getJobStatus. */
    function GetJobStatus(jobID: string): (r: OCRResponse)
      reads this
      ensures jobID !in jobs ==> !r.success && r.status == NotFound && r.error == "Job not found"
      ensures jobID in jobs && jobs[jobID].result.Some? ==> r == jobs[jobID].result.value
      ensures jobID in jobs && jobs[jobID].result.None? ==> r.success && r.status == jobs[jobID].status
    {
      StatusOf(jobs, jobID)
    }

    /** The first half of processJob: mark the job as processing. */
    method StartJob(jobID: string, now: int) returns (job: Option<Job>)
      modifies this
      ensures jobID !in old(jobs) ==> job.None? && jobs == old(jobs)
      ensures jobID in old(jobs) ==>
                job == Some(old(jobs)[jobID]) && jobs == old(jobs)[jobID := Started(old(jobs)[jobID], now)]
      ensures pending == old(pending)
    {
      if jobID !in jobs {
        return None;
      }
      job := Some(jobs[jobID]);
      jobs := jobs[jobID := jobs[jobID].(status := Processing, started := Some(now))];
    }

    /** The second half of processJob: store the result and its final status. */
    method FinishJob(jobID: string, result: OCRResponse, now: int)
      requires jobID in jobs
      modifies this
      ensures jobs == old(jobs)[jobID := Finished(old(jobs)[jobID], result, now)]
      ensures pending == old(pending)
    {
      var job := jobs[jobID];
      job := job.(result := Some(result));
      job := job.(status := Completed);
      if !result.success {
        job := job.(status := JobFailed);
      }
      job := job.(finished := Some(now));
      jobs := jobs[jobID := job];
    }

    /** processJob: an unknown id is ignored; otherwise pending -> processing
        -> completed/failed.  `extraction` is what extracting the job's bytes
        returns; the three times are the clock readings the Go code takes. */
    method ProcessJob(jobID: string, extraction: Result<seq<string>>, startedAt: int, ocrStart: int, finishedAt: int)
      modifies this
      ensures jobID !in old(jobs) ==> jobs == old(jobs)
      ensures jobID in old(jobs) ==>
                var job := old(jobs)[jobID];
                jobs == old(jobs)[jobID := Finished(Started(job, startedAt), PerformOCRJob(job, extraction, ocrStart), finishedAt)]
      ensures pending == old(pending)
    {
      var job := StartJob(jobID, startedAt);
      if job.None? {
        return;
      }
      var result := PerformOCRJob(job.value, extraction, ocrStart);
      FinishJob(jobID, result, finishedAt);
    }

    /** One turn of a worker: take the oldest pending id, if any, and process it. */
    method WorkOne(extraction: Result<seq<string>>, startedAt: int, ocrStart: int, finishedAt: int)
      returns (taken: Option<string>)
      requires Valid()
      modifies this
      ensures Valid()
      ensures old(pending) == [] ==> taken.None? && jobs == old(jobs) && pending == old(pending)
      ensures old(pending) != [] ==>
                && taken == Some(old(pending)[0])
                && pending == old(pending)[1..]
                && GetJobStatus(taken.value) == if taken.value in old(jobs)
                                                then PerformOCRJob(old(jobs)[taken.value], extraction, ocrStart)
                                                else StatusOf(old(jobs), taken.value)
    {
      if pending == [] {
        return None;
      }
      var jobID := pending[0];
      pending := pending[1..];
      ProcessJob(jobID, extraction, startedAt, ocrStart, finishedAt);
      return Some(jobID);
    }
  }
}
