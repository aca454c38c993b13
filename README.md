# extractor: a Dafny model of the OCR and summarisation service

The extractor service takes uploaded documents (PDF, ODT, DOC, DOCX and images). It extracts their text, by direct extraction or by OCR through tesseract, and splits the text into pages. It stores the pages in a Qdrant vector store for question answering. It also summarises documents at several levels of detail through an OpenRouter language model.

This project models the sequential logic of that service in Dafny and proves what it promises. The model has one module per Go file, plus two shared modules:

- `Wrappers`: `Option` and `Result`.
- `Strings`: the parts of Go's `strings` and `strconv` that the code relies on, with their properties.
- `OcrGates` (ocr.go): the circuit breaker and the cached load check, as a class over the process-wide globals, and the order in which the synchronous OCR handler consults them.
- `OcrJobs` (ocr.go): the asynchronous job queue, as a class holding a map of job records and a FIFO of at most 50 pending ids.
- `OcrBatch` (ocr.go): worker-pool sizing, the pool's enqueue-or-run-directly choice, and the ordered fan-in over the page images of a PDF.
- `Summary` (summary.go):
  - the chunk size per summary level;
  - sentence-end chunking;
  - the lowest-index-error fan-in of per-chunk summaries;
  - the chapter JSON extraction and defaulting;
  - the general-summary text sampler.
- `Extract` (extract.go):
  - the right-to-left and corruption heuristics and the RTL word repair;
  - line clean-up and the XML tag stripper;
  - page splitting;
  - the printable-run scanner for legacy `.doc` files.
- `OpenRouter` (openrouter.go): repair of raw control characters inside JSON string literals, code-fence removal, and the checks on a decoded chat response.
- `Qdrant` (qdrant.go):
  - merging keyword and semantic hits;
  - the exchange sort and truncation of re-ranked hits;
  - embedding batches of at most 100 and index-based placement;
  - overlapping page windows and the page filter before storage.
- `FileType` (file.go): suffix- and signature-based type detection, name-over-content precedence, the file name taken from the request headers, and dispatch to the extractors.
- `Handlers` (handlers.go): grade and level validation, and the splitting of pages into paragraphs.

Form of the model:

- Code that mutates state is written as imperative Dafny: a class with `modifies` clauses, or methods with loops and invariants. Each method is proved against a specification function, and the properties the Go code promises are lemmas about that function.
- Clocks, random ids, memory readings, the OCR engine, the language model, the embeddings endpoint, the ZIP reader and the Unicode letter predicate are parameters.
- A Go string is a sequence of characters, one character per byte or rune. The code compares these only with ASCII text and constants.

## Model

| member | source | states |
|---|---|---|
| OcrGates.AfterFailure | ocr.go:397-406 | a failure stamps the time, opens the breaker once the counter reaches 3 and otherwise keeps the state; from a counter in 0..2 the new counter is (old + 1) mod 3 |
| OcrGates.AfterSuccess | ocr.go:409-412 | a success closes the breaker and zeroes the counter from any state, and keeps the last failure time |
| OcrGates.IsOpen | ocr.go:378-394 | requests are blocked exactly when the breaker is Open and at most 10 s have passed since the last failure; an Open breaker past the window moves to HalfOpen; counter and time stay as they were |
| OcrGates.CounterStaysInRange | ocr.go:397-412 | whatever sequence of failures, successes and probes, the failure counter stays in 0..2 |
| OcrGates.Failures | ocr.go:397-406 | a list of failure times becomes one failure event per time, in order |
| OcrGates.ConsecutiveFailures | ocr.go:397-406 | n failures in a row leave the counter at (c + n) mod 3, open the breaker once c + n reaches 3, leave the state alone before that, and stamp the last failure's time |
| OcrGates.ConsecutiveFailuresKeepOpen | ocr.go:397-406 | failures never close an Open breaker |
| OcrGates.ThirdFailureBlocks | ocr.go:378-406 | three failures from a zero counter block every request inside the 10 s window after the third |
| OcrGates.HalfOpenKeepsAdmitting | ocr.go:382-390 | once the window has passed, the probe and every later probe let requests through: HalfOpen does not limit itself to one trial request |
| OcrGates.HalfOpenFailureMayNotReopen | ocr.go:389-406 | in HalfOpen, a failure blocks requests again only when it is the third on the counter and the window has not passed |
| OcrGates.CheckLoad | ocr.go:350-375 | the verdict is the negation of the cached flag; a verdict younger than 2 s is reused unchanged; otherwise the time is stamped and requests are admitted exactly when fewer than 10 jobs run and at most 6 GiB is allocated |
| OcrGates.CachedVerdictRepeats | ocr.go:352-353 | within 2 s of a sampling, a later check repeats that verdict and state, whatever the load has become |
| OcrGates.FirstCheckSamples | ocr.go:333-356 | starting from the zero time, the first load check at any real clock reading samples the load instead of reusing a verdict |
| OcrGates.OcrLanguage | ocr.go:516-520 | the OCR language is never empty: an empty `lang` parameter gives "eng", and any other is used lower-cased, with its length kept |
| OcrGates.AdmittedReply | ocr.go:497-577 | the reply succeeds exactly with status 200; that happens exactly when tesseract is present, the upload parses, the temporary directory exists, the type is an OCR type and the extraction succeeds; then the page count and file type are reported and the text has no line breaks; the error cases give 503, 400 and 500 with the extraction's error |
| OcrGates.Gates.constructor | ocr.go:333-348 | the breaker starts Closed with no failures, and the load flag and job count start at zero |
| OcrGates.Gates.IsCircuitOpen | ocr.go:378-394 | the globals change as IsOpen says and nothing else changes |
| OcrGates.Gates.RecordFailure | ocr.go:397-406 | the breaker fields change as AfterFailure says and nothing else changes |
| OcrGates.Gates.RecordSuccess | ocr.go:409-412 | the breaker fields change as AfterSuccess says and nothing else changes |
| OcrGates.Gates.CheckSystemLoad | ocr.go:350-375 | the load fields change as CheckLoad says and nothing else changes |
| OcrGates.Gates.HandleExtractOCR | ocr.go:467-578 | an open breaker gives 503 with its message; otherwise a failed load check gives 429; otherwise the reply is AdmittedReply. Only a request that reaches the extraction feeds back into the breaker: a failure when the extraction failed, a success when it succeeded. The job count is the same afterwards |
| OcrJobs.NewJob | ocr.go:201-212 | a new job record is pending, has no result, has not started or finished, and is stamped with its creation time |
| OcrJobs.StatusOf | ocr.go:232-258 | an unknown id gives "Job not found" with status not_found; a job with a result gives that result; otherwise a success carrying the job's status |
| OcrJobs.PerformOCRJob | ocr.go:149-198 | the response fails exactly when the type is not an OCR type or the extraction failed, and its status says completed or failed to match; the error is the unsupported-type message or the extraction's error; on success the page count, file type and language are reported and the text has no line breaks |
| OcrJobs.SubmittedIsPending | ocr.go:201-258 | a job that was just submitted polls as a pending success |
| OcrJobs.RejectedIsNotFound | ocr.go:222-244 | once a submission is rejected, polling its id reports not_found |
| OcrJobs.FinishedJobReportsResult | ocr.go:117-258 | once a job is processed, polling it returns exactly its result, and the reported status equals the stored one |
| OcrJobs.Finished | ocr.go:137-145 | a finished job stores the result and the finish time, and its status is completed or failed as the result says; no other field changes |
| OcrJobs.OCRJobQueue.constructor | ocr.go:88-107 | the queue starts with no jobs, an empty channel and the given worker count |
| OcrJobs.OCRJobQueue.SubmitJob | ocr.go:201-229 | with room in the 50-slot channel, the job is stored pending and its id queued; on a full channel the record is deleted again and "" returned; every id in the channel stays a known job |
| OcrJobs.OCRJobQueue.GetJobStatus | ocr.go:232-258 | polling gives not_found for an unknown id, the stored result when there is one, and otherwise a success with the job's status |
| OcrJobs.OCRJobQueue.StartJob | ocr.go:117-131 | an unknown id changes nothing; a known job is marked processing with its start time |
| OcrJobs.OCRJobQueue.FinishJob | ocr.go:136-145 | the job's record is replaced by its finished form; the channel is untouched |
| OcrJobs.OCRJobQueue.ProcessJob | ocr.go:117-146 | an unknown id is ignored; a known job goes from pending to processing to completed or failed, carrying PerformOCRJob's response |
| OcrJobs.OCRJobQueue.WorkOne | ocr.go:110-114 | a worker takes the oldest pending id, if there is one, processes it, and polling that id then gives PerformOCRJob's response |
| OcrBatch.OcrPoolWorkers | ocr.go:415-428 | the pool has 1 to 4 workers: a positive OCR_WORKERS capped at 4, and 2 otherwise |
| OcrBatch.QueueWorkers | ocr.go:88-95 | the queue has a positive QUEUE_WORKERS many workers, uncapped, and 2 otherwise |
| OcrBatch.ProcessOCR | ocr.go:448-464 | whether the job goes to a pool worker or, on a full channel, runs directly, the caller gets the engine's answer for that image and language |
| OcrBatch.BatchSize | ocr.go:619-626 | the batch size is pages divided by workers and kept in 1..4 |
| OcrBatch.PartitionOrdered | ocr.go:631-648 | the goroutines' page ranges come in increasing order and do not overlap |
| OcrBatch.PartitionCoversOnce | ocr.go:631-648 | every page index lies in exactly one goroutine's range |
| OcrBatch.ExtractOCRFromPDF | ocr.go:603-660 | a conversion error is passed on; no page images give "no pages were converted from PDF"; otherwise there is one entry per image, and entry i is the OCR text of image i, or "[OCR Error: …]" when that page failed, whatever order the goroutines finish in; the batches partition the pages |
| OcrBatch.ExtractOCRFromImage | ocr.go:671-685 | a write error fails the request with "failed to write image file: " and the error; otherwise the single page is the OCR text, and an OCR error is passed on as it is |
| OcrBatch.CombinePages | ocr.go:561-565 | the combined text has no "\n" and no "\r" |
| Summary.PagesPerChunk | summary.go:87-126 | for a level in 1..4, pages per chunk never exceed the page count, are at least 1 when there is a page, and at least 3 beyond 100 pages |
| Summary.CalculateSummaryLevels | summary.go:78-138 | the level is the requested one clamped to 1..4 (1 below, 4 above), and its pages per chunk lie in 1..totalPages when there is a page |
| Summary.AtSingle | summary.go:178-180 | a one-character pattern occurs at i exactly when that character sits at i |
| Summary.LastSentenceEndSpec | summary.go:177-182 | the sentence end found is a '.', '?' or '!' and no later character is one, or it is -1 when there is none |
| Summary.LastSentenceEndIsMax | summary.go:178-182 | the position used equals the largest of the three strings.LastIndex results for ".", "?" and "!" |
| Summary.SearchStart | summary.go:172-175 | the search window starts at or after the chunk's middle |
| Summary.CutAtSentenceSpec | summary.go:171-187 | a cut chunk is a prefix of its window; with a sentence end past the window's first character it ends at the last such end; otherwise the whole window is kept |
| Summary.PieceAtSpec | summary.go:162-190 | each loop round takes a non-empty slice of at most chunkSize characters starting at i, and the next round starts where it ends; a cut piece is taken while text is left after the window, otherwise the piece runs to the end |
| Summary.PieceStarts | summary.go:162-191 | there is one start position per piece |
| Summary.TilingSlices | summary.go:162-191 | in a tiling, every piece is the slice at its start, each piece starts where the previous one ends, and the last one ends at the end of the text |
| Summary.PiecesTile | summary.go:162-191 | the loop's pieces tile the text from position i to the end |
| Summary.PiecesConcat | summary.go:162-191 | the loop's pieces put back together give the text: nothing is lost and nothing is repeated |
| Summary.PiecesCut | summary.go:162-191 | every piece has 1 to chunkSize characters, and every piece but the last is cut at its window's last sentence end |
| Summary.NextPiece | summary.go:162-188 | one round of the loop, with its index arithmetic `i = i + actualEnd - chunkSize; i += chunkSize`, moves forward and takes exactly the piece PieceAt describes |
| Summary.PiecesStep | summary.go:162-191 | after one more round, the pieces collected so far together with the pieces from the new position are still all the pieces of the text |
| Summary.CutPieces | summary.go:161-191 | the loop returns the text's pieces, each trimmed |
| Summary.ChunkTextByPages | summary.go:141-197 | bad parameters or a chunk size that covers the text give the whole text as the one chunk; otherwise the chunks are the pieces of the text, each trimmed, and there is always at least one |
| Summary.GenerateChunkSummary | summary.go:199-258 | a missing API key gives "OPENROUTER_API_KEY environment variable not set"; with a key, a successful model call gives exactly its answer trimmed, and a failed call gives "failed to generate summary for chunk N: …" with the 1-based N; a summary is only returned with a key and a successful call |
| Summary.FirstFailure | summary.go:306-312 | the index found is the first failure, or -1 when every outcome succeeded |
| Summary.Values | summary.go:314-324 | the values are the successful outcomes' summaries, in chunk order |
| Summary.LevelSummary | summary.go:306-330 | the level summary fails exactly when some chunk failed, and then with the error of the lowest-index failure; one chunk gives its summary as it is; several are joined by a blank line in chunk order |
| Summary.ChunkOutcomes | summary.go:277-300 | there is one outcome per chunk, and outcome i is chunk i's summary call with index i and the chunk count |
| Summary.SummarizeChunk | summary.go:279-299 | a chunk's worker produces that chunk's outcome |
| Summary.SummarizeChunks | summary.go:270-304 | each worker stores its summary or its error at its own chunk's index |
| Summary.FirstError | summary.go:306-312 | the error scan finds the lowest index holding an error, or -1 |
| Summary.CollectLevelSummaries | summary.go:270-330 | combining the slots gives exactly LevelSummary of the chunk outcomes |
| Summary.GenerateLevelSummary | summary.go:261-331 | the text is chunked for the level and the result is LevelSummary over those chunks |
| Summary.CleanChapterResponse | summary.go:379-384 | the cleaned answer has no white space at either end |
| Summary.IndexOfChar | summary.go:387 | the position found holds the character and no earlier one does, or it is -1 when none does |
| Summary.LastIndexOfChar | summary.go:388 | the position found holds the character and no later one does, or it is -1 when none does |
| Summary.Bracketed | summary.go:391 | the test `first != -1 && last != -1 && last > first` in summary.go holds exactly when an opening character comes somewhere before a closing one |
| Summary.OuterSpan | summary.go:392 | the span runs from the first opening character to the last closing one and is a slice of the text |
| Summary.ChapterJSONPart | summary.go:386-403 | the decoded part is the outermost array; failing that, the outermost object wrapped in brackets; failing that, the whole cleaned text |
| Summary.ChapterNumber | summary.go:424-426 | a chapter always ends up with a non-zero number, and a given number is kept |
| Summary.NormalizeChapterSpec | summary.go:423-433 | number 0 becomes i + 1, a blank title becomes "Capitolul N" with that number, blank pages become "n/a", the summary is kept; afterwards number, title and pages are all present |
| Summary.NormalizeChapterIdempotent | summary.go:423-433 | filling in the defaults twice changes nothing more |
| Summary.NormalizeChapters | summary.go:423-433 | each chapter of the array is replaced, in place, by its completed form at its position |
| Summary.SampleText | summary.go:446-455 | up to 9000 characters the text is sent whole; beyond that, its first 3000 characters, the middle marker, the 3000 around its middle, the end marker and its last 3000 characters |
| Extract.IsRTLText | extract.go:232-247 | the counting pass answers whether the text has a letter and strictly more than half of its letters are right-to-left characters (Hebrew U+0590-05FF, Arabic U+0600-06FF, U+0750-077F, U+08A0-08FF) |
| Extract.RtlLettersBound | extract.go:236-243 | the right-to-left letter count never exceeds the letter count |
| Extract.RtlLetterWitness | extract.go:236-243 | a positive right-to-left count is witnessed by a position holding a right-to-left letter |
| Extract.RtlTextSpec | extract.go:232-262 | text taken for right-to-left text contains at least one right-to-left letter |
| Extract.IsCorruptedText | extract.go:210-229 | the counting pass answers false for empty text and otherwise whether there is a letter or digit and more than two white-space characters per letter or digit |
| Extract.CountsBound | extract.go:219-225 | white-space and letter-or-digit counts together never exceed the length of the text |
| Extract.SpaceWitness | extract.go:219-225 | a positive white-space count is witnessed by a white-space position |
| Extract.CorruptedTextSpec | extract.go:210-229 | corrupted text holds white space, and white space makes up more than two thirds of its counted characters |
| Extract.FixRTLSpacing | extract.go:265-298 | a text without fields comes back unchanged; otherwise the result is the merged words (runs of single right-to-left characters glued, other words kept) joined with single spaces |
| Extract.GatherStepSpells | extract.go:275-290 | one word of the loop keeps the spelling: the fixed words and the gathered run are the previous ones followed by the word |
| Extract.GatherSpells | extract.go:275-290 | after any prefix of the words, the fixed words and the gathered run spell exactly that prefix |
| Extract.MergeRtlSpells | extract.go:265-298 | merging loses, adds and reorders no character: the merged words concatenate to the input words |
| Extract.GatherPlainWords | extract.go:275-290 | with no single right-to-left character word, the loop keeps every word and gathers nothing |
| Extract.MergeRtlKeepsPlainWords | extract.go:265-298 | words none of which is a single right-to-left character come out as they went in |
| Extract.GatherShrinks | extract.go:275-295 | the loop never produces more words than it reads |
| Extract.MergeRtlShrinks | extract.go:265-298 | the merged list is never longer than the word list |
| Extract.GatherRun | extract.go:277-278 | a run of single right-to-left characters is gathered, in order, into one pending word and fixes nothing |
| Extract.MergeRtlRun | extract.go:275-295 | a non-empty run of single right-to-left characters comes out as exactly one word, the characters glued together |
| Extract.GatherStepShift | extract.go:275-290 | words fixed earlier stay in front of whatever one more turn of the loop fixes |
| Extract.GatherAfterFlush | extract.go:275-290 | once nothing is gathered, the remaining words are merged as they would be on their own, behind the words already fixed |
| Extract.GatherPlainWord | extract.go:279-289 | a word that is not a single right-to-left character releases the gathered run and is kept as it is, leaving nothing gathered |
| Extract.MergeRtlAroundPlainWord | extract.go:265-298 | merging is local: the words before and after a word that is not a single right-to-left character are merged separately, with that word kept between them |
| Extract.CleanExtractedText | extract.go:167-183 | the result is the cleaned lines (blank lines dropped, each other line's words joined by single spaces) joined with line breaks |
| Extract.JoinedWordsLine | extract.go:173-178 | a cleaned non-blank line is non-empty and holds no line break |
| Extract.FieldsOfText | extract.go:176-177 | text starting with a non-space character has a first word, so its cleaned form is non-empty |
| Extract.CleanLinesSpec | extract.go:169-182 | every cleaned line is non-empty and free of line breaks, and there are no more cleaned lines than input lines |
| Extract.StripTagsLoop | extract.go:338-352 | the tag-flag loop keeps exactly the characters of the tag-free scan |
| Extract.KeepNonEmptyLines | extract.go:360-366 | the line loop keeps exactly the trimmed lines that are not empty, in order |
| Extract.ExtractTextFromXML | extract.go:337-369 | the result is the kept lines of the tag-free, tab-free text joined with line breaks |
| Extract.StripTagsDropsBrackets | extract.go:341-352 | no '<' or '>' survives the scan |
| Extract.StripTagsKeepsPlainText | extract.go:341-352 | text without angle brackets read outside a tag is kept unchanged |
| Extract.StripTagsAppend | extract.go:341-352 | scanning a concatenation is scanning the first part and then the second from the flag the first leaves |
| Extract.InsideTag | extract.go:341-352 | inside a tag nothing is kept and the flag stays set until a '>' |
| Extract.TagThrough | extract.go:343-346 | a tag from '<' through the first '>' leaves nothing and the text after it is read outside a tag |
| Extract.TagDropped | extract.go:341-352 | a tag is dropped from '<' through the next '>', plain text before it is kept, and the text after it is read outside a tag |
| Extract.TagAfterPlain | extract.go:341-352 | text without angle brackets leaves the flag unset |
| Extract.NonEmptyLinesTrimmed | extract.go:360-366 | every kept line is non-empty and trimmed |
| Extract.NonEmptyLinesSpec | extract.go:360-366 | every kept line is non-empty, has no white space at either end, and holds no character that no input line holds |
| Extract.XmlLinesSpec | extract.go:354-368 | every output line of the XML text is non-empty and trimmed and holds no line break, no tab and no '<' or '>' |
| Extract.BreakPoint | extract.go:450-461 | the cut lies past half the limit and at most at the limit |
| Extract.ByLengthUnfold | extract.go:448-465 | one turn of the loop: the trimmed head up to the cut, then the pages of the trimmed rest |
| Extract.SplitByLength | extract.go:440-473 | text within the limit is returned as the one page; longer text gives the pages of the shrinking loop (which terminates for a limit of at least 1) |
| Extract.ByLengthFits | extract.go:448-470 | every page the loop produces is within the limit |
| Extract.ByLengthTrimmed | extract.go:448-470 | from a trimmed text every page is non-empty and trimmed |
| Extract.GroupParagraphs | extract.go:399-423 | the grouping loop yields the grouped pages, the unfinished last page included |
| Extract.SplitTextIntoPages | extract.go:373-436 | the result follows the four branches: [""] for blank text, the form-feed pages when there are any, the grouped paragraphs, and the length split of one over-long page |
| Extract.JoinSnoc | extract.go:414-417 | appending a paragraph after a separator extends the joined text by the separator and the paragraph |
| Extract.FlushKeeps | extract.go:408-417 | a paragraph that would push a non-empty page past 2000 characters closes that page and opens the next, keeping the grouping invariant |
| Extract.AppendKeeps | extract.go:414-417 | a paragraph that fits is added after a paragraph break, keeping the grouping invariant |
| Extract.FirstKeeps | extract.go:414-417 | the first non-blank paragraph opens a page, keeping the grouping invariant |
| Extract.AddParagraphKeeps | extract.go:402-418 | each paragraph, blank or not, keeps the grouping invariant |
| Extract.GroupKeeps | extract.go:402-418 | the grouping invariant holds after all paragraphs, relative to the non-blank trimmed paragraphs |
| Extract.GroupPagesSpec | extract.go:399-423 | there are pages exactly when some paragraph is non-blank; joined with paragraph breaks the pages are the trimmed non-blank paragraphs joined the same way; each page is non-empty and trimmed; a page over 2002 characters is a single paragraph |
| Extract.NoLinesAllBlank | extract.go:402-406 | when no paragraph is kept, every paragraph is blank |
| Extract.BlankJoin | extract.go:394-406 | blank pieces joined by a blank separator are blank |
| Extract.TextPagesSpec | extract.go:373-436 | blank text yields [""]; non-blank text always has a grouped page, so the whole-text fallback is never taken, and every page is non-empty and trimmed |
| Extract.WideEnd | extract.go:35-45 | the UTF-16LE scan stops inside the data and consumes at least one unit when one is there |
| Extract.AsciiEnd | extract.go:62-65 | the printable-byte scan stops inside the data and consumes at least the first byte when it is printable |
| Extract.Chars | extract.go:67 | byte-to-character conversion keeps the length and maps each byte to the character of the same code |
| Extract.WideScan | extract.go:35-47 | the inner UTF-16LE loop stops where the run ends and yields the run's characters |
| Extract.AsciiScan | extract.go:62-65 | the inner printable loop stops where the run ends |
| Extract.WriteRun | extract.go:48-53 | a kept run is written after a space when it starts fewer than 512 bytes after the previous kept run, after a blank line when the builder is not empty, and after nothing otherwise |
| Extract.KeepRun | extract.go:46-55 | writing one more kept run extends the layout of the earlier runs as the builder does |
| Extract.KeepIfLong | extract.go:46-56 | a run of at least 6 characters is kept and one shorter is skipped, and the scan invariant moves to the run's end |
| Extract.ScanStep | extract.go:32-80 | one turn of the outer loop advances the position and keeps the scan invariant |
| Extract.ScanRuns | extract.go:29-81 | the outer loop leaves the builder holding the layout of all runs the scanner keeps |
| Extract.ExtractDOCText | extract.go:21-90 | the method yields the outcome DocText defines: the two errors or the pages of the trimmed layout |
| Extract.PrintableChar | extract.go:61-63 | a printable byte is a character between ' ' and '~' |
| Extract.WideTextSpec | extract.go:35-47 | a UTF-16LE run covers two bytes per character, each unit a printable byte followed by zero, and ends where no such unit follows |
| Extract.AsciiEndSpec | extract.go:62-65 | every byte of a printable run is printable and the run ends at the data's end or a non-printable byte |
| Extract.CharsPrintable | extract.go:67 | printable bytes convert to printable characters |
| Extract.RunsOkWeaken | extract.go:32-81 | runs that are good from a position are good from any earlier one |
| Extract.RunsOkCons | extract.go:32-81 | a good run followed by good runs that start after it are good together |
| Extract.WideHead | extract.go:34-57 | a UTF-16LE scan from a fresh position ends at a fresh position and, when at least 6 characters long, yields a good run |
| Extract.AsciiHead | extract.go:61-77 | a printable scan from a fresh position ends at a fresh position and yields a good run or one shorter than 6 |
| Extract.RunsFromSpec | extract.go:26-81 | every kept run is at least 6 printable characters, a maximal run of printable bytes or a run of UTF-16LE units ended where no unit follows, and the runs come in order without overlap |
| Extract.HasBreakSnoc | extract.go:48-52 | two runs 512 or more bytes apart occur in a list with one more run exactly when they occur before it or the new run is that far from the last |
| Extract.LayoutChars | extract.go:48-53 | the layout of printable runs is made of printable characters and line breaks only |
| Extract.LayoutBreaks | extract.go:48-52 | the layout holds a line break exactly when two neighbouring kept runs lie at least 512 bytes apart |
| Extract.DocTextSpec | extract.go:21-90 | empty input fails with "empty DOC file"; no kept run fails with "no readable text found in DOC file"; otherwise the result is the pages of the trimmed layout, made of printable characters and line breaks, with a break exactly at gaps of 512 bytes or more, and every page non-empty and trimmed |
| OpenRouter.Next | openrouter.go:74-120 | an unescaped quote toggles whether the scanner is inside a string literal and nothing else does; a pending backslash only happens inside a literal |
| OpenRouter.Emit | openrouter.go:77-118 | outside a literal every byte is copied; inside, '\n', '\r' and '\t' become a backslash and 'n', 'r' or 't'; a byte is copied as it is exactly when it is not such a control character inside a literal |
| OpenRouter.ScanByte | openrouter.go:75-119 | one round of the loop, with its tests in the order of openrouter.go, appends what Emit says and leaves the flags Next says |
| OpenRouter.SanitizeJSONString | openrouter.go:69-123 | the loop's output is the scan of the whole input from outside any literal |
| OpenRouter.ScanLength | openrouter.go:69-123 | the output is longer than the input by exactly one byte for each control character escaped inside a literal |
| OpenRouter.ScanUnchanged | openrouter.go:69-123 | the output equals the input exactly when no control character occurs inside a literal |
| OpenRouter.ScanAppend | openrouter.go:69-123 | scanning `a + b` scans `a` and then `b` from the flags `a` left |
| OpenRouter.EmitStable | openrouter.go:77-118 | rescanning what one byte produced reproduces it and leaves the same flags as reading that byte |
| OpenRouter.ScanIdempotent | openrouter.go:69-123 | sanitizing twice gives the same as sanitizing once, and the literals' boundaries do not move |
| OpenRouter.SanitizeProperties | openrouter.go:69-123 | from the initial flags: the length relation, "unchanged exactly when nothing needs escaping", and idempotence |
| OpenRouter.DeleteFencesHead | openrouter.go:181 | if the text left after deleting every "```" starts with two backticks, so did the input |
| OpenRouter.DeleteFencesLeavesNone | openrouter.go:181 | after the fences are deleted, no "```" is left anywhere |
| OpenRouter.ConsNoFence | openrouter.go:181 | putting a character in front of fence-free text creates a fence only if it is a backtick and the text starts with two |
| OpenRouter.TrimSpaceKeepsNoFence | openrouter.go:182 | trimming fence-free text leaves it fence-free |
| OpenRouter.CleanFencesSpec | openrouter.go:177-182 | the cleaned reply handed to the JSON decoder contains no "```" and has no white space at either end |
| OpenRouter.CleanFencesKeepsPlainReply | openrouter.go:177-182 | a reply with no fence and no surrounding white space is passed on as it is |
| OpenRouter.ReplaceAllWithoutPattern | openrouter.go:181 | replacing a pattern that does not occur changes nothing |
| OpenRouter.ResponseAnswer | openrouter.go:306-326 | a status other than 200 gives "OpenRouter API returned status N: body"; a decode error, an API error object or an empty choice list each give their own error; the call succeeds exactly when none of these happens, and then answers the first choice's content, trimmed |
| OpenRouter.ResponseAnswerTrimmed | openrouter.go:323 | a successful answer has no white space at either end |
| Qdrant.Offer | qdrant.go:553-557 | an offered result is appended exactly when its id is new and the list is below the limit, and the seen set stays the set of the list's ids |
| Qdrant.OfferAll | qdrant.go:553-566 | one loop over a list of results extends the combination of everything offered before it by that list |
| Qdrant.CombineSnoc | qdrant.go:553-566 | offering one more result appends it exactly when its id is new and the limit is not reached |
| Qdrant.CombineSearchResults | qdrant.go:548-569 | the two loops compute the combination of the keyword hits followed by the semantic hits |
| Qdrant.IdsSpec | qdrant.go:549-556 | an id is in the seen set exactly when some result in the list carries it |
| Qdrant.CombineBound | qdrant.go:554 | at most `limit` results are returned, and none for a negative limit |
| Qdrant.CombineDistinct | qdrant.go:549-566 | no id is returned twice |
| Qdrant.CombineInOrder | qdrant.go:552-566 | the results keep their input order: keyword hits, then semantic hits |
| Qdrant.SubsequenceExtend | qdrant.go:553-566 | a list that keeps the order of an input still keeps the order of that input with one more result after it |
| Qdrant.CombineMaximal | qdrant.go:553-566 | an input result whose id is missing from the output was dropped only because the limit was reached |
| Qdrant.CombineFromInput | qdrant.go:553-566 | every output result is one of the inputs |
| Qdrant.CombineKeepsKeywordPrefix | qdrant.go:552-558 | keyword hits with distinct ids and within the limit all come back, in order, ahead of every semantic hit |
| Qdrant.CombineAll | qdrant.go:553-566 | distinct results within the limit are all taken, as they are |
| Qdrant.CombineGrows | qdrant.go:553-566 | offering one more result never removes or reorders what was already taken |
| Qdrant.PullMax | qdrant.go:325-329 | the inner loop leaves the largest score of a[i..] at position i, permutes only a[i..], and does not touch a[..i] |
| Qdrant.Swap | qdrant.go:327 | the exchange trades a[i] and a[j], leaves every other element, and permutes a[i..] |
| Qdrant.BoundKept | qdrant.go:324-330 | a bound that holds for every element of a suffix still holds after that suffix is permuted |
| Qdrant.ExchangeSort | qdrant.go:323-330 | the exchange sort leaves the array in descending score order and is a permutation of it |
| Qdrant.Rescored | qdrant.go:290-321 | each hit keeps its id and payload and gets its blended score, in the same order |
| Qdrant.FilterByTextSimilarity | qdrant.go:273-339 | no hits give no result; otherwise the result is the first min(limit, n) of the rescored hits sorted by descending score, and none for a limit of 0 or less |
| Qdrant.Place | qdrant.go:408-413 | there is one slot per input text |
| Qdrant.PlaceEmbeddings | qdrant.go:408-413 | the placement loop fills the slots as Place describes |
| Qdrant.PlaceSpec | qdrant.go:408-413 | a slot is empty exactly when no datum carries its index, and otherwise holds the vector of the last datum that does |
| Qdrant.EmbeddingsBatch | qdrant.go:371-417 | a successful reply gives one slot per text of the batch |
| Qdrant.PrependNothing | qdrant.go:364 | prepending no vectors changes nothing |
| Qdrant.PrependTwice | qdrant.go:364 | prepending two batches one after the other is prepending their concatenation |
| Qdrant.GetOpenAIEmbeddings | qdrant.go:342-368 | the batch loop computes Embeddings: a missing key is an error; otherwise the batches of at most 100 in order, stopping at the first error and naming its range "lo-hi" |
| Qdrant.EmbedFromLength | qdrant.go:352-367 | a successful call has one slot per text from `lo` on |
| Qdrant.BatchAtShift | qdrant.go:352-358 | batch k + 1 from `lo` is batch k from the next batch's start |
| Qdrant.EmbedFromSucceeds | qdrant.go:352-367 | the calls succeed exactly when the endpoint succeeds for every contiguous batch of at most 100 texts |
| Qdrant.EmbeddingsSpec | qdrant.go:342-368 | a missing key always fails; with a key the call succeeds exactly when every batch does; a success has one slot per text |
| Qdrant.WritePrefix | qdrant.go:668-694 | the prefix branch writes exactly PrefixOverlap of the previous page |
| Qdrant.WriteSuffix | qdrant.go:699-719 | the suffix branch writes exactly SuffixOverlap of the next page |
| Qdrant.BuildOverlapPage | qdrant.go:666-721 | the page builder yields the trimmed prefix, page and suffix that OverlapPage describes |
| Qdrant.CreatePagesWithOverlap | qdrant.go:649-725 | the method returns OverlapPages of the input |
| Qdrant.OverlapPagesAt | qdrant.go:663-722 | with two or more cleaned pages, entry k is the overlap page built for page k |
| Qdrant.SliceSnoc | qdrant.go:721 | a prefix of a list extended by the next element is the next prefix |
| Qdrant.PrefixOverlapFrom | qdrant.go:669-694 | the prefix is empty exactly when the previous page is shorter than the window; otherwise it is the trimmed end of that page, at most 200 characters of it, followed by one space |
| Qdrant.SuffixOverlapFrom | qdrant.go:700-719 | the suffix is empty exactly when the next page has at most 20 characters; otherwise it is one space followed by the trimmed start of that page, at most 200 characters of it |
| Qdrant.OverlapPagesSpec | qdrant.go:649-725 | there is one entry per non-blank page; with at most one such page the trimmed pages themselves; otherwise every entry is trimmed and holds its own trimmed page whole |
| Qdrant.OverlapPageCore | qdrant.go:666-721 | one overlap entry is trimmed and contains its own trimmed page whole |
| Qdrant.Texts | qdrant.go:98 | the texts sent for embedding are the payloads' texts, in order |
| Qdrant.Points | qdrant.go:122-133 | point i pairs vector i with payload i |
| Qdrant.CollectPages | qdrant.go:92-105 | the collection loop yields the payloads of the pages that are kept, and their texts |
| Qdrant.StorePagesInQdrant | qdrant.go:85-133 | storing makes the overlap pages and then has the outcome StoreOutcome gives for them |
| Qdrant.StoreOverlapped | qdrant.go:92-133 | after the overlap pages are made: no kept page gives "no pages found to store"; an embeddings error becomes "failed to get OpenAI embeddings: …"; otherwise one point per payload |
| Qdrant.PayloadsFromPages | qdrant.go:93-105 | each payload names the 1-based position of a page that is not skipped, carries that page, the user and the document |
| Qdrant.PayloadsOrdered | qdrant.go:93-105 | the payloads come in page order |
| Qdrant.PayloadsComplete | qdrant.go:93-105 | every page that is not skipped has its payload |
| Qdrant.PayloadsEmpty | qdrant.go:93-109 | no payload is kept exactly when every page is blank or shorter than 20 characters |
| Qdrant.StoreNeedsPages | qdrant.go:107-109 | storing fails with "no pages found to store" exactly when every overlap page is skipped |
| Qdrant.StoreUploadsPayloads | qdrant.go:111-133 | with some page kept, the upload goes ahead exactly when the embeddings call succeeds, and then sends one point per payload in order: the length check never fires |
| FileType.SuffixLast | file.go:96-106 | two suffixes of one string end in the same character, which lets the four name tests exclude each other |
| FileType.FileTypeFromNameSpec | file.go:94-109 | the name gives "pdf", "odt", "doc" or "docx" exactly when the lower-cased name has that suffix, and "unknown" otherwise |
| FileType.ToLowerIdempotent | file.go:95 | lower-casing twice is the same as lower-casing once |
| FileType.FileTypeFromNameIgnoresCase | file.go:94-109 | the name test ignores letter case |
| FileType.ZipEntryTypeSpec | file.go:134-145 | a ZIP archive is an ODT exactly when, in archive order, its first marker entry is content.xml or META-INF/manifest.xml; otherwise, with a DOCX marker first or no marker at all, it is a DOCX |
| FileType.DetectFileTypeSpec | file.go:111-149 | "doc" exactly for the OLE signature with at least 8 bytes; "pdf" exactly for "%PDF"; "docx" or "odt" exactly for a readable "PK" archive, which one its entries decide; "unknown" for anything shorter than 4 bytes, an unreadable archive or no known signature |
| FileType.MultipartFileType | file.go:85-89 | a supported type from the name wins, and the content is sniffed only when the name gives "unknown" |
| FileType.ReadMultipartFile | file.go:73-92 | an open error gives "cannot open uploaded file: …", a read error "cannot read uploaded file: …"; otherwise the part's bytes come back with their type, the name's type first |
| FileType.FilenameFromHeadersSpec | file.go:53-66 | a present Content-Disposition without "filename=" gives "uploaded_file" even when the other headers are set; without Content-Disposition, the first present of X-Filename and X-Original-Name is used, else "uploaded_file" |
| FileType.FilenameIsTrim | file.go:55-59 | with "filename=" in Content-Disposition, the name is the text after its first occurrence (9 characters on), trimmed of double quotes |
| FileType.UnquoteSlice | file.go:58 | trimming double quotes removes only double quotes and only at the two ends: the result is a slice of the text and neither starts nor ends with a quote |
| FileType.GetFileFromRequest | file.go:40-71 | a multipart part is read with its own name and its type decided name first; otherwise an empty body gives the "no file provided" error, and a non-empty body is taken whole with its type sniffed from the content and its name from the headers |
| FileType.ExtractTextPages | file.go:151-164 | each supported type goes to its own extractor ("pdf", "odt" and "docx" to theirs, "doc" to the DOC text extractor), only those four reach an extractor, and any other type gives "unsupported file type: T (supported: pdf, odt, doc, docx)" |
| Handlers.FormValue | handlers.go:16 | a form value falls back to its default exactly when it is absent or empty |
| Handlers.ParseGradeSpec | handlers.go:16-22 | the paragraph grade is always in 1..10; it is g in 2..10 exactly when the value parses to g; every grade in 2..10 written in decimal is read back as itself |
| Handlers.ParseLevelSpec | handlers.go:512-519 | a level is accepted exactly when it parses to an integer in 1..10, and then is that integer; every other value gets the one error message; every level in 1..10 round-trips through its decimal form; an absent level is level 1 |
| Handlers.LastSpace | handlers.go:185 | the last space found, if any, is a position of the paragraph text that holds a space |
| Handlers.Cut | handlers.go:168-190 | one paragraph slot lies in the text, starts where asked, and skips at most the one space it was cut at; the last paragraph always runs to the end of the text |
| Handlers.Spans | handlers.go:167-198 | the corrected split, each paragraph starting where the previous one left off (`nextStart`): the slots lie in the text, are numbered 1, 2, … in order, and there are at most `grade` of them |
| Handlers.SpansAsWritten | handlers.go:167-198 | with paragraph i starting at i times the current length, as the code does, and none once that start reaches the end of the text: the slots lie in the text, are numbered 1, 2, … in order, and there are at most `grade` of them |
| Handlers.Rendered | handlers.go:195 | each stored paragraph is its "[Page p, Paragraph i/grade]" header line followed by its text, one per paragraph |
| Handlers.RenderedAppend | handlers.go:195-196 | rendering two paragraph lists one after the other is rendering their concatenation |
| Handlers.ParagraphsCons | handlers.go:193-197 | the first slot contributes a paragraph exactly when its trimmed text is not empty, ahead of the paragraphs of the other slots |
| Handlers.StoredDone | handlers.go:167-177 | nothing more is stored once the paragraph count is used up or `i * paragraphLength` reaches the end of the text |
| Handlers.SplitStep | handlers.go:167-198 | one round of the inner loop, started at `i * paragraphLength`, stores the slot's paragraph, if it is not blank, ahead of what the remaining rounds store with the paragraph length the round leaves |
| Handlers.CutParagraph | handlers.go:168-191 | the loop body, up to the trimming, gives the slot's text and the new paragraph length that Cut describes |
| Handlers.SplitOne | handlers.go:168-197 | the whole loop body stores exactly the slot's rendered paragraph, or nothing for a blank slot |
| Handlers.SplitTurn | handlers.go:167-198 | a round started at `i * paragraphLength`: afterwards, what is stored so far followed by what the remaining rounds store is still the page's whole result |
| Handlers.SplitPage | handlers.go:161-198 | the inner loop for one trimmed page, which starts paragraph i at `i * paragraphLength` and stops once that start reaches the end of the text, stores exactly the rendered paragraphs of the as-written slots |
| Handlers.SplitPagesIntoParagraphs | handlers.go:148-202 | a grade outside 2..10 returns the pages unchanged; otherwise blank pages are skipped and every other page is stored as its rendered paragraphs, page by page |
| Handlers.SpansTile | handlers.go:167-198 | the corrected slots cover the text from the first character to the last: each one starts where the one before it left off |
| Handlers.TilesCons | handlers.go:167-198 | a slot followed by slots that tile the rest of the text from where it leaves off tiles the text |
| Handlers.TilesCover | handlers.go:167-198 | tiling slots lose no character: every position lies in a slot or is a space that a slot was cut at |
| Handlers.PageSpansTile | handlers.go:155-198 | with the corrected split, no text of a non-blank page is lost or repeated: its slots tile its trimmed text and cover every character |
| Handlers.WitnessLastSpace | handlers.go:185-186 | in the 101-character witness, the last space of the first 100 characters is at position 60 |
| Handlers.AsWrittenRepeatsText | handlers.go:168-190 | as written, with grade 2 the witness is split into slots 0..60 and 40..101: the second paragraph repeats twenty characters of the first, and the slots do not tile the text |
| Handlers.AsWrittenStoresRepeat | handlers.go:167-198 | as written, the witness page at grade 2 is stored as sixty 'a's and then a second paragraph whose first twenty characters are the last twenty of the first |
| Handlers.CorrectedSplitsWitness | handlers.go:184-190 | started where the first one left off, the second slot of the witness is 61..101, and the two slots tile the text |
| Handlers.SlotPiece | handlers.go:182-194 | a slot's trimmed text, when not empty, is a trimmed, contiguous piece of the page |
| Handlers.ParagraphsSpec | handlers.go:167-198 | a page's paragraphs are no more than its slots, carry the page number, are numbered within the slots' range in strictly increasing order, and each is a non-empty trimmed piece of the page |
| Handlers.PageParagraphsSpec | handlers.go:155-198 | for the split as written, a blank page gives no paragraph; otherwise at most `grade` paragraphs, numbered from 1 to `grade` in strictly increasing order, each a non-empty trimmed piece of the page's trimmed text |
| Handlers.ShortPageWhole | handlers.go:161-197 | as written, a page whose trimmed text has at most 100 characters is stored whole, as paragraph 1, and the loop stops at the second paragraph's start of 100 |
| Handlers.FromPageExtend | handlers.go:155-199 | a paragraph that belongs to one of the first pages still belongs to a page once more pages follow |
| Handlers.AllParagraphsFromPages | handlers.go:148-202 | for the split as written, every stored paragraph belongs to a non-blank page, is a piece of that page's trimmed text, and is numbered between 1 and the grade |
| Handlers.AllParagraphsOrdered | handlers.go:148-202 | for the split as written, the stored paragraphs come in page order and, on one page, in paragraph order |
| Strings.AllSpaceIsBlank | extract.go:374-376 | the character-by-character blank test agrees with "every character is white space" and with "TrimSpace gives the empty string" |
| Strings.TrimLeftSet | summary.go:383 | the result is a suffix of the input, does not start with a cut-set character, and only cut-set characters were removed |
| Strings.TrimRightSet | summary.go:383 | the result is a prefix of the input, does not end with a cut-set character, and only cut-set characters were removed |
| Strings.SliceOfSlice | summary.go:383 | a slice of a slice is the slice at the summed offsets |
| Strings.TrimSlice | summary.go:383 | strings.Trim leaves a contiguous slice of the input, removes only cut-set characters before and after it, and the slice neither starts nor ends with one |
| Strings.TrimShape | summary.go:383 | the trimmed text is the slice that starts where the left trim stopped |
| Strings.TrimCutsSuffix | summary.go:383 | everything after the trimmed slice is a cut-set character |
| Strings.TrimEnds | summary.go:383 | the trimmed text is empty or neither starts nor ends with a cut-set character |
| Strings.TrimLeftSpaceSpec | extract.go:373-376 | removing leading white space leaves a suffix that does not start with white space, and only white space was removed |
| Strings.TrimRightSpaceSpec | extract.go:373-376 | removing trailing white space leaves a prefix that does not end with white space, and only white space was removed |
| Strings.TrimSpaceSpec | extract.go:373-376 | strings.TrimSpace is no longer than its input, has no white space at either end, and is empty exactly when the input is all white space |
| Strings.TrimSpaceSlice | extract.go:373-376 | strings.TrimSpace is a contiguous slice of the input with only white space removed around it |
| Strings.TrimSpaceTrimmed | extract.go:383 | strings.TrimSpace leaves no white space at either end |
| Strings.TrimSpaceOfTrimmed | extract.go:383 | a text without white space at either end is its own trimmed form |
| Strings.TrimSpaceKeepsCore | qdrant.go:715-720 | trimming a text built around a non-empty trimmed middle keeps the middle as a contiguous part |
| Strings.TrimSpaceIdempotent | extract.go:463-464 | trimming twice is trimming once |
| Strings.IndexFromSpec | file.go:57 | the search from a position finds the first occurrence from there, and -1 means none at all when none lies before it |
| Strings.IndexSpec | file.go:57 | strings.Index returns the first occurrence, and -1 exactly when there is none |
| Strings.LastIndexFromSpec | summary.go:178-180 | the backward search finds the last occurrence at or before a position, and -1 means none at all when none lies after it |
| Strings.LastIndexSpec | extract.go:453-460 | strings.LastIndex returns the last occurrence, and -1 exactly when there is none |
| Strings.Contains | extract.go:379 | strings.Contains holds exactly when the pattern occurs somewhere |
| Strings.TrimPrefix | openrouter.go:179 | with the prefix present, the result is what follows it; otherwise the input is returned unchanged |
| Strings.TrimSuffix | openrouter.go:180 | with the suffix present, the result is what precedes it; otherwise the input is returned unchanged |
| Strings.ConcatAppend | extract.go:297 | concatenating two lists of parts is concatenating each and joining the results |
| Strings.Split | extract.go:169 | strings.Split always yields at least one piece |
| Strings.JoinSplit | extract.go:169-182 | joining the pieces of a split with the same separator gives back the input |
| Strings.JoinCons | extract.go:182 | joining a list with a head is the head, the separator and the join of the rest |
| Strings.SpaceIndex | extract.go:176 | the position returned is the first white-space character, or the end |
| Strings.Fields | extract.go:176 | every field of strings.Fields is a non-empty run without white space |
| Strings.ReplaceAllKeepsOut | extract.go:356-357 | replacing never brings in a character that neither the input nor the replacement holds |
| Strings.ReplaceAllRemovesChar | extract.go:357 | replacing a one-character pattern by text without it leaves none of that character |
| Strings.SplitKeepsOut | extract.go:358 | a character missing from the input is missing from every piece of a split |
| Strings.SplitAtChar | extract.go:358 | the pieces of a split at one character do not contain it |
| Strings.TrimSpaceKeepsOut | extract.go:362 | trimming never brings in a character |
| Strings.JoinKeepsOut | extract.go:368 | a join holds no character that neither its parts nor its separator hold |
| Strings.ToLower | file.go:95 | lower-casing keeps the length and maps each character through the ASCII lower-case map |
| Strings.Atoi | handlers.go:19 | strconv.Atoi fails on the empty string and any value it returns fits in 64 bits |
| Strings.DigitChar | handlers.go:19 | the digit character of d has code '0' + d |
| Strings.NatToString | handlers.go:19 | the decimal form of a natural number is a non-empty string of digits, without a leading zero, whose value is that number |
| Strings.AtoiItoa | handlers.go:16-22 | formatting a 64-bit integer and parsing it back yields the same integer |

## Left out

- Concurrency is out: goroutines, channels, `sync.WaitGroup`, the semaphore, mutexes and atomics. Only their sequential outcome is modelled. The collection order of batch results is an arbitrary permutation passed in.
- HTTP and Fiber I/O is out: handler bodies, routing, the Qdrant upload and search requests, the OpenRouter transport and JSON encoding and decoding. Their outcomes are parameters.
- Subprocesses and the file system are out: pdftoppm, tesseract and its fallbacks, temporary directories. The OCR engine is a function parameter.
- Foreign libraries are out: PDF rendering, go-fitz PDF extraction, and the ZIP readers behind DOCX and ODT extraction and type sniffing. ZIP entry names and extraction outcomes are inputs, and `extractDOCXText`, `extractODTText` and `extractPDFText` are not part of this model.
- Floating point is out. The 0.7/0.3 blend of vector and text scores in `filterByTextSimilarity` is an abstract integer key computed by the caller, and the text score itself is not modelled.
- The RTL and corruption ratio tests (`> 0.5`, `> 2.0`) are stated in exact integer arithmetic.
- The overlap fraction 0.2 in `createPagesWithOverlap` is written as an integer division by 5.
- The summary levels 2 and 3 for up to 20 pages use the integer forms `max(1, tp*7/30)` and `max(1, tp*11/30)`.
- Time, randomness and memory statistics are parameters: `time.Now`, `generateJobID` and `runtime.ReadMemStats`.
- Unicode classification is partly abstract. `unicode.IsLetter` and `IsLetter || IsDigit` are predicate parameters. `unicode.IsSpace` is written out for its code points.
- Strings.ToLower: only ASCII letters are lower-cased. The callers compare the result with ASCII suffixes only.
- Go's `len` and slicing count bytes, while the model counts characters. The two agree only on ASCII text. The service also handles non-ASCII text such as Romanian, Hebrew and Arabic, and there the model and the Go code can differ. Affected are the 2000 limit in `splitTextIntoPages` and `splitByLength`, the 100-character paragraph cut in `splitPagesIntoParagraphs`, the `len/5` overlap window in `createPagesWithOverlap`, the 9000/3000 windows of the summary sampler, the 20-character page filter and suffix gate in `qdrant.go`. Go's `text[a:b]` can also cut a multi-byte character in two, which the model cannot express.
- The regular-expression clean-up `cleanUnicodeText` and `extractPDFText` are not part of this model.
- Extract.SplitByLength: requires a limit of at least 1 for text longer than the limit. Below that the Go loop never ends or slices out of range. The only caller passes 2000.
- Summary.ChunkTextByPages: requires that a non-empty text has at least as many characters as there are pages. When `0 < len(text) < totalPages`, the chunk size becomes 0 and the Go loop never ends.
- Extract.RunsFromSpec: a kept UTF-16LE run is stated maximal at its end only. The printable-byte scan before it may already have consumed a printable unit just ahead of it (for bytes ` A 0 B 0 ...`), so the scanner itself does not make wide runs maximal at the start.
- Qdrant.PlaceEmbeddings: a returned embedding index is a natural number. A negative index would make the Go code panic.
- OcrGates.Gates.HandleExtractOCR: ocr.go:507 calls `getFileFromRequest` as if it returned three values, while file.go's version returns four. The model takes the parsed upload (file type or error) as an input.
- OcrGates.HalfOpenFailureMayNotReopen follows the code, not the circuit-breaker design. A failure while HalfOpen only increments the counter, and the breaker reopens only when the counter reaches 3. Probes in HalfOpen keep admitting requests.
- LLM prompt texts and the `estimatedChunks` and `%.3f` formatting are out.
- Handlers.PageSpansTile: the tiling property is proved for the corrected split (`Spans`) only. The operation members (`SplitPage`, `SplitPagesIntoParagraphs`, `PageParagraphs`) follow the code as written (`SpansAsWritten`), which can repeat text (see Findings).

## Findings

| source | as written | input that shows it | evidently intended | confidence | as-written member | corrected member |
|---|---|---|---|---|---|---|
| handlers.go:168-190 | after a paragraph is cut at its last space, `paragraphLength` is recomputed, but the next paragraph still starts at `i * paragraphLength` | a trimmed page of 60 'a', one space and 40 'b' (RepeatWitness), grade 2: the slots are 0..60 and 40..101, so the second paragraph repeats 20 characters of the first | each paragraph starts where the previous one ended (`nextStart`), so the paragraphs tile the page | not executed | Handlers.AsWrittenRepeatsText | Handlers.PageSpansTile |

The operation members model the split as written; `Handlers.Spans` and the lemmas about it are the corrected half. `Handlers.AsWrittenStoresRepeat` shows the repeated text in the stored paragraphs themselves.
