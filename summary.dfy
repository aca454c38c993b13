/**
 The summarisation pipeline of summary.go: how many pages go into one chunk at
 each level of detail, how the text is cut into chunks at sentence ends, how
 the per-chunk summaries are collected in chunk order, and how the model's
 chapter list is cleaned and completed.  The language model is a function
 passed in.
 */
module Summary {
  import opened Wrappers
  import opened Strings

  // ---------------------------------------------------------------------------
  // calculateSummaryLevels
  // ---------------------------------------------------------------------------

  /** SummaryLevel without its human-readable description. */
  datatype SummaryLevel = SummaryLevel(level: int, pagesPerChunk: int)

  function Max(a: int, b: int): int {
    if a >= b then a else b
  }

  /** makeLevel's pages per chunk for a level in 1..4.  Up to 20 pages the
      level 2 and 3 factors are 7/30 and 11/30 of the page count. */
  function PagesPerChunk(totalPages: int, level: int): (ppc: int)
    requires 1 <= level <= 4
    ensures totalPages >= 1 ==> 1 <= ppc <= totalPages
    ensures ppc <= totalPages
    ensures totalPages > 100 ==> ppc >= 3
  {
    var ppc :=
      if totalPages <= 20 then
        if level == 1 then Max(1, totalPages / 2)
        else if level == 4 then Max(1, totalPages / 4)
        else if level == 2 then Max(1, totalPages * 7 / 30)
        else Max(1, totalPages * 11 / 30)
      else if totalPages <= 100 then
        if level == 1 then Max(3, totalPages / 3)
        else if level == 4 then Max(3, totalPages / 8)
        else Max(2, totalPages / (3 + (level - 1)))
      else
        if level == 1 then Max(5, totalPages / 5)
        else if level == 2 then Max(4, totalPages / 8)
        else if level == 3 then Max(3, totalPages / 12)
        else Max(3, totalPages / 15);
    if ppc > totalPages then totalPages else ppc
  }

  /** calculateSummaryLevels: the requested level is clamped to 1..4. */
  function CalculateSummaryLevels(totalPages: int, desiredLevel: int): (r: SummaryLevel)
    ensures 1 <= r.level <= 4
    ensures 1 <= desiredLevel <= 4 ==> r.level == desiredLevel
    ensures desiredLevel <= 0 ==> r.level == 1
    ensures desiredLevel > 4 ==> r.level == 4
    ensures totalPages >= 1 ==> 1 <= r.pagesPerChunk <= totalPages
    ensures r.pagesPerChunk == PagesPerChunk(totalPages, r.level)
  {
    var level := if desiredLevel <= 0 then 1 else if desiredLevel > 4 then 4 else desiredLevel;
    SummaryLevel(level, PagesPerChunk(totalPages, level))
  }

  // ---------------------------------------------------------------------------
  // chunkTextByPages
  // ---------------------------------------------------------------------------

  predicate IsSentenceEnd(c: char) {
    c == '.' || c == '?' || c == '!'
  }

  lemma AtSingle(s: string, c: char, i: int)
    ensures At(s, [c], i) <==> 0 <= i < |s| && s[i] == c
  {
    if 0 <= i < |s| {
      assert s[i..i + 1] == [s[i]];
    }
  }

  /** The last position of a '.', '?' or '!' in `w`, or -1. */
  function LastSentenceEnd(w: string): int
    decreases |w|
  {
    if w == [] then -1
    else if IsSentenceEnd(w[|w| - 1]) then |w| - 1
    else LastSentenceEnd(w[..|w| - 1])
  }

  /** LastSentenceEnd is the position of the last sentence end, or -1 when there is none. */
  lemma {:induction false} LastSentenceEndSpec(w: string)
    ensures -1 <= LastSentenceEnd(w) < |w|
    ensures LastSentenceEnd(w) >= 0 ==> IsSentenceEnd(w[LastSentenceEnd(w)])
    ensures forall j :: LastSentenceEnd(w) < j < |w| ==> !IsSentenceEnd(w[j])
    decreases |w|
  {
    if w != [] && !IsSentenceEnd(w[|w| - 1]) {
      var v := w[..|w| - 1];
      LastSentenceEndSpec(v);
      forall j | LastSentenceEnd(w) < j < |w| - 1 ensures !IsSentenceEnd(w[j]) {
        assert w[j] == v[j];
      }
    }
  }

  /** summary.go computes the same position as the largest of the last
      positions of ".", "?" and "!" (three strings.LastIndex calls). */
  lemma LastSentenceEndIsMax(w: string)
    ensures LastSentenceEnd(w) == Max(LastIndex(w, "."), Max(LastIndex(w, "?"), LastIndex(w, "!")))
  {
    var dot := LastIndex(w, ".");
    var question := LastIndex(w, "?");
    var exclamation := LastIndex(w, "!");
    LastIndexSpec(w, ".");
    LastIndexSpec(w, "?");
    LastIndexSpec(w, "!");
    assert forall j :: 0 <= j < |w| ==> (At(w, ".", j) <==> w[j] == '.') by {
      forall j | 0 <= j < |w| { AtSingle(w, '.', j); }
    }
    assert forall j :: 0 <= j < |w| ==> (At(w, "?", j) <==> w[j] == '?') by {
      forall j | 0 <= j < |w| { AtSingle(w, '?', j); }
    }
    assert forall j :: 0 <= j < |w| ==> (At(w, "!", j) <==> w[j] == '!') by {
      forall j | 0 <= j < |w| { AtSingle(w, '!', j); }
    }
    AtSingle(w, '.', dot);
    AtSingle(w, '?', question);
    AtSingle(w, '!', exclamation);
    var m := Max(dot, Max(question, exclamation));
    assert -1 <= m < |w|;
    assert m >= 0 ==> IsSentenceEnd(w[m]);
    assert forall j :: m < j < |w| ==> !IsSentenceEnd(w[j]);
    LastSentenceEndSpec(w);
  }

  /** Where the sentence search starts in a chunk of length n: the last 500
      characters, but never before the chunk's middle. */
  function SearchStart(n: nat): (ss: nat)
    ensures n / 2 <= ss <= n
  {
    if n - 500 < n / 2 then n / 2 else n - 500
  }

  /** A non-final chunk cut just after the last sentence end of its search
      window, when that end lies past the window's first character; otherwise
      the chunk is kept whole (see CutAtSentenceSpec). */
  function CutAtSentence(w: string): string {
    var ss := SearchStart(|w|);
    var lse := LastSentenceEnd(w[ss..]);
    LastSentenceEndSpec(w[ss..]);
    if lse > 0 then w[..ss + lse + 1] else w
  }

  /** The cut piece is a prefix of its window.  When a sentence end lies in
      the search window past its first character, the piece ends with the
      last such sentence end (and is longer than the part before the search
      window); otherwise it is the whole window. */
  lemma CutAtSentenceSpec(w: string)
    ensures |CutAtSentence(w)| <= |w| && CutAtSentence(w) == w[..|CutAtSentence(w)|]
    ensures (exists j :: SearchStart(|w|) < j < |w| && IsSentenceEnd(w[j])) ==>
              && |CutAtSentence(w)| > SearchStart(|w|) + 1
              && IsSentenceEnd(CutAtSentence(w)[|CutAtSentence(w)| - 1])
              && forall j :: |CutAtSentence(w)| <= j < |w| ==> !IsSentenceEnd(w[j])
    ensures !(exists j :: SearchStart(|w|) < j < |w| && IsSentenceEnd(w[j])) ==> CutAtSentence(w) == w
  {
    var ss := SearchStart(|w|);
    var lse := LastSentenceEnd(w[ss..]);
    LastSentenceEndSpec(w[ss..]);
    if lse > 0 {
      assert IsSentenceEnd(w[ss + lse]);
      assert forall j :: ss + lse < j < |w| ==> !IsSentenceEnd(w[j]) by {
        forall j | ss + lse < j < |w| ensures !IsSentenceEnd(w[j]) { assert w[j] == w[ss..][j - ss]; }
      }
    } else {
      assert forall j :: ss < j < |w| ==> !IsSentenceEnd(w[j]) by {
        forall j | ss < j < |w| ensures !IsSentenceEnd(w[j]) { assert w[j] == w[ss..][j - ss]; }
      }
    }
  }

  /** The chunk length: the average characters per page times the pages per chunk. */
  function ChunkSize(text: string, totalPages: int, pagesPerChunk: int): int
    requires totalPages > 0
  {
    (|text| / totalPages) * pagesPerChunk
  }

  /** A non-final piece: the window of `size` characters at `start`, cut at
      its last sentence end, with text left after the window. */
  predicate IsCutPiece(text: string, size: nat, piece: string, start: nat) {
    start + size < |text| && piece == CutAtSentence(text[start..start + size])
  }

  /** The piece the chunking loop takes at position i, and where the next
      piece starts: a cut window while text is left after the window,
      otherwise the rest of the text. */
  function PieceAt(text: string, size: nat, i: nat): (string, nat)
    requires i < |text| && size >= 1
  {
    if i + size < |text| then
      var cut := CutAtSentence(text[i..i + size]);
      CutAtSentenceSpec(text[i..i + size]);
      (cut, i + |cut|)
    else
      (text[i..], |text|)
  }

  /** The piece at i is a non-empty slice of at most `size` characters that
      starts at i and ends where the next piece starts. */
  lemma PieceAtSpec(text: string, size: nat, i: nat)
    requires i < |text| && size >= 1
    ensures 1 <= |PieceAt(text, size, i).0| <= size
    ensures PieceAt(text, size, i).1 == i + |PieceAt(text, size, i).0| <= |text|
    ensures PieceAt(text, size, i).0 == text[i..PieceAt(text, size, i).1]
    ensures i + size < |text| ==> IsCutPiece(text, size, PieceAt(text, size, i).0, i)
    ensures i + size >= |text| ==> PieceAt(text, size, i).1 == |text|
  {
    if i + size < |text| {
      var w := text[i..i + size];
      CutAtSentenceSpec(w);
      var cut := CutAtSentence(w);
      assert cut == w[..|cut|];
    }
  }

  /** The pieces the chunking loop takes from position i on. */
  function Pieces(text: string, size: nat, i: nat): seq<string>
    requires i <= |text| && size >= 1
    decreases |text| - i
  {
    if i == |text| then []
    else
      PieceAtSpec(text, size, i);
      [PieceAt(text, size, i).0] + Pieces(text, size, PieceAt(text, size, i).1)
  }

  /** Where those pieces start. */
  function PieceStarts(text: string, size: nat, i: nat): (starts: seq<nat>)
    requires i <= |text| && size >= 1
    ensures |starts| == |Pieces(text, size, i)|
    decreases |text| - i
  {
    if i == |text| then []
    else
      PieceAtSpec(text, size, i);
      [i] + PieceStarts(text, size, PieceAt(text, size, i).1)
  }

  /** `raw` are consecutive non-empty slices of `text`, the first starting at
      `from`, the k-th at starts[k], the last ending at the end of the text. */
  ghost predicate Tiling(text: string, raw: seq<string>, starts: seq<nat>, from: nat)
    decreases |raw|
  {
    && |raw| == |starts|
    && from <= |text|
    && if raw == [] then from == |text|
       else
         && starts[0] == from
         && from < from + |raw[0]| <= |text|
         && raw[0] == text[from..from + |raw[0]|]
         && Tiling(text, raw[1..], starts[1..], from + |raw[0]|)
  }

  /** In a tiling the k-th piece is the slice at starts[k], the next piece
      starts where it ends, and the last one ends at the end of the text. */
  lemma {:induction false} TilingSlices(text: string, raw: seq<string>, starts: seq<nat>, from: nat)
    requires Tiling(text, raw, starts, from)
    ensures forall k :: 0 <= k < |raw| ==> starts[k] + |raw[k]| <= |text| &&
                                             raw[k] == text[starts[k]..starts[k] + |raw[k]|]
    ensures forall k :: 0 <= k < |raw| - 1 ==> starts[k + 1] == starts[k] + |raw[k]|
    ensures raw != [] ==> starts[0] == from && starts[|raw| - 1] + |raw[|raw| - 1]| == |text|
    decreases |raw|
  {
    if raw != [] {
      TilingSlices(text, raw[1..], starts[1..], from + |raw[0]|);
      forall k | 1 <= k < |raw|
        ensures starts[k] + |raw[k]| <= |text| && raw[k] == text[starts[k]..starts[k] + |raw[k]|]
      {
        assert raw[k] == raw[1..][k - 1] && starts[k] == starts[1..][k - 1];
      }
      forall k | 0 <= k < |raw| - 1 ensures starts[k + 1] == starts[k] + |raw[k]| {
        assert starts[k + 1] == starts[1..][k];
        if k > 0 {
          assert raw[k] == raw[1..][k - 1] && starts[k] == starts[1..][k - 1];
        }
      }
    }
  }

  /** The pieces from i on tile the rest of the text. */
  lemma {:induction false} PiecesTile(text: string, size: nat, i: nat)
    requires i <= |text| && size >= 1
    ensures Tiling(text, Pieces(text, size, i), PieceStarts(text, size, i), i)
    decreases |text| - i
  {
    if i < |text| {
      PieceAtSpec(text, size, i);
      var (piece, next) := PieceAt(text, size, i);
      PiecesTile(text, size, next);
      var raw := Pieces(text, size, i);
      var starts := PieceStarts(text, size, i);
      assert raw == [piece] + Pieces(text, size, next);
      assert starts == [i] + PieceStarts(text, size, next);
      assert raw[1..] == Pieces(text, size, next);
      assert starts[1..] == PieceStarts(text, size, next);
    }
  }

  /** The pieces from i on spell out the rest of the text. */
  lemma {:induction false} PiecesConcat(text: string, size: nat, i: nat)
    requires i <= |text| && size >= 1
    ensures Concat(Pieces(text, size, i)) == text[i..]
    decreases |text| - i
  {
    if i < |text| {
      PieceAtSpec(text, size, i);
      var (piece, next) := PieceAt(text, size, i);
      PiecesConcat(text, size, next);
      var raw := Pieces(text, size, i);
      assert raw == [piece] + Pieces(text, size, next);
      assert raw[1..] == Pieces(text, size, next);
      assert text[i..] == piece + text[next..];
    }
  }

  /** Each piece from i on is 1 to `size` characters long, and each but the
      last is a cut piece. */
  lemma {:induction false} PiecesCut(text: string, size: nat, i: nat)
    requires i <= |text| && size >= 1
    ensures forall k :: 0 <= k < |Pieces(text, size, i)| ==> 1 <= |Pieces(text, size, i)[k]| <= size
    ensures forall k :: 0 <= k < |Pieces(text, size, i)| - 1 ==>
              IsCutPiece(text, size, Pieces(text, size, i)[k], PieceStarts(text, size, i)[k])
    decreases |text| - i
  {
    if i < |text| {
      PieceAtSpec(text, size, i);
      var (piece, next) := PieceAt(text, size, i);
      PiecesCut(text, size, next);
      var rest := Pieces(text, size, next);
      var restStarts := PieceStarts(text, size, next);
      var raw := [piece] + rest;
      var starts := [i] + restStarts;
      assert Pieces(text, size, i) == raw;
      assert PieceStarts(text, size, i) == starts;
      forall k | 1 <= k < |raw| ensures 1 <= |raw[k]| <= size {
        assert raw[k] == rest[k - 1];
      }
      forall k | 0 <= k < |raw| - 1 ensures IsCutPiece(text, size, raw[k], starts[k]) {
        if k == 0 {
          assert rest != [];
          assert next < |text|;
        } else {
          assert raw[k] == rest[k - 1] && starts[k] == restStarts[k - 1];
        }
      }
    }
  }

  /** One round of the chunking loop at position i: the piece taken and the
      value i has when the round ends (the rounds end once it passes the
      text's end). */
  method NextPiece(text: string, i: nat, chunkSize: nat) returns (chunk: string, next: int)
    requires i < |text| && chunkSize >= 1
    ensures i < next
    ensures (chunk, if next < |text| then next else |text|) == PieceAt(text, chunkSize, i)
  {
    var end := i + chunkSize;
    if end > |text| {
      end := |text|;
    }
    PieceAtSpec(text, chunkSize, i);
    chunk := text[i..end];
    next := i;
    if end < |text| {
      // the cut at actualEnd, and i += actualEnd - chunkSize (no change when not cut)
      var window := chunk;
      assert window == text[i..i + chunkSize];
      chunk := CutAtSentence(window);
      assert chunk == PieceAt(text, chunkSize, i).0;
      next := next + |chunk| - chunkSize;
    } else {
      assert chunk == text[i..];
    }
    next := next + chunkSize;
  }

  /** One turn of the loop of chunkTextByPages: the piece at `pos` is the
      next one of the text's pieces. */
  lemma PiecesStep(text: string, size: nat, pos: nat, raw: seq<string>, starts: seq<nat>, chunk: string, after: nat)
    requires pos < |text| && size >= 1
    requires (chunk, after) == PieceAt(text, size, pos)
    requires raw + Pieces(text, size, pos) == Pieces(text, size, 0)
    requires starts + PieceStarts(text, size, pos) == PieceStarts(text, size, 0)
    ensures after <= |text|
    ensures (raw + [chunk]) + Pieces(text, size, after) == Pieces(text, size, 0)
    ensures (starts + [pos]) + PieceStarts(text, size, after) == PieceStarts(text, size, 0)
  {
    PieceAtSpec(text, size, pos);
    assert Pieces(text, size, pos) == [chunk] + Pieces(text, size, after);
    assert PieceStarts(text, size, pos) == [pos] + PieceStarts(text, size, after);
    AppendAssoc(raw, [chunk], Pieces(text, size, after));
    AppendAssoc(starts, [pos], PieceStarts(text, size, after));
  }

  /** Each part trimmed. */
  function Trims(parts: seq<string>): (r: seq<string>)
    ensures |r| == |parts| && forall k :: 0 <= k < |parts| ==> r[k] == TrimSpace(parts[k])
  {
    seq(|parts|, k requires 0 <= k < |parts| => TrimSpace(parts[k]))
  }

  /** The chunks chunkTextByPages returns: the whole text for bad parameters
      or a chunk size that covers the text, otherwise the pieces of the loop,
      each trimmed. */
  function ChunkText(text: string, totalPages: int, pagesPerChunk: int): seq<string>
    requires !(0 < |text| < totalPages)
  {
    if totalPages <= 0 || pagesPerChunk <= 0 || ChunkSize(text, totalPages, pagesPerChunk) >= |text| then [text]
    else Trims(Pieces(text, ChunkSize(text, totalPages, pagesPerChunk), 0))
  }

  /** The loop of chunkTextByPages for a chunk size shorter than the text:
      the pieces, each trimmed. */
  method CutPieces(text: string, chunkSize: nat) returns (chunks: seq<string>)
    requires 1 <= chunkSize < |text|
    ensures chunks == Trims(Pieces(text, chunkSize, 0))
  {
    chunks := [];
    ghost var raw: seq<string> := [];
    ghost var starts: seq<nat> := [];
    var i: int := 0;
    ghost var pos: nat := 0;
    while i < |text|
      invariant 0 <= i && pos == if i < |text| then i else |text|
      invariant raw + Pieces(text, chunkSize, pos) == Pieces(text, chunkSize, 0)
      invariant starts + PieceStarts(text, chunkSize, pos) == PieceStarts(text, chunkSize, 0)
      invariant |chunks| == |raw| && forall k :: 0 <= k < |raw| ==> chunks[k] == TrimSpace(raw[k])
      decreases |text| - i
    {
      var chunk, next := NextPiece(text, i, chunkSize);
      ghost var after := if next < |text| then next else |text|;
      PiecesStep(text, chunkSize, pos, raw, starts, chunk, after);
      raw := raw + [chunk];
      starts := starts + [i];
      chunks := chunks + [TrimSpace(chunk)];
      pos := after;
      i := next;
    }
    assert raw == Pieces(text, chunkSize, 0);
  }

  /** The text is cut into chunks: one chunk for bad parameters or a short
      text; otherwise the pieces of the loop (see PiecesTile, PiecesConcat and
      PiecesCut), each trimmed.  A text shorter than totalPages (but not
      empty) makes the Go loop forever and is excluded. */
  method ChunkTextByPages(text: string, totalPages: int, pagesPerChunk: int) returns (chunks: seq<string>)
    requires !(0 < |text| < totalPages)
    ensures chunks == ChunkText(text, totalPages, pagesPerChunk)
    ensures |chunks| >= 1
    ensures totalPages <= 0 || pagesPerChunk <= 0 ==> chunks == [text]
    ensures totalPages > 0 && pagesPerChunk > 0 && ChunkSize(text, totalPages, pagesPerChunk) >= |text| ==>
              chunks == [text]
    ensures totalPages > 0 && pagesPerChunk > 0 && ChunkSize(text, totalPages, pagesPerChunk) < |text| ==>
              && ChunkSize(text, totalPages, pagesPerChunk) >= 1
              && chunks == Trims(Pieces(text, ChunkSize(text, totalPages, pagesPerChunk), 0))
  {
    if totalPages <= 0 || pagesPerChunk <= 0 {
      return [text];
    }
    var chunkSize := (|text| / totalPages) * pagesPerChunk;
    if chunkSize >= |text| {
      return [text];
    }
    chunks := CutPieces(text, chunkSize);
    PiecesTile(text, chunkSize, 0);
  }

  // ---------------------------------------------------------------------------
  // generateLevelSummary: per-chunk summaries collected in chunk order
  // ---------------------------------------------------------------------------

  /** callOpenRouter on the prompt for (chunk, index, total): the model's answer or an error. */
  type ChunkModel = (string, nat, nat) -> Result<string>

  /** generateChunkSummary: a missing API key or a failed call is an error
      naming the 1-based chunk; an answer is returned trimmed. */
  function GenerateChunkSummary(model: ChunkModel, apiKey: string, chunk: string, index: nat, total: nat)
    : (r: Result<string>)
    ensures r.Success? ==> apiKey != "" && model(chunk, index, total).Success? && TrimSpace(r.value) == r.value
    ensures apiKey == "" ==> r == Failure("OPENROUTER_API_KEY environment variable not set")
    ensures apiKey != "" && model(chunk, index, total).Success? ==>
              r == Success(TrimSpace(model(chunk, index, total).value))
    ensures apiKey != "" && model(chunk, index, total).Failure? ==>
              r == Failure("failed to generate summary for chunk " + Itoa(index + 1) + ": " +
                           model(chunk, index, total).error)
  {
    if apiKey == "" then Failure("OPENROUTER_API_KEY environment variable not set")
    else
      match model(chunk, index, total)
      case Failure(e) => Failure("failed to generate summary for chunk " + Itoa(index + 1) + ": " + e)
      case Success(summary) =>
        TrimSpaceIdempotent(summary);
        Success(TrimSpace(summary))
  }

  /** The position of the first failed outcome, or -1. */
  function FirstFailure(results: seq<Result<string>>): (i: int)
    ensures -1 <= i < |results|
    ensures i == -1 ==> forall j :: 0 <= j < |results| ==> results[j].Success?
    ensures i >= 0 ==> results[i].Failure? && forall j :: 0 <= j < i ==> results[j].Success?
    decreases |results|
  {
    if results == [] then -1
    else if results[0].Failure? then 0
    else
      var rest := FirstFailure(results[1..]);
      if rest == -1 then -1 else rest + 1
  }

  function Values(results: seq<Result<string>>): (vs: seq<string>)
    requires forall j :: 0 <= j < |results| ==> results[j].Success?
    ensures |vs| == |results| && forall j :: 0 <= j < |results| ==> vs[j] == results[j].value
  {
    seq(|results|, j requires 0 <= j < |results| => results[j].value)
  }

  /** What generateLevelSummary makes of the chunk outcomes: the lowest-index
      error if any chunk failed; otherwise a single summary as it is, or all
      summaries joined by a blank line in chunk order. */
  function LevelSummary(results: seq<Result<string>>): (r: Result<string>)
    ensures r.Failure? <==> exists j :: 0 <= j < |results| && results[j].Failure?
    ensures r.Failure? ==> exists j :: 0 <= j < |results| && results[j].Failure? && r.error == results[j].error &&
                                       forall j' :: 0 <= j' < j ==> results[j'].Success?
    ensures r.Success? && |results| == 1 ==> r.value == results[0].value
    ensures r.Success? && |results| != 1 ==> r.value == Join(Values(results), "\n\n")
  {
    var i := FirstFailure(results);
    if i >= 0 then Failure(results[i].error)
    else if |results| == 1 then Success(results[0].value)
    else Success(Join(Values(results), "\n\n"))
  }

  /** The outcome of summarising each chunk. */
  function ChunkOutcomes(model: ChunkModel, apiKey: string, chunks: seq<string>): (rs: seq<Result<string>>)
    ensures |rs| == |chunks|
    ensures forall i :: 0 <= i < |chunks| ==> rs[i] == GenerateChunkSummary(model, apiKey, chunks[i], i, |chunks|)
  {
    seq(|chunks|, i requires 0 <= i < |chunks| => GenerateChunkSummary(model, apiKey, chunks[i], i, |chunks|))
  }

  /** One chunk's worker. */
  method SummarizeChunk(model: ChunkModel, apiKey: string, chunks: seq<string>, index: nat) returns (outcome: Result<string>)
    requires index < |chunks|
    ensures outcome == ChunkOutcomes(model, apiKey, chunks)[index]
  {
    outcome := GenerateChunkSummary(model, apiKey, chunks[index], index, |chunks|);
  }

  /** A worker's slot after it ran: the error when the call failed, otherwise
      the summary with no error. */
  predicate Stored(outcome: Result<string>, summary: string, error: Option<string>) {
    match outcome
    case Failure(e) => error == Some(e)
    case Success(v) => error.None? && summary == v
  }

  /** The fan-out of generateLevelSummary: each chunk's worker stores its
      summary or its error at the chunk's own index. */
  method SummarizeChunks(model: ChunkModel, apiKey: string, chunks: seq<string>)
    returns (summaries: array<string>, errors: array<Option<string>>)
    ensures fresh(summaries) && fresh(errors)
    ensures summaries.Length == errors.Length == |chunks|
    ensures forall j :: 0 <= j < |chunks| ==> Stored(ChunkOutcomes(model, apiKey, chunks)[j], summaries[j], errors[j])
  {
    ghost var outcomes := ChunkOutcomes(model, apiKey, chunks);
    var n := |chunks|;
    summaries := new string[n];
    errors := new Option<string>[n](_ => None);
    var index := 0;
    while index < n
      invariant 0 <= index <= n
      invariant forall j :: 0 <= j < index ==> Stored(outcomes[j], summaries[j], errors[j])
      invariant forall j :: index <= j < n ==> errors[j].None?
    {
      var outcome := SummarizeChunk(model, apiKey, chunks, index);
      if outcome.Failure? {
        errors[index] := Some(outcome.error);
      } else {
        summaries[index] := outcome.value;
      }
      index := index + 1;
    }
  }

  /** The error scan of generateLevelSummary: the lowest index holding an error, or -1. */
  method FirstError(errors: array<Option<string>>) returns (i: int)
    ensures -1 <= i < errors.Length
    ensures i == -1 ==> forall j :: 0 <= j < errors.Length ==> errors[j].None?
    ensures i >= 0 ==> errors[i].Some? && forall j :: 0 <= j < i ==> errors[j].None?
  {
    i := 0;
    while i < errors.Length
      invariant 0 <= i <= errors.Length
      invariant forall j :: 0 <= j < i ==> errors[j].None?
    {
      if errors[i].Some? {
        return i;
      }
      i := i + 1;
    }
    return -1;
  }

  /** The fan-in of generateLevelSummary: the first error in chunk order, or
      the summaries in chunk order. */
  method CollectLevelSummaries(model: ChunkModel, apiKey: string, chunks: seq<string>) returns (r: Result<string>)
    ensures r == LevelSummary(ChunkOutcomes(model, apiKey, chunks))
  {
    ghost var outcomes := ChunkOutcomes(model, apiKey, chunks);
    var summaries, errors := SummarizeChunks(model, apiKey, chunks);
    var i := FirstError(errors);
    if i >= 0 {
      assert FirstFailure(outcomes) == i;
      return Failure(errors[i].value);
    }
    assert FirstFailure(outcomes) == -1;
    assert summaries[..] == Values(outcomes);
    if |chunks| == 1 {
      return Success(summaries[0]);
    }
    return Success(Join(summaries[..], "\n\n"));
  }

  /** generateLevelSummary: chunk the text for the level, then collect. */
  method GenerateLevelSummary(model: ChunkModel, apiKey: string, text: string, totalPages: int, level: SummaryLevel)
    returns (r: Result<string>)
    requires !(0 < |text| < totalPages)
    ensures r == LevelSummary(ChunkOutcomes(model, apiKey, ChunkText(text, totalPages, level.pagesPerChunk)))
  {
    var chunks := ChunkTextByPages(text, totalPages, level.pagesPerChunk);
    r := CollectLevelSummaries(model, apiKey, chunks);
  }

  // ---------------------------------------------------------------------------
  // generateChapterSummaries: locating the JSON and completing the chapters
  // ---------------------------------------------------------------------------

  /** ChapterInfo. */
  datatype ChapterInfo = ChapterInfo(number: int, title: string, pages: string, summary: string)

  /** The cutset "` \n\r\t" of the strings.Trim call in summary.go. */
  const FenceChars: set<char> := {'`', ' ', '\n', '\r', '\t'}

  /** The model's answer with its code fences removed and without surrounding
      backticks and white space (summary.go:380-384). */
  function CleanChapterResponse(resp: string): (raw: string)
    ensures Trimmed(raw)
  {
    var noFence := ReplaceAll(ReplaceAll(TrimSpace(resp), "```json", ""), "```", "");
    TrimSpaceTrimmed(Trim(noFence, FenceChars));
    TrimSpace(Trim(noFence, FenceChars))
  }

  /** The first position of character `c`, or -1 (strings.Index with a one-character pattern). */
  function IndexOfChar(s: string, c: char): (r: int)
    ensures -1 <= r < |s|
    ensures r >= 0 ==> s[r] == c
    ensures forall k :: 0 <= k < |s| && (r == -1 || k < r) ==> s[k] != c
  {
    var r := Index(s, [c]);
    IndexSpec(s, [c]);
    AtSingle(s, c, r);
    assert forall i :: 0 <= i < |s| ==> (At(s, [c], i) <==> s[i] == c) by {
      forall i | 0 <= i < |s| { AtSingle(s, c, i); }
    }
    r
  }

  /** The last position of character `c`, or -1 (strings.LastIndex with a one-character pattern). */
  function LastIndexOfChar(s: string, c: char): (r: int)
    ensures -1 <= r < |s|
    ensures r >= 0 ==> s[r] == c
    ensures forall k :: r < k < |s| ==> s[k] != c
  {
    var r := LastIndex(s, [c]);
    LastIndexSpec(s, [c]);
    AtSingle(s, c, r);
    assert forall i :: 0 <= i < |s| ==> (At(s, [c], i) <==> s[i] == c) by {
      forall i | 0 <= i < |s| { AtSingle(s, c, i); }
    }
    r
  }

  /** `s` has an `open` character somewhere before a `close` character: the
      test summary.go makes with Index and LastIndex. */
  predicate Bracketed(s: string, open: char, close: char)
    ensures Bracketed(s, open, close) <==> exists i, j :: 0 <= i < j < |s| && s[i] == open && s[j] == close
  {
    var f := IndexOfChar(s, open);
    var l := LastIndexOfChar(s, close);
    f != -1 && l != -1 && l > f
  }

  /** The longest span from an `open` to a `close` character. */
  function OuterSpan(s: string, open: char, close: char): (span: string)
    requires Bracketed(s, open, close)
    ensures |span| >= 2 && span[0] == open && span[|span| - 1] == close
    ensures var f := IndexOfChar(s, open);
            && 0 <= f && f + |span| <= |s| && span == s[f..f + |span|]
            && (forall k :: 0 <= k < f ==> s[k] != open)
            && (forall k :: f + |span| <= k < |s| ==> s[k] != close)
  {
    var f := IndexOfChar(s, open);
    var l := LastIndexOfChar(s, close);
    var span := s[f..l + 1];
    assert span == s[f..f + |span|];
    span
  }

  /** The part of the cleaned answer handed to the JSON decoder: the outermost
      array; failing that, the outermost object wrapped as an array; failing
      that, all of it (summary.go:386-403). */
  function ChapterJSONPart(raw: string): (part: string)
    ensures Bracketed(raw, '[', ']') ==> part == OuterSpan(raw, '[', ']')
    ensures !Bracketed(raw, '[', ']') && Bracketed(raw, '{', '}') ==> part == "[" + OuterSpan(raw, '{', '}') + "]"
    ensures !Bracketed(raw, '[', ']') && !Bracketed(raw, '{', '}') ==> part == raw
  {
    var firstArray := IndexOfChar(raw, '[');
    var lastArray := LastIndexOfChar(raw, ']');
    if firstArray != -1 && lastArray != -1 && lastArray > firstArray then
      raw[firstArray..lastArray + 1]
    else
      var firstObj := IndexOfChar(raw, '{');
      var lastObj := LastIndexOfChar(raw, '}');
      if firstObj != -1 && lastObj != -1 && lastObj > firstObj then
        "[" + raw[firstObj..lastObj + 1] + "]"
      else
        raw
  }

  /** A chapter number 0 (absent) becomes the 1-based position. */
  function ChapterNumber(number: int, i: nat): (n: int)
    ensures n != 0
    ensures number != 0 ==> n == number
  {
    if number == 0 then i + 1 else number
  }

  /** A blank title becomes "Capitolul N". */
  function ChapterTitle(title: string, number: int): string {
    if AllSpace(title) then "Capitolul " + Itoa(number) else title
  }

  /** Blank pages become "n/a". */
  function ChapterPages(pages: string): string {
    if AllSpace(pages) then "n/a" else pages
  }

  /** The defaults the chapter loop fills in for the chapter at position i
      (each test in summary.go is `strings.TrimSpace(x) == ""`, see
      Strings.AllSpaceIsBlank). */
  function NormalizeChapter(c: ChapterInfo, i: nat): ChapterInfo {
    var number := ChapterNumber(c.number, i);
    ChapterInfo(number, ChapterTitle(c.title, number), ChapterPages(c.pages), c.summary)
  }

  /** Number 0 becomes i + 1, a blank title "Capitolul N" with the chapter's
      number, blank pages "n/a", and everything else is kept; afterwards the
      chapter has a number, a title and pages. */
  lemma NormalizeChapterSpec(c: ChapterInfo, i: nat)
    ensures var d := NormalizeChapter(c, i);
            && d.number == (if c.number == 0 then i + 1 else c.number)
            && d.title == (if Blank(c.title) then "Capitolul " + Itoa(d.number) else c.title)
            && d.pages == (if Blank(c.pages) then "n/a" else c.pages)
            && d.summary == c.summary
            && d.number != 0 && !Blank(d.title) && !Blank(d.pages)
  {
    AllSpaceIsBlank(c.title);
    AllSpaceIsBlank(c.pages);
    var d := NormalizeChapter(c, i);
    if Blank(c.title) {
      assert !IsSpace(d.title[0]);
    }
    if Blank(c.pages) {
      assert !IsSpace(d.pages[0]);
    }
  }

  /** Normalizing twice changes nothing more. */
  lemma NormalizeChapterIdempotent(c: ChapterInfo, i: nat)
    ensures NormalizeChapter(NormalizeChapter(c, i), i) == NormalizeChapter(c, i)
  {
    NormalizeChapterSpec(c, i);
    var d := NormalizeChapter(c, i);
    AllSpaceIsBlank(d.title);
    AllSpaceIsBlank(d.pages);
  }

  /** The chapter loop of generateChapterSummaries, in place. */
  method NormalizeChapters(chapters: array<ChapterInfo>)
    modifies chapters
    ensures forall j :: 0 <= j < chapters.Length ==> chapters[j] == NormalizeChapter(old(chapters[j]), j)
  {
    ghost var before := chapters[..];
    var i := 0;
    while i < chapters.Length
      invariant 0 <= i <= chapters.Length
      invariant forall j :: 0 <= j < i ==> chapters[j] == NormalizeChapter(before[j], j)
      invariant forall j :: i <= j < chapters.Length ==> chapters[j] == before[j]
    {
      chapters[i] := NormalizeChapter(chapters[i], i);
      i := i + 1;
    }
  }

  // ---------------------------------------------------------------------------
  // generateGeneralSummary: the sample sent for a long text
  // ---------------------------------------------------------------------------

  const SampleLimit: nat := 9000
  const SamplePart: nat := 3000
  const MiddleMarker: string := "\n\n[...mijloc document...]\n\n"
  const EndMarker: string := "\n\n[...sfârșit document...]\n\n"

  /** Up to 9000 characters the whole text; beyond that its first 3000, the
      3000 around its middle and its last 3000, between two fixed markers. */
  function SampleText(text: string): (r: string)
    ensures |text| <= SampleLimit ==> r == text
    ensures |text| > SampleLimit ==>
              && |r| == 3 * SamplePart + |MiddleMarker| + |EndMarker|
              && r[..SamplePart] == text[..SamplePart]
              && r[SamplePart..SamplePart + |MiddleMarker|] == MiddleMarker
              && r[SamplePart + |MiddleMarker|..2 * SamplePart + |MiddleMarker|]
                 == text[|text| / 2 - SamplePart / 2..|text| / 2 + SamplePart / 2]
              && r[2 * SamplePart + |MiddleMarker|..2 * SamplePart + |MiddleMarker| + |EndMarker|] == EndMarker
              && r[|r| - SamplePart..] == text[|text| - SamplePart..]
  {
    if |text| <= SampleLimit then text
    else
      var n := |text|;
      var start := text[..3000];
      var middle := text[n / 2 - 1500..n / 2 + 1500];
      var end := text[n - 3000..];
      start + MiddleMarker + middle + EndMarker + end
  }
}
