/**
 The parts of the HTTP handlers (handlers.go) that compute something: the
 validation of the "grade" and "level" form values, and the splitting of
 pages into at most `grade` paragraphs before they are stored.  Form values
 are strings, "" standing for a value that is absent; the handlers' I/O is
 left out.
 */
module Handlers {
  import opened Wrappers
  import opened Strings

  // ---------------------------------------------------------------------------
  // Form values
  // ---------------------------------------------------------------------------

  /** A form value with its default: the default replaces an absent or empty value. */
  function FormValue(value: string, default: string): (r: string)
    ensures r == (if value == "" then default else value)
  {
    if value == "" then default else value
  }

  /** The paragraph grade of handleExtractAndStore: the form value read as an
      integer when it is one between 2 and 10, and 1 otherwise. */
  function ParseGrade(grade: string): int {
    if grade != "1" then
      match Atoi(grade)
      case Some(g) => if 2 <= g <= 10 then g else 1
      case None => 1
    else 1
  }

  /** The grade is always between 1 and 10; a grade other than 1 is exactly a
      value that parses to an integer between 2 and 10; and every grade in
      2..10, written in decimal, is read back as itself. */
  lemma ParseGradeSpec(grade: string)
    ensures 1 <= ParseGrade(grade) <= 10
    ensures forall g :: 2 <= g <= 10 ==> (ParseGrade(grade) == g <==> Atoi(grade) == Some(g))
    ensures forall g :: 2 <= g <= 10 ==> ParseGrade(Itoa(g)) == g
  {
    forall g | 2 <= g <= 10 ensures ParseGrade(Itoa(g)) == g {
      AtoiItoa(g);
      assert Itoa(g) != "1" by { assert Atoi("1") == Some(1); }
    }
  }

  const LevelError: string := "Level must be a number between 1 and 10"

  /** The level of the level-summary handlers: an integer between 1 and 10, or
      the error they answer with. */
  function ParseLevel(levelStr: string): Result<int> {
    match Atoi(levelStr)
    case Some(level) => if 1 <= level <= 10 then Success(level) else Failure(LevelError)
    case None => Failure(LevelError)
  }

  /** A level is accepted exactly when it parses to an integer between 1 and
      10, the one error covers every other value, every level in range
      round-trips through its decimal form, and an absent level is level 1. */
  lemma ParseLevelSpec(levelStr: string)
    ensures ParseLevel(levelStr).Success? <==> Atoi(levelStr).Some? && 1 <= Atoi(levelStr).value <= 10
    ensures ParseLevel(levelStr).Success? ==> Atoi(levelStr) == Some(ParseLevel(levelStr).value)
    ensures ParseLevel(levelStr).Failure? ==> ParseLevel(levelStr).error == LevelError
    ensures forall level :: 1 <= level <= 10 ==> ParseLevel(Itoa(level)) == Success(level)
    ensures ParseLevel(FormValue("", "1")) == Success(1)
  {
    forall level | 1 <= level <= 10 ensures ParseLevel(Itoa(level)) == Success(level) {
      AtoiItoa(level);
    }
    assert Atoi("1") == Some(1);
  }

  // ---------------------------------------------------------------------------
  // Paragraphs
  // ---------------------------------------------------------------------------

  const MinParagraphLength: nat := 100
  /** A paragraph is cut at its last space only when that space lies within
      this many characters of the paragraph's nominal end. */
  const SpaceSlack: nat := 50

  predicate ValidGrade(grade: int) {
    2 <= grade <= 10
  }

  /** The length of each of `slots` paragraphs sharing `remaining` characters
      (Go's integer division; both are non-negative here). */
  function Share(remaining: nat, slots: nat): nat
    requires slots > 0
  {
    remaining / slots
  }

  /** The first paragraph length for a trimmed page of n characters. */
  function InitialLength(n: nat, grade: int): nat
    requires ValidGrade(grade)
  {
    if Share(n, grade) < MinParagraphLength then MinParagraphLength else Share(n, grade)
  }

  /** One paragraph slot of a page: its 1-based index, the slice
      clean[start..end] it takes, and where the rest of the text begins (at
      `end`, or just after the space the paragraph was cut at). */
  datatype Span = Span(index: nat, start: nat, end: nat, next: nat)

  /** The slot lies in the text, and `next` skips at most one character, a space. */
  predicate SpanOk(clean: string, s: Span) {
    s.start <= s.end <= s.next <= |clean| && s.next <= s.end + 1
    && (s.next == s.end + 1 ==> clean[s.end] == ' ')
  }

  /** Every slot lies in the text, and the slots are numbered from first + 1 on. */
  predicate SpansOk(clean: string, spans: seq<Span>, first: nat) {
    forall k :: 0 <= k < |spans| ==> SpanOk(clean, spans[k]) && spans[k].index == first + 1 + k
  }

  /** The last space of a text, if any, is a position of the text. */
  lemma LastSpace(text: string)
    ensures LastIndex(text, " ") == -1 || (0 <= LastIndex(text, " ") < |text| && text[LastIndex(text, " ")] == ' ')
  {
    LastIndexSpec(text, " ");
  }

  /** The inner loop's body for paragraph i starting at `start` with the current
      paragraph length: the slot it takes and the paragraph length after it.
      Every paragraph but the last that does not reach the end of the text is
      cut at its last space when that space is late enough, and the length of
      the remaining paragraphs is then recomputed from what is left. */
  function Cut(clean: string, grade: int, i: nat, start: nat, length: nat): (r: (Span, nat))
    requires ValidGrade(grade) && i < grade && start < |clean|
    ensures SpanOk(clean, r.0) && r.0.index == i + 1 && r.0.start == start
    ensures i == grade - 1 ==> r.0.next == |clean|
  {
    var n := |clean|;
    var end := if i == grade - 1 || start + length > n then n else start + length;
    var text := clean[start..end];
    if i < grade - 1 && end < n then
      var lastSpace := LastIndex(text, " ");
      LastSpace(text);
      if lastSpace > length - SpaceSlack && lastSpace != -1 then
        assert clean[start + lastSpace] == text[lastSpace] == ' ';
        var next := start + lastSpace + 1;
        (Span(i + 1, start, start + lastSpace, next), Share(n - next, grade - i - 1))
      else (Span(i + 1, start, end, end), length)
    else (Span(i + 1, start, end, end), length)
  }

  /** The slots of paragraphs i.. of a page, each starting where the one
      before it left off: the behaviour splitPagesIntoParagraphs evidently
      intends, used only to state what the code as written (SpansAsWritten)
      misses. */
  function Spans(clean: string, grade: int, i: nat, start: nat, length: nat): (r: seq<Span>)
    requires ValidGrade(grade)
    ensures SpansOk(clean, r, i)
    ensures |r| <= grade - i || r == []
    decreases grade - i
  {
    if i >= grade || start >= |clean| then []
    else
      var c := Cut(clean, grade, i, start, length);
      [c.0] + Spans(clean, grade, i + 1, c.0.next, c.1)
  }

  /** The slots as splitPagesIntoParagraphs computes them: paragraph i starts
      at i times the current paragraph length, also after a cut at a space has
      moved the true start of the rest of the text. */
  function SpansAsWritten(clean: string, grade: int, i: nat, length: nat): (r: seq<Span>)
    requires ValidGrade(grade)
    ensures SpansOk(clean, r, i)
    ensures |r| <= grade - i || r == []
    decreases grade - i
  {
    if i >= grade || i * length >= |clean| then []
    else
      var c := Cut(clean, grade, i, i * length, length);
      [c.0] + SpansAsWritten(clean, grade, i + 1, c.1)
  }

  /** A paragraph to store: the 1-based page, its index on the page and its text. */
  datatype Paragraph = Paragraph(page: nat, index: nat, body: string)

  /** The paragraphs of the slots: each slot's text trimmed, empty ones dropped. */
  function Paragraphs(clean: string, page: nat, spans: seq<Span>, first: nat): seq<Paragraph>
    requires SpansOk(clean, spans, first)
    decreases |spans|
  {
    if spans == [] then []
    else
      var body := TrimSpace(clean[spans[0].start..spans[0].end]);
      assert SpansOk(clean, spans[1..], first + 1) by {
        forall k | 0 <= k < |spans| - 1 ensures SpanOk(clean, spans[1..][k]) && spans[1..][k].index == first + 2 + k {
          assert spans[1..][k] == spans[k + 1];
        }
      }
      (if body == [] then [] else [Paragraph(page, spans[0].index, body)])
      + Paragraphs(clean, page, spans[1..], first + 1)
  }

  /** The paragraphs of page number `page` (1-based). */
  function PageParagraphs(pageText: string, page: nat, grade: int): seq<Paragraph>
    requires ValidGrade(grade)
  {
    var clean := TrimSpace(pageText);
    if clean == [] then []
    else Paragraphs(clean, page, SpansAsWritten(clean, grade, 0, InitialLength(|clean|, grade)), 0)
  }

  /** The paragraphs of all pages, page by page. */
  function AllParagraphs(pages: seq<string>, grade: int): seq<Paragraph>
    requires ValidGrade(grade)
    decreases |pages|
  {
    if pages == [] then []
    else AllParagraphs(pages[..|pages| - 1], grade) + PageParagraphs(pages[|pages| - 1], |pages|, grade)
  }

  /** The "[Page p, Paragraph i/grade]" line that heads a stored paragraph. */
  function Header(page: nat, index: nat, grade: int): string {
    "[Page " + Itoa(page) + ", Paragraph " + Itoa(index) + "/" + Itoa(grade) + "]\n"
  }

  /** A paragraph as it is stored: its header, then its text. */
  function Render(p: Paragraph, grade: int): string {
    Header(p.page, p.index, grade) + p.body
  }

  function Rendered(ps: seq<Paragraph>, grade: int): (r: seq<string>)
    ensures |r| == |ps|
    ensures forall k :: 0 <= k < |ps| ==> r[k] == Render(ps[k], grade)
  {
    seq(|ps|, k requires 0 <= k < |ps| => Render(ps[k], grade))
  }

  lemma RenderedAppend(a: seq<Paragraph>, b: seq<Paragraph>, grade: int)
    ensures Rendered(a + b, grade) == Rendered(a, grade) + Rendered(b, grade)
  {
  }

  /** The paragraphs of one non-blank trimmed page, from the first slot on. */
  lemma ParagraphsCons(clean: string, page: nat, s: Span, rest: seq<Span>, first: nat)
    requires SpansOk(clean, [s] + rest, first)
    ensures SpanOk(clean, s) && SpansOk(clean, rest, first + 1)
    ensures var body := TrimSpace(clean[s.start..s.end]);
            Paragraphs(clean, page, [s] + rest, first)
            == (if body == [] then [] else [Paragraph(page, s.index, body)]) + Paragraphs(clean, page, rest, first + 1)
  {
    assert ([s] + rest)[0] == s;
    assert ([s] + rest)[1..] == rest;
    forall k | 0 <= k < |rest| ensures SpanOk(clean, rest[k]) && rest[k].index == first + 2 + k {
      assert rest[k] == ([s] + rest)[k + 1];
    }
  }

  /** The stored string for a paragraph when its trimmed text is not empty. */
  function Emit(clean: string, page: nat, grade: int, s: Span): seq<string>
    requires SpanOk(clean, s)
  {
    var body := TrimSpace(clean[s.start..s.end]);
    if body == [] then [] else [Header(page, s.index, grade) + body]
  }

  /** The stored strings for paragraphs i.. of a page. */
  ghost function Stored(clean: string, page: nat, grade: int, i: nat, length: nat): seq<string>
    requires ValidGrade(grade)
  {
    Rendered(Paragraphs(clean, page, SpansAsWritten(clean, grade, i, length), i), grade)
  }

  /** The loop invariant of the inner loop: what is stored so far followed
      by what the remaining turns store is the page's whole result. */
  ghost predicate StoredSoFar(total: seq<string>, out: seq<string>, clean: string, page: nat, grade: int, i: nat, length: nat)
    requires ValidGrade(grade)
  {
    total == out + Stored(clean, page, grade, i, length)
  }

  /** Nothing is stored once the paragraph count is used up or paragraph i
      would start at or past the end of the text. */
  lemma StoredDone(clean: string, page: nat, grade: int, i: nat, length: nat)
    requires ValidGrade(grade) && (i >= grade || i * length >= |clean|)
    ensures Stored(clean, page, grade, i, length) == []
  {
    assert SpansAsWritten(clean, grade, i, length) == [];
  }

  /** One turn of the inner loop: the slot at i * length is emitted, if its
      text is not blank, before the paragraphs of the rest, which use the
      paragraph length the turn leaves. */
  lemma SplitStep(clean: string, page: nat, grade: int, i: nat, length: nat)
    requires ValidGrade(grade) && i < grade && i * length < |clean|
    ensures var c := Cut(clean, grade, i, i * length, length);
            Stored(clean, page, grade, i, length)
            == Emit(clean, page, grade, c.0) + Stored(clean, page, grade, i + 1, c.1)
  {
    var c := Cut(clean, grade, i, i * length, length);
    var rest := SpansAsWritten(clean, grade, i + 1, c.1);
    assert SpansAsWritten(clean, grade, i, length) == [c.0] + rest;
    ParagraphsCons(clean, page, c.0, rest, i);
    var body := TrimSpace(clean[c.0.start..c.0.end]);
    var head := if body == [] then [] else [Paragraph(page, c.0.index, body)];
    RenderedAppend(head, Paragraphs(clean, page, rest, i + 1), grade);
    assert Rendered(head, grade) == Emit(clean, page, grade, c.0);
  }

  /** The body of the inner loop of splitPagesIntoParagraphs for paragraph i
      of a page's trimmed text, from `start` up to the trimming: the
      paragraph's text and the new paragraph length.  `nextStart` only feeds
      the new length, as in handlers.go. */
  method CutParagraph(cleanText: string, grade: int, i: nat, start: nat, paragraphLength: nat)
    returns (paragraphText: string, length: nat)
    requires ValidGrade(grade) && i < grade && start < |cleanText|
    ensures var c := Cut(cleanText, grade, i, start, paragraphLength);
            c.1 == length && paragraphText == cleanText[c.0.start..c.0.end]
  {
    var textLength := |cleanText|;
    var end := start + paragraphLength;
    if i == grade - 1 {
      end := textLength;
    }
    if end > textLength {
      end := textLength;
    }
    paragraphText := cleanText[start..end];
    length := paragraphLength;
    ghost var next := end;
    if i < grade - 1 && end < textLength {
      var lastSpaceIndex := LastIndex(paragraphText, " ");
      LastSpace(paragraphText);
      if lastSpaceIndex > paragraphLength - SpaceSlack && lastSpaceIndex != -1 {
        SliceOfSlice(cleanText, start, end, 0, lastSpaceIndex);
        paragraphText := paragraphText[..lastSpaceIndex];
        var nextStart := start + lastSpaceIndex + 1;
        length := Share(textLength - nextStart, grade - i - 1);
        next := nextStart;
      }
    }
    assert Cut(cleanText, grade, i, start, paragraphLength) == (Span(i + 1, start, start + |paragraphText|, next), length);
  }

  /** The whole body of the inner loop: the stored string (if any) and the
      new paragraph length. */
  method SplitOne(cleanText: string, pageNum: nat, grade: int, i: nat, start: nat, paragraphLength: nat)
    returns (emitted: seq<string>, length: nat)
    requires ValidGrade(grade) && i < grade && start < |cleanText|
    ensures var c := Cut(cleanText, grade, i, start, paragraphLength);
            emitted == Emit(cleanText, pageNum, grade, c.0) && length == c.1
  {
    var paragraphText;
    paragraphText, length := CutParagraph(cleanText, grade, i, start, paragraphLength);
    paragraphText := TrimSpace(paragraphText);
    emitted := [];
    if |paragraphText| > 0 {
      emitted := [Header(pageNum, i + 1, grade) + paragraphText];
    }
  }

  /** One turn of the inner loop, started at i * paragraphLength as
      handlers.go does, with what it appends: what is left to store after the
      turn is what was left before it, less what the turn stored. */
  method SplitTurn(cleanText: string, pageNum: nat, grade: int, i: nat, paragraphLength: nat,
                   out: seq<string>, ghost total: seq<string>)
    returns (out': seq<string>, length: nat)
    requires ValidGrade(grade) && i < grade && i * paragraphLength < |cleanText|
    requires StoredSoFar(total, out, cleanText, pageNum, grade, i, paragraphLength)
    ensures StoredSoFar(total, out', cleanText, pageNum, grade, i + 1, length)
  {
    var start := i * paragraphLength;
    ghost var after := Stored(cleanText, pageNum, grade, i + 1, Cut(cleanText, grade, i, start, paragraphLength).1);
    SplitStep(cleanText, pageNum, grade, i, paragraphLength);
    var emitted;
    emitted, length := SplitOne(cleanText, pageNum, grade, i, start, paragraphLength);
    out' := out + emitted;
    AppendAssoc(out, emitted, after);
  }

  /** The inner loop of splitPagesIntoParagraphs for one page's trimmed text:
      paragraph i starts at i * paragraphLength, and the loop stops at the
      first paragraph that would start at or past the end of the text. */
  method SplitPage(cleanText: string, pageNum: nat, grade: int) returns (out: seq<string>)
    requires ValidGrade(grade) && cleanText != []
    ensures out == Rendered(Paragraphs(cleanText, pageNum, SpansAsWritten(cleanText, grade, 0, InitialLength(|cleanText|, grade)), 0), grade)
  {
    var textLength := |cleanText|;
    var paragraphLength: nat := Share(textLength, grade);
    if paragraphLength < MinParagraphLength {
      paragraphLength := MinParagraphLength;
    }
    ghost var total := Stored(cleanText, pageNum, grade, 0, paragraphLength);
    var i: nat := 0;
    out := [];
    while i < grade
      invariant 0 <= i <= grade
      invariant StoredSoFar(total, out, cleanText, pageNum, grade, i, paragraphLength)
      decreases grade - i
    {
      var start := i * paragraphLength;
      if start >= textLength {
        break;
      }
      out, paragraphLength := SplitTurn(cleanText, pageNum, grade, i, paragraphLength, out, total);
      i := i + 1;
    }
    StoredDone(cleanText, pageNum, grade, i, paragraphLength);
  }

  /** splitPagesIntoParagraphs: a grade outside 2..10 leaves the pages as they
      are; otherwise every page that is not blank is split into its
      paragraphs, each stored under its "[Page p, Paragraph i/grade]" header. */
  method SplitPagesIntoParagraphs(pages: seq<string>, grade: int) returns (paragraphs: seq<string>)
    ensures !ValidGrade(grade) ==> paragraphs == pages
    ensures ValidGrade(grade) ==> paragraphs == Rendered(AllParagraphs(pages, grade), grade)
  {
    if grade < 2 || grade > 10 {
      return pages;
    }
    paragraphs := [];
    for pageNum := 0 to |pages|
      invariant paragraphs == Rendered(AllParagraphs(pages[..pageNum], grade), grade)
    {
      assert pages[..pageNum + 1][..pageNum] == pages[..pageNum];
      RenderedAppend(AllParagraphs(pages[..pageNum], grade), PageParagraphs(pages[pageNum], pageNum + 1, grade), grade);
      var cleanText := TrimSpace(pages[pageNum]);
      if |cleanText| == 0 {
        continue;
      }
      var page := SplitPage(cleanText, pageNum + 1, grade);
      paragraphs := paragraphs + page;
    }
    assert pages[..|pages|] == pages;
  }

  // ---------------------------------------------------------------------------
  // Properties of the paragraphs
  // ---------------------------------------------------------------------------

  /** The slots cover the text from `start` on without a gap or an overlap: the
      first begins at `start`, each other one where the one before it left
      off, and the last leaves off at the end of the text. */
  predicate Tiles(clean: string, spans: seq<Span>, start: nat) {
    && spans != [] && spans[0].start == start
    && (forall k :: 0 <= k < |spans| - 1 ==> spans[k + 1].start == spans[k].next)
    && spans[|spans| - 1].next == |clean|
  }

  /** The corrected slots (Spans) of a page tile its text. */
  lemma {:induction false} SpansTile(clean: string, grade: int, i: nat, start: nat, length: nat)
    requires ValidGrade(grade) && i < grade && start < |clean|
    ensures Tiles(clean, Spans(clean, grade, i, start, length), start)
    decreases grade - i
  {
    var c := Cut(clean, grade, i, start, length);
    var rest := Spans(clean, grade, i + 1, c.0.next, c.1);
    var all := Spans(clean, grade, i, start, length);
    assert all == [c.0] + rest;
    if i + 1 < grade && c.0.next < |clean| {
      SpansTile(clean, grade, i + 1, c.0.next, c.1);
      TilesCons(clean, c.0, rest, start);
    } else {
      assert rest == [];
      assert all == [c.0] && c.0.next == |clean|;
    }
  }

  /** A slot at `start` followed by slots tiling the rest from where it
      leaves off tiles the text from `start`. */
  lemma TilesCons(clean: string, s: Span, rest: seq<Span>, start: nat)
    requires s.start == start && Tiles(clean, rest, s.next)
    ensures Tiles(clean, [s] + rest, start)
  {
    var all := [s] + rest;
    assert all[1] == rest[0] && all[|all| - 1] == rest[|rest| - 1];
    forall k | 0 <= k < |all| - 1 ensures all[k + 1].start == all[k].next {
      if k > 0 {
        assert all[k] == rest[k - 1] && all[k + 1] == rest[k];
      }
    }
  }

  /** Position j lies in one of the slots, or is the space one was cut at. */
  predicate Covered(spans: seq<Span>, j: int) {
    exists k :: 0 <= k < |spans| && spans[k].start <= j < spans[k].next
  }

  /** Tiling slots lose no character: every position from `start` on lies in
      a slot or is the space a slot was cut at. */
  lemma {:induction false} TilesCover(clean: string, spans: seq<Span>, start: nat, first: nat)
    requires SpansOk(clean, spans, first) && Tiles(clean, spans, start)
    ensures forall j :: start <= j < |clean| ==> Covered(spans, j)
    decreases |spans|
  {
    if |spans| > 1 {
      var rest := spans[1..];
      assert SpansOk(clean, rest, first + 1) by {
        forall k | 0 <= k < |rest| ensures SpanOk(clean, rest[k]) && rest[k].index == first + 2 + k {
          assert rest[k] == spans[k + 1];
        }
      }
      assert Tiles(clean, rest, spans[0].next) by {
        forall k | 0 <= k < |rest| - 1 ensures rest[k + 1].start == rest[k].next {
          assert rest[k] == spans[k + 1] && rest[k + 1] == spans[k + 2];
        }
      }
      TilesCover(clean, rest, spans[0].next, first + 1);
      forall j | start <= j < |clean| ensures Covered(spans, j) {
        if j >= spans[0].next {
          assert Covered(rest, j);
          var k :| 0 <= k < |rest| && rest[k].start <= j < rest[k].next;
          assert spans[k + 1] == rest[k];
        } else {
          assert spans[0].start <= j < spans[0].next;
        }
      }
    } else {
      forall j | start <= j < |clean| ensures Covered(spans, j) {
        assert spans[0].start <= j < spans[0].next;
      }
    }
  }

  /** With each paragraph started where the one before it left off (Spans),
      no text of a page is lost or repeated: the slots of a non-blank page
      tile its trimmed text from its first character to its last, so each of
      its characters lies in exactly one paragraph's slice or is a space one
      was cut at.  The code as written does not have this property
      (AsWrittenRepeatsText). */
  lemma PageSpansTile(pageText: string, grade: int)
    requires ValidGrade(grade) && !Blank(pageText)
    ensures var clean := TrimSpace(pageText);
            var spans := Spans(clean, grade, 0, 0, InitialLength(|clean|, grade));
            && Tiles(clean, spans, 0)
            && forall j :: 0 <= j < |clean| ==> Covered(spans, j)
  {
    var clean := TrimSpace(pageText);
    TrimSpaceSpec(pageText);
    SpansTile(clean, grade, 0, 0, InitialLength(|clean|, grade));
    TilesCover(clean, Spans(clean, grade, 0, 0, InitialLength(|clean|, grade)), 0, 0);
  }

  /** The text that makes the written code repeat part of a page: 60 letters,
      a space, 40 letters. */
  function RepeatWitness(): string {
    seq(60, _ => 'a') + " " + seq(40, _ => 'b')
  }

  /** The last space of the first 100 characters of RepeatWitness() is at 60. */
  lemma WitnessLastSpace()
    ensures |RepeatWitness()| == 101 && LastIndex(RepeatWitness()[0..100], " ") == 60
  {
    var text := RepeatWitness()[0..100];
    assert text[60] == ' ';
    assert At(text, " ", 60);
    assert forall j :: 60 < j < 100 ==> text[j] == 'b';
    LastSpace(text);
    LastIndexSpec(text, " ");
  }

  /** As written, splitPagesIntoParagraphs starts the second paragraph of
      RepeatWitness() at position 40, not 61: the first paragraph is cut at
      the space (slot 0..60) and the paragraph length recomputed to 40 (61
      characters, "b" * 40 after the space, are left for one paragraph), and
      the second starts at 1 * 40.  Its slot 40..101 overlaps the first, so
      the stored paragraphs repeat the twenty letters at 40..59, and the
      slots do not tile the text. */
  lemma AsWrittenRepeatsText()
    ensures var clean := RepeatWitness();
            var spans := SpansAsWritten(clean, 2, 0, InitialLength(|clean|, 2));
            && TrimSpace(clean) == clean
            && spans == [Span(1, 0, 60, 61), Span(2, 40, 101, 101)]
            && !Tiles(clean, spans, 0)
            && spans[1].start < spans[0].end
  {
    var clean := RepeatWitness();
    WitnessLastSpace();
    assert InitialLength(101, 2) == 100;
    assert Cut(clean, 2, 0, 0, 100) == (Span(1, 0, 60, 61), 40);
    assert Cut(clean, 2, 1, 40, 40) == (Span(2, 40, 101, 101), 40);
    assert SpansAsWritten(clean, 2, 2, 40) == [];
    assert clean[0] == 'a' && clean[100] == 'b';
    TrimSpaceOfTrimmed(clean);
  }

  /** What the code as written stores for RepeatWitness() at grade 2: the
      sixty 'a's, then a second paragraph that starts with twenty of them
      again. */
  lemma AsWrittenStoresRepeat()
    ensures var ps := PageParagraphs(RepeatWitness(), 1, 2);
            && ps == [Paragraph(1, 1, seq(60, _ => 'a')),
                      Paragraph(1, 2, seq(20, _ => 'a') + " " + seq(40, _ => 'b'))]
            && ps[1].body[..20] == ps[0].body[40..]
  {
    var clean := RepeatWitness();
    AsWrittenRepeatsText();
    var spans := [Span(1, 0, 60, 61), Span(2, 40, 101, 101)];
    var first := clean[0..60];
    var second := clean[40..101];
    assert first == seq(60, _ => 'a');
    assert second == seq(20, _ => 'a') + " " + seq(40, _ => 'b');
    TrimSpaceOfTrimmed(first);
    TrimSpaceOfTrimmed(second);
    ParagraphsCons(clean, 1, spans[0], spans[1..], 0);
    ParagraphsCons(clean, 1, spans[1], [], 1);
    assert [spans[0]] + spans[1..] == spans;
    assert [spans[1]] + [] == spans[1..];
    assert Paragraphs(clean, 1, [], 2) == [];
  }

  /** With the second paragraph started where the first left off, the same
      text is split at the space into slots 0..60 and 61..101, which tile it. */
  lemma CorrectedSplitsWitness()
    ensures var clean := RepeatWitness();
            var spans := Spans(clean, 2, 0, 0, InitialLength(|clean|, 2));
            spans == [Span(1, 0, 60, 61), Span(2, 61, 101, 101)] && Tiles(clean, spans, 0)
  {
    var clean := RepeatWitness();
    WitnessLastSpace();
    assert InitialLength(101, 2) == 100;
    assert Cut(clean, 2, 0, 0, 100) == (Span(1, 0, 60, 61), 40);
    assert Cut(clean, 2, 1, 61, 40) == (Span(2, 61, 101, 101), 40);
    assert Spans(clean, 2, 2, 101, 40) == [];
  }

  /** A stored paragraph of a trimmed page: not empty, trimmed, and a
      contiguous piece of the page's trimmed text. */
  ghost predicate PieceOf(clean: string, body: string) {
    body != [] && Trimmed(body) && exists j :: At(clean, body, j)
  }

  /** The trimmed text of a slot is a piece of the page unless it is empty. */
  lemma SlotPiece(clean: string, s: Span)
    requires SpanOk(clean, s) && TrimSpace(clean[s.start..s.end]) != []
    ensures PieceOf(clean, TrimSpace(clean[s.start..s.end]))
  {
    var t := clean[s.start..s.end];
    var body := TrimSpace(t);
    TrimSpaceSpec(t);
    var a := TrimSpaceSlice(t);
    SliceOfSlice(clean, s.start, s.end, a, a + |body|);
    assert At(clean, body, s.start + a);
  }

  /** The paragraphs of slots numbered first+1..first+|spans|: all of the page,
      numbered within that range in strictly increasing order, no more of them
      than slots, and each a piece of the page. */
  lemma {:induction false} ParagraphsSpec(clean: string, page: nat, spans: seq<Span>, first: nat)
    requires SpansOk(clean, spans, first)
    ensures var ps := Paragraphs(clean, page, spans, first);
            && |ps| <= |spans|
            && (forall k :: 0 <= k < |ps| ==> ps[k].page == page && first + 1 <= ps[k].index <= first + |spans|)
            && (forall k :: 0 <= k < |ps| ==> PieceOf(clean, ps[k].body))
            && (forall j, k :: 0 <= j < k < |ps| ==> ps[j].index < ps[k].index)
    decreases |spans|
  {
    if spans != [] {
      ParagraphsCons(clean, page, spans[0], spans[1..], first);
      assert [spans[0]] + spans[1..] == spans;
      ParagraphsSpec(clean, page, spans[1..], first + 1);
      var body := TrimSpace(clean[spans[0].start..spans[0].end]);
      if body != [] {
        SlotPiece(clean, spans[0]);
      }
    }
  }

  /** The paragraphs of one page: none for a blank page; otherwise at most
      `grade` of them, each on this page, numbered from 1 to `grade` in
      strictly increasing order, and each a non-empty trimmed piece of the
      page's trimmed text. */
  lemma PageParagraphsSpec(pageText: string, page: nat, grade: int)
    requires ValidGrade(grade)
    ensures var ps := PageParagraphs(pageText, page, grade);
            && (Blank(pageText) ==> ps == [])
            && |ps| <= grade
            && (forall k :: 0 <= k < |ps| ==> ps[k].page == page && 1 <= ps[k].index <= grade)
            && (forall k :: 0 <= k < |ps| ==> PieceOf(TrimSpace(pageText), ps[k].body))
            && (forall j, k :: 0 <= j < k < |ps| ==> ps[j].index < ps[k].index)
  {
    TrimSpaceSpec(pageText);
    var clean := TrimSpace(pageText);
    if clean != [] {
      var spans := SpansAsWritten(clean, grade, 0, InitialLength(|clean|, grade));
      ParagraphsSpec(clean, page, spans, 0);
    }
  }

  /** A page whose trimmed text has at most 100 characters is stored whole, as
      its paragraph 1: the minimum paragraph length keeps it from being cut. */
  lemma ShortPageWhole(pageText: string, page: nat, grade: int)
    requires ValidGrade(grade) && 0 < |TrimSpace(pageText)| <= MinParagraphLength
    ensures PageParagraphs(pageText, page, grade) == [Paragraph(page, 1, TrimSpace(pageText))]
  {
    var clean := TrimSpace(pageText);
    var n := |clean|;
    assert InitialLength(n, grade) == MinParagraphLength;
    var c := Cut(clean, grade, 0, 0, MinParagraphLength);
    assert c.0 == Span(1, 0, n, n);
    assert 1 * c.1 >= n;
    assert SpansAsWritten(clean, grade, 1, c.1) == [];
    var spans := SpansAsWritten(clean, grade, 0, MinParagraphLength);
    assert spans == [Span(1, 0, n, n)];
    assert clean[0..n] == clean;
    TrimSpaceIdempotent(pageText);
    assert Paragraphs(clean, page, [], 1) == [];
  }

  /** Paragraph p belongs to a page of `pages` that is not blank and is a
      piece of that page's trimmed text. */
  ghost predicate FromPage(pages: seq<string>, p: Paragraph) {
    1 <= p.page <= |pages| && !Blank(pages[p.page - 1]) && PieceOf(TrimSpace(pages[p.page - 1]), p.body)
  }

  lemma FromPageExtend(pages: seq<string>, p: Paragraph)
    requires pages != [] && FromPage(pages[..|pages| - 1], p)
    ensures FromPage(pages, p)
  {
    assert pages[p.page - 1] == pages[..|pages| - 1][p.page - 1];
  }

  /** All stored paragraphs: each belongs to a page that is not blank and is a
      piece of that page's trimmed text, numbered between 1 and the grade. */
  lemma {:induction false} AllParagraphsFromPages(pages: seq<string>, grade: int)
    requires ValidGrade(grade)
    ensures forall p :: p in AllParagraphs(pages, grade) ==> FromPage(pages, p) && 1 <= p.index <= grade
    decreases |pages|
  {
    if pages != [] {
      var front := pages[..|pages| - 1];
      AllParagraphsFromPages(front, grade);
      var last := pages[|pages| - 1];
      PageParagraphsSpec(last, |pages|, grade);
      var a := AllParagraphs(front, grade);
      var b := PageParagraphs(last, |pages|, grade);
      assert AllParagraphs(pages, grade) == a + b;
      forall p | p in a ensures FromPage(pages, p) {
        FromPageExtend(pages, p);
      }
      if b != [] {
        assert !Blank(last);
      }
    }
  }

  /** In page order and, on one page, in paragraph order. */
  predicate InReadingOrder(ps: seq<Paragraph>) {
    forall j, k :: 0 <= j < k < |ps| ==>
      ps[j].page < ps[k].page || (ps[j].page == ps[k].page && ps[j].index < ps[k].index)
  }

  /** The stored paragraphs come in page order and, on one page, in paragraph
      order. */
  lemma {:induction false} AllParagraphsOrdered(pages: seq<string>, grade: int)
    requires ValidGrade(grade)
    ensures InReadingOrder(AllParagraphs(pages, grade))
    decreases |pages|
  {
    if pages != [] {
      var front := pages[..|pages| - 1];
      AllParagraphsOrdered(front, grade);
      AllParagraphsFromPages(front, grade);
      PageParagraphsSpec(pages[|pages| - 1], |pages|, grade);
      var a := AllParagraphs(front, grade);
      var b := PageParagraphs(pages[|pages| - 1], |pages|, grade);
      var ps := AllParagraphs(pages, grade);
      assert ps == a + b;
      forall j, k | 0 <= j < k < |ps|
        ensures ps[j].page < ps[k].page || (ps[j].page == ps[k].page && ps[j].index < ps[k].index)
      {
        if j < |a| && k >= |a| {
          assert a[j] in a && ps[j] == a[j] && ps[k] == b[k - |a|];
        } else if k < |a| {
          assert ps[j] == a[j] && ps[k] == a[k];
        } else {
          assert ps[j] == b[j - |a|] && ps[k] == b[k - |a|];
        }
      }
    }
  }
}
