/**
 Text extraction helpers (extract.go): the right-to-left and corruption
 heuristics, the RTL word repair, the line clean-up, the tag stripper for the
 XML inside DOCX/ODT archives, the splitting of a document's text into pages
 and the run scanner for legacy .doc files.  Characters stand for the runes
 extract.go ranges over; `unicode.IsLetter` (and, for the corruption check,
 `IsLetter || IsDigit`) is a predicate passed in.
 */
module Extract {
  import opened Wrappers
  import opened Strings

  // ---------------------------------------------------------------------------
  // isRTLCharacter, isRTLText, isCorruptedText
  // ---------------------------------------------------------------------------

  /** Hebrew (U+0590-05FF) and the Arabic blocks U+0600-06FF, U+0750-077F and U+08A0-08FF. */
  predicate IsRTLCharacter(c: char) {
    ('\U{0590}' <= c <= '\U{05FF}') || ('\U{0600}' <= c <= '\U{06FF}') || ('\U{0750}' <= c <= '\U{077F}')
    || ('\U{08A0}' <= c <= '\U{08FF}')
  }

  /** The number of letters in `s`. */
  function Letters(s: string, isLetter: char -> bool): nat
    decreases |s|
  {
    if s == [] then 0 else Letters(s[..|s| - 1], isLetter) + (if isLetter(s[|s| - 1]) then 1 else 0)
  }

  /** The number of right-to-left letters in `s`. */
  function RtlLetters(s: string, isLetter: char -> bool): nat
    decreases |s|
  {
    if s == [] then 0
    else RtlLetters(s[..|s| - 1], isLetter) + (if isLetter(s[|s| - 1]) && IsRTLCharacter(s[|s| - 1]) then 1 else 0)
  }

  /** The number of white-space characters in `s`. */
  function Spaces(s: string): nat
    decreases |s|
  {
    if s == [] then 0 else Spaces(s[..|s| - 1]) + (if IsSpace(s[|s| - 1]) then 1 else 0)
  }

  /** The number of letters and digits in `s` that are not white space. */
  function Alnums(s: string, isAlnum: char -> bool): nat
    decreases |s|
  {
    if s == [] then 0
    else Alnums(s[..|s| - 1], isAlnum) + (if !IsSpace(s[|s| - 1]) && isAlnum(s[|s| - 1]) then 1 else 0)
  }

  /** More than half of the letters are right-to-left (the ratio test
      `rtl/total > 0.5` in exact arithmetic). */
  predicate RtlText(text: string, isLetter: char -> bool) {
    Letters(text, isLetter) > 0 && 2 * RtlLetters(text, isLetter) > Letters(text, isLetter)
  }

  /** More than two white-space characters per letter or digit (the ratio test
      `spaces/nonSpace > 2.0` in exact arithmetic). */
  predicate CorruptedText(text: string, isAlnum: char -> bool) {
    text != [] && Alnums(text, isAlnum) > 0 && Spaces(text) > 2 * Alnums(text, isAlnum)
  }

  /** isRTLText: one counting pass over the runes. */
  method IsRTLText(text: string, isLetter: char -> bool) returns (b: bool)
    ensures b == RtlText(text, isLetter)
  {
    var rtlCount := 0;
    var totalLetters := 0;
    for i := 0 to |text|
      invariant totalLetters == Letters(text[..i], isLetter)
      invariant rtlCount == RtlLetters(text[..i], isLetter)
    {
      assert text[..i + 1][..i] == text[..i];
      var r := text[i];
      if isLetter(r) {
        totalLetters := totalLetters + 1;
        if IsRTLCharacter(r) {
          rtlCount := rtlCount + 1;
        }
      }
    }
    assert text[..|text|] == text;
    b := totalLetters > 0 && 2 * rtlCount > totalLetters;
  }

  /** isCorruptedText: one counting pass over the runes. */
  method IsCorruptedText(text: string, isAlnum: char -> bool) returns (b: bool)
    ensures b == CorruptedText(text, isAlnum)
  {
    if text == "" {
      return false;
    }
    var spaceCount := 0;
    var nonSpaceCount := 0;
    for i := 0 to |text|
      invariant spaceCount == Spaces(text[..i])
      invariant nonSpaceCount == Alnums(text[..i], isAlnum)
    {
      assert text[..i + 1][..i] == text[..i];
      var r := text[i];
      if IsSpace(r) {
        spaceCount := spaceCount + 1;
      } else if isAlnum(r) {
        nonSpaceCount := nonSpaceCount + 1;
      }
    }
    assert text[..|text|] == text;
    b := nonSpaceCount > 0 && spaceCount > 2 * nonSpaceCount;
  }

  /** The right-to-left letters are among the letters. */
  lemma {:induction false} RtlLettersBound(s: string, isLetter: char -> bool)
    ensures RtlLetters(s, isLetter) <= Letters(s, isLetter)
    decreases |s|
  {
    if s != [] {
      RtlLettersBound(s[..|s| - 1], isLetter);
    }
  }

  /** A right-to-left count above zero is witnessed by a right-to-left letter. */
  lemma {:induction false} RtlLetterWitness(s: string, isLetter: char -> bool) returns (i: nat)
    requires RtlLetters(s, isLetter) > 0
    ensures i < |s| && isLetter(s[i]) && IsRTLCharacter(s[i])
    decreases |s|
  {
    var p := s[..|s| - 1];
    if RtlLetters(p, isLetter) > 0 {
      i := RtlLetterWitness(p, isLetter);
      assert s[i] == p[i];
    } else {
      i := |s| - 1;
    }
  }

  /** A text without right-to-left letters is never taken for RTL text, and
      RTL text holds at least one right-to-left letter. */
  lemma RtlTextSpec(text: string, isLetter: char -> bool)
    ensures RtlText(text, isLetter) ==> exists i :: 0 <= i < |text| && isLetter(text[i]) && IsRTLCharacter(text[i])
    ensures RtlText(text, isLetter) ==> RtlLetters(text, isLetter) <= Letters(text, isLetter)
  {
    RtlLettersBound(text, isLetter);
    if RtlText(text, isLetter) {
      var i := RtlLetterWitness(text, isLetter);
    }
  }

  /** White-space and letter counts never exceed the length together. */
  lemma {:induction false} CountsBound(s: string, isAlnum: char -> bool)
    ensures Spaces(s) + Alnums(s, isAlnum) <= |s|
    decreases |s|
  {
    if s != [] {
      CountsBound(s[..|s| - 1], isAlnum);
    }
  }

  /** A positive white-space count is witnessed by a white-space character. */
  lemma {:induction false} SpaceWitness(s: string) returns (i: nat)
    requires Spaces(s) > 0
    ensures i < |s| && IsSpace(s[i])
    decreases |s|
  {
    var p := s[..|s| - 1];
    if Spaces(p) > 0 {
      i := SpaceWitness(p);
      assert s[i] == p[i];
    } else {
      i := |s| - 1;
    }
  }

  /** Corrupted text holds white space, and more than two thirds of its
      spaces, letters and digits are white space. */
  lemma CorruptedTextSpec(text: string, isAlnum: char -> bool)
    ensures CorruptedText(text, isAlnum) ==> exists i :: 0 <= i < |text| && IsSpace(text[i])
    ensures CorruptedText(text, isAlnum) ==> 3 * Spaces(text) > 2 * (Spaces(text) + Alnums(text, isAlnum))
  {
    CountsBound(text, isAlnum);
    if CorruptedText(text, isAlnum) {
      var i := SpaceWitness(text);
    }
  }

  // ---------------------------------------------------------------------------
  // fixRTLSpacing
  // ---------------------------------------------------------------------------

  /** A word of one right-to-left character: a piece of a word the extraction split. */
  predicate SingleRtl(w: string) {
    |w| == 1 && IsRTLCharacter(w[0])
  }

  /** The loop state of fixRTLSpacing: the words fixed so far and the single
      RTL characters gathered since. */
  datatype Gather = Gather(fixed: seq<string>, cur: string)

  /** The words a non-gathered word releases: the gathered characters, if
      any, then the word itself unless it is blank. */
  function Release(cur: string, word: string): seq<string> {
    (if cur != "" then [cur] else []) + (if !AllSpace(word) then [word] else [])
  }

  /** One word of fixRTLSpacing's loop. */
  function GatherStep(g: Gather, word: string): Gather {
    if SingleRtl(word) then Gather(g.fixed, g.cur + word)
    else Gather(g.fixed + Release(g.cur, word), "")
  }

  /** The loop state after `words`. */
  function GatherAll(words: seq<string>): Gather
    decreases |words|
  {
    if words == [] then Gather([], "") else GatherStep(GatherAll(words[..|words| - 1]), words[|words| - 1])
  }

  /** The words fixRTLSpacing joins: the fixed words and the last gathered run. */
  function MergeRtl(words: seq<string>): seq<string> {
    var g := GatherAll(words);
    g.fixed + (if g.cur != "" then [g.cur] else [])
  }

  /** fixRTLSpacing: the fields of the text with each run of single RTL
      characters glued into one word, joined with single spaces; a text
      without fields is returned as it is. */
  method FixRTLSpacing(text: string) returns (r: string)
    ensures Fields(text) == [] ==> r == text
    ensures Fields(text) != [] ==> r == Join(MergeRtl(Fields(text)), " ")
  {
    var words := Fields(text);
    if |words| == 0 {
      return text;
    }
    var fixedWords: seq<string> := [];
    var currentWord := "";
    for i := 0 to |words|
      invariant Gather(fixedWords, currentWord) == GatherAll(words[..i])
    {
      assert words[..i + 1][..i] == words[..i];
      var word := words[i];
      if |word| == 1 && IsRTLCharacter(word[0]) {
        currentWord := currentWord + word;
      } else {
        ghost var released := Release(currentWord, word);
        ghost var before := fixedWords;
        if |currentWord| > 0 {
          fixedWords := fixedWords + [currentWord];
          currentWord := "";
        }
        if !AllSpace(word) {
          fixedWords := fixedWords + [word];
        }
        assert fixedWords == before + released;
      }
    }
    assert words[..|words|] == words;
    assert GatherAll(words) == Gather(fixedWords, currentWord);
    if |currentWord| > 0 {
      fixedWords := fixedWords + [currentWord];
    }
    assert fixedWords == MergeRtl(words);
    r := Join(fixedWords, " ");
  }

  /** One word of the loop keeps the spelling: what was fixed and gathered,
      followed by the word. */
  lemma GatherStepSpells(g: Gather, w: string)
    requires IsWord(w)
    ensures Concat(GatherStep(g, w).fixed) + GatherStep(g, w).cur == Concat(g.fixed) + g.cur + w
  {
    if !SingleRtl(w) {
      AllSpaceIsBlank(w);
      var rel := Release(g.cur, w);
      ConcatAppend(g.fixed, rel);
      if g.cur != "" {
        assert rel == [g.cur, w];
        assert rel[1..] == [w];
        assert Concat(rel[1..]) == w + Concat(rel[1..][1..]);
        assert Concat(rel) == g.cur + w;
      } else {
        assert rel == [w];
        assert Concat(rel) == w;
      }
    }
  }

  /** The fixed words and the gathered run spell the words read so far. */
  lemma {:induction false} GatherSpells(words: seq<string>)
    requires forall k :: 0 <= k < |words| ==> IsWord(words[k])
    ensures Concat(GatherAll(words).fixed) + GatherAll(words).cur == Concat(words)
    decreases |words|
  {
    if words != [] {
      var front := words[..|words| - 1];
      var w := words[|words| - 1];
      GatherSpells(front);
      GatherStepSpells(GatherAll(front), w);
      assert words == front + [w];
      ConcatAppend(front, [w]);
      assert Concat([w]) == w;
    }
  }

  /** No character is lost or reordered: the merged words spell the input
      words (fields are never blank). */
  lemma MergeRtlSpells(words: seq<string>)
    requires forall k :: 0 <= k < |words| ==> IsWord(words[k])
    ensures Concat(MergeRtl(words)) == Concat(words)
  {
    var g := GatherAll(words);
    GatherSpells(words);
    ConcatAppend(g.fixed, if g.cur != "" then [g.cur] else []);
    if g.cur != "" {
      assert Concat([g.cur]) == g.cur;
    }
  }

  /** Words of which none is a single RTL character are kept as they are. */
  lemma {:induction false} GatherPlainWords(words: seq<string>)
    requires forall k :: 0 <= k < |words| ==> IsWord(words[k]) && !SingleRtl(words[k])
    ensures GatherAll(words) == Gather(words, "")
    decreases |words|
  {
    if words != [] {
      var init := words[..|words| - 1];
      var w := words[|words| - 1];
      assert forall k :: 0 <= k < |init| ==> IsWord(init[k]) && !SingleRtl(init[k]) by {
        forall k | 0 <= k < |init| ensures IsWord(init[k]) && !SingleRtl(init[k]) {
          assert init[k] == words[k];
        }
      }
      GatherPlainWords(init);
      assert !IsSpace(w[0]);
      assert Release("", w) == [w];
      assert GatherAll(words) == GatherStep(Gather(init, ""), w);
      assert words == init + [w];
    }
  }

  lemma MergeRtlKeepsPlainWords(words: seq<string>)
    requires forall k :: 0 <= k < |words| ==> IsWord(words[k]) && !SingleRtl(words[k])
    ensures MergeRtl(words) == words
  {
    GatherPlainWords(words);
  }

  /** A run of single RTL characters is gathered into one word, in order. */
  lemma {:induction false} GatherRun(rs: seq<string>)
    requires forall k :: 0 <= k < |rs| ==> SingleRtl(rs[k])
    ensures GatherAll(rs) == Gather([], Concat(rs))
    decreases |rs|
  {
    if rs != [] {
      var front := rs[..|rs| - 1];
      var w := rs[|rs| - 1];
      assert forall k :: 0 <= k < |front| ==> SingleRtl(front[k]) by {
        forall k | 0 <= k < |front| ensures SingleRtl(front[k]) {
          assert front[k] == rs[k];
        }
      }
      GatherRun(front);
      assert rs == front + [w];
      ConcatAppend(front, [w]);
      assert Concat([w]) == w;
    }
  }

  /** A non-empty run of single RTL characters becomes exactly one word: the
      characters glued together. */
  lemma MergeRtlRun(rs: seq<string>)
    requires rs != [] && forall k :: 0 <= k < |rs| ==> SingleRtl(rs[k])
    ensures MergeRtl(rs) == [Concat(rs)]
  {
    GatherRun(rs);
    assert rs == [rs[0]] + rs[1..];
    assert Concat(rs) == rs[0] + Concat(rs[1..]);
    assert |rs[0]| == 1;
  }

  /** One word read after fixed words `before` with nothing gathered leaves
      those words in front of whatever the step fixes. */
  lemma GatherStepShift(before: seq<string>, g: Gather, w: string)
    ensures GatherStep(Gather(before + g.fixed, g.cur), w)
            == Gather(before + GatherStep(g, w).fixed, GatherStep(g, w).cur)
  {
    if !SingleRtl(w) {
      AppendAssoc(before, g.fixed, Release(g.cur, w));
    }
  }

  /** Words read after a point where nothing is gathered are merged as if
      they were read on their own, behind the words fixed up to that point. */
  lemma {:induction false} GatherAfterFlush(a: seq<string>, q: seq<string>)
    requires GatherAll(a).cur == ""
    ensures GatherAll(a + q) == Gather(GatherAll(a).fixed + GatherAll(q).fixed, GatherAll(q).cur)
    decreases |q|
  {
    if q == [] {
      assert a + q == a;
    } else {
      var front := q[..|q| - 1];
      var x := q[|q| - 1];
      GatherAfterFlush(a, front);
      assert a + q == (a + front) + [x];
      assert (a + q)[..|a + q| - 1] == a + front;
      GatherStepShift(GatherAll(a).fixed, GatherAll(front), x);
    }
  }

  /** A word that is not a single RTL character ends any gathered run and is
      kept as it is. */
  lemma GatherPlainWord(p: seq<string>, w: string)
    requires IsWord(w) && !SingleRtl(w)
    ensures GatherAll(p + [w]) == Gather(MergeRtl(p) + [w], "")
  {
    assert (p + [w])[..|p + [w]| - 1] == p;
    AllSpaceIsBlank(w);
    assert !IsSpace(w[0]);
  }

  /** Merging is local: a word that is not a single RTL character splits the
      words into two parts that are merged separately, with the word kept
      between them. */
  lemma MergeRtlAroundPlainWord(p: seq<string>, w: string, q: seq<string>)
    requires IsWord(w) && !SingleRtl(w)
    ensures MergeRtl(p + [w] + q) == MergeRtl(p) + [w] + MergeRtl(q)
  {
    GatherPlainWord(p, w);
    GatherAfterFlush(p + [w], q);
    var gq := GatherAll(q);
    AppendAssoc(MergeRtl(p) + [w], gq.fixed, if gq.cur != "" then [gq.cur] else []);
  }

  /** Merging never adds words. */
  lemma {:induction false} GatherShrinks(words: seq<string>)
    ensures |GatherAll(words).fixed| + (if GatherAll(words).cur != "" then 1 else 0) <= |words|
    decreases |words|
  {
    if words != [] {
      GatherShrinks(words[..|words| - 1]);
    }
  }

  lemma MergeRtlShrinks(words: seq<string>)
    ensures |MergeRtl(words)| <= |words|
  {
    GatherShrinks(words);
  }

  // ---------------------------------------------------------------------------
  // cleanExtractedText
  // ---------------------------------------------------------------------------

  /** What cleanExtractedText keeps of one line: nothing for a blank line,
      otherwise its words joined by single spaces. */
  function CleanLine(line: string): seq<string> {
    var t := TrimSpace(line);
    if t != "" then [Join(Fields(t), " ")] else []
  }

  /** The cleaned lines of `lines`, in order. */
  function CleanLines(lines: seq<string>): seq<string>
    decreases |lines|
  {
    if lines == [] then [] else CleanLines(lines[..|lines| - 1]) + CleanLine(lines[|lines| - 1])
  }

  /** cleanExtractedText. */
  method CleanExtractedText(text: string) returns (r: string)
    ensures r == Join(CleanLines(Split(text, "\n")), "\n")
  {
    var lines := Split(text, "\n");
    var cleanLines: seq<string> := [];
    for i := 0 to |lines|
      invariant cleanLines == CleanLines(lines[..i])
    {
      assert lines[..i + 1][..i] == lines[..i];
      var line := TrimSpace(lines[i]);
      if line != "" {
        var words := Fields(line);
        var cleanLine := Join(words, " ");
        cleanLines := cleanLines + [cleanLine];
      }
    }
    assert lines[..|lines|] == lines;
    r := Join(cleanLines, "\n");
  }

  /** Joined words of a non-blank line are non-empty and hold no line break. */
  lemma JoinedWordsLine(line: string)
    requires TrimSpace(line) != ""
    ensures Join(Fields(TrimSpace(line)), " ") != []
    ensures '\n' !in Join(Fields(TrimSpace(line)), " ")
  {
    var t := TrimSpace(line);
    var words := Fields(t);
    TrimSpaceSpec(line);
    FieldsOfText(t);
    forall k | 0 <= k < |words| ensures '\n' !in words[k] {
      assert IsWord(words[k]);
    }
    JoinKeepsOut(words, " ", '\n');
  }

  /** A text that starts with a non-space character has a first field. */
  lemma FieldsOfText(t: string)
    requires t != [] && !IsSpace(t[0])
    ensures Fields(t) != [] && Join(Fields(t), " ") != []
  {
    TrimLeftSpaceSpec(t);
    assert TrimLeftSpace(t) == t;
    var k := SpaceIndex(t);
    assert Fields(t) == [t[..k]] + Fields(t[k..]);
    assert |Fields(t)| >= 1;
    if |Fields(t)| > 1 {
      assert Join(Fields(t), " ") == Fields(t)[0] + " " + Join(Fields(t)[1..], " ");
    }
  }

  /** Each cleaned line is a non-empty line without line breaks, so the lines
      of the result are exactly the cleaned lines. */
  lemma {:induction false} CleanLinesSpec(lines: seq<string>)
    ensures forall k :: 0 <= k < |CleanLines(lines)| ==> CleanLines(lines)[k] != [] && '\n' !in CleanLines(lines)[k]
    ensures |CleanLines(lines)| <= |lines|
    decreases |lines|
  {
    if lines != [] {
      var last := lines[|lines| - 1];
      CleanLinesSpec(lines[..|lines| - 1]);
      if TrimSpace(last) != "" {
        JoinedWordsLine(last);
      }
    }
  }

  // ---------------------------------------------------------------------------
  // extractTextFromXML
  // ---------------------------------------------------------------------------

  /** The characters kept while scanning `s` with the tag flag `inTag`: '<'
      and '>' switch the flag and are dropped, the rest is kept outside tags. */
  function StripTags(inTag: bool, s: string): string
    decreases |s|
  {
    if s == [] then []
    else if s[0] == '<' then StripTags(true, s[1..])
    else if s[0] == '>' then StripTags(false, s[1..])
    else (if inTag then [] else [s[0]]) + StripTags(inTag, s[1..])
  }

  /** The tag flag once `s` has been read. */
  function TagAfter(inTag: bool, s: string): bool
    decreases |s|
  {
    if s == [] then inTag
    else if s[0] == '<' then TagAfter(true, s[1..])
    else if s[0] == '>' then TagAfter(false, s[1..])
    else TagAfter(inTag, s[1..])
  }

  /** The trimmed lines that are not empty. */
  function NonEmptyLines(lines: seq<string>): seq<string>
    decreases |lines|
  {
    if lines == [] then []
    else
      var last := TrimSpace(lines[|lines| - 1]);
      NonEmptyLines(lines[..|lines| - 1]) + (if last != "" then [last] else [])
  }

  /** The lines extractTextFromXML keeps from the tag-free text. */
  function XmlLines(xml: string): seq<string> {
    var text := StripTags(false, xml);
    var t1 := ReplaceAll(text, "\n\n\n", "\n\n");
    var t2 := ReplaceAll(t1, "\t", " ");
    NonEmptyLines(Split(t2, "\n"))
  }

  /** The tag-stripping loop of extractTextFromXML. */
  method StripTagsLoop(xmlContent: string) returns (result: string)
    ensures result == StripTags(false, xmlContent)
  {
    result := "";
    var inTag := false;
    for i := 0 to |xmlContent|
      invariant result + StripTags(inTag, xmlContent[i..]) == StripTags(false, xmlContent)
    {
      var c := xmlContent[i];
      assert xmlContent[i..][0] == c && xmlContent[i..][1..] == xmlContent[i + 1..];
      if c == '<' {
        inTag := true;
      } else if c == '>' {
        inTag := false;
      } else if !inTag {
        ghost var rest := StripTags(inTag, xmlContent[i + 1..]);
        assert result + ([c] + rest) == (result + [c]) + rest;
        result := result + [c];
      }
    }
  }

  /** The line loop of extractTextFromXML: the trimmed lines that are not empty. */
  method KeepNonEmptyLines(lines: seq<string>) returns (cleanLines: seq<string>)
    ensures cleanLines == NonEmptyLines(lines)
  {
    cleanLines := [];
    for i := 0 to |lines|
      invariant cleanLines == NonEmptyLines(lines[..i])
    {
      assert lines[..i + 1][..i] == lines[..i];
      var line := TrimSpace(lines[i]);
      if line != "" {
        cleanLines := cleanLines + [line];
      }
    }
    assert lines[..|lines|] == lines;
  }

  /** extractTextFromXML: the tag-stripping loop, then the white-space clean-up. */
  method ExtractTextFromXML(xmlContent: string) returns (r: string)
    ensures r == Join(XmlLines(xmlContent), "\n")
  {
    var text := StripTagsLoop(xmlContent);
    text := ReplaceAll(text, "\n\n\n", "\n\n");
    text := ReplaceAll(text, "\t", " ");
    var lines := Split(text, "\n");
    var cleanLines := KeepNonEmptyLines(lines);
    r := Join(cleanLines, "\n");
  }

  /** No '<' or '>' survives the scan. */
  lemma {:induction false} StripTagsDropsBrackets(inTag: bool, s: string)
    ensures '<' !in StripTags(inTag, s) && '>' !in StripTags(inTag, s)
    decreases |s|
  {
    if s != [] {
      StripTagsDropsBrackets(s[0] == '<' || (s[0] != '>' && inTag), s[1..]);
    }
  }

  /** Text without brackets, read outside a tag, is kept as it is. */
  lemma {:induction false} StripTagsKeepsPlainText(s: string)
    requires '<' !in s && '>' !in s
    ensures StripTags(false, s) == s
    decreases |s|
  {
    if s != [] {
      StripTagsKeepsPlainText(s[1..]);
      assert s == [s[0]] + s[1..];
    }
  }

  /** The scan of `a + b` is the scan of `a` followed by the scan of `b` from
      the flag `a` leaves. */
  lemma {:induction false} StripTagsAppend(inTag: bool, a: string, b: string)
    ensures StripTags(inTag, a + b) == StripTags(inTag, a) + StripTags(TagAfter(inTag, a), b)
    decreases |a|
  {
    if a == [] {
      assert a + b == b;
    } else {
      assert (a + b)[0] == a[0] && (a + b)[1..] == a[1..] + b;
      StripTagsAppend(if a[0] == '<' then true else if a[0] == '>' then false else inTag, a[1..], b);
    }
  }

  /** Inside a tag nothing is kept, and the flag stays set until a '>'. */
  lemma {:induction false} InsideTag(t: string)
    requires '>' !in t
    ensures StripTags(true, t) == [] && TagAfter(true, t)
    decreases |t|
  {
    if t != [] {
      InsideTag(t[1..]);
    }
  }

  /** A tag, from '<' through the first '>', leaves nothing, and the text
      after it is read outside a tag. */
  lemma TagThrough(t: string, b: string)
    requires '>' !in t
    ensures StripTags(false, ['<'] + t + ['>'] + b) == StripTags(false, b)
  {
    var x := ['<'] + t + ['>'] + b;
    var y := ['>'] + b;
    assert x[0] == '<' && x[1..] == t + y;
    InsideTag(t);
    StripTagsAppend(true, t, y);
    assert y[0] == '>' && y[1..] == b;
  }

  /** A tag is dropped from '<' through the next '>': text before it without
      brackets is kept, and the text after it is read outside a tag. */
  lemma TagDropped(a: string, t: string, b: string)
    requires '<' !in a && '>' !in a && '>' !in t
    ensures StripTags(false, a + ['<'] + t + ['>'] + b) == a + StripTags(false, b)
  {
    var x := ['<'] + t + ['>'] + b;
    StripTagsKeepsPlainText(a);
    TagAfterPlain(a);
    assert a + ['<'] + t + ['>'] + b == a + x;
    StripTagsAppend(false, a, x);
    TagThrough(t, b);
  }

  /** Text without brackets leaves the flag unset. */
  lemma {:induction false} TagAfterPlain(s: string)
    requires '<' !in s && '>' !in s
    ensures !TagAfter(false, s)
    decreases |s|
  {
    if s != [] {
      TagAfterPlain(s[1..]);
    }
  }

  /** Each kept line is trimmed and not empty. */
  lemma {:induction false} NonEmptyLinesTrimmed(lines: seq<string>)
    ensures forall k :: 0 <= k < |NonEmptyLines(lines)| ==> NonEmptyLines(lines)[k] != [] && Trimmed(NonEmptyLines(lines)[k])
    decreases |lines|
  {
    if lines != [] {
      NonEmptyLinesTrimmed(lines[..|lines| - 1]);
      TrimSpaceSpec(lines[|lines| - 1]);
    }
  }

  /** A kept line: not empty, no white space at either end, and no `c`. */
  predicate KeptLine(l: string, c: char) {
    l != [] && !IsSpace(l[0]) && !IsSpace(l[|l| - 1]) && c !in l
  }

  /** Each kept line is trimmed, not empty, and holds no `c` when no line
      does (used for line breaks, tabs and angle brackets). */
  lemma {:induction false} NonEmptyLinesSpec(lines: seq<string>, c: char)
    requires forall k :: 0 <= k < |lines| ==> c !in lines[k]
    ensures forall k :: 0 <= k < |NonEmptyLines(lines)| ==> KeptLine(NonEmptyLines(lines)[k], c)
    decreases |lines|
  {
    if lines != [] {
      var init := lines[..|lines| - 1];
      var last := TrimSpace(lines[|lines| - 1]);
      assert forall k :: 0 <= k < |init| ==> c !in init[k] by {
        forall k | 0 <= k < |init| ensures c !in init[k] {
          assert init[k] == lines[k];
        }
      }
      NonEmptyLinesSpec(init, c);
      TrimSpaceSpec(lines[|lines| - 1]);
      TrimSpaceKeepsOut(lines[|lines| - 1], c);
      var tail := if last != "" then [last] else [];
      assert NonEmptyLines(lines) == NonEmptyLines(init) + tail;
      forall k | 0 <= k < |NonEmptyLines(lines)| ensures KeptLine(NonEmptyLines(lines)[k], c) {
        if k < |NonEmptyLines(init)| {
          assert NonEmptyLines(lines)[k] == NonEmptyLines(init)[k];
        } else {
          assert NonEmptyLines(lines)[k] == last;
        }
      }
    }
  }

  /** The lines of extractTextFromXML are trimmed and non-empty, and hold no
      line break, no tab and no part of a tag. */
  lemma XmlLinesSpec(xml: string)
    ensures forall k :: 0 <= k < |XmlLines(xml)| ==>
              var l := XmlLines(xml)[k];
              l != [] && !IsSpace(l[0]) && !IsSpace(l[|l| - 1])
    ensures forall k :: 0 <= k < |XmlLines(xml)| ==>
              var l := XmlLines(xml)[k];
              '\n' !in l && '\t' !in l && '<' !in l && '>' !in l
  {
    var text := StripTags(false, xml);
    var t1 := ReplaceAll(text, "\n\n\n", "\n\n");
    var t2 := ReplaceAll(t1, "\t", " ");
    var lines := Split(t2, "\n");
    StripTagsDropsBrackets(false, xml);
    ReplaceAllKeepsOut(text, "\n\n\n", "\n\n", '<');
    ReplaceAllKeepsOut(text, "\n\n\n", "\n\n", '>');
    ReplaceAllKeepsOut(t1, "\t", " ", '<');
    ReplaceAllKeepsOut(t1, "\t", " ", '>');
    ReplaceAllRemovesChar(t1, '\t', " ");
    SplitAtChar(t2, '\n');
    SplitKeepsOut(t2, "\n", '\t');
    SplitKeepsOut(t2, "\n", '<');
    SplitKeepsOut(t2, "\n", '>');
    NonEmptyLinesSpec(lines, '\n');
    NonEmptyLinesSpec(lines, '\t');
    NonEmptyLinesSpec(lines, '<');
    NonEmptyLinesSpec(lines, '>');
  }

  // ---------------------------------------------------------------------------
  // splitByLength
  // ---------------------------------------------------------------------------

  /** Where splitByLength cuts `remaining`: after the last paragraph break,
      sentence end or space of the first maxLength characters that lies past
      the middle, or at maxLength. */
  function BreakPoint(remaining: string, maxLength: nat): (bp: nat)
    requires 1 <= maxLength < |remaining|
    ensures maxLength / 2 < bp <= maxLength
  {
    var w := remaining[..maxLength];
    LastIndexSpec(w, "\n\n");
    LastIndexSpec(w, ". ");
    LastIndexSpec(w, " ");
    if LastIndex(w, "\n\n") > maxLength / 2 then LastIndex(w, "\n\n")
    else if LastIndex(w, ". ") > maxLength / 2 then LastIndex(w, ". ") + 1
    else if LastIndex(w, " ") > maxLength / 2 then LastIndex(w, " ")
    else maxLength
  }

  /** The pages the loop of splitByLength produces from `remaining`. */
  function ByLength(remaining: string, maxLength: nat): seq<string>
    requires maxLength >= 1
    decreases |remaining|
  {
    if |remaining| <= maxLength then (if |remaining| > 0 then [remaining] else [])
    else
      var bp := BreakPoint(remaining, maxLength);
      var rest := TrimSpace(remaining[bp..]);
      TrimSpaceSpec(remaining[bp..]);
      [TrimSpace(remaining[..bp])] + ByLength(rest, maxLength)
  }

  /** One turn of splitByLength's loop. */
  lemma ByLengthUnfold(remaining: string, maxLength: nat)
    requires 1 <= maxLength < |remaining|
    ensures ByLength(remaining, maxLength) ==
            [TrimSpace(remaining[..BreakPoint(remaining, maxLength)])]
            + ByLength(TrimSpace(remaining[BreakPoint(remaining, maxLength)..]), maxLength)
  {
  }

  /** splitByLength.  A text longer than a limit below 1 makes the Go loop
      forever (or slice out of range), so such calls are excluded. */
  method SplitByLength(text: string, maxLength: int) returns (pages: seq<string>)
    requires maxLength >= 1 || |text| <= maxLength
    ensures |text| <= maxLength ==> pages == [text]
    ensures |text| > maxLength ==> pages == ByLength(text, maxLength)
  {
    if |text| <= maxLength {
      return [text];
    }
    var limit: nat := maxLength;
    pages := [];
    var remaining := text;
    while |remaining| > limit
      invariant pages + ByLength(remaining, limit) == ByLength(text, limit)
      decreases |remaining|
    {
      var breakPoint := BreakPoint(remaining, limit);
      var page := TrimSpace(remaining[..breakPoint]);
      var rest := TrimSpace(remaining[breakPoint..]);
      TrimSpaceSpec(remaining[breakPoint..]);
      ByLengthUnfold(remaining, limit);
      AppendAssoc(pages, [page], ByLength(rest, limit));
      pages := pages + [page];
      remaining := rest;
    }
    if |remaining| > 0 {
      pages := pages + [remaining];
    }
  }

  /** Every page fits the limit. */
  lemma {:induction false} ByLengthFits(remaining: string, maxLength: nat)
    requires maxLength >= 1
    ensures forall k :: 0 <= k < |ByLength(remaining, maxLength)| ==> |ByLength(remaining, maxLength)[k]| <= maxLength
    decreases |remaining|
  {
    if |remaining| > maxLength {
      var bp := BreakPoint(remaining, maxLength);
      TrimSpaceSpec(remaining[bp..]);
      TrimSpaceSpec(remaining[..bp]);
      ByLengthFits(TrimSpace(remaining[bp..]), maxLength);
    }
  }

  /** From a trimmed text every page is trimmed and non-empty. */
  lemma {:induction false} ByLengthTrimmed(remaining: string, maxLength: nat)
    requires maxLength >= 1
    requires Trimmed(remaining)
    ensures forall k :: 0 <= k < |ByLength(remaining, maxLength)| ==>
              ByLength(remaining, maxLength)[k] != [] && Trimmed(ByLength(remaining, maxLength)[k])
    decreases |remaining|
  {
    if |remaining| > maxLength {
      var bp := BreakPoint(remaining, maxLength);
      var head := remaining[..bp];
      TrimSpaceSpec(remaining[bp..]);
      TrimSpaceSpec(head);
      assert !Blank(head) by {
        assert head[0] == remaining[0];
      }
      ByLengthTrimmed(TrimSpace(remaining[bp..]), maxLength);
    }
  }

  // ---------------------------------------------------------------------------
  // splitTextIntoPages
  // ---------------------------------------------------------------------------

  const MaxCharsPerPage: nat := 2000
  const FormFeed: char := '\U{000C}'
  const ParagraphBreak: string := "\n\n"

  /** The page builder of splitTextIntoPages: the finished pages and the page
      being filled. */
  datatype Builder = Builder(done: seq<string>, current: string)

  /** One paragraph of the grouping loop: a blank paragraph is skipped; a
      paragraph that would push a non-empty page past the limit starts a new
      page; otherwise it is added after a paragraph break. */
  function AddParagraph(b: Builder, paragraph: string): Builder {
    var p := TrimSpace(paragraph);
    if p == "" then b
    else
      var b1 := if |b.current| > 0 && |b.current| + |p| > MaxCharsPerPage
                then Builder(b.done + [TrimSpace(b.current)], "") else b;
      Builder(b1.done, if |b1.current| > 0 then b1.current + ParagraphBreak + p else p)
  }

  /** The builder after all of `paragraphs`. */
  function Group(paragraphs: seq<string>): Builder
    decreases |paragraphs|
  {
    if paragraphs == [] then Builder([], "")
    else AddParagraph(Group(paragraphs[..|paragraphs| - 1]), paragraphs[|paragraphs| - 1])
  }

  /** The grouped pages, the last (unfinished) page included. */
  function GroupPages(paragraphs: seq<string>): seq<string> {
    var b := Group(paragraphs);
    b.done + (if |b.current| > 0 then [TrimSpace(b.current)] else [])
  }

  /** The form-feed pages, trimmed, the empty ones dropped. */
  function FormFeedPages(text: string): seq<string> {
    NonEmptyLines(Split(text, [FormFeed]))
  }

  /** The pages splitTextIntoPages returns. */
  function TextPages(text: string): seq<string> {
    if TrimSpace(text) == "" then [""]
    else if Contains(text, [FormFeed]) && FormFeedPages(text) != [] then FormFeedPages(text)
    else
      var pages := GroupPages(Split(text, ParagraphBreak));
      if pages == [] then [text]
      else if |pages| == 1 && |pages[0]| > MaxCharsPerPage * 2 then ByLength(pages[0], MaxCharsPerPage)
      else pages
  }

  /** The grouping loop of splitTextIntoPages. */
  method GroupParagraphs(paragraphs: seq<string>) returns (pages: seq<string>)
    ensures pages == GroupPages(paragraphs)
  {
    pages := [];
    var currentPage := "";
    for i := 0 to |paragraphs|
      invariant Builder(pages, currentPage) == Group(paragraphs[..i])
    {
      assert paragraphs[..i + 1][..i] == paragraphs[..i];
      var paragraph := TrimSpace(paragraphs[i]);
      if paragraph != "" {
        if |currentPage| > 0 && |currentPage| + |paragraph| > MaxCharsPerPage {
          pages := pages + [TrimSpace(currentPage)];
          currentPage := "";
        }
        if |currentPage| > 0 {
          currentPage := currentPage + ParagraphBreak;
        }
        currentPage := currentPage + paragraph;
      }
    }
    assert paragraphs[..|paragraphs|] == paragraphs;
    if |currentPage| > 0 {
      pages := pages + [TrimSpace(currentPage)];
    }
  }

  /** splitTextIntoPages. */
  method SplitTextIntoPages(text: string) returns (pages: seq<string>)
    ensures pages == TextPages(text)
  {
    if TrimSpace(text) == "" {
      return [""];
    }
    if Contains(text, [FormFeed]) {
      var ffPages := Split(text, [FormFeed]);
      var result := KeepNonEmptyLines(ffPages);
      if |result| > 0 {
        return result;
      }
    }
    var paragraphs := Split(text, ParagraphBreak);
    pages := GroupParagraphs(paragraphs);
    if |pages| == 0 {
      return [text];
    }
    if |pages| == 1 && |pages[0]| > MaxCharsPerPage * 2 {
      pages := SplitByLength(pages[0], MaxCharsPerPage);
    }
  }

  /** Joining at the back. */
  lemma JoinSnoc(parts: seq<string>, last: string, sep: string)
    requires parts != []
    ensures Join(parts + [last], sep) == Join(parts, sep) + sep + last
    decreases |parts|
  {
    if |parts| == 1 {
      assert (parts + [last])[1..] == [last];
    } else {
      assert (parts + [last])[1..] == parts[1..] + [last];
      JoinSnoc(parts[1..], last, sep);
    }
  }

  /** What the grouping keeps: the builder's pages and its current page, joined
      with paragraph breaks, give back the non-blank paragraphs joined the same
      way; every page is trimmed and non-empty; and a page longer than the limit
      plus one paragraph break is a single paragraph. */
  ghost predicate GroupInvariant(b: Builder, kept: seq<string>) {
    && (b.current == "" <==> kept == [])
    && (kept == [] ==> b.done == [])
    && Trimmed(b.current)
    && (kept != [] ==> Join(b.done + [b.current], ParagraphBreak) == Join(kept, ParagraphBreak))
    && (forall k :: 0 <= k < |b.done| ==> b.done[k] != [] && Trimmed(b.done[k]))
    && (forall k :: 0 <= k < |b.done| ==> |b.done[k]| <= MaxCharsPerPage + |ParagraphBreak| || b.done[k] in kept)
    && (|b.current| <= MaxCharsPerPage + |ParagraphBreak| || b.current in kept)
  }

  /** A paragraph that does not fit starts a new page. */
  lemma FlushKeeps(b: Builder, kept: seq<string>, p: string)
    requires GroupInvariant(b, kept)
    requires p != [] && Trimmed(p)
    requires |b.current| > 0 && |b.current| + |p| > MaxCharsPerPage
    ensures GroupInvariant(Builder(b.done + [TrimSpace(b.current)], p), kept + [p])
  {
    TrimSpaceOfTrimmed(b.current);
    var done' := b.done + [b.current];
    JoinSnoc(kept, p, ParagraphBreak);
    JoinSnoc(done', p, ParagraphBreak);
  }

  /** A paragraph that fits is added to the current page after a break. */
  lemma AppendKeeps(b: Builder, kept: seq<string>, p: string)
    requires GroupInvariant(b, kept)
    requires p != [] && Trimmed(p)
    requires |b.current| > 0 && |b.current| + |p| <= MaxCharsPerPage
    ensures GroupInvariant(Builder(b.done, b.current + ParagraphBreak + p), kept + [p])
  {
    var c := b.current + ParagraphBreak + p;
    JoinSnoc(kept, p, ParagraphBreak);
    if b.done != [] {
      JoinSnoc(b.done, b.current, ParagraphBreak);
      JoinSnoc(b.done, c, ParagraphBreak);
    } else {
      assert [b.current] + [p] == [b.current, p];
      assert Join([b.current, p], ParagraphBreak) == b.current + ParagraphBreak + Join([p], ParagraphBreak);
    }
    assert c[0] == b.current[0] && c[|c| - 1] == p[|p| - 1];
  }

  /** The first non-blank paragraph opens the first page. */
  lemma FirstKeeps(b: Builder, kept: seq<string>, p: string)
    requires GroupInvariant(b, kept)
    requires p != [] && Trimmed(p)
    requires |b.current| == 0
    ensures GroupInvariant(Builder(b.done, p), kept + [p])
  {
    assert kept == [] && b.done == [];
    assert Join([p], ParagraphBreak) == p;
  }

  /** One paragraph keeps the invariant. */
  lemma AddParagraphKeeps(b: Builder, kept: seq<string>, paragraph: string)
    requires GroupInvariant(b, kept)
    ensures GroupInvariant(AddParagraph(b, paragraph), kept + (if TrimSpace(paragraph) != "" then [TrimSpace(paragraph)] else []))
  {
    var p := TrimSpace(paragraph);
    TrimSpaceSpec(paragraph);
    if p != "" {
      if |b.current| > 0 && |b.current| + |p| > MaxCharsPerPage {
        FlushKeeps(b, kept, p);
      } else if |b.current| > 0 {
        AppendKeeps(b, kept, p);
      } else {
        FirstKeeps(b, kept, p);
      }
    } else {
      assert kept + [] == kept;
    }
  }

  /** The grouping keeps its invariant over all paragraphs. */
  lemma {:induction false} GroupKeeps(paragraphs: seq<string>)
    ensures GroupInvariant(Group(paragraphs), NonEmptyLines(paragraphs))
    decreases |paragraphs|
  {
    if paragraphs != [] {
      var front := paragraphs[..|paragraphs| - 1];
      GroupKeeps(front);
      AddParagraphKeeps(Group(front), NonEmptyLines(front), paragraphs[|paragraphs| - 1]);
    }
  }

  /** The grouped pages lose and reorder nothing: joined with paragraph breaks
      they are the non-blank paragraphs, trimmed, joined the same way.  Every
      page is trimmed and non-empty, and a page that holds more than one
      paragraph is at most two characters over the limit (the length test in
      splitTextIntoPages ignores the separator it then adds). */
  lemma GroupPagesSpec(paragraphs: seq<string>)
    ensures GroupPages(paragraphs) == [] <==> NonEmptyLines(paragraphs) == []
    ensures GroupPages(paragraphs) != [] ==>
              Join(GroupPages(paragraphs), ParagraphBreak) == Join(NonEmptyLines(paragraphs), ParagraphBreak)
    ensures forall k :: 0 <= k < |GroupPages(paragraphs)| ==>
              GroupPages(paragraphs)[k] != [] && Trimmed(GroupPages(paragraphs)[k])
    ensures forall k :: 0 <= k < |GroupPages(paragraphs)| ==>
              |GroupPages(paragraphs)[k]| <= MaxCharsPerPage + 2 || GroupPages(paragraphs)[k] in NonEmptyLines(paragraphs)
  {
    var b := Group(paragraphs);
    GroupKeeps(paragraphs);
    if b.current != "" {
      TrimSpaceOfTrimmed(b.current);
    }
  }

  /** Without a non-blank piece, every piece is blank. */
  lemma {:induction false} NoLinesAllBlank(lines: seq<string>)
    requires NonEmptyLines(lines) == []
    ensures forall k :: 0 <= k < |lines| ==> Blank(lines[k])
    decreases |lines|
  {
    if lines != [] {
      var front := lines[..|lines| - 1];
      NoLinesAllBlank(front);
      TrimSpaceSpec(lines[|lines| - 1]);
      assert forall k :: 0 <= k < |front| ==> lines[k] == front[k];
    }
  }

  /** Blank pieces joined by a blank separator are blank. */
  lemma {:induction false} BlankJoin(parts: seq<string>, sep: string)
    requires Blank(sep)
    requires forall k :: 0 <= k < |parts| ==> Blank(parts[k])
    ensures Blank(Join(parts, sep))
    decreases |parts|
  {
    if |parts| > 1 {
      BlankJoin(parts[1..], sep);
      var t := Join(parts[1..], sep);
      assert Join(parts, sep) == parts[0] + sep + t;
      assert Blank(parts[0]);
      forall i | 0 <= i < |parts[0] + sep + t|
        ensures IsSpace((parts[0] + sep + t)[i])
      {
        if i < |parts[0]| {
        } else if i < |parts[0]| + |sep| {
          assert (parts[0] + sep + t)[i] == sep[i - |parts[0]|];
        } else {
          assert (parts[0] + sep + t)[i] == t[i - |parts[0]| - |sep|];
        }
      }
    }
  }

  /** splitTextIntoPages on a non-blank text gives trimmed, non-empty pages;
      the text has a non-blank paragraph, so the fallback to the whole text is
      never taken; and a page split by length is within the limit. */
  lemma TextPagesSpec(text: string)
    ensures TrimSpace(text) == "" ==> TextPages(text) == [""]
    ensures TrimSpace(text) != "" ==> GroupPages(Split(text, ParagraphBreak)) != []
    ensures TrimSpace(text) != "" ==>
              && TextPages(text) != []
              && forall k :: 0 <= k < |TextPages(text)| ==> TextPages(text)[k] != [] && Trimmed(TextPages(text)[k])
  {
    if TrimSpace(text) != "" {
      TrimSpaceSpec(text);
      var paragraphs := Split(text, ParagraphBreak);
      GroupPagesSpec(paragraphs);
      if NonEmptyLines(paragraphs) == [] {
        NoLinesAllBlank(paragraphs);
        BlankJoin(paragraphs, ParagraphBreak);
        JoinSplit(text, ParagraphBreak);
        assert false;
      }
      if Contains(text, [FormFeed]) && FormFeedPages(text) != [] {
        SplitAtChar(text, FormFeed);
        NonEmptyLinesSpec(Split(text, [FormFeed]), FormFeed);
      } else {
        var pages := GroupPages(paragraphs);
        if |pages| == 1 && |pages[0]| > MaxCharsPerPage * 2 {
          ByLengthTrimmed(pages[0], MaxCharsPerPage);
        }
      }
    }
  }

  // ---------------------------------------------------------------------------
  // extractDOCText: the printable-run scanner for legacy .doc files
  // ---------------------------------------------------------------------------

  /** A run shorter than this is dropped. */
  const MinRun: nat := 6
  /** Runs whose gap is below this are joined by a space, others by a blank line. */
  const MergeGap: nat := 512

  predicate Printable(b: byte) {
    0x20 <= b <= 0x7e
  }

  /** A printable byte followed by a zero byte: a UTF-16LE unit in 0x20..0x7e. */
  predicate WideAt(data: seq<byte>, j: nat) {
    j + 1 < |data| && data[j + 1] == 0 && Printable(data[j])
  }

  /** Where a UTF-16LE run starting at `j` stops. */
  function WideEnd(data: seq<byte>, j: nat): (e: nat)
    requires j <= |data|
    ensures j <= e <= |data|
    ensures WideAt(data, j) ==> e >= j + 2
    decreases |data| - j
  {
    if WideAt(data, j) then WideEnd(data, j + 2) else j
  }

  /** The characters of that run (utf16.Decode is the identity on 0x20..0x7e). */
  function WideText(data: seq<byte>, j: nat): string
    requires j <= |data|
    decreases |data| - j
  {
    if WideAt(data, j) then [data[j] as char] + WideText(data, j + 2) else []
  }

  /** Where a run of printable bytes starting at `j` stops. */
  function AsciiEnd(data: seq<byte>, j: nat): (e: nat)
    requires j <= |data|
    ensures j <= e <= |data|
    ensures j < |data| && Printable(data[j]) ==> e > j
    decreases |data| - j
  {
    if j < |data| && Printable(data[j]) then AsciiEnd(data, j + 1) else j
  }

  /** string(bytes). */
  function Chars(bs: seq<byte>): (s: string)
    ensures |s| == |bs|
    ensures forall k :: 0 <= k < |bs| ==> s[k] == bs[k] as char
  {
    if bs == [] then [] else [bs[0] as char] + Chars(bs[1..])
  }

  /** A kept run: the byte span it came from and its text. */
  datatype Run = Run(start: nat, end: nat, text: string)

  /** The runs the scanner keeps, scanning from byte `i`; the scan stops before
      the last byte, as the outer loop does. */
  function RunsFrom(data: seq<byte>, i: nat): seq<Run>
    requires i <= |data|
    decreases |data| - i
  {
    if i + 1 >= |data| then []
    else if WideAt(data, i) then
      var j := WideEnd(data, i);
      var t := WideText(data, i);
      (if |t| >= MinRun then [Run(i, j, t)] else []) + RunsFrom(data, j)
    else if Printable(data[i]) then
      var j := AsciiEnd(data, i);
      (if j - i >= MinRun then [Run(i, j, Chars(data[i..j]))] else []) + RunsFrom(data, j)
    else
      RunsFrom(data, i + 1)
  }

  /** What separates a run from the one before it. */
  function Sep(prevEnd: nat, start: nat): string {
    if start - prevEnd < MergeGap then " " else "\n\n"
  }

  /** The builder's contents after writing `runs`: nothing before the first run. */
  function Layout(runs: seq<Run>): string
    decreases |runs|
  {
    if runs == [] then ""
    else
      var rs := runs[..|runs| - 1];
      var r := runs[|runs| - 1];
      Layout(rs) + (if rs == [] then "" else Sep(rs[|rs| - 1].end, r.start)) + r.text
  }

  /** What extractDOCText returns. */
  function DocText(data: seq<byte>): Result<seq<string>> {
    if |data| == 0 then Failure("empty DOC file")
    else
      var text := TrimSpace(Layout(RunsFrom(data, 0)));
      if text == "" then Failure("no readable text found in DOC file") else Success(TextPages(text))
  }

  /** The UTF-16LE inner loop. */
  method WideScan(data: seq<byte>, i: nat) returns (j: nat, run: string)
    requires i <= |data|
    ensures j == WideEnd(data, i) && run == WideText(data, i)
  {
    j := i;
    run := [];
    while j + 1 < |data|
      invariant i <= j <= |data|
      invariant WideEnd(data, j) == WideEnd(data, i)
      invariant run + WideText(data, j) == WideText(data, i)
      decreases |data| - j
    {
      var u: int := data[j] as int + 256 * (data[j + 1] as int);
      if 0x20 <= u <= 0x7e {
        assert WideAt(data, j) && u == data[j];
        run := run + [u as char];
        j := j + 2;
      } else {
        break;
      }
    }
  }

  /** The printable-byte inner loop. */
  method AsciiScan(data: seq<byte>, i: nat) returns (j: nat)
    requires i <= |data|
    ensures j == AsciiEnd(data, i)
  {
    j := i;
    while j < |data| && 0x20 <= data[j] <= 0x7e
      invariant i <= j <= |data|
      invariant AsciiEnd(data, j) == AsciiEnd(data, i)
      decreases |data| - j
    {
      j := j + 1;
    }
  }

  /** Write a kept run, after a space or a blank line. */
  method WriteRun(out: string, lastEnd: int, start: nat, run: string) returns (out': string)
    ensures out' == out + (if lastEnd >= 0 && start - lastEnd < MergeGap then " "
                           else if |out| > 0 then "\n\n" else "") + run
  {
    out' := out;
    if lastEnd >= 0 && start - lastEnd < MergeGap {
      out' := out' + " ";
    } else if |out'| > 0 {
      out' := out' + "\n\n";
    }
    out' := out' + run;
  }

  /** Keeping one more run extends the layout as the builder does. */
  lemma KeepRun(runs: seq<Run>, r: Run, out: string, lastEnd: int)
    requires out == Layout(runs)
    requires runs == [] ==> lastEnd == -1 && out == []
    requires runs != [] ==> lastEnd == runs[|runs| - 1].end && |out| > 0
    ensures Layout(runs + [r]) == out + (if lastEnd >= 0 && r.start - lastEnd < MergeGap then " "
                                         else if |out| > 0 then "\n\n" else "") + r.text
  {
    var all := runs + [r];
    assert all[..|all| - 1] == runs && all[|all| - 1] == r;
    if runs != [] {
      assert Sep(runs[|runs| - 1].end, r.start) == if r.start - lastEnd < MergeGap then " " else "\n\n";
    }
  }

  /** What the outer loop keeps between turns: the runs kept so far, written
      out, with `lastEnd` the end of the last of them (or -1). */
  ghost predicate ScanInv(data: seq<byte>, i: nat, out: string, lastEnd: int, runs: seq<Run>) {
    && i <= |data|
    && runs + RunsFrom(data, i) == RunsFrom(data, 0)
    && out == Layout(runs)
    && (runs == [] ==> lastEnd == -1 && out == [])
    && (runs != [] ==> lastEnd == runs[|runs| - 1].end && |out| > 0)
  }

  /** Keep a run the inner loop found between `i` and `j`, if it is long enough. */
  method KeepIfLong(data: seq<byte>, i: nat, j: nat, run: string, out: string, lastEnd: int, ghost runs: seq<Run>)
    returns (out': string, lastEnd': int, ghost runs': seq<Run>)
    requires i <= j <= |data|
    requires ScanInv(data, i, out, lastEnd, runs)
    requires RunsFrom(data, i) == (if |run| >= MinRun then [Run(i, j, run)] else []) + RunsFrom(data, j)
    ensures ScanInv(data, j, out', lastEnd', runs')
  {
    out', lastEnd', runs' := out, lastEnd, runs;
    if |run| >= MinRun {
      KeepRun(runs, Run(i, j, run), out, lastEnd);
      out' := WriteRun(out, lastEnd, i, run);
      AppendAssoc(runs, [Run(i, j, run)], RunsFrom(data, j));
      runs' := runs + [Run(i, j, run)];
      lastEnd' := j;
    }
  }

  /** One turn of the outer loop. */
  method ScanStep(data: seq<byte>, i: nat, out: string, lastEnd: int, ghost runs: seq<Run>)
    returns (i': nat, out': string, lastEnd': int, ghost runs': seq<Run>)
    requires i + 1 < |data|
    requires ScanInv(data, i, out, lastEnd, runs)
    ensures i < i' && ScanInv(data, i', out', lastEnd', runs')
  {
    if data[i + 1] == 0 && 0x20 <= data[i] <= 0x7e {
      var j, run := WideScan(data, i);
      out', lastEnd', runs' := KeepIfLong(data, i, j, run, out, lastEnd, runs);
      i' := j;
    } else if 0x20 <= data[i] <= 0x7e {
      var j := AsciiScan(data, i);
      out', lastEnd', runs' := KeepIfLong(data, i, j, Chars(data[i..j]), out, lastEnd, runs);
      i' := j;
    } else {
      i', out', lastEnd', runs' := i + 1, out, lastEnd, runs;
    }
  }

  /** The outer scanning loop: the builder ends up holding the layout of the kept runs. */
  method ScanRuns(data: seq<byte>) returns (out: string)
    ensures out == Layout(RunsFrom(data, 0))
  {
    out := [];
    var i: nat := 0;
    var lastEnd: int := -1;
    ghost var runs: seq<Run> := [];
    while i + 1 < |data|
      invariant ScanInv(data, i, out, lastEnd, runs)
      decreases |data| - i
    {
      i, out, lastEnd, runs := ScanStep(data, i, out, lastEnd, runs);
    }
    assert RunsFrom(data, i) == [];
    assert runs + [] == runs;
  }

  /** extractDOCText. */
  method ExtractDOCText(data: seq<byte>) returns (r: Result<seq<string>>)
    ensures r == DocText(data)
  {
    if |data| == 0 {
      return Failure("empty DOC file");
    }
    var out := ScanRuns(data);
    var text := TrimSpace(out);
    if text == "" {
      return Failure("no readable text found in DOC file");
    }
    var pages := SplitTextIntoPages(text);
    return Success(pages);
  }

  /** Every character is printable ASCII. */
  predicate PrintableText(t: string) {
    forall k :: 0 <= k < |t| ==> ' ' <= t[k] <= '~'
  }

  /** A scan at `i` cannot start inside a run of printable bytes. */
  predicate Fresh(data: seq<byte>, i: nat) {
    i == 0 || i >= |data| || !Printable(data[i - 1]) || !Printable(data[i])
  }

  /** A kept run of printable bytes: the whole run, maximal at both ends. */
  ghost predicate AsciiRun(data: seq<byte>, r: Run) {
    && r.start < r.end <= |data|
    && r.text == Chars(data[r.start..r.end])
    && (forall k :: r.start <= k < r.end ==> Printable(data[k]))
    && (r.start == 0 || !Printable(data[r.start - 1]))
    && (r.end == |data| || !Printable(data[r.end]))
  }

  /** A kept UTF-16LE run: its units and their characters, maximal at the end. */
  ghost predicate WideRun(data: seq<byte>, r: Run) {
    && r.start + 2 * |r.text| == r.end <= |data|
    && (forall k :: 0 <= k < |r.text| ==> WideAt(data, r.start + 2 * k) && r.text[k] == data[r.start + 2 * k] as char)
    && !WideAt(data, r.end)
  }

  ghost predicate GoodRun(data: seq<byte>, r: Run) {
    |r.text| >= MinRun && PrintableText(r.text) && (AsciiRun(data, r) || WideRun(data, r))
  }

  lemma PrintableChar(b: byte)
    requires Printable(b)
    ensures ' ' <= b as char <= '~'
  {
  }

  lemma {:induction false} WideTextSpec(data: seq<byte>, j: nat)
    requires j <= |data|
    ensures j + 2 * |WideText(data, j)| == WideEnd(data, j)
    ensures forall k :: 0 <= k < |WideText(data, j)| ==>
              WideAt(data, j + 2 * k) && WideText(data, j)[k] == data[j + 2 * k] as char
    ensures PrintableText(WideText(data, j))
    ensures !WideAt(data, WideEnd(data, j))
    decreases |data| - j
  {
    if WideAt(data, j) {
      WideTextSpec(data, j + 2);
      PrintableChar(data[j]);
      var t := WideText(data, j);
      assert t == [data[j] as char] + WideText(data, j + 2);
      forall k | 0 < k < |t|
        ensures WideAt(data, j + 2 * k) && t[k] == data[j + 2 * k] as char
      {
        assert t[k] == WideText(data, j + 2)[k - 1];
        assert j + 2 * k == (j + 2) + 2 * (k - 1);
      }
    }
  }

  lemma {:induction false} AsciiEndSpec(data: seq<byte>, j: nat)
    requires j <= |data|
    ensures forall k :: j <= k < AsciiEnd(data, j) ==> Printable(data[k])
    ensures AsciiEnd(data, j) == |data| || !Printable(data[AsciiEnd(data, j)])
    decreases |data| - j
  {
    if j < |data| && Printable(data[j]) {
      AsciiEndSpec(data, j + 1);
    }
  }

  lemma CharsPrintable(bs: seq<byte>)
    requires forall k :: 0 <= k < |bs| ==> Printable(bs[k])
    ensures PrintableText(Chars(bs))
  {
    forall k | 0 <= k < |bs|
      ensures ' ' <= Chars(bs)[k] <= '~'
    {
      PrintableChar(bs[k]);
    }
  }

  /** The kept runs from `i` on: each is good and starts at or after `i`, and
      each ends before the next begins. */
  ghost predicate RunsOk(data: seq<byte>, i: nat, rs: seq<Run>) {
    && (forall k :: 0 <= k < |rs| ==> i <= rs[k].start && GoodRun(data, rs[k]))
    && (forall k :: 0 < k < |rs| ==> rs[k - 1].end <= rs[k].start)
  }

  lemma RunsOkWeaken(data: seq<byte>, i: nat, j: nat, rs: seq<Run>)
    requires i <= j && RunsOk(data, j, rs)
    ensures RunsOk(data, i, rs)
  {
  }

  lemma RunsOkCons(data: seq<byte>, i: nat, j: nat, h: Run, rest: seq<Run>)
    requires i <= h.start && h.end <= j && GoodRun(data, h)
    requires RunsOk(data, j, rest)
    ensures RunsOk(data, i, [h] + rest)
  {
    var rs := [h] + rest;
    forall k | 0 < k < |rs| ensures i <= rs[k].start && GoodRun(data, rs[k]) && rs[k - 1].end <= rs[k].start {
      assert rs[k] == rest[k - 1];
      if k > 1 {
        assert rs[k - 1] == rest[k - 2];
      }
    }
  }

  /** A UTF-16LE scan at a fresh `i` ends at a fresh byte and yields a good run. */
  lemma WideHead(data: seq<byte>, i: nat)
    requires i <= |data| && WideAt(data, i)
    ensures i < WideEnd(data, i) && Fresh(data, WideEnd(data, i))
    ensures |WideText(data, i)| >= MinRun ==> GoodRun(data, Run(i, WideEnd(data, i), WideText(data, i)))
  {
    var j := WideEnd(data, i);
    var t := WideText(data, i);
    WideTextSpec(data, i);
    assert WideAt(data, i + 2 * (|t| - 1));
    assert WideRun(data, Run(i, j, t));
  }

  /** A printable-byte scan at a fresh `i` ends at a fresh byte and yields a good run. */
  lemma AsciiHead(data: seq<byte>, i: nat)
    requires i < |data| && Printable(data[i]) && Fresh(data, i)
    ensures i < AsciiEnd(data, i) && Fresh(data, AsciiEnd(data, i))
    ensures GoodRun(data, Run(i, AsciiEnd(data, i), Chars(data[i..AsciiEnd(data, i)]))) || AsciiEnd(data, i) - i < MinRun
  {
    var j := AsciiEnd(data, i);
    AsciiEndSpec(data, i);
    var bs := data[i..j];
    forall k | 0 <= k < |bs| ensures Printable(bs[k]) {
      assert bs[k] == data[i + k];
    }
    CharsPrintable(bs);
    assert i == 0 || !Printable(data[i - 1]);
    assert AsciiRun(data, Run(i, j, Chars(bs)));
  }

  /** The scanner keeps long enough runs of printable bytes or of UTF-16LE
      units, each taken whole, in increasing and non-overlapping order. */
  lemma {:induction false} RunsFromSpec(data: seq<byte>, i: nat)
    requires i <= |data| && Fresh(data, i)
    ensures RunsOk(data, i, RunsFrom(data, i))
    decreases |data| - i
  {
    if i + 1 < |data| {
      if WideAt(data, i) {
        var j := WideEnd(data, i);
        var t := WideText(data, i);
        WideHead(data, i);
        RunsFromSpec(data, j);
        if |t| >= MinRun {
          RunsOkCons(data, i, j, Run(i, j, t), RunsFrom(data, j));
        } else {
          RunsOkWeaken(data, i, j, RunsFrom(data, j));
        }
      } else if Printable(data[i]) {
        var j := AsciiEnd(data, i);
        AsciiHead(data, i);
        RunsFromSpec(data, j);
        if j - i >= MinRun {
          RunsOkCons(data, i, j, Run(i, j, Chars(data[i..j])), RunsFrom(data, j));
        } else {
          RunsOkWeaken(data, i, j, RunsFrom(data, j));
        }
      } else {
        RunsFromSpec(data, i + 1);
      }
    }
  }

  /** Two neighbouring runs lie at least MergeGap bytes apart. */
  ghost predicate HasBreak(runs: seq<Run>) {
    exists k :: 0 < k < |runs| && runs[k].start - runs[k - 1].end >= MergeGap
  }

  lemma HasBreakSnoc(rs: seq<Run>, r: Run)
    ensures HasBreak(rs + [r]) <==> HasBreak(rs) || (rs != [] && r.start - rs[|rs| - 1].end >= MergeGap)
  {
    var runs := rs + [r];
    if HasBreak(runs) {
      var k :| 0 < k < |runs| && runs[k].start - runs[k - 1].end >= MergeGap;
      if k < |rs| {
        assert rs[k] == runs[k] && rs[k - 1] == runs[k - 1];
      }
    }
    if HasBreak(rs) {
      var k :| 0 < k < |rs| && rs[k].start - rs[k - 1].end >= MergeGap;
      assert rs[k] == runs[k] && rs[k - 1] == runs[k - 1];
    }
    if rs != [] && r.start - rs[|rs| - 1].end >= MergeGap {
      assert runs[|rs|] == r && runs[|rs| - 1] == rs[|rs| - 1];
    }
  }

  /** The layout of printable runs is made of printable characters and line breaks. */
  lemma {:induction false} LayoutChars(runs: seq<Run>)
    requires forall k :: 0 <= k < |runs| ==> PrintableText(runs[k].text)
    ensures forall k :: 0 <= k < |Layout(runs)| ==> ' ' <= Layout(runs)[k] <= '~' || Layout(runs)[k] == '\n'
    decreases |runs|
  {
    if runs != [] {
      var rs := runs[..|runs| - 1];
      var r := runs[|runs| - 1];
      LayoutChars(rs);
      var sep := if rs == [] then "" else Sep(rs[|rs| - 1].end, r.start);
      var l := Layout(rs);
      assert Layout(runs) == l + sep + r.text;
      forall k | 0 <= k < |l + sep + r.text|
        ensures ' ' <= (l + sep + r.text)[k] <= '~' || (l + sep + r.text)[k] == '\n'
      {
        if k < |l| {
          assert (l + sep + r.text)[k] == l[k];
        } else if k < |l| + |sep| {
          assert (l + sep + r.text)[k] == sep[k - |l|];
        } else {
          assert (l + sep + r.text)[k] == r.text[k - |l| - |sep|];
        }
      }
    }
  }

  /** Runs are joined by a blank line exactly where the gap between them is
      at least MergeGap bytes. */
  lemma {:induction false} LayoutBreaks(runs: seq<Run>)
    requires forall k :: 0 <= k < |runs| ==> PrintableText(runs[k].text)
    ensures '\n' in Layout(runs) <==> HasBreak(runs)
    decreases |runs|
  {
    if runs != [] {
      var rs := runs[..|runs| - 1];
      var r := runs[|runs| - 1];
      LayoutBreaks(rs);
      assert runs == rs + [r];
      HasBreakSnoc(rs, r);
      var sep := if rs == [] then "" else Sep(rs[|rs| - 1].end, r.start);
      var l := Layout(rs);
      assert Layout(runs) == l + sep + r.text;
      assert '\n' !in r.text by {
        assert PrintableText(r.text);
      }
      assert '\n' in l + sep + r.text <==> '\n' in l || '\n' in sep || '\n' in r.text;
    }
  }

  /** extractDOCText's outcome: the two errors it reports, and otherwise the
      pages of the trimmed text, which is made of printable characters and
      line breaks only and has a line break exactly where two kept runs lie
      at least MergeGap bytes apart. */
  lemma DocTextSpec(data: seq<byte>)
    ensures |data| == 0 ==> DocText(data) == Failure("empty DOC file")
    ensures |data| > 0 && RunsFrom(data, 0) == [] ==> DocText(data) == Failure("no readable text found in DOC file")
    ensures DocText(data).Success? ==>
              var out := Layout(RunsFrom(data, 0));
              && !Blank(out)
              && DocText(data).value == TextPages(TrimSpace(out))
              && (forall k :: 0 <= k < |out| ==> ' ' <= out[k] <= '~' || out[k] == '\n')
              && ('\n' in out <==> HasBreak(RunsFrom(data, 0)))
    ensures DocText(data).Success? ==>
              forall k :: 0 <= k < |DocText(data).value| ==> DocText(data).value[k] != [] && Trimmed(DocText(data).value[k])
  {
    if |data| > 0 {
      var runs := RunsFrom(data, 0);
      RunsFromSpec(data, 0);
      LayoutChars(runs);
      LayoutBreaks(runs);
      TrimSpaceSpec(Layout(runs));
      var text := TrimSpace(Layout(runs));
      TextPagesSpec(text);
      if text != "" {
        TrimSpaceOfTrimmed(text);
      }
    }
  }
}
