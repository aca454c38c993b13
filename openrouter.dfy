/**
 The text handling around the OpenRouter chat call (openrouter.go): the
 repair of raw control characters inside the JSON string literals the model
 returns, the removal of Markdown code fences around that JSON, and the checks
 on the decoded response.  The HTTP exchange and the JSON decoder are not
 modelled; their outcomes are passed in.
 */
module OpenRouter {
  import opened Wrappers
  import opened Strings

  // ---------------------------------------------------------------------------
  // sanitizeJSONString
  // ---------------------------------------------------------------------------

  /** The scanner's two flags. */
  datatype ScanState = ScanState(inString: bool, prevBackslash: bool)

  const Start := ScanState(false, false)

  /** A backslash is pending only inside a string literal; the scanner never
      leaves this set of states. */
  predicate Reachable(st: ScanState) {
    st.prevBackslash ==> st.inString
  }

  /** The raw control characters that are escaped inside string literals. */
  predicate IsControl(c: char) {
    c == '\n' || c == '\r' || c == '\t'
  }

  /** The letter of the two-character escape for a control character. */
  function EscapeLetter(c: char): char {
    if c == '\n' then 'n' else if c == '\r' then 'r' else 't'
  }

  /** The flags after reading `c`. */
  function Next(st: ScanState, c: char): (n: ScanState)
    ensures Reachable(n)
    ensures c == '"' && !st.prevBackslash ==> n.inString == !st.inString
    ensures !(c == '"' && !st.prevBackslash) ==> n.inString == st.inString
  {
    if c == '"' && !st.prevBackslash then ScanState(!st.inString, false)
    else if !st.inString then ScanState(false, false)
    else if IsControl(c) then ScanState(true, false)
    else if c == '\\' && !st.prevBackslash then ScanState(true, true)
    else ScanState(true, false)
  }

  /** What the builder receives for `c`: the character itself, except for a
      control character inside a string literal, which becomes a backslash
      and its escape letter. */
  function Emit(st: ScanState, c: char): (e: string)
    ensures !st.inString ==> e == [c]
    ensures st.inString && IsControl(c) ==> e == ['\\', EscapeLetter(c)]
    ensures e == [c] <==> !(st.inString && IsControl(c))
  {
    if st.inString && IsControl(c) then ['\\', EscapeLetter(c)] else [c]
  }

  /** The output of the scan of `s` from the state `st`. */
  function Scan(st: ScanState, s: string): string
    decreases |s|
  {
    if s == [] then [] else Emit(st, s[0]) + Scan(Next(st, s[0]), s[1..])
  }

  /** The state once all of `s` has been read from `st`. */
  function Final(st: ScanState, s: string): ScanState
    decreases |s|
  {
    if s == [] then st else Final(Next(st, s[0]), s[1..])
  }

  /** The number of control characters the scan of `s` from `st` escapes. */
  function Escaped(st: ScanState, s: string): nat
    decreases |s|
  {
    if s == [] then 0
    else (if st.inString && IsControl(s[0]) then 1 else 0) + Escaped(Next(st, s[0]), s[1..])
  }

  /** One turn of sanitizeJSONString's loop: what it appends for `c` and the
      flags it leaves, tested in the order of openrouter.go. */
  method ScanByte(c: char, inString: bool, prevBackslash: bool)
    returns (out: string, inString': bool, prevBackslash': bool)
    ensures out == Emit(ScanState(inString, prevBackslash), c)
    ensures ScanState(inString', prevBackslash') == Next(ScanState(inString, prevBackslash), c)
  {
    if c == '"' && !prevBackslash {
      return [c], !inString, false;
    }
    if inString {
      if c == '\n' {
        return "\\n", true, false;
      }
      if c == '\r' {
        return "\\r", true, false;
      }
      if c == '\t' {
        return "\\t", true, false;
      }
      if c == '\\' && !prevBackslash {
        return [c], true, true;
      }
      if prevBackslash {
        return [c], true, false;
      }
      return [c], true, prevBackslash;
    }
    return [c], false, false;
  }

  /** sanitizeJSONString: one pass over the bytes, updating the two flags and
      appending to a builder. */
  method SanitizeJSONString(s: string) returns (r: string)
    ensures r == Scan(Start, s)
  {
    var b := "";
    var inString := false;
    var prevBackslash := false;
    var i := 0;
    while i < |s|
      invariant 0 <= i <= |s|
      invariant b + Scan(ScanState(inString, prevBackslash), s[i..]) == Scan(Start, s)
    {
      ghost var st := ScanState(inString, prevBackslash);
      assert s[i..] == [s[i]] + s[i + 1..];
      var out;
      out, inString, prevBackslash := ScanByte(s[i], inString, prevBackslash);
      AppendAssoc(b, out, Scan(Next(st, s[i]), s[i + 1..]));
      b := b + out;
      i := i + 1;
    }
    assert s[|s|..] == [];
    r := b;
  }

  /** The output is the input plus one character for every control character
      escaped inside a string literal. */
  lemma {:induction false} ScanLength(st: ScanState, s: string)
    ensures |Scan(st, s)| == |s| + Escaped(st, s)
    decreases |s|
  {
    if s != [] {
      ScanLength(Next(st, s[0]), s[1..]);
    }
  }

  /** Input with no control character inside a string literal comes back
      unchanged, and only such input does. */
  lemma {:induction false} ScanUnchanged(st: ScanState, s: string)
    ensures Scan(st, s) == s <==> Escaped(st, s) == 0
    decreases |s|
  {
    ScanLength(st, s);
    if s != [] {
      ScanUnchanged(Next(st, s[0]), s[1..]);
      if Escaped(st, s) == 0 {
        assert s == [s[0]] + s[1..];
      }
    }
  }

  /** Scanning is compositional: the scan of `a + b` is the scan of `a`
      followed by the scan of `b` from where `a` left the flags. */
  lemma {:induction false} ScanAppend(st: ScanState, a: string, b: string)
    ensures Scan(st, a + b) == Scan(st, a) + Scan(Final(st, a), b)
    ensures Final(st, a + b) == Final(Final(st, a), b)
    decreases |a|
  {
    if a != [] {
      assert (a + b)[0] == a[0] && (a + b)[1..] == a[1..] + b;
      ScanAppend(Next(st, a[0]), a[1..], b);
      AppendAssoc(Emit(st, a[0]), Scan(Next(st, a[0]), a[1..]), Scan(Final(st, a), b));
    } else {
      assert a + b == b;
    }
  }

  /** Re-reading what one character produced reproduces it and ends in the
      same state as reading the character. */
  lemma EmitStable(st: ScanState, c: char)
    requires Reachable(st)
    ensures Scan(st, Emit(st, c)) == Emit(st, c)
    ensures Final(st, Emit(st, c)) == Next(st, c)
  {
    var e := Emit(st, c);
    if |e| == 2 {
      var st1 := Next(st, e[0]);
      assert e[1..] == [e[1]] && e[1..][1..] == [];
      assert Scan(st1, e[1..]) == [e[1]];
      assert Final(st1, e[1..]) == Next(st1, e[1]);
    } else {
      assert e[1..] == [];
      assert Final(st, e) == Final(Next(st, e[0]), []);
    }
  }

  /** sanitizeJSONString is idempotent: its output has no control character
      left inside a string literal, and it keeps the literals' boundaries. */
  lemma {:induction false} ScanIdempotent(st: ScanState, s: string)
    requires Reachable(st)
    ensures Scan(st, Scan(st, s)) == Scan(st, s)
    ensures Final(st, Scan(st, s)) == Final(st, s)
    decreases |s|
  {
    if s != [] {
      var e := Emit(st, s[0]);
      var rest := Scan(Next(st, s[0]), s[1..]);
      EmitStable(st, s[0]);
      ScanAppend(st, e, rest);
      ScanIdempotent(Next(st, s[0]), s[1..]);
    }
  }

  /** The statement for the whole input, from the scanner's initial flags. */
  lemma SanitizeProperties(s: string)
    ensures |Scan(Start, s)| == |s| + Escaped(Start, s)
    ensures Scan(Start, s) == s <==> Escaped(Start, s) == 0
    ensures Scan(Start, Scan(Start, s)) == Scan(Start, s)
  {
    ScanLength(Start, s);
    ScanUnchanged(Start, s);
    ScanIdempotent(Start, s);
  }

  // ---------------------------------------------------------------------------
  // Code-fence cleanup (answerFromVectorDB, extractKeywords)
  // ---------------------------------------------------------------------------

  const Fence: string := "```"

  /** `t` holds no code fence. */
  ghost predicate NoFence(t: string) {
    forall i :: !At(t, Fence, i)
  }

  /** The model's reply with surrounding white space, a leading "```json", a
      trailing "```" and every remaining "```" removed. */
  function CleanFences(response: string): string {
    var t := TrimSpace(response);
    var t1 := TrimPrefix(t, "```json");
    var t2 := TrimSuffix(t1, Fence);
    TrimSpace(ReplaceAll(t2, Fence, ""))
  }

  /** If deleting the fences leaves two backticks in front, the input had two
      backticks in front. */
  lemma DeleteFencesHead(s: string)
    ensures |ReplaceAll(s, Fence, "")| >= 2 && ReplaceAll(s, Fence, "")[..2] == "``" ==>
              |s| >= 2 && s[..2] == "``"
  {
    var r := ReplaceAll(s, Fence, "");
    if |s| >= 3 && s[..3] != Fence {
      var r1 := ReplaceAll(s[1..], Fence, "");
      assert r == [s[0]] + r1;
      if |r| >= 2 && r[..2] == "``" && |s[1..]| >= 3 && s[1..][..3] != Fence {
        assert r1 == [s[1..][0]] + ReplaceAll(s[1..][1..], Fence, "");
        assert r[1] == s[1];
      }
    }
  }

  /** Deleting the fences leaves none: every run of backticks shrinks to
      fewer than three. */
  lemma {:induction false} DeleteFencesLeavesNone(s: string)
    ensures NoFence(ReplaceAll(s, Fence, ""))
    decreases |s|
  {
    var r := ReplaceAll(s, Fence, "");
    if |s| < 3 {
      assert r == s;
    } else if s[..3] == Fence {
      assert r == ReplaceAll(s[3..], Fence, "");
      DeleteFencesLeavesNone(s[3..]);
    } else {
      var r1 := ReplaceAll(s[1..], Fence, "");
      DeleteFencesLeavesNone(s[1..]);
      DeleteFencesHead(s[1..]);
      assert r == [s[0]] + r1;
      assert s[..3] == [s[0]] + s[1..][..2];
      ConsNoFence(s[0], r1);
    }
  }

  /** Putting a character in front of a text without fences creates none
      unless the character is a backtick and the text starts with two. */
  lemma ConsNoFence(c: char, t: string)
    requires NoFence(t)
    requires !(c == '`' && |t| >= 2 && t[..2] == "``")
    ensures NoFence([c] + t)
  {
    var r := [c] + t;
    forall i ensures !At(r, Fence, i) {
      if i >= 1 && i + 3 <= |r| {
        assert r[i..i + 3] == t[i - 1..i + 2];
        assert !At(t, Fence, i - 1);
      } else if i == 0 && |r| >= 3 {
        assert r[..3] == [c] + t[..2];
        assert t[..2] == r[..3][1..] && Fence[1..] == "``";
        if c == '`' {
          assert r[..3][1..] != Fence[1..];
        } else {
          assert r[..3][0] != Fence[0];
        }
      }
    }
  }

  /** A trimmed piece of a text without fences has none either. */
  lemma TrimSpaceKeepsNoFence(t: string)
    requires NoFence(t)
    ensures NoFence(TrimSpace(t))
  {
    var a := TrimSpaceSlice(t);
    var r := TrimSpace(t);
    forall i ensures !At(r, Fence, i) {
      if 0 <= i && i + 3 <= |r| {
        assert r[i] == t[a + i] && r[i + 1] == t[a + i + 1] && r[i + 2] == t[a + i + 2];
        assert t[a + i..a + i + 3] == r[i..i + 3];
        assert !At(t, Fence, a + i);
      }
    }
  }

  /** The cleaned reply has no code fence and no white space at either end. */
  lemma CleanFencesSpec(response: string)
    ensures NoFence(CleanFences(response))
    ensures var c := CleanFences(response);
            c == [] || (!IsSpace(c[0]) && !IsSpace(c[|c| - 1]))
  {
    var t2 := TrimSuffix(TrimPrefix(TrimSpace(response), "```json"), Fence);
    DeleteFencesLeavesNone(t2);
    TrimSpaceKeepsNoFence(ReplaceAll(t2, Fence, ""));
    TrimSpaceSpec(ReplaceAll(t2, Fence, ""));
  }

  /** A reply with no fence and no surrounding white space is kept as it is. */
  lemma CleanFencesKeepsPlainReply(response: string)
    requires NoFence(response)
    requires TrimSpace(response) == response
    ensures CleanFences(response) == response
  {
    assert !HasPrefix(response, "```json") by {
      if |response| >= 7 {
        assert !At(response, Fence, 0);
        assert response[..7][..3] == response[..3] != Fence;
      }
    }
    assert TrimPrefix(response, "```json") == response;
    assert !HasSuffix(response, Fence) by {
      assert !At(response, Fence, |response| - 3);
    }
    assert TrimSuffix(response, Fence) == response;
    ReplaceAllWithoutPattern(response, Fence, "");
  }

  /** Replacing a pattern that does not occur changes nothing. */
  lemma {:induction false} ReplaceAllWithoutPattern(s: string, pat: string, rep: string)
    requires pat != []
    requires forall i :: !At(s, pat, i)
    ensures ReplaceAll(s, pat, rep) == s
    decreases |s|
  {
    if |s| >= |pat| {
      assert !At(s, pat, 0);
      forall i ensures !At(s[1..], pat, i) {
        if At(s[1..], pat, i) {
          assert s[1..][i..i + |pat|] == s[i + 1..i + 1 + |pat|];
          assert At(s, pat, i + 1);
        }
      }
      ReplaceAllWithoutPattern(s[1..], pat, rep);
      assert s == [s[0]] + s[1..];
    }
  }

  // ---------------------------------------------------------------------------
  // The checks at the end of callOpenRouter
  // ---------------------------------------------------------------------------

  /** The decoded response body: the message of the error object, if present,
      and the content of each choice's message. */
  datatype Decoded = Decoded(errorMessage: Option<string>, choices: seq<string>)

  /** What callOpenRouter returns once the body has been read: `statusCode`
      and `body` come from the HTTP response, `decoded` is what the JSON
      decoder made of the body (or its error text). */
  function ResponseAnswer(statusCode: int, body: string, decoded: Result<Decoded>): (r: Result<string>)
    ensures statusCode != 200 ==> r == Failure("OpenRouter API returned status " + Itoa(statusCode) + ": " + body)
    ensures statusCode == 200 && decoded.Failure? ==> r == Failure("failed to decode response: " + decoded.error)
    ensures r.Success? <==>
              statusCode == 200 && decoded.Success? && decoded.value.errorMessage.None? && decoded.value.choices != []
    ensures statusCode == 200 && decoded.Success? && decoded.value.errorMessage.Some? ==>
              r == Failure("OpenRouter API error: " + decoded.value.errorMessage.value)
    ensures statusCode == 200 && decoded.Success? && decoded.value.errorMessage.None? && decoded.value.choices == [] ==>
              r == Failure("no response choices received")
    ensures r.Success? ==> r.value == TrimSpace(decoded.value.choices[0])
  {
    if statusCode != 200 then Failure("OpenRouter API returned status " + Itoa(statusCode) + ": " + body)
    else if decoded.Failure? then Failure("failed to decode response: " + decoded.error)
    else if decoded.value.errorMessage.Some? then Failure("OpenRouter API error: " + decoded.value.errorMessage.value)
    else if |decoded.value.choices| == 0 then Failure("no response choices received")
    else Success(TrimSpace(decoded.value.choices[0]))
  }

  /** A successful answer has no white space at either end. */
  lemma ResponseAnswerTrimmed(statusCode: int, body: string, decoded: Result<Decoded>)
    ensures var r := ResponseAnswer(statusCode, body, decoded);
            r.Success? ==> r.value == [] || (!IsSpace(r.value[0]) && !IsSpace(r.value[|r.value| - 1]))
  {
    if statusCode == 200 && decoded.Success? && decoded.value.choices != [] {
      TrimSpaceSpec(decoded.value.choices[0]);
    }
  }
}
