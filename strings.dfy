/**
 The parts of Go's `strings` and `strconv` packages that the pipeline relies
 on, written as functions over `string` (a sequence of characters).  Each
 function states the property the callers in the other modules need.
 */
module Strings {
  import opened Wrappers

  /** A Go byte. */
  type byte = b: int | 0 <= b < 256

  /** The characters Go's `unicode.IsSpace` reports as white space. */
  predicate IsSpace(c: char) {
    c == ' ' || ('\t' <= c <= '\r') || c == '\U{0085}' || c == '\U{00A0}' || c == '\U{1680}'
    || ('\U{2000}' <= c <= '\U{200A}') || c == '\U{2028}' || c == '\U{2029}' || c == '\U{202F}'
    || c == '\U{205F}' || c == '\U{3000}'
  }

  /** Every character of `s` is white space (Go: `strings.TrimSpace(s) == ""`). */
  predicate Blank(s: string) {
    forall i :: 0 <= i < |s| ==> IsSpace(s[i])
  }

  /** Blank, decided character by character from the front. */
  function AllSpace(s: string): bool {
    s == [] || (IsSpace(s[0]) && AllSpace(s[1..]))
  }

  lemma {:induction false} AllSpaceIsBlank(s: string)
    ensures AllSpace(s) <==> Blank(s)
    ensures AllSpace(s) <==> TrimSpace(s) == []
  {
    TrimSpaceSpec(s);
    if s != [] {
      AllSpaceIsBlank(s[1..]);
      assert forall i :: 1 <= i < |s| ==> s[i] == s[1..][i - 1];
    }
  }

  // ---------------------------------------------------------------------------
  // Trimming
  // ---------------------------------------------------------------------------

  /** A character of the cut set. */
  predicate InCutset(cutset: set<char>, c: char) {
    c in cutset
  }

  /** The longest prefix of characters of the cut set removed. */
  function TrimLeftSet(s: string, cutset: set<char>): (r: string)
    ensures |r| <= |s| && r == s[|s| - |r|..]
    ensures r == [] || !InCutset(cutset, r[0])
    ensures forall i :: 0 <= i < |s| - |r| ==> InCutset(cutset, s[i])
  {
    if s != [] && InCutset(cutset, s[0]) then TrimLeftSet(s[1..], cutset) else s
  }

  /** The longest suffix of characters of the cut set removed. */
  function TrimRightSet(s: string, cutset: set<char>): (r: string)
    ensures |r| <= |s| && r == s[..|r|]
    ensures r == [] || !InCutset(cutset, r[|r| - 1])
    ensures forall i :: |r| <= i < |s| ==> InCutset(cutset, s[i])
  {
    if s != [] && InCutset(cutset, s[|s| - 1]) then TrimRightSet(s[..|s| - 1], cutset) else s
  }

  /** strings.Trim(s, cutset), the cut set given as a set of characters. */
  function Trim(s: string, cutset: set<char>): string {
    TrimRightSet(TrimLeftSet(s, cutset), cutset)
  }

  /** A slice of a slice is a slice. */
  lemma SliceOfSlice(s: string, i: nat, j: nat, a: nat, b: nat)
    requires i <= j <= |s| && a <= b <= j - i
    ensures s[i..j][a..b] == s[i + a..i + b]
  {
    forall k | 0 <= k < b - a ensures s[i..j][a..b][k] == s[i + a..i + b][k] {
      assert s[i..j][a..b][k] == s[i..j][a + k] == s[i + a + k];
    }
  }

  /** Trim leaves the slice s[a..a+|r|] and removes only characters of the cut set. */
  lemma TrimSlice(s: string, cutset: set<char>) returns (a: nat)
    ensures a + |Trim(s, cutset)| <= |s| && Trim(s, cutset) == s[a..a + |Trim(s, cutset)|]
    ensures forall j :: 0 <= j < a ==> InCutset(cutset, s[j])
    ensures forall j :: a + |Trim(s, cutset)| <= j < |s| ==> InCutset(cutset, s[j])
    ensures Trim(s, cutset) == [] || (!InCutset(cutset, Trim(s, cutset)[0]) && !InCutset(cutset, Trim(s, cutset)[|Trim(s, cutset)| - 1]))
  {
    a := TrimShape(s, cutset);
    TrimCutsSuffix(s, cutset);
    TrimEnds(s, cutset);
  }

  lemma TrimShape(s: string, cutset: set<char>) returns (a: nat)
    ensures a == |s| - |TrimLeftSet(s, cutset)|
    ensures a + |Trim(s, cutset)| <= |s|
    ensures Trim(s, cutset) == s[a..a + |Trim(s, cutset)|]
  {
    var l := TrimLeftSet(s, cutset);
    var r := TrimRightSet(l, cutset);
    a := |s| - |l|;
    assert l == s[a..|s|];
    SliceOfSlice(s, a, |s|, 0, |r|);
    assert r == l[0..|r|];
    assert r == Trim(s, cutset);
  }

  lemma TrimCutsSuffix(s: string, cutset: set<char>)
    ensures forall j :: |s| - |TrimLeftSet(s, cutset)| + |Trim(s, cutset)| <= j < |s| ==> InCutset(cutset, s[j])
  {
    var l := TrimLeftSet(s, cutset);
    var r := TrimRightSet(l, cutset);
    var a := |s| - |l|;
    forall j | a + |r| <= j < |s| ensures InCutset(cutset, s[j]) {
      assert s[j] == l[j - a];
    }
  }

  lemma TrimEnds(s: string, cutset: set<char>)
    ensures Trim(s, cutset) == [] || (!InCutset(cutset, Trim(s, cutset)[0]) && !InCutset(cutset, Trim(s, cutset)[|Trim(s, cutset)| - 1]))
  {
    var l := TrimLeftSet(s, cutset);
    var r := TrimRightSet(l, cutset);
    if r != [] {
      assert r[0] == l[0];
    }
  }

  /** The white space at the front of `s` removed. */
  function TrimLeftSpace(s: string): string {
    if s != [] && IsSpace(s[0]) then TrimLeftSpace(s[1..]) else s
  }

  /** The white space at the end of `s` removed. */
  function TrimRightSpace(s: string): string {
    if s != [] && IsSpace(s[|s| - 1]) then TrimRightSpace(s[..|s| - 1]) else s
  }

  /** strings.TrimSpace: the slice of `s` left after removing white space at
      both ends (its properties are TrimSpaceSpec and TrimSpaceSlice). */
  function TrimSpace(s: string): string {
    TrimRightSpace(TrimLeftSpace(s))
  }

  lemma {:induction false} TrimLeftSpaceSpec(s: string)
    ensures |TrimLeftSpace(s)| <= |s| && TrimLeftSpace(s) == s[|s| - |TrimLeftSpace(s)|..]
    ensures TrimLeftSpace(s) == [] || !IsSpace(TrimLeftSpace(s)[0])
    ensures forall i :: 0 <= i < |s| - |TrimLeftSpace(s)| ==> IsSpace(s[i])
  {
    if s != [] && IsSpace(s[0]) {
      TrimLeftSpaceSpec(s[1..]);
      var r := TrimLeftSpace(s);
      forall i | 1 <= i < |s| - |r| ensures IsSpace(s[i]) {
        assert s[i] == s[1..][i - 1];
      }
    }
  }

  lemma {:induction false} TrimRightSpaceSpec(s: string)
    ensures |TrimRightSpace(s)| <= |s| && TrimRightSpace(s) == s[..|TrimRightSpace(s)|]
    ensures TrimRightSpace(s) == [] || !IsSpace(TrimRightSpace(s)[|TrimRightSpace(s)| - 1])
    ensures forall i :: |TrimRightSpace(s)| <= i < |s| ==> IsSpace(s[i])
  {
    if s != [] && IsSpace(s[|s| - 1]) {
      TrimRightSpaceSpec(s[..|s| - 1]);
      var r := TrimRightSpace(s);
      forall i | |r| <= i < |s| - 1 ensures IsSpace(s[i]) {
        assert s[i] == s[..|s| - 1][i];
      }
    }
  }

  /** No white space at either end. */
  predicate Trimmed(s: string) {
    s == [] || (!IsSpace(s[0]) && !IsSpace(s[|s| - 1]))
  }

  /** The trimmed string is no longer than `s`, has no white space at either
      end, and is empty exactly when `s` is all white space. */
  lemma TrimSpaceSpec(s: string)
    ensures |TrimSpace(s)| <= |s|
    ensures Trimmed(TrimSpace(s))
    ensures TrimSpace(s) == [] <==> Blank(s)
  {
    var a := TrimSpaceSlice(s);
    var l := TrimLeftSpace(s);
    TrimLeftSpaceSpec(s);
    TrimRightSpaceSpec(l);
    var r := TrimSpace(s);
    if r != [] {
      assert r[0] == l[0];
    }
  }

  /** The trimmed string is the slice s[a..a+|r|] and only white space was removed. */
  lemma TrimSpaceSlice(s: string) returns (a: nat)
    ensures a + |TrimSpace(s)| <= |s|
    ensures TrimSpace(s) == s[a..a + |TrimSpace(s)|]
    ensures forall i :: 0 <= i < a ==> IsSpace(s[i])
    ensures forall i :: a + |TrimSpace(s)| <= i < |s| ==> IsSpace(s[i])
  {
    var l := TrimLeftSpace(s);
    TrimLeftSpaceSpec(s);
    a := |s| - |l|;
    var r := TrimRightSpace(l);
    TrimRightSpaceSpec(l);
    assert l == s[a..|s|];
    SliceOfSlice(s, a, |s|, 0, |r|);
    assert r == l[0..|r|];
    forall i | a + |r| <= i < |s| ensures IsSpace(s[i]) {
      assert s[i] == l[i - a];
    }
    assert r == TrimSpace(s);
  }

  /** TrimSpace leaves no white space at either end. */
  lemma TrimSpaceTrimmed(s: string)
    ensures Trimmed(TrimSpace(s))
  {
    TrimSpaceSpec(s);
  }

  /** A string without white space at either end is its own trimmed form. */
  lemma TrimSpaceOfTrimmed(s: string)
    requires s == [] || (!IsSpace(s[0]) && !IsSpace(s[|s| - 1]))
    ensures TrimSpace(s) == s
  {
  }

  /** Trimming around a trimmed, non-empty middle keeps the middle whole. */
  lemma TrimSpaceKeepsCore(a: string, m: string, b: string)
    requires m != [] && Trimmed(m)
    ensures exists i :: At(TrimSpace(a + m + b), m, i)
  {
    var s := a + m + b;
    var x := TrimSpaceSlice(s);
    var t := TrimSpace(s);
    assert s[|a|] == m[0];
    assert s[|a| + |m| - 1] == m[|m| - 1];
    assert x <= |a|;
    assert x + |t| >= |a| + |m|;
    assert t[|a| - x..|a| - x + |m|] == s[|a|..|a| + |m|];
    assert s[|a|..|a| + |m|] == m;
    assert At(t, m, |a| - x);
  }

  /** TrimSpace is idempotent. */
  lemma TrimSpaceIdempotent(s: string)
    ensures TrimSpace(TrimSpace(s)) == TrimSpace(s)
  {
    TrimSpaceSpec(s);
    TrimSpaceOfTrimmed(TrimSpace(s));
  }

  // ---------------------------------------------------------------------------
  // Searching
  // ---------------------------------------------------------------------------

  /** `sub` occurs in `s` at position `i`. */
  predicate At(s: string, sub: string, i: int) {
    0 <= i && i + |sub| <= |s| && s[i..i + |sub|] == sub
  }

  /** strings.Index: the first position of `sub` in `s`, or -1 (see IndexSpec). */
  function Index(s: string, sub: string): int {
    IndexFrom(s, sub, 0)
  }

  /** The first position of `sub` in `s` from `k` on, or -1. */
  function IndexFrom(s: string, sub: string, k: nat): int
    decreases |s| - k
  {
    if k + |sub| > |s| then -1
    else if s[k..k + |sub|] == sub then k
    else IndexFrom(s, sub, k + 1)
  }

  lemma {:induction false} IndexFromSpec(s: string, sub: string, k: nat)
    requires forall i :: 0 <= i < k ==> !At(s, sub, i)
    ensures -1 <= IndexFrom(s, sub, k) <= |s|
    ensures IndexFrom(s, sub, k) == -1 ==> forall i :: !At(s, sub, i)
    ensures IndexFrom(s, sub, k) >= 0 ==>
              At(s, sub, IndexFrom(s, sub, k)) && forall i :: 0 <= i < IndexFrom(s, sub, k) ==> !At(s, sub, i)
    decreases |s| - k
  {
    if k + |sub| <= |s| && s[k..k + |sub|] != sub {
      IndexFromSpec(s, sub, k + 1);
    }
  }

  /** Index finds the first occurrence, and -1 means there is none. */
  lemma IndexSpec(s: string, sub: string)
    ensures -1 <= Index(s, sub) <= |s|
    ensures Index(s, sub) == -1 ==> forall i :: !At(s, sub, i)
    ensures Index(s, sub) >= 0 ==> At(s, sub, Index(s, sub)) && forall i :: 0 <= i < Index(s, sub) ==> !At(s, sub, i)
  {
    IndexFromSpec(s, sub, 0);
  }

  /** strings.LastIndex: the last position of `sub` in `s`, or -1 (see LastIndexSpec). */
  function LastIndex(s: string, sub: string): int {
    if |sub| > |s| then -1 else LastIndexFrom(s, sub, |s| - |sub|)
  }

  /** The last position of `sub` in `s` at or before `k`, or -1. */
  function LastIndexFrom(s: string, sub: string, k: int): int
    requires k + |sub| <= |s|
    decreases k + 1
  {
    if k < 0 then -1
    else if s[k..k + |sub|] == sub then k
    else LastIndexFrom(s, sub, k - 1)
  }

  lemma {:induction false} LastIndexFromSpec(s: string, sub: string, k: int)
    requires -1 <= k && k + |sub| <= |s|
    requires forall i :: k < i ==> !At(s, sub, i)
    ensures -1 <= LastIndexFrom(s, sub, k) <= k
    ensures LastIndexFrom(s, sub, k) == -1 ==> forall i :: !At(s, sub, i)
    ensures LastIndexFrom(s, sub, k) >= 0 ==>
              At(s, sub, LastIndexFrom(s, sub, k)) && forall i :: LastIndexFrom(s, sub, k) < i ==> !At(s, sub, i)
    decreases k + 1
  {
    if k >= 0 && s[k..k + |sub|] != sub {
      LastIndexFromSpec(s, sub, k - 1);
    }
  }

  /** LastIndex finds the last occurrence, and -1 means there is none. */
  lemma LastIndexSpec(s: string, sub: string)
    ensures -1 <= LastIndex(s, sub) <= |s|
    ensures LastIndex(s, sub) == -1 ==> forall i :: !At(s, sub, i)
    ensures LastIndex(s, sub) >= 0 ==> At(s, sub, LastIndex(s, sub)) && forall i :: LastIndex(s, sub) < i ==> !At(s, sub, i)
  {
    if |sub| <= |s| {
      LastIndexFromSpec(s, sub, |s| - |sub|);
    }
  }

  /** strings.Contains. */
  predicate Contains(s: string, sub: string)
    ensures Contains(s, sub) <==> exists i :: At(s, sub, i)
  {
    IndexSpec(s, sub);
    Index(s, sub) != -1
  }

  /** strings.HasPrefix. */
  predicate HasPrefix(s: string, p: string) {
    |p| <= |s| && s[..|p|] == p
  }

  /** strings.HasSuffix. */
  predicate HasSuffix(s: string, p: string) {
    |p| <= |s| && s[|s| - |p|..] == p
  }

  /** strings.TrimPrefix. */
  function TrimPrefix(s: string, p: string): (r: string)
    ensures HasPrefix(s, p) ==> s == p + r
    ensures !HasPrefix(s, p) ==> r == s
  {
    if HasPrefix(s, p) then s[|p|..] else s
  }

  /** strings.TrimSuffix. */
  function TrimSuffix(s: string, p: string): (r: string)
    ensures HasSuffix(s, p) ==> s == r + p
    ensures !HasSuffix(s, p) ==> r == s
  {
    if HasSuffix(s, p) then s[..|s| - |p|] else s
  }

  // ---------------------------------------------------------------------------
  // Splitting, joining, replacing
  // ---------------------------------------------------------------------------

  /** strings.Join. */
  function Join(parts: seq<string>, sep: string): string
    decreases |parts|
  {
    if |parts| == 0 then ""
    else if |parts| == 1 then parts[0]
    else parts[0] + sep + Join(parts[1..], sep)
  }

  /** The concatenation of all parts (strings.Join with an empty separator). */
  function Concat(parts: seq<string>): string
    decreases |parts|
  {
    if parts == [] then "" else parts[0] + Concat(parts[1..])
  }

  /** Concatenation regrouped. */
  lemma AppendAssoc<T>(a: seq<T>, b: seq<T>, c: seq<T>)
    ensures (a + b) + c == a + (b + c)
  {
  }

  lemma ConcatAppend(a: seq<string>, b: seq<string>)
    ensures Concat(a + b) == Concat(a) + Concat(b)
  {
    if a != [] {
      assert (a + b)[1..] == a[1..] + b;
      ConcatAppend(a[1..], b);
      assert Concat(a + b) == a[0] + Concat(a[1..] + b);
    } else {
      assert a + b == b;
    }
  }

  /** strings.Split for a non-empty separator: the pieces between the occurrences of `sep`. */
  function Split(s: string, sep: string): (r: seq<string>)
    requires sep != []
    ensures |r| >= 1
    decreases |s|
  {
    var i := Index(s, sep);
    IndexSpec(s, sep);
    if i < 0 then [s] else [s[..i]] + Split(s[i + |sep|..], sep)
  }

  /** Joining the pieces of a split with the same separator gives back the input. */
  lemma {:induction false} JoinSplit(s: string, sep: string)
    requires sep != []
    ensures Join(Split(s, sep), sep) == s
    decreases |s|
  {
    var i := Index(s, sep);
    IndexSpec(s, sep);
    if i >= 0 {
      var rest := s[i + |sep|..];
      var tail := Split(rest, sep);
      JoinSplit(rest, sep);
      JoinCons(s[..i], tail, sep);
      assert Split(s, sep) == [s[..i]] + tail;
      assert s[i..i + |sep|] == sep;
      assert s == s[..i] + s[i..i + |sep|] + rest;
    }
  }

  lemma JoinCons(head: string, tail: seq<string>, sep: string)
    requires tail != []
    ensures Join([head] + tail, sep) == head + sep + Join(tail, sep)
  {
    assert ([head] + tail)[1..] == tail;
  }

  /** The position of the first white-space character of `t`, or |t|. */
  function SpaceIndex(t: string): (k: nat)
    ensures k <= |t|
    ensures forall i :: 0 <= i < k ==> !IsSpace(t[i])
    ensures k < |t| ==> IsSpace(t[k])
  {
    if t == [] || IsSpace(t[0]) then 0 else 1 + SpaceIndex(t[1..])
  }

  /** A non-empty string without white space. */
  predicate IsWord(w: string) {
    w != [] && forall i :: 0 <= i < |w| ==> !IsSpace(w[i])
  }

  /** strings.Fields: the maximal runs of non-space characters, in order. */
  function Fields(s: string): (r: seq<string>)
    ensures forall k :: 0 <= k < |r| ==> IsWord(r[k])
    decreases |s|
  {
    var t := TrimLeftSpace(s);
    TrimLeftSpaceSpec(s);
    if t == [] then []
    else
      var k := SpaceIndex(t);
      [t[..k]] + Fields(t[k..])
  }

  /** strings.ReplaceAll for a non-empty pattern: replaces the non-overlapping
      occurrences of `pat`, leftmost first. */
  function ReplaceAll(s: string, pat: string, rep: string): string
    requires pat != []
    decreases |s|
  {
    if |s| < |pat| then s
    else if s[..|pat|] == pat then rep + ReplaceAll(s[|pat|..], pat, rep)
    else [s[0]] + ReplaceAll(s[1..], pat, rep)
  }

  /** Replacing never brings in a character that neither `s` nor `rep` holds. */
  lemma {:induction false} ReplaceAllKeepsOut(s: string, pat: string, rep: string, c: char)
    requires pat != []
    requires c !in s && c !in rep
    ensures c !in ReplaceAll(s, pat, rep)
    decreases |s|
  {
    if |s| >= |pat| {
      if s[..|pat|] == pat {
        ReplaceAllKeepsOut(s[|pat|..], pat, rep, c);
      } else {
        ReplaceAllKeepsOut(s[1..], pat, rep, c);
      }
    }
  }

  /** Replacing every occurrence of a one-character pattern by text without
      that character leaves none of it. */
  lemma {:induction false} ReplaceAllRemovesChar(s: string, c: char, rep: string)
    requires c !in rep
    ensures c !in ReplaceAll(s, [c], rep)
    decreases |s|
  {
    if |s| >= 1 {
      ReplaceAllRemovesChar(s[1..], c, rep);
      if s[..1] != [c] {
        assert s[0] != c by { assert s[..1] == [s[0]]; }
      }
    }
  }

  /** Every piece of a split lies inside the input. */
  lemma {:induction false} SplitKeepsOut(s: string, sep: string, c: char)
    requires sep != []
    requires c !in s
    ensures forall k :: 0 <= k < |Split(s, sep)| ==> c !in Split(s, sep)[k]
    decreases |s|
  {
    var i := Index(s, sep);
    IndexSpec(s, sep);
    if i >= 0 {
      var rest := s[i + |sep|..];
      SplitKeepsOut(rest, sep, c);
      assert Split(s, sep) == [s[..i]] + Split(rest, sep);
      assert c !in s[..i];
    }
  }

  /** The pieces of a split at a single character do not contain it. */
  lemma {:induction false} SplitAtChar(s: string, c: char)
    ensures forall k :: 0 <= k < |Split(s, [c])| ==> c !in Split(s, [c])[k]
    decreases |s|
  {
    var i := Index(s, [c]);
    IndexSpec(s, [c]);
    if i >= 0 {
      var rest := s[i + 1..];
      SplitAtChar(rest, c);
      assert Split(s, [c]) == [s[..i]] + Split(rest, [c]);
      forall j | 0 <= j < i ensures s[..i][j] != c {
        assert !At(s, [c], j);
        assert s[j..j + 1] == [s[j]];
      }
    } else {
      forall j | 0 <= j < |s| ensures s[j] != c {
        assert !At(s, [c], j);
        assert s[j..j + 1] == [s[j]];
      }
    }
  }

  /** Trimming keeps only characters of the input. */
  lemma TrimSpaceKeepsOut(s: string, c: char)
    requires c !in s
    ensures c !in TrimSpace(s)
  {
    var a := TrimSpaceSlice(s);
  }

  /** A join holds only characters of its parts and its separator. */
  lemma {:induction false} JoinKeepsOut(parts: seq<string>, sep: string, c: char)
    requires c !in sep
    requires forall k :: 0 <= k < |parts| ==> c !in parts[k]
    ensures c !in Join(parts, sep)
    decreases |parts|
  {
    if |parts| > 1 {
      JoinKeepsOut(parts[1..], sep, c);
    }
  }

  // ---------------------------------------------------------------------------
  // Case and numbers
  // ---------------------------------------------------------------------------

  /** Lower-casing of one character (ASCII letters; every other character is kept). */
  function LowerChar(c: char): char {
    if 'A' <= c <= 'Z' then (c as int + 32) as char else c
  }

  /** strings.ToLower restricted to ASCII letters. */
  function ToLower(s: string): (r: string)
    ensures |r| == |s|
    ensures forall i :: 0 <= i < |s| ==> r[i] == LowerChar(s[i])
  {
    seq(|s|, i requires 0 <= i < |s| => LowerChar(s[i]))
  }

  predicate IsDigit(c: char) {
    '0' <= c <= '9'
  }

  predicate AllDigits(d: string) {
    forall i :: 0 <= i < |d| ==> IsDigit(d[i])
  }

  /** The value of a string of decimal digits, most significant first. */
  function DigitsValue(d: string): nat
    requires AllDigits(d)
    decreases |d|
  {
    if d == [] then 0 else DigitsValue(d[..|d| - 1]) * 10 + (d[|d| - 1] as int - '0' as int)
  }

  const MinInt64: int := -0x8000_0000_0000_0000
  const MaxInt64: int := 0x7FFF_FFFF_FFFF_FFFF

  /** strconv.Atoi on a 64-bit platform: an optional sign and at least one
      decimal digit, nothing else, and a value that fits in 64 bits. */
  function Atoi(s: string): (r: Option<int>)
    ensures r.Some? ==> MinInt64 <= r.value <= MaxInt64
    ensures s == [] ==> r == None
  {
    if s == [] then None
    else
      var digits := if s[0] == '+' || s[0] == '-' then s[1..] else s;
      if digits == [] || !AllDigits(digits) then None
      else
        var v: int := if s[0] == '-' then 0 - DigitsValue(digits) else DigitsValue(digits);
        if MinInt64 <= v <= MaxInt64 then Some(v) else None
  }

  function DigitChar(d: nat): (c: char)
    requires d < 10
    ensures IsDigit(c) && c as int - '0' as int == d
  {
    ('0' as int + d) as char
  }

  /** The decimal digits of a natural number, without leading zeros. */
  function NatToString(n: nat): (r: string)
    ensures r != [] && AllDigits(r) && DigitsValue(r) == n
    ensures n > 0 ==> r[0] != '0'
    decreases n
  {
    if n < 10 then [DigitChar(n)]
    else
      var prefix := NatToString(n / 10);
      var r := prefix + [DigitChar(n % 10)];
      assert r[..|r| - 1] == prefix;
      r
  }

  /** strconv.Itoa / fmt's %d. */
  function Itoa(n: int): string {
    if n < 0 then "-" + NatToString(-n) else NatToString(n)
  }

  /** Formatting a 64-bit integer and parsing it back gives the same integer. */
  lemma AtoiItoa(n: int)
    requires MinInt64 <= n <= MaxInt64
    ensures Atoi(Itoa(n)) == Some(n)
  {
    var s := Itoa(n);
    if n < 0 {
      assert s[1..] == NatToString(-n);
    } else {
      assert IsDigit(s[0]);
    }
  }
}
