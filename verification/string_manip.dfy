/** The string helpers: strtok-style splitting, upper-casing and whitespace
    stripping.  Strings are sequences of characters; a C string ends at its
    first NUL character. */
module StringManip {
  import opened Wrappers

  /** The characters a C string keeps: everything before the first NUL. */
  function CStr(s: string): (r: string)
    ensures |r| <= |s| && r == s[..|r|]
    ensures '\0' !in r
    ensures |r| < |s| ==> s[|r|] == '\0'
  {
    if s == [] || s[0] == '\0' then [] else [s[0]] + CStr(s[1..])
  }

  /** The length of the longest prefix of `s` free of delimiters. */
  function RunLength(s: string, delims: string): (n: nat)
    ensures n <= |s|
    ensures forall i :: 0 <= i < n ==> s[i] !in delims
    ensures n < |s| ==> s[n] in delims
  {
    if s == [] || s[0] in delims then 0 else 1 + RunLength(s[1..], delims)
  }

  /** `s` with every delimiter character removed. */
  function Remove(s: string, delims: string): string {
    if s == [] then [] else (if s[0] in delims then [] else [s[0]]) + Remove(s[1..], delims)
  }

  function Concat(ts: seq<string>): string {
    if ts == [] then [] else ts[0] + Concat(ts[1..])
  }

  lemma {:induction false} RemoveAppend(a: string, b: string, delims: string)
    ensures Remove(a + b, delims) == Remove(a, delims) + Remove(b, delims)
    decreases |a|
  {
    if a != [] {
      assert (a + b)[1..] == a[1..] + b;
      RemoveAppend(a[1..], b, delims);
    } else {
      assert a + b == b;
    }
  }

  lemma {:induction false} RemoveKeepsClean(s: string, delims: string)
    requires forall i :: 0 <= i < |s| ==> s[i] !in delims
    ensures Remove(s, delims) == s
    decreases |s|
  {
    if s != [] {
      RemoveKeepsClean(s[1..], delims);
    }
  }

  /** The tokens strtok returns, in order: maximal runs of non-delimiter
      characters.  Runs of delimiters produce no empty tokens. */
  function Tokens(s: string, delims: string): (r: seq<string>)
    ensures forall k :: 0 <= k < |r| ==> |r[k]| > 0
    ensures forall k, m :: 0 <= k < |r| && 0 <= m < |r[k]| ==> r[k][m] !in delims
    ensures Concat(r) == Remove(s, delims)
    decreases |s|
  {
    if s == [] then []
    else if s[0] in delims then
      var r := Tokens(s[1..], delims);
      assert Remove(s, delims) == Remove(s[1..], delims);
      r
    else
      var n := RunLength(s, delims);
      var rest := Tokens(s[n..], delims);
      assert s == s[..n] + s[n..];
      RemoveAppend(s[..n], s[n..], delims);
      RemoveKeepsClean(s[..n], delims);
      assert ([s[..n]] + rest)[1..] == rest;
      [s[..n]] + rest
  }

  /** `split(char*, const char*)` and the overloads taking a `std::string`:
      both arguments are read as C strings. */
  function Split(s: string, delims: string): (r: seq<string>)
    ensures forall k :: 0 <= k < |r| ==> |r[k]| > 0
    ensures forall k, m :: 0 <= k < |r| && 0 <= m < |r[k]| ==> r[k][m] !in CStr(delims)
    ensures Concat(r) == Remove(CStr(s), CStr(delims))
  {
    Tokens(CStr(s), CStr(delims))
  }

  /** The delimiter set of the one-argument overloads (the two overloads
      spell it in different orders). */
  const WHITESPACE: string := " \n\r"
  const WHITESPACE_CHARS: string := " \r\n"

  function SplitWords(s: string): (r: seq<string>)
    ensures forall k :: 0 <= k < |r| ==> |r[k]| > 0
    ensures forall k, m :: 0 <= k < |r| && 0 <= m < |r[k]| ==>
              r[k][m] != ' ' && r[k][m] != '\n' && r[k][m] != '\r'
    ensures Concat(r) == Remove(CStr(s), WHITESPACE)
  {
    assert CStr(WHITESPACE) == WHITESPACE;
    Split(s, WHITESPACE)
  }

  function SplitWordsChars(s: string): seq<string> {
    assert CStr(WHITESPACE_CHARS) == WHITESPACE_CHARS;
    Split(s, WHITESPACE_CHARS)
  }

  /** Tokens depend on the delimiters only as a set of characters. */
  lemma {:induction false} TokensDependOnDelimiterSet(s: string, d1: string, d2: string)
    requires forall c :: c in d1 <==> c in d2
    ensures Tokens(s, d1) == Tokens(s, d2)
    decreases |s|
  {
    if s != [] {
      if s[0] in d1 {
        TokensDependOnDelimiterSet(s[1..], d1, d2);
      } else {
        RunLengthDependsOnDelimiterSet(s, d1, d2);
        TokensDependOnDelimiterSet(s[RunLength(s, d1)..], d1, d2);
      }
    }
  }

  lemma RunLengthDependsOnDelimiterSet(s: string, d1: string, d2: string)
    requires forall c :: c in d1 <==> c in d2
    ensures RunLength(s, d1) == RunLength(s, d2)
  {
  }

  /** Both one-argument overloads split the same way. */
  lemma SplitWordsOverloadsAgree(s: string)
    ensures SplitWords(s) == SplitWordsChars(s)
  {
    assert CStr(WHITESPACE) == WHITESPACE && CStr(WHITESPACE_CHARS) == WHITESPACE_CHARS;
    TokensDependOnDelimiterSet(CStr(s), WHITESPACE, WHITESPACE_CHARS);
  }

  /** Words joined by one delimiter. */
  function Join(ts: seq<string>, sep: char): string {
    if ts == [] then [] else if |ts| == 1 then ts[0] else ts[0] + [sep] + Join(ts[1..], sep)
  }

  lemma {:induction false} RunLengthOfWord(t: string, rest: string, delims: string)
    requires forall m :: 0 <= m < |t| ==> t[m] !in delims
    requires rest == [] || rest[0] in delims
    ensures RunLength(t + rest, delims) == |t|
    decreases |t|
  {
    if t != [] {
      assert (t + rest)[1..] == t[1..] + rest;
      RunLengthOfWord(t[1..], rest, delims);
    } else {
      assert t + rest == rest;
    }
  }

  /** Splitting undoes joining: non-empty, delimiter-free words joined by a
      delimiter are split back into the same words. */
  lemma {:induction false} TokensOfJoin(ts: seq<string>, sep: char, delims: string)
    requires sep in delims
    requires forall k :: 0 <= k < |ts| ==> |ts[k]| > 0
    requires forall k, m :: 0 <= k < |ts| && 0 <= m < |ts[k]| ==> ts[k][m] !in delims
    ensures Tokens(Join(ts, sep), delims) == ts
    decreases |ts|
  {
    if ts == [] {
    } else if |ts| == 1 {
      var t := ts[0];
      RunLengthOfWord(t, [], delims);
      assert t + [] == t;
      assert t[|t|..] == [];
    } else {
      var t := ts[0];
      var rest := [sep] + Join(ts[1..], sep);
      var s := t + rest;
      assert Join(ts, sep) == s;
      RunLengthOfWord(t, rest, delims);
      assert s[..|t|] == t && s[|t|..] == rest;
      assert rest[1..] == Join(ts[1..], sep);
      TokensOfJoin(ts[1..], sep, delims);
      assert Tokens(rest, delims) == Tokens(rest[1..], delims);
      assert ts == [t] + ts[1..];
    }
  }

  // ----------------------------------------------------------------- upper

  /** `toupper` in the C locale: only the ASCII letters a-z change. */
  function ToUpper(c: char): (r: char)
    ensures 'a' <= c <= 'z' ==> 'A' <= r <= 'Z' && r as int == c as int - 32
    ensures !('a' <= c <= 'z') ==> r == c
  {
    if 'a' <= c <= 'z' then (c as int - 32) as char else c
  }

  /** Appends the upper-cased characters one by one, like the source loop. */
  function Upper(s: string): (r: string)
    ensures |r| == |s|
    ensures forall i :: 0 <= i < |s| ==> r[i] == ToUpper(s[i])
  {
    if s == [] then [] else Upper(s[..|s| - 1]) + [ToUpper(s[|s| - 1])]
  }

  /** An upper-cased string has no lower-case ASCII letter, and upper-casing
      it again changes nothing. */
  lemma UpperIdempotent(s: string)
    ensures forall i :: 0 <= i < |s| ==> !('a' <= Upper(s)[i] <= 'z')
    ensures Upper(Upper(s)) == Upper(s)
  {
  }

  /** Upper-casing works character by character, so it distributes over
      concatenation. */
  lemma UpperAppend(a: string, b: string)
    ensures Upper(a + b) == Upper(a) + Upper(b)
  {
  }

  /** `upper` as an in-place loop over the characters. */
  method UpperLoop(s: string) returns (r: string)
    ensures r == Upper(s)
  {
    r := [];
    var i := 0;
    while i < |s|
      invariant 0 <= i <= |s|
      invariant |r| == i
      invariant forall k :: 0 <= k < i ==> r[k] == ToUpper(s[k])
    {
      r := r + [ToUpper(s[i])];
      i := i + 1;
    }
  }

  // ----------------------------------------------------------------- strip

  predicate IsSpace(c: char) {
    c == ' ' || c == '\n' || c == '\r'
  }

  /** The source's scan over the characters: `last` follows the last
      non-space character, and once `first` leaves -1 it follows every
      index. */
  function StripScan(s: string, i: nat, first: int, last: nat): (r: (int, nat))
    requires i <= |s|
    decreases |s| - i
  {
    if i == |s| then (first, last)
    else
      var last' := if !IsSpace(s[i]) then i else last;
      if first == -1 && IsSpace(s[i]) then StripScan(s, i + 1, first, last')
      else StripScan(s, i + 1, i, last')
  }

  /** `std::string::substr(pos, len)`, with the position converted to an
      unsigned size: a position past the end throws `out_of_range`. */
  function Substr(s: string, pos: int, len: nat): (r: Option<string>)
    ensures r.None? <==> !(0 <= pos <= |s|)
    ensures r.Some? ==> 0 <= pos && pos + |r.value| <= |s| && r.value == s[pos..pos + |r.value|]
    ensures r.Some? ==> |r.value| <= len && (|r.value| < len ==> pos + |r.value| == |s|)
  {
    if 0 <= pos <= |s| then Some(s[pos..if pos + len <= |s| then pos + len else |s|]) else None
  }

  function StripAsWritten(s: string): Option<string> {
    var (first, last) := StripScan(s, 0, -1, 0);
    Substr(s, first, last)
  }

  lemma {:induction false} StripScanShape(s: string, i: nat, first: int, last: nat)
    requires i <= |s|
    requires first == -1 <==> forall j :: 0 <= j < i ==> IsSpace(s[j])
    requires first != -1 ==> first == i - 1
    ensures var (f, l) := StripScan(s, i, first, last);
            && (f == -1 <==> forall j :: 0 <= j < |s| ==> IsSpace(s[j]))
            && (f != -1 ==> f == |s| - 1)
    decreases |s| - i
  {
    if i < |s| {
      var last' := if !IsSpace(s[i]) then i else last;
      if first == -1 && IsSpace(s[i]) {
        StripScanShape(s, i + 1, first, last');
      } else {
        StripScanShape(s, i + 1, i, last');
      }
    }
  }

  /** As written, `strip` throws on an empty or all-whitespace string and
      otherwise returns at most the last character of its input. */
  lemma StripAsWrittenKeepsAtMostLastChar(s: string)
    ensures StripAsWritten(s).None? <==> forall j :: 0 <= j < |s| ==> IsSpace(s[j])
    ensures StripAsWritten(s).Some? ==> StripAsWritten(s).value <= s[|s| - 1..]
  {
    StripScanShape(s, 0, -1, 0);
    var (first, last) := StripScan(s, 0, -1, 0);
    if first != -1 {
      var r := Substr(s, first, last);
      assert r.Some? && r.value == s[|s| - 1..|s| - 1 + |r.value|];
    }
  }

  /** Two inputs where the result is not the trimmed string. */
  lemma StripAsWrittenCounterexamples()
    ensures StripAsWritten("  ab  ") == Some(" ")
    ensures StripAsWritten("abc") == Some("c")
    ensures StripAsWritten("   ") == None
  {
    var s := "  ab  ";
    assert StripScan(s, 6, 5, 3) == (5, 3);
    assert StripScan(s, 5, 4, 3) == (5, 3);
    assert StripScan(s, 4, 3, 3) == (5, 3);
    assert StripScan(s, 3, 2, 2) == (5, 3);
    assert StripScan(s, 2, -1, 0) == (5, 3);
    assert StripScan(s, 1, -1, 0) == (5, 3);
    assert StripScan(s, 0, -1, 0) == (5, 3);
    assert Substr(s, 5, 3) == Some(s[5..6]) && s[5..6] == " ";
    var t := "abc";
    assert StripScan(t, 3, 2, 2) == (2, 2);
    assert StripScan(t, 2, 1, 1) == (2, 2);
    assert StripScan(t, 1, 0, 0) == (2, 2);
    assert StripScan(t, 0, -1, 0) == (2, 2);
    assert Substr(t, 2, 2) == Some(t[2..3]) && t[2..3] == "c";
    var u := "   ";
    assert StripScan(u, 3, -1, 0) == (-1, 0);
    assert StripScan(u, 2, -1, 0) == (-1, 0);
    assert StripScan(u, 1, -1, 0) == (-1, 0);
    assert StripScan(u, 0, -1, 0) == (-1, 0);
  }

  /** The number of whitespace characters at the start of `s`. */
  function LeadingSpaces(s: string): (n: nat)
    ensures n <= |s|
    ensures forall j :: 0 <= j < n ==> IsSpace(s[j])
    ensures n < |s| ==> !IsSpace(s[n])
  {
    if s != [] && IsSpace(s[0]) then 1 + LeadingSpaces(s[1..]) else 0
  }

  /** Drops the trailing whitespace. */
  function TrimRight(s: string): (r: string)
    ensures |r| <= |s| && r == s[..|r|]
    ensures forall j :: |r| <= j < |s| ==> IsSpace(s[j])
    ensures r == [] || !IsSpace(r[|r| - 1])
  {
    if s != [] && IsSpace(s[|s| - 1]) then TrimRight(s[..|s| - 1]) else s
  }

  /** Whitespace stripping as the header describes it: the result is the
      part of `s` between its leading and its trailing whitespace. */
  function Strip(s: string): (r: string)
    ensures LeadingSpaces(s) + |r| <= |s|
    ensures r == s[LeadingSpaces(s)..LeadingSpaces(s) + |r|]
    ensures forall j :: LeadingSpaces(s) + |r| <= j < |s| ==> IsSpace(s[j])
    ensures r == [] <==> forall j :: 0 <= j < |s| ==> IsSpace(s[j])
    ensures r != [] ==> !IsSpace(r[0]) && !IsSpace(r[|r| - 1])
  {
    var n := LeadingSpaces(s);
    var r := TrimRight(s[n..]);
    assert forall j :: n + |r| <= j < |s| ==> IsSpace(s[j]) by {
      forall j | n + |r| <= j < |s| ensures IsSpace(s[j]) {
        assert s[j] == s[n..][j - n];
      }
    }
    assert r != [] ==> !IsSpace(r[0]) by {
      if r != [] {
        assert r[0] == s[n];
      }
    }
    r
  }

  /** Stripping twice strips nothing more. */
  lemma StripIdempotent(s: string)
    ensures Strip(Strip(s)) == Strip(s)
  {
    var r := Strip(s);
    if r != [] {
      assert LeadingSpaces(r) == 0;
      assert r[0..] == r;
    }
  }

  /** Stripping keeps a string that has no whitespace at either end. */
  lemma StripKeepsTrimmed(s: string)
    requires s != [] && !IsSpace(s[0]) && !IsSpace(s[|s| - 1])
    ensures Strip(s) == s
  {
  }
}
