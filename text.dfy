/** The string operations the application calls: `includes`, `toLowerCase`,
    `trim` and the comparison behind `localeCompare`. */
module Text {

  /** `pattern` occurs in `text` starting at index `i`. */
  ghost predicate OccursAt(text: string, pattern: string, i: int) {
    0 <= i && i + |pattern| <= |text| && text[i..i + |pattern|] == pattern
  }

  /** `text.includes(pattern)`: a substring test. */
  function Contains(text: string, pattern: string): (b: bool)
    ensures b <==> exists i :: OccursAt(text, pattern, i)
    decreases |text|
  {
    if |pattern| > |text| then
      assert forall i :: !OccursAt(text, pattern, i);
      false
    else if text[..|pattern|] == pattern then
      assert OccursAt(text, pattern, 0);
      true
    else
      var rest := Contains(text[1..], pattern);
      ShiftOccurrence(text, pattern);
      rest
  }

  /** Occurrences in `text` past its first position are the occurrences in
      `text[1..]`, shifted by one. */
  lemma ShiftOccurrence(text: string, pattern: string)
    requires |text| >= |pattern| && text[..|pattern|] != pattern
    ensures (exists i :: OccursAt(text, pattern, i)) <==> (exists j :: OccursAt(text[1..], pattern, j))
  {
    if exists i :: OccursAt(text, pattern, i) {
      var i :| OccursAt(text, pattern, i);
      assert i != 0;
      assert text[1..][i - 1..i - 1 + |pattern|] == text[i..i + |pattern|];
      assert OccursAt(text[1..], pattern, i - 1);
    }
    if exists j :: OccursAt(text[1..], pattern, j) {
      var j :| OccursAt(text[1..], pattern, j);
      assert text[1..][j..j + |pattern|] == text[j + 1..j + 1 + |pattern|];
      assert OccursAt(text, pattern, j + 1);
    }
  }

  /** Every string contains the empty string. */
  lemma ContainsEmpty(text: string)
    ensures Contains(text, [])
  {
    assert OccursAt(text, [], 0);
  }

  /** A string that contains `pattern` contains each part of it. */
  lemma ContainsPart(text: string, pattern: string, part: string)
    requires Contains(text, pattern) && Contains(pattern, part)
    ensures Contains(text, part)
  {
    var i :| OccursAt(text, pattern, i);
    var j :| OccursAt(pattern, part, j);
    forall k | 0 <= k < |part|
      ensures text[i + j..i + j + |part|][k] == part[k]
    {
      assert text[i..i + |pattern|][j + k] == pattern[j + k];
      assert pattern[j..j + |part|][k] == part[k];
    }
    assert text[i + j..i + j + |part|] == part;
    assert OccursAt(text, part, i + j);
  }

  /** `c.toLowerCase()` on the ASCII letters. */
  function LowerChar(c: char): char {
    if 'A' <= c <= 'Z' then (c as int + 32) as char else c
  }

  /** `s.toLowerCase()`: same length, each character lowered. */
  function Lower(s: string): (r: string)
    ensures |r| == |s|
    ensures forall i :: 0 <= i < |s| ==> r[i] == LowerChar(s[i])
  {
    if s == [] then [] else [LowerChar(s[0])] + Lower(s[1..])
  }

  /** Characters `trim` removes (the ASCII white space). */
  predicate IsSpace(c: char) {
    c == ' ' || c == '\t' || c == '\n' || c == '\r' || c == '\U{000B}' || c == '\U{000C}'
  }

  function TrimStart(s: string): (r: string)
    ensures |r| <= |s| && r == s[|s| - |r|..]
    ensures r != [] ==> !IsSpace(r[0])
    ensures forall i :: 0 <= i < |s| - |r| ==> IsSpace(s[i])
  {
    if s != [] && IsSpace(s[0]) then TrimStart(s[1..]) else s
  }

  function TrimEnd(s: string): (r: string)
    ensures |r| <= |s| && r == s[..|r|]
    ensures r != [] ==> !IsSpace(r[|r| - 1])
    ensures forall i :: |r| <= i < |s| ==> IsSpace(s[i])
  {
    if s != [] && IsSpace(s[|s| - 1]) then TrimEnd(s[..|s| - 1]) else s
  }

  /** `s.trim()` */
  function Trim(s: string): string {
    TrimEnd(TrimStart(s))
  }

  /** Lexicographic comparison by character code, the total order that stands
      for `a.localeCompare(b)`: negative, zero or positive. */
  function LexCompare(a: string, b: string): (r: int)
    ensures -1 <= r <= 1
    ensures r == 0 <==> a == b
  {
    if a == [] && b == [] then 0
    else if a == [] then -1
    else if b == [] then 1
    else if a[0] < b[0] then -1
    else if a[0] > b[0] then 1
    else
      assert a == [a[0]] + a[1..] && b == [b[0]] + b[1..];
      LexCompare(a[1..], b[1..])
  }

  /** Swapping the operands negates the comparison. */
  lemma {:induction false} LexCompareFlip(a: string, b: string)
    ensures LexCompare(b, a) == -LexCompare(a, b)
  {
    if a != [] && b != [] && a[0] == b[0] {
      LexCompareFlip(a[1..], b[1..]);
    }
  }

  /** "Not after" is transitive. */
  lemma {:induction false} LexCompareTransitive(a: string, b: string, c: string)
    requires LexCompare(a, b) <= 0 && LexCompare(b, c) <= 0
    ensures LexCompare(a, c) <= 0
  {
    if a != [] && b != [] && c != [] && a[0] == b[0] == c[0] {
      LexCompareTransitive(a[1..], b[1..], c[1..]);
    }
  }
}
