/** Byte strings and the few buffer operations both HTTP parsers use. A byte is a character of
    ISO-8859-1, which is how the source itself moves between buffers and strings. */
module Bytes {

  type Bytes = string

  predicate MatchAt(s: Bytes, p: Bytes, k: int) {
    0 <= k && k + |p| <= |s| && s[k..k + |p|] == p
  }

  predicate Contains(s: Bytes, p: Bytes) {
    exists k :: 0 <= k <= |s| && MatchAt(s, p, k)
  }

  /** `Buffer.indexOf`: the first match at or after `from`, or -1. */
  function IndexOf(s: Bytes, p: Bytes, from: nat): (k: int)
    ensures k == -1 || (from <= k && MatchAt(s, p, k))
    ensures forall j :: from <= j && (k == -1 || j < k) ==> !MatchAt(s, p, j)
    decreases |s| - from
  {
    if from + |p| > |s| then -1
    else if s[from..from + |p|] == p then from
    else IndexOf(s, p, from + 1)
  }

  /** The first match is where there is a match and none before it. */
  lemma FirstMatch(s: Bytes, p: Bytes, from: nat, k: nat)
    requires from <= k && MatchAt(s, p, k)
    requires forall j :: from <= j < k ==> !MatchAt(s, p, j)
    ensures IndexOf(s, p, from) == k
  {}

  lemma NoMatch(s: Bytes, p: Bytes, from: nat)
    requires forall j :: from <= j ==> !MatchAt(s, p, j)
    ensures IndexOf(s, p, from) == -1
  {}

  lemma FirstByte(s: Bytes, b: char, k: nat)
    requires k < |s| && s[k] == b && forall j :: 0 <= j < k ==> s[j] != b
    ensures IndexOf(s, [b], 0) == k
  {
    assert s[k..k + 1] == [b];
    forall j | 0 <= j < k
      ensures !MatchAt(s, [b], j)
    {
      assert s[j..j + 1][0] == s[j];
    }
    FirstMatch(s, [b], 0, k);
  }

  /** Looking for one byte finds its first place, or says that there is none. */
  lemma OneByte(s: Bytes, b: char, from: nat)
    requires from <= |s|
    ensures var k := IndexOf(s, [b], from);
            && (k == -1 || (from <= k < |s| && s[k] == b))
            && forall j :: from <= j < (if k == -1 then |s| else k) ==> s[j] != b
  {
    var k := IndexOf(s, [b], from);
    if k >= 0 { assert s[k..k + 1][0] == s[k]; }
    forall j | from <= j < (if k == -1 then |s| else k)
      ensures s[j] != b
    {
      assert !MatchAt(s, [b], j);
      assert s[j..j + 1] == [s[j]];
    }
  }

  function CountByte(s: Bytes, b: char): nat {
    if s == [] then 0 else (if s[|s| - 1] == b then 1 else 0) + CountByte(s[..|s| - 1], b)
  }

  lemma {:induction false} CountAppend(s: Bytes, t: Bytes, b: char)
    ensures CountByte(s + t, b) == CountByte(s, b) + CountByte(t, b)
  {
    if t == [] {
      assert s + t == s;
    } else {
      assert (s + t)[..|s + t| - 1] == s + t[..|t| - 1];
      CountAppend(s, t[..|t| - 1], b);
    }
  }

  /** Counting is what the multiset does. */
  lemma {:induction false} CountIsMultiplicity(s: Bytes, b: char)
    ensures CountByte(s, b) == multiset(s)[b]
  {
    if s != [] {
      CountIsMultiplicity(s[..|s| - 1], b);
      assert s == s[..|s| - 1] + [s[|s| - 1]];
    }
  }

  lemma {:induction false} CountAbsent(s: Bytes, b: char)
    requires b !in s
    ensures CountByte(s, b) == 0
  {
    if s != [] { CountAbsent(s[..|s| - 1], b); }
  }

  /** `bytes.strip()`: ASCII whitespace only. */
  predicate IsAsciiSpace(c: char) {
    c in {' ', '\t', '\n', '\r', 11 as char, 12 as char}
  }

  function Strip(s: Bytes): (r: Bytes) {
    if s != [] && IsAsciiSpace(s[0]) then Strip(s[1..])
    else if s != [] && IsAsciiSpace(s[|s| - 1]) then Strip(s[..|s| - 1])
    else s
  }

  /** No whitespace at either end. */
  predicate Stripped(s: Bytes) {
    s != [] ==> !IsAsciiSpace(s[0]) && !IsAsciiSpace(s[|s| - 1])
  }

  /** The two index loops of `stripAsciiWhitespace`. */
  method StripAsciiWhitespace(value: Bytes) returns (r: Bytes)
    ensures r == Strip(value) && Stripped(r)
  {
    var start, end := 0, |value|;
    assert value[start..end] == value;
    while start < end && IsAsciiSpace(value[start])
      invariant 0 <= start <= end == |value|
      invariant Strip(value) == Strip(value[start..end])
    {
      assert value[start..end][1..] == value[start + 1..end];
      start := start + 1;
    }
    while end > start && IsAsciiSpace(value[end - 1])
      invariant start <= end <= |value|
      invariant start < end ==> !IsAsciiSpace(value[start])
      invariant Strip(value) == Strip(value[start..end])
    {
      assert value[start..end][..end - start - 1] == value[start..end - 1];
      end := end - 1;
    }
    r := value[start..end];
  }

  /** What is stripped: a stretch of the six ASCII whitespace bytes at either end, as long as it goes. */
  lemma {:induction false} StripExactly(s: Bytes) returns (i: nat, j: nat)
    ensures i <= j <= |s| && Strip(s) == s[i..j]
    ensures forall k :: 0 <= k < |s| && (k < i || j <= k) ==> s[k] as int in {9, 10, 11, 12, 13, 32}
    ensures i < j ==> s[i] as int !in {9, 10, 11, 12, 13, 32} && s[j - 1] as int !in {9, 10, 11, 12, 13, 32}
  {
    i, j := 0, |s|;
    if s != [] && IsAsciiSpace(s[0]) {
      i, j := StripExactly(s[1..]);
      i, j := i + 1, j + 1;
      assert forall k :: 1 <= k < |s| ==> s[k] == s[1..][k - 1];
    } else if s != [] && IsAsciiSpace(s[|s| - 1]) {
      i, j := StripExactly(s[..|s| - 1]);
    }
  }

  lemma StripLeadingSpace(s: Bytes)
    requires Stripped(s)
    ensures Strip(s) == s && Strip(" " + s) == s
  {}

  /** `String.trim()` on ISO-8859-1 text: ASCII whitespace and the no-break space. */
  function Trim(s: Bytes): Bytes {
    if s != [] && (IsAsciiSpace(s[0]) || s[0] == 160 as char) then Trim(s[1..])
    else if s != [] && (IsAsciiSpace(s[|s| - 1]) || s[|s| - 1] == 160 as char) then Trim(s[..|s| - 1])
    else s
  }

  /** No space that `trim()` removes at either end. */
  predicate Trimmed(s: Bytes) {
    s != [] ==> !IsAsciiSpace(s[0]) && s[0] != 160 as char && !IsAsciiSpace(s[|s| - 1]) && s[|s| - 1] != 160 as char
  }

  lemma {:induction false} TrimFacts(s: Bytes)
    ensures Trimmed(Trim(s)) && forall c :: c in Trim(s) ==> c in s
  {
    if s != [] && (IsAsciiSpace(s[0]) || s[0] == 160 as char) {
      TrimFacts(s[1..]);
    } else if s != [] && (IsAsciiSpace(s[|s| - 1]) || s[|s| - 1] == 160 as char) {
      TrimFacts(s[..|s| - 1]);
    }
  }

  /** What is trimmed: the same, and the no-break space. */
  lemma {:induction false} TrimExactly(s: Bytes) returns (i: nat, j: nat)
    ensures i <= j <= |s| && Trim(s) == s[i..j]
    ensures forall k :: 0 <= k < |s| && (k < i || j <= k) ==> s[k] as int in {9, 10, 11, 12, 13, 32, 160}
    ensures i < j ==> s[i] as int !in {9, 10, 11, 12, 13, 32, 160} && s[j - 1] as int !in {9, 10, 11, 12, 13, 32, 160}
  {
    i, j := 0, |s|;
    if s != [] && (IsAsciiSpace(s[0]) || s[0] == 160 as char) {
      i, j := TrimExactly(s[1..]);
      i, j := i + 1, j + 1;
      assert forall k :: 1 <= k < |s| ==> s[k] == s[1..][k - 1];
    } else if s != [] && (IsAsciiSpace(s[|s| - 1]) || s[|s| - 1] == 160 as char) {
      i, j := TrimExactly(s[..|s| - 1]);
    }
  }

  lemma TrimLeadingSpace(s: Bytes)
    requires Trimmed(s)
    ensures Trim(s) == s && Trim(" " + s) == s
  {
    assert (" " + s)[1..] == s;
  }

  /** `toLowerCase()` on ISO-8859-1 text. */
  function LowerByte(c: char): char {
    if 'A' <= c <= 'Z' then (c as int + 32) as char
    else if 0xC0 <= c as int <= 0xDE && c as int != 0xD7 then (c as int + 32) as char
    else c
  }

  function Lower(s: Bytes): (r: Bytes)
    ensures |r| == |s| && forall i :: 0 <= i < |s| ==> r[i] == LowerByte(s[i])
  {
    seq(|s|, i requires 0 <= i < |s| => LowerByte(s[i]))
  }

  /** Lowercasing keeps the length, is done once and for all, and moves a byte exactly when it is one of
      A to Z or of the accented capitals from 0xC0 to 0xDE without the multiplication sign. */
  lemma LowerExactly(s: Bytes)
    ensures |Lower(s)| == |s| && Lower(Lower(s)) == Lower(s)
    ensures forall i :: 0 <= i < |s| ==>
              var before, after := s[i] as int, Lower(s)[i] as int;
              if 65 <= before <= 90 || (192 <= before <= 222 && before != 215) then after == before + 32 else after == before
  {
    assert forall i :: 0 <= i < |s| ==> Lower(Lower(s))[i] == Lower(s)[i];
  }
}
