/** The similarity bound the password validators use (`src/password-reset/password-validators.ts`). */
module QuickRatio {
  /** The first loop of `quickRatio`: how often each character of `b` occurs. */
  method CountElements(b: seq<char>) returns (fullBCount: map<char, int>)
    ensures forall c :: c in fullBCount <==> c in multiset(b)
    ensures forall c :: c in fullBCount ==> fullBCount[c] == multiset(b)[c]
  {
    fullBCount := map[];
    var i := 0;
    while i < |b|
      invariant 0 <= i <= |b|
      invariant forall c :: c in fullBCount <==> c in multiset(b[..i])
      invariant forall c :: c in fullBCount ==> fullBCount[c] == multiset(b[..i])[c]
    {
      OneMoreElement(b, i);
      fullBCount := fullBCount[b[i] := (if b[i] in fullBCount then fullBCount[b[i]] else 0) + 1];
      i := i + 1;
    }
    assert b[..|b|] == b;
  }

  lemma OneMoreElement(b: seq<char>, i: nat)
    requires i < |b|
    ensures multiset(b[..i + 1]) == multiset(b[..i]) + multiset{b[i]}
  {
    assert b[..i + 1] == b[..i] + [b[i]];
  }

  /** What is left of the counts `full` once `used` is taken out of them, below zero included. */
  ghost predicate Left(avail: map<char, int>, used: multiset<char>, full: multiset<char>) {
    && (forall c :: c in avail <==> c in used)
    && (forall c :: c in avail ==> avail[c] + used[c] == full[c])
  }

  lemma UseUp(avail: map<char, int>, used: multiset<char>, full: multiset<char>, c: char)
    requires Left(avail, used, full)
    ensures var numb := if c in avail then avail[c] else full[c];
            Left(avail[c := numb - 1], used + multiset{c}, full) && (numb > 0 <==> used[c] < full[c])
  {}

  /** The second loop: one match for each character of `a` that is still available. */
  method Matches(a: seq<char>, b: seq<char>) returns (matches: nat)
    ensures matches == |multiset(a) * multiset(b)|
  {
    hide Left;
    var fullBCount := CountElements(b);
    var avail: map<char, int> := map[];
    matches := 0;
    var i := 0;
    ghost var used, full: multiset<char> := multiset{}, multiset(b);
    assert Left(avail, used, full) by { NothingUsed(full); }
    while i < |a|
      invariant 0 <= i <= |a| && used == multiset(a[..i])
      invariant Left(avail, used, full) && matches == |used * full|
    {
      OneMoreElement(a, i);
      MeetGrows(used, full, a[i]);
      UseUp(avail, used, full, a[i]);
      var element := a[i];
      var numb := if element in avail then avail[element] else if element in fullBCount then fullBCount[element] else 0;
      avail := avail[element := numb - 1];
      if numb > 0 { matches := matches + 1; }
      used := used + multiset{element};
      i := i + 1;
    }
    assert a[..|a|] == a;
  }

  lemma NothingUsed(full: multiset<char>)
    ensures Left(map[], multiset{}, full)
  {}

  lemma MeetGrows(x: multiset<char>, y: multiset<char>, c: char)
    ensures |(x + multiset{c}) * y| == |x * y| + if x[c] < y[c] then 1 else 0
  {
    if x[c] < y[c] {
      assert (x + multiset{c}) * y == x * y + multiset{c};
    } else {
      assert (x + multiset{c}) * y == x * y;
    }
  }

  /** The ratio, as a function of how often each character occurs. */
  function Ratio(a: seq<char>, b: seq<char>): real {
    if |a| + |b| == 0 then 1.0
    else 2.0 * |multiset(a) * multiset(b)| as real / (|a| + |b|) as real
  }

  method QuickRatio(a: seq<char>, b: seq<char>) returns (ratio: real)
    ensures ratio == Ratio(a, b)
    ensures ratio * (|a| + |b|) as real == 2.0 * |multiset(a) * multiset(b)| as real
    ensures |a| + |b| == 0 ==> ratio == 1.0
  {
    var total := |a| + |b|;
    if total == 0 {
      assert a == b == [];
      return 1.0;
    }
    var matches := Matches(a, b);
    return 2.0 * matches as real / total as real;
  }

  // ---------------------------------------------------------------------
  // What the ratio says
  // ---------------------------------------------------------------------

  predicate Permutation(a: seq<char>, b: seq<char>) {
    multiset(a) == multiset(b)
  }

  /** `s` can be read off `a` left to right. */
  predicate Subsequence(s: seq<char>, a: seq<char>) {
    s == [] || (a != [] && (if s[0] == a[0] then Subsequence(s[1..], a[1..]) else Subsequence(s, a[1..])))
  }

  /** Order does not count on either side, and neither does which side is which. */
  lemma RatioIgnoresOrder(a: seq<char>, b: seq<char>, a': seq<char>, b': seq<char>)
    requires Permutation(a, a') && Permutation(b, b')
    ensures Ratio(a, b) == Ratio(a', b') == Ratio(b, a)
  {
    assert |a| == |multiset(a)| == |a'| && |b| == |multiset(b)| == |b'|;
    assert multiset(a) * multiset(b) == multiset(b) * multiset(a);
  }

  lemma MeetBounds(x: multiset<char>, y: multiset<char>)
    ensures |x * y| <= |x| && |x * y| <= |y|
    ensures |x * y| == |x| == |y| ==> x == y
  {
    var restX, restY := x - x * y, y - x * y;
    assert x == x * y + restX && y == x * y + restY;
    if |x * y| == |x| == |y| {
      assert |restX| == 0 && |restY| == 0;
    }
  }

  /** The ratio lies between 0 and 1, and is 1 exactly for permutations. */
  lemma RatioBounds(a: seq<char>, b: seq<char>)
    ensures 0.0 <= Ratio(a, b) <= 1.0
    ensures Ratio(a, b) == 1.0 <==> Permutation(a, b)
  {
    var x, y := multiset(a), multiset(b);
    assert |x| == |a| && |y| == |b|;
    MeetBounds(x, y);
    if |a| + |b| > 0 {
      Fraction(|x * y|, |a| + |b|);
    } else {
      assert a == [] && b == [];
    }
    if Permutation(a, b) { assert x * y == x; }
  }

  lemma Fraction(m: nat, n: nat)
    requires 0 < n && 2 * m <= n
    ensures 0.0 <= 2.0 * m as real / n as real <= 1.0
    ensures 2.0 * m as real / n as real == 1.0 <==> 2 * m == n
  {}

  lemma {:induction false} SubsequenceCounts(s: seq<char>, a: seq<char>)
    requires Subsequence(s, a)
    ensures multiset(s) <= multiset(a)
  {
    if s != [] {
      assert a == [a[0]] + a[1..] && s == [s[0]] + s[1..];
      if s[0] == a[0] { SubsequenceCounts(s[1..], a[1..]); } else { SubsequenceCounts(s, a[1..]); }
    }
  }

  lemma SubsequenceMeets(s: seq<char>, a: seq<char>, b: seq<char>)
    requires Subsequence(s, a) && Subsequence(s, b)
    ensures |s| <= |multiset(a) * multiset(b)|
  {
    SubsequenceCounts(s, a);
    SubsequenceCounts(s, b);
    var x, z := multiset(a) * multiset(b), multiset(s);
    assert z * x == z;
    MeetBounds(z, x);
    assert |z| == |s|;
  }

  /** It bounds the order-sensitive ratio from above: every common subsequence counts in full. */
  lemma RatioCoversSubsequences(s: seq<char>, a: seq<char>, b: seq<char>)
    requires Subsequence(s, a) && Subsequence(s, b) && |a| + |b| > 0
    ensures Ratio(a, b) >= 2.0 * |s| as real / (|a| + |b|) as real
  {
    SubsequenceMeets(s, a, b);
    MoreOver(|s|, |multiset(a) * multiset(b)|, |a| + |b|);
  }

  lemma MoreOver(m: nat, k: nat, n: nat)
    requires m <= k && n > 0
    ensures 2.0 * m as real / n as real <= 2.0 * k as real / n as real
  {}
}
