/** `str.lower()` captured by behaviour (`scripts/gen-python-lower-fixture.py`).

    The generator can call the interpreter's `lower()` on strings of one and three characters, and
    nothing else. From those answers it fills three tables, and `model` rebuilds lowercasing from
    the tables alone. This module proves that the rebuilt function is the interpreter's, on every
    string, for every interpreter of CPython's shape. */
module PythonLower {

  type CodePoint = c: int | 0 <= c < 0x110000

  const SIGMA: CodePoint := 0x3A3
  const SMALL_SIGMA: CodePoint := 0x3C3
  const FINAL_SIGMA: CodePoint := 0x3C2
  const SMALL_A: CodePoint := 0x61

  /** What `do_lower` depends on: the full case mapping and the two character properties the
      final-sigma rule reads. Neither property is visible to the generator. */
  datatype Interpreter = Interpreter(
    mapping: CodePoint -> seq<CodePoint>,
    cased: CodePoint -> bool,
    ignorable: CodePoint -> bool)

  // ---------------------------------------------------------------------
  // The interpreter's lower()
  // ---------------------------------------------------------------------

  /** Skips case-ignorable characters backwards from j, then asks whether the next one is cased. */
  predicate CasedBefore(py: Interpreter, s: seq<CodePoint>, j: int)
    requires j < |s|
    decreases j + 1
  {
    j >= 0 && if py.ignorable(s[j]) then CasedBefore(py, s, j - 1) else py.cased(s[j])
  }

  predicate CasedAfter(py: Interpreter, s: seq<CodePoint>, j: nat)
    requires j <= |s|
    decreases |s| - j
  {
    j < |s| && if py.ignorable(s[j]) then CasedAfter(py, s, j + 1) else py.cased(s[j])
  }

  function LowerAt(py: Interpreter, s: seq<CodePoint>, i: nat): seq<CodePoint>
    requires i < |s|
  {
    if s[i] == SIGMA then
      [if CasedBefore(py, s, i - 1) && !CasedAfter(py, s, i + 1) then FINAL_SIGMA else SMALL_SIGMA]
    else py.mapping(s[i])
  }

  function LowerPrefix(py: Interpreter, s: seq<CodePoint>, n: nat): seq<CodePoint>
    requires n <= |s|
  {
    if n == 0 then [] else LowerPrefix(py, s, n - 1) + LowerAt(py, s, n - 1)
  }

  function Lower(py: Interpreter, s: seq<CodePoint>): seq<CodePoint> {
    LowerPrefix(py, s, |s|)
  }

  /** Among the characters before n, the nearest one that is not ignorable is cased. */
  ghost predicate NearestBefore(py: Interpreter, s: seq<CodePoint>, n: nat)
    requires n <= |s|
  {
    exists j :: 0 <= j < n && !py.ignorable(s[j]) && py.cased(s[j]) && forall k :: j < k < n ==> py.ignorable(s[k])
  }

  /** Among those from n on, the same. */
  ghost predicate NearestAfter(py: Interpreter, s: seq<CodePoint>, n: nat)
    requires n <= |s|
  {
    exists j :: n <= j < |s| && !py.ignorable(s[j]) && py.cased(s[j]) && forall k :: n <= k < j ==> py.ignorable(s[k])
  }

  lemma {:induction false} CasedBeforeExactly(py: Interpreter, s: seq<CodePoint>, n: nat)
    requires n <= |s|
    ensures CasedBefore(py, s, n - 1) <==> NearestBefore(py, s, n)
  {
    if n > 0 { CasedBeforeExactly(py, s, n - 1); }
  }

  lemma {:induction false} CasedAfterExactly(py: Interpreter, s: seq<CodePoint>, n: nat)
    requires n <= |s|
    ensures CasedAfter(py, s, n) <==> NearestAfter(py, s, n)
    decreases |s| - n
  {
    if n < |s| { CasedAfterExactly(py, s, n + 1); }
  }

  /** Lowercasing goes character by character. A capital sigma, U+03A3, becomes the final one, U+03C2, exactly when
      the nearest character before it that is not ignorable is cased and the nearest one after it is not; otherwise
      it becomes U+03C3. Every other character becomes its own mapping. */
  lemma LowerStepExactly(py: Interpreter, s: seq<CodePoint>, i: nat)
    requires i < |s|
    ensures LowerPrefix(py, s, 0) == [] && Lower(py, s) == LowerPrefix(py, s, |s|)
    ensures LowerPrefix(py, s, i + 1) ==
            LowerPrefix(py, s, i)
            + if s[i] == 0x3A3 then [if NearestBefore(py, s, i) && !NearestAfter(py, s, i + 1) then 0x3C2 else 0x3C3]
              else py.mapping(s[i])
  {
    CasedBeforeExactly(py, s, i);
    CasedAfterExactly(py, s, i + 1);
    hide CasedBefore, CasedAfter, NearestBefore, NearestAfter;
  }

  // ---------------------------------------------------------------------
  // The tables
  // ---------------------------------------------------------------------

  datatype Class = Cased | Ignorable

  datatype Tables = Tables(
    simple: map<CodePoint, CodePoint>,
    expansions: map<CodePoint, seq<CodePoint>>,
    classes: map<CodePoint, Class>)

  datatype Outcome = Built(tables: Tables) | AssertionFailed(codePoint: CodePoint)

  /** `('a' + SIGMA + ch).lower()`, whose element 1 is the probe t1. */
  function FollowedBy(py: Interpreter, ch: CodePoint): seq<CodePoint> {
    Lower(py, [SMALL_A, SIGMA, ch])
  }

  /** `('a' + ch + SIGMA).lower()`, whose last element is the probe t3. */
  function PrecededBy(py: Interpreter, ch: CodePoint): seq<CodePoint> {
    Lower(py, [SMALL_A, ch, SIGMA])
  }

  /** The letter the probes lean on: cased and not ignorable. */
  predicate ProbeLetterIsCased(py: Interpreter) {
    py.cased(SMALL_A) && !py.ignorable(SMALL_A)
  }

  /** And lowercased to one character. */
  predicate ProbeLetterIsSound(py: Interpreter) {
    ProbeLetterIsCased(py) && |py.mapping(SMALL_A)| == 1
  }

  /** The probes of one character raise nothing and trip neither assertion. */
  predicate ProbesPass(py: Interpreter, ch: CodePoint) {
    && |FollowedBy(py, ch)| >= 2 && |PrecededBy(py, ch)| >= 1
    && var t1, t3 := FollowedBy(py, ch)[1], PrecededBy(py, ch)[|PrecededBy(py, ch)| - 1];
       && t1 in {SMALL_SIGMA, FINAL_SIGMA} && t3 in {SMALL_SIGMA, FINAL_SIGMA}
       && !(t1 == SMALL_SIGMA && t3 == SMALL_SIGMA)
  }

  /** Both probes answered and the table of classes says what they said, below n. */
  ghost predicate Recorded(py: Interpreter, t: Tables, n: int) {
    forall c: CodePoint ::
      && (c < n ==> ProbesPass(py, c))
      && (c in t.classes <==> c < n && PrecededBy(py, c)[|PrecededBy(py, c)| - 1] != SMALL_SIGMA)
      && (c in t.classes ==> t.classes[c] == if FollowedBy(py, c)[1] == SMALL_SIGMA then Cased else Ignorable)
  }

  /** The tables record, for every code point below n, the mapping and the two properties as far
      as the final-sigma rule can tell them apart. */
  ghost predicate Faithful(py: Interpreter, t: Tables, n: int) {
    Mapped(py, t, n) && Classed(py, t, n)
  }

  ghost predicate Mapped(py: Interpreter, t: Tables, n: int) {
    forall c: CodePoint ::
      && (c in t.simple <==> c < n && |Single(py, c)| == 1 && Single(py, c) != [c])
      && (c in t.simple ==> [t.simple[c]] == Single(py, c))
      && (c in t.expansions <==> c < n && |Single(py, c)| != 1)
      && (c in t.expansions ==> t.expansions[c] == Single(py, c))
  }

  ghost predicate Classed(py: Interpreter, t: Tables, n: int) {
    forall c: CodePoint ::
      && (c in t.classes <==> c < n && (py.ignorable(c) || py.cased(c)))
      && (c in t.classes ==> t.classes[c] == if py.ignorable(c) then Ignorable else Cased)
  }

  /** `ch.lower()` of a one-character string. */
  function Single(py: Interpreter, c: CodePoint): seq<CodePoint> {
    Lower(py, [c])
  }

  lemma SingleIsMapping(py: Interpreter, c: CodePoint)
    ensures Single(py, c) == if c == SIGMA then [SMALL_SIGMA] else py.mapping(c)
  {
    var s := [c];
    assert LowerPrefix(py, s, 0) == [];
    assert LowerPrefix(py, s, 1) == [] + LowerAt(py, s, 0);
  }

  lemma ThreeCharacters(py: Interpreter, s: seq<CodePoint>)
    requires |s| == 3
    ensures Lower(py, s) == LowerAt(py, s, 0) + LowerAt(py, s, 1) + LowerAt(py, s, 2)
  {
    assert LowerPrefix(py, s, 1) == LowerPrefix(py, s, 0) + LowerAt(py, s, 0) == LowerAt(py, s, 0);
    assert LowerPrefix(py, s, 2) == LowerPrefix(py, s, 1) + LowerAt(py, s, 1);
  }

  /** The two probes tell the three situations apart, and only those: a cased character that is
      also ignorable answers exactly like an uncased ignorable one. */
  lemma ProbesReadTheProperties(py: Interpreter, ch: CodePoint)
    requires ProbeLetterIsSound(py)
    ensures |FollowedBy(py, ch)| >= 2 && |PrecededBy(py, ch)| >= 1
    ensures FollowedBy(py, ch)[1] in {SMALL_SIGMA, FINAL_SIGMA}
    ensures PrecededBy(py, ch)[|PrecededBy(py, ch)| - 1] in {SMALL_SIGMA, FINAL_SIGMA}
    ensures FollowedBy(py, ch)[1] == SMALL_SIGMA <==> !py.ignorable(ch) && py.cased(ch)
    ensures PrecededBy(py, ch)[|PrecededBy(py, ch)| - 1] == SMALL_SIGMA <==> !py.ignorable(ch) && !py.cased(ch)
  {
    var s, p := [SMALL_A, SIGMA, ch], [SMALL_A, ch, SIGMA];
    ThreeCharacters(py, s);
    ThreeCharacters(py, p);
    assert CasedBefore(py, s, 0) && CasedBefore(py, p, 0);
    assert CasedAfter(py, s, 2) <==> !py.ignorable(ch) && py.cased(ch) by {
      assert !CasedAfter(py, s, 3);
    }
    assert CasedBefore(py, p, 1) <==> py.ignorable(ch) || py.cased(ch);
    assert !CasedAfter(py, p, 3);
  }

  /** If the letter expands, t1 reads the second character of the expansion, the same for every `ch`,
      and so says nothing about `ch`. */
  lemma ExpandingProbeLetterIsBlind(py: Interpreter, ch: CodePoint)
    requires |py.mapping(SMALL_A)| >= 2
    ensures |FollowedBy(py, ch)| >= 2 && FollowedBy(py, ch)[1] == py.mapping(SMALL_A)[1]
  {
    ThreeCharacters(py, [SMALL_A, SIGMA, ch]);
  }

  /** If it vanishes, the probe of the letter itself is too short to index. */
  lemma VanishingProbeLetterRaises(py: Interpreter)
    requires |py.mapping(SMALL_A)| == 0
    ensures !ProbesPass(py, SMALL_A)
  {
    ThreeCharacters(py, [SMALL_A, SIGMA, SMALL_A]);
  }

  /** The other probe needs only a cased letter. */
  lemma LastProbeReads(py: Interpreter, ch: CodePoint)
    requires ProbeLetterIsCased(py)
    ensures |PrecededBy(py, ch)| >= 1
    ensures PrecededBy(py, ch)[|PrecededBy(py, ch)| - 1] ==
            if !py.ignorable(ch) && !py.cased(ch) then SMALL_SIGMA else FINAL_SIGMA
  {
    var p := [SMALL_A, ch, SIGMA];
    ThreeCharacters(py, p);
    assert CasedBefore(py, p, 0);
    assert CasedBefore(py, p, 1) <==> py.ignorable(ch) || py.cased(ch);
    assert !CasedAfter(py, p, 3);
  }

  lemma SoundProbesPass(py: Interpreter, ch: CodePoint)
    requires ProbeLetterIsSound(py)
    ensures ProbesPass(py, ch)
  {
    hide FollowedBy, PrecededBy, ProbeLetterIsSound;
    ProbesReadTheProperties(py, ch);
  }

  /** What the probes said is what the properties are, if the letter is sound. */
  lemma RecordedIsClassed(py: Interpreter, t: Tables, n: int)
    requires ProbeLetterIsSound(py) && Recorded(py, t, n)
    ensures Classed(py, t, n)
  {
    hide FollowedBy, PrecededBy, ProbeLetterIsSound;
    forall c: CodePoint
      ensures c in t.classes <==> c < n && (py.ignorable(c) || py.cased(c))
      ensures c in t.classes ==> t.classes[c] == if py.ignorable(c) then Ignorable else Cased
    {
      ProbesReadTheProperties(py, c);
    }
  }

  lemma MappedNext(py: Interpreter, t: Tables, u: Tables, cp: CodePoint)
    requires Mapped(py, t, cp)
    requires u.simple == if |Single(py, cp)| == 1 && Single(py, cp) != [cp] then t.simple[cp := Single(py, cp)[0]] else t.simple
    requires u.expansions == if |Single(py, cp)| != 1 then t.expansions[cp := Single(py, cp)] else t.expansions
    ensures Mapped(py, u, cp + 1)
  {
    hide Single;
  }

  lemma RecordedNext(py: Interpreter, t: Tables, u: Tables, cp: CodePoint)
    requires Recorded(py, t, cp) && ProbesPass(py, cp)
    requires var t1, t3 := FollowedBy(py, cp)[1], PrecededBy(py, cp)[|PrecededBy(py, cp)| - 1];
             u.classes == if t1 == SMALL_SIGMA then t.classes[cp := Cased]
                          else if t3 == SMALL_SIGMA then t.classes else t.classes[cp := Ignorable]
    ensures Recorded(py, u, cp + 1)
  {
    hide FollowedBy, PrecededBy;
  }

  /** The generator's first loop. Its two assertions never abort a sound interpreter. */
  method BuildTables(py: Interpreter) returns (r: Outcome)
    ensures ProbeLetterIsSound(py) ==> r.Built? && Faithful(py, r.tables, 0x110000)
    ensures r.Built? ==> Recorded(py, r.tables, 0x110000)
    ensures r.AssertionFailed? ==> !ProbesPass(py, r.codePoint)
  {
    hide Lower, Mapped, Classed, Recorded, ProbeLetterIsSound;
    var simple: map<CodePoint, CodePoint> := map[];
    var expansions: map<CodePoint, seq<CodePoint>> := map[];
    var classes: map<CodePoint, Class> := map[];
    var next := 0;
    NothingTabled(py);
    while next < 0x110000
      invariant 0 <= next <= 0x110000
      invariant Mapped(py, Tables(simple, expansions, classes), next)
      invariant Recorded(py, Tables(simple, expansions, classes), next)
    {
      var cp: CodePoint := next;
      ghost var t, sound := Tables(simple, expansions, classes), ProbeLetterIsSound(py);
      var lo := Lower(py, [cp]);
      if lo != [cp] {
        if |lo| == 1 {
          simple := simple[cp := lo[0]];
        } else {
          expansions := expansions[cp := lo];
        }
      }
      var probe1, probe3 := Lower(py, [SMALL_A, SIGMA, cp]), Lower(py, [SMALL_A, cp, SIGMA]);
      if sound { SoundProbesPass(py, cp); }
      if |probe1| < 2 || |probe3| < 1 {
        return AssertionFailed(cp);
      }
      var t1, t3 := probe1[1], probe3[|probe3| - 1];
      if t1 !in {SMALL_SIGMA, FINAL_SIGMA} || t3 !in {SMALL_SIGMA, FINAL_SIGMA} {
        return AssertionFailed(cp);
      }
      if t1 == SMALL_SIGMA && t3 == SMALL_SIGMA {
        return AssertionFailed(cp);
      }
      if t1 == SMALL_SIGMA {
        classes := classes[cp := Cased];
      } else if t3 == SMALL_SIGMA {
      } else {
        classes := classes[cp := Ignorable];
      }
      MappedNext(py, t, Tables(simple, expansions, classes), cp);
      RecordedNext(py, t, Tables(simple, expansions, classes), cp);
      next := next + 1;
    }
    r := Built(Tables(simple, expansions, classes));
    ghost var sound := ProbeLetterIsSound(py);
    if sound { RecordedIsClassed(py, r.tables, next); }
  }

  lemma NothingTabled(py: Interpreter)
    ensures Mapped(py, Tables(map[], map[], map[]), 0) && Recorded(py, Tables(map[], map[], map[]), 0)
  {}

  // ---------------------------------------------------------------------
  // model(): lower() rebuilt from the tables
  // ---------------------------------------------------------------------

  predicate Is(t: Tables, c: CodePoint, kind: Class) {
    c in t.classes && t.classes[c] == kind
  }

  predicate ModelBefore(t: Tables, s: seq<CodePoint>, j: int)
    requires j < |s|
    decreases j + 1
  {
    j >= 0 && if Is(t, s[j], Ignorable) then ModelBefore(t, s, j - 1) else Is(t, s[j], Cased)
  }

  predicate ModelAfter(t: Tables, s: seq<CodePoint>, j: nat)
    requires j <= |s|
    decreases |s| - j
  {
    j < |s| && if Is(t, s[j], Ignorable) then ModelAfter(t, s, j + 1) else Is(t, s[j], Cased)
  }

  function ModelAt(t: Tables, s: seq<CodePoint>, i: nat): seq<CodePoint>
    requires i < |s|
  {
    var cp := s[i];
    if cp == SIGMA then
      [if ModelBefore(t, s, i - 1) && !ModelAfter(t, s, i + 1) then FINAL_SIGMA else SMALL_SIGMA]
    else if cp in t.expansions then t.expansions[cp]
    else if cp in t.simple then [t.simple[cp]]
    else [cp]
  }

  function ModelPrefix(t: Tables, s: seq<CodePoint>, n: nat): seq<CodePoint>
    requires n <= |s|
  {
    if n == 0 then [] else ModelPrefix(t, s, n - 1) + ModelAt(t, s, n - 1)
  }

  method IsFinal(t: Tables, s: seq<CodePoint>, i: nat) returns (final: bool)
    requires i < |s|
    ensures final == (ModelBefore(t, s, i - 1) && !ModelAfter(t, s, i + 1))
  {
    var j: int := i - 1;
    while j >= 0 && Is(t, s[j], Ignorable)
      invariant -1 <= j < i
      invariant ModelBefore(t, s, i - 1) == ModelBefore(t, s, j)
      decreases j
    {
      j := j - 1;
    }
    final := j >= 0 && Is(t, s[j], Cased);
    if final && i + 1 < |s| {
      j := i + 1;
      while j < |s| && Is(t, s[j], Ignorable)
        invariant i + 1 <= j <= |s|
        invariant ModelAfter(t, s, i + 1) == ModelAfter(t, s, j)
      {
        j := j + 1;
      }
      final := j == |s| || !Is(t, s[j], Cased);
    }
  }

  method Model(t: Tables, s: seq<CodePoint>) returns (out: seq<CodePoint>)
    ensures out == ModelPrefix(t, s, |s|)
  {
    out := [];
    var i := 0;
    while i < |s|
      invariant 0 <= i <= |s|
      invariant out == ModelPrefix(t, s, i)
    {
      var cp := s[i];
      if cp == SIGMA {
        var final := IsFinal(t, s, i);
        out := out + [if final then FINAL_SIGMA else SMALL_SIGMA];
      } else if cp in t.expansions {
        out := out + t.expansions[cp];
      } else if cp in t.simple {
        out := out + [t.simple[cp]];
      } else {
        out := out + [cp];
      }
      i := i + 1;
    }
  }

  lemma {:induction false} SameBefore(py: Interpreter, t: Tables, s: seq<CodePoint>, j: int)
    requires Faithful(py, t, 0x110000) && j < |s|
    ensures ModelBefore(t, s, j) == CasedBefore(py, s, j)
    decreases j + 1
  {
    if j >= 0 { SameBefore(py, t, s, j - 1); }
  }

  lemma {:induction false} SameAfter(py: Interpreter, t: Tables, s: seq<CodePoint>, j: nat)
    requires Faithful(py, t, 0x110000) && j <= |s|
    ensures ModelAfter(t, s, j) == CasedAfter(py, s, j)
    decreases |s| - j
  {
    if j < |s| { SameAfter(py, t, s, j + 1); }
  }

  /** The tables determine lowercasing: the function rebuilt from the probes is the interpreter's
      own `lower()`, on every string. */
  lemma {:induction false} ModelIsLower(py: Interpreter, t: Tables, s: seq<CodePoint>, n: nat)
    requires Faithful(py, t, 0x110000) && n <= |s|
    ensures ModelPrefix(t, s, n) == LowerPrefix(py, s, n)
  {
    hide ModelAt, LowerAt, Faithful;
    if n > 0 {
      ModelIsLower(py, t, s, n - 1);
      SameAt(py, t, s, n - 1);
    }
  }

  lemma SameAt(py: Interpreter, t: Tables, s: seq<CodePoint>, i: nat)
    requires Faithful(py, t, 0x110000) && i < |s|
    ensures ModelAt(t, s, i) == LowerAt(py, s, i)
  {
    SingleIsMapping(py, s[i]);
    SameBefore(py, t, s, i - 1);
    SameAfter(py, t, s, i + 1);
    hide Single, ModelBefore, ModelAfter, CasedBefore, CasedAfter, Classed;
  }

  /** A letter or other character before a capital sigma, and nothing after. */
  lemma BeforeSigma(py: Interpreter, t: Tables, c: CodePoint)
    requires c != SIGMA
    ensures var s := [c, SIGMA];
            && Lower(py, s) == py.mapping(c) + [if !py.ignorable(c) && py.cased(c) then FINAL_SIGMA else SMALL_SIGMA]
            && ModelPrefix(t, s, 2) == ModelAt(t, s, 0) + [if Is(t, c, Cased) then FINAL_SIGMA else SMALL_SIGMA]
  {
    var s := [c, SIGMA];
    assert LowerPrefix(py, s, 1) == LowerPrefix(py, s, 0) + LowerAt(py, s, 0) == py.mapping(c);
    assert ModelPrefix(t, s, 1) == ModelPrefix(t, s, 0) + ModelAt(t, s, 0) == ModelAt(t, s, 0);
    assert !CasedAfter(py, s, 2) && !ModelAfter(t, s, 2);
    assert CasedBefore(py, s, 0) <==> !py.ignorable(c) && py.cased(c);
    assert ModelBefore(t, s, 0) <==> Is(t, c, Cased);
  }

  /** With a letter that does not lowercase to one character, the tables misread either the letter
      itself or the given character, which is not both cased and unignorable. */
  lemma UnsoundLetterMisleads(py: Interpreter, t: Tables, u: CodePoint) returns (c: CodePoint)
    requires ProbeLetterIsCased(py) && |py.mapping(SMALL_A)| != 1 && u != SIGMA
    requires py.ignorable(u) || !py.cased(u)
    requires Recorded(py, t, 0x110000)
    ensures ModelPrefix(t, [c, SIGMA], 2) != Lower(py, [c, SIGMA])
  {
    if |py.mapping(SMALL_A)| == 0 { VanishingProbeLetterRaises(py); }
    assert ProbesPass(py, SMALL_A) && ProbesPass(py, u);
    c := if py.mapping(SMALL_A)[1] == SMALL_SIGMA then u else SMALL_A;
    ExpandingProbeLetterIsBlind(py, c);
    LastProbeReads(py, c);
    BeforeSigma(py, t, c);
    Differ(py.mapping(c), Lower(py, [c, SIGMA])[|py.mapping(c)|],
           ModelAt(t, [c, SIGMA], 0), if Is(t, c, Cased) then FINAL_SIGMA else SMALL_SIGMA);
  }

  lemma Differ(a: seq<CodePoint>, x: CodePoint, b: seq<CodePoint>, y: CodePoint)
    requires x != y
    ensures a + [x] != b + [y]
  {
    assert (a + [x])[|a|] == x && (b + [y])[|b|] == y;
  }

  /** Exactly when the method works. For an interpreter in which the letter is cased and unignorable and
      some other character is not, tables that pass the generator's assertions rebuild lowercasing on
      every string if and only if the letter lowercases to one character. */
  lemma ModelIsLowerExactly(py: Interpreter, t: Tables, u: CodePoint)
    requires ProbeLetterIsCased(py) && u != SIGMA && (py.ignorable(u) || !py.cased(u))
    requires Recorded(py, t, 0x110000) && (ProbeLetterIsSound(py) ==> Faithful(py, t, 0x110000))
    ensures (forall s: seq<CodePoint> :: ModelPrefix(t, s, |s|) == Lower(py, s)) <==> |py.mapping(0x61)| == 1
  {
    hide ModelPrefix, LowerPrefix, Recorded, Faithful;
    if |py.mapping(SMALL_A)| == 1 {
      forall s: seq<CodePoint>
        ensures ModelPrefix(t, s, |s|) == Lower(py, s)
      {
        ModelIsLower(py, t, s, |s|);
      }
    } else {
      var c := UnsoundLetterMisleads(py, t, u);
      assert |[c, SIGMA]| == 2;
    }
  }

  /** The generator followed by the model, on any sound interpreter and any string. */
  method GenerateThenLower(py: Interpreter, s: seq<CodePoint>) returns (out: seq<CodePoint>)
    requires ProbeLetterIsSound(py)
    ensures out == Lower(py, s)
  {
    var r := BuildTables(py);
    out := Model(r.tables, s);
    ModelIsLower(py, r.tables, s, |s|);
  }

  // ---------------------------------------------------------------------
  // ranges_of(): how a class is printed
  // ---------------------------------------------------------------------

  datatype Range = Range(first: int, last: int)

  ghost predicate InSome(ranges: seq<Range>, c: int) {
    exists k :: 0 <= k < |ranges| && ranges[k].first <= c <= ranges[k].last
  }

  /** Ascending, non-empty, and separated by at least one code point: no two could be merged. */
  ghost predicate Maximal(ranges: seq<Range>) {
    && (forall k :: 0 <= k < |ranges| ==> ranges[k].first <= ranges[k].last)
    && (forall j, k :: 0 <= j < k < |ranges| ==> ranges[j].last + 1 < ranges[k].first)
  }

  /** The printed ranges hold exactly the class's code points, in the fewest possible ranges. */
  method RangesOf(t: Tables, kind: Class) returns (out: seq<Range>)
    ensures forall c: CodePoint :: InSome(out, c) <==> Is(t, c, kind)
    ensures Maximal(out)
  {
    out := [];
    var next := 0;
    while next < 0x110000
      invariant 0 <= next <= 0x110000
      invariant forall c: CodePoint :: InSome(out, c) <==> c < next && Is(t, c, kind)
      invariant Maximal(out)
      invariant |out| > 0 ==> 0 <= out[|out| - 1].last < next
    {
      var cp: CodePoint := next;
      ghost var before := out;
      if Is(t, cp, kind) {
        if |out| > 0 && out[|out| - 1].last == cp - 1 {
          out := out[|out| - 1 := Range(out[|out| - 1].first, cp)];
        } else {
          out := out + [Range(cp, cp)];
        }
        Extended(before, out, cp);
      }
      next := next + 1;
    }
  }

  lemma Extended(before: seq<Range>, after: seq<Range>, cp: int)
    requires Maximal(before) && (|before| > 0 ==> before[|before| - 1].last < cp)
    requires if |before| > 0 && before[|before| - 1].last == cp - 1
             then after == before[|before| - 1 := Range(before[|before| - 1].first, cp)]
             else after == before + [Range(cp, cp)]
    ensures Maximal(after)
    ensures forall c :: InSome(after, c) <==> InSome(before, c) || c == cp
  {
    hide Maximal, InSome;
    assert Maximal(after) by { ExtendedIsMaximal(before, after, cp); }
    forall c
      ensures InSome(after, c) <==> InSome(before, c) || c == cp
    {
      ExtendedHolds(before, after, cp, c);
    }
  }

  lemma ExtendedIsMaximal(before: seq<Range>, after: seq<Range>, cp: int)
    requires Maximal(before) && (|before| > 0 ==> before[|before| - 1].last < cp)
    requires if |before| > 0 && before[|before| - 1].last == cp - 1
             then after == before[|before| - 1 := Range(before[|before| - 1].first, cp)]
             else after == before + [Range(cp, cp)]
    ensures Maximal(after)
  {}

  lemma ExtendedHolds(before: seq<Range>, after: seq<Range>, cp: int, c: int)
    requires Maximal(before)
    requires if |before| > 0 && before[|before| - 1].last == cp - 1
             then after == before[|before| - 1 := Range(before[|before| - 1].first, cp)]
             else after == before + [Range(cp, cp)]
    ensures InSome(after, c) <==> InSome(before, c) || c == cp
  {
    if InSome(before, c) {
      var k :| 0 <= k < |before| && before[k].first <= c <= before[k].last;
      assert after[k].first <= c <= after[k].last;
    }
    assert after[|after| - 1].first <= cp <= after[|after| - 1].last;
    if InSome(after, c) && c != cp {
      var k :| 0 <= k < |after| && after[k].first <= c <= after[k].last;
      assert k < |before| && before[k].first <= c <= before[k].last;
    }
  }

  /** Two maximal range lists with the same members are the same list: the printed form is canonical. */
  lemma {:induction false} RangesAreCanonical(a: seq<Range>, b: seq<Range>)
    requires Maximal(a) && Maximal(b) && forall c :: InSome(a, c) <==> InSome(b, c)
    ensures a == b
  {
    if |a| == 0 || |b| == 0 {
      if |a| > 0 { assert InSome(a, a[0].first); }
      if |b| > 0 { assert InSome(b, b[0].first); }
    } else {
      FirstRangeAgrees(a, b);
      FirstRangeAgrees(b, a);
      assert a[0] == b[0];
      forall c ensures InSome(a[1..], c) <==> InSome(b[1..], c) {
        TailMembers(a, c);
        TailMembers(b, c);
      }
      RangesAreCanonical(a[1..], b[1..]);
    }
  }

  lemma TailMembers(a: seq<Range>, c: int)
    requires Maximal(a) && |a| > 0
    ensures Maximal(a[1..])
    ensures InSome(a[1..], c) <==> InSome(a, c) && c > a[0].last
  {}

  lemma FirstRangeAgrees(a: seq<Range>, b: seq<Range>)
    requires Maximal(a) && Maximal(b) && |a| > 0 && |b| > 0 && forall c :: InSome(a, c) <==> InSome(b, c)
    ensures b[0].first <= a[0].first && (a[0].first == b[0].first ==> a[0].last <= b[0].last)
  {
    assert InSome(a, a[0].first);
    var c := b[0].last + 1;
    GapAfterFirst(b);
    assert !(a[0].first <= c <= a[0].last);
  }

  lemma GapAfterFirst(b: seq<Range>)
    requires Maximal(b) && |b| > 0
    ensures !InSome(b, b[0].last + 1)
  {}
}
