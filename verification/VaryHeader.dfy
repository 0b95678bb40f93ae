/** `patchVaryHeaders` (`src/common/http/django-cors.middleware.ts`) and what a response's hooks make of
    `Vary` together. */
module VaryHeader {
  import opened Options
  import opened Bytes
  import opened ResponseHooks

  // ---------------------------------------------------------------------
  // The header's text
  // ---------------------------------------------------------------------

  /** `split(',')`, then `trim()`, then no empty fields. */
  function ParseVary(value: string): seq<string> {
    var comma := IndexOf(value, ",", 0);
    if comma == -1 then Keep(Trim(value))
    else Keep(Trim(value[..comma])) + ParseVary(value[comma + 1..])
  }

  function Keep(field: string): seq<string> {
    if field == "" then [] else [field]
  }

  /** `join(', ')`. */
  function JoinVary(fields: seq<string>): string {
    if fields == [] then ""
    else if |fields| == 1 then fields[0]
    else fields[0] + ", " + JoinVary(fields[1..])
  }

  /** The text, field by field: a comma and a space between two fields, and nothing else. */
  lemma {:induction false} JoinedOneByOne(fields: seq<string>, f: string)
    ensures JoinVary([]) == "" && JoinVary([f]) == f
    ensures fields != [] ==> JoinVary(fields + [f]) == JoinVary(fields) + ", " + f
  {
    if |fields| > 1 {
      JoinedOneByOne(fields[1..], f);
      assert (fields + [f])[1..] == fields[1..] + [f];
    } else if |fields| == 1 {
      assert (fields + [f])[1..] == [f];
    }
  }

  predicate IsFieldName(f: string) {
    f != "" && Trimmed(f) && ',' !in f
  }

  predicate FieldNames(fields: seq<string>) {
    forall i :: 0 <= i < |fields| ==> IsFieldName(fields[i])
  }

  lemma NoComma(s: string)
    requires ',' !in s
    ensures IndexOf(s, ",", 0) == -1
  {
    forall j | 0 <= j < |s|
      ensures !MatchAt(s, ",", j)
    {
      assert s[j] != ',' && s[j..j + 1][0] == s[j];
    }
    NoMatch(s, ",", 0);
  }

  lemma CommaAfter(f: string, rest: string)
    requires ',' !in f
    ensures IndexOf(f + "," + rest, ",", 0) == |f|
  {
    FirstByte(f + "," + rest, ',', |f|);
  }

  /** One field before a comma, with or without the space that follows a comma. */
  lemma ParseStep(field: string, f: string, rest: string)
    requires ',' !in field && Trim(field) == f != ""
    ensures ParseVary(field + "," + rest) == [f] + ParseVary(rest)
  {
    hide IndexOf, Trim;
    CommaAfter(field, rest);
    var all := field + "," + rest;
    assert all[..|field|] == field && all[|field| + 1..] == rest;
  }

  lemma {:induction false} ParsePrefixed(fields: seq<string>)
    requires FieldNames(fields) && fields != []
    ensures ParseVary(JoinVary(fields)) == fields && ParseVary(" " + JoinVary(fields)) == fields
  {
    hide IndexOf, Trim, ParseVary;
    var f := fields[0];
    TrimLeadingSpace(f);
    if |fields| == 1 {
      ParseLast(f, f);
      ParseLast(" " + f, f);
      assert fields == [f];
    } else {
      var rest := " " + JoinVary(fields[1..]);
      ParsePrefixed(fields[1..]);
      ParseStep(f, f, rest);
      ParseStep(" " + f, f, rest);
      assert JoinVary(fields) == f + "," + rest;
      assert " " + JoinVary(fields) == (" " + f) + "," + rest;
      assert fields == [f] + fields[1..];
    }
  }

  lemma ParseLast(field: string, f: string)
    requires ',' !in field && Trim(field) == f != ""
    ensures ParseVary(field) == [f]
  {
    hide IndexOf, Trim;
    NoComma(field);
  }

  /** What is written is read back: the header text stands for its list of fields. */
  lemma ParseUndoesJoin(fields: seq<string>)
    requires FieldNames(fields)
    ensures ParseVary(JoinVary(fields)) == fields
  {
    if fields == [] { NoComma(""); } else { ParsePrefixed(fields); }
  }

  // ---------------------------------------------------------------------
  // Merging
  // ---------------------------------------------------------------------

  predicate Has(fields: seq<string>, name: string) {
    exists i :: 0 <= i < |fields| && Lower(fields[i]) == Lower(name)
  }

  /** No field twice, up to case. */
  predicate DuplicateFree(fields: seq<string>) {
    forall i, j :: 0 <= i < j < |fields| ==> Lower(fields[i]) != Lower(fields[j])
  }

  function Merged(existing: seq<string>, names: seq<string>): seq<string> {
    if names == [] then existing
    else
      var rest, last := Merged(existing, names[..|names| - 1]), names[|names| - 1];
      if Has(rest, last) then rest else rest + [last]
  }

  function Patched(existing: seq<string>, names: seq<string>): seq<string> {
    if "*" in existing || "*" in names then ["*"] else Merged(existing, names)
  }

  /** The loop of `patchVaryHeaders`, on the header's text. */
  method PatchVaryHeaders(current: Option<string>, newHeaders: seq<string>) returns (value: string)
    ensures value == JoinVary(Patched(Fields(current), newHeaders))
  {
    hide Has, Lower, ParseVary;
    var existing := if current.Some? then ParseVary(current.value) else [];
    if "*" in existing || "*" in newHeaders { return "*"; }
    var seen := set i | 0 <= i < |existing| :: Lower(existing[i]);
    var merged := existing;
    SeenAtFirst(existing);
    var k := 0;
    while k < |newHeaders|
      invariant 0 <= k <= |newHeaders| && merged == Merged(existing, newHeaders[..k])
      invariant forall name :: Lower(name) in seen <==> Has(merged, name)
    {
      var field := newHeaders[k];
      assert newHeaders[..k + 1][..k] == newHeaders[..k];
      if Lower(field) !in seen {
        SeenGrows(merged, seen, field);
        seen := seen + {Lower(field)};
        merged := merged + [field];
      }
      k := k + 1;
    }
    assert newHeaders[..|newHeaders|] == newHeaders;
    return JoinVary(merged);
  }

  lemma SeenAtFirst(existing: seq<string>)
    ensures forall name :: Lower(name) in (set i | 0 <= i < |existing| :: Lower(existing[i])) <==> Has(existing, name)
  {}

  lemma SeenGrows(merged: seq<string>, seen: set<string>, field: string)
    requires forall name :: Lower(name) in seen <==> Has(merged, name)
    ensures forall name :: Lower(name) in seen + {Lower(field)} <==> Has(merged + [field], name)
  {
    forall name
      ensures Lower(name) in seen + {Lower(field)} <==> Has(merged + [field], name)
    {
      if Has(merged, name) {
        var i :| 0 <= i < |merged| && Lower(merged[i]) == Lower(name);
        assert (merged + [field])[i] == merged[i];
      }
      if Lower(name) == Lower(field) { assert (merged + [field])[|merged|] == field; }
      if Has(merged + [field], name) {
        var i :| 0 <= i < |merged| + 1 && Lower((merged + [field])[i]) == Lower(name);
        if i < |merged| { assert Has(merged, name); }
      }
    }
  }

  lemma HasKept(fields: seq<string>, more: seq<string>, name: string)
    requires fields <= more
    ensures Has(fields, name) ==> Has(more, name)
  {}

  lemma OneMoreField(fields: seq<string>, last: string)
    requires !Has(fields, last)
    ensures Has(fields + [last], last) && (DuplicateFree(fields) ==> DuplicateFree(fields + [last]))
  {
    assert (fields + [last])[|fields|] == last;
  }

  /** Merging keeps what is there, in place and in its own case; adds each new name that is missing and no
      other; and never duplicates one. */
  lemma {:induction false} MergedFacts(existing: seq<string>, names: seq<string>)
    ensures existing <= Merged(existing, names)
    ensures forall n :: n in names ==> Has(Merged(existing, names), n)
    ensures forall f :: f in Merged(existing, names)[|existing|..] ==> f in names && !Has(existing, f)
    ensures DuplicateFree(existing) ==> DuplicateFree(Merged(existing, names))
  {
    hide Has, DuplicateFree;
    if names != [] {
      var n := |names| - 1;
      MergedFacts(existing, names[..n]);
      var rest, last, all := Merged(existing, names[..n]), names[n], Merged(existing, names);
      assert names == names[..n] + [last];
      forall m | m in names
        ensures Has(all, m)
      {
        HasKept(rest, all, m);
        if m == last && !Has(rest, last) { OneMoreField(rest, last); }
      }
      if !Has(rest, last) {
        HasKept(existing, rest, last);
        OneMoreField(rest, last);
        assert all[|existing|..] == rest[|existing|..] + [last];
      }
    }
  }

  // ---------------------------------------------------------------------
  // A response whose hooks patch Vary
  // ---------------------------------------------------------------------

  /** What is read is field names, whatever the text. */
  lemma {:induction false} ParsedAreFieldNames(value: string)
    ensures FieldNames(ParseVary(value))
    decreases |value|
  {
    hide Trim;
    var comma := IndexOf(value, ",", 0);
    if comma == -1 {
      TrimFacts(value);
      assert ',' !in value by { NoCommaFound(value); }
    } else {
      TrimFacts(value[..comma]);
      assert ',' !in value[..comma] by { NoCommaBefore(value, comma); }
      ParsedAreFieldNames(value[comma + 1..]);
    }
  }

  lemma NoCommaFound(value: string)
    requires IndexOf(value, ",", 0) == -1
    ensures ',' !in value
  {
    forall i | 0 <= i < |value|
      ensures value[i] != ','
    {
      assert !MatchAt(value, ",", i);
      assert value[i..i + 1] == [value[i]];
    }
  }

  lemma NoCommaBefore(value: string, comma: nat)
    requires IndexOf(value, ",", 0) == comma <= |value|
    ensures ',' !in value[..comma]
  {
    forall i | 0 <= i < comma
      ensures value[i] != ','
    {
      assert !MatchAt(value, ",", i);
      assert value[i..i + 1] == [value[i]];
    }
  }

  lemma ParsedAtComma(a: string, b: string)
    requires ',' !in a
    ensures ParseVary(a + "," + b) == ParseVary(a) + ParseVary(b)
    ensures ParseVary(a) == if Trim(a) == "" then [] else [Trim(a)]
  {
    hide Trim, IndexOf, MatchAt;
    NoComma(a);
    CommaAfter(a, b);
    var all := a + "," + b;
    assert all[..|a|] == a && all[|a| + 1..] == b;
  }

  /** Reading, comma by comma: the text on either side of any comma is read on its own, and text without one is
      its trimmed self or, when nothing is left, no field. */
  lemma {:induction false} ParsedOneByOne(a: string, b: string)
    ensures ParseVary(a + "," + b) == ParseVary(a) + ParseVary(b)
    ensures ',' !in a ==> ParseVary(a) == if Trim(a) == "" then [] else [Trim(a)]
    decreases |a|
  {
    hide Trim, IndexOf, MatchAt, ParseVary;
    if ',' !in a {
      ParsedAtComma(a, b);
    } else {
      var comma := IndexOf(a, ",", 0);
      OneByte(a, ',', 0);
      var first, rest := a[..comma], a[comma + 1..];
      assert ',' !in first;
      assert a == first + "," + rest && a + "," + b == first + "," + (rest + "," + b);
      ParsedOneByOne(rest, b);
      ParsedAtComma(first, rest);
      ParsedAtComma(first, rest + "," + b);
    }
  }

  lemma {:induction false} MergedAreFieldNames(existing: seq<string>, names: seq<string>)
    requires FieldNames(existing) && FieldNames(names)
    ensures FieldNames(Merged(existing, names))
  {
    hide IsFieldName, Has;
    if names != [] { MergedAreFieldNames(existing, names[..|names| - 1]); }
  }

  lemma PatchedAreFieldNames(existing: seq<string>, names: seq<string>)
    requires FieldNames(existing) && FieldNames(names)
    ensures FieldNames(Patched(existing, names))
  {
    hide Merged;
    MergedAreFieldNames(existing, names);
    assert IsFieldName("*");
  }

  function Fields(text: Option<string>): seq<string> {
    if text.Some? then ParseVary(text.value) else []
  }

  /** The header's text after the hooks that ran: each reads it, patches it and writes it back. */
  function TextAfter(text: Option<string>, run: seq<seq<string>>): Option<string> {
    if run == [] then text
    else Some(JoinVary(Patched(Fields(TextAfter(text, run[..|run| - 1])), run[|run| - 1])))
  }

  /** The same on lists of fields, with no text in between. */
  function VaryAfter(existing: seq<string>, run: seq<seq<string>>): seq<string> {
    if run == [] then existing else Patched(VaryAfter(existing, run[..|run| - 1]), run[|run| - 1])
  }

  /** Each hook adds header field names. */
  predicate AddsNames(run: seq<seq<string>>) {
    forall k :: 0 <= k < |run| ==> FieldNames(run[k])
  }

  /** Reading the text back at every patch loses nothing: the text stands for the list all along. */
  lemma {:induction false} TextFollowsFields(text: Option<string>, run: seq<seq<string>>)
    requires AddsNames(run)
    ensures Fields(TextAfter(text, run)) == VaryAfter(Fields(text), run) && FieldNames(VaryAfter(Fields(text), run))
    ensures run != [] ==> TextAfter(text, run) == Some(JoinVary(VaryAfter(Fields(text), run)))
  {
    hide ParseVary, JoinVary, Patched, FieldNames;
    if run == [] {
      if text.Some? { ParsedAreFieldNames(text.value); } else { assert FieldNames([]) by { NoNames(); } }
    } else {
      var n := |run| - 1;
      TextFollowsFields(text, run[..n]);
      PatchedAreFieldNames(VaryAfter(Fields(text), run[..n]), run[n]);
      ParseUndoesJoin(VaryAfter(Fields(text), run));
    }
  }

  lemma NoNames()
    ensures FieldNames([])
  {}

  /** A star in the header or in a hook that ran. */
  predicate Starred(existing: seq<string>, run: seq<seq<string>>) {
    run != [] && ("*" in existing || exists k :: 0 <= k < |run| && "*" in run[k])
  }

  /** A star from any side swallows everything, for good; without one the existing fields stay in front. */
  lemma {:induction false} StarAbsorbs(existing: seq<string>, run: seq<seq<string>>)
    ensures Starred(existing, run) ==> VaryAfter(existing, run) == ["*"]
    ensures !Starred(existing, run) ==> existing <= VaryAfter(existing, run)
    ensures !Starred(existing, run) && "*" !in existing ==> "*" !in VaryAfter(existing, run)
  {
    hide Merged;
    if run != [] {
      var n := |run| - 1;
      StarAbsorbs(existing, run[..n]);
      if k :| 0 <= k < |run| && "*" in run[k] {
        if k < n { assert "*" in run[..n][k]; }
      } else {
        assert forall k :: 0 <= k < n ==> run[..n][k] == run[k];
      }
      var before := VaryAfter(existing, run[..n]);
      MergedFacts(before, run[n]);
      if "*" !in before && "*" !in run[n] { StarOnlyFromNames(before, run[n]); }
    }
  }

  lemma StarOnlyFromNames(existing: seq<string>, names: seq<string>)
    requires "*" !in existing && "*" !in names
    ensures "*" !in Merged(existing, names)
  {
    hide Merged, Has;
    MergedFacts(existing, names);
    var all := Merged(existing, names);
    assert all == existing + all[|existing|..];
  }

  lemma OneField(f: string)
    ensures DuplicateFree([f])
  {}

  lemma PrefixDuplicateFree(a: seq<string>, b: seq<string>)
    requires a <= b && DuplicateFree(b)
    ensures DuplicateFree(a)
  {}

  lemma {:induction false} VaryStaysDuplicateFree(existing: seq<string>, run: seq<seq<string>>)
    requires DuplicateFree(existing)
    ensures DuplicateFree(VaryAfter(existing, run))
  {
    hide Merged, DuplicateFree;
    if run != [] {
      var n := |run| - 1;
      VaryStaysDuplicateFree(existing, run[..n]);
      MergedFacts(VaryAfter(existing, run[..n]), run[n]);
      OneField("*");
    }
  }

  /** No field is repeated in the end, up to case, exactly when none was at first or a star swallows all. */
  lemma DuplicateFreeExactly(existing: seq<string>, run: seq<seq<string>>)
    ensures DuplicateFree(VaryAfter(existing, run)) <==> DuplicateFree(existing) || Starred(existing, run)
  {
    hide DuplicateFree, VaryAfter, Starred;
    StarAbsorbs(existing, run);
    OneField("*");
    if DuplicateFree(existing) {
      VaryStaysDuplicateFree(existing, run);
    } else if !Starred(existing, run) {
      if DuplicateFree(VaryAfter(existing, run)) { PrefixDuplicateFree(existing, VaryAfter(existing, run)); }
    }
  }

  /** `Vary` on the wire, for a response whose hooks add header field names: the written text is that of the
      merged list; it repeats no field, up to case, exactly when the text before repeated none or a star is in
      play; and it does not depend on how registrations at different depths interleave. */
  lemma VaryOfResponse(text: Option<string>, a: seq<Registration<seq<string>>>, b: seq<Registration<seq<string>>>, floor: Floor)
    requires forall i :: 0 <= i < |a| ==> a[i].sequence == i
    requires forall i :: 0 <= i < |b| ==> b[i].sequence == i
    requires forall d: Depth :: AtDepth(a, d) == AtDepth(b, d)
    requires AddsNames(HooksOf(Ordered(a, floor)))
    ensures var run := HooksOf(Ordered(a, floor));
            && TextAfter(text, run) == TextAfter(text, HooksOf(Ordered(b, floor)))
            && (run != [] ==> TextAfter(text, run) == Some(JoinVary(VaryAfter(Fields(text), run))))
            && Fields(TextAfter(text, run)) == VaryAfter(Fields(text), run)
            && (DuplicateFree(Fields(TextAfter(text, run))) <==> DuplicateFree(Fields(text)) || Starred(Fields(text), run))
  {
    hide DuplicateFree, Starred, TextAfter, VaryAfter, Fields, AddsNames, Ordered, HooksOf;
    var run := HooksOf(Ordered(a, floor));
    RunIgnoresInterleaving(a, b, floor);
    TextFollowsFields(text, run);
    DuplicateFreeExactly(Fields(text), run);
  }
}
