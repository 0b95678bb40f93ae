/** A printer for `multipart/form-data` (fields as in section 4.2 of RFC 7578, delimiters as in
    section 5.1.1 of RFC 2046), and the proof that Django's parser inverts it. */
module MultipartRoundTrip {
  import opened Options
  import opened Bytes
  import opened DjangoHeader
  import opened Multipart

  datatype Part =
    | Field(name: Bytes, payload: Bytes)
    | File(name: Bytes, fileName: Bytes, mime: Bytes, payload: Bytes)

  const FORM_DATA: Bytes := "Content-Disposition: form-data"
  const CONTENT_TYPE: Bytes := "Content-Type: "

  function Disposition(p: Part): Bytes {
    PrintHeader(FORM_DATA,
                if p.Field? then [Pair("name", p.name)] else [Pair("name", p.name), Pair("filename", p.fileName)])
  }

  function HeaderLines(p: Part): seq<Bytes> {
    if p.Field? then [Disposition(p)] else [Disposition(p), CONTENT_TYPE + p.mime]
  }

  function JoinLines(lines: seq<Bytes>): Bytes {
    if lines == [] then [] else CRLF + lines[0] + JoinLines(lines[1..])
  }

  /** Everything between two separators, up to the line break that belongs to the second. */
  function PrintPart(p: Part): Bytes {
    JoinLines(HeaderLines(p)) + CRLFCRLF + p.payload
  }

  function PrintRest(parts: seq<Part>, separator: Bytes): Bytes {
    if parts == [] then "--" + CRLF
    else PrintPart(parts[0]) + CRLF + separator + PrintRest(parts[1..], separator)
  }

  function PrintBody(parts: seq<Part>, boundary: Bytes): Bytes {
    DASH_DASH + boundary + PrintRest(parts, DASH_DASH + boundary)
  }

  function PrintContentType(boundary: Bytes): Bytes {
    PrintHeader("multipart/form-data", [Pair("boundary", boundary)])
  }

  // ---------------------------------------------------------------------
  // What the printer demands
  // ---------------------------------------------------------------------

  /** A header line that stays one line: no line break in it, and none started or finished at its ends. */
  predicate OneLine(line: Bytes) {
    line != [] && line[0] !in {'\r', '\n'} && line[|line| - 1] !in {'\r', '\n'} && !Contains(line, CRLF)
  }

  /** Each header line is one line, no piece of the part contains the separator, and the header
      block fits in the first 1024 bytes. */
  ghost predicate Sendable(p: Part, separator: Bytes) {
    && QUOTE !in p.name && Stripped(p.name)
    && (p.File? ==> PlainKey(CONTENT_TYPE + p.mime) && Trim(Lower(p.mime)) == Lower(p.mime)
                    && Trim(" " + Lower(p.mime)) == Lower(p.mime)
                    && QUOTE !in p.fileName && p.fileName != [])
    && (forall i :: 0 <= i < |HeaderLines(p)| ==>
          OneLine(HeaderLines(p)[i]) && !Contains(HeaderLines(p)[i], separator))
    && !Contains(p.payload, separator)
    && |JoinLines(HeaderLines(p))| + 4 <= 1024
  }

  // ---------------------------------------------------------------------
  // The separator is found exactly where it was printed
  // ---------------------------------------------------------------------

  /** The bytes a valid boundary gives the separator: it starts with a dash and holds no CR. */
  predicate Separator(s: Bytes) {
    |s| >= 3 && s[0] == '-' && '\r' !in s
  }

  lemma ValidBoundaryIsSeparator(boundary: Bytes)
    requires IsValidBoundary(boundary)
    ensures Separator(DASH_DASH + boundary)
  {}

  /** A match never straddles a line break: it lies wholly before it or wholly after it. */
  lemma MatchesAvoidLineBreaks(a: Bytes, b: Bytes, s: Bytes, k: int)
    requires Separator(s) && MatchAt(a + CRLF + b, s, k)
    ensures MatchAt(a, s, k) || (k >= |a| + 2 && MatchAt(b, s, k - |a| - 2))
  {
    var t := a + CRLF + b;
    assert t[|a|] == '\r' && t[|a| + 1] == '\n';
    assert forall j :: k <= j < k + |s| ==> t[j] == t[k..k + |s|][j - k] == s[j - k];
    assert !(k <= |a| < k + |s|);
    if k + |s| <= |a| {
      assert t[k..k + |s|] == a[k..k + |s|];
    } else {
      assert t[k] == '-' && k != |a| + 1;
      assert t[k..k + |s|] == b[k - |a| - 2..k - |a| - 2 + |s|];
    }
  }

  lemma MatchIsContained(a: Bytes, s: Bytes, k: int)
    requires !Contains(a, s)
    ensures !MatchAt(a, s, k)
  {}

  lemma MatchStartsInside(b: Bytes, s: Bytes, k: int)
    requires MatchAt(b, s, k)
    ensures k >= 0
  {}

  /** What follows the first line break of a header block and the text after it. */
  function Following(lines: seq<Bytes>, b: Bytes): Bytes {
    if lines == [] then b else lines[0] + CRLF + Following(lines[1..], b)
  }

  lemma {:induction false} BlockThenText(lines: seq<Bytes>, b: Bytes)
    ensures JoinLines(lines) + CRLF + b == CRLF + Following(lines, b)
    ensures |Following(lines, b)| == |JoinLines(lines)| + |b|
  {
    if lines != [] {
      BlockThenText(lines[1..], b);
      assert JoinLines(lines) + CRLF + b == CRLF + lines[0] + (JoinLines(lines[1..]) + CRLF + b);
    } else {
      assert JoinLines(lines) + CRLF + b == CRLF + b;
    }
  }

  lemma {:induction false} NoMatchInLines(lines: seq<Bytes>, b: Bytes, s: Bytes, k: int)
    requires Separator(s) && MatchAt(Following(lines, b), s, k)
    requires forall i :: 0 <= i < |lines| ==> !Contains(lines[i], s)
    ensures var skip := |Following(lines, b)| - |b|; k >= skip && MatchAt(b, s, k - skip)
  {
    hide MatchAt, Contains;
    if lines == [] {
      MatchStartsInside(b, s, k);
      assert Following(lines, b) == b && k - (|Following(lines, b)| - |b|) == k;
    } else {
      MatchesAvoidLineBreaks(lines[0], Following(lines[1..], b), s, k);
      MatchIsContained(lines[0], s, k);
      var rest := lines[1..];
      assert forall i :: 0 <= i < |rest| ==> rest[i] == lines[i + 1];
      NoMatchInLines(rest, b, s, k - |lines[0]| - 2);
      assert k - |lines[0]| - 2 - (|Following(rest, b)| - |b|) == k - (|Following(lines, b)| - |b|);
    }
  }

  lemma NoSeparatorInPart(p: Part, s: Bytes, tail: Bytes, k: int)
    requires Separator(s) && Sendable(p, s)
    requires MatchAt(PrintPart(p) + CRLF + s + tail, s, k)
    ensures k >= |PrintPart(p)| + 2
  {
    hide MatchAt, Contains, HeaderLines, JoinLines, PrintPart, Following;
    var lines := HeaderLines(p);
    var payloadOn := p.payload + CRLF + (s + tail);
    LinesThenPayload(p, s, tail);
    BlockThenText(lines, CRLF + payloadOn);
    MatchAfterBreak(Following(lines, CRLF + payloadOn), s, k);
    NoMatchInLines(lines, CRLF + payloadOn, s, k - 2);
    var k1 := k - 2 - |JoinLines(lines)|;
    MatchAfterBreak(payloadOn, s, k1);
    MatchesAvoidLineBreaks(p.payload, s + tail, s, k1 - 2);
    MatchIsContained(p.payload, s, k1 - 2);
  }

  lemma LinesThenPayload(p: Part, s: Bytes, tail: Bytes)
    ensures PrintPart(p) + CRLF + s + tail ==
            JoinLines(HeaderLines(p)) + CRLF + (CRLF + (p.payload + CRLF + (s + tail)))
    ensures |PrintPart(p)| == |JoinLines(HeaderLines(p))| + 4 + |p.payload|
  {
    hide JoinLines, HeaderLines;
  }

  lemma MatchAfterBreak(b: Bytes, s: Bytes, k: int)
    requires Separator(s) && MatchAt(CRLF + b, s, k)
    ensures k >= 2 && MatchAt(b, s, k - 2)
  {}

  lemma TextAroundSeparator(a: Bytes, s: Bytes, tail: Bytes)
    requires Separator(s)
    ensures var text, at := a + CRLF + s + tail, |a| + 2;
            MatchAt(text, s, at) && text[at] == '-' && text[at - 2..at] == CRLF
            && text[..at - 2] == a && text[at + |s|..] == tail
  {}

  lemma PartEndsAtSeparator(p: Part, s: Bytes, tail: Bytes)
    requires Separator(s) && Sendable(p, s)
    ensures var text, at := PrintPart(p) + CRLF + s + tail, |PrintPart(p)| + 2;
            at < |text| && text[at] == '-' && IndexOf(text, s, 0) == at && TrimEnd(text, at) == at - 2
            && text[..at - 2] == PrintPart(p) && text[at + |s|..] == tail
  {
    hide Sendable, PrintPart, IndexOf, TrimEnd, MatchAt;
    var text, at := PrintPart(p) + CRLF + s + tail, |PrintPart(p)| + 2;
    TextAroundSeparator(PrintPart(p), s, tail);
    forall k | 0 <= k < at
      ensures !MatchAt(text, s, k)
    {
      if MatchAt(text, s, k) { NoSeparatorInPart(p, s, tail, k); }
    }
    FirstMatch(text, s, 0, at);
  }

  function Printed(parts: seq<Part>): seq<Bytes> {
    if parts == [] then ["--" + CRLF] else [PrintPart(parts[0])] + Printed(parts[1..])
  }

  lemma {:induction false} RestSplits(parts: seq<Part>, s: Bytes)
    requires Separator(s) && forall i :: 0 <= i < |parts| ==> Sendable(parts[i], s)
    ensures Chunks(PrintRest(parts, s), s) == Printed(parts)
  {
    hide Sendable, TrimEnd, PrintPart;
    var body := PrintRest(parts, s);
    if parts == [] {
      ClosingDelimiter(s);
    } else {
      var tail := PrintRest(parts[1..], s);
      PartEndsAtSeparator(parts[0], s, tail);
      assert body == PrintPart(parts[0]) + CRLF + s + tail;
      assert forall i :: 0 <= i < |parts[1..]| ==> parts[1..][i] == parts[i + 1];
      RestSplits(parts[1..], s);
    }
  }

  lemma ClosingDelimiter(s: Bytes)
    requires Separator(s)
    ensures Chunks("--" + CRLF, s) == ["--" + CRLF]
  {
    var text: Bytes := "--" + CRLF;
    forall k
      ensures !MatchAt(text, s, k)
    {
      if MatchAt(text, s, k) {
        assert text == "--" + CRLF + [];
        MatchesAvoidLineBreaks("--", [], s, k);
        assert false;
      }
    }
    NoMatch(text, s, 0);
  }

  /** The body splits into an empty preamble, the printed parts in order, and the closing dashes. */
  lemma BodySplits(parts: seq<Part>, boundary: Bytes)
    requires IsValidBoundary(boundary)
    requires forall i :: 0 <= i < |parts| ==> Sendable(parts[i], DASH_DASH + boundary)
    ensures Chunks(PrintBody(parts, boundary), DASH_DASH + boundary) == [[]] + Printed(parts)
  {
    hide Sendable, Printed, PrintRest;
    var s, body := DASH_DASH + boundary, PrintBody(parts, boundary);
    ValidBoundaryIsSeparator(boundary);
    assert body[0..|s|] == s && body[0] == s[0];
    FirstMatch(body, s, 0, 0);
    assert body[|s|..] == PrintRest(parts, s);
    assert body[..TrimEnd(body, 0)] == [];
    RestSplits(parts, s);
  }

  // ---------------------------------------------------------------------
  // A printed part reads back
  // ---------------------------------------------------------------------

  lemma ShiftIntoRest(a: Bytes, rest: Bytes, s: Bytes, k: int)
    requires MatchAt(a + rest, s, k) && k >= |a|
    ensures MatchAt(rest, s, k - |a|)
  {}

  lemma BlankLineBytes(text: Bytes, k: int)
    ensures MatchAt(text, CRLFCRLF, k) ==> text[k..k + 2] == CRLF && text[k] == '\r' && text[k + 2] == '\r'
  {
    if MatchAt(text, CRLFCRLF, k) {
      var m := text[k..k + 4];
      assert m[0] == text[k] && m[2] == text[k + 2] && m[..2] == text[k..k + 2];
    }
  }

  lemma {:induction false} NoBlankLineInHeaders(lines: seq<Bytes>, x: Bytes, k: nat)
    requires forall i :: 0 <= i < |lines| ==> OneLine(lines[i])
    requires k < |JoinLines(lines)|
    ensures !MatchAt(JoinLines(lines) + CRLFCRLF + x, CRLFCRLF, k)
  {
    var line, rest := lines[0], JoinLines(lines[1..]) + CRLFCRLF + x;
    var text := JoinLines(lines) + CRLFCRLF + x;
    assert text == CRLF + line + rest;
    BlankLineBytes(text, k);
    if k < 2 {
      assert text[1] == '\n' && text[2] == line[0];
    } else if k < 2 + |line| {
      assert text[k] == line[k - 2];
      if k - 1 < |line| {
        assert line[k - 2..k] == text[k..k + 2];
        MatchIsContained(line, CRLF, k - 2);
      }
    } else {
      assert forall i :: 0 <= i < |lines[1..]| ==> lines[1..][i] == lines[i + 1];
      NoBlankLineInHeaders(lines[1..], x, k - 2 - |line|);
      if MatchAt(text, CRLFCRLF, k) { ShiftIntoRest(CRLF + line, rest, CRLFCRLF, k); }
    }
  }

  lemma HeaderBlockEnds(lines: seq<Bytes>, x: Bytes)
    requires forall i :: 0 <= i < |lines| ==> OneLine(lines[i])
    ensures IndexOf(JoinLines(lines) + CRLFCRLF + x, CRLFCRLF, 0) == |JoinLines(lines)|
  {
    hide OneLine;
    var block := JoinLines(lines);
    var text := block + CRLFCRLF + x;
    assert text[|block|..|block| + 4] == CRLFCRLF;
    forall k | 0 <= k < |block|
      ensures !MatchAt(text, CRLFCRLF, k)
    {
      NoBlankLineInHeaders(lines, x, k);
    }
    FirstMatch(text, CRLFCRLF, 0, |block|);
  }

  lemma FirstBreak(line: Bytes, m: Bytes)
    requires !Contains(line, CRLF) && (line != [] ==> line[|line| - 1] != '\r')
    ensures IndexOf(line + CRLF + m, CRLF, 0) == |line|
  {
    var text := line + CRLF + m;
    assert text[|line|..|line| + 2] == CRLF;
    forall k | 0 <= k < |line|
      ensures !MatchAt(text, CRLF, k)
    {
      MatchIsContained(line, CRLF, k);
      if k + 2 <= |line| {
        assert text[k..k + 2] == line[k..k + 2];
      } else {
        assert text[k..k + 2][0] == line[k];
      }
    }
    FirstMatch(text, CRLF, 0, |line|);
  }

  lemma {:induction false} LinesOfJoined(line: Bytes, rest: seq<Bytes>)
    requires !Contains(line, CRLF) && (line != [] ==> line[|line| - 1] != '\r')
    requires forall i :: 0 <= i < |rest| ==> OneLine(rest[i])
    ensures Lines(line + JoinLines(rest)) == [line] + rest
    decreases |rest|
  {
    hide OneLine, IndexOf, MatchAt, Contains, Lines;
    if rest == [] {
      assert line + JoinLines(rest) == line;
      NoBreakMeansOneLine(line);
    } else {
      var m := rest[0] + JoinLines(rest[1..]);
      Regroup(CRLF, rest[0], JoinLines(rest[1..]));
      Regroup(line, CRLF, m);
      LinesStep(line, m);
      assert forall i :: 0 <= i < |rest[1..]| ==> rest[1..][i] == rest[i + 1];
      OneLineFacts(rest[0]);
      LinesOfJoined(rest[0], rest[1..]);
      assert [rest[0]] + rest[1..] == rest;
    }
  }

  lemma LinesStep(line: Bytes, m: Bytes)
    requires !Contains(line, CRLF) && (line != [] ==> line[|line| - 1] != '\r')
    ensures Lines(line + CRLF + m) == [line] + Lines(m)
  {
    hide IndexOf, MatchAt, Contains;
    var text := line + CRLF + m;
    FirstBreak(line, m);
    assert text[..|line|] == line && text[|line| + 2..] == m;
  }

  lemma OneLineFacts(line: Bytes)
    requires OneLine(line)
    ensures !Contains(line, CRLF) && line != [] && line[|line| - 1] != '\r'
  {}

  lemma NoBreakMeansOneLine(line: Bytes)
    requires !Contains(line, CRLF)
    ensures IndexOf(line, CRLF, 0) == -1 && Lines(line) == [line]
  {}

  /** The printed part is cut back into its header lines (after one empty line) and its payload. */
  lemma PartIsCutBack(unquote: Unquote, p: Part, s: Bytes)
    requires Sendable(p, s)
    ensures var lines := [[]] + HeaderLines(p);
            var kind := KindOf(unquote, lines);
            PartOf(unquote, PrintPart(p)) ==
            if kind == NoDisposition then Raw else Item(kind == FileKind, MetaOf(unquote, lines), p.payload)
  {
    hide HeaderLines, KindOf, MetaOf, OneLine;
    var lines, part := HeaderLines(p), PrintPart(p);
    var block := JoinLines(lines);
    HeaderBlockEnds(lines, p.payload);
    if |part| > MAX_HEADER_SIZE {
      var x := part[|block| + 4..MAX_HEADER_SIZE];
      assert part[..MAX_HEADER_SIZE] == block + CRLFCRLF + x;
      HeaderBlockEnds(lines, x);
    }
    assert part[..|block|] == block && part[|block| + 4..] == p.payload;
    assert [] + block == block;
    NoBreakInNothing();
    LinesOfJoined([], lines);
  }

  lemma NoBreakInNothing()
    ensures !Contains([], CRLF)
  {}

  lemma LowerFormData()
    ensures Lower(FORM_DATA) == "content-disposition: form-data"
  {}

  lemma LowerContentType(mime: Bytes)
    ensures Lower(CONTENT_TYPE + mime) == "content-type: " + Lower(mime)
  {}

  lemma LowerMultipart()
    ensures Lower("multipart/form-data") == "multipart/form-data"
  {}

  lemma PlainNames()
    ensures PlainName("name") && PlainName("filename") && PlainName("boundary")
  {}

  lemma EmptyLineIsIgnored(unquote: Unquote)
    ensures HeaderOf(unquote, []) == Some(ParsedHeader([], map[]))
    ensures KindOf(unquote, [[]]) == NoDisposition && MetaOf(unquote, [[]]) == map[]
  {
    HeaderRoundTrip(unquote, [], []);
    assert PrintHeader([], []) == [];
    var blank: seq<Bytes> := [[]];
    assert blank[..0] == [];
  }

  function Params(p: Part): map<Bytes, Bytes> {
    if p.Field? then map["name" := p.name] else map["name" := p.name, "filename" := p.fileName]
  }

  lemma DispositionReads(unquote: Unquote, p: Part)
    requires QUOTE !in p.name && (p.File? ==> QUOTE !in p.fileName)
    ensures HeaderOf(unquote, Disposition(p)) == Some(ParsedHeader("content-disposition: form-data", Params(p)))
  {
    LowerFormData();
    PlainNames();
    hide Lower, PlainName;
    assert PlainKey(FORM_DATA);
    if p.Field? {
      var pairs := [Pair("name", p.name)];
      assert MapOf(pairs, map[]) == MapOf([], map["name" := p.name]);
      HeaderRoundTrip(unquote, FORM_DATA, pairs);
    } else {
      var pairs := [Pair("name", p.name), Pair("filename", p.fileName)];
      assert pairs[1..] == [Pair("filename", p.fileName)];
      assert MapOf(pairs[1..], map["name" := p.name]) == MapOf([], Params(p));
      HeaderRoundTrip(unquote, FORM_DATA, pairs);
    }
  }

  lemma DispositionColon()
    ensures IndexOf("content-disposition: form-data", ":", 0) == 19
    ensures "content-disposition: form-data"[..19] == "content-disposition"
  {
    hide IndexOf, MatchAt;
    FirstByte("content-disposition: form-data", ':', 19);
  }

  lemma TypeColon(mime: Bytes)
    ensures IndexOf("content-type: " + mime, ":", 0) == 12
    ensures ("content-type: " + mime)[..12] == "content-type" && ("content-type: " + mime)[13..] == " " + mime
  {
    hide IndexOf, MatchAt;
    FirstByte("content-type: " + mime, ':', 12);
  }

  lemma PartReads(unquote: Unquote, p: Part, s: Bytes)
    requires Sendable(p, s)
    ensures var r := PartOf(unquote, PrintPart(p));
            && r.Item? && r.isFile == p.File? && r.payload == p.payload
            && "content-disposition" in r.meta && r.meta["content-disposition"].params == Params(p)
            && (p.File? ==> "content-type" in r.meta && r.meta["content-type"].value == " " + Lower(p.mime))
            && "content-transfer-encoding" !in r.meta
  {
    hide HeaderOf, Disposition, JoinLines, PartOf, PrintPart, Sendable, KindOf, MetaOf;
    SendableFacts(p, s);
    PartIsCutBack(unquote, p, s);
    var one := [[], Disposition(p)];
    DispositionLine(unquote, p);
    if p.Field? {
      assert [[]] + HeaderLines(p) == one;
    } else {
      TypeLine(unquote, p);
      assert [[]] + HeaderLines(p) == [[], Disposition(p), CONTENT_TYPE + p.mime];
    }
  }

  lemma SendableFacts(p: Part, s: Bytes)
    requires Sendable(p, s)
    ensures QUOTE !in p.name && Stripped(p.name)
    ensures p.File? ==> PlainKey(CONTENT_TYPE + p.mime) && QUOTE !in p.fileName && p.fileName != []
    ensures p.File? ==> Trim(" " + Lower(p.mime)) == Lower(p.mime)
  {}

  /** After the empty line and the disposition, the part is a field or a file with its own parameters. */
  lemma DispositionLine(unquote: Unquote, p: Part)
    requires QUOTE !in p.name && (p.File? ==> QUOTE !in p.fileName && p.fileName != [])
    ensures KindOf(unquote, [[], Disposition(p)]) == if p.File? then FileKind else FieldKind
    ensures MetaOf(unquote, [[], Disposition(p)]) == map["content-disposition" := MetaValue(" form-data", Params(p))]
  {
    hide NextKind, NextMeta, Disposition;
    EmptyLineIsIgnored(unquote);
    DispositionSteps(unquote, p);
    var one := [[], Disposition(p)];
    assert one[..1] == [[]];
  }

  lemma DispositionSteps(unquote: Unquote, p: Part)
    requires QUOTE !in p.name && (p.File? ==> QUOTE !in p.fileName && p.fileName != [])
    ensures NextKind(unquote, Disposition(p), NoDisposition) == if p.File? then FileKind else FieldKind
    ensures NextMeta(unquote, Disposition(p), map[]) == map["content-disposition" := MetaValue(" form-data", Params(p))]
  {
    hide HeaderOf, Disposition, IndexOf;
    DispositionReads(unquote, p);
    DispositionColon();
    assert "content-disposition: form-data"[20..] == " form-data";
  }

  lemma TypeLine(unquote: Unquote, p: Part)
    requires p.File? && QUOTE !in p.name && QUOTE !in p.fileName && p.fileName != [] && PlainKey(CONTENT_TYPE + p.mime)
    ensures KindOf(unquote, [[], Disposition(p), CONTENT_TYPE + p.mime]) == FileKind
    ensures MetaOf(unquote, [[], Disposition(p), CONTENT_TYPE + p.mime]) ==
            map["content-disposition" := MetaValue(" form-data", Params(p)),
                "content-type" := MetaValue(" " + Lower(p.mime), map[])]
  {
    DispositionLine(unquote, p);
    TypeLineReads(unquote, p.mime);
    TypeColon(Lower(p.mime));
    hide HeaderOf, Disposition, IndexOf, Lower;
    var two := [[], Disposition(p), CONTENT_TYPE + p.mime];
    assert two[..2] == [[], Disposition(p)];
  }

  lemma TypeLineReads(unquote: Unquote, mime: Bytes)
    requires PlainKey(CONTENT_TYPE + mime)
    ensures HeaderOf(unquote, CONTENT_TYPE + mime) == Some(ParsedHeader("content-type: " + Lower(mime), map[]))
  {
    HeaderRoundTrip(unquote, CONTENT_TYPE + mime, []);
    assert PrintHeader(CONTENT_TYPE + mime, []) == CONTENT_TYPE + mime;
    LowerContentType(mime);
  }

  // ---------------------------------------------------------------------
  // The round trip
  // ---------------------------------------------------------------------

  /** The payloads of the fields called `name`, in the order they were printed. */
  function FieldValues(parts: seq<Part>, name: Bytes): seq<Bytes> {
    if parts == [] then []
    else (if parts[0].Field? && parts[0].name == name then [parts[0].payload] else [])
         + FieldValues(parts[1..], name)
  }

  function FilesOf(parts: seq<Part>): seq<UploadedFile> {
    if parts == [] then []
    else (if parts[0].File?
          then [UploadedFile(parts[0].name, parts[0].fileName, Lower(parts[0].mime), parts[0].payload)] else [])
         + FilesOf(parts[1..])
  }

  function FieldBytes(parts: seq<Part>): nat {
    if parts == [] then 0
    else (if parts[0].Field? then |parts[0].payload| + |parts[0].name| + 2 else 0) + FieldBytes(parts[1..])
  }

  function Fields(parts: seq<Part>): nat {
    if parts == [] then 0 else (if parts[0].Field? then 1 else 0) + Fields(parts[1..])
  }

  /** `fields` is `before` with the values of `parts` appended under their own names. */
  ghost predicate Appended(parts: seq<Part>, before: map<Bytes, seq<Bytes>>, fields: map<Bytes, seq<Bytes>>) {
    forall name :: AppendedAt(parts, before, fields, name)
  }

  ghost predicate AppendedAt(parts: seq<Part>, before: map<Bytes, seq<Bytes>>, fields: map<Bytes, seq<Bytes>>, name: Bytes) {
    && (name in fields <==> name in before || FieldValues(parts, name) != [])
    && (name in fields ==> fields[name] == (if name in before then before[name] else []) + FieldValues(parts, name))
  }

  lemma TakePrinted(codecs: Codecs, p: Part, s: Bytes, st: State)
    requires Sendable(p, s) && (p.File? ==> SanitizeFileName(codecs, p.fileName) == Some(p.fileName))
    requires 0 <= st.bytesRead <= MAX_MEMORY_SIZE
    ensures Take(codecs, PartOf(codecs.unquote, PrintPart(p)), st) == TakenPart(p, st)
  {
    hide PartOf, PrintPart, Sendable, SanitizeFileName, Trim, Strip, Lower, Append, PlainKey;
    PartReads(codecs.unquote, p, s);
    SendableFacts(p, s);
    StripLeadingSpace(p.name);
  }

  /** What collecting the printed parts from `st` must end in. */
  ghost predicate Collected(parts: seq<Part>, st: State, r: Progress) {
    if st.bytesRead + FieldBytes(parts) <= MAX_MEMORY_SIZE && st.postKeys + Fields(parts) <= MAX_FIELDS
    then r.Going? && Appended(parts, st.fields, r.state.fields) && r.state.files == st.files + FilesOf(parts)
    else r == Refused(TooManyFields) || r == Refused(TooMuchData)
  }

  /** What taking one printed part does. */
  function TakenPart(p: Part, st: State): Progress {
    if p.File? then
      Going(st.(files := st.files + [UploadedFile(p.name, p.fileName, Lower(p.mime), p.payload)]))
    else if st.postKeys + 1 > MAX_FIELDS then Refused(TooManyFields)
    else if st.bytesRead + |p.payload| + |p.name| + 2 > MAX_MEMORY_SIZE then Refused(TooMuchData)
    else
      Going(State(Append(st.fields, p.name, p.payload), st.files, st.bytesRead + |p.payload| + |p.name| + 2, st.postKeys + 1))
  }

  lemma CollectedStep(parts: seq<Part>, st: State, r: Progress)
    requires parts != []
    requires match TakenPart(parts[0], st)
             case Refused(_) => r == TakenPart(parts[0], st)
             case Going(next) => Collected(parts[1..], next, r)
    ensures Collected(parts, st, r)
  {
    hide Appended, Append, FilesOf;
    var p := parts[0];
    FilesStep(parts, st.files);
    if r.Going? && TakenPart(p, st).Going? {
      AppendedStep(parts, st.fields, TakenPart(p, st).state.fields, r.state.fields);
    }
  }

  lemma FilesStep(parts: seq<Part>, before: seq<UploadedFile>)
    requires parts != []
    ensures var p := parts[0];
            before + FilesOf(parts) ==
            (if p.File? then before + [UploadedFile(p.name, p.fileName, Lower(p.mime), p.payload)] else before)
            + FilesOf(parts[1..])
  {}

  lemma Regroup<T>(a: seq<T>, b: seq<T>, c: seq<T>)
    ensures a + (b + c) == (a + b) + c
  {}

  lemma {:induction false} CollectPrinted(codecs: Codecs, parts: seq<Part>, s: Bytes, st: State)
    requires forall i :: 0 <= i < |parts| ==> Sendable(parts[i], s)
    requires forall i :: 0 <= i < |parts| && parts[i].File? ==>
               SanitizeFileName(codecs, parts[i].fileName) == Some(parts[i].fileName)
    requires 0 <= st.bytesRead <= MAX_MEMORY_SIZE && 0 <= st.postKeys <= MAX_FIELDS
    ensures Collected(parts, st, Collect(codecs, ParseAll(codecs.unquote, Printed(parts)), st))
  {
    hide Sendable, PartOf, PrintPart, Take, SanitizeFileName, Collect, ParseAll, Appended;
    if parts == [] {
      ClosingIsRaw(codecs, st);
      NothingAppended(st.fields);
    } else {
      hide Collected, TakenPart, FilesOf;
      var p, rest := parts[0], parts[1..];
      TakePrinted(codecs, p, s, st);
      CollectStep(codecs, PrintPart(p), Printed(rest), st);
      assert forall i :: 0 <= i < |rest| ==> rest[i] == parts[i + 1];
      if TakenPart(p, st).Going? {
        TakenStaysInBudget(p, st);
        CollectPrinted(codecs, rest, s, TakenPart(p, st).state);
      }
      CollectedStep(parts, st, Collect(codecs, ParseAll(codecs.unquote, Printed(parts)), st));
    }
  }

  lemma TakenStaysInBudget(p: Part, st: State)
    requires 0 <= st.bytesRead <= MAX_MEMORY_SIZE && 0 <= st.postKeys <= MAX_FIELDS && TakenPart(p, st).Going?
    ensures var next := TakenPart(p, st).state;
            0 <= next.bytesRead <= MAX_MEMORY_SIZE && 0 <= next.postKeys <= MAX_FIELDS
  {}

  lemma NothingAppended(fields: map<Bytes, seq<Bytes>>)
    ensures Appended([], fields, fields)
  {}

  lemma CollectStep(codecs: Codecs, chunk: Bytes, chunks: seq<Bytes>, st: State)
    ensures Collect(codecs, ParseAll(codecs.unquote, [chunk] + chunks), st) ==
            match Take(codecs, PartOf(codecs.unquote, chunk), st)
            case Refused(reason) => Refused(reason)
            case Going(next) => Collect(codecs, ParseAll(codecs.unquote, chunks), next)
  {}

  lemma AppendedStep(parts: seq<Part>, before: map<Bytes, seq<Bytes>>, next: map<Bytes, seq<Bytes>>,
                     after: map<Bytes, seq<Bytes>>)
    requires parts != [] && Appended(parts[1..], next, after)
    requires next == if parts[0].Field? then Append(before, parts[0].name, parts[0].payload) else before
    ensures Appended(parts, before, after)
  {
    forall name
      ensures AppendedAt(parts, before, after, name)
    {
      assert AppendedAt(parts[1..], next, after, name);
    }
  }

  lemma ClosingIsRaw(codecs: Codecs, st: State)
    ensures Collect(codecs, ParseAll(codecs.unquote, Printed([])), st) == Going(st)
  {}

  lemma PreambleIsRaw(codecs: Codecs, chunks: seq<Bytes>, st: State)
    ensures Collect(codecs, ParseAll(codecs.unquote, [[]] + chunks), st) ==
            Collect(codecs, ParseAll(codecs.unquote, chunks), st)
  {}

  /** Round trip: parsing a printed list of named parts returns the same parts, in order, with
      identical bytes, exactly when the fields are within the two budgets; otherwise it refuses. */
  lemma MultipartRoundTrip(codecs: Codecs, parts: seq<Part>, boundary: Bytes)
    requires IsValidBoundary(boundary) && QUOTE !in boundary
    requires forall i :: 0 <= i < |parts| ==> Sendable(parts[i], DASH_DASH + boundary)
    requires forall i :: 0 <= i < |parts| && parts[i].File? ==>
               SanitizeFileName(codecs, parts[i].fileName) == Some(parts[i].fileName)
    ensures var r := UploadOf(codecs, PrintContentType(boundary), PrintBody(parts, boundary));
            if FieldBytes(parts) <= 2621440 && Fields(parts) <= 1000
            then r.Parsed? && Appended(parts, map[], r.fields) && r.files == FilesOf(parts)
            else r == RefusedUpload(TooManyFields) || r == RefusedUpload(TooMuchData)
  {
    hide Sendable, SanitizeFileName, Chunks, Collect, PrintBody, IsValidBoundary, UploadOf, ParseAll, Printed;
    var chunks := Chunks(PrintBody(parts, boundary), DASH_DASH + boundary);
    UploadIsCollected(codecs, PrintBody(parts, boundary), boundary);
    BodySplits(parts, boundary);
    assert chunks == [[]] + Printed(parts);
    PreambleIsRaw(codecs, Printed(parts), START);
    CollectPrinted(codecs, parts, DASH_DASH + boundary, START);
  }

  lemma UploadIsCollected(codecs: Codecs, body: Bytes, boundary: Bytes)
    requires IsValidBoundary(boundary) && QUOTE !in boundary
    ensures UploadOf(codecs, PrintContentType(boundary), body) ==
            match Collect(codecs, ParseAll(codecs.unquote, Chunks(body, DASH_DASH + boundary)), START)
            case Refused(reason) => RefusedUpload(reason)
            case Going(st) => Parsed(st.fields, st.files)
  {
    hide HeaderOf, PrintContentType, Collect, ParseAll, Chunks, IsValidBoundary;
    BoundaryReads(codecs, boundary);
  }

  lemma BoundaryReads(codecs: Codecs, boundary: Bytes)
    requires QUOTE !in boundary
    ensures "multipart/" <= PrintContentType(boundary)
    ensures HeaderOf(codecs.unquote, PrintContentType(boundary)) ==
            Some(ParsedHeader("multipart/form-data", map["boundary" := boundary]))
  {
    LowerMultipart();
    PlainNames();
    hide Lower, PlainName;
    var pairs := [Pair("boundary", boundary)];
    assert MapOf(pairs, map[]) == MapOf([], map["boundary" := boundary]);
    assert PlainKey("multipart/form-data");
    HeaderRoundTrip(codecs.unquote, "multipart/form-data", pairs);
    assert "multipart/" <= "multipart/form-data";
  }
}
