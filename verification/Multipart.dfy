/** Django's scavenging `multipart/form-data` parser (`src/common/http/django-multipart.ts`). */
module Multipart {
  import opened Options
  import opened Bytes
  import opened DjangoHeader

  const DASH_DASH: Bytes := "--"
  const CRLF: Bytes := "\r\n"
  const CRLFCRLF: Bytes := "\r\n\r\n"
  const MAX_MEMORY_SIZE := 2621440
  const MAX_FIELDS := 1000
  const MAX_HEADER_SIZE := 1024

  /** Foreign decoders: RFC 2231 parameters, base64 (None when undecodable), HTML entities. */
  datatype Codecs = Codecs(unquote: Unquote, base64: Bytes -> Option<Bytes>, htmlUnescape: Bytes -> Bytes)

  datatype MetaValue = MetaValue(value: Bytes, params: map<Bytes, Bytes>)

  datatype Kind = NoDisposition | FieldKind | FileKind

  datatype BoundaryPart = Raw | Item(isFile: bool, meta: map<Bytes, MetaValue>, payload: Bytes)

  // ---------------------------------------------------------------------
  // cgi.valid_boundary
  // ---------------------------------------------------------------------

  function Candidate(value: Bytes): Bytes {
    if value != [] && value[|value| - 1] == '\n' then value[..|value| - 1] else value
  }

  predicate IsValidBoundary(value: Bytes) {
    var c := Candidate(value);
    && 1 <= |c| <= 201
    && (forall i :: 0 <= i < |c| ==> ' ' <= c[i] <= '~')
    && c[|c| - 1] != ' '
  }

  /** One final line feed is not looked at; what is left has 1 to 201 bytes from 32 to 126, the last not a space. */
  lemma ValidBoundaryExactly(value: Bytes)
    ensures IsValidBoundary(value) <==>
            exists n :: 1 <= n <= 201 && (n == |value| || (n == |value| - 1 && value[n] as int == 10))
                        && (forall i :: 0 <= i < n ==> 32 <= value[i] as int <= 126) && value[n - 1] as int != 32
  {
    if IsValidBoundary(value) {
      var n := |Candidate(value)|;
      assert Candidate(value) == value[..n];
      assert forall i :: 0 <= i < n ==> Candidate(value)[i] == value[i];
      assert 1 <= n <= 201 && (n == |value| || (n == |value| - 1 && value[n] as int == 10))
             && (forall i :: 0 <= i < n ==> 32 <= value[i] as int <= 126) && value[n - 1] as int != 32;
    }
    if n :| 1 <= n <= 201 && (n == |value| || (n == |value| - 1 && value[n] as int == 10))
            && (forall i :: 0 <= i < n ==> 32 <= value[i] as int <= 126) && value[n - 1] as int != 32 {
      assert Candidate(value) == value[..n];
    }
  }

  method ValidBoundary(value: Bytes) returns (ok: bool)
    ensures ok == IsValidBoundary(value)
  {
    var candidate := if value != [] && value[|value| - 1] == '\n' then value[..|value| - 1] else value;
    if |candidate| < 1 || |candidate| > 201 {
      return false;
    }
    var i := 0;
    while i < |candidate| - 1
      invariant 0 <= i <= |candidate| - 1
      invariant forall k :: 0 <= k < i ==> ' ' <= candidate[k] <= '~'
    {
      if candidate[i] < ' ' || candidate[i] > '~' {
        return false;
      }
      i := i + 1;
    }
    ok := '!' <= candidate[|candidate| - 1] <= '~';
  }

  // ---------------------------------------------------------------------
  // Cutting the body at the separator
  // ---------------------------------------------------------------------

  /** Backs up from a separator over at most one LF and then at most one CR, with the source's
      clamped index. It never goes below zero, because the separator itself starts with a dash. */
  function TrimEnd(chunk: Bytes, index: nat): (end: nat)
    requires index < |chunk| && chunk[index] == '-'
    ensures end <= index <= end + 2 && chunk[end..index] in {"", "\n", "\r", "\r\n"}
    ensures end == index <==> index == 0 || chunk[index - 1] !in {'\r', '\n'}
    ensures end == index - 2 <==> index >= 2 && chunk[index - 2..index] == "\r\n"
  {
    var beforeLf := if chunk[if index == 0 then 0 else index - 1] == '\n' then index - 1 else index;
    var beforeCr := if chunk[if beforeLf == 0 then 0 else beforeLf - 1] == '\r' then beforeLf - 1 else beforeLf;
    assert beforeCr == index - 1 ==> chunk[beforeCr..index] == [chunk[index - 1]];
    assert beforeCr == index - 2 ==> chunk[beforeCr..index] == [chunk[index - 2], chunk[index - 1]];
    assert index >= 2 && chunk[index - 2..index] == CRLF ==>
             chunk[index - 2..index][0] == chunk[index - 2] && chunk[index - 2..index][1] == chunk[index - 1];
    beforeCr
  }

  method BackUp(chunk: Bytes, index: nat) returns (end: int)
    requires index < |chunk| && chunk[index] == '-'
    ensures end == TrimEnd(chunk, index)
  {
    end := index;
    if chunk[if end == 0 then 0 else end - 1] == '\n' {
      end := end - 1;
    }
    if chunk[if end == 0 then 0 else end - 1] == '\r' {
      end := end - 1;
    }
  }

  function Chunks(body: Bytes, separator: Bytes): seq<Bytes>
    requires separator != [] && separator[0] == '-'
    decreases |body|
  {
    if body == [] then []
    else
      var index := IndexOf(body, separator, 0);
      if index < 0 then [body]
      else
        assert body[index..index + |separator|][0] == body[index];
        [body[..TrimEnd(body, index)]] + Chunks(body[index + |separator|..], separator)
  }

  function ParseAll(unquote: Unquote, chunks: seq<Bytes>): seq<BoundaryPart> {
    if chunks == [] then [] else [PartOf(unquote, chunks[0])] + ParseAll(unquote, chunks[1..])
  }

  lemma {:induction false} ParseAllAppend(unquote: Unquote, chunks: seq<Bytes>, last: Bytes)
    ensures ParseAll(unquote, chunks + [last]) == ParseAll(unquote, chunks) + [PartOf(unquote, last)]
  {
    if chunks != [] {
      assert (chunks + [last])[1..] == chunks[1..] + [last];
      ParseAllAppend(unquote, chunks[1..], last);
    }
  }

  lemma ChunksNext(body: Bytes, position: nat, separator: Bytes)
    requires separator != [] && separator[0] == '-' && position < |body|
    ensures var index := IndexOf(body[position..], separator, 0);
            if index < 0 then Chunks(body[position..], separator) == [body[position..]]
            else && index < |body[position..]| && body[position..][index] == '-'
                 && position + index + |separator| <= |body|
                 && Chunks(body[position..], separator) ==
                    [body[position..][..TrimEnd(body[position..], index)]]
                    + Chunks(body[position + index + |separator|..], separator)
  {
    hide TrimEnd, Chunks, IndexOf, MatchAt;
    var chunk := body[position..];
    ChunksStep(chunk, separator);
    var index := IndexOf(chunk, separator, 0);
    if index >= 0 {
      assert chunk[index + |separator|..] == body[position + index + |separator|..];
    }
  }

  lemma ChunksStep(chunk: Bytes, separator: Bytes)
    requires separator != [] && separator[0] == '-' && chunk != []
    ensures var index := IndexOf(chunk, separator, 0);
            if index < 0 then Chunks(chunk, separator) == [chunk]
            else && index + |separator| <= |chunk| && chunk[index] == '-'
                 && Chunks(chunk, separator) == [chunk[..TrimEnd(chunk, index)]] + Chunks(chunk[index + |separator|..], separator)
  {}

  lemma ChunksDone(body: Bytes, separator: Bytes)
    requires separator != [] && separator[0] == '-'
    ensures Chunks(body[|body|..], separator) == [] && body[0..] == body
  {}

  method SplitOnBoundary(unquote: Unquote, body: Bytes, boundary: Bytes) returns (parts: seq<BoundaryPart>)
    ensures parts == ParseAll(unquote, Chunks(body, DASH_DASH + boundary))
  {
    hide PartOf, IndexOf, TrimEnd, Chunks, MatchAt;
    var separator := DASH_DASH + boundary;
    var position := 0;
    parts := [];
    ghost var taken: seq<Bytes> := [];
    ChunksDone(body, separator);
    while position < |body|
      invariant 0 <= position <= |body|
      invariant Chunks(body, separator) == taken + Chunks(body[position..], separator)
      invariant parts == ParseAll(unquote, taken)
    {
      var chunk := body[position..];
      var index := IndexOf(chunk, separator, 0);
      ChunksNext(body, position, separator);
      if index < 0 {
        var part := ParseBoundaryStream(unquote, chunk);
        ParseAllAppend(unquote, taken, chunk);
        parts := parts + [part];
        return;
      }
      var end := BackUp(chunk, index);
      var part := ParseBoundaryStream(unquote, chunk[..end]);
      ParseAllAppend(unquote, taken, chunk[..end]);
      parts := parts + [part];
      taken := taken + [chunk[..end]];
      position := position + index + |separator|;
    }
    assert taken + [] == taken;
  }

  // ---------------------------------------------------------------------
  // One part: headers in the first KiB, then the payload
  // ---------------------------------------------------------------------

  /** Header blocks that end after the first 1024 bytes are not looked for. */
  lemma LateHeadersAreRaw(unquote: Unquote, part: Bytes)
    requires forall k :: 0 <= k <= 1020 ==> !MatchAt(part, "\r\n\r\n", k)
    ensures PartOf(unquote, part) == Raw
  {
    var chunk := FirstKiB(part);
    forall k
      ensures !MatchAt(chunk, "\r\n\r\n", k)
    {
      if 0 <= k <= |chunk| - 4 {
        assert !MatchAt(part, "\r\n\r\n", k);
        assert part[k..k + 4] == chunk[k..k + 4];
      }
    }
  }

  function Lines(value: Bytes): seq<Bytes>
    decreases |value|
  {
    var k := IndexOf(value, CRLF, 0);
    if k < 0 then [value] else [value[..k]] + Lines(value[k + 2..])
  }

  function NextMeta(unquote: Unquote, line: Bytes, meta: map<Bytes, MetaValue>): map<Bytes, MetaValue> {
    match HeaderOf(unquote, line)
    case None => meta
    case Some(h) =>
      var colon := IndexOf(h.key, ":", 0);
      if colon < 0 then meta else meta[h.key[..colon] := MetaValue(h.key[colon + 1..], h.params)]
  }

  function NextKind(unquote: Unquote, line: Bytes, kind: Kind): Kind {
    match HeaderOf(unquote, line)
    case None => kind
    case Some(h) =>
      var colon := IndexOf(h.key, ":", 0);
      if colon < 0 || h.key[..colon] != "content-disposition" then kind
      else if "filename" in h.params && h.params["filename"] != [] then FileKind
      else FieldKind
  }

  function MetaOf(unquote: Unquote, lines: seq<Bytes>): map<Bytes, MetaValue> {
    if lines == [] then map[] else NextMeta(unquote, lines[|lines| - 1], MetaOf(unquote, lines[..|lines| - 1]))
  }

  function KindOf(unquote: Unquote, lines: seq<Bytes>): Kind {
    if lines == [] then NoDisposition
    else NextKind(unquote, lines[|lines| - 1], KindOf(unquote, lines[..|lines| - 1]))
  }

  function FirstKiB(part: Bytes): Bytes {
    if |part| <= MAX_HEADER_SIZE then part else part[..MAX_HEADER_SIZE]
  }

  /** The header line is called `name`, up to case. */
  predicate Names(unquote: Unquote, line: Bytes, name: Bytes) {
    HeaderOf(unquote, line).Some? && name + ":" <= HeaderOf(unquote, line).value.key
  }

  lemma FirstColon(key: Bytes, name: Bytes)
    requires ':' !in name
    ensures var colon := IndexOf(key, ":", 0);
            name + ":" <= key <==> colon >= 0 && key[..colon] == name
  {
    hide IndexOf, MatchAt;
    var colon := IndexOf(key, ":", 0);
    OneByte(key, ':', 0);
    if name + ":" <= key {
      assert key[|name|] == (name + ":")[|name|] == ':';
      assert forall k :: 0 <= k < |name| ==> key[k] == (name + ":")[k] == name[k];
    }
    if colon >= 0 && key[..colon] == name { assert key[..colon + 1] == name + ":"; }
  }

  lemma OneHeaderLine(unquote: Unquote, line: Bytes, name: Bytes, meta: map<Bytes, MetaValue>, kind: Kind)
    requires ':' !in name
    ensures Names(unquote, line, name) ==>
              var h, next := HeaderOf(unquote, line).value, NextMeta(unquote, line, meta);
              && name in next && next[name] == MetaValue(h.key[|name| + 1..], h.params)
              && (name == "content-disposition" ==>
                    NextKind(unquote, line, kind) ==
                    if "filename" in h.params && h.params["filename"] != [] then FileKind else FieldKind)
    ensures !Names(unquote, line, name) ==>
              var next := NextMeta(unquote, line, meta);
              && (name in next <==> name in meta) && (name in meta ==> next[name] == meta[name])
              && (name == "content-disposition" ==> NextKind(unquote, line, kind) == kind)
  {
    hide HeaderOf, IndexOf;
    if HeaderOf(unquote, line).Some? { FirstColon(HeaderOf(unquote, line).value.key, name); }
  }

  /** Of several header lines with one name the last one counts; and the part is a file exactly when the last
      content disposition has a non-empty file name. */
  lemma {:induction false} LastHeaderCounts(unquote: Unquote, lines: seq<Bytes>, name: Bytes, i: nat)
    requires ':' !in name && i < |lines| && Names(unquote, lines[i], name)
    requires forall j :: i < j < |lines| ==> !Names(unquote, lines[j], name)
    ensures var h := HeaderOf(unquote, lines[i]).value;
            && name in MetaOf(unquote, lines) && MetaOf(unquote, lines)[name] == MetaValue(h.key[|name| + 1..], h.params)
            && (name == "content-disposition" ==>
                  KindOf(unquote, lines) == if "filename" in h.params && h.params["filename"] != [] then FileKind else FieldKind)
  {
    hide HeaderOf, NextMeta, NextKind;
    var n := |lines| - 1;
    OneHeaderLine(unquote, lines[n], name, MetaOf(unquote, lines[..n]), KindOf(unquote, lines[..n]));
    if i < n {
      assert forall j :: 0 <= j < n ==> lines[..n][j] == lines[j];
      LastHeaderCounts(unquote, lines[..n], name, i);
    }
  }

  /** A name that no line has is not there, and without a content disposition the part is neither field nor file. */
  lemma {:induction false} NoSuchHeader(unquote: Unquote, lines: seq<Bytes>, name: Bytes)
    requires ':' !in name && forall i :: 0 <= i < |lines| ==> !Names(unquote, lines[i], name)
    ensures name !in MetaOf(unquote, lines) && (name == "content-disposition" ==> KindOf(unquote, lines) == NoDisposition)
  {
    hide HeaderOf, Names, NextMeta, NextKind;
    if lines != [] {
      var n := |lines| - 1;
      assert forall i :: 0 <= i < n ==> lines[..n][i] == lines[i];
      NoSuchHeader(unquote, lines[..n], name);
      OneHeaderLine(unquote, lines[n], name, MetaOf(unquote, lines[..n]), KindOf(unquote, lines[..n]));
    }
  }

  function PartOf(unquote: Unquote, part: Bytes): BoundaryPart {
    var headerEnd := IndexOf(FirstKiB(part), CRLFCRLF, 0);
    if headerEnd == -1 then Raw
    else
      var lines := Lines(part[..headerEnd]);
      var kind := KindOf(unquote, lines);
      if kind == NoDisposition then Raw
      else Item(kind == FileKind, MetaOf(unquote, lines), part[headerEnd + 4..])
  }

  method ParseBoundaryStream(unquote: Unquote, part: Bytes) returns (r: BoundaryPart)
    ensures r == PartOf(unquote, part)
  {
    hide HeaderOf, IndexOf, Lines;
    var chunk := FirstKiB(part);
    var headerEnd := IndexOf(chunk, CRLFCRLF, 0);
    if headerEnd == -1 {
      return Raw;
    }
    var lines := Lines(part[..headerEnd]);
    var kind, meta := NoDisposition, map[];
    var i := 0;
    while i < |lines|
      invariant 0 <= i <= |lines|
      invariant kind == KindOf(unquote, lines[..i]) && meta == MetaOf(unquote, lines[..i])
    {
      assert lines[..i + 1][..i] == lines[..i];
      var parsed := ParseHeader(unquote, lines[i]);
      if parsed.Some? {
        var colon := IndexOf(parsed.value.key, ":", 0);
        if colon >= 0 {
          var name, value := parsed.value.key[..colon], parsed.value.key[colon + 1..];
          if name == "content-disposition" {
            kind := FieldKind;
            if "filename" in parsed.value.params && parsed.value.params["filename"] != [] {
              kind := FileKind;
            }
          }
          meta := meta[name := MetaValue(value, parsed.value.params)];
        }
      }
      i := i + 1;
    }
    assert lines[..|lines|] == lines;
    r := if kind == NoDisposition then Raw else Item(kind == FileKind, meta, part[headerEnd + 4..]);
  }

  // ---------------------------------------------------------------------
  // Fields, files and the byte budget
  // ---------------------------------------------------------------------

  datatype UploadedFile = UploadedFile(fieldName: Bytes, originalName: Bytes, mimeType: Bytes, buffer: Bytes)

  datatype State = State(fields: map<Bytes, seq<Bytes>>, files: seq<UploadedFile>, bytesRead: int, postKeys: int)

  datatype Reason = TooManyFields | TooMuchData | UndecodableFile

  datatype Progress = Going(state: State) | Refused(reason: Reason)

  function AfterLast(s: Bytes, b: char): Bytes {
    var k := IndexOf(s, [b], 0);
    if k < 0 then s else AfterLast(s[k + 1..], b)
  }

  lemma {:induction false} AfterLastExactly(s: Bytes, b: char) returns (k: nat)
    ensures k <= |s| && AfterLast(s, b) == s[k..] && b !in s[k..] && (k > 0 ==> s[k - 1] == b)
    decreases |s|
  {
    hide IndexOf, MatchAt;
    var at := IndexOf(s, [b], 0);
    OneByte(s, b, 0);
    k := 0;
    if at >= 0 {
      k := AfterLastExactly(s[at + 1..], b);
      assert k > 0 ==> s[at + 1..][k - 1] == s[at + k];
      assert s[at + 1..][k..] == s[at + 1 + k..];
      k := at + 1 + k;
    }
  }

  function SanitizeFileName(codecs: Codecs, name: Bytes): Option<Bytes> {
    var base := AfterLast(AfterLast(codecs.htmlUnescape(name), '/'), '\\');
    if base in {"", ".", ".."} then None else Some(base)
  }

  /** The name a file is stored under is what follows the last slash or backslash of either kind; none is left
      of a name that ends there, or in one dot or two. */
  lemma SanitizedExactly(codecs: Codecs, name: Bytes) returns (k: nat)
    ensures var text := codecs.htmlUnescape(name);
            && k <= |text| && '/' !in text[k..] && '\\' !in text[k..] && (k > 0 ==> text[k - 1] in {'/', '\\'})
            && SanitizeFileName(codecs, name) == if text[k..] in {"", ".", ".."} then None else Some(text[k..])
  {
    hide AfterLast;
    var text := codecs.htmlUnescape(name);
    var i := AfterLastExactly(text, '/');
    var j := AfterLastExactly(text[i..], '\\');
    k := i + j;
    assert text[i..][j..] == text[k..];
    assert j > 0 ==> text[i..][j - 1] == text[k - 1];
    assert forall c :: c in text[k..] ==> c in text[i..];
  }

  function Append(fields: map<Bytes, seq<Bytes>>, name: Bytes, value: Bytes): map<Bytes, seq<Bytes>> {
    fields[name := (if name in fields then fields[name] else []) + [value]]
  }

  function IsBase64(meta: map<Bytes, MetaValue>): bool {
    "content-transfer-encoding" in meta && Trim(meta["content-transfer-encoding"].value) == "base64"
  }

  /** The field name, when the part's disposition carries one. */
  function FieldName(part: BoundaryPart): Option<Bytes> {
    if part.Item? && "content-disposition" in part.meta && "name" in part.meta["content-disposition"].params
    then Some(Strip(part.meta["content-disposition"].params["name"]))
    else None
  }

  function Decoded(codecs: Codecs, meta: map<Bytes, MetaValue>, raw: Bytes): Bytes {
    if IsBase64(meta) && codecs.base64(raw).Some? then codecs.base64(raw).value else raw
  }

  /** What one part does to the totals: the field branch reads at most what is left of the budget. */
  function Take(codecs: Codecs, part: BoundaryPart, st: State): Progress {
    match FieldName(part)
    case None => Going(st)
    case Some(name) =>
      if !part.isFile then
        if st.postKeys + 1 > MAX_FIELDS then Refused(TooManyFields)
        else
          var left := if MAX_MEMORY_SIZE < st.bytesRead then 0 else MAX_MEMORY_SIZE - st.bytesRead;
          var raw := if |part.payload| <= left then part.payload else part.payload[..left];
          var bytesRead := st.bytesRead + |raw| + |name| + 2;
          if bytesRead > MAX_MEMORY_SIZE then Refused(TooMuchData)
          else Going(State(Append(st.fields, name, Decoded(codecs, part.meta, raw)), st.files, bytesRead, st.postKeys + 1))
      else TakeFile(codecs, part, name, st)
  }

  function TakeFile(codecs: Codecs, part: BoundaryPart, name: Bytes, st: State): Progress
    requires FieldName(part).Some?
  {
    var params := part.meta["content-disposition"].params;
    if "filename" !in params || params["filename"] == [] then Going(st)
    else
      match SanitizeFileName(codecs, params["filename"])
      case None => Going(st)
      case Some(fileName) =>
        if IsBase64(part.meta) && codecs.base64(part.payload).None? then Refused(UndecodableFile)
        else
          var mime := if "content-type" in part.meta then Trim(part.meta["content-type"].value) else [];
          Going(st.(files := st.files + [UploadedFile(name, fileName, mime, Decoded(codecs, part.meta, part.payload))]))
  }

  /** A part without a disposition, or whose disposition has no name, leaves no trace. */
  lemma NamelessIsSkipped(codecs: Codecs, part: BoundaryPart, st: State)
    requires part.Item? && "content-disposition" in part.meta ==> "name" !in part.meta["content-disposition"].params
    ensures Take(codecs, part, st) == Going(st)
  {}

  /** What a named field does: the 1001st is refused, and so is one whose bytes, name and two more go past
      2.5 MiB in all; otherwise its value goes last under its stripped name and nothing else changes. A base64
      value that cannot be decoded is kept as it came. */
  lemma FieldIsTaken(codecs: Codecs, part: BoundaryPart, st: State)
    requires part.Item? && !part.isFile && "content-disposition" in part.meta
    requires "name" in part.meta["content-disposition"].params && 0 <= st.bytesRead <= 2621440
    ensures var name, r := Strip(part.meta["content-disposition"].params["name"]), Take(codecs, part, st);
            var cost := |part.payload| + |name| + 2;
            if st.postKeys >= 1000 then r == Refused(TooManyFields)
            else if st.bytesRead + cost > 2621440 then r == Refused(TooMuchData)
            else
              && r.Going? && r.state.files == st.files && r.state.fields.Keys == st.fields.Keys + {name}
              && r.state.bytesRead == st.bytesRead + cost && r.state.postKeys == st.postKeys + 1
              && (forall other :: other in st.fields && other != name ==> r.state.fields[other] == st.fields[other])
              && |r.state.fields[name]| > 0
              && r.state.fields[name][..|r.state.fields[name]| - 1] == (if name in st.fields then st.fields[name] else [])
              && r.state.fields[name][|r.state.fields[name]| - 1] ==
                 (if "content-transfer-encoding" in part.meta && Trim(part.meta["content-transfer-encoding"].value) == "base64"
                     && codecs.base64(part.payload).Some?
                  then codecs.base64(part.payload).value else part.payload)
  {
    hide Strip, Trim;
    assert FieldName(part) == Some(Strip(part.meta["content-disposition"].params["name"]));
  }

  /** What a named file does: without a name to store it under it leaves no trace; base64 that cannot be decoded
      refuses the upload; otherwise it goes last, whole, and no budget is charged. */
  lemma FileIsTaken(codecs: Codecs, part: BoundaryPart, st: State)
    requires part.Item? && part.isFile && "content-disposition" in part.meta
    requires "name" in part.meta["content-disposition"].params
    ensures var params, r := part.meta["content-disposition"].params, Take(codecs, part, st);
            var encoded := "content-transfer-encoding" in part.meta
                           && Trim(part.meta["content-transfer-encoding"].value) == "base64";
            if "filename" !in params || params["filename"] == [] || SanitizeFileName(codecs, params["filename"]) == None
            then r == Going(st)
            else if encoded && codecs.base64(part.payload) == None then r == Refused(UndecodableFile)
            else
              && r.Going? && r.state.fields == st.fields && r.state.bytesRead == st.bytesRead && r.state.postKeys == st.postKeys
              && |r.state.files| == |st.files| + 1 && st.files <= r.state.files
              && var file := r.state.files[|st.files|];
                 && file.fieldName == Strip(params["name"])
                 && SanitizeFileName(codecs, params["filename"]) == Some(file.originalName)
                 && file.mimeType == (if "content-type" in part.meta then Trim(part.meta["content-type"].value) else "")
                 && file.buffer == (if encoded then codecs.base64(part.payload).value else part.payload)
  {
    hide Strip, Trim, SanitizeFileName;
    assert FieldName(part) == Some(Strip(part.meta["content-disposition"].params["name"]));
  }

  function Collect(codecs: Codecs, parts: seq<BoundaryPart>, st: State): Progress {
    if parts == [] then Going(st)
    else
      match Take(codecs, parts[0], st)
      case Refused(reason) => Refused(reason)
      case Going(next) => Collect(codecs, parts[1..], next)
  }

  datatype Upload =
    | InvalidContentType
    | HeaderError
    | NoBoundary
    | InvalidBoundary(boundary: Bytes)
    | RefusedUpload(reason: Reason)
    | Parsed(fields: map<Bytes, seq<Bytes>>, files: seq<UploadedFile>)

  const START := State(map[], [], 0, 0)

  function UploadOf(codecs: Codecs, contentType: Bytes, body: Bytes): Upload {
    if !("multipart/" <= contentType) then InvalidContentType
    else
      match HeaderOf(codecs.unquote, contentType)
      case None => HeaderError
      case Some(h) =>
        if "boundary" !in h.params then NoBoundary
        else
          var boundary := h.params["boundary"];
          if !IsValidBoundary(boundary) then InvalidBoundary(boundary)
          else
            match Collect(codecs, ParseAll(codecs.unquote, Chunks(body, DASH_DASH + boundary)), START)
            case Refused(reason) => RefusedUpload(reason)
            case Going(st) => Parsed(st.fields, st.files)
  }

  /** Which upload is refused before its body is read, and which is empty: the content type, its header, its
      boundary parameter and the boundary, in this order. */
  lemma RefusedExactly(codecs: Codecs, contentType: Bytes, body: Bytes)
    ensures var r := UploadOf(codecs, contentType, body);
            && (r.InvalidContentType? <==> !("multipart/" <= contentType))
            && (r.HeaderError? <==> "multipart/" <= contentType && HeaderOf(codecs.unquote, contentType).None?)
            && ("multipart/" <= contentType && HeaderOf(codecs.unquote, contentType).Some? ==>
                  var params := HeaderOf(codecs.unquote, contentType).value.params;
                  && (r.NoBoundary? <==> "boundary" !in params)
                  && (r.InvalidBoundary? <==> "boundary" in params && !IsValidBoundary(params["boundary"]))
                  && (r.InvalidBoundary? ==> r.boundary == params["boundary"])
                  && (body == [] && "boundary" in params && IsValidBoundary(params["boundary"]) ==> r == Parsed(map[], [])))
  {
    hide HeaderOf, Collect, Chunks, ParseAll, IsValidBoundary;
    if "multipart/" <= contentType && HeaderOf(codecs.unquote, contentType).Some? {
      var params := HeaderOf(codecs.unquote, contentType).value.params;
      if "boundary" in params && body == [] { EmptyBody(codecs, params["boundary"]); }
    }
  }

  /** `parseDjangoMultipart`. `HeaderError` is an exception `parseHeader` raised on the content type. */
  method ParseDjangoMultipart(codecs: Codecs, contentType: Bytes, body: Bytes) returns (r: Upload)
    ensures r == UploadOf(codecs, contentType, body)
  {
    hide HeaderOf, Chunks, PartOf, ParseAll, Decoded, Append, TakeFile;
    if !("multipart/" <= contentType) {
      return InvalidContentType;
    }
    var header := ParseHeader(codecs.unquote, contentType);
    if header.None? {
      return HeaderError;
    }
    if "boundary" !in header.value.params {
      return NoBoundary;
    }
    var boundary := header.value.params["boundary"];
    var valid := ValidBoundary(boundary);
    if boundary == [] || !valid {
      return InvalidBoundary(boundary);
    }
    if body == [] {
      EmptyBody(codecs, boundary);
      return Parsed(map[], []);
    }
    var parts := SplitOnBoundary(codecs.unquote, body, boundary);
    var fields: map<Bytes, seq<Bytes>> := map[];
    var files: seq<UploadedFile> := [];
    var numBytesRead, numPostKeys := 0, 0;
    var i := 0;
    assert parts[0..] == parts;
    while i < |parts|
      invariant 0 <= i <= |parts|
      invariant Collect(codecs, parts, START) == Collect(codecs, parts[i..], State(fields, files, numBytesRead, numPostKeys))
    {
      var st := State(fields, files, numBytesRead, numPostKeys);
      var part := parts[i];
      assert parts[i..][0] == part && parts[i..][1..] == parts[i + 1..];
      i := i + 1;
      var name := FieldName(part);
      if name.None? {
        continue;
      }
      if !part.isFile {
        numPostKeys := numPostKeys + 1;
        if numPostKeys > MAX_FIELDS {
          return RefusedUpload(TooManyFields);
        }
        var readSize := MAX_MEMORY_SIZE - numBytesRead;
        var limit := if readSize < 0 then 0 else readSize;
        var raw := if |part.payload| <= limit then part.payload else part.payload[..limit];
        numBytesRead := numBytesRead + |raw|;
        var data := Decoded(codecs, part.meta, raw);
        numBytesRead := numBytesRead + |name.value| + 2;
        if numBytesRead > MAX_MEMORY_SIZE {
          return RefusedUpload(TooMuchData);
        }
        fields := Append(fields, name.value, data);
      } else {
        TakeFileAddsFiles(codecs, part, name.value, st);
        match TakeFile(codecs, part, name.value, st) {
          case Refused(reason) => return RefusedUpload(reason);
          case Going(next) => files := next.files;
        }
      }
    }
    r := Parsed(fields, files);
  }

  lemma TakeFileAddsFiles(codecs: Codecs, part: BoundaryPart, name: Bytes, st: State)
    requires FieldName(part).Some?
    ensures TakeFile(codecs, part, name, st).Going? ==>
              var next := TakeFile(codecs, part, name, st).state;
              next == State(st.fields, next.files, st.bytesRead, st.postKeys)
  {}

  lemma EmptyBody(codecs: Codecs, boundary: Bytes)
    ensures Collect(codecs, ParseAll(codecs.unquote, Chunks([], DASH_DASH + boundary)), START) == Going(START)
  {}

  // ---------------------------------------------------------------------
  // Whole or refused
  // ---------------------------------------------------------------------

  /** The same step with no byte budget on the read: the field is taken whole. */
  function TakeWhole(codecs: Codecs, part: BoundaryPart, st: State): Progress {
    match FieldName(part)
    case None => Going(st)
    case Some(name) =>
      if !part.isFile then
        if st.postKeys + 1 > MAX_FIELDS then Refused(TooManyFields)
        else if st.bytesRead + Cost(part) > MAX_MEMORY_SIZE then Refused(TooMuchData)
        else Going(State(Append(st.fields, name, Decoded(codecs, part.meta, part.payload)), st.files,
                         st.bytesRead + Cost(part), st.postKeys + 1))
      else TakeFile(codecs, part, name, st)
  }

  /** A field's share of the byte budget: its bytes, its name, and two more. */
  function Cost(part: BoundaryPart): nat {
    if FieldName(part).Some? && !part.isFile then |part.payload| + |FieldName(part).value| + 2 else 0
  }

  function CollectWhole(codecs: Codecs, parts: seq<BoundaryPart>, st: State): Progress {
    if parts == [] then Going(st)
    else
      match TakeWhole(codecs, parts[0], st)
      case Refused(reason) => Refused(reason)
      case Going(next) => CollectWhole(codecs, parts[1..], next)
  }

  /** For every body: the byte budget never truncates a field. Reading each field whole gives the
      same fields, or the same refusal, as the bounded read. */
  lemma {:induction false} FieldsAreWholeOrRefused(codecs: Codecs, parts: seq<BoundaryPart>, st: State)
    requires 0 <= st.bytesRead <= MAX_MEMORY_SIZE
    ensures Collect(codecs, parts, st) == CollectWhole(codecs, parts, st)
  {
    if parts != [] {
      assert Take(codecs, parts[0], st) == TakeWhole(codecs, parts[0], st);
      match Take(codecs, parts[0], st) {
        case Refused(_) =>
        case Going(next) => FieldsAreWholeOrRefused(codecs, parts[1..], next);
      }
    }
  }

  function TotalCost(parts: seq<BoundaryPart>): nat {
    if parts == [] then 0 else Cost(parts[0]) + TotalCost(parts[1..])
  }

  function FieldCount(parts: seq<BoundaryPart>): nat {
    if parts == [] then 0 else (if Cost(parts[0]) > 0 then 1 else 0) + FieldCount(parts[1..])
  }

  predicate AllFilesDecodable(codecs: Codecs, parts: seq<BoundaryPart>) {
    forall i :: 0 <= i < |parts| ==>
      FieldName(parts[i]).Some? && parts[i].isFile && IsBase64(parts[i].meta) ==> codecs.base64(parts[i].payload).Some?
  }

  /** When no file is undecodable, an upload is accepted exactly when its fields number at most 1000
      and cost at most 2.5 MiB in all. */
  lemma {:induction false} AcceptedExactlyWithinBudget(codecs: Codecs, parts: seq<BoundaryPart>, st: State)
    requires 0 <= st.bytesRead <= 2621440 && 0 <= st.postKeys <= 1000
    requires AllFilesDecodable(codecs, parts)
    ensures Collect(codecs, parts, st).Going? <==>
            st.bytesRead + TotalCost(parts) <= 2621440 && st.postKeys + FieldCount(parts) <= 1000
  {
    if parts != [] {
      assert Take(codecs, parts[0], st) == TakeWhole(codecs, parts[0], st);
      match Take(codecs, parts[0], st) {
        case Refused(_) =>
        case Going(next) => AcceptedExactlyWithinBudget(codecs, parts[1..], next);
      }
    }
  }
}
