/** `parse_header` (`src/common/http/django-parse-header.ts`) and the printer it inverts. */
module DjangoHeader {
  import opened Options
  import opened Bytes

  const QUOTE := '"'
  const SEMICOLON := ';'

  datatype ParsedHeader = ParsedHeader(key: Bytes, params: map<Bytes, Bytes>)

  /** RFC 2231 decoding of (text, charset) is foreign code; None is the exception it may raise. */
  type Unquote = (Bytes, Bytes) -> Option<Bytes>

  // ---------------------------------------------------------------------
  // Splitting on ';' outside quotes
  // ---------------------------------------------------------------------

  /** The end of the segment that `rest` starts with, looking for a ';' from `from` on. */
  function SegmentEnd(rest: Bytes, from: nat): (end: nat)
    requires from <= |rest|
    ensures end <= |rest|
    decreases |rest| - from
  {
    var e := IndexOf(rest, [SEMICOLON], from);
    if e < 0 then |rest|
    else if CountByte(rest[..e], QUOTE) % 2 == 1 then SegmentEnd(rest, e + 1)
    else e
  }

  function RawSegments(value: Bytes): seq<Bytes> {
    if value == [] || value[0] != SEMICOLON then []
    else
      var rest := value[1..];
      var end := SegmentEnd(rest, 0);
      [rest[..end]] + RawSegments(rest[end..])
  }

  function StripAll(segments: seq<Bytes>): seq<Bytes> {
    if segments == [] then [] else [Strip(segments[0])] + StripAll(segments[1..])
  }

  lemma {:induction false} StripAllAppend(segments: seq<Bytes>, last: Bytes)
    ensures StripAll(segments + [last]) == StripAll(segments) + [Strip(last)]
  {
    if segments != [] {
      assert (segments + [last])[1..] == segments[1..] + [last];
      StripAllAppend(segments[1..], last);
    }
  }

  lemma {:induction false} SemicolonsSteppedOver(rest: Bytes, from: nat)
    requires from <= |rest|
    ensures var end := SegmentEnd(rest, from);
            && (end < |rest| ==> rest[end] == ';' && CountByte(rest[..end], '"') % 2 == 0)
            && forall k :: from <= k < end && rest[k] == ';' ==> CountByte(rest[..k], '"') % 2 == 1
    decreases |rest| - from
  {
    hide CountByte, IndexOf, MatchAt;
    var e := IndexOf(rest, [SEMICOLON], from);
    OneByte(rest, ';', from);
    if e >= 0 && CountByte(rest[..e], QUOTE) % 2 == 1 { SemicolonsSteppedOver(rest, e + 1); }
  }

  /** Where a segment ends: at the first ';' with an even number of quotes before it, or at the end. */
  lemma SegmentEndsExactly(rest: Bytes)
    ensures var end := SegmentEnd(rest, 0);
            && (end < |rest| ==> rest[end] == ';' && multiset(rest[..end])['"'] % 2 == 0)
            && forall k :: 0 <= k < end && rest[k] == ';' ==> multiset(rest[..k])['"'] % 2 == 1
  {
    hide SegmentEnd, CountByte;
    SemicolonsSteppedOver(rest, 0);
    CountIsMultiplicity(rest[..SegmentEnd(rest, 0)], '"');
    forall k | 0 <= k < SegmentEnd(rest, 0) && rest[k] == ';'
      ensures multiset(rest[..k])['"'] % 2 == 1
    {
      CountIsMultiplicity(rest[..k], '"');
    }
  }

  /** The inner loop of `_parse_header_params` steps over the semicolons inside quotes. */
  method FindSegmentEnd(rest: Bytes) returns (end: int)
    ensures end == SegmentEnd(rest, 0)
  {
    hide CountByte, IndexOf;
    CountAbsent(rest[..0], QUOTE);
    end := IndexOf(rest, [SEMICOLON], 0);
    while end > 0 && CountByte(rest[..end], QUOTE) % 2 == 1
      invariant end == -1 || (0 <= end < |rest| && rest[end] == SEMICOLON)
      invariant SegmentEnd(rest, 0) ==
                if end < 0 then |rest|
                else if CountByte(rest[..end], QUOTE) % 2 == 1 then SegmentEnd(rest, end + 1) else end
      decreases if end < 0 then 0 else |rest| - end
    {
      end := IndexOf(rest, [SEMICOLON], end + 1);
    }
    if end < 0 {
      end := |rest|;
    }
  }

  /** The outer loop consumes a ';' and the segment after it. */
  method ParseHeaderParams(value: Bytes) returns (parts: seq<Bytes>)
    ensures parts == StripAll(RawSegments(value))
  {
    hide SegmentEnd, Strip, Stripped, StripAll, RawSegments;
    parts := [];
    assert RawSegments(value) == [] + RawSegments(value) && StripAll([]) == [] by { NoSegments(); }
    var rest := value;
    ghost var taken: seq<Bytes> := [];
    while rest != [] && rest[0] == SEMICOLON
      invariant RawSegments(value) == taken + RawSegments(rest)
      invariant parts == StripAll(taken)
      decreases |rest|
    {
      NextSegment(rest);
      rest := rest[1..];
      var end := FindSegmentEnd(rest);
      var piece := StripAsciiWhitespace(rest[..end]);
      StripAllAppend(taken, rest[..end]);
      parts := parts + [piece];
      taken := taken + [rest[..end]];
      rest := rest[end..];
    }
    LastSegment(rest);
    assert taken + [] == taken;
  }

  lemma NoSegments()
    ensures StripAll([]) == []
  {}

  lemma NextSegment(value: Bytes)
    requires value != [] && value[0] == SEMICOLON
    ensures var rest := value[1..];
            RawSegments(value) == [rest[..SegmentEnd(rest, 0)]] + RawSegments(rest[SegmentEnd(rest, 0)..])
  {}

  lemma LastSegment(value: Bytes)
    requires value == [] || value[0] != SEMICOLON
    ensures RawSegments(value) == []
  {}

  function Rejoin(segments: seq<Bytes>): Bytes {
    if segments == [] then [] else [SEMICOLON] + segments[0] + Rejoin(segments[1..])
  }

  /** Nothing is lost: the raw segments, each with its leading ';', rejoin to the input. */
  lemma {:induction false} SegmentsRejoin(value: Bytes)
    requires value != [] ==> value[0] == SEMICOLON
    ensures Rejoin(RawSegments(value)) == value
  {
    hide SegmentEnd, CountByte;
    if value != [] {
      var rest := value[1..];
      var end := SegmentEnd(rest, 0);
      assert end < |rest| ==> rest[end] == SEMICOLON by { SegmentEndsExactly(rest); }
      SegmentsRejoin(rest[end..]);
      assert RawSegments(value)[1..] == RawSegments(rest[end..]);
      assert [SEMICOLON] + rest[..end] + rest[end..] == value;
    }
  }

  /** Text the splitter takes whole: its quotes balance, and each ';' in it is inside a pair. */
  ghost predicate Sealed(segment: Bytes) {
    && CountByte(segment, QUOTE) % 2 == 0
    && forall e :: 0 <= e < |segment| && segment[e] == SEMICOLON ==> CountByte(segment[..e], QUOTE) % 2 == 1
  }

  lemma {:induction false} SealedSegmentIsWhole(segment: Bytes, tail: Bytes, from: nat)
    requires Sealed(segment) && (tail != [] ==> tail[0] == SEMICOLON) && from <= |segment|
    ensures SegmentEnd(segment + tail, from) == |segment|
    decreases |segment| - from
  {
    hide CountByte, IndexOf, MatchAt;
    var rest := segment + tail;
    var e := IndexOf(rest, [SEMICOLON], from);
    FirstSemicolon(segment, tail, from);
    if 0 <= e < |segment| {
      assert rest[..e] == segment[..e];
      SealedSegmentIsWhole(segment, tail, e + 1);
    } else if e >= 0 {
      assert rest[..e] == segment;
    }
  }

  lemma FirstSemicolon(segment: Bytes, tail: Bytes, from: nat)
    requires (tail != [] ==> tail[0] == SEMICOLON) && from <= |segment|
    ensures var e := IndexOf(segment + tail, [SEMICOLON], from);
            if tail == [] then -1 <= e < |segment| && (e >= 0 ==> segment[e] == SEMICOLON)
            else 0 <= e <= |segment| && (e < |segment| ==> segment[e] == SEMICOLON)
  {
    var rest := segment + tail;
    var e := IndexOf(rest, [SEMICOLON], from);
    if tail != [] { assert MatchAt(rest, [SEMICOLON], |segment|); }
    if e >= 0 { assert rest[e..e + 1] == [SEMICOLON] && rest[e] == SEMICOLON; }
  }

  lemma {:induction false} SealedSegmentsSplit(segments: seq<Bytes>)
    requires forall i :: 0 <= i < |segments| ==> Sealed(segments[i])
    ensures RawSegments(Rejoin(segments)) == segments
  {
    hide Sealed, SegmentEnd;
    if segments != [] {
      var tail := Rejoin(segments[1..]);
      var value := Rejoin(segments);
      assert value[1..] == segments[0] + tail;
      assert tail != [] ==> tail[0] == SEMICOLON;
      SealedSegmentIsWhole(segments[0], tail, 0);
      assert value[1..][|segments[0]|..] == tail && value[1..][..|segments[0]|] == segments[0];
      assert forall i :: 0 <= i < |segments[1..]| ==> segments[1..][i] == segments[i + 1];
      SealedSegmentsSplit(segments[1..]);
      assert [segments[0]] + segments[1..] == segments;
    }
  }

  // ---------------------------------------------------------------------
  // One parameter
  // ---------------------------------------------------------------------

  datatype Parameter = Skipped | Raised | Parameter(name: Bytes, value: Bytes)

  function SplitByte(value: Bytes, b: char): (fields: seq<Bytes>)
    ensures |fields| >= 1
  {
    var k := IndexOf(value, [b], 0);
    if k < 0 then [value] else [value[..k]] + SplitByte(value[k + 1..], b)
  }

  /** `replace(from + from2, to)`, left to right, without overlap. */
  function ReplacePair(s: Bytes, first: char, second: char, to: char): Bytes {
    if |s| >= 2 && s[0] == first && s[1] == second then [to] + ReplacePair(s[2..], first, second, to)
    else if s == [] then []
    else [s[0]] + ReplacePair(s[1..], first, second, to)
  }

  /** Strips one pair of surrounding quotes, then undoes the two escapes one after the other. */
  function Unquoted(value: Bytes): Bytes {
    if |value| >= 2 && value[0] == QUOTE && value[|value| - 1] == QUOTE then
      ReplacePair(ReplacePair(value[1..|value| - 1], '\\', '\\', '\\'), '\\', QUOTE, QUOTE)
    else value
  }

  function ParseParameter(unquote: Unquote, part: Bytes): Parameter {
    var equals := IndexOf(part, ['='], 0);
    if equals < 0 then Skipped
    else
      var written := Lower(Strip(part[..equals]));
      var starred := written != [] && written[|written| - 1] == '*';
      var name := if starred then written[..|written| - 1] else written;
      var value := Strip(part[equals + 1..]);
      if starred && CountByte(part, '\'') == 2 then
        var fields := SplitByte(value, '\'');
        if |fields| != 3 then Raised
        else
          match unquote(fields[2], fields[0])
          case None => Raised
          case Some(text) => Parameter(name, Unquoted(text))
      else Parameter(name, Unquoted(value))
  }

  function CollectParameters(unquote: Unquote, parts: seq<Bytes>, params: map<Bytes, Bytes>): Option<map<Bytes, Bytes>>
  {
    if parts == [] then Some(params)
    else
      match ParseParameter(unquote, parts[0])
      case Skipped => CollectParameters(unquote, parts[1..], params)
      case Raised => None
      case Parameter(name, value) => CollectParameters(unquote, parts[1..], params[name := value])
  }

  /** `parse_header(line)`; None is an exception. */
  function HeaderOf(unquote: Unquote, line: Bytes): Option<ParsedHeader> {
    var parts := StripAll(RawSegments([SEMICOLON] + line));
    match CollectParameters(unquote, parts[1..], map[])
    case None => None
    case Some(params) => Some(ParsedHeader(Lower(parts[0]), params))
  }

  method ParseHeader(unquote: Unquote, line: Bytes) returns (r: Option<ParsedHeader>)
    ensures r == HeaderOf(unquote, line)
  {
    hide ParseParameter, SegmentEnd, Strip;
    var parts := ParseHeaderParams([SEMICOLON] + line);
    var key := Lower(parts[0]);
    var params: map<Bytes, Bytes> := map[];
    var i := 1;
    while i < |parts|
      invariant 1 <= i <= |parts|
      invariant CollectParameters(unquote, parts[1..], map[]) == CollectParameters(unquote, parts[i..], params)
    {
      assert parts[i..][1..] == parts[i + 1..];
      match ParseParameter(unquote, parts[i]) {
        case Skipped =>
        case Raised => return None;
        case Parameter(name, value) => params := params[name := value];
      }
      i := i + 1;
    }
    r := Some(ParsedHeader(key, params));
  }

  // ---------------------------------------------------------------------
  // The printer, and the round trip
  // ---------------------------------------------------------------------

  datatype Pair = Pair(name: Bytes, value: Bytes)

  function EscapeBackslashes(value: Bytes): Bytes {
    if value == [] then []
    else (if value[0] == '\\' then "\\\\" else [value[0]]) + EscapeBackslashes(value[1..])
  }

  function EscapeQuotes(value: Bytes): Bytes {
    if value == [] then []
    else (if value[0] == '"' then "\\\"" else [value[0]]) + EscapeQuotes(value[1..])
  }

  function PrintPair(p: Pair): Bytes {
    p.name + "=\"" + EscapeBackslashes(p.value) + "\""
  }

  function PrintPairs(pairs: seq<Pair>): Bytes {
    if pairs == [] then [] else "; " + PrintPair(pairs[0]) + PrintPairs(pairs[1..])
  }

  /** `key; name="value"; ...` with the backslashes of each value doubled. */
  function PrintHeader(key: Bytes, pairs: seq<Pair>): Bytes {
    key + PrintPairs(pairs)
  }

  /** A later pair of the same name wins. */
  function MapOf(pairs: seq<Pair>, params: map<Bytes, Bytes>): map<Bytes, Bytes> {
    if pairs == [] then params else MapOf(pairs[1..], params[pairs[0].name := pairs[0].value])
  }

  predicate PlainKey(key: Bytes) {
    Stripped(key) && SEMICOLON !in key && QUOTE !in key
  }

  /** A parameter name the printer can write bare. */
  predicate PlainName(name: Bytes) {
    && Stripped(name) && Lower(name) == name
    && SEMICOLON !in name && QUOTE !in name && '=' !in name
    && (name != [] ==> name[|name| - 1] != '*')
  }

  /** Values may hold every byte but the quote: semicolons, equals signs, spaces, backslashes. */
  predicate Printable(pairs: seq<Pair>) {
    forall i :: 0 <= i < |pairs| ==> PlainName(pairs[i].name) && QUOTE !in pairs[i].value
  }

  lemma {:induction false} EscapeKeepsQuotesOut(value: Bytes)
    requires QUOTE !in value
    ensures QUOTE !in EscapeBackslashes(value)
  {
    if value != [] { EscapeKeepsQuotesOut(value[1..]); }
  }

  lemma {:induction false} UnescapeInverts(value: Bytes)
    ensures ReplacePair(EscapeBackslashes(value), '\\', '\\', '\\') == value
  {
    if value != [] {
      UnescapeInverts(value[1..]);
      var rest := EscapeBackslashes(value[1..]);
      if value[0] == '\\' {
        assert EscapeBackslashes(value)[2..] == rest;
      } else {
        assert EscapeBackslashes(value)[1..] == rest;
      }
    }
  }

  lemma {:induction false} NothingToReplace(s: Bytes, first: char, second: char, to: char)
    requires second !in s
    ensures ReplacePair(s, first, second, to) == s
  {
    if s != [] { NothingToReplace(s[1..], first, second, to); }
  }

  lemma {:induction false} QuotesUnescape(value: Bytes)
    requires '\\' !in value
    ensures ReplacePair(ReplacePair(EscapeQuotes(value), '\\', '\\', '\\'), '\\', '"', '"') == value
  {
    if value != [] {
      QuotesUnescape(value[1..]);
      var rest := EscapeQuotes(value[1..]);
      if value[0] == '"' {
        assert EscapeQuotes(value)[1..] == "\"" + rest && EscapeQuotes(value)[1..][1..] == rest;
        var once := ReplacePair(rest, '\\', '\\', '\\');
        assert ReplacePair(EscapeQuotes(value), '\\', '\\', '\\') == "\\\"" + once;
        assert ("\\\"" + once)[2..] == once;
      } else {
        assert EscapeQuotes(value)[1..] == rest;
        var once := ReplacePair(rest, '\\', '\\', '\\');
        assert ([value[0]] + once)[1..] == once;
      }
    }
  }

  /** A quoted value loses its quotes and its escaped quotes come back; a value that is not quoted on both
      sides is left alone. */
  lemma QuotesReadBack(value: Bytes)
    ensures '\\' !in value ==> Unquoted("\"" + EscapeQuotes(value) + "\"") == value
    ensures |value| < 2 || value[0] != '"' || value[|value| - 1] != '"' ==> Unquoted(value) == value
  {
    hide ReplacePair, EscapeQuotes;
    var quoted := "\"" + EscapeQuotes(value) + "\"";
    assert quoted[1..|quoted| - 1] == EscapeQuotes(value);
    if '\\' !in value { QuotesUnescape(value); }
  }

  lemma PrintedPairIsSealed(p: Pair)
    requires PlainName(p.name) && QUOTE !in p.value
    ensures Sealed(" " + PrintPair(p))
  {
    EscapeKeepsQuotesOut(p.value);
    OneQuote(p.name);
    QuotedTextIsSealed(" " + p.name + "=\"", EscapeBackslashes(p.value));
    assert " " + PrintPair(p) == " " + p.name + "=\"" + EscapeBackslashes(p.value) + "\"";
  }

  lemma QuotedTextIsSealed(opening: Bytes, text: Bytes)
    requires SEMICOLON !in opening && CountByte(opening, QUOTE) == 1 && QUOTE !in text
    ensures Sealed(opening + text + "\"")
  {
    hide CountByte;
    var segment := opening + text + "\"";
    forall e | 0 <= e < |segment| && segment[e] == SEMICOLON
      ensures CountByte(segment[..e], QUOTE) % 2 == 1
    {
      InsideQuotes(opening, text, e);
    }
    assert CountByte(segment, QUOTE) == 2 by { TwoQuotes(opening, text); }
  }

  lemma TwoQuotes(opening: Bytes, text: Bytes)
    requires CountByte(opening, QUOTE) == 1 && QUOTE !in text
    ensures CountByte(opening + text + "\"", QUOTE) == 2
  {
    hide CountByte;
    CountAppend(opening + text, "\"", QUOTE);
    CountAppend(opening, text, QUOTE);
    CountAbsent(text, QUOTE);
    CountOneQuote();
  }

  lemma InsideQuotes(opening: Bytes, text: Bytes, e: nat)
    requires SEMICOLON !in opening && CountByte(opening, QUOTE) == 1 && QUOTE !in text
    requires var segment := opening + text + "\""; e < |segment| && segment[e] == SEMICOLON
    ensures CountByte((opening + text + "\"")[..e], QUOTE) == 1
  {
    hide CountByte;
    var segment := opening + text + "\"";
    assert forall k :: 0 <= k < |opening| ==> segment[k] == opening[k];
    var inside := text[..e - |opening|];
    assert segment[..e] == opening + inside;
    CountAppend(opening, inside, QUOTE);
    CountAbsent(inside, QUOTE);
  }

  lemma CountOneQuote()
    ensures CountByte("\"", QUOTE) == 1
  {}

  lemma OneQuote(name: Bytes)
    requires QUOTE !in name
    ensures CountByte(" " + name + "=\"", QUOTE) == 1
  {
    var bare := " " + name + "=";
    assert " " + name + "=\"" == bare + "\"";
    CountAbsent(bare, QUOTE);
    CountAppend(bare, "\"", QUOTE);
    assert CountByte("\"", QUOTE) == 1 + CountByte([], QUOTE);
  }

  lemma PrintedPairParses(unquote: Unquote, p: Pair)
    requires PlainName(p.name) && QUOTE !in p.value
    ensures Strip(" " + PrintPair(p)) == PrintPair(p)
    ensures ParseParameter(unquote, PrintPair(p)) == Parameter(p.name, p.value)
  {
    hide EscapeBackslashes, Strip, IndexOf, Unquoted, CountByte, SplitByte;
    PrintedPairStrips(p);
    hide Lower;
    var value := "\"" + EscapeBackslashes(p.value) + "\"";
    assert PrintPair(p) == p.name + "=" + value;
    FirstEquals(p.name, value);
    StripLeadingSpace(p.name);
    QuotedValueReads(p.value);
  }

  lemma PrintedPairStrips(p: Pair)
    requires PlainName(p.name)
    ensures Strip(" " + PrintPair(p)) == PrintPair(p)
  {
    hide EscapeBackslashes, Strip, Lower;
    assert PrintPair(p)[0] == if p.name == [] then '=' else p.name[0];
    StripLeadingSpace(PrintPair(p));
  }

  lemma FirstEquals(name: Bytes, value: Bytes)
    requires '=' !in name
    ensures var part := name + "=" + value;
            IndexOf(part, ['='], 0) == |name| && part[..|name|] == name && part[|name| + 1..] == value
  {
    var part := name + "=" + value;
    assert forall j :: 0 <= j < |name| ==> part[j] == name[j];
    FirstByte(part, '=', |name|);
  }

  lemma QuotedValueReads(value: Bytes)
    requires QUOTE !in value
    ensures var quoted := "\"" + EscapeBackslashes(value) + "\"";
            Strip(quoted) == quoted && Unquoted(quoted) == value
  {
    hide EscapeBackslashes, Strip, ReplacePair;
    var quoted := "\"" + EscapeBackslashes(value) + "\"";
    StripLeadingSpace(quoted);
    assert quoted[1..|quoted| - 1] == EscapeBackslashes(value);
    UnescapeInverts(value);
    NothingToReplace(value, '\\', QUOTE, QUOTE);
  }

  // ---------------------------------------------------------------------
  // Extended parameters
  // ---------------------------------------------------------------------

  lemma SplitAtByte(field: Bytes, b: char, rest: Bytes)
    requires b !in field
    ensures SplitByte(field + [b] + rest, b) == [field] + SplitByte(rest, b) && SplitByte(field, b) == [field]
  {
    hide IndexOf, MatchAt;
    var all := field + [b] + rest;
    FirstByte(all, b, |field|);
    OneByte(field, b, 0);
    assert all[..|field|] == field && all[|field| + 1..] == rest;
  }

  lemma StarredName(name: Bytes)
    requires PlainName(name)
    ensures Lower(Strip(name + "*")) == name + "*" && '=' !in name + "*"
  {
    StripLeadingSpace(name + "*");
    assert forall i :: 0 <= i < |name| ==> Lower(name)[i] == name[i];
  }

  lemma TwoApostrophes(before: Bytes, charset: Bytes, language: Bytes, text: Bytes)
    requires '\'' !in before && '\'' !in charset && '\'' !in language && '\'' !in text
    ensures CountByte(before + (charset + "'" + (language + "'" + text)), '\'') == 2
  {
    hide CountByte;
    CountIsMultiplicity(before + (charset + "'" + (language + "'" + text)), '\'');
  }

  /** The extended form of section 4 of RFC 2231: under a starred name, a charset, a language and a text between
      two apostrophes. The text is decoded with the charset, whatever the language, and the star is dropped; a
      text that cannot be decoded raises. */
  lemma ExtendedParameterReads(unquote: Unquote, name: Bytes, charset: Bytes, language: Bytes, text: Bytes)
    requires PlainName(name) && '\'' !in name && '\'' !in charset && '\'' !in language && '\'' !in text
    requires Stripped(charset + "'" + (language + "'" + text))
    ensures ParseParameter(unquote, name + "*=" + (charset + "'" + (language + "'" + text))) ==
            match unquote(text, charset)
            case None => Raised
            case Some(decoded) => Parameter(name, Unquoted(decoded))
  {
    hide IndexOf, Strip, Lower, Unquoted, CountByte, SplitByte, Stripped;
    var value := charset + "'" + (language + "'" + text);
    var part := name + "*=" + value;
    assert part == (name + "*") + "=" + value;
    StarredName(name);
    FirstEquals(name + "*", value);
    assert Strip(value) == value by { StripLeadingSpace(value); }
    TwoApostrophes(name + "*=", charset, language, text);
    SplitAtByte(charset, '\'', language + "'" + text);
    SplitAtByte(language, '\'', text);
    SplitAtByte(text, '\'', []);
  }

  /** Any other parameter: its name is stripped and lowercased, a final star dropped; its value is stripped and
      unquoted. Without an equals sign it is skipped. */
  lemma PlainParameterReads(unquote: Unquote, name: Bytes, value: Bytes)
    requires '=' !in name && CountByte(name + "=" + value, '\'') != 2
    ensures var read := ParseParameter(unquote, name + "=" + value);
            && read.Parameter? && read.value == Unquoted(Strip(value))
            && Lower(Strip(name)) == read.name + (if Strip(name) != [] && Strip(name)[|Strip(name)| - 1] == '*' then "*" else "")
    ensures '=' !in value ==> ParseParameter(unquote, value) == Skipped
  {
    hide IndexOf, Strip, Unquoted, CountByte, SplitByte;
    FirstEquals(name, value);
    OneByte(value, '=', 0);
    var written := Lower(Strip(name));
    assert written != [] ==> written == written[..|written| - 1] + [written[|written| - 1]];
  }

  function Spaced(pairs: seq<Pair>): seq<Bytes> {
    if pairs == [] then [] else [" " + PrintPair(pairs[0])] + Spaced(pairs[1..])
  }

  lemma {:induction false} PrintedPairsRejoin(unquote: Unquote, pairs: seq<Pair>, params: map<Bytes, Bytes>)
    requires Printable(pairs)
    ensures Rejoin(Spaced(pairs)) == PrintPairs(pairs)
    ensures forall i :: 0 <= i < |Spaced(pairs)| ==> Sealed(Spaced(pairs)[i])
    ensures CollectParameters(unquote, StripAll(Spaced(pairs)), params) == Some(MapOf(pairs, params))
  {
    if pairs != [] {
      var p := pairs[0];
      PrintedPairIsSealed(p);
      PrintedPairParses(unquote, p);
      PrintedPairsRejoin(unquote, pairs[1..], params[p.name := p.value]);
      var spaced := Spaced(pairs);
      assert spaced[1..] == Spaced(pairs[1..]);
      assert [SEMICOLON] + (" " + PrintPair(p)) == "; " + PrintPair(p);
      assert StripAll(spaced)[1..] == StripAll(spaced[1..]);
    }
  }

  /** Round trip: parsing a printed header gives back its key, lowercased, and its parameters. */
  lemma HeaderRoundTrip(unquote: Unquote, key: Bytes, pairs: seq<Pair>)
    requires PlainKey(key) && Printable(pairs)
    ensures HeaderOf(unquote, PrintHeader(key, pairs)) == Some(ParsedHeader(Lower(key), MapOf(pairs, map[])))
  {
    PrintedPairsRejoin(unquote, pairs, map[]);
    CountAbsent(key, QUOTE);
    assert Sealed(key);
    var segments := [key] + Spaced(pairs);
    assert segments[1..] == Spaced(pairs);
    assert Rejoin(segments) == [SEMICOLON] + PrintHeader(key, pairs);
    SealedSegmentsSplit(segments);
    StripLeadingSpace(key);
    assert StripAll(segments)[1..] == StripAll(Spaced(pairs));
  }

  /** With distinct names, every printed parameter is found with its own value, and no other is. */
  lemma {:induction false} MapOfDistinct(pairs: seq<Pair>, params: map<Bytes, Bytes>)
    requires forall i, j :: 0 <= i < j < |pairs| ==> pairs[i].name != pairs[j].name
    ensures forall i :: 0 <= i < |pairs| ==>
              pairs[i].name in MapOf(pairs, params) && MapOf(pairs, params)[pairs[i].name] == pairs[i].value
    ensures forall name :: (forall i :: 0 <= i < |pairs| ==> pairs[i].name != name) ==>
              (name in MapOf(pairs, params) <==> name in params)
              && (name in params ==> MapOf(pairs, params)[name] == params[name])
  {
    if pairs != [] {
      var rest, updated := pairs[1..], params[pairs[0].name := pairs[0].value];
      MapOfDistinct(rest, updated);
      assert forall i :: 0 <= i < |rest| ==> rest[i] == pairs[i + 1];
      assert forall i :: 0 <= i < |rest| ==> rest[i].name != pairs[0].name;
    }
  }
}
