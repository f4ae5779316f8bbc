/** Reading a captured stream back: request normalisation, rune pages, tails and lines. */
module OutputReader {
  import opened Prelude
  import opened Text
  import opened OutputSearch

  const CAPTURE_READ_DEFAULT_CHARS := 12_000
  const CAPTURE_READ_MAX_CHARS := 64_000
  const CAPTURE_SEARCH_MAX_PATTERN := 256
  const CAPTURE_SEARCH_MAX_CONTEXT := 10
  const CAPTURE_SEARCH_MAX_MATCHES := 100

  // -------------------------------------------------------------------- lines

  function OutputLineCount(value: string): nat {
    if value == "" then 0
    else
      var lines := Count(value, '\n');
      if value[|value| - 1] != '\n' then lines + 1 else lines
  }

  function SplitOutputLines(content: string): seq<string> {
    if content == "" then []
    else
      var lines := Split(content, '\n');
      if content[|content| - 1] == '\n' then lines[..|lines| - 1] else lines
  }

  /** Lines written back, each with its newline. */
  function Unlines(lines: seq<string>): string {
    if lines == [] then "" else lines[0] + ['\n'] + Unlines(lines[1..])
  }

  lemma LineCountAgrees(content: string)
    ensures |SplitOutputLines(content)| == OutputLineCount(content)
  {
    SplitLength(content, '\n');
  }

  lemma {:induction false} SplitUnlines(lines: seq<string>)
    requires Free(lines, '\n')
    ensures Split(Unlines(lines), '\n') == lines + [""]
  {
    if lines != [] {
      forall k | 0 <= k < |lines[1..]| ensures '\n' !in lines[1..][k] {
        assert lines[1..][k] == lines[k + 1];
      }
      SplitUnlines(lines[1..]);
      SplitHead(lines[0], Unlines(lines[1..]), '\n');
    }
  }

  lemma {:induction false} UnlinesEndsInNewline(lines: seq<string>)
    requires lines != []
    ensures Unlines(lines) != "" && Unlines(lines)[|Unlines(lines)| - 1] == '\n'
  {
    if |lines| > 1 {
      UnlinesEndsInNewline(lines[1..]);
    } else {
      assert Unlines(lines[1..]) == "";
    }
  }

  /** Splitting recovers any list of lines that was written out. */
  lemma LinesRoundTrip(lines: seq<string>)
    requires Free(lines, '\n')
    ensures SplitOutputLines(Unlines(lines)) == lines
  {
    if lines != [] {
      SplitUnlines(lines);
      UnlinesEndsInNewline(lines);
    }
  }

  lemma {:induction false} UnlinesJoin(parts: seq<string>)
    requires parts != []
    ensures Unlines(parts) == Join(parts, '\n') + "\n"
    ensures parts[|parts| - 1] == "" ==> Unlines(parts[..|parts| - 1]) == Join(parts, '\n')
  {
    if |parts| == 1 {
      assert parts[1..] == [];
    } else {
      var tail := parts[1..];
      UnlinesJoin(tail);
      assert tail[|tail| - 1] == parts[|parts| - 1];
      if parts[|parts| - 1] == "" {
        assert parts[..|parts| - 1][1..] == tail[..|tail| - 1];
      }
    }
  }

  lemma {:induction false} SplitLastPart(s: string, sep: char)
    requires s != ""
    ensures s[|s| - 1] == sep <==> Split(s, sep)[|Split(s, sep)| - 1] == ""
  {
    if |s| > 1 {
      SplitLastPart(s[1..], sep);
      assert s[1..][|s[1..]| - 1] == s[|s| - 1];
    } else {
      assert Split(s[1..], sep) == [""];
    }
  }

  /** Writing the lines back restores the stream, up to a missing final newline. */
  lemma StreamFromLines(content: string)
    ensures Unlines(SplitOutputLines(content)) ==
            if content == "" || content[|content| - 1] == '\n' then content else content + "\n"
    ensures Free(SplitOutputLines(content), '\n')
  {
    if content != "" {
      SplitIsFree(content, '\n');
      JoinSplit(content, '\n');
      SplitLastPart(content, '\n');
      UnlinesJoin(Split(content, '\n'));
    }
  }

  // -------------------------------------------------------------------- pages

  function PrefixRunes(value: string, limit: nat): (string, bool) {
    if |value| <= limit then (value, false) else (value[..limit], true)
  }

  datatype PageResult = PageResult(
    offset: nat,
    nextOffset: nat,
    limit: nat,
    totalChars: nat,
    eof: bool,
    content: string)

  function ReadPage(runes: string, offset: nat, limit: nat): PageResult {
    var start := Min(offset, |runes|);
    var end := Min(start + limit, |runes|);
    PageResult(start, end, limit, |runes|, end == |runes|, runes[start..end])
  }

  function ReadTail(runes: string, limit: nat): PageResult {
    var start := Max(|runes| - limit, 0);
    var end := Min(start + limit, |runes|);
    PageResult(start, end, limit, |runes|, end == |runes|, runes[start..end])
  }

  /** A page is the next limit runes from its offset, and says where it lies and whether it is the last. */
  lemma PagesSpelledOut(runes: string, offset: nat, limit: nat)
    ensures var page := ReadPage(runes, offset, limit);
            var start := if offset < |runes| then offset else |runes|;
            var end := if start + limit < |runes| then start + limit else |runes|;
            && page.offset == start && page.nextOffset == end && page.content == runes[start..end]
            && page.limit == limit && page.totalChars == |runes| && (page.eof <==> end == |runes|)
  {
  }

  lemma PreviewIsFirstPage(value: string, limit: nat)
    ensures PrefixRunes(value, limit).0 == ReadPage(value, 0, limit).content
    ensures PrefixRunes(value, limit).1 <==> !ReadPage(value, 0, limit).eof
  {
  }

  /** A tail is the last limit runes, whole when there are fewer, and ends the stream. */
  lemma TailIsSuffix(runes: string, limit: nat, before: string, last: string)
    requires runes == before + last
    requires |last| == limit || (before == "" && |last| <= limit)
    ensures ReadTail(runes, limit).content == last && ReadTail(runes, limit).eof
  {
  }

  /** The contents of pages read by following nextOffset, one limit per call. */
  function FollowPages(runes: string, offset: nat, limits: seq<nat>): string
    decreases limits
  {
    if limits == [] then ""
    else
      var page := ReadPage(runes, offset, limits[0]);
      page.content + FollowPages(runes, page.nextOffset, limits[1..])
  }

  function FollowOffset(runes: string, offset: nat, limits: seq<nat>): nat
    decreases limits
  {
    if limits == [] then Min(offset, |runes|)
    else FollowOffset(runes, ReadPage(runes, offset, limits[0]).nextOffset, limits[1..])
  }

  /** Pages of any sizes fit together without a gap or an overlap. */
  lemma {:induction false} PagesReassemble(runes: string, offset: nat, limits: seq<nat>)
    requires offset <= |runes|
    ensures offset <= FollowOffset(runes, offset, limits) <= |runes|
    ensures FollowPages(runes, offset, limits) == runes[offset..FollowOffset(runes, offset, limits)]
    decreases limits
  {
    if limits != [] {
      PagesReassemble(runes, ReadPage(runes, offset, limits[0]).nextOffset, limits[1..]);
    }
  }

  /** Following positive limits long enough yields the rest of the stream. */
  lemma {:induction false} PagingEnds(runes: string, offset: nat, limits: seq<nat>)
    requires offset <= |runes| <= offset + |limits|
    requires forall k :: 0 <= k < |limits| ==> 1 <= limits[k]
    ensures FollowOffset(runes, offset, limits) == |runes|
    ensures FollowPages(runes, offset, limits) == runes[offset..]
    decreases limits
  {
    if limits != [] {
      forall k | 0 <= k < |limits[1..]| ensures 1 <= limits[1..][k] {
        assert limits[1..][k] == limits[k + 1];
      }
      PagingEnds(runes, ReadPage(runes, offset, limits[0]).nextOffset, limits[1..]);
    }
    PagesReassemble(runes, offset, limits);
  }

  // ----------------------------------------------------------------- requests

  /** The request as decoded; zero and the empty string mean an omitted field. */
  datatype ReadRequest = ReadRequest(
    stream: string,
    mode: string,
    offset: int,
    limit: int,
    pattern: string,
    startLine: int,
    context: int,
    maxMatches: int)

  datatype ReadError =
    | BadLimit
    | BadOffset
    | BadStartLine
    | BadContext
    | BadMaxMatches
    | PatternOutsideSearch
    | PatternMissing
    | PatternTooLong
    | BadMode
    | NoSuchStream
    | InvalidPattern

  function WithDefaults(raw: ReadRequest): ReadRequest {
    raw.(
      stream := if raw.stream == "" then "stdout" else raw.stream,
      mode := if raw.mode == "" then "page" else raw.mode,
      limit := if raw.limit == 0 then CAPTURE_READ_DEFAULT_CHARS else raw.limit,
      maxMatches := if raw.maxMatches == 0 then 20 else raw.maxMatches)
  }

  function NormalizeOutputReadRequest(raw: ReadRequest): (res: Result<ReadRequest, ReadError>) {
    var request := WithDefaults(raw);
    if request.limit < 1 || request.limit > CAPTURE_READ_MAX_CHARS then Err(BadLimit)
    else if request.offset < 0 then Err(BadOffset)
    else if request.startLine < 0 then Err(BadStartLine)
    else if request.context < 0 || request.context > CAPTURE_SEARCH_MAX_CONTEXT then Err(BadContext)
    else if request.maxMatches < 1 || request.maxMatches > CAPTURE_SEARCH_MAX_MATCHES then Err(BadMaxMatches)
    else if request.mode == "page" || request.mode == "tail" then
      if request.pattern != "" then Err(PatternOutsideSearch) else Ok(request)
    else if request.mode == "search" then
      if request.pattern == "" then Err(PatternMissing)
      else if ByteLen(request.pattern) > CAPTURE_SEARCH_MAX_PATTERN then Err(PatternTooLong)
      else Ok(request)
    else Err(BadMode)
  }

  /** A request that needs no defaults and that the reader serves. */
  ghost predicate Servable(r: ReadRequest) {
    && r.stream != ""
    && 1 <= r.limit <= CAPTURE_READ_MAX_CHARS
    && 0 <= r.offset && 0 <= r.startLine
    && 0 <= r.context <= CAPTURE_SEARCH_MAX_CONTEXT
    && 1 <= r.maxMatches <= CAPTURE_SEARCH_MAX_MATCHES
    && (r.mode == "page" || r.mode == "tail" || r.mode == "search")
    && (r.mode == "search" <==> r.pattern != "")
    && ByteLen(r.pattern) <= CAPTURE_SEARCH_MAX_PATTERN
  }

  /**
   * Normalisation accepts exactly the requests that their defaults make servable, ends
   * at that servable request, and leaves exactly the servable ones alone.
   */
  lemma NormalizeIsProjection(raw: ReadRequest)
    ensures NormalizeOutputReadRequest(raw).Ok? <==> Servable(WithDefaults(raw))
    ensures NormalizeOutputReadRequest(raw).Ok? ==> NormalizeOutputReadRequest(raw).value == WithDefaults(raw)
    ensures NormalizeOutputReadRequest(raw).Ok? ==>
              var r := NormalizeOutputReadRequest(raw).value;
              Servable(r) && NormalizeOutputReadRequest(r) == Ok(r)
    ensures NormalizeOutputReadRequest(raw) == Ok(raw) <==> Servable(raw)
  {
    if raw.pattern == "" {
      assert ByteLen(raw.pattern) == 0;
    }
  }

  /** Which requests are accepted, field by field, and what stands in for what they leave out. */
  lemma RequestsSpelledOut(raw: ReadRequest)
    ensures NormalizeOutputReadRequest(raw).Ok? <==>
              && (raw.limit == 0 || 1 <= raw.limit <= 64_000)
              && raw.offset >= 0 && raw.startLine >= 0 && 0 <= raw.context <= 10
              && (raw.maxMatches == 0 || 1 <= raw.maxMatches <= 100)
              && if raw.mode == "search" then raw.pattern != "" && ByteLen(raw.pattern) <= 256
                 else raw.mode in {"", "page", "tail"} && raw.pattern == ""
    ensures NormalizeOutputReadRequest(raw).Ok? ==>
              NormalizeOutputReadRequest(raw).value ==
              ReadRequest(if raw.stream == "" then "stdout" else raw.stream,
                          if raw.mode == "" then "page" else raw.mode,
                          raw.offset,
                          if raw.limit == 0 then 12_000 else raw.limit,
                          raw.pattern, raw.startLine, raw.context,
                          if raw.maxMatches == 0 then 20 else raw.maxMatches)
  {
  }

  /** A request that leaves everything out reads the first 12000 runes of stdout. */
  lemma EmptyRequestReadsStdout(streams: map<string, string>, compile: string -> Option<Line -> bool>,
                                res: Result<ReadOutcome, ReadError>)
    requires "stdout" in streams
    requires IsReadOutcome(streams, ReadRequest("", "", 0, 0, "", 0, 0, 0), compile, res)
    ensures res.Ok? && res.value.Paged?
    ensures res.value.page.content == streams["stdout"][..Min(|streams["stdout"]|, 12_000)]
  {
  }

  datatype ReadOutcome = Paged(page: PageResult) | Searched(search: SearchResult)

  /** What a read of the given streams must answer; compile is the RE2 compiler. */
  ghost predicate IsReadOutcome(streams: map<string, string>, raw: ReadRequest,
                                compile: string -> Option<Line -> bool>, res: Result<ReadOutcome, ReadError>)
  {
    match NormalizeOutputReadRequest(raw)
    case Err(e) => res == Err(e)
    case Ok(r) =>
      if r.stream !in streams then res == Err(NoSuchStream)
      else if r.mode == "page" then res == Ok(Paged(ReadPage(streams[r.stream], r.offset, r.limit)))
      else if r.mode == "tail" then res == Ok(Paged(ReadTail(streams[r.stream], r.limit)))
      else
        match compile(r.pattern)
        case None => res == Err(InvalidPattern)
        case Some(hit) =>
          && res.Ok? && res.value.Searched?
          && IsSearchPage(SplitOutputLines(streams[r.stream]), hit,
                          SearchRequest(r.startLine, r.context, r.limit, r.maxMatches), res.value.search)
  }

  method ReadCapturedOutput(streams: map<string, string>, raw: ReadRequest, compile: string -> Option<Line -> bool>)
    returns (res: Result<ReadOutcome, ReadError>)
    ensures IsReadOutcome(streams, raw, compile, res)
  {
    var normalized := NormalizeOutputReadRequest(raw);
    if normalized.Err? {
      return Err(normalized.error);
    }
    var request := normalized.value;
    if request.stream !in streams {
      return Err(NoSuchStream);
    }
    var content := streams[request.stream];
    if request.mode == "search" {
      var expression := compile(request.pattern);
      if expression.None? {
        return Err(InvalidPattern);
      }
      var search := SearchCapturedOutput(SplitOutputLines(content), expression.value,
        SearchRequest(request.startLine, request.context, request.limit, request.maxMatches));
      return Ok(Searched(search));
    }
    var start := request.offset;
    if request.mode == "tail" {
      start := |content| - request.limit;
      if start < 0 {
        start := 0;
      }
    } else if start > |content| {
      start := |content|;
    }
    var end := start + request.limit;
    if end > |content| {
      end := |content|;
    }
    return Ok(Paged(PageResult(start, end, request.limit, |content|, end == |content|, content[start..end])));
  }
}
